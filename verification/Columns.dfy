/** `_compress_layers`: merging adjacent ranks until the figure is narrow enough. */
module Columns {
  import opened Basics
  import opened Digraph

  ghost predicate Ascending(s: seq<int>) {
    forall i, j :: 0 <= i < j < |s| ==> s[i] < s[j]
  }

  function Insert(s: seq<int>, x: int): (r: seq<int>)
    requires Ascending(s) && x !in s
    ensures Ascending(r) && |r| == |s| + 1
    ensures forall y :: y in r <==> y == x || y in s
  {
    if s == [] || x < s[0] then InsertFront(s, x); [x] + s
    else
      TailAscends(s);
      var tail := Insert(s[1..], x);
      InsertBehind(s, tail, x);
      [s[0]] + tail
  }

  lemma InsertFront(s: seq<int>, x: int)
    requires Ascending(s) && (s == [] || x < s[0])
    ensures Ascending([x] + s) && forall y :: y in [x] + s <==> y == x || y in s
  {
  }

  lemma TailAscends(s: seq<int>)
    requires s != [] && Ascending(s)
    ensures Ascending(s[1..]) && forall y :: y in s[1..] ==> y in s && s[0] < y
    ensures forall y :: y in s ==> y == s[0] || y in s[1..]
  {
    assert s == [s[0]] + s[1..];
  }

  lemma InsertBehind(s: seq<int>, tail: seq<int>, x: int)
    requires s != [] && Ascending(s) && x !in s && s[0] <= x
    requires Ascending(tail) && forall y :: y in tail <==> y == x || y in s[1..]
    ensures Ascending([s[0]] + tail) && forall y :: y in [s[0]] + tail <==> y == x || y in s
  {
    TailAscends(s);
    hide Ascending;
    assert s[0] in s;
    forall y | y in tail ensures s[0] < y {
    }
    InsertLowest(s[0], tail);
  }

  lemma InsertLowest(y: int, tail: seq<int>)
    requires Ascending(tail) && forall z :: z in tail ==> y < z
    ensures Ascending([y] + tail) && forall z :: z in [y] + tail <==> z == y || z in tail
  {
    forall k | 0 <= k < |tail| ensures y < tail[k] {
      assert tail[k] in tail;
    }
  }

  /** The distinct layers, in ascending order. */
  method SortedRanks(values: set<int>) returns (ranks: seq<int>)
    ensures Ascending(ranks) && |ranks| == |values|
    ensures forall v :: v in ranks <==> v in values
  {
    ranks := [];
    var rest := values;
    while rest != {}
      invariant Ascending(ranks) && rest <= values && |ranks| + |rest| == |values|
      invariant forall v :: v in ranks <==> v in values && v !in rest
      decreases |rest|
    {
      assert exists v :: v in rest by {
        if forall v :: v !in rest {
          assert false;
        }
      }
      var v :| v in rest;
      ranks := Insert(ranks, v);
      rest := rest - {v};
    }
  }

  function IndexOf(s: seq<int>, x: int): (i: nat)
    requires x in s
    ensures i < |s| && s[i] == x
  {
    if s[0] == x then 0 else 1 + IndexOf(s[1..], x)
  }

  /** The column of `n`: the position of the first bucket that holds it. */
  function BucketOf(buckets: seq<set<Node>>, n: Node): (i: nat)
    requires InSome(buckets, n)
    ensures i < |buckets| && n in buckets[i]
  {
    if n in buckets[0] then 0
    else
      assert InSome(buckets[1..], n) by {
        var k :| 0 <= k < |buckets| && n in buckets[k];
        assert n in buckets[1..][k - 1];
      }
      1 + BucketOf(buckets[1..], n)
  }

  ghost predicate Before(layer: map<Node, int>, some: set<Node>, others: set<Node>) {
    forall a, b :: a in some && b in others && a in layer && b in layer ==> layer[a] < layer[b]
  }

  ghost predicate InSome(buckets: seq<set<Node>>, n: Node) {
    exists i :: 0 <= i < |buckets| && n in buckets[i]
  }

  /** The buckets split the nodes, none is empty, and layers grow from each bucket to the next. */
  ghost predicate Splits(layer: map<Node, int>, buckets: seq<set<Node>>) {
    && (forall i :: 0 <= i < |buckets| ==> buckets[i] != {} && buckets[i] <= layer.Keys)
    && (forall n :: n in layer ==> InSome(buckets, n))
    && (forall i, j :: 0 <= i < j < |buckets| ==> Before(layer, buckets[i], buckets[j]))
  }

  /** `i` is the first pair of neighbours with the smallest combined population. */
  ghost predicate Cheapest(buckets: seq<set<Node>>, i: nat) {
    i + 1 < |buckets| && forall j: nat :: j + 1 < |buckets| ==> NoDearer(buckets, i, j)
  }

  /** Merging at `i` is preferred to merging at `j`. */
  predicate NoDearer(buckets: seq<set<Node>>, i: nat, j: nat)
    requires i + 1 < |buckets| && j + 1 < |buckets|
  {
    var (here, there) := (|buckets[i]| + |buckets[i + 1]|, |buckets[j]| + |buckets[j + 1]|);
    here < there || (here == there && i <= j)
  }

  /** No pair of neighbours holds fewer nodes, and none before holds as few. */
  lemma CheapestIs(buckets: seq<set<Node>>, i: nat)
    requires i + 1 < |buckets|
    ensures Cheapest(buckets, i) <==>
              (forall j: nat :: j + 1 < |buckets| ==>
                 |buckets[i]| + |buckets[i + 1]| <= |buckets[j]| + |buckets[j + 1]|) &&
              (forall j: nat :: j < i ==> |buckets[i]| + |buckets[i + 1]| < |buckets[j]| + |buckets[j + 1]|)
  {
    forall j: nat | j + 1 < |buckets|
      ensures NoDearer(buckets, i, j) <==>
                |buckets[i]| + |buckets[i + 1]| <= |buckets[j]| + |buckets[j + 1]|
                && (j < i ==> |buckets[i]| + |buckets[i + 1]| < |buckets[j]| + |buckets[j + 1]|)
    {
    }
  }

  function MergeAt(buckets: seq<set<Node>>, i: nat): seq<set<Node>>
    requires i + 1 < |buckets|
  {
    seq(|buckets| - 1, k requires 0 <= k < |buckets| - 1 =>
      if k < i then buckets[k] else if k == i then buckets[i] + buckets[i + 1] else buckets[k + 1])
  }

  /** `to` is what is left of `from` after merging its cheapest pair again and again. */
  ghost predicate MergesDown(from: seq<set<Node>>, to: seq<set<Node>>, maxColumns: int)
    decreases |from|
  {
    if |from| <= maxColumns then to == from
    else exists i :: Cheapest(from, i) && MergesDown(MergeAt(from, i), to, maxColumns)
  }

  /** The cheapest pair is unique, so merging down has one outcome. */
  lemma {:induction false} MergingIsDeterministic(from: seq<set<Node>>, to: seq<set<Node>>, to': seq<set<Node>>,
                                                  maxColumns: int)
    requires MergesDown(from, to, maxColumns) && MergesDown(from, to', maxColumns)
    ensures to == to'
    decreases |from|
  {
    if |from| > maxColumns {
      var i :| Cheapest(from, i) && MergesDown(MergeAt(from, i), to, maxColumns);
      var j :| Cheapest(from, j) && MergesDown(MergeAt(from, j), to', maxColumns);
      assert NoDearer(from, i, j) && NoDearer(from, j, i);
      MergingIsDeterministic(MergeAt(from, i), to, to', maxColumns);
    }
  }

  lemma MergeKeepsSplit(layer: map<Node, int>, buckets: seq<set<Node>>, i: nat)
    requires Splits(layer, buckets) && i + 1 < |buckets|
    ensures Splits(layer, MergeAt(buckets, i))
  {
    hide Before, InSome;
    var merged := MergeAt(buckets, i);
    forall n | n in layer ensures InSome(merged, n) {
      MergeKeepsMembers(buckets, i, n);
    }
    forall j, k | 0 <= j < k < |merged| ensures Before(layer, merged[j], merged[k]) {
      var j', k' := if j <= i then j else j + 1, if k < i then k else k + 1;
      assert Before(layer, buckets[j'], buckets[k']);
      if j == i {
        BeforeUnion(layer, buckets[i], buckets[i + 1], buckets[k']);
      } else if k == i {
        assert Before(layer, buckets[j'], buckets[i]);
        BeforeUnion(layer, buckets[i], buckets[i + 1], buckets[j']);
      }
    }
    forall k | 0 <= k < |merged| ensures merged[k] != {} && merged[k] <= layer.Keys {
      UnionIsNotEmpty(buckets[i], buckets[i + 1]);
    }
  }

  lemma UnionIsNotEmpty(a: set<Node>, b: set<Node>)
    ensures a != {} ==> a + b != {}
  {
    if a != {} {
      var n :| n in a;
      assert n in a + b;
    }
  }

  lemma MergeKeepsMembers(buckets: seq<set<Node>>, i: nat, n: Node)
    requires i + 1 < |buckets| && InSome(buckets, n)
    ensures InSome(MergeAt(buckets, i), n)
  {
    var k :| 0 <= k < |buckets| && n in buckets[k];
    assert n in MergeAt(buckets, i)[if k <= i then k else k - 1];
  }

  lemma BeforeUnion(layer: map<Node, int>, a: set<Node>, b: set<Node>, c: set<Node>)
    ensures Before(layer, a, c) && Before(layer, b, c) ==> Before(layer, a + b, c)
    ensures Before(layer, c, a) && Before(layer, c, b) ==> Before(layer, c, a + b)
  {
  }

  method FindCheapest(buckets: seq<set<Node>>) returns (index: nat)
    requires |buckets| >= 2
    ensures Cheapest(buckets, index)
  {
    index := 0;
    for i := 1 to |buckets| - 1
      invariant index < i
      invariant forall j: nat :: j < i ==> NoDearer(buckets, index, j)
    {
      ghost var before := index;
      if |buckets[i]| + |buckets[i + 1]| < |buckets[index]| + |buckets[index + 1]| {
        index := i;
      }
      forall j: nat | j < i ensures NoDearer(buckets, index, j) {
        assert NoDearer(buckets, before, j);
      }
    }
  }

  /** The nodes of each rank, lowest rank first. */
  ghost predicate RankBuckets(layer: map<Node, int>, ranks: seq<int>, buckets: seq<set<Node>>) {
    |buckets| == |ranks| &&
    forall i :: 0 <= i < |ranks| ==> buckets[i] == set n | n in layer && layer[n] == ranks[i]
  }

  ghost predicate RanksOf(layer: map<Node, int>, ranks: seq<int>) {
    Ascending(ranks) && forall v :: v in ranks <==> v in layer.Values
  }

  /** `column` numbers `count` columns densely from 0 and keeps the weak order of the layers. */
  ghost predicate Compact(layer: map<Node, int>, column: map<Node, int>, count: nat) {
    && column.Keys == layer.Keys
    && (forall n :: n in column ==> 0 <= column[n] < count)
    && (forall c :: 0 <= c < count ==> c in column.Values)
    && (forall a, b :: a in layer && b in layer && layer[a] <= layer[b] ==> column[a] <= column[b])
  }

  /** The columns read off buckets. */
  ghost predicate ReadOff(layer: map<Node, int>, buckets: seq<set<Node>>, column: map<Node, int>) {
    column.Keys == layer.Keys &&
    forall n :: n in column ==> 0 <= column[n] < |buckets| && n in buckets[column[n]]
  }

  lemma SplitIsCompact(layer: map<Node, int>, buckets: seq<set<Node>>, column: map<Node, int>)
    requires Splits(layer, buckets) && ReadOff(layer, buckets, column)
    ensures Compact(layer, column, |buckets|)
  {
    hide InSome, Before;
    forall c | 0 <= c < |buckets| ensures c in column.Values {
      var n :| n in buckets[c];
      if column[n] != c {
        BucketsDiffer(layer, buckets, column[n], c, n);
      }
      assert n in column;
    }
    forall a, b | a in layer && b in layer && layer[a] <= layer[b] ensures column[a] <= column[b] {
      if column[b] < column[a] {
        BucketOrder(layer, buckets, column[b], column[a], b, a);
      }
    }
  }

  lemma BucketOrder(layer: map<Node, int>, buckets: seq<set<Node>>, i: int, j: int, a: Node, b: Node)
    requires Splits(layer, buckets) && 0 <= i < j < |buckets| && a in buckets[i] && b in buckets[j]
    ensures a in layer && b in layer && layer[a] < layer[b]
  {
    assert Before(layer, buckets[i], buckets[j]);
  }

  lemma BucketsDiffer(layer: map<Node, int>, buckets: seq<set<Node>>, i: int, j: int, n: Node)
    requires Splits(layer, buckets) && 0 <= i < |buckets| && 0 <= j < |buckets| && i != j
    ensures n !in buckets[i] || n !in buckets[j]
  {
    if n in buckets[i] && n in buckets[j] {
      BucketOrder(layer, buckets, if i < j then i else j, if i < j then j else i, n, n);
    }
  }

  lemma RanksSplit(layer: map<Node, int>, ranks: seq<int>, buckets: seq<set<Node>>)
    requires RanksOf(layer, ranks) && RankBuckets(layer, ranks, buckets)
    ensures Splits(layer, buckets)
  {
    forall i | 0 <= i < |buckets| ensures buckets[i] != {} {
      assert ranks[i] in ranks;
      var n :| n in layer && layer[n] == ranks[i];
      assert n in buckets[i];
    }
    forall n | n in layer ensures InSome(buckets, n) {
      assert layer[n] in layer.Values;
      var i :| 0 <= i < |ranks| && ranks[i] == layer[n];
      assert n in buckets[i];
    }
  }

  /** The buckets of the result are those of the ranks, merged down. */
  ghost predicate FromRanks(layer: map<Node, int>, maxColumns: int, column: map<Node, int>) {
    exists ranks, start, buckets ::
      RanksOf(layer, ranks) && RankBuckets(layer, ranks, start) &&
      MergesDown(start, buckets, maxColumns) && ReadOff(layer, buckets, column)
  }

  method MakeBuckets(layer: map<Node, int>, ranks: seq<int>) returns (buckets: seq<set<Node>>)
    ensures RankBuckets(layer, ranks, buckets)
  {
    buckets := [];
    for i := 0 to |ranks|
      invariant RankBuckets(layer, ranks[..i], buckets)
    {
      buckets := buckets + [set n | n in layer && layer[n] == ranks[i]];
    }
    assert ranks[..|ranks|] == ranks;
  }

  /** Merges until at most `maxColumns` buckets are left; None when there is no pair left to merge. */
  method MergeBuckets(layer: map<Node, int>, start: seq<set<Node>>, maxColumns: int) returns (r: Option<seq<set<Node>>>)
    requires Splits(layer, start) && |start| > maxColumns
    ensures r.None? <==> maxColumns < 1
    ensures r.Some? ==> |r.value| == maxColumns && Splits(layer, r.value) && MergesDown(start, r.value, maxColumns)
  {
    hide Splits;
    var buckets := start;
    while |buckets| > maxColumns
      invariant Splits(layer, buckets) && |buckets| >= maxColumns
      invariant |buckets| == 0 ==> maxColumns < 0
      invariant forall to :: MergesDown(buckets, to, maxColumns) ==> MergesDown(start, to, maxColumns)
      decreases |buckets|
    {
      if |buckets| < 2 {
        return None;
      }
      var index := FindCheapest(buckets);
      MergeKeepsSplit(layer, buckets, index);
      buckets := MergeAt(buckets, index);
    }
    assert maxColumns >= 1;
    r := Some(buckets);
  }

  /** At most `maxColumns` columns, densely numbered, in the order of the layers. The source
      raises a ValueError (here: None) when there is no pair left to merge. */
  method CompressLayers(layer: map<Node, int>, maxColumns: int) returns (r: Option<map<Node, int>>, ghost columns: nat)
    ensures r.None? <==> maxColumns < 1 && |layer.Values| > maxColumns
    ensures r.Some? ==> Compact(layer, r.value, columns) && FromRanks(layer, maxColumns, r.value)
    ensures r.Some? ==> columns == if |layer.Values| <= maxColumns then |layer.Values| else maxColumns
    ensures r.Some? && |layer.Values| <= maxColumns ==> Strict(layer, r.value)
  {
    hide MergesDown, Compact, Splits, Ascending, FromRanks, InSome, RankBuckets, ReadOff, Strict;
    var ranks := SortedRanks(layer.Values);
    var start := MakeBuckets(layer, ranks);
    RanksSplit(layer, ranks, start);
    if |ranks| <= maxColumns {
      var column := map n | n in layer :: IndexOf(ranks, layer[n]);
      AlreadyDown(start, maxColumns);
      RanksReadOff(layer, ranks, start, column);
      RanksStrict(layer, ranks, column);
      columns := |start|;
      ReadOffSplit(layer, ranks, start, start, maxColumns, column);
      r := Some(column);
    } else {
      var merged := MergeBuckets(layer, start, maxColumns);
      if merged.None? {
        return None, 0;
      }
      SplitsCover(layer, merged.value);
      var column := map n | n in layer :: BucketOf(merged.value, n);
      BucketsReadOff(layer, merged.value, column);
      columns := |merged.value|;
      ReadOffSplit(layer, ranks, start, merged.value, maxColumns, column);
      r := Some(column);
    }
  }

  /** A higher layer has a higher column. */
  ghost predicate Strict(layer: map<Node, int>, column: map<Node, int>) {
    forall a, b :: a in layer && b in layer && layer[a] < layer[b] ==>
      a in column && b in column && column[a] < column[b]
  }

  lemma RanksStrict(layer: map<Node, int>, ranks: seq<int>, column: map<Node, int>)
    requires Ascending(ranks) && forall n :: n in layer ==> layer[n] in ranks
    requires column.Keys == layer.Keys && forall n :: n in layer ==> column[n] == IndexOf(ranks, layer[n])
    ensures Strict(layer, column)
  {
    hide IndexOf;
  }

  lemma SplitsCover(layer: map<Node, int>, buckets: seq<set<Node>>)
    requires Splits(layer, buckets)
    ensures forall n :: n in layer ==> InSome(buckets, n)
  {
  }

  lemma BucketsReadOff(layer: map<Node, int>, buckets: seq<set<Node>>, column: map<Node, int>)
    requires forall n :: n in layer ==> InSome(buckets, n)
    requires column.Keys == layer.Keys && forall n :: n in layer ==> column[n] == BucketOf(buckets, n)
    ensures ReadOff(layer, buckets, column)
  {
    hide InSome, BucketOf;
  }

  lemma RanksReadOff(layer: map<Node, int>, ranks: seq<int>, buckets: seq<set<Node>>, column: map<Node, int>)
    requires RankBuckets(layer, ranks, buckets) && forall n :: n in layer ==> layer[n] in ranks
    requires column.Keys == layer.Keys && forall n :: n in layer ==> column[n] == IndexOf(ranks, layer[n])
    ensures ReadOff(layer, buckets, column)
  {
  }

  lemma ReadOffSplit(layer: map<Node, int>, ranks: seq<int>, start: seq<set<Node>>, buckets: seq<set<Node>>,
                     maxColumns: int, column: map<Node, int>)
    requires RanksOf(layer, ranks) && RankBuckets(layer, ranks, start) && MergesDown(start, buckets, maxColumns)
    requires Splits(layer, buckets) && ReadOff(layer, buckets, column)
    ensures Compact(layer, column, |buckets|) && FromRanks(layer, maxColumns, column)
  {
    SplitIsCompact(layer, buckets, column);
  }

  lemma AlreadyDown(start: seq<set<Node>>, maxColumns: int)
    requires |start| <= maxColumns
    ensures MergesDown(start, start, maxColumns)
  {
  }
}
