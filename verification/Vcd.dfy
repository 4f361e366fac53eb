/** `parse_vcd` and the streaming counter of `_vcd_timing`, on the value changes of a dump
    (section 18.2 of IEEE 1364-2005) cut into whitespace-separated tokens. */
module Vcd {
  import opened Basics

  /** A recorded value; x and z read as Unknown. */
  datatype Value = Unknown | Known(n: nat)

  datatype Sample = Sample(id: string, time: int, value: Value)

  // ----- Numbers

  function Digit(c: char, base: nat): Option<nat> {
    if '0' <= c <= '9' && (c - '0') as nat < base then Some((c - '0') as nat) else None
  }

  /** `int(s, base)` on unsigned digits; None stands for the ValueError. */
  function ParseInt(s: string, base: nat): Option<nat> {
    if s == [] then None
    else
      match Digit(s[|s| - 1], base)
      case None => None
      case Some(d) =>
        if |s| == 1 then Some(d)
        else
          match ParseInt(s[..|s| - 1], base)
          case None => None
          case Some(n) => Some(n * base + d)
  }

  function Decimal(n: nat): string {
    (if n < 10 then [] else Decimal(n / 10)) + ['0' + (n % 10) as char]
  }

  lemma {:induction false} DecimalReads(n: nat)
    ensures ParseInt(Decimal(n), 10) == Some(n)
  {
    var s := Decimal(n);
    if n >= 10 {
      DecimalReads(n / 10);
      assert s[..|s| - 1] == Decimal(n / 10);
    }
  }

  function Binary(n: nat): string {
    (if n < 2 then [] else Binary(n / 2)) + [if n % 2 == 0 then '0' else '1']
  }

  function Zeros(k: nat): string {
    seq(k, _ => '0')
  }

  lemma {:induction false} ZerosRead(k: nat)
    requires k > 0
    ensures ParseInt(Zeros(k), 2) == Some(0)
  {
    if k > 1 {
      assert Zeros(k)[..k - 1] == Zeros(k - 1);
      ZerosRead(k - 1);
    }
  }

  lemma ZerosLength(k: nat)
    ensures |Zeros(k)| == k
  {
  }

  lemma {:induction false} BinaryReads(pad: nat, n: nat)
    ensures ParseInt(Zeros(pad) + Binary(n), 2) == Some(n)
  {
    hide Zeros;
    var s := Zeros(pad) + Binary(n);
    if n >= 2 {
      BinaryReads(pad, n / 2);
      assert s[..|s| - 1] == Zeros(pad) + Binary(n / 2);
    } else {
      assert s[..|s| - 1] == Zeros(pad);
      ZerosLength(pad);
      if pad > 0 {
        ZerosRead(pad);
      }
    }
  }

  // ----- The reader

  predicate IsLevel(c: char) { c in "01xXzZ" }

  function LevelValue(c: char): Value {
    if c == '1' then Known(1) else if c == '0' then Known(0) else Unknown
  }

  /** `re.sub("[xXzZ]", "0", bits)` */
  function ZeroUnknowns(bits: string): string {
    seq(|bits|, k requires 0 <= k < |bits| => if bits[k] in "xXzZ" then '0' else bits[k])
  }

  function VectorValue(bits: string): Value {
    match ParseInt(ZeroUnknowns(bits), 2)
    case None => Unknown
    case Some(n) => Known(n)
  }

  function After(toks: seq<string>, k: nat): seq<string> {
    if k <= |toks| then toks[k..] else []
  }

  /** The changes a token list stands for, from time `now` on. */
  function Scan(toks: seq<string>, now: int): seq<Sample>
    decreases |toks|
  {
    if toks == [] then []
    else
      var t := toks[0];
      if t == [] then Scan(toks[1..], now)
      else if t[0] == '#' then
        Scan(toks[1..], match ParseInt(t[1..], 10) case None => now case Some(n) => n)
      else if IsLevel(t[0]) && |t| >= 2 then [Sample(t[1..], now, LevelValue(t[0]))] + Scan(toks[1..], now)
      else if t[0] in "bB" then
        [Sample(if |toks| > 1 then toks[1] else "", now, VectorValue(t[1..]))] + Scan(After(toks, 2), now)
      else if t[0] in "rR" then Scan(After(toks, 2), now)
      else Scan(toks[1..], now)
  }

  function SeriesOf(samples: seq<Sample>, id: string): seq<(int, Value)> {
    if samples == [] then []
    else (if samples[0].id == id then [(samples[0].time, samples[0].value)] else []) + SeriesOf(samples[1..], id)
  }

  /** `series` are the timed values of the samples at the places `at`, which are all those of `id`, in order. */
  ghost predicate SeriesAt(samples: seq<Sample>, id: string, series: seq<(int, Value)>, at: seq<nat>) {
    && |at| == |series|
    && (forall k :: 0 <= k < |at| ==>
          at[k] < |samples| && samples[at[k]] == Sample(id, series[k].0, series[k].1))
    && (forall k, l :: 0 <= k < l < |at| ==> at[k] < at[l])
    && (forall i: nat :: i < |samples| && samples[i].id == id ==> i in at)
  }

  lemma {:induction false} SeriesIs(samples: seq<Sample>, id: string) returns (at: seq<nat>)
    ensures SeriesAt(samples, id, SeriesOf(samples, id), at)
    decreases |samples|
  {
    hide SeriesAt, SeriesOf;
    if samples == [] {
      at := [];
      NoSeries(id);
    } else {
      var front, last := samples[..|samples| - 1], samples[|samples| - 1];
      assert front + [last] == samples;
      at := SeriesIs(front, id);
      SeriesMore(front, last, id);
      PlaceMore(front, last, id, SeriesOf(front, id), at);
      if last.id == id {
        at := at + [|front|];
      } else {
        assert SeriesOf(front, id) + [] == SeriesOf(front, id);
      }
    }
  }

  lemma NoSeries(id: string)
    ensures SeriesAt([], id, SeriesOf([], id), [])
  {
  }

  lemma {:induction false} SeriesMore(samples: seq<Sample>, last: Sample, id: string)
    ensures SeriesOf(samples + [last], id) == SeriesOf(samples, id) + SeriesOf([last], id)
    ensures SeriesOf([last], id) == if last.id == id then [(last.time, last.value)] else []
  {
    assert [last][1..] == [] && SeriesOf([], id) == [];
    if samples == [] {
      assert [] + [last] == [last];
    } else {
      var rest := samples[1..];
      SeriesMore(rest, last, id);
      SeriesOfOne(samples[0], rest + [last], id);
      SeriesOfOne(samples[0], rest, id);
      assert samples + [last] == [samples[0]] + (rest + [last]) && samples == [samples[0]] + rest;
    }
  }

  lemma PlaceMore(samples: seq<Sample>, last: Sample, id: string, series: seq<(int, Value)>, at: seq<nat>)
    requires SeriesAt(samples, id, series, at)
    ensures if last.id == id
            then SeriesAt(samples + [last], id, series + [(last.time, last.value)], at + [|samples|])
            else SeriesAt(samples + [last], id, series, at)
  {
    var all := samples + [last];
    assert forall i :: 0 <= i < |samples| ==> all[i] == samples[i];
    assert all[|samples|] == last;
  }

  ghost predicate ReadSoFar(ids: set<string>, series: map<string, seq<(int, Value)>>, toks: seq<string>, i: nat,
                            now: int) {
    series.Keys == ids &&
    forall id :: id in ids ==> series[id] + SeriesOf(Scan(After(toks, i), now), id) == SeriesOf(Scan(toks, 0), id)
  }

  /** The cursor loop of the source over the tokens behind `$enddefinitions`; `ids` are declared. */
  method ParseVcd(ids: set<string>, toks: seq<string>) returns (series: map<string, seq<(int, Value)>>)
    requires "" !in ids
    ensures series.Keys == ids
    ensures forall id :: id in ids ==> series[id] == SeriesOf(Scan(toks, 0), id)
  {
    hide ReadSoFar;
    series := map id | id in ids :: [];
    var now: int, i := 0, 0;
    ReadBegins(ids, series, toks);
    while i < |toks|
      invariant ReadSoFar(ids, series, toks, i, now)
      decreases |toks| - i
    {
      var t := toks[i];
      ReadOn(ids, series, toks, i, now);
      if t == [] {
      } else if t[0] == '#' {
        var n := ParseInt(t[1..], 10);
        if n.Some? {
          now := n.value;
        }
      } else if IsLevel(t[0]) && |t| >= 2 {
        var id := t[1..];
        if id in series {
          series := series[id := series[id] + [(now, LevelValue(t[0]))]];
        }
      } else if t[0] in "bB" {
        i := i + 1;
        var id := if i < |toks| then toks[i] else "";
        if id in series {
          series := series[id := series[id] + [(now, VectorValue(t[1..]))]];
        }
      } else if t[0] in "rR" {
        i := i + 1;
      }
      i := i + 1;
    }
    ReadEnds(ids, series, toks, i, now);
  }

  lemma ReadBegins(ids: set<string>, series: map<string, seq<(int, Value)>>, toks: seq<string>)
    requires series == map id | id in ids :: []
    ensures ReadSoFar(ids, series, toks, 0, 0)
  {
  }

  lemma ReadEnds(ids: set<string>, series: map<string, seq<(int, Value)>>, toks: seq<string>, i: nat, now: int)
    requires ReadSoFar(ids, series, toks, i, now) && i >= |toks|
    ensures series.Keys == ids && forall id :: id in ids ==> series[id] == SeriesOf(Scan(toks, 0), id)
  {
  }

  function Record(series: map<string, seq<(int, Value)>>, s: Sample): map<string, seq<(int, Value)>> {
    if s.id in series then series[s.id := series[s.id] + [(s.time, s.value)]] else series
  }

  lemma {:induction false} ReadSample(ids: set<string>, series: map<string, seq<(int, Value)>>, toks: seq<string>,
                                      i: nat, j: nat, now: int, s: Sample)
    requires ReadSoFar(ids, series, toks, i, now)
    requires Scan(After(toks, i), now) == [s] + Scan(After(toks, j), now)
    ensures ReadSoFar(ids, Record(series, s), toks, j, now)
  {
    hide Scan, After, SeriesOf;
    var rest := Scan(After(toks, j), now);
    forall id | id in ids
      ensures Record(series, s)[id] + SeriesOf(rest, id) == SeriesOf(Scan(toks, 0), id)
    {
      SeriesOfOne(s, rest, id);
      assert series[id] + SeriesOf([s] + rest, id) == SeriesOf(Scan(toks, 0), id);
    }
  }

  lemma SeriesOfOne(s: Sample, rest: seq<Sample>, id: string)
    ensures SeriesOf([s] + rest, id) == (if s.id == id then [(s.time, s.value)] else []) + SeriesOf(rest, id)
  {
    assert ([s] + rest)[1..] == rest;
  }

  lemma ReadNothing(ids: set<string>, series: map<string, seq<(int, Value)>>, toks: seq<string>, i: nat, j: nat,
                    now: int, next: int)
    requires ReadSoFar(ids, series, toks, i, now)
    requires Scan(After(toks, i), now) == Scan(After(toks, j), next)
    ensures ReadSoFar(ids, series, toks, j, next)
  {
  }

  /** What one turn of the loop does to the invariant. */
  lemma ReadOn(ids: set<string>, series: map<string, seq<(int, Value)>>, toks: seq<string>, i: nat, now: int)
    requires i < |toks| && ReadSoFar(ids, series, toks, i, now)
    ensures var t := toks[i];
            if t == [] then ReadSoFar(ids, series, toks, i + 1, now)
            else if t[0] == '#' then
              ReadSoFar(ids, series, toks, i + 1, match ParseInt(t[1..], 10) case None => now case Some(n) => n)
            else if IsLevel(t[0]) && |t| >= 2 then
              ReadSoFar(ids, Record(series, Sample(t[1..], now, LevelValue(t[0]))), toks, i + 1, now)
            else if t[0] in "bB" then
              var id := if i + 1 < |toks| then toks[i + 1] else "";
              ReadSoFar(ids, Record(series, Sample(id, now, VectorValue(t[1..]))), toks, i + 2, now)
            else if t[0] in "rR" then ReadSoFar(ids, series, toks, i + 2, now)
            else ReadSoFar(ids, series, toks, i + 1, now)
  {
    hide ReadSoFar;
    var t, here := toks[i], After(toks, i);
    assert here[1..] == After(toks, i + 1) && After(here, 2) == After(toks, i + 2);
    if t == [] {
      ReadNothing(ids, series, toks, i, i + 1, now, now);
    } else if t[0] == '#' {
      ReadNothing(ids, series, toks, i, i + 1, now, match ParseInt(t[1..], 10) case None => now case Some(n) => n);
    } else if IsLevel(t[0]) && |t| >= 2 {
      ReadSample(ids, series, toks, i, i + 1, now, Sample(t[1..], now, LevelValue(t[0])));
    } else if t[0] in "bB" {
      ReadSample(ids, series, toks, i, i + 2, now,
                 Sample(if i + 1 < |toks| then toks[i + 1] else "", now, VectorValue(t[1..])));
    } else if t[0] in "rR" {
      ReadNothing(ids, series, toks, i, i + 2, now, now);
    } else {
      ReadNothing(ids, series, toks, i, i + 1, now, now);
    }
  }

  // ----- A dump with one change per line

  /** A vector is a number, printed with any zeros in front, or has x or z among its bits; the letter
      in front of a vector or a real is small or capital. A directive stands for a line such as
      `$dumpvars` or `$end`. */
  datatype Change =
    | Time(t: nat)
    | Scalar(level: char, id: string)
    | Vector(letter: char, pad: nat, n: nat, id: string)
    | Unclear(letter: char, bits: string, id: string)
    | RealChange(letter: char, text: string, id: string)
    | Directive(word: string)

  predicate WellFormed(c: Change) {
    match c
    case Time(_) => true
    case Scalar(level, id) => level in "01xXzZ" && id != []
    case Vector(letter, _, _, id) => letter in "bB" && id != []
    case Unclear(letter, bits, id) =>
      && letter in "bB" && id != []
      && (forall k :: 0 <= k < |bits| ==> bits[k] in "01xXzZ") && exists k :: 0 <= k < |bits| && bits[k] in "xXzZ"
    case RealChange(letter, _, id) => letter in "rR" && id != []
    case Directive(word) => word != [] && word[0] == '$'
  }

  /** The tokens of the line a change is printed as. */
  function Line(c: Change): seq<string> {
    match c
    case Time(t) => ["#" + Decimal(t)]
    case Scalar(level, id) => [[level] + id]
    case Vector(letter, pad, n, id) => [[letter] + (Zeros(pad) + Binary(n)), id]
    case Unclear(letter, bits, id) => [[letter] + bits, id]
    case RealChange(letter, text, id) => [[letter] + text, id]
    case Directive(word) => [word]
  }

  function Lines(changes: seq<Change>): seq<seq<string>> {
    seq(|changes|, k requires 0 <= k < |changes| => Line(changes[k]))
  }

  /** `body.split()` */
  function Tokens(lines: seq<seq<string>>): seq<string> {
    if lines == [] then [] else lines[0] + Tokens(lines[1..])
  }

  /** The value a change gives its signal. */
  function ValueOf(c: Change): Value {
    match c
    case Scalar(level, _) => if level == '0' then Known(0) else if level == '1' then Known(1) else Unknown
    case Vector(_, _, n, _) => Known(n)
    case _ => Unknown
  }

  predicate Changes(c: Change) {
    c.Scalar? || c.Vector? || c.Unclear?
  }

  /** The timed values a dump says its signals take. */
  function Meaning(changes: seq<Change>, now: int): seq<Sample> {
    if changes == [] then []
    else
      var c := changes[0];
      (if Changes(c) then [Sample(c.id, now, ValueOf(c))] else []) + Meaning(changes[1..], if c.Time? then c.t else now)
  }

  /** The value the reader takes from a change. */
  function ReadValue(c: Change): Value {
    if c.Unclear? then VectorValue(c.bits) else if c.Scalar? then LevelValue(c.level) else ValueOf(c)
  }

  function Reading(changes: seq<Change>, now: int): seq<Sample> {
    if changes == [] then []
    else
      var c := changes[0];
      (if Changes(c) then [Sample(c.id, now, ReadValue(c))] else [])
          + Reading(changes[1..], if c.Time? then c.t else now)
  }

  lemma {:induction false} ScanReads(changes: seq<Change>, now: int)
    requires forall c :: c in changes ==> WellFormed(c)
    ensures Scan(Tokens(Lines(changes)), now) == Reading(changes, now)
  {
    hide Scan, Line, WellFormed;
    if changes != [] {
      var c := changes[0];
      var rest := Tokens(Lines(changes[1..]));
      assert c in changes;
      assert Lines(changes)[1..] == Lines(changes[1..]);
      assert Tokens(Lines(changes)) == Line(c) + rest;
      ScanReads(changes[1..], if c.Time? then c.t else now);
      ScanLine(c, rest, now);
    } else {
      ScanNothing(now);
    }
  }

  lemma ScanNothing(now: int)
    ensures Scan([], now) == []
  {
  }

  lemma ScanLine(c: Change, rest: seq<string>, now: int)
    requires WellFormed(c)
    ensures Scan(Line(c) + rest, now) ==
              (if Changes(c) then [Sample(c.id, now, ReadValue(c))] else []) + Scan(rest, if c.Time? then c.t else now)
  {
    hide Scan, ParseInt, Decimal, VectorValue, LevelValue, Zeros, Binary, ZeroUnknowns;
    match c
    case Time(t) => ScanTime(t, rest, now);
    case Scalar(level, id) => ScanScalar(level, id, rest, now);
    case Vector(letter, pad, n, id) =>
      ScanVector(letter, Zeros(pad) + Binary(n), id, rest, now);
      NumberReads(pad, n);
    case Unclear(letter, bits, id) => ScanVector(letter, bits, id, rest, now);
    case RealChange(letter, text, id) => ScanReal(letter, text, id, rest, now);
    case Directive(word) => ScanWord(word, rest, now);
  }

  lemma ScanTime(t: nat, rest: seq<string>, now: int)
    ensures Scan(["#" + Decimal(t)] + rest, now) == Scan(rest, t)
  {
    hide ParseInt, Decimal;
    var toks := ["#" + Decimal(t)] + rest;
    assert toks[0][1..] == Decimal(t) && toks[1..] == rest;
    DecimalReads(t);
  }

  lemma ScanScalar(level: char, id: string, rest: seq<string>, now: int)
    requires IsLevel(level) && id != []
    ensures Scan([[level] + id] + rest, now) == [Sample(id, now, LevelValue(level))] + Scan(rest, now)
  {
    hide ParseInt, LevelValue;
    var toks := [[level] + id] + rest;
    assert toks[0][1..] == id && toks[1..] == rest;
  }

  lemma ScanVector(letter: char, bits: string, id: string, rest: seq<string>, now: int)
    requires letter in "bB"
    ensures Scan([[letter] + bits, id] + rest, now) == [Sample(id, now, VectorValue(bits))] + Scan(rest, now)
  {
    hide ParseInt, VectorValue;
    var toks := [[letter] + bits, id] + rest;
    assert toks[0][1..] == bits && toks[1] == id && After(toks, 2) == rest;
  }

  lemma ScanReal(letter: char, text: string, id: string, rest: seq<string>, now: int)
    requires letter in "rR"
    ensures Scan([[letter] + text, id] + rest, now) == Scan(rest, now)
  {
    hide ParseInt;
    var toks := [[letter] + text, id] + rest;
    assert toks[0][0] == letter && After(toks, 2) == rest;
  }

  lemma ScanWord(word: string, rest: seq<string>, now: int)
    requires word != [] && word[0] == '$'
    ensures Scan([word] + rest, now) == Scan(rest, now)
  {
    hide ParseInt;
    assert ([word] + rest)[1..] == rest;
  }

  lemma NumberReads(pad: nat, n: nat)
    ensures VectorValue(Zeros(pad) + Binary(n)) == Known(n)
  {
    hide ParseInt;
    BinaryIsClear(n);
    assert ZeroUnknowns(Zeros(pad) + Binary(n)) == Zeros(pad) + Binary(n);
    BinaryReads(pad, n);
  }

  lemma {:induction false} BinaryIsClear(n: nat)
    ensures forall k :: 0 <= k < |Binary(n)| ==> Binary(n)[k] in "01"
  {
    if n >= 2 {
      BinaryIsClear(n / 2);
    }
  }

  /** Reading a printed dump gives back exactly its timed values, exactly when no vector in it has
      an x or z bit. */
  lemma {:induction false} ScanPrintedIff(changes: seq<Change>, now: int)
    requires forall c :: c in changes ==> WellFormed(c)
    ensures Scan(Tokens(Lines(changes)), now) == Meaning(changes, now) <==> forall c :: c in changes ==> !c.Unclear?
  {
    ScanReads(changes, now);
    ReadingIsMeaningIff(changes, now);
  }

  lemma {:induction false} ReadingIsMeaningIff(changes: seq<Change>, now: int)
    requires forall c :: c in changes ==> WellFormed(c)
    ensures |Reading(changes, now)| == |Meaning(changes, now)|
    ensures Reading(changes, now) == Meaning(changes, now) <==> forall c :: c in changes ==> !c.Unclear?
  {
    hide VectorValue, LevelValue;
    if changes != [] {
      var c := changes[0];
      var next := if c.Time? then c.t else now;
      var r, m := Reading(changes[1..], next), Meaning(changes[1..], next);
      assert c in changes;
      assert changes == [c] + changes[1..];
      ReadingIsMeaningIff(changes[1..], next);
      if Changes(c) {
        var s, t := Sample(c.id, now, ReadValue(c)), Sample(c.id, now, ValueOf(c));
        assert [s] + r == [t] + m <==> s == t && r == m by {
          assert ([s] + r)[0] == s && ([t] + m)[0] == t && ([s] + r)[1..] == r && ([t] + m)[1..] == m;
        }
        if c.Unclear? {
          UnclearIsRead(c.bits);
        } else if c.Scalar? {
          LevelIs(c.level);
        }
      } else {
        assert [] + r == r && [] + m == m;
      }
    }
  }

  lemma LevelIs(level: char)
    requires level in "01xXzZ"
    ensures LevelValue(level) == ValueOf(Scalar(level, "")) && IsLevel(level)
  {
  }

  lemma UnclearIsRead(bits: string)
    requires bits != [] && forall k :: 0 <= k < |bits| ==> IsLevel(bits[k])
    ensures VectorValue(bits).Known?
  {
    DigitsRead(ZeroUnknowns(bits));
  }

  /** A 4-state vector: known only when each of its bits is. */
  function FourState(bits: string): Value {
    if exists k :: 0 <= k < |bits| && bits[k] in "xXzZ" then Unknown
    else match ParseInt(bits, 2) case None => Unknown case Some(n) => Known(n)
  }

  lemma {:induction false} DigitsRead(bits: string)
    requires bits != [] && forall k :: 0 <= k < |bits| ==> bits[k] in "01"
    ensures ParseInt(bits, 2).Some?
  {
    var front := bits[..|bits| - 1];
    if front != [] {
      DigitsRead(front);
    }
  }

  /** The reader's value of a vector is its 4-state value exactly when it holds no x or z bit:
      such a bit silently reads as 0. */
  lemma VectorIsFaithfulIff(bits: string)
    requires bits != [] && forall k :: 0 <= k < |bits| ==> IsLevel(bits[k])
    ensures VectorValue(bits) == FourState(bits) <==> forall k :: 0 <= k < |bits| ==> bits[k] in "01"
  {
    DigitsRead(ZeroUnknowns(bits));
    if forall k :: 0 <= k < |bits| ==> bits[k] in "01" {
      assert ZeroUnknowns(bits) == bits;
    } else {
      var k :| 0 <= k < |bits| && bits[k] !in "01";
      assert bits[k] in "xXzZ";
    }
  }

  /** One such vector: 1x is read as 2. */
  lemma HalfKnownVector()
    ensures VectorValue("1x") == Known(2) && FourState("1x") == Unknown
  {
    assert ZeroUnknowns("1x") == "10";
    assert "10"[..1] == "1";
    assert "1x"[1] in "xXzZ";
  }

  // ----- The streaming counter

  /** The rising and falling edges the counter recognises, as the levels they lead to. */
  function EdgesSeen(lines: seq<seq<string>>, clk: string): seq<nat> {
    if lines == [] then []
    else
      EdgeOf(lines[0], clk) + EdgesSeen(lines[1..], clk)
  }

  /** The steps from 0 to 1. */
  function Rises(levels: seq<nat>): nat {
    if |levels| < 2 then 0
    else Rises(levels[..|levels| - 1]) + if levels[|levels| - 2] == 0 && levels[|levels| - 1] == 1 then 1 else 0
  }

  function EdgeOf(line: seq<string>, clk: string): seq<nat> {
    if line == ["1" + clk] then [1] else if line == ["0" + clk] then [0] else []
  }

  /** `int` of what stands behind the hash, which may be set off by blanks but not hold any. */
  function TimeRead(line: seq<string>): Option<nat>
    requires line != [] && line[0] != []
  {
    if |line| == 1 then ParseInt(line[0][1..], 10)
    else if |line| == 2 && |line[0]| == 1 then ParseInt(line[1], 10)
    else None
  }

  function TimeOf(line: seq<string>, now: int): int {
    if line != [] && line[0] != [] && line[0][0] == '#' then
      match TimeRead(line) case None => now case Some(n) => n
    else now
  }

  function LastTime(lines: seq<seq<string>>, now: int): int {
    if lines == [] then now
    else
      LastTime(lines[1..], TimeOf(lines[0], now))
  }

  /** One pass over the lines in constant memory. A line is the list of its tokens: it equals
      the one-token line it is compared with exactly when that token is all it holds. */
  method CountCycles(lines: seq<seq<string>>, clk: string) returns (cycles: nat, endTime: int)
    requires clk != []
    ensures cycles == Rises(EdgesSeen(lines, clk)) && endTime == LastTime(lines, 0)
  {
    hide Rises, EdgesSeen, LastTime, TimeRead;
    cycles, endTime := 0, 0;
    var last: Option<nat> := None;
    ghost var seen: seq<nat> := [];
    CountBegins(lines, clk);
    for i := 0 to |lines|
      invariant seen + EdgesSeen(lines[i..], clk) == EdgesSeen(lines, clk)
      invariant cycles == Rises(seen)
      invariant last == if seen == [] then None else Some(seen[|seen| - 1])
      invariant LastTime(lines[i..], endTime) == LastTime(lines, 0)
    {
      var line := lines[i];
      LineStep(lines, i, clk, endTime);
      if line == [] || line[0] == [] {
        continue;
      }
      if line[0][0] == '#' {
        var n := TimeRead(line);
        if n.Some? {
          endTime := n.value;
        }
      } else if line == ["1" + clk] {
        RisesStep(seen, 1);
        if last == Some(0) {
          cycles := cycles + 1;
        }
        last := Some(1);
        seen := seen + [1];
      } else if line == ["0" + clk] {
        RisesStep(seen, 0);
        last := Some(0);
        seen := seen + [0];
      }
    }
    CountEnds(lines, clk, endTime);
    assert seen + [] == seen;
  }

  lemma CountBegins(lines: seq<seq<string>>, clk: string)
    ensures lines[0..] == lines && Rises([]) == 0
  {
  }

  lemma CountEnds(lines: seq<seq<string>>, clk: string, now: int)
    ensures EdgesSeen(lines[|lines|..], clk) == [] && LastTime(lines[|lines|..], now) == now
  {
  }

  lemma LineStep(lines: seq<seq<string>>, i: nat, clk: string, now: int)
    requires i < |lines|
    ensures EdgesSeen(lines[i..], clk) == EdgeOf(lines[i], clk) + EdgesSeen(lines[i + 1..], clk)
    ensures LastTime(lines[i..], now) == LastTime(lines[i + 1..], TimeOf(lines[i], now))
  {
    assert lines[i..][1..] == lines[i + 1..];
  }

  lemma RisesStep(seen: seq<nat>, level: nat)
    ensures Rises(seen + [level]) == Rises(seen) + if seen != [] && seen[|seen| - 1] == 0 && level == 1 then 1 else 0
  {
    assert (seen + [level])[..|seen|] == seen;
  }

  predicate RiseAt(levels: seq<nat>, k: int) {
    1 <= k < |levels| && levels[k - 1] == 0 && levels[k] == 1
  }

  ghost function RisePlaces(levels: seq<nat>): set<int> {
    set k | 0 <= k < |levels| && RiseAt(levels, k)
  }

  lemma PlacesGrow(front: seq<nat>, last: nat)
    ensures var places, before := RisePlaces(front + [last]), RisePlaces(front);
            |places| == |before| + if RiseAt(front + [last], |front|) then 1 else 0
  {
    var levels, more := front + [last], if RiseAt(front + [last], |front|) then {|front|} else {};
    forall k ensures k in RisePlaces(levels) <==> k in RisePlaces(front) + more {
      if 0 <= k < |front| {
        assert front[k] == levels[k];
      }
    }
    hide RiseAt;
    assert RisePlaces(levels) == RisePlaces(front) + more;
  }

  /** `Rises` counts the places where a 0 is followed by a 1. */
  lemma {:induction false} RisesCounts(levels: seq<nat>)
    ensures Rises(levels) == |set k | 0 <= k < |levels| && RiseAt(levels, k)|
  {
    PlacesAre(levels);
    if levels == [] {
      assert RisePlaces(levels) == {};
    } else {
      hide Rises, RisePlaces;
      var front, last := levels[..|levels| - 1], levels[|levels| - 1];
      assert front + [last] == levels;
      RisesCounts(front);
      PlacesAre(front);
      RisesStep(front, last);
      PlacesGrow(front, last);
    }
  }

  lemma PlacesAre(levels: seq<nat>)
    ensures RisePlaces(levels) == set k | 0 <= k < |levels| && RiseAt(levels, k)
  {
  }

  // ----- The counter refines the full parse

  /** The known values of a series, in order. */
  function KnownValues(series: seq<(int, Value)>): seq<nat> {
    if series == [] then []
    else (if series[0].1.Known? then [series[0].1.n] else []) + KnownValues(series[1..])
  }

  /** The vector changes of `clk`: the full parse reads them, and the counter does not. */
  function VectorsOf(changes: seq<Change>, clk: string): nat {
    if changes == [] then 0
    else
      (if (changes[0].Vector? || changes[0].Unclear?) && changes[0].id == clk then 1 else 0)
          + VectorsOf(changes[1..], clk)
  }

  /** Known values of the clock, straight from the changes. */
  function ClockValues(changes: seq<Change>, clk: string, now: int): seq<nat> {
    KnownValues(SeriesOf(Reading(changes, now), clk))
  }

  lemma ClockStep(changes: seq<Change>, clk: string, now: int)
    requires changes != []
    ensures var c := changes[0];
            ClockValues(changes, clk, now) ==
              (if Changes(c) && c.id == clk && ReadValue(c).Known? then [ReadValue(c).n] else [])
              + ClockValues(changes[1..], clk, if c.Time? then c.t else now)
  {
    hide ReadValue;
    var c := changes[0];
    var rest := Reading(changes[1..], if c.Time? then c.t else now);
    if Changes(c) {
      var s := Sample(c.id, now, ReadValue(c));
      assert Reading(changes, now) == [s] + rest;
      SeriesOfOne(s, rest, clk);
      KnownOfOne((s.time, s.value), SeriesOf(rest, clk));
      assert [] + SeriesOf(rest, clk) == SeriesOf(rest, clk);
    } else {
      assert Reading(changes, now) == rest;
    }
  }

  lemma KnownOfOne(point: (int, Value), rest: seq<(int, Value)>)
    ensures KnownValues([point] + rest) == (if point.1.Known? then [point.1.n] else []) + KnownValues(rest)
  {
    assert ([point] + rest)[1..] == rest;
  }

  lemma LineOfClock(c: Change, clk: string)
    requires WellFormed(c) && clk != []
    ensures Line(c) == ["1" + clk] <==> c.Scalar? && c.level == '1' && c.id == clk
    ensures Line(c) == ["0" + clk] <==> c.Scalar? && c.level == '0' && c.id == clk
  {
    assert ("1" + clk)[1..] == clk && ("0" + clk)[1..] == clk;
    if c.Scalar? {
      assert ([c.level] + c.id)[1..] == c.id;
    }
  }

  /** The edge the counter takes from a change. */
  lemma EdgesStep(changes: seq<Change>, clk: string)
    requires changes != [] && WellFormed(changes[0]) && clk != []
    ensures var c := changes[0];
            EdgesSeen(Lines(changes), clk) ==
              (if c.Scalar? && c.id == clk && LevelValue(c.level).Known? then [LevelValue(c.level).n] else [])
              + EdgesSeen(Lines(changes[1..]), clk)
  {
    hide Line, WellFormed;
    LineOfClock(changes[0], clk);
    assert Lines(changes)[1..] == Lines(changes[1..]);
  }

  lemma {:induction false} EdgesAreClockValues(changes: seq<Change>, clk: string, now: int)
    requires clk != [] && forall c :: c in changes ==> WellFormed(c)
    ensures |ClockValues(changes, clk, now)| == |EdgesSeen(Lines(changes), clk)| + VectorsOf(changes, clk)
    ensures VectorsOf(changes, clk) == 0 ==> ClockValues(changes, clk, now) == EdgesSeen(Lines(changes), clk)
  {
    hide ClockValues, EdgesSeen, Lines, VectorValue, LevelValue;
    if changes == [] {
      ClockOfNone(clk, now);
    } else {
      var c := changes[0];
      assert c in changes;
      ClockStep(changes, clk, now);
      EdgesStep(changes, clk);
      if c.Unclear? {
        UnclearIsRead(c.bits);
      }
      EdgesAreClockValues(changes[1..], clk, if c.Time? then c.t else now);
    }
  }

  lemma ClockOfNone(clk: string, now: int)
    ensures ClockValues([], clk, now) == [] && EdgesSeen(Lines([]), clk) == []
  {
  }

  /** On a dump with one change per line, the constant-memory counter sees the clock's series of
      the full parse with its x and z entries dropped, exactly when the clock is never changed
      by a vector; it then counts exactly the 0-to-1 steps of that series. */
  lemma {:induction false} CounterRefinesParse(changes: seq<Change>, clk: string)
    requires clk != [] && forall c :: c in changes ==> WellFormed(c)
    ensures var series := SeriesOf(Scan(Tokens(Lines(changes)), 0), clk);
            var edges := EdgesSeen(Lines(changes), clk);
            && (edges == KnownValues(series) <==> VectorsOf(changes, clk) == 0)
            && (VectorsOf(changes, clk) == 0 ==> Rises(edges) == Rises(KnownValues(series)))
  {
    ScanReads(changes, 0);
    EdgesAreClockValues(changes, clk, 0);
  }

  /** The last time a dump reaches. */
  function EndOf(changes: seq<Change>, now: int): int {
    if changes == [] then now else EndOf(changes[1..], if changes[0].Time? then changes[0].t else now)
  }

  /** The counter ends at the last time of the dump. */
  lemma {:induction false} EndTimeIs(changes: seq<Change>, now: int)
    requires forall c :: c in changes ==> WellFormed(c)
    ensures LastTime(Lines(changes), now) == EndOf(changes, now)
  {
    hide Line, WellFormed, TimeOf;
    if changes == [] {
      NoLines(now);
    } else {
      var c := changes[0];
      assert c in changes;
      assert Lines(changes)[1..] == Lines(changes[1..]);
      TimeOfLine(c, now);
      EndTimeIs(changes[1..], if c.Time? then c.t else now);
    }
  }

  lemma NoLines(now: int)
    ensures LastTime(Lines([]), now) == now
  {
  }

  lemma TimeOfLine(c: Change, now: int)
    requires WellFormed(c)
    ensures TimeOf(Line(c), now) == if c.Time? then c.t else now
  {
    hide ParseInt, Decimal;
    var line := Line(c);
    match c
    case Time(t) =>
      assert line[0][1..] == Decimal(t);
      DecimalReads(t);
    case Scalar(level, id) => assert line[0][0] == level;
    case Vector(letter, _, _, _) => assert line[0][0] == letter;
    case Unclear(letter, _, _) => assert line[0][0] == letter;
    case RealChange(letter, _, _) => assert line[0][0] == letter;
    case Directive(word) => assert line[0][0] == '$';
  }

  /** A time set off from its hash by a blank is read all the same. */
  lemma SpacedTime(t: nat, now: int)
    ensures TimeOf(["#", Decimal(t)], now) == t
  {
    hide ParseInt, Decimal;
    DecimalReads(t);
  }

  // ----- The count itself, on a clock of one bit

  /** A known value the clock takes, and whether a scalar change gives it. */
  datatype Level = Level(n: nat, scalar: bool)

  function Levels(changes: seq<Change>, clk: string): seq<Level> {
    if changes == [] then []
    else
      var c := changes[0];
      (if Changes(c) && c.id == clk && ReadValue(c).Known? then [Level(ReadValue(c).n, c.Scalar?)] else [])
      + Levels(changes[1..], clk)
  }

  function Values(levels: seq<Level>): seq<nat> {
    if levels == [] then [] else [levels[0].n] + Values(levels[1..])
  }

  function Scalars(levels: seq<Level>): seq<nat> {
    if levels == [] then [] else (if levels[0].scalar then [levels[0].n] else []) + Scalars(levels[1..])
  }

  ghost predicate OneBit(levels: seq<Level>) {
    forall k :: 0 <= k < |levels| ==> levels[k].n <= 1
  }

  ghost predicate Bits(s: seq<nat>) {
    forall k :: 0 <= k < |s| ==> s[k] <= 1
  }

  ghost predicate NeverRises(s: seq<nat>) {
    forall k :: 0 <= k < |s| - 1 ==> s[k] >= s[k + 1]
  }

  ghost predicate NeverFalls(s: seq<nat>) {
    forall k :: 0 <= k < |s| - 1 ==> s[k] <= s[k + 1]
  }

  /** From its first to its last level `s` takes no detour. */
  ghost predicate Direct(s: seq<nat>) {
    s != [] && if s[0] < s[|s| - 1] then NeverFalls(s) else NeverRises(s)
  }

  /** Vectors lead the clock straight from each scalar change to the next, and down or nowhere
      before the first and after the last. `since` holds the levels from the last scalar change on,
      or from the start when there is none. */
  ghost predicate Straight(since: seq<nat>, led: bool, levels: seq<Level>)
    decreases |levels|
  {
    if levels == [] then NeverRises(since)
    else
      var next := since + [levels[0].n];
      if !levels[0].scalar then Straight(next, led, levels[1..])
      else (if led then Direct(next) else NeverRises(next)) && Straight([levels[0].n], true, levels[1..])
  }

  lemma {:induction false} RisesJoin(a: seq<nat>, x: nat, b: seq<nat>)
    ensures Rises(a + [x] + b) == Rises(a + [x]) + Rises([x] + b)
  {
    if b == [] {
      assert a + [x] + b == a + [x] && [x] + b == [x];
    } else {
      var front, last := b[..|b| - 1], b[|b| - 1];
      RisesJoin(a, x, front);
      assert a + [x] + b == (a + [x] + front) + [last] && [x] + b == ([x] + front) + [last];
      RisesStep(a + [x] + front, last);
      RisesStep([x] + front, last);
    }
  }

  /** How often a sequence of bits falls. */
  function Falls(levels: seq<nat>): nat {
    if |levels| < 2 then 0
    else Falls(levels[..|levels| - 1]) + if levels[|levels| - 2] > levels[|levels| - 1] then 1 else 0
  }

  lemma {:induction false} RisesAndFalls(s: seq<nat>)
    requires s != [] && Bits(s)
    ensures s[0] + Rises(s) == s[|s| - 1] + Falls(s)
    ensures Rises(s) == 0 <==> NeverRises(s)
    ensures Falls(s) == 0 <==> NeverFalls(s)
  {
    if |s| > 1 {
      var front := s[..|s| - 1];
      RisesAndFalls(front);
      assert front[|front| - 1] == s[|s| - 2];
      assert NeverRises(s) <==> NeverRises(front) && s[|s| - 2] >= s[|s| - 1] by {
        assert forall k :: 0 <= k < |front| ==> front[k] == s[k];
      }
      assert NeverFalls(s) <==> NeverFalls(front) && s[|s| - 2] <= s[|s| - 1] by {
        assert forall k :: 0 <= k < |front| ==> front[k] == s[k];
      }
    }
  }

  /** Between two scalar changes the vectors add rises exactly when they take a detour. */
  lemma {:induction false} DetourRises(s: seq<nat>)
    requires |s| >= 2 && Bits(s)
    ensures Rises([s[0], s[|s| - 1]]) <= Rises(s)
    ensures Rises([s[0], s[|s| - 1]]) == Rises(s) <==> Direct(s)
  {
    RisesAndFalls(s);
    var ends := [s[0], s[|s| - 1]];
    assert ends[..1] == [s[0]];
    assert Rises(ends) == if s[0] < s[|s| - 1] then 1 else 0;
  }

  lemma NoRise(s: seq<nat>)
    requires Bits(s)
    ensures Rises(s) == 0 <==> NeverRises(s)
  {
    if s != [] {
      RisesAndFalls(s);
    }
  }

  /** Rises of all values against those of the scalar ones, from a scalar change `a` on. */
  lemma {:induction false} LedRises(since: seq<nat>, levels: seq<Level>)
    requires since != [] && Bits(since) && OneBit(levels)
    ensures Rises([since[0]] + Scalars(levels)) <= Rises(since + Values(levels))
    ensures Rises([since[0]] + Scalars(levels)) == Rises(since + Values(levels)) <==> Straight(since, true, levels)
    decreases |levels|
  {
    hide Rises, NeverRises, Direct;
    var a := since[0];
    if levels == [] {
      assert [a] + [] == [a] && since + [] == since;
      NoRise(since);
      SingleRises(a);
    } else {
      var l, rest := levels[0], levels[1..];
      var next := since + [l.n];
      assert since + Values(levels) == next + Values(rest);
      if l.scalar {
        assert next[0] == a && next[|next| - 1] == l.n;
        LedRises([l.n], rest);
        RisesJoin(since, l.n, Values(rest));
        RisesJoin([a], l.n, Scalars(rest));
        assert [a] + Scalars(levels) == [a] + [l.n] + Scalars(rest) && [a] + [l.n] == [a, l.n];
        DetourRises(next);
      } else {
        LedRises(next, rest);
        assert [] + Scalars(rest) == Scalars(rest);
      }
    }
  }

  lemma SingleRises(a: nat)
    ensures Rises([a]) == 0 && Rises([]) == 0
  {
  }

  lemma {:induction false} UnledRises(since: seq<nat>, levels: seq<Level>)
    requires Bits(since) && OneBit(levels)
    ensures Rises(Scalars(levels)) <= Rises(since + Values(levels))
    ensures Rises(Scalars(levels)) == Rises(since + Values(levels)) <==> Straight(since, false, levels)
    decreases |levels|
  {
    hide Rises, NeverRises, Direct;
    if levels == [] {
      assert since + [] == since;
      NoRise(since);
      SingleRises(0);
    } else {
      var l, rest := levels[0], levels[1..];
      var next := since + [l.n];
      assert since + Values(levels) == next + Values(rest);
      if l.scalar {
        LedRises([l.n], rest);
        RisesJoin(since, l.n, Values(rest));
        assert [l.n][0] == l.n;
        NoRise(next);
      } else {
        UnledRises(next, rest);
        assert [] + Scalars(rest) == Scalars(rest);
      }
    }
  }

  lemma {:induction false} LevelsAre(changes: seq<Change>, clk: string, now: int)
    requires clk != [] && forall c :: c in changes ==> WellFormed(c)
    ensures ClockValues(changes, clk, now) == Values(Levels(changes, clk))
    ensures EdgesSeen(Lines(changes), clk) == Scalars(Levels(changes, clk))
  {
    hide ClockValues, EdgesSeen, Lines, VectorValue, LevelValue, WellFormed;
    if changes == [] {
      ClockOfNone(clk, now);
    } else {
      var c, rest := changes[0], changes[1..];
      assert c in changes;
      ClockStep(changes, clk, now);
      EdgesStep(changes, clk);
      LevelsAre(rest, clk, if c.Time? then c.t else now);
      LevelInFront(if Changes(c) && c.id == clk && ReadValue(c).Known? then [Level(ReadValue(c).n, c.Scalar?)] else [],
                   Levels(rest, clk));
    }
  }

  lemma {:induction false} LevelInFront(front: seq<Level>, rest: seq<Level>)
    requires |front| <= 1
    ensures Values(front + rest) == Values(front) + Values(rest)
    ensures Scalars(front + rest) == Scalars(front) + Scalars(rest)
  {
    if front == [] {
      assert front + rest == rest;
    } else {
      assert (front + rest)[1..] == rest && front[1..] == [];
    }
  }

  /** On a clock of one bit the count is never more than the 0-to-1 steps of the parsed series, and
      it is exactly those when and only when the vector changes of the clock take no detour. */
  lemma {:induction false} CountIsExactIff(changes: seq<Change>, clk: string)
    requires clk != [] && forall c :: c in changes ==> WellFormed(c)
    requires OneBit(Levels(changes, clk))
    ensures var series := SeriesOf(Scan(Tokens(Lines(changes)), 0), clk);
            var count := Rises(EdgesSeen(Lines(changes), clk));
            && count <= Rises(KnownValues(series))
            && (count == Rises(KnownValues(series)) <==> Straight([], false, Levels(changes, clk)))
  {
    ScanReads(changes, 0);
    LevelsAre(changes, clk, 0);
    UnledRises([], Levels(changes, clk));
    var values := Values(Levels(changes, clk));
    assert [] + values == values;
  }

  /** A clock that rises by a vector: the counter misses the cycle. */
  ghost const MISSED := [Scalar('0', "c"), Vector('b', 0, 1, "c")]

  /** A vector that repeats a level: the counter skips it and still counts the cycle. */
  ghost const REPEATED := [Scalar('0', "c"), Vector('b', 0, 0, "c"), Scalar('1', "c")]

  lemma MissedValues()
    ensures EdgesSeen(Lines(MISSED), "c") == [0] && ClockValues(MISSED, "c", 0) == [0, 1]
  {
    hide ClockValues, EdgesSeen, Lines;
    assert MISSED[1..] == [Vector('b', 0, 1, "c")] && [Vector('b', 0, 1, "c")][1..] == [];
    ClockOfNone("c", 0);
    ClockStep(MISSED, "c", 0);
    ClockStep([Vector('b', 0, 1, "c")], "c", 0);
    EdgesStep(MISSED, "c");
    EdgesStep([Vector('b', 0, 1, "c")], "c");
  }

  lemma RepeatedValues()
    ensures EdgesSeen(Lines(REPEATED), "c") == [0, 1] && ClockValues(REPEATED, "c", 0) == [0, 0, 1]
  {
    hide ClockValues, EdgesSeen, Lines;
    var same, up := Vector('b', 0, 0, "c"), Scalar('1', "c");
    assert REPEATED[1..] == [same, up] && [same, up][1..] == [up] && [up][1..] == [];
    ClockOfNone("c", 0);
    ClockStep(REPEATED, "c", 0);
    ClockStep([same, up], "c", 0);
    ClockStep([up], "c", 0);
    EdgesStep(REPEATED, "c");
    EdgesStep([same, up], "c");
    EdgesStep([up], "c");
  }

  /** Where a vector changes the clock, the counts may differ and may agree. */
  lemma VectorsMayBeMissed()
    ensures Rises(EdgesSeen(Lines(MISSED), "c")) == 0 && Rises(ClockValues(MISSED, "c", 0)) == 1
    ensures Rises(EdgesSeen(Lines(REPEATED), "c")) == 1 && Rises(ClockValues(REPEATED, "c", 0)) == 1
  {
    hide ClockValues, EdgesSeen, Lines;
    MissedValues();
    RepeatedValues();
    assert [0, 1][..1] == [0] && [0, 0, 1][..2] == [0, 0];
  }
}
