/** `audit_findings`, `_best_port` and `reconcile_ports`: repairing mis-named port connections. */
module PortRename {
  import opened Basics

  /** One named connection `.port(...)` on an instance of `child` inside module `parent`. */
  datatype Conn = Conn(parent: string, child: string, port: string)

  /** What was parsed once: the declared ports of each defined module, and the children each
      module instantiates. */
  datatype Info = Info(ports: map<string, seq<string>>, kids: map<string, seq<string>>)

  /** A rename to be made in one file, for the finding it came from. */
  datatype Edit = Edit(bad: string, repl: string, child: string, parent: string)

  function PortsOf(d: Info, m: string): seq<string> {
    if m in d.ports then d.ports[m] else []
  }

  function KidsOf(d: Info, m: string): seq<string> {
    if m in d.kids then d.kids[m] else []
  }

  /** The connections of a file are on instances the parse knows. */
  ghost predicate Parsed(d: Info, text: seq<Conn>) {
    forall c :: c in text ==> c.child in KidsOf(d, c.parent)
  }

  predicate NamesPort(d: Info, c: Conn) {
    c.port in PortsOf(d, c.child)
  }

  /** A `bad_port` finding: the child is defined, declares ports, and not this one. */
  predicate IsBad(d: Info, c: Conn) {
    c.child in d.ports && d.ports[c.child] != [] && c.port !in d.ports[c.child]
  }

  function BadCount(d: Info, text: seq<Conn>): nat {
    if text == [] then 0 else (if IsBad(d, text[0]) then 1 else 0) + BadCount(d, text[1..])
  }

  // ----- The rename that is safe to make

  function LowerChar(c: char): char {
    if 'A' <= c <= 'Z' then c - 'A' + 'a' else c
  }

  function Lower(s: string): string {
    seq(|s|, i requires 0 <= i < |s| => LowerChar(s[i]))
  }

  const SUFFIXES: seq<string> := ["_io", "_in", "_out", "_i", "_o"]

  predicate HasDirection(s: string) {
    exists k :: 0 <= k < |SUFFIXES| && EndsWith(s, SUFFIXES[k])
  }

  /** The last port equal to `low` but for letter case; empty when there is none. */
  function CaseMatch(ports: seq<string>, low: string): string {
    if ports == [] then ""
    else if Lower(ports[|ports| - 1]) == low then ports[|ports| - 1]
    else CaseMatch(ports[..|ports| - 1], low)
  }

  predicate GainsDirection(port: string, low: string) {
    exists k :: 0 <= k < |SUFFIXES| && Lower(port) == low + SUFFIXES[k]
  }

  function Directed(ports: seq<string>, low: string): seq<string> {
    if ports == [] then []
    else (if GainsDirection(ports[0], low) then [ports[0]] else []) + Directed(ports[1..], low)
  }

  function BestPort(bad: string, ports: seq<string>): string {
    var low := Lower(bad);
    if exists k :: 0 <= k < |ports| && Lower(ports[k]) == low then CaseMatch(ports, low)
    else if !HasDirection(low) && |Directed(ports, low)| == 1 then Directed(ports, low)[0]
    else ""
  }

  lemma {:induction false} CaseMatchIs(ports: seq<string>, low: string)
    requires exists k :: 0 <= k < |ports| && Lower(ports[k]) == low
    ensures CaseMatch(ports, low) in ports && Lower(CaseMatch(ports, low)) == low
  {
    var k :| 0 <= k < |ports| && Lower(ports[k]) == low;
    if Lower(ports[|ports| - 1]) != low {
      assert ports[..|ports| - 1][k] == ports[k];
      CaseMatchIs(ports[..|ports| - 1], low);
    }
  }

  lemma {:induction false} DirectedAre(ports: seq<string>, low: string)
    ensures forall p :: p in Directed(ports, low) <==> p in ports && GainsDirection(p, low)
  {
    if ports != [] {
      DirectedAre(ports[1..], low);
    }
  }

  /** A rename is proposed only to a declared port: one that differs in letter case alone, or
      the only one that a directionless name turns into by gaining a direction. A direction
      that is there is never changed. */
  lemma BestPortIsSafe(bad: string, ports: seq<string>)
    requires BestPort(bad, ports) != ""
    ensures var p := BestPort(bad, ports);
            && p in ports
            && (Lower(p) == Lower(bad) ||
                (!HasDirection(Lower(bad)) && GainsDirection(p, Lower(bad))
                 && forall q :: q in ports && GainsDirection(q, Lower(bad)) ==> q == p))
            && (HasDirection(Lower(bad)) ==> Lower(p) == Lower(bad))
  {
    var low := Lower(bad);
    if exists k :: 0 <= k < |ports| && Lower(ports[k]) == low {
      CaseMatchIs(ports, low);
    } else {
      DirectedAre(ports, low);
      assert Directed(ports, low)[0] in Directed(ports, low);
    }
  }

  /** Port `k` and no other is `low` with a direction added. */
  ghost predicate OnlyDirected(ports: seq<string>, low: string, k: int) {
    0 <= k < |ports| && GainsDirection(ports[k], low)
    && forall j :: 0 <= j < |ports| && j != k ==> !GainsDirection(ports[j], low)
  }

  lemma {:induction false} DirectedOnce(ports: seq<string>, low: string)
    ensures |Directed(ports, low)| == 1 <==> exists k :: OnlyDirected(ports, low, k)
  {
    hide GainsDirection;
    if ports != [] {
      var rest := ports[1..];
      DirectedOnce(rest, low);
      DirectedAre(rest, low);
      if GainsDirection(ports[0], low) {
        if Directed(rest, low) == [] {
          forall j | 0 < j < |ports| ensures !GainsDirection(ports[j], low) {
            assert ports[j] in rest;
          }
          assert OnlyDirected(ports, low, 0);
        } else {
          assert Directed(rest, low)[0] in Directed(rest, low);
          var j :| 0 <= j < |rest| && rest[j] == Directed(rest, low)[0];
          assert GainsDirection(ports[j + 1], low);
        }
      } else {
        if k :| OnlyDirected(ports, low, k) {
          assert OnlyDirected(rest, low, k - 1);
        }
        if k :| OnlyDirected(rest, low, k) {
          assert OnlyDirected(ports, low, k + 1);
        }
      }
    }
  }

  /** A rename is proposed exactly when a port differs in letter case alone, or the name has no
      direction and exactly one port adds one to it. */
  lemma BestPortExistsIff(bad: string, ports: seq<string>)
    requires "" !in ports
    ensures BestPort(bad, ports) != "" <==>
              (exists p :: p in ports && Lower(p) == Lower(bad)) ||
              (!HasDirection(Lower(bad)) && exists k :: OnlyDirected(ports, Lower(bad), k))
  {
    var low := Lower(bad);
    DirectedOnce(ports, low);
    if exists k :: 0 <= k < |ports| && Lower(ports[k]) == low {
      CaseMatchIs(ports, low);
    } else {
      DirectedAre(ports, low);
      if |Directed(ports, low)| == 1 {
        assert Directed(ports, low)[0] in Directed(ports, low);
      }
    }
  }

  // ----- The same, spelled out

  /** The same letter, or one is the other's capital. */
  predicate SameLetter(a: char, b: char) {
    || a == b
    || ('A' <= a <= 'Z' && b as int == a as int + 32)
    || ('A' <= b <= 'Z' && a as int == b as int + 32)
  }

  ghost predicate SameButCase(a: string, b: string) {
    |a| == |b| && forall i :: 0 <= i < |a| ==> SameLetter(a[i], b[i])
  }

  /** `port` is `name` followed by `suffix`, letter case aside. */
  ghost predicate Extends(port: string, name: string, suffix: string) {
    && |port| == |name| + |suffix| && (forall i :: 0 <= i < |name| ==> SameLetter(port[i], name[i]))
    && (forall i :: 0 <= i < |suffix| ==> SameLetter(port[|name| + i], suffix[i]))
  }

  /** `port` is `name` with one of the five directions behind it. */
  ghost predicate Directs(port: string, name: string) {
    || Extends(port, name, "_i") || Extends(port, name, "_o") || Extends(port, name, "_io")
    || Extends(port, name, "_in") || Extends(port, name, "_out")
  }

  ghost predicate EndsLike(name: string, suffix: string) {
    |name| >= |suffix| && forall i :: 0 <= i < |suffix| ==> SameLetter(name[|name| - |suffix| + i], suffix[i])
  }

  /** `name` ends in one of the five. */
  ghost predicate IsDirected(name: string) {
    EndsLike(name, "_i") || EndsLike(name, "_o") || EndsLike(name, "_io") || EndsLike(name, "_in")
    || EndsLike(name, "_out")
  }

  lemma LowerIsSame(a: string, b: string)
    ensures Lower(a) == Lower(b) <==> SameButCase(a, b)
  {
    if Lower(a) == Lower(b) {
      assert |Lower(a)| == |a| && |Lower(b)| == |b|;
      forall i | 0 <= i < |a| ensures SameLetter(a[i], b[i]) {
        assert Lower(a)[i] == LowerChar(a[i]) && Lower(b)[i] == LowerChar(b[i]);
      }
    }
  }

  lemma LowerJoin(name: string, suffix: string)
    requires Lower(suffix) == suffix
    ensures Lower(name + suffix) == Lower(name) + suffix
  {
    assert forall i :: 0 <= i < |suffix| ==> Lower(suffix)[i] == suffix[i];
  }

  lemma SuffixesAreLower()
    ensures forall k :: 0 <= k < |SUFFIXES| ==> Lower(SUFFIXES[k]) == SUFFIXES[k]
  {
    forall k, i | 0 <= k < |SUFFIXES| && 0 <= i < |SUFFIXES[k]| ensures Lower(SUFFIXES[k])[i] == SUFFIXES[k][i] {
    }
  }

  lemma ExtendsIff(port: string, name: string, suffix: string)
    requires Lower(suffix) == suffix
    ensures Extends(port, name, suffix) <==> Lower(port) == Lower(name) + suffix
  {
    LowerJoin(name, suffix);
    LowerIsSame(port, name + suffix);
    if SameButCase(port, name + suffix) {
      forall i | 0 <= i < |suffix| ensures SameLetter(port[|name| + i], suffix[i]) {
        assert (name + suffix)[|name| + i] == suffix[i];
      }
    }
  }

  lemma EndsLikeIff(name: string, suffix: string)
    requires Lower(suffix) == suffix
    ensures EndsLike(name, suffix) <==> EndsWith(Lower(name), suffix)
  {
    forall i | 0 <= i < |suffix| ensures suffix[i] == LowerChar(suffix[i]) {
      assert Lower(suffix)[i] == suffix[i];
    }
  }

  lemma GainsIff(port: string, name: string)
    ensures GainsDirection(port, Lower(name)) <==> Directs(port, name)
  {
    hide Extends, Lower;
    SuffixesAreLower();
    forall k | 0 <= k < 5
      ensures Extends(port, name, SUFFIXES[k]) <==> Lower(port) == Lower(name) + SUFFIXES[k]
    {
      ExtendsIff(port, name, SUFFIXES[k]);
    }
    assert Directs(port, name) <==>
             (Extends(port, name, SUFFIXES[0]) || Extends(port, name, SUFFIXES[1]) || Extends(port, name, SUFFIXES[2])
              || Extends(port, name, SUFFIXES[3]) || Extends(port, name, SUFFIXES[4]));
  }

  lemma HasIff(name: string)
    ensures HasDirection(Lower(name)) <==> IsDirected(name)
  {
    hide EndsLike, EndsWith, Lower;
    SuffixesAreLower();
    forall k | 0 <= k < 5 ensures EndsLike(name, SUFFIXES[k]) <==> EndsWith(Lower(name), SUFFIXES[k]) {
      EndsLikeIff(name, SUFFIXES[k]);
    }
    assert IsDirected(name) <==>
             (EndsLike(name, SUFFIXES[0]) || EndsLike(name, SUFFIXES[1]) || EndsLike(name, SUFFIXES[2])
              || EndsLike(name, SUFFIXES[3]) || EndsLike(name, SUFFIXES[4]));
  }

  /** `p` is the port to take for `bad`: the last that differs in letter case alone, or where there is
      none and `bad` has no direction, the only one that adds one of `_i`, `_o`, `_io`, `_in`, `_out`. */
  ghost predicate Proposed(bad: string, ports: seq<string>, k: int) {
    0 <= k < |ports| &&
    ((SameButCase(ports[k], bad) && forall j :: k < j < |ports| ==> !SameButCase(ports[j], bad)) ||
     ((forall j :: 0 <= j < |ports| ==> !SameButCase(ports[j], bad)) && !IsDirected(bad) && Directs(ports[k], bad) &&
      forall j :: 0 <= j < |ports| && j != k ==> !Directs(ports[j], bad)))
  }

  lemma {:induction false} CaseMatchIsLast(ports: seq<string>, bad: string, k: nat)
    requires k < |ports| && SameButCase(ports[k], bad) && forall j :: k < j < |ports| ==> !SameButCase(ports[j], bad)
    ensures CaseMatch(ports, Lower(bad)) == ports[k]
  {
    hide Lower, SameButCase;
    var last := |ports| - 1;
    LowerIsSame(ports[last], bad);
    if k < last {
      CaseMatchIsLast(ports[..last], bad, k);
    }
  }

  lemma {:induction false} LastCase(ports: seq<string>, bad: string) returns (k: nat)
    requires exists j :: 0 <= j < |ports| && SameButCase(ports[j], bad)
    ensures k < |ports| && SameButCase(ports[k], bad) && forall j :: k < j < |ports| ==> !SameButCase(ports[j], bad)
  {
    k := |ports| - 1;
    if !SameButCase(ports[k], bad) {
      var front := ports[..k];
      var j :| 0 <= j < |ports| && SameButCase(ports[j], bad);
      assert front[j] == ports[j];
      var l := LastCase(front, bad);
      forall j | l < j < |ports| ensures !SameButCase(ports[j], bad) {
        if j < |front| {
          assert front[j] == ports[j];
        }
      }
      k := l;
    }
  }

  lemma SpelledCase(bad: string, ports: seq<string>)
    ensures (exists k :: 0 <= k < |ports| && Lower(ports[k]) == Lower(bad)) <==>
              (exists k :: 0 <= k < |ports| && SameButCase(ports[k], bad))
  {
    hide Lower, SameButCase;
    forall k | 0 <= k < |ports| ensures Lower(ports[k]) == Lower(bad) <==> SameButCase(ports[k], bad) {
      LowerIsSame(ports[k], bad);
    }
  }

  /** A port is proposed exactly as spelled out, and nothing is where no port is so. */
  lemma BestPortIsSpelled(bad: string, ports: seq<string>)
    ensures forall k :: Proposed(bad, ports, k) ==> BestPort(bad, ports) == ports[k]
    ensures (forall k :: !Proposed(bad, ports, k)) ==> BestPort(bad, ports) == ""
  {
    hide Lower, SameButCase, CaseMatch, Directed, HasDirection, IsDirected, GainsDirection, Directs;
    var low := Lower(bad);
    SpelledCase(bad, ports);
    HasIff(bad);
    if exists k :: 0 <= k < |ports| && SameButCase(ports[k], bad) {
      var k := LastCase(ports, bad);
      CaseMatchIsLast(ports, bad, k);
      assert Proposed(bad, ports, k);
      forall l | Proposed(bad, ports, l) ensures l == k {
      }
    } else {
      OnlyIsSpelled(bad, ports);
      DirectedOnce(ports, low);
      forall k | OnlyDirected(ports, low, k)
        ensures |Directed(ports, low)| == 1 && Directed(ports, low)[0] == ports[k]
      {
        DirectedAre(ports, low);
        assert Directed(ports, low)[0] in Directed(ports, low);
        OnlyDirectedIs(ports, low, k, Directed(ports, low)[0]);
      }
      if !HasDirection(low) && |Directed(ports, low)| == 1 {
        var k :| OnlyDirected(ports, low, k);
        assert Proposed(bad, ports, k);
      }
    }
  }

  lemma OnlyDirectedIs(ports: seq<string>, low: string, k: int, p: string)
    requires OnlyDirected(ports, low, k) && p in ports && GainsDirection(p, low)
    ensures p == ports[k]
  {
    hide GainsDirection;
  }

  lemma OnlyIsSpelled(bad: string, ports: seq<string>)
    ensures forall k :: OnlyDirected(ports, Lower(bad), k) <==>
              0 <= k < |ports| && Directs(ports[k], bad)
              && forall j :: 0 <= j < |ports| && j != k ==> !Directs(ports[j], bad)
  {
    hide Lower, GainsDirection, Directs;
    forall j | 0 <= j < |ports| ensures GainsDirection(ports[j], Lower(bad)) <==> Directs(ports[j], bad) {
      GainsIff(ports[j], bad);
    }
  }

  lemma PolarityIsNoDirection()
    ensures !SameButCase("rst_n", "rst") && !Directs("rst_n", "rst")
  {
    var port, name := "rst_n", "rst";
    assert |port| == 5 && |name| == 3 && port[4] == 'n';
    assert "_i"[1] == 'i' && "_o"[1] == 'o';
    assert !SameLetter('n', 'i') && !SameLetter('n', 'o');
  }

  /** Polarity is no direction: nothing is proposed. */
  lemma ResetIsLeftAlone()
    ensures BestPort("rst", ["rst_n"]) == ""
  {
    hide BestPort, SameButCase, Directs, IsDirected;
    PolarityIsNoDirection();
    BestPortIsSpelled("rst", ["rst_n"]);
  }

  // ----- One file

  /** `re.sub` over the file: every connection named `bad`, whichever instance it is on. */
  function Rename(text: seq<Conn>, bad: string, repl: string): (r: seq<Conn>)
    ensures |r| == |text|
  {
    seq(|text|, k requires 0 <= k < |text| => if text[k].port == bad then text[k].(port := repl) else text[k])
  }

  /** The renames the audit of a file gives rise to, in the order of the findings. */
  function EditsFor(d: Info, text: seq<Conn>): seq<Edit> {
    if text == [] then []
    else
      var c := text[0];
      var repl := BestPort(c.port, PortsOf(d, c.child));
      (if IsBad(d, c) && repl != "" && repl != c.port then [Edit(c.port, repl, c.child, c.parent)] else [])
      + EditsFor(d, text[1..])
  }

  /** The check before an edit: `bad` is a real port of some other child of the same parent. */
  predicate Withheld(d: Info, e: Edit) {
    exists k :: 0 <= k < |KidsOf(d, e.parent)| &&
                KidsOf(d, e.parent)[k] != e.child && e.bad in PortsOf(d, KidsOf(d, e.parent)[k])
  }

  function ApplyEdit(d: Info, text: seq<Conn>, e: Edit): seq<Conn> {
    if Withheld(d, e) then text else Rename(text, e.bad, e.repl)
  }

  function ApplyEdits(d: Info, text: seq<Conn>, edits: seq<Edit>): seq<Conn> {
    if edits == [] then text
    else ApplyEdit(d, ApplyEdits(d, text, edits[..|edits| - 1]), edits[|edits| - 1])
  }

  /** The edits that change the text when their turn comes. */
  function Effective(d: Info, text: seq<Conn>, edits: seq<Edit>): seq<Edit> {
    if edits == [] then []
    else
      var front, last := edits[..|edits| - 1], edits[|edits| - 1];
      var before := ApplyEdits(d, text, front);
      Effective(d, text, front) + if ApplyEdit(d, before, last) != before then [last] else []
  }

  /** `changes` are the edits at the places `at`, which are all those that change the text in their turn. */
  ghost predicate ChangesAt(d: Info, text: seq<Conn>, edits: seq<Edit>, changes: seq<Edit>, at: seq<nat>) {
    && |at| == |changes|
    && (forall k :: 0 <= k < |at| ==>
          at[k] < |edits| && changes[k] == edits[at[k]] && Alters(d, text, edits, at[k]))
    && (forall k, l :: 0 <= k < l < |at| ==> at[k] < at[l])
    && (forall i: nat :: i < |edits| && Alters(d, text, edits, i) ==> i in at)
  }

  predicate Alters(d: Info, text: seq<Conn>, edits: seq<Edit>, i: nat)
    requires i < |edits|
  {
    ApplyEdits(d, text, edits[..i + 1]) != ApplyEdits(d, text, edits[..i])
  }

  lemma {:induction false} EffectiveIs(d: Info, text: seq<Conn>, edits: seq<Edit>) returns (at: seq<nat>)
    ensures ChangesAt(d, text, edits, Effective(d, text, edits), at)
    decreases |edits|
  {
    hide ChangesAt, ApplyEdits, Effective, ApplyEdit;
    if edits == [] {
      at := [];
      NoneEffective(d, text);
    } else {
      var n := |edits| - 1;
      var front := edits[..n];
      at := EffectiveIs(d, text, front);
      ApplyOneMore(d, text, edits, n);
      assert edits[..n + 1] == edits;
      AlterMore(d, text, edits, Effective(d, text, front), at);
      if Alters(d, text, edits, n) {
        at := at + [n];
      } else {
        assert Effective(d, text, front) + [] == Effective(d, text, front);
      }
    }
  }

  lemma NoneEffective(d: Info, text: seq<Conn>)
    ensures ChangesAt(d, text, [], Effective(d, text, []), [])
  {
  }

  lemma AlterMore(d: Info, text: seq<Conn>, edits: seq<Edit>, changes: seq<Edit>, at: seq<nat>)
    requires edits != [] && ChangesAt(d, text, edits[..|edits| - 1], changes, at)
    ensures var n := |edits| - 1;
            if Alters(d, text, edits, n) then ChangesAt(d, text, edits, changes + [edits[n]], at + [n])
            else ChangesAt(d, text, edits, changes, at)
  {
    hide Alters;
    var n := |edits| - 1;
    var front := edits[..n];
    forall i: nat | i < n ensures front[i] == edits[i] && Alters(d, text, front, i) == Alters(d, text, edits, i) {
      SameAlters(d, text, edits, n, i);
    }
  }

  lemma SameAlters(d: Info, text: seq<Conn>, edits: seq<Edit>, n: nat, i: nat)
    requires i < n <= |edits|
    ensures Alters(d, text, edits[..n], i) == Alters(d, text, edits, i)
  {
    hide ApplyEdits;
    assert edits[..n][..i] == edits[..i] && edits[..n][..i + 1] == edits[..i + 1];
  }

  method ReconcileFile(d: Info, text: seq<Conn>) returns (fixed: seq<Conn>, changes: seq<Edit>)
    ensures fixed == ApplyEdits(d, text, EditsFor(d, text))
    ensures changes == Effective(d, text, EditsFor(d, text))
  {
    hide ApplyEdits, Effective;
    var edits := EditsFor(d, text);
    fixed, changes := text, [];
    ApplyNone(d, text, edits);
    for i := 0 to |edits|
      invariant fixed == ApplyEdits(d, text, edits[..i])
      invariant changes == Effective(d, text, edits[..i])
    {
      var e := edits[i];
      ApplyOneMore(d, text, edits, i);
      var siblings := SiblingPorts(d, e);
      if e.bad in siblings {
        continue;
      }
      var renamed := Rename(fixed, e.bad, e.repl);
      if renamed != fixed {
        fixed := renamed;
        changes := changes + [e];
      }
    }
    assert edits[..|edits|] == edits;
  }

  lemma ApplyNone(d: Info, text: seq<Conn>, edits: seq<Edit>)
    ensures ApplyEdits(d, text, edits[..0]) == text && Effective(d, text, edits[..0]) == []
  {
  }

  lemma {:induction false} ApplyOneMore(d: Info, text: seq<Conn>, edits: seq<Edit>, i: nat)
    requires i < |edits|
    ensures var before := ApplyEdits(d, text, edits[..i]);
            var after := ApplyEdit(d, before, edits[i]);
            && ApplyEdits(d, text, edits[..i + 1]) == after
            && Effective(d, text, edits[..i + 1]) == Effective(d, text, edits[..i])
                + if after != before then [edits[i]] else []
  {
    assert edits[..i + 1][..i] == edits[..i];
  }

  method SiblingPorts(d: Info, e: Edit) returns (ports: set<string>)
    ensures e.bad in ports <==> Withheld(d, e)
  {
    ports := {};
    var kids := KidsOf(d, e.parent);
    for k := 0 to |kids|
      invariant e.bad in ports <==> exists j :: 0 <= j < k && kids[j] != e.child && e.bad in PortsOf(d, kids[j])
    {
      if kids[k] != e.child {
        ports := ports + set p | p in PortsOf(d, kids[k]);
      }
    }
  }

  // ----- What a run keeps

  /** What the check is meant to establish: no edit that is made renames a declared port of any
      child instantiated in the file. */
  ghost predicate CheckCoversFile(d: Info, text: seq<Conn>) {
    forall e, c :: e in EditsFor(d, text) && !Withheld(d, e) && c in text ==> e.bad !in PortsOf(d, c.child)
  }

  /** An edit the check lets through has the name of a connection that names a declared port. */
  ghost predicate Clashes(d: Info, text: seq<Conn>) {
    exists e, c :: e in EditsFor(d, text) && !Withheld(d, e) && c in text && c.port == e.bad && NamesPort(d, c)
  }

  ghost predicate OneModule(text: seq<Conn>) {
    forall b, c :: b in text && c in text ==> b.parent == c.parent
  }

  /** Where an edit comes from. */
  lemma {:induction false} EditSource(d: Info, text: seq<Conn>, e: Edit) returns (k: nat)
    requires e in EditsFor(d, text)
    ensures k < |text| && IsBad(d, text[k]) && text[k] == Conn(e.parent, e.child, e.bad)
    ensures e.repl in PortsOf(d, e.child) && e.repl != e.bad
  {
    var c := text[0];
    var repl := BestPort(c.port, PortsOf(d, c.child));
    if IsBad(d, c) && repl != "" && repl != c.port && e == Edit(c.port, repl, c.child, c.parent) {
      k := 0;
      BestPortIsSafe(c.port, PortsOf(d, c.child));
    } else {
      k := EditSource(d, text[1..], e);
      k := k + 1;
    }
  }

  /** And every bad connection with a proposal plans one. */
  lemma {:induction false} EditPlanned(d: Info, text: seq<Conn>, k: nat)
    requires k < |text| && IsBad(d, text[k]) && BestPort(text[k].port, PortsOf(d, text[k].child)) != ""
    ensures var c := text[k];
            Edit(c.port, BestPort(c.port, PortsOf(d, c.child)), c.child, c.parent) in EditsFor(d, text)
  {
    hide BestPort;
    if k > 0 {
      EditPlanned(d, text[1..], k - 1);
    } else {
      BestPortIsSafe(text[0].port, PortsOf(d, text[0].child));
    }
  }

  /** In a file with one module the check sees every child, and so covers the file. */
  lemma OneModuleIsCovered(d: Info, text: seq<Conn>)
    requires Parsed(d, text) && OneModule(text)
    ensures CheckCoversFile(d, text)
  {
    forall e, c | e in EditsFor(d, text) && !Withheld(d, e) && c in text ensures e.bad !in PortsOf(d, c.child) {
      var k := EditSource(d, text, e);
      assert text[k] in text;
      if c.child != e.child {
        var j :| 0 <= j < |KidsOf(d, c.parent)| && KidsOf(d, c.parent)[j] == c.child;
        assert KidsOf(d, e.parent)[j] != e.child;
      }
    }
  }

  /** `now` differs from `text` in port names only, and still has every connection that named a declared port. */
  ghost predicate Kept(d: Info, text: seq<Conn>, now: seq<Conn>) {
    && |now| == |text|
    && (forall k :: 0 <= k < |text| ==> now[k].parent == text[k].parent && now[k].child == text[k].child)
    && (forall k :: 0 <= k < |text| && NamesPort(d, text[k]) ==> now[k] == text[k])
  }

  /** The connections named `bad` are still exactly the original ones, or there are none left. */
  ghost predicate Untouched(text: seq<Conn>, now: seq<Conn>, bad: string)
    requires |now| == |text|
  {
    || (forall k :: 0 <= k < |now| ==> now[k].port != bad)
    || (forall k :: 0 <= k < |now| ==> (now[k].port == bad <==> text[k].port == bad))
  }

  ghost predicate AllUntouched(d: Info, text: seq<Conn>, now: seq<Conn>)
    requires |now| == |text|
  {
    forall e :: e in EditsFor(d, text) && !Withheld(d, e) ==> Untouched(text, now, e.bad)
  }

  lemma RenameKeeps(d: Info, text: seq<Conn>, now: seq<Conn>, e: Edit)
    requires !Clashes(d, text) && Kept(d, text, now)
    requires e in EditsFor(d, text) && !Withheld(d, e)
    ensures Kept(d, text, Rename(now, e.bad, e.repl))
  {
    forall k | 0 <= k < |text| && NamesPort(d, text[k]) ensures text[k].port != e.bad {
      assert text[k] in text;
    }
  }

  lemma CoveredDoesNotClash(d: Info, text: seq<Conn>)
    requires CheckCoversFile(d, text)
    ensures !Clashes(d, text)
  {
  }

  ghost predicate KeptThroughout(d: Info, text: seq<Conn>) {
    forall i :: 0 <= i <= |EditsFor(d, text)| ==> Kept(d, text, ApplyEdits(d, text, EditsFor(d, text)[..i]))
  }

  lemma {:induction false} KeptSoFar(d: Info, text: seq<Conn>, i: nat)
    requires !Clashes(d, text) && i <= |EditsFor(d, text)|
    ensures Kept(d, text, ApplyEdits(d, text, EditsFor(d, text)[..i]))
  {
    hide Kept, ApplyEdits, Effective, Clashes, EditsFor;
    if i == 0 {
      ApplyNone(d, text, EditsFor(d, text));
      NothingDone(d, text);
    } else {
      KeptSoFar(d, text, i - 1);
      var edits := EditsFor(d, text);
      ApplyOneMore(d, text, edits, i - 1);
      if !Withheld(d, edits[i - 1]) {
        RenameKeeps(d, text, ApplyEdits(d, text, edits[..i - 1]), edits[i - 1]);
      }
    }
  }

  /** Where there is a clash, some edit touches a connection that named a declared port. */
  lemma ClashTouches(d: Info, text: seq<Conn>) returns (i: nat)
    requires Clashes(d, text)
    ensures i < |EditsFor(d, text)|
    ensures Kept(d, text, ApplyEdits(d, text, EditsFor(d, text)[..i])) ==>
              !Kept(d, text, ApplyEdits(d, text, EditsFor(d, text)[..i + 1]))
  {
    hide ApplyEdits, EditsFor;
    var edits := EditsFor(d, text);
    var e, c :| e in edits && !Withheld(d, e) && c in text && c.port == e.bad && NamesPort(d, c);
    i :| 0 <= i < |edits| && edits[i] == e;
    var k :| 0 <= k < |text| && text[k] == c;
    ApplyOneMore(d, text, edits, i);
    var source := EditSource(d, text, e);
  }

  /** Whatever modules the file holds: no edit of the run touches a connection that named a
      declared port exactly when no edit the check lets through has the name of such a connection. */
  lemma KeptThroughoutIff(d: Info, text: seq<Conn>)
    ensures KeptThroughout(d, text) <==> !Clashes(d, text)
  {
    hide ApplyEdits, EditsFor, Clashes, Kept;
    if Clashes(d, text) {
      var i := ClashTouches(d, text);
    } else {
      forall i | 0 <= i <= |EditsFor(d, text)| ensures Kept(d, text, ApplyEdits(d, text, EditsFor(d, text)[..i])) {
        KeptSoFar(d, text, i);
      }
    }
  }

  /** No edit brings back a name that another edit is still to remove. */
  lemma {:induction false} RenameLeavesUntouched(d: Info, text: seq<Conn>, now: seq<Conn>, e: Edit)
    requires CheckCoversFile(d, text) && |now| == |text| && AllUntouched(d, text, now)
    requires e in EditsFor(d, text) && !Withheld(d, e)
    ensures AllUntouched(d, text, Rename(now, e.bad, e.repl))
  {
    hide EditsFor, Withheld, IsBad, PortsOf;
    var j := EditSource(d, text, e);
    assert text[j] in text;
    forall f | f in EditsFor(d, text) && !Withheld(d, f) ensures Untouched(text, Rename(now, e.bad, e.repl), f.bad) {
      assert f.bad !in PortsOf(d, e.child);
      assert Untouched(text, now, f.bad);
    }
  }

  lemma {:induction false} BadCountPointwise(d: Info, a: seq<Conn>, b: seq<Conn>)
    requires |a| == |b| && forall k :: 0 <= k < |a| && IsBad(d, b[k]) ==> IsBad(d, a[k])
    ensures BadCount(d, b) <= BadCount(d, a)
    ensures (exists k :: 0 <= k < |a| && IsBad(d, a[k]) && !IsBad(d, b[k])) ==> BadCount(d, b) < BadCount(d, a)
  {
    if a != [] {
      assert forall k :: 0 <= k < |a| - 1 ==> a[1..][k] == a[k + 1] && b[1..][k] == b[k + 1];
      BadCountPointwise(d, a[1..], b[1..]);
      if k :| 0 <= k < |a| && IsBad(d, a[k]) && !IsBad(d, b[k]) {
        if k > 0 {
          assert IsBad(d, a[1..][k - 1]) && !IsBad(d, b[1..][k - 1]);
        }
      }
    }
  }

  lemma RenameRepairs(d: Info, text: seq<Conn>, now: seq<Conn>, e: Edit)
    requires CheckCoversFile(d, text) && Kept(d, text, now) && AllUntouched(d, text, now)
    requires e in EditsFor(d, text) && !Withheld(d, e)
    requires Rename(now, e.bad, e.repl) != now
    ensures BadCount(d, Rename(now, e.bad, e.repl)) < BadCount(d, now)
  {
    var renamed := Rename(now, e.bad, e.repl);
    var j := EditSource(d, text, e);
    if forall k :: 0 <= k < |now| ==> now[k].port != e.bad {
      assert false;
    }
    assert Untouched(text, now, e.bad);
    assert now[j].port == e.bad && IsBad(d, now[j]) && !IsBad(d, renamed[j]);
    forall k | 0 <= k < |now| && IsBad(d, renamed[k]) ensures IsBad(d, now[k]) {
      assert text[k] in text;
    }
    BadCountPointwise(d, now, renamed);
  }

  lemma {:induction false} RunKeeps(d: Info, text: seq<Conn>, i: nat)
    requires CheckCoversFile(d, text) && i <= |EditsFor(d, text)|
    ensures var edits := EditsFor(d, text)[..i]; var now := ApplyEdits(d, text, edits);
            && Kept(d, text, now) && AllUntouched(d, text, now)
            && BadCount(d, now) + |Effective(d, text, edits)| <= BadCount(d, text)
            && (forall e :: e in Effective(d, text, edits) ==> e.repl in PortsOf(d, e.child))
  {
    hide ApplyEdits, Effective, Kept, AllUntouched, CheckCoversFile, BadCount, EditsFor, Withheld, Rename, IsBad,
         PortsOf;
    var edits := EditsFor(d, text);
    if i == 0 {
      ApplyNone(d, text, edits);
      NothingDone(d, text);
    } else {
      RunKeeps(d, text, i - 1);
      ApplyOneMore(d, text, edits, i - 1);
      var e, now := edits[i - 1], ApplyEdits(d, text, edits[..i - 1]);
      var source := EditSource(d, text, e);
      KeptLength(d, text, now);
      if !Withheld(d, e) {
        CoveredDoesNotClash(d, text);
        RenameKeeps(d, text, now, e);
        RenameLeavesUntouched(d, text, now, e);
        if Rename(now, e.bad, e.repl) != now {
          RenameRepairs(d, text, now, e);
        }
      }
    }
  }

  /** The names the first `i` edits were to remove, where they were not withheld, are gone. */
  ghost predicate NamesGone(d: Info, text: seq<Conn>, now: seq<Conn>, i: nat)
    requires i <= |EditsFor(d, text)|
  {
    forall j, k :: 0 <= j < i && 0 <= k < |now| && !Withheld(d, EditsFor(d, text)[j]) ==>
      now[k].port != EditsFor(d, text)[j].bad
  }

  /** An edit brings back no name that an earlier one removed. */
  lemma {:induction false} RenameBringsNoneBack(d: Info, text: seq<Conn>, now: seq<Conn>, i: nat)
    requires CheckCoversFile(d, text) && i < |EditsFor(d, text)| && NamesGone(d, text, now, i)
    requires !Withheld(d, EditsFor(d, text)[i])
    ensures var e := EditsFor(d, text)[i]; NamesGone(d, text, Rename(now, e.bad, e.repl), i + 1)
  {
    hide EditsFor, Withheld;
    var edits := EditsFor(d, text);
    var e := edits[i];
    var source := EditSource(d, text, e);
    assert text[source] in text;
    forall j | 0 <= j <= i && !Withheld(d, edits[j]) ensures e.repl != edits[j].bad {
      assert edits[j] in edits;
      assert edits[j].bad !in PortsOf(d, e.child);
    }
  }

  lemma {:induction false} RunRemoves(d: Info, text: seq<Conn>, i: nat)
    requires CheckCoversFile(d, text) && i <= |EditsFor(d, text)|
    ensures NamesGone(d, text, ApplyEdits(d, text, EditsFor(d, text)[..i]), i)
  {
    hide ApplyEdits, Effective, CheckCoversFile, EditsFor, Withheld, Rename;
    if i > 0 {
      RunRemoves(d, text, i - 1);
      var edits := EditsFor(d, text);
      var before := ApplyEdits(d, text, edits[..i - 1]);
      ApplyOneMore(d, text, edits, i - 1);
      if !Withheld(d, edits[i - 1]) {
        RenameBringsNoneBack(d, text, before, i - 1);
      }
    }
  }

  lemma NothingDone(d: Info, text: seq<Conn>)
    ensures Kept(d, text, text) && AllUntouched(d, text, text)
  {
  }

  lemma KeptLength(d: Info, text: seq<Conn>, now: seq<Conn>)
    requires Kept(d, text, now)
    ensures |now| == |text|
  {
  }

  /** The run, where the check covers the file: no connection that named a declared port is
      touched, every rename lands on a declared port of its child, and each applied edit lowers
      the number of bad connections, although it is a substitution over the whole file. */
  lemma RunIsSafe(d: Info, text: seq<Conn>)
    requires CheckCoversFile(d, text)
    ensures var edits := EditsFor(d, text); var fixed := ApplyEdits(d, text, edits);
            && Kept(d, text, fixed)
            && BadCount(d, fixed) + |Effective(d, text, edits)| <= BadCount(d, text)
            && (forall e :: e in Effective(d, text, edits) ==> e.repl in PortsOf(d, e.child))
    ensures forall i :: 0 <= i < |EditsFor(d, text)| ==> EditRepairs(d, text, i)
    ensures NamesGone(d, text, ApplyEdits(d, text, EditsFor(d, text)), |EditsFor(d, text)|)
  {
    hide ApplyEdits, Effective, Kept, BadCount, EditsFor, EditRepairs, NamesGone;
    var edits := EditsFor(d, text);
    RunKeeps(d, text, |edits|);
    RunRemoves(d, text, |edits|);
    assert edits[..|edits|] == edits;
    forall i | 0 <= i < |edits| ensures EditRepairs(d, text, i) {
      EachEditRepairs(d, text, i);
    }
  }

  /** When it is the turn of edit `i`, it leaves the text alone or lowers the number of bad connections. */
  ghost predicate EditRepairs(d: Info, text: seq<Conn>, i: nat)
    requires i < |EditsFor(d, text)|
  {
    var before, after := ApplyEdits(d, text, EditsFor(d, text)[..i]), ApplyEdits(d, text, EditsFor(d, text)[..i + 1]);
    after != before ==> BadCount(d, after) < BadCount(d, before)
  }

  lemma {:induction false} EachEditRepairs(d: Info, text: seq<Conn>, i: nat)
    requires CheckCoversFile(d, text) && i < |EditsFor(d, text)|
    ensures EditRepairs(d, text, i)
  {
    hide ApplyEdits, Effective, Kept, AllUntouched, CheckCoversFile, BadCount, EditsFor, Rename;
    var edits := EditsFor(d, text);
    var now := ApplyEdits(d, text, edits[..i]);
    RunKeeps(d, text, i);
    ApplyOneMore(d, text, edits, i);
    KeptLength(d, text, now);
    if !Withheld(d, edits[i]) && Rename(now, edits[i].bad, edits[i].repl) != now {
      RenameRepairs(d, text, now, edits[i]);
    }
  }

  // ----- Files with several modules

  /** A rename over the file keeps every connection that names a declared port exactly when no
      such connection has the old name on a child that does not also declare the new one. */
  lemma RenameIsSafeIff(d: Info, text: seq<Conn>, bad: string, repl: string)
    ensures (forall k :: 0 <= k < |text| && NamesPort(d, text[k]) ==> NamesPort(d, Rename(text, bad, repl)[k]))
            <==> !exists c :: c in text && c.port == bad && bad in PortsOf(d, c.child) && repl !in PortsOf(d, c.child)
  {
    var renamed := Rename(text, bad, repl);
    if c :| c in text && c.port == bad && bad in PortsOf(d, c.child) && repl !in PortsOf(d, c.child) {
      var k :| 0 <= k < |text| && text[k] == c;
      assert NamesPort(d, text[k]) && !NamesPort(d, renamed[k]);
    } else {
      forall k | 0 <= k < |text| && NamesPort(d, text[k]) ensures NamesPort(d, renamed[k]) {
        assert text[k] in text;
      }
    }
  }

  /** Two modules in one file: `p` connects `a` on an `x` whose port is `a_i`, `q` connects the
      port `a` of a `y`. The check looks at the children of `p` only. */
  ghost const SHARED := Info(map["x" := ["a_i"], "y" := ["a"]], map["p" := ["x"], "q" := ["y"]])

  ghost const SHARED_FILE := [Conn("p", "x", "a"), Conn("q", "y", "a")]

  /** In a file with two modules the promise fails: the rename made for one module breaks a
      correct connection of the other. */
  lemma SecondModuleIsBroken()
    ensures Parsed(SHARED, SHARED_FILE) && NamesPort(SHARED, SHARED_FILE[1])
    ensures var fixed := ApplyEdits(SHARED, SHARED_FILE, EditsFor(SHARED, SHARED_FILE));
            |fixed| == 2 && IsBad(SHARED, fixed[1])
  {
    hide BestPort;
    var e := Edit("a", "a_i", "x", "p");
    assert SHARED_FILE[1..] == [Conn("q", "y", "a")] && SHARED_FILE[1..][1..] == [];
    SharedBestPort();
    assert EditsFor(SHARED, SHARED_FILE[1..]) == [];
    assert EditsFor(SHARED, SHARED_FILE) == [e];
    assert [e][..0] == [];
    assert ApplyEdits(SHARED, SHARED_FILE, [e]) == Rename(SHARED_FILE, "a", "a_i");
  }

  lemma SharedNames()
    ensures !IsDirected("a") && !SameButCase("a_i", "a") && Directs("a_i", "a")
  {
    assert Extends("a_i", "a", "_i");
  }

  lemma SharedBestPort()
    ensures BestPort("a", ["a_i"]) == "a_i"
  {
    hide BestPort, IsDirected, SameButCase, Directs;
    SharedNames();
    BestPortIsSpelled("a", ["a_i"]);
    assert Proposed("a", ["a_i"], 0);
  }
}
