/** `cone_size`, `pick_top` and `closure_files`: which modules a top integrates, and which files it needs. */
module ModuleGraph {
  import opened Basics

  /** A parsed RTL directory: the defined modules in the order they were met, the file of each,
      the modules each one instantiates, and the names each file includes. */
  datatype Rtl = Rtl(order: seq<string>, file: map<string, string>, insts: map<string, seq<string>>,
                     includes: map<string, seq<string>>)
  {
    ghost predicate Valid() {
      && (forall m :: m in order <==> m in file)
      && (forall i, j :: 0 <= i < j < |order| ==> order[i] != order[j])
      && insts.Keys == file.Keys
    }
  }

  function Instances(d: Rtl, m: string): seq<string> {
    if m in d.insts then d.insts[m] else []
  }

  predicate Instantiates(d: Rtl, m: string, child: string) {
    child in Instances(d, m) && child in d.file
  }

  // ----- Dependency cones, by reachability

  /** `b` is `n` instantiations below `a`. */
  ghost predicate Below(d: Rtl, a: string, n: nat, b: string) {
    if n == 0 then a == b else exists c :: Below(d, a, n - 1, c) && Instantiates(d, c, b)
  }

  ghost predicate Reaches(d: Rtl, a: string, b: string) {
    exists n: nat :: Below(d, a, n, b)
  }

  /** The defined modules `root` reaches, itself included. */
  ghost function Cone(d: Rtl, root: string): set<string> {
    set m | m in d.file && root in d.file && Reaches(d, root, m)
  }

  lemma ReachesSelf(d: Rtl, a: string)
    ensures Reaches(d, a, a)
  {
    assert Below(d, a, 0, a);
  }

  lemma ReachesChild(d: Rtl, a: string, b: string, child: string)
    requires Reaches(d, a, b) && Instantiates(d, b, child)
    ensures Reaches(d, a, child)
  {
    var n: nat :| Below(d, a, n, b);
    assert Below(d, a, n + 1, child);
  }

  lemma {:induction false} BelowJoin(d: Rtl, a: string, m: nat, b: string, n: nat, c: string)
    requires Below(d, a, m, b) && Below(d, b, n, c)
    ensures Below(d, a, m + n, c)
    decreases n
  {
    if n > 0 {
      var x :| Below(d, b, n - 1, x) && Instantiates(d, x, c);
      BelowJoin(d, a, m, b, n - 1, x);
    }
  }

  lemma ReachesJoin(d: Rtl, a: string, b: string, c: string)
    requires Reaches(d, a, b) && Reaches(d, b, c)
    ensures Reaches(d, a, c)
  {
    var m: nat :| Below(d, a, m, b);
    var n: nat :| Below(d, b, n, c);
    BelowJoin(d, a, m, b, n, c);
  }

  /** A set that holds `root` and every child of its members holds whatever `root` reaches. */
  lemma {:induction false} ClosedHolds(d: Rtl, seen: set<string>, root: string, n: nat, m: string)
    requires root in seen && Below(d, root, n, m)
    requires forall a, b :: a in seen && Instantiates(d, a, b) ==> b in seen
    ensures m in seen
    decreases n
  {
    if n > 0 {
      var c :| Below(d, root, n - 1, c) && Instantiates(d, c, m);
      ClosedHolds(d, seen, root, n - 1, c);
    }
  }

  lemma ClosedIsCone(d: Rtl, seen: set<string>, root: string)
    requires seen <= Cone(d, root) && root in d.file && root in seen
    requires forall a, b :: a in seen && Instantiates(d, a, b) ==> b in seen
    ensures seen == Cone(d, root)
  {
    forall m | m in Cone(d, root) ensures m in seen {
      var n: nat :| Below(d, root, n, m);
      ClosedHolds(d, seen, root, n, m);
    }
  }

  function Defined(d: Rtl, names: seq<string>): (r: seq<string>)
    ensures forall c :: c in r <==> c in names && c in d.file
  {
    if names == [] then []
    else (if names[0] in d.file then [names[0]] else []) + Defined(d, names[1..])
  }

  // ----- The two worklists

  /** What either worklist keeps: `seen` is part of the cone, and its children are seen or waiting. */
  ghost predicate Searching(d: Rtl, root: string, seen: set<string>, stack: seq<string>) {
    && seen <= Cone(d, root)
    && (forall m :: m in stack ==> m in Cone(d, root))
    && (root in seen || root in stack)
    && (forall a, b :: a in seen && Instantiates(d, a, b) ==> b in seen || b in stack)
  }

  lemma PopSeen(d: Rtl, root: string, seen: set<string>, stack: seq<string>)
    requires Searching(d, root, seen, stack) && stack != [] && stack[|stack| - 1] in seen
    ensures Searching(d, root, seen, stack[..|stack| - 1])
  {
    assert stack == stack[..|stack| - 1] + [stack[|stack| - 1]];
  }

  lemma {:induction false} PopNew(d: Rtl, root: string, seen: set<string>, stack: seq<string>, kids: seq<string>)
    requires Searching(d, root, seen, stack) && stack != []
    requires kids == Defined(d, Instances(d, stack[|stack| - 1]))
    ensures Searching(d, root, seen + {stack[|stack| - 1]}, stack[..|stack| - 1] + kids)
  {
    var m, rest := stack[|stack| - 1], stack[..|stack| - 1];
    assert stack == rest + [m];
    forall c | c in kids ensures c in Cone(d, root) {
      assert m in stack;
      ReachesChild(d, root, m, c);
    }
  }

  /** How many modules `root` reaches: the measure of how much of the design it integrates. */
  method ConeSize(d: Rtl, root: string) returns (size: nat)
    ensures size == |Cone(d, root)|
  {
    hide Searching, Cone;
    var seen: set<string> := {};
    var stack := [root];
    if root !in d.file {
      NoCone(d, root);
    } else {
      SearchBegins(d, root);
    }
    while stack != []
      invariant root in d.file ==> Searching(d, root, seen, stack)
      invariant root !in d.file ==> seen == {} && stack <= [root]
      invariant seen <= d.file.Keys
      decreases d.file.Keys - seen, |stack|
    {
      var m := stack[|stack| - 1];
      if m in seen || m !in d.file {
        if root in d.file {
          StackDefined(d, root, seen, stack);
          PopSeen(d, root, seen, stack);
        }
        stack := stack[..|stack| - 1];
        continue;
      }
      if root in d.file {
        PopNew(d, root, seen, stack, Defined(d, Instances(d, m)));
      }
      seen := seen + {m};
      stack := stack[..|stack| - 1] + Defined(d, Instances(d, m));
    }
    if root in d.file {
      SearchEnds(d, root, seen);
    }
    size := |seen|;
  }

  lemma NoCone(d: Rtl, root: string)
    requires root !in d.file
    ensures Cone(d, root) == {}
  {
  }

  lemma SearchBegins(d: Rtl, root: string)
    requires root in d.file
    ensures Searching(d, root, {}, [root])
  {
    ReachesSelf(d, root);
  }

  lemma StackDefined(d: Rtl, root: string, seen: set<string>, stack: seq<string>)
    requires Searching(d, root, seen, stack) && stack != []
    ensures stack[|stack| - 1] in d.file
  {
    assert stack[|stack| - 1] in stack;
  }

  lemma SearchEnds(d: Rtl, root: string, seen: set<string>)
    requires Searching(d, root, seen, []) && root in d.file
    ensures seen == Cone(d, root)
  {
    ClosedIsCone(d, seen, root);
  }

  /** The modules `closure_files` needs: the same cone, collected by its own worklist. */
  method NeededModules(d: Rtl, top: string) returns (needed: set<string>)
    requires top in d.file
    ensures needed == Cone(d, top)
  {
    hide Searching, Cone;
    needed := {};
    var stack := [top];
    SearchBegins(d, top);
    while stack != []
      invariant Searching(d, top, needed, stack) && needed <= d.file.Keys
      decreases d.file.Keys - needed, |stack|
    {
      var m := stack[|stack| - 1];
      StackDefined(d, top, needed, stack);
      if m in needed {
        PopSeen(d, top, needed, stack);
        stack := stack[..|stack| - 1];
        continue;
      }
      PopNew(d, top, needed, stack, Defined(d, Instances(d, m)));
      needed := needed + {m};
      stack := stack[..|stack| - 1] + Defined(d, Instances(d, m));
    }
    SearchEnds(d, top, needed);
  }

  // ----- The top module

  ghost predicate Instantiated(d: Rtl, m: string) {
    exists p :: p in d.file && Instantiates(d, p, m)
  }

  /** A module nothing instantiates; any module when there is no such one. */
  ghost predicate Candidate(d: Rtl, m: string) {
    m in d.file && (!Instantiated(d, m) || NoRoot(d))
  }

  ghost predicate NoRoot(d: Rtl) {
    forall m :: m in d.file ==> Instantiated(d, m)
  }

  /** The score: cone size, then the bonus of a telling name, then the number of instances. */
  datatype Score = Score(cone: nat, bonus: nat, kids: nat)

  predicate Less(a: Score, b: Score) {
    a.cone < b.cone || (a.cone == b.cone && (a.bonus < b.bonus || (a.bonus == b.bonus && a.kids < b.kids)))
  }

  ghost function ScoreOf(d: Rtl, telling: string -> bool, m: string): Score {
    Score(|Cone(d, m)|, if telling(m) then 1 else 0, |Defined(d, Instances(d, m))|)
  }

  /** `top` is the first of the best-scored names of `cands`. */
  ghost predicate FirstBest(d: Rtl, telling: string -> bool, cands: seq<string>, top: string) {
    exists t :: 0 <= t < |cands| && cands[t] == top &&
      forall k :: 0 <= k < |cands| ==>
        !Less(ScoreOf(d, telling, top), ScoreOf(d, telling, cands[k])) &&
        (k < t ==> Less(ScoreOf(d, telling, cands[k]), ScoreOf(d, telling, top)))
  }

  /** The names that are not in `drop`, in order. */
  function Without(names: seq<string>, drop: set<string>): (r: seq<string>)
    ensures forall m :: m in r <==> m in names && m !in drop
  {
    if names == [] then []
    else (if names[0] in drop then [] else [names[0]]) + Without(names[1..], drop)
  }

  ghost predicate InstantiatedSet(d: Rtl, instantiated: set<string>) {
    forall m :: m in instantiated <==> Instantiated(d, m)
  }

  /** The candidates, in the order the modules were met: `[n for ...] or list(defs)`. */
  function CandidatesWithout(d: Rtl, instantiated: set<string>): seq<string> {
    var roots := Without(d.order, instantiated);
    if roots == [] then d.order else roots
  }

  ghost predicate CandidateList(d: Rtl, cands: seq<string>) {
    exists instantiated :: InstantiatedSet(d, instantiated) && cands == CandidatesWithout(d, instantiated)
  }

  lemma CandidatesAre(d: Rtl, cands: seq<string>, m: string)
    requires d.Valid() && CandidateList(d, cands)
    ensures m in cands <==> Candidate(d, m)
  {
    var instantiated :| InstantiatedSet(d, instantiated) && cands == CandidatesWithout(d, instantiated);
    CandidatesWithoutAre(d, instantiated, m);
  }

  lemma CandidatesWithoutAre(d: Rtl, instantiated: set<string>, m: string)
    requires d.Valid() && InstantiatedSet(d, instantiated)
    ensures m in CandidatesWithout(d, instantiated) <==> Candidate(d, m)
  {
    hide Instantiated, NoRoot, Without;
    NoRootIff(d, instantiated);
  }

  lemma NoRootIff(d: Rtl, instantiated: set<string>)
    requires d.Valid() && InstantiatedSet(d, instantiated)
    ensures Without(d.order, instantiated) == [] <==> NoRoot(d)
  {
    hide Instantiated;
    var left := Without(d.order, instantiated);
    if left == [] {
      forall x | x in d.file ensures Instantiated(d, x) {
        assert x in d.order && x !in left;
      }
    } else {
      assert left[0] in left && left[0] in d.file && !Instantiated(d, left[0]);
    }
  }

  /** No candidate has a larger cone. */
  ghost predicate WidestCandidate(d: Rtl, top: string) {
    Candidate(d, top) && forall m :: Candidate(d, m) ==> |Cone(d, m)| <= |Cone(d, top)|
  }

  /** How many defined modules `m` instantiates, each as often as it does. */
  ghost function Kids(d: Rtl, m: string): nat {
    |DefinedPlaces(d, Instances(d, m))|
  }

  ghost function DefinedPlaces(d: Rtl, names: seq<string>): set<int> {
    set k | 0 <= k < |names| && names[k] in d.file
  }

  lemma PlacesMore(d: Rtl, names: seq<string>, last: string)
    ensures |DefinedPlaces(d, names + [last])| == |DefinedPlaces(d, names)| + if last in d.file then 1 else 0
  {
    var all, more := names + [last], if last in d.file then {|names|} else {};
    forall k ensures k in DefinedPlaces(d, all) <==> k in DefinedPlaces(d, names) + more {
      if 0 <= k < |names| {
        assert all[k] == names[k];
      }
    }
    assert DefinedPlaces(d, all) == DefinedPlaces(d, names) + more;
  }

  lemma {:induction false} DefinedCount(d: Rtl, names: seq<string>)
    ensures |Defined(d, names)| == |DefinedPlaces(d, names)|
  {
    if names == [] {
      assert DefinedPlaces(d, names) == {};
    } else {
      hide Defined, DefinedPlaces;
      var front, last := names[..|names| - 1], names[|names| - 1];
      assert front + [last] == names;
      DefinedCount(d, front);
      DefinedMore(d, front, last);
      PlacesMore(d, front, last);
    }
  }

  lemma {:induction false} DefinedMore(d: Rtl, names: seq<string>, last: string)
    ensures Defined(d, names + [last]) == Defined(d, names) + if last in d.file then [last] else []
  {
    if names == [] {
      assert [] + [last] == [last] && [last][1..] == [];
    } else {
      assert (names + [last])[1..] == names[1..] + [last];
      DefinedMore(d, names[1..], last);
    }
  }

  /** Of two candidates with cones of one size, `top` is preferred to `m`: by its name, then by the
      instances it has, then by being met first. */
  ghost predicate Preferred(d: Rtl, telling: string -> bool, top: string, m: string) {
    && (telling(m) ==> telling(top))
    && (telling(m) == telling(top) ==> Kids(d, m) <= Kids(d, top))
    && (telling(m) == telling(top) && Kids(d, m) == Kids(d, top) ==>
          MetBefore(d.order, top, m))
  }

  /** The best candidate is preferred to all others with a cone of its size. */
  ghost predicate Best(d: Rtl, telling: string -> bool, top: string) {
    forall m :: Candidate(d, m) && |Cone(d, m)| == |Cone(d, top)| ==> Preferred(d, telling, top, m)
  }

  lemma {:induction false} WithoutInOrder(names: seq<string>, drop: set<string>, i: nat, j: nat)
    returns (a: nat, b: nat)
    requires i < j < |Without(names, drop)|
    ensures a < b < |names| && names[a] == Without(names, drop)[i] && names[b] == Without(names, drop)[j]
  {
    var rest := Without(names[1..], drop);
    if names[0] in drop {
      a, b := WithoutInOrder(names[1..], drop, i, j);
      a, b := a + 1, b + 1;
    } else if i > 0 {
      a, b := WithoutInOrder(names[1..], drop, i - 1, j - 1);
      a, b := a + 1, b + 1;
    } else {
      assert rest[j - 1] in names[1..];
      var k :| 0 <= k < |names[1..]| && names[1..][k] == rest[j - 1];
      a, b := 0, k + 1;
    }
  }

  lemma CandidatesInOrder(d: Rtl, cands: seq<string>, i: nat, j: nat) returns (a: nat, b: nat)
    requires CandidateList(d, cands) && i < j < |cands|
    ensures a < b < |d.order| && d.order[a] == cands[i] && d.order[b] == cands[j]
  {
    var instantiated :| InstantiatedSet(d, instantiated) && cands == CandidatesWithout(d, instantiated);
    if Without(d.order, instantiated) == [] {
      a, b := i, j;
    } else {
      a, b := WithoutInOrder(d.order, instantiated, i, j);
    }
  }

  /** `cands` lists the candidates in the order the modules were met. */
  ghost predicate ListsInOrder(d: Rtl, cands: seq<string>) {
    && (forall m :: m in cands <==> Candidate(d, m))
    && (forall i, j :: 0 <= i < j < |cands| ==> MetBefore(d.order, cands[i], cands[j]))
  }

  /** `m` is met before `n`, and only there. */
  ghost predicate MetBefore(order: seq<string>, m: string, n: string) {
    forall i, j :: 0 <= i < |order| && 0 <= j < |order| ==> order[i] == m && order[j] == n ==> i <= j
  }

  lemma CandidatesAreInOrder(d: Rtl, cands: seq<string>)
    requires d.Valid() && CandidateList(d, cands)
    ensures ListsInOrder(d, cands)
  {
    hide Candidate, CandidateList;
    forall m ensures m in cands <==> Candidate(d, m) {
      CandidatesAre(d, cands, m);
    }
    forall i, j | 0 <= i < j < |cands| ensures MetBefore(d.order, cands[i], cands[j]) {
      var a, b := CandidatesInOrder(d, cands, i, j);
    }
  }

  lemma FirstBestIsBest(d: Rtl, telling: string -> bool, cands: seq<string>, top: string)
    requires ListsInOrder(d, cands) && FirstBest(d, telling, cands, top)
    requires forall i, j :: 0 <= i < j < |d.order| ==> d.order[i] != d.order[j]
    ensures WidestCandidate(d, top) && Best(d, telling, top)
  {
    hide Candidate, Cone, Instances, Defined, DefinedPlaces;
    var t :| 0 <= t < |cands| && cands[t] == top &&
      forall k :: 0 <= k < |cands| ==>
        !Less(ScoreOf(d, telling, top), ScoreOf(d, telling, cands[k])) &&
        (k < t ==> Less(ScoreOf(d, telling, cands[k]), ScoreOf(d, telling, top)));
    DefinedCount(d, Instances(d, top));
    assert cands[t] in cands;
    forall m | Candidate(d, m)
      ensures |Cone(d, m)| <= |Cone(d, top)|
      ensures |Cone(d, m)| == |Cone(d, top)| ==> Preferred(d, telling, top, m)
    {
      var k :| 0 <= k < |cands| && cands[k] == m;
      DefinedCount(d, Instances(d, m));
      assert !Less(ScoreOf(d, telling, top), ScoreOf(d, telling, cands[k]));
      assert t < k ==> MetBefore(d.order, cands[t], cands[k]);
    }
  }

  method FindInstantiated(d: Rtl) returns (instantiated: set<string>)
    requires d.insts.Keys == d.file.Keys
    ensures InstantiatedSet(d, instantiated)
  {
    instantiated := {};
    var parents := d.insts.Keys;
    while parents != {}
      invariant parents <= d.insts.Keys
      invariant forall m :: m in instantiated <==> exists p :: p in d.insts && p !in parents && Instantiates(d, p, m)
      decreases parents
    {
      var p :| p in parents;
      parents := parents - {p};
      instantiated := instantiated + set m | m in Defined(d, Instances(d, p));
    }
  }

  /** The structural top, or None (the source's empty name) when nothing is defined. */
  method PickTop(d: Rtl, telling: string -> bool) returns (top: Option<string>)
    requires d.Valid()
    ensures top.None? <==> d.order == []
    ensures top.Some? ==> WidestCandidate(d, top.value) && Best(d, telling, top.value)
    ensures top.Some? ==> exists cands :: CandidateList(d, cands) && FirstBest(d, telling, cands, top.value)
  {
    if d.order == [] {
      return None;
    }
    var instantiated := FindInstantiated(d);
    var cands := CandidatesWithout(d, instantiated);
    assert CandidateList(d, cands);
    var best := BestOf(d, telling, cands);
    CandidatesAreInOrder(d, cands);
    FirstBestIsBest(d, telling, cands, best);
    top := Some(best);
  }

  /** `max(cands, key=score)`: the first of the best. */
  method BestOf(d: Rtl, telling: string -> bool, cands: seq<string>) returns (top: string)
    requires cands != []
    ensures top in cands && FirstBest(d, telling, cands, top)
  {
    hide ScoreOf;
    var t := 0;
    var best := MeasureModule(d, telling, cands[0]);
    for i := 1 to |cands|
      invariant t < i && best == ScoreOf(d, telling, cands[t])
      invariant forall k :: 0 <= k < i ==> !Less(best, ScoreOf(d, telling, cands[k]))
      invariant forall k :: 0 <= k < t ==> Less(ScoreOf(d, telling, cands[k]), best)
    {
      var score := MeasureModule(d, telling, cands[i]);
      if Less(best, score) {
        t, best := i, score;
      }
    }
    top := cands[t];
  }

  method MeasureModule(d: Rtl, telling: string -> bool, m: string) returns (score: Score)
    ensures score == ScoreOf(d, telling, m)
  {
    var cone := ConeSize(d, m);
    score := Score(cone, if telling(m) then 1 else 0, |Defined(d, Instances(d, m))|);
  }

  /** The module instantiates itself, directly or through others. */
  ghost predicate OnCycle(d: Rtl, m: string) {
    m in d.file && exists n: nat :: n > 0 && Below(d, m, n, m)
  }

  lemma ConeInclusion(d: Rtl, a: string, b: string)
    requires b in Cone(d, a)
    ensures Cone(d, b) <= Cone(d, a)
  {
    forall m | m in Cone(d, b) ensures m in Cone(d, a) {
      ReachesJoin(d, a, b, m);
    }
  }

  /** The cone of a module that is on no cycle is strictly smaller than that of any module instantiating it. */
  lemma ParentIsBigger(d: Rtl, p: string, m: string)
    requires !OnCycle(d, m) && p in d.file && Instantiates(d, p, m)
    ensures m in Cone(d, p) && |Cone(d, m)| < |Cone(d, p)|
  {
    ReachesSelf(d, p);
    ReachesChild(d, p, p, m);
    ConeInclusion(d, p, m);
    SubsetCard(Cone(d, m), Cone(d, p));
    if p in Cone(d, m) {
      var n: nat :| Below(d, m, n, p);
      assert Below(d, p, 0, p) && Below(d, p, 1, m);
      BelowJoin(d, m, n, p, 1, m);
      assert false;
    }
    assert p in Cone(d, p);
  }

  /** Climbing from parent to parent ends at a module nothing instantiates, or on a cycle. */
  lemma {:induction false} RootAbove(d: Rtl, m: string) returns (root: string)
    requires m in d.file
    ensures root in d.file && m in Cone(d, root) && (!Instantiated(d, root) || OnCycle(d, root))
    decreases |d.file.Keys| - |Cone(d, m)|
  {
    ReachesSelf(d, m);
    if !Instantiated(d, m) || OnCycle(d, m) {
      root := m;
    } else {
      var p :| p in d.file && Instantiates(d, p, m);
      ParentIsBigger(d, p, m);
      SubsetCard(Cone(d, p), d.file.Keys);
      root := RootAbove(d, p);
      ConeInclusion(d, root, p);
    }
  }

  /** No module has a larger dependency cone than `top`. */
  ghost predicate LargestCone(d: Rtl, top: string) {
    forall m :: m in d.file ==> |Cone(d, m)| <= |Cone(d, top)|
  }

  /** Every module on a cycle has a candidate with a cone at least as large. */
  ghost predicate CyclesAreMatched(d: Rtl) {
    forall m :: OnCycle(d, m) ==> exists r :: Candidate(d, r) && |Cone(d, m)| <= |Cone(d, r)|
  }

  /** Although only uninstantiated modules are compared, the top that is picked has the largest
      dependency cone of all modules exactly when no cycle outgrows every candidate. */
  lemma TopHasLargestConeIff(d: Rtl, top: string)
    requires WidestCandidate(d, top)
    ensures LargestCone(d, top) <==> CyclesAreMatched(d)
  {
    hide OnCycle, Candidate, Cone;
    CyclesAreDefined(d);
    if CyclesAreMatched(d) {
      forall m | m in d.file ensures |Cone(d, m)| <= |Cone(d, top)| {
        var root := RootAbove(d, m);
        ConeInclusion(d, root, m);
        SubsetCard(Cone(d, m), Cone(d, root));
        if !OnCycle(d, root) {
          RootIsCandidate(d, root);
        }
      }
    }
  }

  lemma RootIsCandidate(d: Rtl, root: string)
    requires root in d.file && !Instantiated(d, root)
    ensures Candidate(d, root)
  {
  }

  lemma CyclesAreDefined(d: Rtl)
    ensures forall m :: OnCycle(d, m) ==> m in d.file
  {
  }

  /** So on every acyclic design it has the largest one. */
  lemma TopHasLargestCone(d: Rtl, top: string)
    requires WidestCandidate(d, top) && forall m :: !OnCycle(d, m)
    ensures LargestCone(d, top)
  {
    TopHasLargestConeIff(d, top);
  }

  /** Two modules that instantiate each other, and a module on its own. */
  ghost const ISLAND := Rtl(["a", "b", "c"], map["a" := "a.v", "b" := "b.v", "c" := "c.v"],
                            map["a" := ["b"], "b" := ["a"], "c" := []], map[])

  lemma IslandInstances()
    ensures forall p, m :: Instantiates(ISLAND, p, m) <==> (p == "a" && m == "b") || (p == "b" && m == "a")
  {
    assert Instances(ISLAND, "a") == ["b"] && Instances(ISLAND, "b") == ["a"] && Instances(ISLAND, "c") == [];
  }

  lemma IslandRoots()
    ensures CandidatesWithout(ISLAND, {"a", "b"}) == ["c"]
  {
    var drop := {"a", "b"};
    assert ISLAND.order[1..] == ["b", "c"] && ["b", "c"][1..] == ["c"];
    assert Without(["c"], drop) == ["c"];
    assert Without(["b", "c"], drop) == ["c"];
  }

  lemma IslandCandidates()
    ensures CandidateList(ISLAND, ["c"])
  {
    hide Instances, Instantiates, CandidatesWithout;
    IslandInstances();
    IslandRoots();
    assert "a" in ISLAND.file && "b" in ISLAND.file;
    assert Instantiates(ISLAND, "b", "a") && Instantiates(ISLAND, "a", "b");
    assert InstantiatedSet(ISLAND, {"a", "b"});
  }

  lemma IslandCones()
    ensures |Cone(ISLAND, "c")| <= 1 && |Cone(ISLAND, "a")| >= 2
  {
    IslandInstances();
    ReachesSelf(ISLAND, "a");
    ReachesChild(ISLAND, "a", "a", "b");
    SubsetCard({"a", "b"}, Cone(ISLAND, "a"));
    forall m | m in Cone(ISLAND, "c") ensures m in {"c"} {
      var n: nat :| Below(ISLAND, "c", n, m);
      ClosedHolds(ISLAND, {"c"}, "c", n, m);
    }
    SubsetCard(Cone(ISLAND, "c"), {"c"});
  }

  /** On a cyclic design the promise fails: a cycle nobody instantiates from outside is passed
      over for a lone module, although its cone is larger. */
  lemma CycleIsPassedOver(telling: string -> bool)
    ensures CandidateList(ISLAND, ["c"]) && FirstBest(ISLAND, telling, ["c"], "c")
    ensures "a" in ISLAND.file && |Cone(ISLAND, "a")| > |Cone(ISLAND, "c")| && !LargestCone(ISLAND, "c")
  {
    hide CandidateList, Cone;
    IslandCandidates();
    IslandCones();
    assert ["c"][0] == "c";
  }

  // ----- The files of the closure

  /** What a file name's suffix makes of it: `glob` and `endswith` ask for nothing else. */
  datatype Kind = Header | Source | Other

  function KindOf(f: string): Kind {
    if EndsWith(f, ".vh") || EndsWith(f, ".svh") then Header
    else if EndsWith(f, ".v") || EndsWith(f, ".sv") then Source else Other
  }

  function IncludesOf(d: Rtl, f: string): seq<string> {
    if f in d.includes then d.includes[f] else []
  }

  /** The files of the needed modules, what those files include, and every header of the directory. */
  ghost function NeededFiles(d: Rtl, dir: set<string>, needed: set<string>): set<string> {
    (set m | m in needed && m in d.file :: d.file[m])
    + (set m, h | m in needed && m in d.file && h in IncludesOf(d, d.file[m]) :: h)
    + (set f | f in dir && KindOf(f) == Header)
  }

  /** `some` lists the members of `all` of one kind, each once. */
  ghost predicate Lists(some: seq<string>, all: set<string>, kind: Kind) {
    && (forall i, j :: 0 <= i < j < |some| ==> some[i] != some[j])
    && (forall f :: f in some <==> f in all && KindOf(f) == kind)
  }

  method ListKind(all: set<string>, kind: Kind) returns (some: seq<string>)
    ensures Lists(some, all, kind)
  {
    some := [];
    var rest := all;
    while rest != {}
      invariant rest <= all
      invariant forall i, j :: 0 <= i < j < |some| ==> some[i] != some[j]
      invariant forall f :: f in some <==> f in all && f !in rest && KindOf(f) == kind
      decreases rest
    {
      var f :| f in rest;
      rest := rest - {f};
      if KindOf(f) == kind {
        some := some + [f];
      }
    }
  }

  ghost predicate HeaderName(f: string) {
    EndsWith(f, ".vh") || EndsWith(f, ".svh")
  }

  ghost predicate SourceName(f: string) {
    EndsWith(f, ".v") || EndsWith(f, ".sv")
  }

  lemma KindIs(f: string)
    ensures KindOf(f) == Header <==> HeaderName(f)
    ensures KindOf(f) == Source <==> SourceName(f)
  {
    assert HeaderName(f) ==> f[|f| - 1] == 'h' by {
      assert ".vh"[2] == 'h' && ".svh"[3] == 'h';
    }
    assert SourceName(f) ==> f[|f| - 1] == 'v' by {
      assert ".v"[1] == 'v' && ".sv"[2] == 'v';
    }
  }

  /** Some module below `top` is in `f`, or in a file that includes it, or `f` is a header of the directory. */
  ghost predicate NeededBy(d: Rtl, dir: set<string>, top: string, f: string) {
    || (exists m :: m in d.file && Reaches(d, top, m) && f == d.file[m])
    || (exists m :: m in d.file && Reaches(d, top, m) && d.file[m] in d.includes && f in d.includes[d.file[m]])
    || (f in dir && HeaderName(f))
  }

  lemma NeededIs(d: Rtl, dir: set<string>, top: string, f: string)
    requires top in d.file
    ensures f in NeededFiles(d, dir, Cone(d, top)) <==> NeededBy(d, dir, top, f)
  {
    hide Reaches, HeaderName, KindOf;
    KindIs(f);
    var needed := Cone(d, top);
    assert f in (set m | m in needed && m in d.file :: d.file[m]) <==> exists m :: m in needed && f == d.file[m];
    assert f in (set m, h | m in needed && m in d.file && h in IncludesOf(d, d.file[m]) :: h) <==>
             exists m :: m in needed && f in IncludesOf(d, d.file[m]);
  }

  /** Both lists, by names: what is built and in which order, and what is left over. */
  ghost predicate Closure(d: Rtl, dir: set<string>, present: set<string>, top: string, build: seq<string>,
                          orphans: seq<string>) {
    && (forall i, j :: 0 <= i < j < |build| ==> build[i] != build[j] && (HeaderName(build[j]) ==> HeaderName(build[i])))
    && (forall f :: f in build <==>
          (HeaderName(f) || SourceName(f))
          && if top in d.file then f in present && NeededBy(d, dir, top, f) else f in dir)
    && (forall f :: f in orphans <==> top in d.file && f in dir && SourceName(f) && !NeededBy(d, dir, top, f))
  }

  lemma ListsAreClosure(d: Rtl, dir: set<string>, present: set<string>, top: string, headers: seq<string>,
                        sources: seq<string>, orphans: seq<string>)
    requires var files := if top in d.file then NeededFiles(d, dir, Cone(d, top)) * present else dir;
             Lists(headers, files, Header) && Lists(sources, files, Source)
    requires if top in d.file then Lists(orphans, dir - NeededFiles(d, dir, Cone(d, top)), Source) else orphans == []
    ensures Closure(d, dir, present, top, headers + sources, orphans)
  {
    hide NeededFiles, NeededBy, HeaderName, SourceName, KindOf, Cone;
    forall f ensures (KindOf(f) == Header <==> HeaderName(f)) && (KindOf(f) == Source <==> SourceName(f)) {
      KindIs(f);
    }
    if top in d.file {
      forall f ensures f in NeededFiles(d, dir, Cone(d, top)) <==> NeededBy(d, dir, top, f) {
        NeededIs(d, dir, top, f);
      }
    }
    var build := headers + sources;
    forall i, j | 0 <= i < j < |build|
      ensures build[i] != build[j] && (HeaderName(build[j]) ==> HeaderName(build[i]))
    {
      assert i < |headers| ==> build[i] in headers;
      assert j >= |headers| ==> build[j] in sources;
    }
  }

  /** The build list, its first `cut` names the headers, and the orphans. `dir` is the directory
      listing, `present` the names that exist: the listing and whatever else includes may name. */
  method ClosureFiles(d: Rtl, dir: set<string>, present: set<string>, top: string)
    returns (build: seq<string>, orphans: seq<string>, ghost cut: nat)
    requires dir <= present
    ensures cut <= |build|
    ensures var files := if top in d.file then NeededFiles(d, dir, Cone(d, top)) * present else dir;
            Lists(build[..cut], files, Header) && Lists(build[cut..], files, Source)
    ensures top !in d.file ==> orphans == []
    ensures top in d.file ==> Lists(orphans, dir - NeededFiles(d, dir, Cone(d, top)), Source)
    ensures top in d.file ==> forall f :: f in dir && KindOf(f) == Source ==> (f in build) != (f in orphans)
    ensures Closure(d, dir, present, top, build, orphans)
  {
    hide Closure;
    var headers, sources;
    if top !in d.file {
      headers := ListKind(dir, Header);
      sources := ListKind(dir, Source);
      orphans := [];
    } else {
      var needed := NeededModules(d, top);
      var files := set m | m in needed && m in d.file :: d.file[m];
      files := files + set f, h | f in files && h in IncludesOf(d, f) :: h;
      files := files + set f | f in dir && KindOf(f) == Header;
      assert files == NeededFiles(d, dir, needed);
      orphans := ListKind(dir - files, Source);
      headers := ListKind(files * present, Header);
      sources := ListKind(files * present, Source);
    }
    ListsAreClosure(d, dir, present, top, headers, sources, orphans);
    build, cut := headers + sources, |headers|;
    assert build[..cut] == headers && build[cut..] == sources;
  }
}
