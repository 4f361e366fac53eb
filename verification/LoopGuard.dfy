/** The loop guards of `run_step_agent`: counters that stop an agent which spins. */
module LoopGuard {

  /** A tool call: a file write, one of the other two tools that count as progress, or any
      other call, known by the key made of its name and its arguments. */
  datatype Call = Write(path: string) | Progress | Other(key: string)

  /** A new message. `thinks` is set on an assistant text of more than 40 characters, `key` is
      the normalised text, `repetitive` the verdict of `_looks_repetitive`. */
  datatype Message = Message(thinks: bool, key: string, repetitive: bool, calls: seq<Call>)

  /** The limits, read from the environment. */
  datatype Limits = Limits(writesPerPath: int, sameCall: int)

  datatype Guard = Guard(calls: map<string, nat>, writes: map<string, nat>, texts: map<string, nat>, stop: bool)

  const FRESH := Guard(map[], map[], map[], false)

  function Get(m: map<string, nat>, k: string): nat {
    if k in m then m[k] else 0
  }

  function Bump(m: map<string, nat>, k: string): map<string, nat> {
    m[k := Get(m, k) + 1]
  }

  // ----- One run, as the nested loops of the source

  method Run(batches: seq<seq<Message>>, limits: Limits) returns (guard: Guard, processed: nat)
    ensures processed <= |batches|
    ensures guard == AfterMessages(Flatten(batches[..processed]), limits)
    ensures forall j :: 0 <= j < processed ==> !AfterMessages(Flatten(batches[..j]), limits).stop
    ensures guard.stop || processed == |batches|
  {
    guard, processed := FRESH, 0;
    while processed < |batches|
      invariant processed <= |batches|
      invariant guard == AfterMessages(Flatten(batches[..processed]), limits)
      invariant forall j :: 0 <= j <= processed ==> !AfterMessages(Flatten(batches[..j]), limits).stop
    {
      var batch := batches[processed];
      FlattenOneMore(batches, processed);
      ghost var earlier := Flatten(batches[..processed]);
      var m := 0;
      assert earlier + batch[..0] == earlier;
      while m < |batch|
        invariant m <= |batch|
        invariant guard == AfterMessages(earlier + batch[..m], limits)
      {
        AfterOneMessage(earlier, batch, m, limits);
        guard := ProcessMessage(guard, batch[m], limits);
        m := m + 1;
      }
      assert batch[..m] == batch;
      processed := processed + 1;
      if guard.stop {
        break;
      }
    }
  }

  method ProcessMessage(before: Guard, message: Message, limits: Limits) returns (guard: Guard)
    ensures guard == OnMessage(before, message, limits)
  {
    var calls, writes, texts, stop := before.calls, before.writes, before.texts, before.stop;
    if message.thinks && message.calls == [] {
      texts := Bump(texts, message.key);
      if texts[message.key] >= 3 || message.repetitive {
        stop := true;
      }
    }
    ghost var start := Guard(calls, writes, texts, stop);
    for i := 0 to |message.calls|
      invariant Guard(calls, writes, texts, stop) == OnCalls(start, message.calls[..i], limits)
    {
      assert message.calls[..i + 1][..i] == message.calls[..i];
      match message.calls[i]
      case Write(path) =>
        writes := Bump(writes, path);
        calls := map[];
        if writes[path] >= limits.writesPerPath {
          stop := true;
        }
      case Progress =>
        calls := map[];
      case Other(key) =>
        calls := Bump(calls, key);
        if calls[key] >= limits.sameCall {
          stop := true;
        }
    }
    assert message.calls[..|message.calls|] == message.calls;
    guard := Guard(calls, writes, texts, stop);
  }

  // ----- The same, as functions

  function OnCall(g: Guard, c: Call, limits: Limits): Guard {
    match c
    case Write(path) =>
      var writes := Bump(g.writes, path);
      g.(writes := writes, calls := map[], stop := g.stop || writes[path] >= limits.writesPerPath)
    case Progress => g.(calls := map[])
    case Other(key) =>
      var calls := Bump(g.calls, key);
      g.(calls := calls, stop := g.stop || calls[key] >= limits.sameCall)
  }

  function OnCalls(g: Guard, cs: seq<Call>, limits: Limits): Guard {
    if cs == [] then g else OnCall(OnCalls(g, cs[..|cs| - 1], limits), cs[|cs| - 1], limits)
  }

  function OnMessage(g: Guard, m: Message, limits: Limits): Guard {
    var thought :=
      if m.thinks && m.calls == [] then
        var texts := Bump(g.texts, m.key);
        g.(texts := texts, stop := g.stop || texts[m.key] >= 3 || m.repetitive)
      else g;
    OnCalls(thought, m.calls, limits)
  }

  function AfterMessages(ms: seq<Message>, limits: Limits): Guard {
    if ms == [] then FRESH else OnMessage(AfterMessages(ms[..|ms| - 1], limits), ms[|ms| - 1], limits)
  }

  function Flatten(batches: seq<seq<Message>>): seq<Message> {
    if batches == [] then [] else Flatten(batches[..|batches| - 1]) + batches[|batches| - 1]
  }

  lemma FlattenOneMore(batches: seq<seq<Message>>, i: nat)
    requires i < |batches|
    ensures Flatten(batches[..i + 1]) == Flatten(batches[..i]) + batches[i]
  {
    assert batches[..i + 1][..i] == batches[..i];
  }

  lemma AfterOneMessage(earlier: seq<Message>, batch: seq<Message>, m: nat, limits: Limits)
    requires m < |batch|
    ensures AfterMessages(earlier + batch[..m + 1], limits)
              == OnMessage(AfterMessages(earlier + batch[..m], limits), batch[m], limits)
  {
    var ms := earlier + batch[..m + 1];
    assert ms[..|ms| - 1] == earlier + batch[..m] && ms[|ms| - 1] == batch[m];
  }

  // ----- What the counters count, said without them

  function CallsOf(ms: seq<Message>): seq<Call> {
    if ms == [] then [] else CallsOf(ms[..|ms| - 1]) + ms[|ms| - 1].calls
  }

  /** The texts of the messages that think without acting. */
  function ThoughtsOf(ms: seq<Message>): seq<Message> {
    if ms == [] then []
    else
      var last := ms[|ms| - 1];
      ThoughtsOf(ms[..|ms| - 1]) + if last.thinks && last.calls == [] then [last] else []
  }

  function Keys(thoughts: seq<Message>): multiset<string> {
    if thoughts == [] then multiset{} else Keys(thoughts[..|thoughts| - 1]) + multiset{thoughts[|thoughts| - 1].key}
  }

  /** All paths written, with multiplicity. */
  function Written(cs: seq<Call>): multiset<string> {
    if cs == [] then multiset{}
    else
      var last := cs[|cs| - 1];
      Written(cs[..|cs| - 1]) + if last.Write? then multiset{last.path} else multiset{}
  }

  /** The other calls made since the last progress. */
  function Recent(cs: seq<Call>): multiset<string> {
    if cs == [] then multiset{}
    else
      var last := cs[|cs| - 1];
      if last.Other? then Recent(cs[..|cs| - 1]) + multiset{last.key} else multiset{}
  }

  /** No path has been written, and no call repeated without progress, up to its limit. */
  ghost predicate Calm(cs: seq<Call>, limits: Limits) {
    cs == [] ||
    (Calm(cs[..|cs| - 1], limits) &&
     (cs[|cs| - 1].Write? ==> Written(cs)[cs[|cs| - 1].path] < limits.writesPerPath) &&
     (cs[|cs| - 1].Other? ==> Recent(cs)[cs[|cs| - 1].key] < limits.sameCall))
  }

  ghost predicate CalmThoughts(thoughts: seq<Message>) {
    thoughts == [] ||
    (CalmThoughts(thoughts[..|thoughts| - 1]) &&
     !thoughts[|thoughts| - 1].repetitive && Keys(thoughts)[thoughts[|thoughts| - 1].key] < 3)
  }

  ghost predicate Tracks(g: Guard, cs: seq<Call>, thoughts: seq<Message>, limits: Limits) {
    && (forall k :: Get(g.calls, k) == Recent(cs)[k])
    && (forall k :: Get(g.writes, k) == Written(cs)[k])
    && (forall k :: Get(g.texts, k) == Keys(thoughts)[k])
    && (!g.stop <==> Calm(cs, limits) && CalmThoughts(thoughts))
  }

  lemma OneCallMore(cs: seq<Call>, c: Call, limits: Limits)
    ensures Written(cs + [c]) == Written(cs) + if c.Write? then multiset{c.path} else multiset{}
    ensures Recent(cs + [c]) == if c.Other? then Recent(cs) + multiset{c.key} else multiset{}
    ensures Calm(cs + [c], limits) <==>
              Calm(cs, limits) && (c.Write? ==> Written(cs)[c.path] + 1 < limits.writesPerPath)
              && (c.Other? ==> Recent(cs)[c.key] + 1 < limits.sameCall)
  {
    assert (cs + [c])[..|cs|] == cs;
  }

  lemma OnCallTracks(g: Guard, cs: seq<Call>, thoughts: seq<Message>, c: Call, limits: Limits)
    requires Tracks(g, cs, thoughts, limits)
    ensures Tracks(OnCall(g, c, limits), cs + [c], thoughts, limits)
  {
    hide Calm, Recent, Written, Keys, CalmThoughts, Get, Bump;
    OneCallMore(cs, c, limits);
    EmptyCounts();
    match c
    case Write(path) => BumpCounts(g.writes, path, Written(cs));
    case Progress =>
    case Other(key) => BumpCounts(g.calls, key, Recent(cs));
  }

  lemma BumpCounts(m: map<string, nat>, k: string, counts: multiset<string>)
    requires forall x :: Get(m, x) == counts[x]
    ensures forall x :: Get(Bump(m, k), x) == (counts + multiset{k})[x]
    ensures k in Bump(m, k) && Bump(m, k)[k] == counts[k] + 1
  {
  }

  lemma EmptyCounts()
    ensures forall x :: Get(map[], x) == 0
  {
  }

  lemma {:induction false} OnCallsTracks(g: Guard, before: seq<Call>, thoughts: seq<Message>, cs: seq<Call>,
                                         limits: Limits)
    requires Tracks(g, before, thoughts, limits)
    ensures Tracks(OnCalls(g, cs, limits), before + cs, thoughts, limits)
  {
    if cs == [] {
      assert before + cs == before;
    } else {
      var front, last := cs[..|cs| - 1], cs[|cs| - 1];
      OnCallsTracks(g, before, thoughts, front, limits);
      OnCallTracks(OnCalls(g, front, limits), before + front, thoughts, last, limits);
      assert before + cs == (before + front) + [last];
    }
  }

  lemma ThoughtTracks(g: Guard, cs: seq<Call>, thoughts: seq<Message>, m: Message, limits: Limits)
    requires Tracks(g, cs, thoughts, limits)
    ensures var texts := Bump(g.texts, m.key);
            Tracks(g.(texts := texts, stop := g.stop || texts[m.key] >= 3 || m.repetitive), cs, thoughts + [m], limits)
  {
    hide Calm, Recent, Written, Get, Bump;
    BumpCounts(g.texts, m.key, Keys(thoughts));
    assert (thoughts + [m])[..|thoughts|] == thoughts;
  }

  /** The guard stops exactly when a path has been written too often, a call repeated too often
      without progress, or a thought repeated. */
  lemma {:induction false} GuardTracks(ms: seq<Message>, limits: Limits)
    ensures Tracks(AfterMessages(ms, limits), CallsOf(ms), ThoughtsOf(ms), limits)
  {
    if ms != [] {
      hide Tracks;
      var front, last := ms[..|ms| - 1], ms[|ms| - 1];
      GuardTracks(front, limits);
      var g, thoughts := AfterMessages(front, limits), ThoughtsOf(front);
      if last.thinks && last.calls == [] {
        ThoughtTracks(g, CallsOf(front), thoughts, last, limits);
        var texts := Bump(g.texts, last.key);
        var thought := g.(texts := texts, stop := g.stop || texts[last.key] >= 3 || last.repetitive);
        OnCallsTracks(thought, CallsOf(front), thoughts + [last], last.calls, limits);
      } else {
        assert thoughts + [] == thoughts;
        OnCallsTracks(g, CallsOf(front), thoughts, last.calls, limits);
      }
    } else {
      StartTracks(limits);
    }
  }

  lemma StartTracks(limits: Limits)
    ensures Tracks(FRESH, [], [], limits)
  {
  }

  // ----- Every run is bounded

  /** How many times something may happen before its limit is reached. */
  function Below(limit: int): nat {
    if limit >= 1 then limit - 1 else 0
  }

  function Writes(cs: seq<Call>): nat {
    if cs == [] then 0 else Writes(cs[..|cs| - 1]) + if cs[|cs| - 1].Write? then 1 else 0
  }

  function Progresses(cs: seq<Call>): nat {
    if cs == [] then 0 else Progresses(cs[..|cs| - 1]) + if cs[|cs| - 1].Progress? then 1 else 0
  }

  ghost function Paths(cs: seq<Call>): set<string> {
    set c | c in cs && c.Write? :: c.path
  }

  ghost function CallKeys(cs: seq<Call>): set<string> {
    set c | c in cs && c.Other? :: c.key
  }

  lemma {:induction false} MultisetBound(m: multiset<string>, s: set<string>, bound: nat)
    requires forall x :: x in m ==> x in s && m[x] <= bound
    ensures |m| <= |s| * bound
    decreases s
  {
    if s == {} {
      assert m == multiset{};
    } else {
      var x :| x in s;
      MultisetBound(m[x := 0], s - {x}, bound);
      assert |m| == |m[x := 0]| + m[x];
      assert |s| * bound == |s - {x}| * bound + bound;
    }
  }

  lemma {:induction false} CalmIsWithinLimits(cs: seq<Call>, limits: Limits, x: string)
    requires Calm(cs, limits)
    ensures Written(cs)[x] <= Below(limits.writesPerPath)
    ensures Recent(cs)[x] <= Below(limits.sameCall)
  {
    if cs != [] {
      CalmIsWithinLimits(cs[..|cs| - 1], limits, x);
    }
  }

  lemma {:induction false} CountedNames(cs: seq<Call>, all: seq<Call>)
    requires cs <= all
    ensures forall x :: x in Written(cs) ==> x in Paths(all)
    ensures forall x :: x in Recent(cs) ==> x in CallKeys(all)
    ensures |Written(cs)| == Writes(cs)
  {
    if cs != [] {
      CountedNames(cs[..|cs| - 1], all);
      assert cs[|cs| - 1] in all;
    }
  }

  lemma {:induction false} RecentBound(cs: seq<Call>, all: seq<Call>, limits: Limits)
    requires cs <= all && Calm(cs, limits)
    ensures |Recent(cs)| <= |CallKeys(all)| * Below(limits.sameCall)
    ensures Writes(cs) <= |Paths(all)| * Below(limits.writesPerPath)
  {
    CountedNames(cs, all);
    forall x ensures Written(cs)[x] <= Below(limits.writesPerPath) && Recent(cs)[x] <= Below(limits.sameCall) {
      CalmIsWithinLimits(cs, limits, x);
    }
    MultisetBound(Recent(cs), CallKeys(all), Below(limits.sameCall));
    MultisetBound(Written(cs), Paths(all), Below(limits.writesPerPath));
  }

  function Product(a: nat, b: nat): nat {
    a * b
  }

  /** Between two calls that count as progress at most `stretch` others fit. */
  lemma {:induction false} StretchesBound(cs: seq<Call>, all: seq<Call>, limits: Limits, stretch: nat)
    requires cs <= all && Calm(cs, limits) && stretch == |CallKeys(all)| * Below(limits.sameCall)
    ensures |cs| <= Writes(cs) + Progresses(cs) + Product(Writes(cs) + Progresses(cs), stretch) + |Recent(cs)|
  {
    if cs != [] {
      hide Paths, CallKeys, Written, Product;
      var front := cs[..|cs| - 1];
      StretchesBound(front, all, limits, stretch);
      RecentBound(front, all, limits);
      OneMoreStretch(Writes(front) + Progresses(front), stretch);
    }
  }

  lemma OneMoreStretch(n: nat, stretch: nat)
    ensures Product(n + 1, stretch) == Product(n, stretch) + stretch
  {
  }

  /** The tool calls of a run that has not been stopped, although every write clears the call counts. */
  function CallBound(paths: nat, progress: nat, keys: nat, limits: Limits): nat {
    var clears := paths * Below(limits.writesPerPath) + progress;
    clears + (clears + 1) * (keys * Below(limits.sameCall))
  }

  lemma UnstoppedIsBounded(ms: seq<Message>, limits: Limits)
    requires !AfterMessages(ms, limits).stop
    ensures var cs := CallsOf(ms);
            |cs| <= CallBound(|Paths(cs)|, Progresses(cs), |CallKeys(cs)|, limits)
  {
    hide AfterMessages, Calm, CallsOf, Written, Recent, Writes, Progresses, Paths, CallKeys, Below, Product;
    var cs := CallsOf(ms);
    UnstoppedIsCalm(ms, limits);
    var stretch := |CallKeys(cs)| * Below(limits.sameCall);
    StretchesBound(cs, cs, limits, stretch);
    RecentBound(cs, cs, limits);
    var clears := |Paths(cs)| * Below(limits.writesPerPath) + Progresses(cs);
    StretchesFit(|cs|, Writes(cs) + Progresses(cs), clears, |Recent(cs)|, stretch);
  }

  lemma UnstoppedIsCalm(ms: seq<Message>, limits: Limits)
    requires !AfterMessages(ms, limits).stop
    ensures Calm(CallsOf(ms), limits)
  {
    hide Calm;
    GuardTracks(ms, limits);
  }

  lemma StretchesFit(size: nat, n: nat, clears: nat, recent: nat, stretch: nat)
    requires size <= n + Product(n, stretch) + recent && n <= clears && recent <= stretch
    ensures size <= clears + (clears + 1) * stretch
  {
    MulMono(n, clears, stretch);
    OneMoreStretch(clears, stretch);
  }

  lemma MulMono(a: nat, b: nat, c: nat)
    requires a <= b
    ensures a * c <= b * c
  {
  }

  /** The same for thoughts: two of each at most. */
  lemma {:induction false} ThoughtsAreBounded(thoughts: seq<Message>)
    requires CalmThoughts(thoughts)
    ensures |thoughts| <= 2 * |set t | t in thoughts :: t.key|
  {
    var keys := set t | t in thoughts :: t.key;
    KeysCount(thoughts, thoughts);
    forall x ensures Keys(thoughts)[x] <= 2 {
      CalmKeys(thoughts, x);
    }
    MultisetBound(Keys(thoughts), keys, 2);
  }

  lemma {:induction false} KeysCount(thoughts: seq<Message>, all: seq<Message>)
    requires thoughts <= all
    ensures |Keys(thoughts)| == |thoughts|
    ensures forall x :: x in Keys(thoughts) ==> x in set t | t in all :: t.key
  {
    if thoughts != [] {
      KeysCount(thoughts[..|thoughts| - 1], all);
      assert thoughts[|thoughts| - 1] in all;
    }
  }

  lemma {:induction false} CalmKeys(thoughts: seq<Message>, x: string)
    requires CalmThoughts(thoughts)
    ensures Keys(thoughts)[x] <= 2
  {
    if thoughts != [] {
      CalmKeys(thoughts[..|thoughts| - 1], x);
    }
  }

  /** What `Run` ensures bounds every run: all it processes before its last batch is within the
      bound, however it ends. */
  lemma EveryRunIsBounded(batches: seq<seq<Message>>, processed: nat, limits: Limits)
    requires 0 < processed <= |batches|
    requires forall j :: 0 <= j < processed ==> !AfterMessages(Flatten(batches[..j]), limits).stop
    ensures var ms := Flatten(batches[..processed - 1]); var cs := CallsOf(ms);
            && |cs| <= CallBound(|Paths(cs)|, Progresses(cs), |CallKeys(cs)|, limits)
            && |ThoughtsOf(ms)| <= 2 * |set t | t in ThoughtsOf(ms) :: t.key|
  {
    var ms := Flatten(batches[..processed - 1]);
    UnstoppedIsBounded(ms, limits);
    GuardTracks(ms, limits);
    ThoughtsAreBounded(ThoughtsOf(ms));
  }
}
