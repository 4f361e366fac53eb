/** The auto-tuning of `run_harden`: how the metrics of a LibreLane run change the recipe of the next one. */
module AutoTune {
  import opened Basics

  /** A constraint of the recipe; clock buffers are given by their size (clkbuf_4 is 4). */
  datatype Setting = Num(n: real) | Flag(b: bool) | Text(s: string) | Buffers(sizes: seq<int>)

  /** The recipe that is tuned: clock period in ns, core utilization in percent, the bump of the
      placement density, and the extra constraints. */
  datatype Tune = Tune(clock: real, util: int, bump: int, cfg: map<string, Setting>)

  /** What the tuner sees after a LibreLane run: how it ended, the numeric entries of the latest
      metrics, and whether its output holds GPL-0302. */
  datatype Observation = Observation(notFound: bool, timedOut: bool, metrics: map<string, real>, tooSparse: bool)

  datatype Change = ClockRelaxed | AntennaFixed | UtilLowered | Tier(k: nat) | DensityRaised

  // ----- Rounding

  /** Python's `round`: to the nearest, ties to even. */
  function Round(x: real): int {
    var below := x.Floor;
    var rest := x - below as real;
    if rest < 0.5 then below
    else if rest > 0.5 then below + 1
    else if below % 2 == 0 then below else below + 1
  }

  /** `round(x, 2)` */
  function Round2(x: real): real {
    Round(x * 100.0) as real / 100.0
  }

  lemma Round2IsClose(x: real)
    ensures x - 0.005 <= Round2(x) <= x + 0.005
  {
    var y := x * 100.0;
    assert y - 0.5 <= Round(y) as real <= y + 0.5;
  }

  /** `int(v)`: truncation towards zero. */
  function Truncate(x: real): int {
    if x >= 0.0 then x.Floor else -((-x).Floor)
  }

  /** `_hz_to_ns`: None stands for a text that is no number. */
  function HzToNs(hz: Option<int>): real {
    if hz.None? || !(1_000_000 <= hz.value <= 1_000_000_000) then 0.0
    else Round2(1_000_000_000.0 / hz.value as real)
  }

  /** A period the design declares is unknown (0.0) or plausible: from 1 ns to 1000 ns. */
  lemma DeclaredPeriodIsPlausible(hz: Option<int>)
    ensures HzToNs(hz) == 0.0 || 1.0 <= HzToNs(hz) <= 1000.0
  {
    if hz.Some? && 1_000_000 <= hz.value <= 1_000_000_000 {
      var h := hz.value as real;
      var x := 1_000_000_000.0 / h;
      assert x * h == 1_000_000_000.0;
      assert 1.0 <= x <= 1000.0 by {
        QuotientBound(x, h, 1_000_000_000.0, 1.0);
        QuotientBound(x, h, 1_000_000_000.0, 1000.0);
      }
      RoundMonotone(100.0, x * 100.0);
      RoundMonotone(x * 100.0, 100000.0);
    }
  }

  /** In that range it is the exact one to the nearest hundredth, and outside it is unknown. */
  lemma DeclaredPeriodIsClose(hz: int)
    ensures if 1_000_000 <= hz <= 1_000_000_000
            then -0.005 <= HzToNs(Some(hz)) - 1_000_000_000.0 / hz as real <= 0.005
            else HzToNs(Some(hz)) == 0.0
  {
    if 1_000_000 <= hz <= 1_000_000_000 {
      Round2IsClose(1_000_000_000.0 / hz as real);
    }
  }

  lemma QuotientBound(x: real, h: real, n: real, bound: real)
    requires h > 0.0 && x * h == n
    ensures n >= bound * h ==> x >= bound
    ensures n <= bound * h ==> x <= bound
  {
    assert (x - bound) * h == n - bound * h;
  }

  lemma RoundMonotone(x: real, y: real)
    requires x <= y
    ensures Round(x) <= Round(y)
  {
  }

  // ----- One adjustment

  predicate Positive(m: map<string, real>, key: string) {
    key in m && m[key] > 0.0
  }

  function CountOf(m: map<string, real>, kind: string): int {
    var all := "design__max_" + kind + "_violation__count";
    if all in m then Truncate(m[all])
    else if all + "__corner:nom_tt_025C_3v30" in m then Truncate(m[all + "__corner:nom_tt_025C_3v30"])
    else if all + "__corner:nom_tt_025C_5v00" in m then Truncate(m[all + "__corner:nom_tt_025C_5v00"])
    else 0
  }

  /** Slew, capacitance and fanout violations of a run. */
  function Electrical(m: map<string, real>): int {
    CountOf(m, "slew") + CountOf(m, "cap") + CountOf(m, "fanout")
  }

  predicate HasSmallBuffers(cfg: map<string, Setting>) {
    "CTS_CLK_BUFFERS" in cfg && cfg["CTS_CLK_BUFFERS"].Buffers? && 4 in cfg["CTS_CLK_BUFFERS"].sizes
  }

  /** The repair tier that is due; 0 when there is none. */
  function DueTier(cfg: map<string, Setting>, violations: int, gf180: bool): nat {
    if violations <= 0 then 0
    else if "MAX_FANOUT_CONSTRAINT" !in cfg then 1
    else if "MAX_TRANSITION_CONSTRAINT" !in cfg then 2
    else if "CTS_ROOT_BUFFER" !in cfg && gf180 then 3
    else if gf180 && HasSmallBuffers(cfg) then 4
    else 0
  }

  function WithTier(cfg: map<string, Setting>, tier: nat): map<string, Setting> {
    if tier == 1 then
      cfg["MAX_FANOUT_CONSTRAINT" := Num(16.0)]["DESIGN_REPAIR_MAX_SLEW_PCT" := Num(20.0)]
         ["DESIGN_REPAIR_MAX_CAP_PCT" := Num(20.0)]["GRT_DESIGN_REPAIR_MAX_SLEW_PCT" := Num(20.0)]
         ["GRT_DESIGN_REPAIR_MAX_CAP_PCT" := Num(20.0)]
    else if tier == 2 then
      cfg["MAX_FANOUT_CONSTRAINT" := Num(40.0)]["MAX_TRANSITION_CONSTRAINT" := Num(4.0)]
         ["DESIGN_REPAIR_MAX_SLEW_PCT" := Num(30.0)]["DESIGN_REPAIR_MAX_CAP_PCT" := Num(30.0)]
    else if tier == 3 then
      cfg["CTS_ROOT_BUFFER" := Buffers([16])]["CTS_CLK_BUFFERS" := Buffers([4, 8, 16])]
         ["DESIGN_REPAIR_MAX_CAP_PCT" := Num(40.0)]["GRT_DESIGN_REPAIR_MAX_CAP_PCT" := Num(40.0)]
    else if tier == 4 then
      cfg["CTS_CLK_BUFFERS" := Buffers([8, 16])]["MAX_CAPACITANCE_CONSTRAINT" := Num(0.5)]
         ["MAX_TRANSITION_CONSTRAINT" := Num(5.0)]["DESIGN_REPAIR_MAX_SLEW_PCT" := Num(50.0)]
         ["GRT_DESIGN_REPAIR_MAX_SLEW_PCT" := Num(50.0)]
    else cfg
  }

  predicate TimingFails(o: Observation) {
    "timing__setup__ws" in o.metrics && o.metrics["timing__setup__ws"] < -0.001
  }

  /** Covers the violation and adds a tenth. */
  function RelaxedClock(clock: real, slack: real): real {
    Round2((clock - slack) * 1.1)
  }

  predicate AntennaFixDue(t: Tune, o: Observation) {
    Positive(o.metrics, "route__antenna_violation__count") && "DIODE_ON_PORTS" !in t.cfg
  }

  predicate UtilDue(t: Tune, o: Observation) {
    Positive(o.metrics, "route__drc_errors") && t.util > 20
  }

  predicate DensityDue(t: Tune, o: Observation) {
    o.tooSparse && t.bump < 20
  }

  function WithDiodes(cfg: map<string, Setting>): map<string, Setting> {
    cfg["DIODE_ON_PORTS" := Text("in")]["RUN_HEURISTIC_DIODE_INSERTION" := Flag(true)]
  }

  /** The electrical tier is chosen after the antenna fix has been entered. */
  function TierFor(t: Tune, o: Observation, gf180: bool): nat {
    DueTier(if AntennaFixDue(t, o) then WithDiodes(t.cfg) else t.cfg, Electrical(o.metrics), gf180)
  }

  function Adjusted(t: Tune, o: Observation, gf180: bool): Tune {
    var cfg := if AntennaFixDue(t, o) then WithDiodes(t.cfg) else t.cfg;
    Tune(if TimingFails(o) then RelaxedClock(t.clock, o.metrics["timing__setup__ws"]) else t.clock,
         if UtilDue(t, o) then (if t.util - 8 > 20 then t.util - 8 else 20) else t.util,
         if DensityDue(t, o) then t.bump + 10 else t.bump,
         WithTier(cfg, TierFor(t, o, gf180)))
  }

  function When(due: bool, c: Change): seq<Change> {
    if due then [c] else []
  }

  function Changes(t: Tune, o: Observation, gf180: bool): seq<Change> {
    When(TimingFails(o), ClockRelaxed) + When(AntennaFixDue(t, o), AntennaFixed) + When(UtilDue(t, o), UtilLowered)
    + When(TierFor(t, o, gf180) > 0, Tier(TierFor(t, o, gf180))) + When(DensityDue(t, o), DensityRaised)
  }

  // ----- The loop over at most four attempts

  /** The recipe at the end, the changes of each attempt that made any, and the last run. */
  datatype LoopEnd = LoopEnd(tune: Tune, log: seq<seq<Change>>, last: Observation)

  /** `runs` are LibreLane's answers, one per attempt that may be made. */
  function TuneLoop(t: Tune, runs: seq<Observation>, gf180: bool): LoopEnd
    requires runs != []
    decreases |runs|
  {
    var o := runs[0];
    if o.notFound || o.timedOut || Changes(t, o, gf180) == [] then LoopEnd(t, [], o)
    else
      var next := Adjusted(t, o, gf180);
      if |runs| == 1 then LoopEnd(next, [Changes(t, o, gf180)], o)
      else
        var rest := TuneLoop(next, runs[1..], gf180);
        rest.(log := [Changes(t, o, gf180)] + rest.log)
  }

  /** The loop goes on as long as a run comes to something and there is something to change, and
      ends with the first run of which that is not so, or with the last. */
  lemma {:induction false} LoopEnds(t: Tune, runs: seq<Observation>, gf180: bool)
    requires runs != []
    ensures var end := TuneLoop(t, runs, gf180); var n := |end.log|;
            && n <= |runs|
            && (forall k :: 0 <= k < n ==> !runs[k].notFound && !runs[k].timedOut && end.log[k] != [])
            && (if n < |runs| then
                  end.last == runs[n]
                  && (end.last.notFound || end.last.timedOut || Changes(end.tune, end.last, gf180) == [])
                else end.last == runs[n - 1])
    decreases |runs|
  {
    hide Changes, Adjusted;
    var o := runs[0];
    if !(o.notFound || o.timedOut || Changes(t, o, gf180) == []) && |runs| > 1 {
      var next := Adjusted(t, o, gf180);
      LoopEnds(next, runs[1..], gf180);
      var log := TuneLoop(next, runs[1..], gf180).log;
      forall k | 0 < k < |log| + 1
        ensures ([Changes(t, o, gf180)] + log)[k] == log[k - 1] && runs[k] == runs[1..][k - 1]
      {
      }
    }
  }

  // ----- The ladder

  /** How far the electrical repair has climbed. */
  function Level(cfg: map<string, Setting>): nat {
    if "MAX_FANOUT_CONSTRAINT" !in cfg then 0
    else if "MAX_TRANSITION_CONSTRAINT" !in cfg then 1
    else if "CTS_ROOT_BUFFER" !in cfg then 2
    else if HasSmallBuffers(cfg) then 3
    else 4
  }

  /** A tier fires only from the level below it, and lifts the recipe to its own level at least. */
  lemma AdjustClimbs(t: Tune, o: Observation, gf180: bool)
    ensures var k, after := TierFor(t, o, gf180), Level(Adjusted(t, o, gf180).cfg);
            if k == 0 then after == Level(t.cfg) else k == Level(t.cfg) + 1 && after >= k
  {
    var cfg := if AntennaFixDue(t, o) then WithDiodes(t.cfg) else t.cfg;
    assert Level(cfg) == Level(t.cfg) && HasSmallBuffers(cfg) == HasSmallBuffers(t.cfg);
    TierClimbs(cfg, TierFor(t, o, gf180), gf180, Electrical(o.metrics));
  }

  lemma TierClimbs(cfg: map<string, Setting>, k: nat, gf180: bool, violations: int)
    requires k == DueTier(cfg, violations, gf180)
    ensures if k == 0 then WithTier(cfg, k) == cfg else k == Level(cfg) + 1 && Level(WithTier(cfg, k)) >= k
  {
  }

  function TiersIn(changes: seq<Change>): seq<nat> {
    if changes == [] then []
    else TiersIn(changes[..|changes| - 1]) + if changes[|changes| - 1].Tier? then [changes[|changes| - 1].k] else []
  }

  function CountIn(changes: seq<Change>, c: Change): nat {
    if changes == [] then 0 else CountIn(changes[..|changes| - 1], c) + if changes[|changes| - 1] == c then 1 else 0
  }

  function Flatten(log: seq<seq<Change>>): seq<Change> {
    if log == [] then [] else Flatten(log[..|log| - 1]) + log[|log| - 1]
  }

  /** Attempts whose changes are not the clock alone: re-hardenings of another kind. */
  function NonClock(log: seq<seq<Change>>): nat {
    if log == [] then 0
    else NonClock(log[..|log| - 1]) + if BeyondClock(log[|log| - 1]) then 1 else 0
  }

  predicate BeyondClock(changes: seq<Change>) {
    exists k :: 0 <= k < |changes| && changes[k] != ClockRelaxed
  }

  function DiodesIn(t: Tune): nat {
    if "DIODE_ON_PORTS" in t.cfg then 1 else 0
  }

  function UtilSteps(util: int): nat {
    if util <= 20 then 0 else (util - 20 + 7) / 8
  }

  function DensitySteps(bump: int): nat {
    if bump >= 20 then 0 else (20 - bump + 9) / 10
  }

  /** What is left to try. */
  function Work(t: Tune): nat {
    (if Level(t.cfg) < 4 then 4 - Level(t.cfg) else 0) + (1 - DiodesIn(t)) + UtilSteps(t.util) + DensitySteps(t.bump)
  }

  ghost predicate Increasing(s: seq<nat>, above: nat, upto: nat) {
    && (forall i :: 0 <= i < |s| ==> above < s[i] <= upto)
    && (forall i, j :: 0 <= i < j < |s| ==> s[i] < s[j])
  }

  /** The changes lead from recipe `a` to recipe `b`, up the ladder: every electrical tier at most
      once and in order, the antenna fix at most once, the density raised in tens and never from
      20 or more. */
  ghost predicate Ladder(a: Tune, changes: seq<Change>, b: Tune) {
    && Level(a.cfg) <= Level(b.cfg) && Increasing(TiersIn(changes), Level(a.cfg), Level(b.cfg))
    && DiodesIn(a) + CountIn(changes, AntennaFixed) == DiodesIn(b)
    && a.bump + 10 * CountIn(changes, DensityRaised) == b.bump
    && (CountIn(changes, DensityRaised) > 0 ==> b.bump < 30)
  }

  /** The utilization falls in eights, and not below 20. */
  ghost predicate UtilFalls(from: int, steps: nat, to: int) {
    to == if steps == 0 then from else if from - 8 * steps > 20 then from - 8 * steps else 20
  }

  /** `log` goes up the ladder, lowers the utilization step by step from above 20, and uses up what
      it tries. */
  ghost predicate Climb(a: Tune, log: seq<seq<Change>>, b: Tune) {
    && Ladder(a, Flatten(log), b)
    && UtilFalls(a.util, CountIn(Flatten(log), UtilLowered), b.util)
    && (CountIn(Flatten(log), UtilLowered) > 0 ==> a.util > 20)
    && NonClock(log) + Work(b) <= Work(a)
  }

  lemma ClimbLowers(a: Tune, log: seq<seq<Change>>, b: Tune)
    requires Climb(a, log, b)
    ensures b.util <= a.util && (a.util >= 20 ==> b.util >= 20)
  {
  }

  lemma {:induction false} FlattenJoin(a: seq<seq<Change>>, b: seq<seq<Change>>)
    ensures Flatten(a + b) == Flatten(a) + Flatten(b)
    ensures NonClock(a + b) == NonClock(a) + NonClock(b)
  {
    if b == [] {
      assert a + b == a;
    } else {
      var front := b[..|b| - 1];
      FlattenJoin(a, front);
      assert (a + b)[..|a + b| - 1] == a + front;
    }
  }

  lemma {:induction false} CountJoin(a: seq<Change>, b: seq<Change>, c: Change)
    ensures TiersIn(a + b) == TiersIn(a) + TiersIn(b)
    ensures CountIn(a + b, c) == CountIn(a, c) + CountIn(b, c)
  {
    if b == [] {
      assert a + b == a;
    } else {
      var front := b[..|b| - 1];
      CountJoin(a, front, c);
      assert (a + b)[..|a + b| - 1] == a + front;
    }
  }

  /** Ladders follow each other; the clock and the utilization in between do not matter. */
  lemma LadderOn(a: Tune, l: seq<Change>, b: Tune, b': Tune, m: seq<Change>, c: Tune)
    requires Ladder(a, l, b) && Ladder(b', m, c) && b'.(clock := b.clock, util := b.util) == b
    ensures Ladder(a, l + m, c)
  {
    hide TiersIn, CountIn, Level;
    CountJoin(l, m, AntennaFixed);
    CountJoin(l, m, DensityRaised);
    assert Level(b'.cfg) == Level(b.cfg);
  }

  /** Climbs follow each other; the clock in between does not matter. */
  lemma ClimbOn(a: Tune, l: seq<seq<Change>>, b: Tune, b': Tune, m: seq<seq<Change>>, c: Tune)
    requires Climb(a, l, b) && Climb(b', m, c) && b'.(clock := b.clock) == b
    ensures Climb(a, l + m, c)
  {
    hide Ladder, Flatten, NonClock, Level, CountIn;
    FlattenJoin(l, m);
    CountJoin(Flatten(l), Flatten(m), UtilLowered);
    LadderOn(a, Flatten(l), b, b', Flatten(m), c);
    assert Work(b') == Work(b);
  }

  lemma NoClimb(a: Tune, b: Tune)
    requires b.(clock := a.clock) == a
    ensures Climb(a, [], b)
  {
  }

  lemma CountOne(c: Change, d: Change)
    ensures TiersIn([c]) == if c.Tier? then [c.k] else []
    ensures CountIn([c], d) == if c == d then 1 else 0
    ensures TiersIn([]) == [] && CountIn([], d) == 0
  {
    assert [c][..0] == [];
  }

  lemma CountWhen(due: bool, c: Change, d: Change)
    ensures TiersIn(When(due, c)) == if due && c.Tier? then [c.k] else []
    ensures CountIn(When(due, c), d) == if due && c == d then 1 else 0
  {
    CountOne(c, d);
  }

  lemma CountFive(c1: seq<Change>, c2: seq<Change>, c3: seq<Change>, c4: seq<Change>, c5: seq<Change>, d: Change)
    ensures TiersIn(c1 + c2 + c3 + c4 + c5) == TiersIn(c1) + TiersIn(c2) + TiersIn(c3) + TiersIn(c4) + TiersIn(c5)
    ensures CountIn(c1 + c2 + c3 + c4 + c5, d)
              == CountIn(c1, d) + CountIn(c2, d) + CountIn(c3, d) + CountIn(c4, d) + CountIn(c5, d)
  {
    hide TiersIn, CountIn;
    CountJoin(c1, c2, d);
    CountJoin(c1 + c2, c3, d);
    CountJoin(c1 + c2 + c3, c4, d);
    CountJoin(c1 + c2 + c3 + c4, c5, d);
  }

  /** The changes of one adjustment, counted. */
  lemma {:induction false} ChangesCounted(t: Tune, o: Observation, gf180: bool, d: Change)
    ensures var changes, k := Changes(t, o, gf180), TierFor(t, o, gf180);
            && TiersIn(changes) == (if k > 0 then [k] else [])
            && (d == AntennaFixed ==> CountIn(changes, d) == if AntennaFixDue(t, o) then 1 else 0)
            && (d == DensityRaised ==> CountIn(changes, d) == if DensityDue(t, o) then 1 else 0)
            && (d == ClockRelaxed ==> CountIn(changes, d) == if TimingFails(o) then 1 else 0)
            && (d == UtilLowered ==> CountIn(changes, d) == if UtilDue(t, o) then 1 else 0)
  {
    hide TiersIn, CountIn, TierFor, When, AntennaFixDue, UtilDue, DensityDue, TimingFails;
    var k := TierFor(t, o, gf180);
    CountWhen(TimingFails(o), ClockRelaxed, d);
    CountWhen(AntennaFixDue(t, o), AntennaFixed, d);
    CountWhen(UtilDue(t, o), UtilLowered, d);
    CountWhen(k > 0, Tier(k), d);
    CountWhen(DensityDue(t, o), DensityRaised, d);
    CountFive(When(TimingFails(o), ClockRelaxed), When(AntennaFixDue(t, o), AntennaFixed),
              When(UtilDue(t, o), UtilLowered),
              When(k > 0, Tier(k)), When(DensityDue(t, o), DensityRaised), d);
  }

  predicate WorkDue(t: Tune, o: Observation, gf180: bool) {
    AntennaFixDue(t, o) || UtilDue(t, o) || TierFor(t, o, gf180) > 0 || DensityDue(t, o)
  }

  lemma BeyondClockMeansWork(t: Tune, o: Observation, gf180: bool)
    requires BeyondClock(Changes(t, o, gf180))
    ensures WorkDue(t, o, gf180)
  {
    hide TierFor, AntennaFixDue, UtilDue, DensityDue, TimingFails;
  }

  lemma TierKeepsDiodes(cfg: map<string, Setting>, k: nat)
    ensures "DIODE_ON_PORTS" in WithTier(cfg, k) <==> "DIODE_ON_PORTS" in cfg
  {
  }

  /** One adjustment uses up at least one unit of work unless it relaxes the clock alone. */
  lemma AdjustUsesWork(t: Tune, o: Observation, gf180: bool)
    ensures var b := Adjusted(t, o, gf180);
            && DiodesIn(b) == DiodesIn(t) + (if AntennaFixDue(t, o) then 1 else 0)
            && Work(b) + (if WorkDue(t, o, gf180) then 1 else 0) <= Work(t)
  {
    hide Level, TierFor, WithTier;
    var b := Adjusted(t, o, gf180);
    AdjustClimbs(t, o, gf180);
    LevelIsBounded(t.cfg);
    LevelIsBounded(b.cfg);
    TierKeepsDiodes(if AntennaFixDue(t, o) then WithDiodes(t.cfg) else t.cfg, TierFor(t, o, gf180));
    UtilStepsFall(t.util);
  }

  lemma LevelIsBounded(cfg: map<string, Setting>)
    ensures Level(cfg) <= 4
  {
  }

  lemma UtilStepsFall(util: int)
    ensures util > 20 ==> UtilSteps(if util - 8 > 20 then util - 8 else 20) == UtilSteps(util) - 1
  {
  }

  lemma AdjustIsClimb(t: Tune, o: Observation, gf180: bool)
    ensures Climb(t, [Changes(t, o, gf180)], Adjusted(t, o, gf180))
  {
    hide Level, TierFor, TiersIn, CountIn, Work, DiodesIn, Changes;
    var changes := Changes(t, o, gf180);
    AdjustClimbs(t, o, gf180);
    ChangesCounted(t, o, gf180, AntennaFixed);
    ChangesCounted(t, o, gf180, DensityRaised);
    ChangesCounted(t, o, gf180, UtilLowered);
    AdjustUsesWork(t, o, gf180);
    if BeyondClock(changes) {
      BeyondClockMeansWork(t, o, gf180);
    }
    assert [changes][..0] == [] && Flatten([changes]) == [] + changes == changes;
    assert NonClock([]) == 0;
  }

  /** A whole call climbs the ladder, whatever LibreLane answers. */
  lemma {:induction false} LoopIsClimb(t: Tune, runs: seq<Observation>, gf180: bool)
    requires runs != []
    ensures var end := TuneLoop(t, runs, gf180); Climb(t, end.log, end.tune)
    decreases |runs|
  {
    hide Climb, Changes, Adjusted;
    var o := runs[0];
    if o.notFound || o.timedOut || Changes(t, o, gf180) == [] {
      NoClimb(t, t);
    } else {
      var next := Adjusted(t, o, gf180);
      AdjustIsClimb(t, o, gf180);
      if |runs| > 1 {
        LoopIsClimb(next, runs[1..], gf180);
        var rest := TuneLoop(next, runs[1..], gf180);
        ClimbOn(t, [Changes(t, o, gf180)], next, next, rest.log, rest.tune);
      }
    }
  }

  lemma {:induction false} IncreasingIsShort(s: seq<nat>, above: nat, upto: nat)
    requires Increasing(s, above, upto) && above <= upto
    ensures |s| <= upto - above
  {
    if s != [] {
      var last := s[|s| - 1];
      IncreasingIsShort(s[..|s| - 1], above, last - 1);
    }
  }

  /** From a fresh recipe on: four electrical tiers, one antenna fix and two density bumps at most. */
  lemma FreshLadderIsShort(a: Tune, changes: seq<Change>, b: Tune)
    requires Ladder(a, changes, b) && a.bump == 0 && a.cfg == map[]
    ensures |TiersIn(changes)| <= 4
    ensures CountIn(changes, AntennaFixed) <= 1 && CountIn(changes, DensityRaised) <= 2
  {
    LevelIsBounded(b.cfg);
    IncreasingIsShort(TiersIn(changes), 0, Level(b.cfg));
  }

  // ----- The clock

  /** With a critical delay of at least 0.05 ns, the relaxed period covers it. */
  lemma RelaxationCovers(clock: real, slack: real)
    requires clock - slack >= 0.05
    ensures RelaxedClock(clock, slack) >= clock - slack
  {
    Round2IsClose((clock - slack) * 1.1);
  }

  /** A delay that exceeds `k` hundredths, but by so little that with a tenth on top it is rounded down to them. */
  predicate RoundedAway(delay: real, k: nat) {
    delay > k as real / 100.0 &&
    (delay < (k as real + 0.5) / 110.0 || (delay == (k as real + 0.5) / 110.0 && k % 2 == 0))
  }

  predicate InGap(delay: real) {
    exists k: nat :: k <= 4 && RoundedAway(delay, k)
  }

  /** For every critical delay: rounding undoes the relaxation exactly in five gaps, all below 0.041 ns. */
  lemma RelaxationMissesIff(clock: real, slack: real)
    requires clock - slack >= 0.0
    ensures RelaxedClock(clock, slack) < clock - slack <==> InGap(clock - slack)
    ensures InGap(clock - slack) ==> clock - slack < 0.041
  {
    var delay := clock - slack;
    var k := Round(delay * 1.1 * 100.0);
    assert k >= 0 && RelaxedClock(clock, slack) == k as real / 100.0;
    assert k as real - 0.5 <= 110.0 * delay <= k as real + 0.5;
    if k as real / 100.0 < delay {
      assert k <= 4 && RoundedAway(delay, k);
    }
    forall j: nat | RoundedAway(delay, j) ensures RelaxedClock(clock, slack) < delay {
      assert j as real < 110.0 * delay <= j as real + 0.5;
      assert k == j;
    }
  }

  /** One of them: the period relaxed for a delay of 0.012 ns is 0.01 ns. */
  lemma ShortDelayIsNotCovered()
    ensures RelaxedClock(0.01, -0.002) < 0.01 - (-0.002)
  {
  }

  /** From a period of 0.04 ns on, relaxation never shortens it. */
  lemma RelaxationGrows(clock: real, slack: real)
    requires clock >= 0.04 && slack < -0.001
    ensures RelaxedClock(clock, slack) >= clock
  {
    Round2IsClose((clock - slack) * 1.1);
  }

  lemma {:induction false} ClockNeverFalls(t: Tune, runs: seq<Observation>, gf180: bool)
    requires runs != [] && t.clock >= 1.0
    ensures TuneLoop(t, runs, gf180).tune.clock >= t.clock
    decreases |runs|
  {
    var o := runs[0];
    if !(o.notFound || o.timedOut || Changes(t, o, gf180) == []) {
      if TimingFails(o) {
        RelaxationGrows(t.clock, o.metrics["timing__setup__ws"]);
      }
      if |runs| > 1 {
        ClockNeverFalls(Adjusted(t, o, gf180), runs[1..], gf180);
      }
    }
  }

  /** The tuner always sees the slack of a design whose critical delay is `delay` at the clock of the moment. */
  ghost predicate SameDelay(t: Tune, runs: seq<Observation>, gf180: bool, delay: real)
    decreases |runs|
  {
    runs != [] ==>
      ("timing__setup__ws" in runs[0].metrics ==> t.clock - runs[0].metrics["timing__setup__ws"] == delay) &&
      SameDelay(Adjusted(t, runs[0], gf180), runs[1..], gf180, delay)
  }

  lemma {:induction false} ClockStaysClosed(t: Tune, runs: seq<Observation>, gf180: bool, delay: real)
    requires runs != [] && SameDelay(t, runs, gf180, delay) && t.clock >= delay
    ensures CountIn(Flatten(TuneLoop(t, runs, gf180).log), ClockRelaxed) == 0
    decreases |runs|
  {
    var o := runs[0];
    if !(o.notFound || o.timedOut || Changes(t, o, gf180) == []) {
      assert !TimingFails(o);
      ChangesCounted(t, o, gf180, ClockRelaxed);
      if |runs| > 1 {
        var next := Adjusted(t, o, gf180);
        ClockStaysClosed(next, runs[1..], gf180, delay);
        LogCount([Changes(t, o, gf180)], TuneLoop(next, runs[1..], gf180).log);
      }
      LogOne(Changes(t, o, gf180));
    }
  }

  lemma RelaxedCloses(t: Tune, o: Observation, gf180: bool, delay: real)
    requires TimingFails(o) && t.clock - o.metrics["timing__setup__ws"] == delay
    requires delay >= 0.0 && !InGap(delay)
    ensures Adjusted(t, o, gf180).clock >= delay
  {
    hide InGap;
    RelaxationMissesIff(t.clock, o.metrics["timing__setup__ws"]);
  }

  lemma TimingIsSeen(o: Observation)
    requires TimingFails(o)
    ensures "timing__setup__ws" in o.metrics
  {
  }

  /** As long as the tuner sees that, and the delay is outside the gaps, it relaxes the clock at most once. */
  lemma {:induction false} ClockRelaxedOnce(t: Tune, runs: seq<Observation>, gf180: bool, delay: real)
    requires runs != [] && SameDelay(t, runs, gf180, delay) && delay >= 0.0 && !InGap(delay)
    ensures CountIn(Flatten(TuneLoop(t, runs, gf180).log), ClockRelaxed) <= 1
    decreases |runs|
  {
    hide InGap, RelaxedClock, Adjusted, Changes, TimingFails;
    var o := runs[0];
    if !(o.notFound || o.timedOut || Changes(t, o, gf180) == []) {
      ChangesCounted(t, o, gf180, ClockRelaxed);
      LogOne(Changes(t, o, gf180));
      if |runs| > 1 {
        var next := Adjusted(t, o, gf180);
        var log := TuneLoop(next, runs[1..], gf180).log;
        LogCount([Changes(t, o, gf180)], log);
        if TimingFails(o) {
          TimingIsSeen(o);
          RelaxedCloses(t, o, gf180, delay);
          ClockStaysClosed(next, runs[1..], gf180, delay);
        } else {
          ClockRelaxedOnce(next, runs[1..], gf180, delay);
        }
      }
    }
  }

  lemma LogOne(changes: seq<Change>)
    ensures Flatten([changes]) == changes
  {
    assert [changes][..0] == [] && [] + changes == changes;
  }

  lemma LogCount(a: seq<seq<Change>>, b: seq<seq<Change>>)
    ensures CountIn(Flatten(a + b), ClockRelaxed)
              == CountIn(Flatten(a), ClockRelaxed) + CountIn(Flatten(b), ClockRelaxed)
  {
    FlattenJoin(a, b);
    CountJoin(Flatten(a), Flatten(b), ClockRelaxed);
  }
}
