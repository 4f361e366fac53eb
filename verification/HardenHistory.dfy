/** `run_harden` over many calls on the same RTL: what persisting the tuning is worth, and when the clock is relaxed. */
module HardenHistory {
  import opened Basics
  import opened AutoTune
  import opened Signoff
  import opened HardenRun

  // ----- Resuming, over any number of calls on the same RTL

  function LogOf(outcome: Outcome): seq<seq<Change>> {
    if outcome.NoTool? || outcome.Hardened? then outcome.log else []
  }

  /** The recipe the next call of this utilization starts from, but for its clock. */
  function Base(w: Workspace, util: int, fingerprint: string -> string): Tune {
    var saved := Current(w.saved, fingerprint(w.rtl));
    if saved.Some? then saved.value.tune else Tune(0.0, util, 0, map[])
  }

  /** The persisted recipe holds nothing that a call starting anew at `util` would undo or try again. */
  predicate NothingToLose(t: Tune, util: int) {
    Level(t.cfg) == 0 && DiodesIn(t) == 0 && t.bump == 0 && t.util == util
  }

  /** Judged before the call: it does not come to run LibreLane, or it does not run into the
      swallowed exception, or there is nothing to lose by that. */
  predicate Continues(w: Workspace, call: Call, fingerprint: string -> string) {
    var saved := Current(w.saved, fingerprint(w.rtl));
    Reaches(w, call, fingerprint(w.rtl)) && saved.Some? && ResumeFails(call, saved.value) ==>
      NothingToLose(saved.value.tune, call.util)
  }

  /** The call, with these answers, goes on climbing where the persisted recipe stands. */
  ghost predicate Climbs(w: Workspace, call: Call, runs: seq<Answer>, fingerprint: string -> string)
    requires runs != []
  {
    var (after, outcome) := Harden(w, call.(runs := runs), fingerprint);
    Climb(Base(w, call.util, fingerprint), LogOf(outcome), Base(after, call.util, fingerprint))
  }

  /** The state and the log of a call that runs LibreLane. */
  lemma ReachedCall(w: Workspace, call: Call, fingerprint: string -> string)
    requires call.runs != [] && Reaches(w, call, fingerprint(w.rtl))
    ensures var fp := fingerprint(w.rtl); var saved := Current(w.saved, fp);
            var (after, outcome) := Harden(w, call, fingerprint);
            var end := TuneLoop(Load(call, saved), Seen(map[], call.runs), call.gf180);
            && LogOf(outcome) == end.log && after.rtl == w.rtl
            && (outcome.NoTool? <==> end.last.notFound) && (outcome.NoTool? || outcome.Hardened?)
            && (outcome.Hardened? ==> outcome.tune == end.tune && !outcome.reused)
            && after.saved == if end.log == [] then saved else Some(Saved(fp, end.tune))
  {
    hide Clean, Attempted, TuneLoop, Load;
    var fp := fingerprint(w.rtl);
    AttemptedTunes(Wiped(w, fp), fp, Load(call, Current(w.saved, fp)), call.runs, call.gf180);
  }

  /** A call that does not run it leaves the recipe alone. */
  lemma UnreachedCall(w: Workspace, call: Call, fingerprint: string -> string)
    requires call.runs != [] && !Reaches(w, call, fingerprint(w.rtl))
    ensures var (after, outcome) := Harden(w, call, fingerprint);
            && LogOf(outcome) == [] && after.rtl == w.rtl
            && Current(after.saved, fingerprint(w.rtl)) == Current(w.saved, fingerprint(w.rtl))
  {
    hide Clean, Attempted;
  }

  lemma CallClimbs(w: Workspace, call: Call, fingerprint: string -> string)
    requires call.runs != [] && Continues(w, call, fingerprint)
    ensures Climbs(w, call, call.runs, fingerprint) && Harden(w, call, fingerprint).0.rtl == w.rtl
  {
    hide Climb, TuneLoop, Clean, Reaches, Harden, NothingToLose, ResumeFails, Seen;
    var base := Base(w, call.util, fingerprint);
    assert call.(runs := call.runs) == call;
    NoClimb(base, base);
    if Reaches(w, call, fingerprint(w.rtl)) {
      ReachedCall(w, call, fingerprint);
      var saved := Current(w.saved, fingerprint(w.rtl));
      var t := Load(call, saved);
      var runs := Seen(map[], call.runs);
      LoopIsClimb(t, runs, call.gf180);
      var end := TuneLoop(t, runs, call.gf180);
      if end.log == [] {
      } else if saved.Some? && ResumeFails(call, saved.value) {
        NothingIsLost(saved.value.tune, t, end.log, end.tune);
      } else {
        NoClimb(base, t);
        assert t.(clock := base.clock) == base;
        ClimbOn(base, [], t, t, end.log, end.tune);
        assert [] + end.log == end.log;
      }
    } else {
      UnreachedCall(w, call, fingerprint);
    }
  }

  /** Where there is nothing to lose, a climb from a fresh recipe is one from the persisted recipe. */
  lemma NothingIsLost(a: Tune, anew: Tune, log: seq<seq<Change>>, b: Tune)
    requires anew.cfg == map[] && anew.bump == 0 && NothingToLose(a, anew.util)
    requires Climb(anew, log, b)
    ensures Climb(a, log, b)
  {
    hide TiersIn, CountIn, Flatten, NonClock;
  }

  ghost const SLEW := Answer(false, false, false, map["design__max_slew_violation__count" := 1.0], false)

  /** One slew violation, then a timeout: from a fresh recipe the first electrical tier fires, and no more. */
  ghost const SLEW_ONLY := ThenTimeout(SLEW)

  function ThenTimeout(a: Answer): (r: seq<Answer>)
    ensures |r| == 4 && r[0] == a
  {
    var timeout := Answer(false, true, false, map[], false);
    [a, timeout, timeout, timeout]
  }

  /** After one run that changes something and a timeout, the loop ends. */
  lemma OneRound(t: Tune, a: Answer, gf180: bool)
    requires !a.notFound && !a.timedOut && a.metrics != map[]
    requires Changes(t, Observation(false, false, a.metrics, a.tooSparse), gf180) != []
    ensures var o := Observation(false, false, a.metrics, a.tooSparse);
            var end := TuneLoop(t, Seen(map[], ThenTimeout(a)), gf180);
            end.log == [Changes(t, o, gf180)] && end.tune == Adjusted(t, o, gf180)
  {
    hide Changes, Adjusted;
    var answers := ThenTimeout(a);
    var runs := Seen(map[], answers);
    assert runs[1..] == Seen(a.metrics, answers[1..]);
    assert answers[1..][0] == answers[1];
    assert runs[1..][0].timedOut;
  }

  lemma SlewCounts(m: map<string, real>)
    requires "design__max_slew_violation__count" in m && m["design__max_slew_violation__count"] == 1.0
    requires forall key :: key in m ==> key == "design__max_slew_violation__count" || key == "timing__setup__ws"
    ensures Electrical(m) == 1
  {
    hide CountOf;
    SlewCount(m);
    NoSuchCount(m, "cap");
    NoSuchCount(m, "fanout");
  }

  lemma SlewCount(m: map<string, real>)
    requires "design__max_slew_violation__count" in m && m["design__max_slew_violation__count"] == 1.0
    ensures CountOf(m, "slew") == 1
  {
    assert "design__max_" + "slew" + "_violation__count" == "design__max_slew_violation__count";
  }

  lemma NoSuchCount(m: map<string, real>, kind: string)
    requires kind == "cap" || kind == "fanout"
    requires forall key :: key in m ==> key == "design__max_slew_violation__count" || key == "timing__setup__ws"
    ensures CountOf(m, kind) == 0
  {
    var all := "design__max_" + kind + "_violation__count";
    assert all[12] == kind[0] && "design__max_slew_violation__count"[12] == 's';
    assert all[0] == 'd' && "timing__setup__ws"[0] == 't';
  }

  lemma SlewFiresFirstTier(call: Call)
    ensures var t := Fresh(call); var end := TuneLoop(t, Seen(map[], SLEW_ONLY), call.gf180);
            end.log == [[Tier(1)]] && end.tune == t.(cfg := WithTier(map[], 1))
  {
    hide Electrical, WithTier, WithDiodes;
    SlewCounts(SLEW.metrics);
    var t, o := Fresh(call), Observation(false, false, SLEW.metrics, false);
    assert TierFor(t, o, call.gf180) == 1;
    assert Changes(t, o, call.gf180) == [Tier(1)];
    assert Adjusted(t, o, call.gf180) == t.(cfg := WithTier(map[], 1));
    hide Changes, Adjusted;
    OneRound(t, SLEW, call.gf180);
  }

  lemma FirstTierSets()
    ensures Level(WithTier(map[], 1)) == 1 && "DIODE_ON_PORTS" !in WithTier(map[], 1)
  {
  }

  /** From a recipe with something to lose, that is no climb. */
  lemma FirstTierIsNoClimb(a: Tune, anew: Tune)
    requires anew.cfg == map[] && anew.bump == 0 && !NothingToLose(a, anew.util)
    ensures !Climb(a, [[Tier(1)]], anew.(cfg := WithTier(map[], 1)))
  {
    hide WithTier, Level, UtilSteps, NonClock, TiersIn, CountIn, Flatten;
    FirstTierSets();
    LogOne([Tier(1)]);
    CountOne(Tier(1), AntennaFixed);
    CountOne(Tier(1), DensityRaised);
    CountOne(Tier(1), UtilLowered);
    assert TiersIn([Tier(1)])[0] == 1;
  }

  /** For every call, known but for LibreLane's answers: whatever these are it goes on climbing the
      ladder of the persisted recipe, exactly when it continues. */
  lemma CallClimbsIff(w: Workspace, call: Call, fingerprint: string -> string)
    ensures Continues(w, call, fingerprint) <==>
              forall runs :: |runs| == 4 ==> Climbs(w, call, runs, fingerprint)
  {
    hide Climbs, Clean, Harden;
    if Continues(w, call, fingerprint) {
      forall runs: seq<Answer> | |runs| == 4 ensures Climbs(w, call, runs, fingerprint) {
        CallClimbs(w, call.(runs := runs), fingerprint);
        SameClimb(w, call, runs, fingerprint);
      }
    } else {
      NoClimbWithout(w, call, fingerprint);
      assert |SLEW_ONLY| == 4;
    }
  }

  lemma SameClimb(w: Workspace, call: Call, runs: seq<Answer>, fingerprint: string -> string)
    requires runs != []
    ensures Climbs(w, call.(runs := runs), runs, fingerprint) == Climbs(w, call, runs, fingerprint)
  {
    hide Harden, Climb;
  }

  lemma NoClimbWithout(w: Workspace, call: Call, fingerprint: string -> string)
    requires !Continues(w, call, fingerprint)
    ensures !Climbs(w, call, SLEW_ONLY, fingerprint)
  {
    hide Climb, TuneLoop, Clean, Harden, NothingToLose, Seen;
    var tried := call.(runs := SLEW_ONLY);
    ReachedCall(w, tried, fingerprint);
    SlewFiresFirstTier(tried);
    FirstTierIsNoClimb(Base(w, call.util, fingerprint), Fresh(tried));
  }

  function AfterCalls(w: Workspace, calls: seq<Call>, fingerprint: string -> string): Workspace
    requires forall c :: c in calls ==> c.runs != []
  {
    if calls == [] then w
    else
      assert calls[|calls| - 1] in calls;
      Harden(AfterCalls(w, calls[..|calls| - 1], fingerprint), calls[|calls| - 1], fingerprint).0
  }

  /** Everything the tuner changed in these calls. */
  function HistoryLog(w: Workspace, calls: seq<Call>, fingerprint: string -> string): seq<seq<Change>>
    requires forall c :: c in calls ==> c.runs != []
  {
    if calls == [] then []
    else
      var front, last := calls[..|calls| - 1], calls[|calls| - 1];
      assert last in calls;
      HistoryLog(w, front, fingerprint) + LogOf(Harden(AfterCalls(w, front, fingerprint), last, fingerprint).1)
  }

  ghost predicate AllContinue(w: Workspace, calls: seq<Call>, fingerprint: string -> string)
    requires forall c :: c in calls ==> c.runs != []
  {
    calls != [] ==>
      var front, last := calls[..|calls| - 1], calls[|calls| - 1];
      Continues(AfterCalls(w, front, fingerprint), last, fingerprint) && AllContinue(w, front, fingerprint)
  }

  /** The parts of a recipe that do not depend on the requested utilization. */
  lemma LadderOfBase(w: Workspace, util: int, util': int, fingerprint: string -> string, changes: seq<Change>,
                     b: Tune, b': Tune)
    requires Ladder(Base(w, util, fingerprint), changes, b) && b' == b.(util := b'.util)
    ensures Ladder(Base(w, util', fingerprint), changes, b')
  {
    hide TiersIn, CountIn, Level;
  }

  /** One call of a history: what it adds to the ladder, and the work it uses up. */
  lemma CallAdds(w: Workspace, call: Call, util: int, fingerprint: string -> string)
    requires call.runs != [] && Continues(w, call, fingerprint)
    ensures var (after, outcome) := Harden(w, call, fingerprint);
            && after.rtl == w.rtl
            && Ladder(Base(w, util, fingerprint), Flatten(LogOf(outcome)), Base(after, util, fingerprint))
            && (call.util <= util ==>
                  NonClock(LogOf(outcome)) + Work(Base(after, util, fingerprint)) <= Work(Base(w, util, fingerprint)))
  {
    hide Ladder, Harden, Flatten, NonClock, Level, Continues;
    CallClimbs(w, call, fingerprint);
    assert call.(runs := call.runs) == call;
    var (after, outcome) := Harden(w, call, fingerprint);
    var a, b := Base(w, call.util, fingerprint), Base(after, call.util, fingerprint);
    var b' := Base(after, util, fingerprint);
    LadderOfBase(w, call.util, util, fingerprint, Flatten(LogOf(outcome)), b, b');
    if call.util <= util {
      assert UtilSteps(call.util) <= UtilSteps(util);
      RecipeStays(w, call, fingerprint);
    }
  }

  /** A call only ever sets the persisted recipe when it changes something. */
  lemma RecipeStays(w: Workspace, call: Call, fingerprint: string -> string)
    requires call.runs != []
    ensures var (after, outcome) := Harden(w, call, fingerprint); var fp := fingerprint(w.rtl);
            && (LogOf(outcome) == [] ==> Current(after.saved, fp) == Current(w.saved, fp))
            && (LogOf(outcome) != [] ==> Current(after.saved, fp).Some?)
  {
    hide Harden, TuneLoop, Reaches, Load;
    if Reaches(w, call, fingerprint(w.rtl)) {
      ReachedCall(w, call, fingerprint);
    } else {
      UnreachedCall(w, call, fingerprint);
    }
  }

  /** Over any number of calls on the same RTL, whatever LibreLane answers, the tuner climbs one
      ladder: what a call has tried, no later call tries again. */
  lemma {:induction false} HistoryClimbs(w: Workspace, calls: seq<Call>, util: int, fingerprint: string -> string)
    requires forall c :: c in calls ==> c.runs != []
    requires AllContinue(w, calls, fingerprint)
    ensures var after, log := AfterCalls(w, calls, fingerprint), HistoryLog(w, calls, fingerprint);
            && after.rtl == w.rtl
            && Ladder(Base(w, util, fingerprint), Flatten(log), Base(after, util, fingerprint))
            && ((forall c :: c in calls ==> c.util <= util) ==>
                  NonClock(log) + Work(Base(after, util, fingerprint)) <= Work(Base(w, util, fingerprint)))
    decreases |calls|
  {
    hide Ladder, Harden, Continues, Work, NonClock, Base;
    var base := Base(w, util, fingerprint);
    if calls == [] {
      NoClimb(base, base);
      ClimbLadder(base, [], base);
    } else {
      var front, last := calls[..|calls| - 1], calls[|calls| - 1];
      assert last in calls;
      HistoryClimbs(w, front, util, fingerprint);
      var before := AfterCalls(w, front, fingerprint);
      CallAdds(before, last, util, fingerprint);
      var middle := Base(before, util, fingerprint);
      var (after, outcome) := Harden(before, last, fingerprint);
      var l, m := HistoryLog(w, front, fingerprint), LogOf(outcome);
      FlattenJoin(l, m);
      LadderOn(base, Flatten(l), middle, middle, Flatten(m), Base(after, util, fingerprint));
    }
  }

  /** Calls that all ask for one utilization never raise it, and never lower it below 20. */
  lemma {:induction false} HistoryClimbsAtOne(w: Workspace, calls: seq<Call>, util: int, fingerprint: string -> string)
    requires forall c :: c in calls ==> c.runs != [] && c.util == util
    requires AllContinue(w, calls, fingerprint)
    ensures Climb(Base(w, util, fingerprint), HistoryLog(w, calls, fingerprint),
                  Base(AfterCalls(w, calls, fingerprint), util, fingerprint))
    decreases |calls|
  {
    hide Climb, Harden, Continues, Base;
    var base := Base(w, util, fingerprint);
    if calls == [] {
      NoClimb(base, base);
    } else {
      var front, last := calls[..|calls| - 1], calls[|calls| - 1];
      assert last in calls;
      HistoryClimbsAtOne(w, front, util, fingerprint);
      var before := AfterCalls(w, front, fingerprint);
      CallClimbs(before, last, fingerprint);
      assert last.(runs := last.runs) == last;
      var middle := Base(before, util, fingerprint);
      var (after, outcome) := Harden(before, last, fingerprint);
      ClimbOn(base, HistoryLog(w, front, fingerprint), middle, middle, LogOf(outcome), Base(after, util, fingerprint));
    }
  }

  lemma ClimbLadder(a: Tune, log: seq<seq<Change>>, b: Tune)
    requires Climb(a, log, b)
    ensures Ladder(a, Flatten(log), b) && NonClock(log) + Work(b) <= Work(a)
  {
  }

  /** So calls that start without saved tuning fire each electrical tier at most once, one antenna
      fix and two density bumps between them, whatever utilizations they ask for, and re-harden
      for anything but the clock a bounded number of times. */
  lemma HistoryIsShort(w: Workspace, calls: seq<Call>, util: int, fingerprint: string -> string)
    requires forall c :: c in calls ==> c.runs != []
    requires AllContinue(w, calls, fingerprint) && Current(w.saved, fingerprint(w.rtl)).None?
    ensures var log := HistoryLog(w, calls, fingerprint);
            && |TiersIn(Flatten(log))| <= 4 && CountIn(Flatten(log), AntennaFixed) <= 1
            && CountIn(Flatten(log), DensityRaised) <= 2
            && ((forall c :: c in calls ==> c.util <= util) ==> NonClock(log) <= 7 + UtilSteps(util))
  {
    HistoryClimbs(w, calls, util, fingerprint);
    var log := HistoryLog(w, calls, fingerprint);
    FreshLadderIsShort(Base(w, util, fingerprint), Flatten(log),
                       Base(AfterCalls(w, calls, fingerprint), util, fingerprint));
  }

  /** A design that declares no clock always continues. */
  lemma {:induction false} UndeclaredContinues(w: Workspace, calls: seq<Call>, fingerprint: string -> string)
    requires forall c :: c in calls ==> c.runs != [] && c.declared <= 0.0
    ensures AllContinue(w, calls, fingerprint)
  {
    if calls != [] {
      assert calls[|calls| - 1] in calls;
      UndeclaredContinues(w, calls[..|calls| - 1], fingerprint);
    }
  }

  /** Tuning that was saved for other RTL makes no difference. */
  lemma OtherRtlStartsOver(w: Workspace, call: Call, fingerprint: string -> string)
    requires call.runs != [] && w.saved.Some? && w.saved.value.fingerprint != fingerprint(w.rtl)
    ensures Harden(w, call, fingerprint).1 == Harden(w.(saved := None), call, fingerprint).1
  {
    hide Clean, TuneLoop, Attempted;
  }

  /** Where a call resumes, the persisted clock does not fall by it. */
  lemma ResumedClockNeverFalls(w: Workspace, call: Call, fingerprint: string -> string)
    requires call.runs != [] && Current(w.saved, fingerprint(w.rtl)).Some?
    requires !ResumeFails(call, w.saved.value) && w.saved.value.tune.clock >= 1.0
    ensures var saved := Current(Harden(w, call, fingerprint).0.saved, fingerprint(w.rtl));
            saved.Some? && saved.value.tune.clock >= w.saved.value.tune.clock
  {
    hide Harden, TuneLoop, Seen, Reaches;
    if Reaches(w, call, fingerprint(w.rtl)) {
      ReachedCall(w, call, fingerprint);
      ClockNeverFalls(Load(call, w.saved), Seen(map[], call.runs), call.gf180);
    } else {
      UnreachedCall(w, call, fingerprint);
    }
  }

  /** A resume that fails forgets the ladder: the call does what it would do without any saved state. */
  lemma FailedResumeStartsOver(w: Workspace, call: Call, fingerprint: string -> string)
    requires call.runs != [] && Current(w.saved, fingerprint(w.rtl)).Some?
    requires ResumeFails(call, Current(w.saved, fingerprint(w.rtl)).value)
    ensures Harden(w, call, fingerprint).1 == Harden(w.(saved := None), call, fingerprint).1
  {
    hide Clean, TuneLoop, Attempted;
    var fp := fingerprint(w.rtl);
    var t := Load(call, Current(w.saved, fp));
    SavedIsNotSeen(Wiped(w, fp), Wiped(w.(saved := None), fp), fp, t, call.runs, call.gf180);
  }

  lemma {:induction false} SavedIsNotSeen(w: Workspace, v: Workspace, fp: string, t: Tune, runs: seq<Answer>,
                                          gf180: bool)
    requires runs != [] && w.rtl == v.rtl && w.chip == v.chip
    ensures Attempted(w, fp, t, runs, gf180).1 == Attempted(v, fp, t, runs, gf180).1
    ensures Attempted(w, fp, t, runs, gf180).0.chip == Attempted(v, fp, t, runs, gf180).0.chip
    decreases |runs|
  {
    hide Adjusted, Changes;
    var chip := AfterRun(w.chip, w.rtl, runs[0]);
    var o := Observed(chip, runs[0]);
    if !(o.notFound || o.timedOut || Changes(t, o, gf180) == []) && |runs| > 1 {
      var next := Adjusted(t, o, gf180);
      var saved := Some(Saved(fp, next));
      SavedIsNotSeen(w.(chip := chip, saved := saved), v.(chip := chip, saved := saved), fp, next, runs[1..], gf180);
    }
  }

  // ----- Where the ladder is climbed anew

  /** A run that misses the delay `target`, with a slew violation. */
  function SlowRun(clock: real, target: real): Answer {
    Answer(false, false, false,
           map["timing__setup__ws" := clock - target, "design__max_slew_violation__count" := 1.0], false)
  }

  lemma SlowLoop(call: Call, target: real)
    requires call.clock < target - 0.001 && target >= 0.05
    ensures var t := Fresh(call);
            var end := TuneLoop(t, Seen(map[], ThenTimeout(SlowRun(call.clock, target))), call.gf180);
            end.log == [[ClockRelaxed, Tier(1)]] && end.tune.clock >= target && Level(end.tune.cfg) == 1
  {
    hide Electrical, RelaxedClock, WithTier, WithDiodes;
    var slow := SlowRun(call.clock, target);
    SlewCounts(slow.metrics);
    RelaxationCovers(call.clock, call.clock - target);
    var t, o := Fresh(call), Observation(false, false, slow.metrics, false);
    assert TierFor(t, o, call.gf180) == 1;
    assert Changes(t, o, call.gf180) == [ClockRelaxed, Tier(1)];
    assert Adjusted(t, o, call.gf180).clock >= target && Adjusted(t, o, call.gf180).cfg == WithTier(map[], 1);
    FirstTierSets();
    hide Changes, Adjusted;
    OneRound(t, slow, call.gf180);
  }

  lemma {:induction false} NothingMade(w: Workspace, fp: string, t: Tune, runs: seq<Answer>, gf180: bool)
    requires runs != [] && forall a :: a in runs ==> !a.made
    ensures Attempted(w, fp, t, runs, gf180).0.chip.gds == w.chip.gds
    decreases |runs|
  {
    hide Adjusted, Changes;
    var v := w.(chip := AfterRun(w.chip, w.rtl, runs[0]));
    var o := Observed(v.chip, runs[0]);
    if !(o.notFound || o.timedOut || Changes(t, o, gf180) == []) && |runs| > 1 {
      var next := Adjusted(t, o, gf180);
      NothingMade(v.(saved := Some(Saved(fp, next))), fp, next, runs[1..], gf180);
    }
  }

  /** A call whose runs make no GDS, and what it comes to. */
  lemma FruitlessCall(w: Workspace, call: Call, a: Answer, fingerprint: string -> string)
    requires CanRun(call) && !Reusable(w.chip, fingerprint(w.rtl)) && call.runs == ThenTimeout(a) && !a.made
    ensures var fp := fingerprint(w.rtl); var saved := Current(w.saved, fp);
            var (after, outcome) := Harden(w, call, fingerprint);
            var end := TuneLoop(Load(call, saved), Seen(map[], ThenTimeout(a)), call.gf180);
            && Reaches(w, call, fp) && after.rtl == w.rtl && after.chip.gds == [] && LogOf(outcome) == end.log
            && after.saved == if end.log == [] then saved else Some(Saved(fp, end.tune))
  {
    hide Attempted, Clean, TuneLoop, Load;
    var fp := fingerprint(w.rtl);
    ReachedCall(w, call, fingerprint);
    NothingMade(Wiped(w, fp), fp, Load(call, Current(w.saved, fp)), call.runs, call.gf180);
  }

  ghost const SLOW_CALL := Call(true, 10.0, 35, 10.0, true, true, true, ThenTimeout(SlowRun(10.0, 11.0)))

  /** Where the design declares its clock, a relaxed clock makes the next resume fail, and the first
      electrical tier fires in both calls. */
  lemma TierFiresTwice(fingerprint: string -> string)
    ensures var w := Workspace("rtl", EMPTY, None);
            var (after, first) := Harden(w, SLOW_CALL, fingerprint);
            && !Continues(after, SLOW_CALL, fingerprint)
            && TiersIn(Flatten(LogOf(first))) == [1]
            && TiersIn(Flatten(LogOf(Harden(after, SLOW_CALL, fingerprint).1))) == [1]
  {
    hide TuneLoop, TiersIn, Harden, Reaches, Seen, Clean;
    var w := Workspace("rtl", EMPTY, None);
    SlowLoop(SLOW_CALL, 11.0);
    FruitlessCall(w, SLOW_CALL, SlowRun(10.0, 11.0), fingerprint);
    var (after, first) := Harden(w, SLOW_CALL, fingerprint);
    FruitlessCall(after, SLOW_CALL, SlowRun(10.0, 11.0), fingerprint);
    assert after.saved.Some? && ResumeFails(SLOW_CALL, after.saved.value);
    OneRoundTiers();
  }

  lemma OneRoundTiers()
    ensures TiersIn(Flatten([[ClockRelaxed, Tier(1)]])) == [1]
    ensures TiersIn(Flatten([[ClockRelaxed, Tier(1)], [Tier(1)]])) == [1, 1]
  {
    hide TiersIn, CountIn;
    LogOne([ClockRelaxed, Tier(1)]);
    LogOne([Tier(1)]);
    FlattenJoin([[ClockRelaxed, Tier(1)]], [[Tier(1)]]);
    assert [[ClockRelaxed, Tier(1)]] + [[Tier(1)]] == [[ClockRelaxed, Tier(1)], [Tier(1)]];
    CountOne(ClockRelaxed, ClockRelaxed);
    CountOne(Tier(1), ClockRelaxed);
    CountJoin([ClockRelaxed], [Tier(1)], ClockRelaxed);
    assert [ClockRelaxed] + [Tier(1)] == [ClockRelaxed, Tier(1)];
    CountJoin([ClockRelaxed, Tier(1)], [Tier(1)], ClockRelaxed);
  }

  // ----- Histories known but for LibreLane's answers

  predicate InFull(answers: seq<seq<Answer>>) {
    forall k :: 0 <= k < |answers| ==> |answers[k]| == 4
  }

  function WithAnswers(calls: seq<Call>, answers: seq<seq<Answer>>): (r: seq<Call>)
    requires |answers| == |calls| && InFull(answers)
    ensures |r| == |calls| && forall k :: 0 <= k < |r| ==> r[k] == calls[k].(runs := answers[k])
    ensures forall c :: c in r ==> c.runs != []
  {
    seq(|calls|, k requires 0 <= k < |calls| => calls[k].(runs := answers[k]))
  }

  ghost predicate OneLadder(w: Workspace, calls: seq<Call>, fingerprint: string -> string)
    requires forall c :: c in calls ==> c.runs != []
  {
    Ladder(Base(w, 0, fingerprint), Flatten(HistoryLog(w, calls, fingerprint)),
           Base(AfterCalls(w, calls, fingerprint), 0, fingerprint))
  }

  ghost predicate AlwaysOneLadder(w: Workspace, calls: seq<Call>, fingerprint: string -> string) {
    forall answers :: |answers| == |calls| && InFull(answers) ==>
      OneLadder(w, WithAnswers(calls, answers), fingerprint)
  }

  predicate LaterDeclares(calls: seq<Call>, k: int) {
    0 < k < |calls| && calls[k].declared > 0.0
  }

  lemma {:induction false} LateCallsContinue(w: Workspace, calls: seq<Call>, fingerprint: string -> string)
    requires forall c :: c in calls ==> c.runs != []
    requires Current(w.saved, fingerprint(w.rtl)).None? && forall k :: !LaterDeclares(calls, k)
    ensures AllContinue(w, calls, fingerprint)
    decreases |calls|
  {
    if calls != [] {
      var front, k := calls[..|calls| - 1], |calls| - 1;
      assert calls[k] in calls;
      forall j ensures !LaterDeclares(front, j) {
        assert !LaterDeclares(calls, j);
      }
      LateCallsContinue(w, front, fingerprint);
      assert !LaterDeclares(calls, k);
    }
  }

  /** The period the first call is driven to, so that call `k` finds it slower than what it declares. */
  function Target(calls: seq<Call>, k: nat): real
    requires k < |calls|
  {
    (if calls[0].clock > calls[k].declared then calls[0].clock else calls[k].declared) + 1.0
  }

  /** The first call relaxes the clock and fires a tier, call `k` sees a slew violation, and no other
      call gets anywhere. */
  ghost function Provoking(calls: seq<Call>, k: nat): (answers: seq<seq<Answer>>)
    requires k < |calls|
    ensures |answers| == |calls| && InFull(answers)
  {
    seq(|calls|, j requires 0 <= j < |calls| => ProvokingAt(calls, k, j))
  }

  ghost function ProvokingAt(calls: seq<Call>, k: nat, j: nat): (r: seq<Answer>)
    requires k < |calls|
    ensures |r| == 4
  {
    if j == 0 then ThenTimeout(SlowRun(calls[0].clock, Target(calls, k)))
    else if j == k then ThenTimeout(SLEW)
    else ThenTimeout(SLEW.(timedOut := true))
  }

  lemma IdleLoop(t: Tune, gf180: bool)
    ensures TuneLoop(t, Seen(map[], ThenTimeout(SLEW.(timedOut := true))), gf180).log == []
  {
    var runs := Seen(map[], ThenTimeout(SLEW.(timedOut := true)));
    assert runs[0].timedOut;
  }

  /** A workspace without a GDS that holds tuning for its RTL with a clock slower than `declared`. */
  ghost predicate Slowed(s: Workspace, fp: string, declared: real) {
    s.chip.gds == [] && s.saved.Some? && s.saved.value.fingerprint == fp && s.saved.value.tune.clock > declared
  }

  lemma FirstCallRelaxes(w: Workspace, call: Call, target: real, fingerprint: string -> string)
    requires CanRun(call) && call.runs == ThenTimeout(SlowRun(call.clock, target))
    requires Current(w.saved, fingerprint(w.rtl)).None? && !Reusable(w.chip, fingerprint(w.rtl))
    requires call.clock < target - 0.001 && target >= 0.05
    ensures var (after, outcome) := Harden(w, call, fingerprint);
            && after.rtl == w.rtl && after.chip.gds == [] && LogOf(outcome) == [[ClockRelaxed, Tier(1)]]
            && forall declared :: declared < target ==> Slowed(after, fingerprint(w.rtl), declared)
  {
    hide Harden, TuneLoop, Seen, Reaches, Reusable, ThenTimeout, SlowRun;
    SlowLoop(call, target);
    NoGds(call.clock, target);
    FruitlessCall(w, call, SlowRun(call.clock, target), fingerprint);
  }

  lemma NoGds(clock: real, target: real)
    ensures !SlowRun(clock, target).made
  {
  }

  lemma LaterCallFires(s: Workspace, call: Call, fingerprint: string -> string)
    requires CanRun(call) && call.runs == ThenTimeout(SLEW) && call.declared > 0.0
    requires Slowed(s, fingerprint(s.rtl), call.declared)
    ensures var (after, outcome) := Harden(s, call, fingerprint);
            after.rtl == s.rtl && after.chip.gds == [] && LogOf(outcome) == [[Tier(1)]]
  {
    hide Harden, TuneLoop, Seen, Reaches, ThenTimeout;
    FruitlessCall(s, call, SLEW, fingerprint);
    SlewFiresFirstTier(call);
  }

  lemma IdleCall(s: Workspace, call: Call, fingerprint: string -> string)
    requires CanRun(call) && call.runs == ThenTimeout(SLEW.(timedOut := true)) && s.chip.gds == []
    ensures var (after, outcome) := Harden(s, call, fingerprint);
            && after.rtl == s.rtl && after.chip.gds == [] && LogOf(outcome) == []
            && after.saved == Current(s.saved, fingerprint(s.rtl))
  {
    hide Harden, TuneLoop, Seen, Reaches, ThenTimeout;
    FruitlessCall(s, call, SLEW.(timedOut := true), fingerprint);
    IdleLoop(Load(call, Current(s.saved, fingerprint(s.rtl))), call.gf180);
  }

  lemma HistoryMore(w: Workspace, calls: seq<Call>, i: nat, fingerprint: string -> string)
    requires (forall c :: c in calls ==> c.runs != []) && 0 < i <= |calls|
    ensures var before := AfterCalls(w, calls[..i - 1], fingerprint);
            && AfterCalls(w, calls[..i], fingerprint) == Harden(before, calls[i - 1], fingerprint).0
            && HistoryLog(w, calls[..i], fingerprint)
                 == HistoryLog(w, calls[..i - 1], fingerprint) + LogOf(Harden(before, calls[i - 1], fingerprint).1)
  {
    hide Harden;
    assert calls[..i][..i - 1] == calls[..i - 1];
  }

  /** The history under these answers, call by call. */
  lemma {:induction false} ProvokedLog(w: Workspace, calls: seq<Call>, k: nat, i: nat, fingerprint: string -> string)
    requires forall c :: c in calls ==> CanRun(c)
    requires Current(w.saved, fingerprint(w.rtl)).None? && !Reusable(w.chip, fingerprint(w.rtl))
    requires LaterDeclares(calls, k) && 0 < i <= |calls|
    ensures var done := WithAnswers(calls, Provoking(calls, k))[..i];
            var after := AfterCalls(w, done, fingerprint);
            && after.rtl == w.rtl && after.chip.gds == []
            && (i <= k ==> Slowed(after, fingerprint(w.rtl), calls[k].declared))
            && HistoryLog(w, done, fingerprint)
                 == if i <= k then [[ClockRelaxed, Tier(1)]] else [[ClockRelaxed, Tier(1)], [Tier(1)]]
    decreases i
  {
    hide Harden, Reusable, Target, AfterCalls, HistoryLog, ThenTimeout, SlowRun, LogOf;
    var all := WithAnswers(calls, Provoking(calls, k));
    var call := all[i - 1];
    assert call in all && calls[i - 1] in calls;
    HistoryMore(w, all, i, fingerprint);
    if i == 1 {
      NothingYet(w, fingerprint);
      TargetIsSlower(calls, k);
      FirstCallRelaxes(w, call, Target(calls, k), fingerprint);
    } else {
      ProvokedLog(w, calls, k, i - 1, fingerprint);
      var before := AfterCalls(w, all[..i - 1], fingerprint);
      if i - 1 == k {
        LaterCallFires(before, call, fingerprint);
      } else {
        IdleCall(before, call, fingerprint);
      }
    }
  }

  lemma NothingYet(w: Workspace, fingerprint: string -> string)
    ensures AfterCalls(w, [], fingerprint) == w && HistoryLog(w, [], fingerprint) == []
  {
  }

  lemma TargetIsSlower(calls: seq<Call>, k: nat)
    requires LaterDeclares(calls, k)
    ensures Target(calls, k) >= calls[0].clock + 1.0 && Target(calls, k) > calls[k].declared + 0.5
    ensures Target(calls, k) >= 1.0
  {
  }

  /** For calls that can run LibreLane, known but for its answers, on a workspace without saved tuning
      and without a run to reuse: they climb one ladder whatever the answers are exactly when no call
      after the first declares a clock. */
  lemma HistoryClimbsIff(w: Workspace, calls: seq<Call>, fingerprint: string -> string)
    requires forall c :: c in calls ==> CanRun(c)
    requires Current(w.saved, fingerprint(w.rtl)).None? && !Reusable(w.chip, fingerprint(w.rtl))
    ensures AlwaysOneLadder(w, calls, fingerprint) <==> forall k :: !LaterDeclares(calls, k)
  {
    hide OneLadder, Reusable, AllContinue, InFull;
    if k :| LaterDeclares(calls, k) {
      ProvokedBreaks(w, calls, k, fingerprint);
      var answers := Provoking(calls, k);
    } else {
      forall answers | |answers| == |calls| && InFull(answers)
        ensures OneLadder(w, WithAnswers(calls, answers), fingerprint)
      {
        var all := WithAnswers(calls, answers);
        forall k ensures !LaterDeclares(all, k) {
          assert !LaterDeclares(calls, k);
        }
        LateCallsContinue(w, all, fingerprint);
        ContinuedIsOneLadder(w, all, fingerprint);
      }
    }
  }

  lemma {:induction false} ContinuedIsOneLadder(w: Workspace, calls: seq<Call>, fingerprint: string -> string)
    requires (forall c :: c in calls ==> c.runs != []) && AllContinue(w, calls, fingerprint)
    ensures OneLadder(w, calls, fingerprint)
  {
    HistoryClimbs(w, calls, 0, fingerprint);
  }

  lemma ProvokedBreaks(w: Workspace, calls: seq<Call>, k: nat, fingerprint: string -> string)
    requires forall c :: c in calls ==> CanRun(c)
    requires Current(w.saved, fingerprint(w.rtl)).None? && !Reusable(w.chip, fingerprint(w.rtl))
    requires LaterDeclares(calls, k)
    ensures !OneLadder(w, WithAnswers(calls, Provoking(calls, k)), fingerprint)
  {
    hide Provoking, HistoryLog, AfterCalls, Base, TiersIn, Flatten, Reusable;
    var all := WithAnswers(calls, Provoking(calls, k));
    ProvokedLog(w, calls, k, |calls|, fingerprint);
    assert all[..|calls|] == all;
    OneRoundTiers();
    assert [1, 1][0] == [1, 1][1];
  }

  // ----- The clock, over what LibreLane answers

  predicate Ends(t: Tune, o: Observation, gf180: bool) {
    o.notFound || o.timedOut || Changes(t, o, gf180) == []
  }

  /** Whatever setup slack the answers of a call report is that of a design with critical delay
      `delay` at the clock of that run. */
  ghost predicate TrueSlack(t: Tune, metrics: map<string, real>, runs: seq<Answer>, gf180: bool, delay: real)
    decreases |runs|
  {
    runs != [] ==>
      var o := SeenAfter(metrics, runs[0]);
      && ("timing__setup__ws" in runs[0].metrics ==> t.clock - runs[0].metrics["timing__setup__ws"] == delay)
      && (Ends(t, o, gf180) || TrueSlack(Adjusted(t, o, gf180), Latest(metrics, runs[0]), runs[1..], gf180, delay))
  }

  /** The run right after the first one that relaxes the clock is absent, comes to nothing or writes metrics. */
  ghost predicate MeasuredAgain(t: Tune, metrics: map<string, real>, runs: seq<Answer>, gf180: bool)
    decreases |runs|
  {
    runs != [] ==>
      var o := SeenAfter(metrics, runs[0]);
      if Ends(t, o, gf180) || |runs| == 1 then true
      else if TimingFails(o) then NotStale(runs[1])
      else MeasuredAgain(Adjusted(t, o, gf180), Latest(metrics, runs[0]), runs[1..], gf180)
  }

  predicate NotStale(a: Answer) {
    a.notFound || a.timedOut || a.metrics != map[]
  }

  predicate SlackIsMet(metrics: map<string, real>) {
    "timing__setup__ws" in metrics ==> metrics["timing__setup__ws"] >= -0.001
  }

  /** How often a call relaxes the clock. */
  function Relaxations(t: Tune, metrics: map<string, real>, runs: seq<Answer>, gf180: bool): nat
    requires runs != []
  {
    CountIn(Flatten(TuneLoop(t, Seen(metrics, runs), gf180).log), ClockRelaxed)
  }

  lemma RelaxationsStep(t: Tune, metrics: map<string, real>, runs: seq<Answer>, gf180: bool)
    requires runs != []
    ensures var o := SeenAfter(metrics, runs[0]);
            Relaxations(t, metrics, runs, gf180) ==
              if Ends(t, o, gf180) then 0
              else
                (if TimingFails(o) then 1 else 0) +
                if |runs| == 1 then 0
                else Relaxations(Adjusted(t, o, gf180), Latest(metrics, runs[0]), runs[1..], gf180)
  {
    hide Changes, Adjusted, TimingFails, CountIn, Flatten;
    var o, seen := SeenAfter(metrics, runs[0]), Seen(metrics, runs);
    assert seen[0] == o && seen[1..] == Seen(Latest(metrics, runs[0]), runs[1..]);
    NothingCounts();
    if !Ends(t, o, gf180) {
      ChangesCounted(t, o, gf180, ClockRelaxed);
      LogOne(Changes(t, o, gf180));
      if |runs| > 1 {
        LogCount([Changes(t, o, gf180)], TuneLoop(Adjusted(t, o, gf180), seen[1..], gf180).log);
      }
    }
  }

  lemma NothingCounts()
    ensures CountIn(Flatten([]), ClockRelaxed) == 0
  {
  }

  /** Failing timing is something to change. */
  lemma FailingGoesOn(t: Tune, o: Observation, gf180: bool)
    requires TimingFails(o)
    ensures Changes(t, o, gf180) != []
  {
  }

  /** A clock that covers the delay stays, unless old metrics say otherwise. */
  lemma {:induction false} CoveredClockStays(t: Tune, metrics: map<string, real>, runs: seq<Answer>, gf180: bool,
                                             delay: real)
    requires runs != [] && TrueSlack(t, metrics, runs, gf180, delay) && t.clock >= delay
    requires SlackIsMet(metrics) || NotStale(runs[0])
    ensures Relaxations(t, metrics, runs, gf180) == 0
    decreases |runs|
  {
    hide Relaxations, Changes;
    var o := SeenAfter(metrics, runs[0]);
    RelaxationsStep(t, metrics, runs, gf180);
    if !Ends(t, o, gf180) {
      assert SlackIsMet(Latest(metrics, runs[0]));
      if |runs| > 1 {
        CoveredClockStays(Adjusted(t, o, gf180), Latest(metrics, runs[0]), runs[1..], gf180, delay);
      }
    }
  }

  /** With the critical delay unchanged and outside the gaps, a call relaxes the clock at most once
      exactly when the first relaxation is followed by new metrics, or by no further run to tune on. */
  lemma {:induction false} ClockRelaxedOnceIff(t: Tune, metrics: map<string, real>, runs: seq<Answer>, gf180: bool,
                                               delay: real)
    requires runs != [] && TrueSlack(t, metrics, runs, gf180, delay) && SlackIsMet(metrics)
    requires delay >= 0.0 && !InGap(delay)
    ensures Relaxations(t, metrics, runs, gf180) <= 1 <==> MeasuredAgain(t, metrics, runs, gf180)
    decreases |runs|
  {
    hide Relaxations, Changes, InGap, Adjusted;
    var o := SeenAfter(metrics, runs[0]);
    RelaxationsStep(t, metrics, runs, gf180);
    if !Ends(t, o, gf180) && |runs| > 1 {
      var next, latest := Adjusted(t, o, gf180), Latest(metrics, runs[0]);
      if TimingFails(o) {
        RelaxedCloses(t, o, gf180, delay);
        if NotStale(runs[1]) {
          CoveredClockStays(next, latest, runs[1..], gf180, delay);
        } else {
          var stale := SeenAfter(latest, runs[1]);
          FailingGoesOn(next, stale, gf180);
          RelaxationsStep(next, latest, runs[1..], gf180);
        }
      } else {
        ClockRelaxedOnceIff(next, latest, runs[1..], gf180, delay);
      }
    }
  }

  /** A run that reports a slack of -1 ns at 10 ns, one that dies without metrics, and a timeout. */
  ghost const STALE := [SLEW.(metrics := map["timing__setup__ws" := -1.0])] + ThenTimeout(SLEW.(metrics := map[]))[..3]

  /** The delay is 11 ns throughout; the old slack is taken for the new one, and the clock relaxed twice. */
  lemma StaleSlackRelaxesTwice()
    ensures TrueSlack(Tune(10.0, 35, 0, map[]), map[], STALE, true, 11.0)
    ensures Relaxations(Tune(10.0, 35, 0, map[]), map[], STALE, true) == 2
  {
    hide Relaxations, Changes, Adjusted;
    var t := Tune(10.0, 35, 0, map[]);
    var o := SeenAfter(map[], STALE[0]);
    var next, stale := Adjusted(t, o, true), SeenAfter(o.metrics, STALE[1]);
    var last, rest := Adjusted(next, stale, true), STALE[1..][1..];
    assert STALE[1..][0] == STALE[1] && rest[0] == STALE[2];
    FailingGoesOn(t, o, true);
    FailingGoesOn(next, stale, true);
    RelaxationsStep(t, map[], STALE, true);
    RelaxationsStep(next, o.metrics, STALE[1..], true);
    RelaxationsStep(last, o.metrics, rest, true);
    assert TrueSlack(last, o.metrics, rest, true, 11.0);
    assert TrueSlack(next, o.metrics, STALE[1..], true, 11.0);
  }
}
