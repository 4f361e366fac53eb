/** `run_harden`: resuming the persisted tuning, reusing a completed run, and running LibreLane. */
module HardenRun {
  import opened Basics
  import opened AutoTune
  import opened Signoff

  /** The chip directory: the GDS files in it, each known by the RTL it was made from, the latest
      metrics, and the fingerprint file. */
  datatype Chip = Chip(gds: seq<string>, metrics: map<string, real>, fingerprint: Option<string>)

  const EMPTY := Chip([], map[], None)

  /** The persisted tuning state. */
  datatype Saved = Saved(fingerprint: string, tune: Tune)

  datatype Workspace = Workspace(rtl: string, chip: Chip, saved: Option<Saved>)

  /** One LibreLane run: how it ended, whether it made a GDS, the numeric entries of the metrics it
      wrote (none when empty), and whether its output holds GPL-0302. */
  datatype Answer = Answer(notFound: bool, timedOut: bool, made: bool, metrics: map<string, real>, tooSparse: bool)

  /** What a call is given and what it finds: whether there is a top module, the requested clock and
      utilization, the clock the design declares (0.0 when unknown), whether there are sources to
      synthesize and a PDK, the kind of PDK, and LibreLane's answers, one per attempt. */
  datatype Call = Call(hasTop: bool, clock: real, util: int, declared: real, hasSources: bool, hasPdk: bool,
                       gf180: bool, runs: seq<Answer>)

  datatype Outcome =
    | NoTop
    | Crashed
    | NoSources
    | NoPdk
    | NoTool(log: seq<seq<Change>>)
    | Hardened(reused: bool, gds: seq<string>, tune: Tune, log: seq<seq<Change>>)

  // ----- One call

  /** Tuning that was persisted for other RTL is dropped. */
  function Current(saved: Option<Saved>, fp: string): Option<Saved> {
    if saved.Some? && saved.value.fingerprint != fp then None else saved
  }

  function Fresh(call: Call): Tune {
    Tune(call.clock, call.util, 0, map[])
  }

  /** The saved clock is slower than the one the design declares. The branch writes to the log,
      which is not bound yet at that point; the exception is swallowed and nothing is loaded. */
  predicate ResumeFails(call: Call, saved: Saved) {
    call.declared > 0.0 && saved.tune.clock > call.declared
  }

  function Load(call: Call, saved: Option<Saved>): Tune {
    if saved.None? || ResumeFails(call, saved.value) then Fresh(call)
    else saved.value.tune.(clock := if saved.value.tune.clock > call.clock then saved.value.tune.clock else call.clock)
  }

  /** The declared clock differs from the requested one: the first use of the unbound log ends the call. */
  predicate CrashesOnClock(call: Call) {
    call.declared > 0.0 && (call.declared - call.clock > 0.000001 || call.clock - call.declared > 0.000001)
  }

  predicate Reusable(chip: Chip, fp: string) {
    chip.fingerprint == Some(fp) && chip.gds != [] && Clean(chip.metrics) && AllCorners(chip.metrics) == 0
  }

  /** A run adds to the directory: what earlier runs left stays, and the latest metrics count. */
  function AfterRun(chip: Chip, rtl: string, a: Answer): Chip {
    chip.(gds := if a.made then chip.gds + [rtl] else chip.gds,
          metrics := Latest(chip.metrics, a))
  }

  function Latest(metrics: map<string, real>, a: Answer): map<string, real> {
    if a.metrics != map[] then a.metrics else metrics
  }

  function Observed(chip: Chip, a: Answer): Observation {
    Observation(a.notFound, a.timedOut, chip.metrics, a.tooSparse)
  }

  /** The same, from the metrics that were there before the run. */
  function SeenAfter(metrics: map<string, real>, a: Answer): Observation {
    Observation(a.notFound, a.timedOut, Latest(metrics, a), a.tooSparse)
  }

  /** The attempts, and what they leave in the workspace: every adjustment is persisted at once. */
  function Attempted(w: Workspace, fp: string, t: Tune, runs: seq<Answer>, gf180: bool): (Workspace, LoopEnd)
    requires runs != []
    decreases |runs|
  {
    var v := w.(chip := AfterRun(w.chip, w.rtl, runs[0]));
    var o := Observed(v.chip, runs[0]);
    if o.notFound || o.timedOut || Changes(t, o, gf180) == [] then (v, LoopEnd(t, [], o))
    else
      var next := Adjusted(t, o, gf180);
      var u := v.(saved := Some(Saved(fp, next)));
      if |runs| == 1 then (u, LoopEnd(next, [Changes(t, o, gf180)], o))
      else Joined([Changes(t, o, gf180)], Attempted(u, fp, next, runs[1..], gf180))
  }

  function Joined(log: seq<seq<Change>>, r: (Workspace, LoopEnd)): (Workspace, LoopEnd) {
    (r.0, r.1.(log := log + r.1.log))
  }

  /** The call comes to run LibreLane. */
  predicate Reaches(w: Workspace, call: Call, fp: string) {
    call.hasTop && !CrashesOnClock(call) && !Reusable(w.chip, fp) && call.hasSources && call.hasPdk
  }

  /** The chip directory is removed with all that is in it. */
  function Wiped(w: Workspace, fp: string): Workspace {
    Workspace(w.rtl, EMPTY, Current(w.saved, fp))
  }

  /** A directory with a GDS gets the fingerprint. */
  function Stamped(w: Workspace, fp: string): Workspace {
    if w.chip.gds != [] then w.(chip := w.chip.(fingerprint := Some(fp))) else w
  }

  function Harden(w: Workspace, call: Call, fingerprint: string -> string): (Workspace, Outcome)
    requires call.runs != []
  {
    var fp := fingerprint(w.rtl);
    if !call.hasTop then (w, NoTop)
    else if CrashesOnClock(call) then (w, Crashed)
    else
      var saved := Current(w.saved, fp);
      var t := Load(call, saved);
      if Reusable(w.chip, fp) then
        (w.(saved := saved), if call.hasPdk then Hardened(true, w.chip.gds, t, []) else NoPdk)
      else if !call.hasSources then (Wiped(w, fp), NoSources)
      else if !call.hasPdk then (Wiped(w, fp), NoPdk)
      else
        var (v, end) := Attempted(Wiped(w, fp), fp, t, call.runs, call.gf180);
        (Stamped(v, fp), if end.last.notFound then NoTool(end.log) else Hardened(false, v.chip.gds, end.tune, end.log))
  }

  // ----- The same, step by step

  class HardenRunner {
    var rtl: string
    var chip: Chip
    var saved: Option<Saved>
    const fingerprint: string -> string

    ghost function View(): Workspace
      reads this
    {
      Workspace(rtl, chip, saved)
    }

    constructor (rtl: string, fingerprint: string -> string)
      ensures View() == Workspace(rtl, EMPTY, None) && this.fingerprint == fingerprint
    {
      this.rtl, chip, saved := rtl, EMPTY, None;
      this.fingerprint := fingerprint;
    }

    method EditRtl(rtl: string)
      modifies this
      ensures View() == old(View()).(rtl := rtl)
    {
      this.rtl := rtl;
    }

    method RunHarden(call: Call) returns (outcome: Outcome)
      requires |call.runs| == 4
      modifies this
      ensures (View(), outcome) == Harden(old(View()), call, fingerprint)
    {
      hide Clean, Attempted, CrashesOnClock, ResumeFails;
      if !call.hasTop {
        return NoTop;
      }
      var fp := fingerprint(rtl);
      if CrashesOnClock(call) {
        return Crashed;
      }
      var clock, util, bump, cfg := call.clock, call.util, 0, map[];
      if saved.Some? && saved.value.fingerprint != fp {
        saved := None;
      }
      if saved.Some? && !ResumeFails(call, saved.value) {
        clock := if saved.value.tune.clock > clock then saved.value.tune.clock else clock;
        util, bump, cfg := saved.value.tune.util, saved.value.tune.bump, saved.value.tune.cfg;
      }
      var reuse := Reusable(chip, fp);
      if !reuse {
        chip := EMPTY;
        if !call.hasSources {
          return NoSources;
        }
      }
      if !call.hasPdk {
        return NoPdk;
      }
      if reuse {
        return Hardened(true, chip.gds, Tune(clock, util, bump, cfg), []);
      }
      var end := Attempts(Tune(clock, util, bump, cfg), call, fp);
      if chip.gds != [] {
        chip := chip.(fingerprint := Some(fp));
      }
      if end.last.notFound {
        return NoTool(end.log);
      }
      return Hardened(false, chip.gds, end.tune, end.log);
    }

    /** The loop of at most four attempts. */
    method Attempts(start: Tune, call: Call, fp: string) returns (end: LoopEnd)
      requires |call.runs| == 4
      modifies this`saved, this`chip
      ensures (View(), end) == Attempted(old(View()), fp, start, call.runs, call.gf180)
    {
      hide Attempted, AfterRun, Adjusted, Changes;
      var tune, log := start, [];
      var last := Observed(chip, call.runs[0]);
      ghost var goal := Attempted(View(), fp, start, call.runs, call.gf180);
      assert call.runs[0..] == call.runs && goal.1.log == [] + goal.1.log;
      var attempt := 0;
      while attempt < 4
        invariant attempt <= 4
        invariant attempt < 4 ==> goal == Joined(log, Attempted(View(), fp, tune, call.runs[attempt..], call.gf180))
        invariant attempt == 4 ==> goal == (View(), LoopEnd(tune, log, last))
      {
        AttemptedStep(View(), fp, tune, call.runs, attempt, call.gf180);
        chip := AfterRun(chip, rtl, call.runs[attempt]);
        last := Observed(chip, call.runs[attempt]);
        if last.notFound || last.timedOut {
          assert log + [] == log;
          break;
        }
        var next, changes := Adjust(tune, last, call.gf180);
        if changes == [] {
          assert log + [] == log;
          break;
        }
        saved := Some(Saved(fp, next));
        if attempt < 3 {
          JoinedTwice(log, [changes], Attempted(View(), fp, next, call.runs[attempt + 1..], call.gf180));
        }
        tune, log := next, log + [changes];
        attempt := attempt + 1;
      }
      end := LoopEnd(tune, log, last);
    }
  }

  /** The chain of adjustments after one run. */
  method Adjust(t: Tune, o: Observation, gf180: bool) returns (next: Tune, changes: seq<Change>)
    ensures next == Adjusted(t, o, gf180) && changes == Changes(t, o, gf180)
  {
    hide Electrical, WithTier, WithDiodes, RelaxedClock, DueTier;
    var clock, util, bump, cfg := t.clock, t.util, t.bump, t.cfg;
    changes := [];
    if TimingFails(o) {
      clock := RelaxedClock(clock, o.metrics["timing__setup__ws"]);
      changes := changes + [ClockRelaxed];
    }
    ghost var soFar := When(TimingFails(o), ClockRelaxed);
    assert changes == soFar;
    if Positive(o.metrics, "route__antenna_violation__count") && "DIODE_ON_PORTS" !in cfg {
      cfg := WithDiodes(cfg);
      changes := changes + [AntennaFixed];
    }
    soFar := soFar + When(AntennaFixDue(t, o), AntennaFixed);
    assert changes == soFar;
    if Positive(o.metrics, "route__drc_errors") && util > 20 {
      util := if util - 8 > 20 then util - 8 else 20;
      changes := changes + [UtilLowered];
    }
    soFar := soFar + When(UtilDue(t, o), UtilLowered);
    assert changes == soFar;
    var tier := DueTier(cfg, Electrical(o.metrics), gf180);
    assert tier == TierFor(t, o, gf180);
    if tier > 0 {
      changes := changes + [Tier(tier)];
    }
    soFar := soFar + When(tier > 0, Tier(tier));
    assert changes == soFar;
    cfg := WithTier(cfg, tier);
    if o.tooSparse && bump < 20 {
      bump := bump + 10;
      changes := changes + [DensityRaised];
    }
    assert changes == soFar + When(DensityDue(t, o), DensityRaised);
    next := Tune(clock, util, bump, cfg);
  }

  lemma JoinedTwice(a: seq<seq<Change>>, b: seq<seq<Change>>, r: (Workspace, LoopEnd))
    ensures Joined(a, Joined(b, r)) == Joined(a + b, r)
  {
    assert a + (b + r.1.log) == (a + b) + r.1.log;
  }

  lemma AttemptedStep(w: Workspace, fp: string, t: Tune, runs: seq<Answer>, k: nat, gf180: bool)
    requires k < |runs|
    ensures var v := w.(chip := AfterRun(w.chip, w.rtl, runs[k]));
            var o := Observed(v.chip, runs[k]);
            var changes, next := Changes(t, o, gf180), Adjusted(t, o, gf180);
            var u := v.(saved := Some(Saved(fp, next)));
            Attempted(w, fp, t, runs[k..], gf180) ==
              if o.notFound || o.timedOut || changes == [] then (v, LoopEnd(t, [], o))
              else if k + 1 == |runs| then (u, LoopEnd(next, [changes], o))
              else Joined([changes], Attempted(u, fp, next, runs[k + 1..], gf180))
  {
    assert runs[k..][1..] == runs[k + 1..];
  }

  /** What the tuner sees of LibreLane's answers, from a directory with these metrics on. */
  function Seen(metrics: map<string, real>, runs: seq<Answer>): (os: seq<Observation>)
    ensures |os| == |runs|
    decreases |runs|
  {
    if runs == [] then [] else [SeenAfter(metrics, runs[0])] + Seen(Latest(metrics, runs[0]), runs[1..])
  }

  /** The attempts tune as the loop over what is seen does, and persist where it ends. */
  lemma {:induction false} AttemptedTunes(w: Workspace, fp: string, t: Tune, runs: seq<Answer>, gf180: bool)
    requires runs != []
    ensures var (v, end) := Attempted(w, fp, t, runs, gf180);
            && end == TuneLoop(t, Seen(w.chip.metrics, runs), gf180)
            && v.rtl == w.rtl && v.saved == if end.log == [] then w.saved else Some(Saved(fp, end.tune))
    decreases |runs|
  {
    hide Adjusted, Changes;
    var v := w.(chip := AfterRun(w.chip, w.rtl, runs[0]));
    var o := Observed(v.chip, runs[0]);
    var seen := Seen(w.chip.metrics, runs);
    assert seen[0] == o && seen[1..] == Seen(v.chip.metrics, runs[1..]);
    if !(o.notFound || o.timedOut || Changes(t, o, gf180) == []) && |runs| > 1 {
      var next := Adjusted(t, o, gf180);
      AttemptedTunes(v.(saved := Some(Saved(fp, next))), fp, next, runs[1..], gf180);
    }
  }

  // ----- Reuse, over any interleaving of calls and edits

  /** A call can be killed: before the directory is removed, or in the LibreLane run that follows
      `done` completed attempts and got as far as `left`. */
  datatype Point = BeforeWipe | DuringRun(done: nat, left: Answer)

  datatype Event = Edit(rtl: string) | Invoke(call: Call) | Killed(call: Call, point: Point)

  function KilledAt(w: Workspace, call: Call, point: Point, fingerprint: string -> string): Workspace
    requires call.runs != []
  {
    var fp := fingerprint(w.rtl);
    if !call.hasTop || CrashesOnClock(call) then w
    else if point.BeforeWipe? then w.(saved := Current(w.saved, fp))
    else if !Reaches(w, call, fp) then Harden(w, call, fingerprint).0
    else
      var done := if point.done < |call.runs| then point.done else |call.runs|;
      var v := if done == 0 then Wiped(w, fp)
               else Attempted(Wiped(w, fp), fp, Load(call, Current(w.saved, fp)), call.runs[..done], call.gf180).0;
      v.(chip := AfterRun(v.chip, v.rtl, point.left))
  }

  function CallOf(e: Event): Option<Call> {
    match e
    case Edit(_) => None
    case Invoke(call) => Some(call)
    case Killed(call, _) => Some(call)
  }

  function After(w: Workspace, events: seq<Event>, fingerprint: string -> string): Workspace
    requires forall e :: e in events && CallOf(e).Some? ==> CallOf(e).value.runs != []
  {
    if events == [] then w
    else
      var before := After(w, events[..|events| - 1], fingerprint);
      var last := events[|events| - 1];
      assert last in events;
      match last
      case Edit(rtl) => before.(rtl := rtl)
      case Invoke(call) => assert CallOf(last) == Some(call); Harden(before, call, fingerprint).0
      case Killed(call, point) => assert CallOf(last) == Some(call); KilledAt(before, call, point, fingerprint)
  }

  /** A fingerprint in the chip directory is that of the RTL every GDS beside it was made from. */
  ghost predicate ChipIsMarked(w: Workspace, fingerprint: string -> string) {
    w.chip.fingerprint.Some? ==> forall g :: g in w.chip.gds ==> fingerprint(g) == w.chip.fingerprint.value
  }

  /** Attempts add GDS files of the current RTL; what was in the directory stays there, and is
      reported with them. */
  lemma {:induction false} AttemptsAdd(w: Workspace, fp: string, t: Tune, runs: seq<Answer>, gf180: bool)
    requires runs != []
    ensures var v := Attempted(w, fp, t, runs, gf180).0;
            && v.rtl == w.rtl && v.chip.fingerprint == w.chip.fingerprint && w.chip.gds <= v.chip.gds
            && forall g :: g in v.chip.gds ==> g in w.chip.gds || g == w.rtl
    decreases |runs|
  {
    hide Adjusted, Changes;
    var v := w.(chip := AfterRun(w.chip, w.rtl, runs[0]));
    var o := Observed(v.chip, runs[0]);
    if !(o.notFound || o.timedOut || Changes(t, o, gf180) == []) && |runs| > 1 {
      var next := Adjusted(t, o, gf180);
      AttemptsAdd(v.(saved := Some(Saved(fp, next))), fp, next, runs[1..], gf180);
    }
  }

  lemma CallKeepsMark(w: Workspace, call: Call, fingerprint: string -> string)
    requires ChipIsMarked(w, fingerprint) && call.runs != []
    ensures ChipIsMarked(Harden(w, call, fingerprint).0, fingerprint)
  {
    hide Clean, Attempted;
    var fp := fingerprint(w.rtl);
    AttemptsAdd(Wiped(w, fp), fp, Load(call, Current(w.saved, fp)), call.runs, call.gf180);
  }

  lemma KilledKeepsMark(w: Workspace, call: Call, point: Point, fingerprint: string -> string)
    requires ChipIsMarked(w, fingerprint) && call.runs != []
    ensures ChipIsMarked(KilledAt(w, call, point, fingerprint), fingerprint)
  {
    hide Clean, Attempted;
    var fp := fingerprint(w.rtl);
    CallKeepsMark(w, call, fingerprint);
    if point.DuringRun? && point.done > 0 {
      var done := if point.done < |call.runs| then point.done else |call.runs|;
      AttemptsAdd(Wiped(w, fp), fp, Load(call, Current(w.saved, fp)), call.runs[..done], call.gf180);
    }
  }

  lemma {:induction false} ChipStaysMarked(w: Workspace, events: seq<Event>, fingerprint: string -> string)
    requires ChipIsMarked(w, fingerprint)
    requires forall e :: e in events && CallOf(e).Some? ==> CallOf(e).value.runs != []
    ensures ChipIsMarked(After(w, events, fingerprint), fingerprint)
  {
    hide Harden, KilledAt;
    if events != [] {
      var front, last := events[..|events| - 1], events[|events| - 1];
      assert last in events;
      ChipStaysMarked(w, front, fingerprint);
      match last
      case Edit(_) =>
      case Invoke(call) =>
        assert CallOf(last) == Some(call);
        CallKeepsMark(After(w, front, fingerprint), call, fingerprint);
      case Killed(call, point) =>
        assert CallOf(last) == Some(call);
        KilledKeepsMark(After(w, front, fingerprint), call, point, fingerprint);
    }
  }

  /** On a directory as it stands: a call reuses exactly a completed run of the current RTL that is signed off. */
  lemma ReuseIff(w: Workspace, call: Call, fingerprint: string -> string)
    requires CanRun(call) && call.runs != []
    ensures var (after, outcome) := Harden(w, call, fingerprint);
            && (outcome.Hardened? && outcome.reused <==>
                  w.chip.gds != [] && w.chip.fingerprint == Some(fingerprint(w.rtl)) && SignedOff(w.chip.metrics))
            && (outcome.Hardened? && outcome.reused ==>
                  outcome.gds == w.chip.gds && outcome.log == [] && after.chip == w.chip)
  {
    hide Clean, AllCorners, SignedOff, Attempted;
    SignedOffIff(w.chip.metrics);
  }

  /** The call has all it needs to run LibreLane when there is no run to reuse. */
  predicate CanRun(call: Call) {
    call.hasTop && !CrashesOnClock(call) && call.hasSources && call.hasPdk
  }

  /** A run that made a GDS and is signed off is reused by the next call on the same RTL. */
  lemma NextCallReuses(w: Workspace, call: Call, next: Call, fingerprint: string -> string)
    requires CanRun(call) && CanRun(next) && call.runs != [] && next.runs != []
    requires var (after, outcome) := Harden(w, call, fingerprint);
             outcome.Hardened? && outcome.gds != [] && SignedOff(after.chip.metrics)
    ensures var (after, first) := Harden(w, call, fingerprint); var second := Harden(after, next, fingerprint).1;
            second.Hardened? && second.reused && second.gds == first.gds
  {
    hide Clean, AllCorners, SignedOff, Attempted;
    var (after, first) := Harden(w, call, fingerprint);
    var fp := fingerprint(w.rtl);
    AttemptsAdd(Wiped(w, fp), fp, Load(call, Current(w.saved, fp)), call.runs, call.gf180);
    ReuseIff(w, call, fingerprint);
    ReuseIff(after, next, fingerprint);
  }

  /** What a call starts from: tuning saved for this RTL unless it is slower than a declared clock,
      at the slower of its clock and the requested one. */
  lemma LoadIs(call: Call, saved: Option<Saved>, fp: string)
    ensures var t := Load(call, Current(saved, fp));
            if saved.None? || saved.value.fingerprint != fp
               || (call.declared > 0.0 && saved.value.tune.clock > call.declared)
            then t == Tune(call.clock, call.util, 0, map[])
            else
              && t.util == saved.value.tune.util && t.bump == saved.value.tune.bump && t.cfg == saved.value.tune.cfg
              && t.clock >= call.clock && t.clock >= saved.value.tune.clock
              && (t.clock == call.clock || t.clock == saved.value.tune.clock)
  {
  }

  /** How a call comes out short of running LibreLane, in this order. */
  lemma OutcomeIs(w: Workspace, call: Call, fingerprint: string -> string)
    requires call.runs != []
    ensures var outcome := Harden(w, call, fingerprint).1;
            var apart := call.declared - call.clock;
            var completed := w.chip.gds != [] && w.chip.fingerprint == Some(fingerprint(w.rtl))
                             && SignedOff(w.chip.metrics);
            && (outcome.NoTop? <==> !call.hasTop)
            && (outcome.Crashed? <==>
                  call.hasTop && call.declared > 0.0 && (apart > 0.000001 || apart < -0.000001))
            && (outcome.NoSources? ==> !call.hasSources && !completed)
            && (outcome.NoPdk? ==> !call.hasPdk)
            && (outcome.Hardened? && !outcome.reused ==> call.hasSources && call.hasPdk && !completed)
  {
    hide Clean, AllCorners, SignedOff, Attempted;
    SignedOffIff(w.chip.metrics);
  }

  /** After any history of calls, killed calls and edits that starts without a fingerprint,
      whatever GDS files lie about: LibreLane is skipped only for GDS files made from RTL with the
      current fingerprint, by a run that is signed off, and a call that does run it reports files
      made from exactly the current RTL, although it reports all that it finds in the directory. */
  lemma ReuseIsSound(w: Workspace, events: seq<Event>, call: Call, fingerprint: string -> string)
    requires w.chip.fingerprint.None? && call.runs != []
    requires forall e :: e in events && CallOf(e).Some? ==> CallOf(e).value.runs != []
    ensures var now := After(w, events, fingerprint); var outcome := Harden(now, call, fingerprint).1;
            outcome.Hardened? ==>
              && (outcome.reused ==> outcome.gds != [] && SignedOff(now.chip.metrics))
              && (forall g :: g in outcome.gds ==> fingerprint(g) == fingerprint(now.rtl))
              && (!outcome.reused ==> forall g :: g in outcome.gds ==> g == now.rtl)
  {
    hide Clean, Attempted;
    ChipStaysMarked(w, events, fingerprint);
    SignedOffIff(After(w, events, fingerprint).chip.metrics);
    var now := After(w, events, fingerprint);
    var fp := fingerprint(now.rtl);
    AttemptsAdd(Wiped(now, fp), fp, Load(call, Current(now.saved, fp)), call.runs, call.gf180);
  }
}
