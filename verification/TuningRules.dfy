/** What the tuner does to the recipe, on the metrics by their full names. */
module TuningRules {
  import opened AutoTune

  // ----- Counts

  const SLEW := "design__max_slew_violation__count"
  const SLEW_33 := "design__max_slew_violation__count__corner:nom_tt_025C_3v30"
  const SLEW_50 := "design__max_slew_violation__count__corner:nom_tt_025C_5v00"
  const CAP := "design__max_cap_violation__count"
  const CAP_33 := "design__max_cap_violation__count__corner:nom_tt_025C_3v30"
  const CAP_50 := "design__max_cap_violation__count__corner:nom_tt_025C_5v00"
  const FANOUT := "design__max_fanout_violation__count"
  const FANOUT_33 := "design__max_fanout_violation__count__corner:nom_tt_025C_3v30"
  const FANOUT_50 := "design__max_fanout_violation__count__corner:nom_tt_025C_5v00"

  /** `n` is the whole part of a count. */
  ghost predicate WholePart(x: real, n: int) {
    if x >= 0.0 then n >= 0 && n as real <= x < n as real + 1.0 else n <= 0 && n as real - 1.0 < x <= n as real
  }

  lemma TruncateIs(x: real, n: int)
    ensures WholePart(x, n) <==> n == Truncate(x)
  {
  }

  /** The count a run reports under the first of three names, 0 when under none. */
  ghost predicate Counted(m: map<string, real>, all: string, low: string, high: string, n: int) {
    if all in m then WholePart(m[all], n)
    else if low in m then WholePart(m[low], n)
    else if high in m then WholePart(m[high], n)
    else n == 0
  }

  /** Slew, capacitance and fanout violations, added up. */
  ghost predicate Violations(m: map<string, real>, n: int) {
    exists slew, cap, fanout ::
      Counted(m, SLEW, SLEW_33, SLEW_50, slew) && Counted(m, CAP, CAP_33, CAP_50, cap) &&
      Counted(m, FANOUT, FANOUT_33, FANOUT_50, fanout) && n == slew + cap + fanout
  }

  lemma CountIs(m: map<string, real>, kind: string, all: string, low: string, high: string)
    requires all == "design__max_" + kind + "_violation__count"
    requires low == all + "__corner:nom_tt_025C_3v30" && high == all + "__corner:nom_tt_025C_5v00"
    ensures forall n :: Counted(m, all, low, high, n) <==> n == CountOf(m, kind)
  {
    hide Truncate, WholePart;
    forall n ensures Counted(m, all, low, high, n) <==> n == CountOf(m, kind) {
      if all in m {
        TruncateIs(m[all], n);
      } else if low in m {
        TruncateIs(m[low], n);
      } else if high in m {
        TruncateIs(m[high], n);
      }
    }
  }

  lemma SlewName()
    ensures SLEW == "design__max_" + "slew" + "_violation__count"
  {
  }

  lemma SlewLow()
    ensures SLEW_33 == SLEW + "__corner:nom_tt_025C_3v30"
  {
  }

  lemma SlewHigh()
    ensures SLEW_50 == SLEW + "__corner:nom_tt_025C_5v00"
  {
  }

  lemma CapName()
    ensures CAP == "design__max_" + "cap" + "_violation__count"
  {
  }

  lemma CapLow()
    ensures CAP_33 == CAP + "__corner:nom_tt_025C_3v30"
  {
  }

  lemma CapHigh()
    ensures CAP_50 == CAP + "__corner:nom_tt_025C_5v00"
  {
  }

  lemma FanoutName()
    ensures FANOUT == "design__max_" + "fanout" + "_violation__count"
  {
  }

  lemma FanoutLow()
    ensures FANOUT_33 == FANOUT + "__corner:nom_tt_025C_3v30"
  {
  }

  lemma FanoutHigh()
    ensures FANOUT_50 == FANOUT + "__corner:nom_tt_025C_5v00"
  {
  }

  lemma ViolationsAre(m: map<string, real>, n: int)
    ensures Violations(m, n) <==> n == Electrical(m)
  {
    hide Counted, CountOf, SLEW, SLEW_33, SLEW_50, CAP, CAP_33, CAP_50, FANOUT, FANOUT_33, FANOUT_50;
    SlewName();
    SlewLow();
    SlewHigh();
    CountIs(m, "slew", SLEW, SLEW_33, SLEW_50);
    CapName();
    CapLow();
    CapHigh();
    CountIs(m, "cap", CAP, CAP_33, CAP_50);
    FanoutName();
    FanoutLow();
    FanoutHigh();
    CountIs(m, "fanout", FANOUT, FANOUT_33, FANOUT_50);
    assert Counted(m, SLEW, SLEW_33, SLEW_50, CountOf(m, "slew"));
    assert Counted(m, CAP, CAP_33, CAP_50, CountOf(m, "cap"));
    assert Counted(m, FANOUT, FANOUT_33, FANOUT_50, CountOf(m, "fanout"));
  }

  // ----- Recipes

  /** What is entered in the recipe at each level of the electrical repair, all told. */
  function Recipe(level: nat): map<string, Setting> {
    if level == 0 then map[]
    else if level == 1 then
      map["MAX_FANOUT_CONSTRAINT" := Num(16.0), "DESIGN_REPAIR_MAX_SLEW_PCT" := Num(20.0),
          "DESIGN_REPAIR_MAX_CAP_PCT" := Num(20.0), "GRT_DESIGN_REPAIR_MAX_SLEW_PCT" := Num(20.0),
          "GRT_DESIGN_REPAIR_MAX_CAP_PCT" := Num(20.0)]
    else if level == 2 then
      map["MAX_FANOUT_CONSTRAINT" := Num(40.0), "MAX_TRANSITION_CONSTRAINT" := Num(4.0),
          "DESIGN_REPAIR_MAX_SLEW_PCT" := Num(30.0), "DESIGN_REPAIR_MAX_CAP_PCT" := Num(30.0),
          "GRT_DESIGN_REPAIR_MAX_SLEW_PCT" := Num(20.0), "GRT_DESIGN_REPAIR_MAX_CAP_PCT" := Num(20.0)]
    else if level == 3 then
      map["MAX_FANOUT_CONSTRAINT" := Num(40.0), "MAX_TRANSITION_CONSTRAINT" := Num(4.0),
          "DESIGN_REPAIR_MAX_SLEW_PCT" := Num(30.0), "DESIGN_REPAIR_MAX_CAP_PCT" := Num(40.0),
          "GRT_DESIGN_REPAIR_MAX_SLEW_PCT" := Num(20.0), "GRT_DESIGN_REPAIR_MAX_CAP_PCT" := Num(40.0),
          "CTS_ROOT_BUFFER" := Buffers([16]), "CTS_CLK_BUFFERS" := Buffers([4, 8, 16])]
    else
      map["MAX_FANOUT_CONSTRAINT" := Num(40.0), "MAX_TRANSITION_CONSTRAINT" := Num(5.0),
          "DESIGN_REPAIR_MAX_SLEW_PCT" := Num(50.0), "DESIGN_REPAIR_MAX_CAP_PCT" := Num(40.0),
          "GRT_DESIGN_REPAIR_MAX_SLEW_PCT" := Num(50.0), "GRT_DESIGN_REPAIR_MAX_CAP_PCT" := Num(40.0),
          "CTS_ROOT_BUFFER" := Buffers([16]), "CTS_CLK_BUFFERS" := Buffers([8, 16]),
          "MAX_CAPACITANCE_CONSTRAINT" := Num(0.5)]
  }

  function WithFix(cfg: map<string, Setting>, fixed: bool): map<string, Setting> {
    if fixed then cfg["DIODE_ON_PORTS" := Text("in")]["RUN_HEURISTIC_DIODE_INSERTION" := Flag(true)] else cfg
  }

  /** The recipe is the one of this level, with the antenna fix or without. */
  ghost predicate At(cfg: map<string, Setting>, level: nat, fixed: bool) {
    level <= 4 && cfg == WithFix(Recipe(level), fixed)
  }

  lemma DiodesAdded(cfg: map<string, Setting>, level: nat)
    requires At(cfg, level, false)
    ensures At(WithDiodes(cfg), level, true)
  {
  }

  lemma TierCommutes(cfg: map<string, Setting>, k: nat, fixed: bool)
    ensures WithTier(WithFix(cfg, fixed), k) == WithFix(WithTier(cfg, k), fixed)
  {
    if fixed {
      if k == 1 {
        FixCommutes1(cfg);
      } else if k == 2 {
        FixCommutes2(cfg);
      } else if k == 3 {
        FixCommutes3(cfg);
      } else if k == 4 {
        FixCommutes4(cfg);
      }
    }
  }

  lemma FixCommutes1(cfg: map<string, Setting>)
    ensures WithTier(WithFix(cfg, true), 1) == WithFix(WithTier(cfg, 1), true)
  {
  }

  lemma FixCommutes2(cfg: map<string, Setting>)
    ensures WithTier(WithFix(cfg, true), 2) == WithFix(WithTier(cfg, 2), true)
  {
  }

  lemma FixCommutes3(cfg: map<string, Setting>)
    ensures WithTier(WithFix(cfg, true), 3) == WithFix(WithTier(cfg, 3), true)
  {
  }

  lemma FixCommutes4(cfg: map<string, Setting>)
    ensures WithTier(WithFix(cfg, true), 4) == WithFix(WithTier(cfg, 4), true)
  {
  }

  lemma FirstTier()
    ensures WithTier(Recipe(0), 1) == Recipe(1)
  {
  }

  lemma SecondTier()
    ensures WithTier(Recipe(1), 2) == Recipe(2)
  {
  }

  lemma ThirdTier()
    ensures WithTier(Recipe(2), 3) == Recipe(3)
  {
  }

  lemma FourthTier()
    ensures WithTier(Recipe(3), 4) == Recipe(4)
  {
  }

  lemma TierAdded(cfg: map<string, Setting>, level: nat, fixed: bool)
    requires At(cfg, level, fixed) && level < 4
    ensures At(WithTier(cfg, level + 1), level + 1, fixed)
  {
    hide WithTier, Recipe, WithFix;
    TierCommutes(Recipe(level), level + 1, fixed);
    FirstTier();
    SecondTier();
    ThirdTier();
    FourthTier();
  }

  lemma RecipeKeys(level: nat)
    requires level <= 4
    ensures var cfg := Recipe(level);
            && "DIODE_ON_PORTS" !in cfg
            && ("MAX_FANOUT_CONSTRAINT" in cfg <==> level >= 1) && ("MAX_TRANSITION_CONSTRAINT" in cfg <==> level >= 2)
            && ("CTS_ROOT_BUFFER" in cfg <==> level >= 3) && (HasSmallBuffers(cfg) <==> level == 3)
  {
  }

  lemma AtKeys(cfg: map<string, Setting>, level: nat, fixed: bool)
    requires At(cfg, level, fixed)
    ensures "DIODE_ON_PORTS" in cfg <==> fixed
    ensures "MAX_FANOUT_CONSTRAINT" in cfg <==> level >= 1
    ensures "MAX_TRANSITION_CONSTRAINT" in cfg <==> level >= 2
    ensures "CTS_ROOT_BUFFER" in cfg <==> level >= 3
    ensures HasSmallBuffers(cfg) <==> level == 3
  {
    hide Recipe;
    RecipeKeys(level);
  }

  /** The last level the recipe can be taken to. */
  function LastLevel(gf180: bool): nat {
    if gf180 then 4 else 2
  }

  lemma TierIs(cfg: map<string, Setting>, level: nat, fixed: bool, violations: int, gf180: bool)
    requires At(cfg, level, fixed)
    ensures DueTier(cfg, violations, gf180) == if violations > 0 && level < LastLevel(gf180) then level + 1 else 0
  {
    hide At, HasSmallBuffers;
    AtKeys(cfg, level, fixed);
    AtIsLow(cfg, level, fixed);
  }

  lemma AtIsLow(cfg: map<string, Setting>, level: nat, fixed: bool)
    requires At(cfg, level, fixed)
    ensures level <= 4
  {
  }

  // ----- One adjustment

  predicate Late(m: map<string, real>) {
    "timing__setup__ws" in m && m["timing__setup__ws"] < -0.001
  }

  predicate Reports(m: map<string, real>, key: string) {
    key in m && m[key] > 0.0
  }

  /** The electrical repair: one level up exactly when there are violations and the level is not the last. */
  lemma TierFollows(t: Tune, o: Observation, gf180: bool, level: nat, fixed: bool, n: int)
    requires At(t.cfg, level, fixed) && Violations(o.metrics, n)
    ensures var antenna := Reports(o.metrics, "route__antenna_violation__count") && !fixed;
            var electrical := n > 0 && level < LastLevel(gf180);
            && AntennaFixDue(t, o) == antenna
            && TierFor(t, o, gf180) == (if electrical then level + 1 else 0)
            && At(Adjusted(t, o, gf180).cfg, if electrical then level + 1 else level, fixed || antenna)
  {
    hide WithTier, WithDiodes, Violations, At, DueTier, Electrical;
    ViolationsAre(o.metrics, n);
    AtKeys(t.cfg, level, fixed);
    AtIsLow(t.cfg, level, fixed);
    var cfg := if AntennaFixDue(t, o) then WithDiodes(t.cfg) else t.cfg;
    if AntennaFixDue(t, o) {
      DiodesAdded(t.cfg, level);
    }
    var now := fixed || AntennaFixDue(t, o);
    TierIs(cfg, level, now, n, gf180);
    if n > 0 && level < LastLevel(gf180) {
      TierAdded(cfg, level, now);
    } else {
      NoTier(cfg);
    }
  }

  lemma NoTier(cfg: map<string, Setting>)
    ensures WithTier(cfg, 0) == cfg
  {
  }

  /** What a run reports, and the recipe the tuner makes of it. */
  lemma AdjustedIs(t: Tune, o: Observation, gf180: bool, level: nat, fixed: bool, n: int)
    requires At(t.cfg, level, fixed) && Violations(o.metrics, n)
    ensures var next, m := Adjusted(t, o, gf180), o.metrics;
            && (if Late(m) then -0.005 <= next.clock - 1.1 * (t.clock - m["timing__setup__ws"]) <= 0.005
                else next.clock == t.clock)
            && next.util == (if !Reports(m, "route__drc_errors") || t.util <= 20 then t.util
                             else if t.util < 28 then 20 else t.util - 8)
            && next.bump == (if o.tooSparse && t.bump < 20 then t.bump + 10 else t.bump)
            && At(next.cfg, if n > 0 && level < LastLevel(gf180) then level + 1 else level,
                  fixed || Reports(m, "route__antenna_violation__count"))
  {
    hide WithTier, WithDiodes, Violations, At, TierFor;
    TierFollows(t, o, gf180, level, fixed, n);
    if TimingFails(o) {
      Round2IsClose((t.clock - o.metrics["timing__setup__ws"]) * 1.1);
    }
  }

  lemma InWhen(due: bool, c: Change, x: Change)
    ensures x in When(due, c) <==> due && x == c
  {
  }

  lemma InChanges(t: Tune, o: Observation, gf180: bool, x: Change)
    ensures x in Changes(t, o, gf180) <==>
              ((x == ClockRelaxed && TimingFails(o)) || (x == AntennaFixed && AntennaFixDue(t, o))
               || (x == UtilLowered && UtilDue(t, o)) || (x == DensityRaised && DensityDue(t, o))
               || (TierFor(t, o, gf180) > 0 && x == Tier(TierFor(t, o, gf180))))
  {
    hide When, TimingFails, AntennaFixDue, UtilDue, DensityDue, TierFor;
    InWhen(TimingFails(o), ClockRelaxed, x);
    InWhen(AntennaFixDue(t, o), AntennaFixed, x);
    InWhen(UtilDue(t, o), UtilLowered, x);
    InWhen(TierFor(t, o, gf180) > 0, Tier(TierFor(t, o, gf180)), x);
    InWhen(DensityDue(t, o), DensityRaised, x);
  }

  /** The changes it reports are just these, and it stops exactly when there is none. */
  lemma ChangesAre(t: Tune, o: Observation, gf180: bool, level: nat, fixed: bool, n: int)
    requires At(t.cfg, level, fixed) && Violations(o.metrics, n)
    ensures var changes, m := Changes(t, o, gf180), o.metrics;
            && (ClockRelaxed in changes <==> Late(m))
            && (AntennaFixed in changes <==> Reports(m, "route__antenna_violation__count") && !fixed)
            && (UtilLowered in changes <==> Reports(m, "route__drc_errors") && t.util > 20)
            && (DensityRaised in changes <==> o.tooSparse && t.bump < 20)
            && (forall k :: Tier(k) in changes <==> n > 0 && level < LastLevel(gf180) && k == level + 1)
  {
    hide At, Violations, TierFor, Adjusted, AntennaFixDue, Changes, LastLevel;
    TierFollows(t, o, gf180, level, fixed, n);
    forall k ensures (Tier(k) in Changes(t, o, gf180) <==> n > 0 && level < LastLevel(gf180) && k == level + 1) {
      InChanges(t, o, gf180, Tier(k));
    }
    InChanges(t, o, gf180, ClockRelaxed);
    InChanges(t, o, gf180, AntennaFixed);
    InChanges(t, o, gf180, UtilLowered);
    InChanges(t, o, gf180, DensityRaised);
  }

  /** From a fresh recipe on, the tuner only ever sets one of ten. */
  lemma {:induction false} TenRecipes(t: Tune, runs: seq<Observation>, gf180: bool, level: nat, fixed: bool)
    returns (k: nat, f: bool)
    requires runs != [] && At(t.cfg, level, fixed)
    ensures level <= k <= 4 && (fixed ==> f) && At(TuneLoop(t, runs, gf180).tune.cfg, k, f)
    decreases |runs|
  {
    hide At, Adjusted, Changes, Violations, LastLevel;
    var o := runs[0];
    k, f := level, fixed;
    AtIsLow(t.cfg, level, fixed);
    if !(o.notFound || o.timedOut || Changes(t, o, gf180) == []) {
      var n := Electrical(o.metrics);
      ViolationsAre(o.metrics, n);
      TierFollows(t, o, gf180, level, fixed, n);
      var next := Adjusted(t, o, gf180);
      k := if n > 0 && level < LastLevel(gf180) then level + 1 else level;
      f := fixed || Reports(o.metrics, "route__antenna_violation__count");
      AtIsLow(next.cfg, k, f);
      if |runs| > 1 {
        k, f := TenRecipes(next, runs[1..], gf180, k, f);
      }
    }
  }
}
