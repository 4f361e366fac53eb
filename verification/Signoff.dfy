/** `_signoff`, and when a run is worth reusing. */
module Signoff {
  import opened Basics
  import opened AutoTune
  import opened TuningRules

  // ----- Sign-off

  function Get(m: map<string, real>, key: string): real {
    if key in m then m[key] else 0.0
  }

  function Nominal(m: map<string, real>, kind: string): real {
    var all := "design__" + kind + "__count";
    if all + "__corner:nom_tt_025C_3v30" in m then m[all + "__corner:nom_tt_025C_3v30"]
    else if all + "__corner:nom_tt_025C_5v00" in m then m[all + "__corner:nom_tt_025C_5v00"]
    else Get(m, all)
  }

  const HARD_CHECKS: seq<string> := [
    "magic__drc_error__count", "magic__illegal_overlap__count", "route__drc_errors",
    "route__antenna_violation__count", "lvs__total__errors", "design__violations",
    "synthesis__check_error__count", "flow__errors__count", "timing__hold_vio__count"]

  const CORNER := "timing__setup__ws__corner"

  /** Some setup slack counts as a violation: the overall one, or without it that of any corner. */
  predicate SetupFails(m: map<string, real>) {
    if "timing__setup__ws" in m then m["timing__setup__ws"] < -0.001
    else exists key :: key in m && |key| >= |CORNER| && key[..|CORNER|] == CORNER && m[key] < -0.001
  }

  /** `_signoff(m)["clean"]` */
  predicate Clean(m: map<string, real>) {
    && m != map[]
    && (forall k :: 0 <= k < |HARD_CHECKS| ==> Get(m, HARD_CHECKS[k]) <= 0.0)
    && Nominal(m, "max_slew_violation") <= 0.0 && Nominal(m, "max_cap_violation") <= 0.0
    && Nominal(m, "max_fanout_violation") <= 0.0
    && !SetupFails(m)
  }

  /** Slew, capacitance and fanout violations over all corners. */
  function AllCorners(m: map<string, real>): int {
    Truncate(Get(m, "design__max_slew_violation__count")) + Truncate(Get(m, "design__max_cap_violation__count"))
    + Truncate(Get(m, "design__max_fanout_violation__count"))
  }

  // ----- The same, by the full names of the metrics

  ghost predicate NoneOf(m: map<string, real>, key: string) {
    key in m ==> m[key] <= 0.0
  }

  /** No violations at the typical corner of either voltage, or overall when neither is reported. */
  ghost predicate NoneTypical(m: map<string, real>, all: string, low: string, high: string) {
    if low in m then m[low] <= 0.0 else if high in m then m[high] <= 0.0 else NoneOf(m, all)
  }

  ghost predicate Whole(m: map<string, real>, key: string, n: int) {
    if key in m then WholePart(m[key], n) else n == 0
  }

  /** The setup slack is met: the overall one, or without it that of every corner. */
  ghost predicate SetupMet(m: map<string, real>) {
    if "timing__setup__ws" in m then m["timing__setup__ws"] >= -0.001
    else forall key :: key in m && |key| >= 25 && key[..25] == "timing__setup__ws__corner" ==> m[key] >= -0.001
  }

  ghost predicate SignedOff(m: map<string, real>) {
    && m != map[]
    && NoneOf(m, "magic__drc_error__count") && NoneOf(m, "magic__illegal_overlap__count")
    && NoneOf(m, "route__drc_errors") && NoneOf(m, "route__antenna_violation__count")
    && NoneOf(m, "lvs__total__errors") && NoneOf(m, "design__violations")
    && NoneOf(m, "synthesis__check_error__count") && NoneOf(m, "flow__errors__count")
    && NoneOf(m, "timing__hold_vio__count")
    && NoneTypical(m, SLEW, SLEW_33, SLEW_50) && NoneTypical(m, CAP, CAP_33, CAP_50)
    && NoneTypical(m, FANOUT, FANOUT_33, FANOUT_50)
    && SetupMet(m)
    && (exists slew, cap, fanout ::
          Whole(m, SLEW, slew) && Whole(m, CAP, cap) && Whole(m, FANOUT, fanout) && slew + cap + fanout == 0)
  }

  lemma HardChecksAre(m: map<string, real>)
    ensures (forall k :: 0 <= k < |HARD_CHECKS| ==> Get(m, HARD_CHECKS[k]) <= 0.0) <==>
              (NoneOf(m, "magic__drc_error__count") && NoneOf(m, "magic__illegal_overlap__count")
               && NoneOf(m, "route__drc_errors") && NoneOf(m, "route__antenna_violation__count")
               && NoneOf(m, "lvs__total__errors") && NoneOf(m, "design__violations")
               && NoneOf(m, "synthesis__check_error__count") && NoneOf(m, "flow__errors__count")
               && NoneOf(m, "timing__hold_vio__count"))
  {
    assert |HARD_CHECKS| == 9;
    forall k | 0 <= k < 9 ensures Get(m, HARD_CHECKS[k]) <= 0.0 <==> NoneOf(m, HARD_CHECKS[k]) {
    }
    assert NoneOf(m, HARD_CHECKS[0]) && NoneOf(m, HARD_CHECKS[1]) && NoneOf(m, HARD_CHECKS[2])
        && NoneOf(m, HARD_CHECKS[3]) && NoneOf(m, HARD_CHECKS[4]) && NoneOf(m, HARD_CHECKS[5])
        && NoneOf(m, HARD_CHECKS[6]) && NoneOf(m, HARD_CHECKS[7]) && NoneOf(m, HARD_CHECKS[8])
        ==> forall k :: 0 <= k < 9 ==> NoneOf(m, HARD_CHECKS[k]);
  }

  lemma TypicalIs(m: map<string, real>, kind: string, all: string, low: string, high: string)
    requires all == "design__" + kind + "__count"
    requires low == all + "__corner:nom_tt_025C_3v30" && high == all + "__corner:nom_tt_025C_5v00"
    ensures Nominal(m, kind) <= 0.0 <==> NoneTypical(m, all, low, high)
  {
  }

  lemma SlewTypical(m: map<string, real>)
    ensures Nominal(m, "max_slew_violation") <= 0.0 <==> NoneTypical(m, SLEW, SLEW_33, SLEW_50)
  {
    hide Nominal, NoneTypical, SLEW_33, SLEW_50;
    SlewLow();
    SlewHigh();
    assert SLEW == "design__" + "max_slew_violation" + "__count";
    TypicalIs(m, "max_slew_violation", SLEW, SLEW_33, SLEW_50);
  }

  lemma CapTypical(m: map<string, real>)
    ensures Nominal(m, "max_cap_violation") <= 0.0 <==> NoneTypical(m, CAP, CAP_33, CAP_50)
  {
    hide Nominal, NoneTypical, CAP_33, CAP_50;
    CapLow();
    CapHigh();
    assert CAP == "design__" + "max_cap_violation" + "__count";
    TypicalIs(m, "max_cap_violation", CAP, CAP_33, CAP_50);
  }

  lemma FanoutTypical(m: map<string, real>)
    ensures Nominal(m, "max_fanout_violation") <= 0.0 <==> NoneTypical(m, FANOUT, FANOUT_33, FANOUT_50)
  {
    hide Nominal, NoneTypical, FANOUT_33, FANOUT_50;
    FanoutLow();
    FanoutHigh();
    assert FANOUT == "design__" + "max_fanout_violation" + "__count";
    TypicalIs(m, "max_fanout_violation", FANOUT, FANOUT_33, FANOUT_50);
  }

  lemma SetupIs(m: map<string, real>)
    ensures SetupMet(m) <==> !SetupFails(m)
  {
    assert |CORNER| == 25;
  }

  lemma NoneIsZero()
    ensures Truncate(0.0) == 0
  {
  }

  lemma AllCornersAre(m: map<string, real>)
    ensures AllCorners(m) == 0 <==>
              (exists slew, cap, fanout ::
                 Whole(m, SLEW, slew) && Whole(m, CAP, cap) && Whole(m, FANOUT, fanout) && slew + cap + fanout == 0)
  {
    hide Truncate, WholePart;
    forall key, n ensures Whole(m, key, n) <==> n == Truncate(Get(m, key)) {
      TruncateIs(Get(m, key), n);
      NoneIsZero();
    }
    hide Whole;
    assert Whole(m, SLEW, Truncate(Get(m, SLEW))) && Whole(m, CAP, Truncate(Get(m, CAP)));
    assert Whole(m, FANOUT, Truncate(Get(m, FANOUT)));
  }

  /** A run is worth reusing exactly when every one of these counts is absent or nought, and the
      setup slack is met. */
  lemma SignedOffIff(m: map<string, real>)
    ensures SignedOff(m) <==> Clean(m) && AllCorners(m) == 0
  {
    hide Nominal, NoneTypical, SetupMet, SetupFails, AllCorners, Whole, NoneOf, Get;
    HardChecksAre(m);
    SlewTypical(m);
    CapTypical(m);
    FanoutTypical(m);
    SetupIs(m);
    AllCornersAre(m);
  }

  ghost predicate NoNegativeCount(m: map<string, real>) {
    forall key :: key in m && key in {SLEW, CAP, FANOUT} ==> m[key] >= 0.0
  }

  /** A run that is signed off leaves the tuner nothing to change, unless its placement was too sparse. */
  lemma SignedOffIsLeftAlone(t: Tune, m: map<string, real>, gf180: bool, level: nat, fixed: bool)
    requires At(t.cfg, level, fixed) && SignedOff(m) && NoNegativeCount(m)
    ensures Changes(t, Observation(false, false, m, false), gf180) == []
  {
    var o := Observation(false, false, m, false);
    ViolationsAre(m, Electrical(m));
    NoViolations(m, Electrical(m));
    hide At, Violations, Changes;
    ChangesAre(t, o, gf180, level, fixed, Electrical(m));
    SomeChange(Changes(t, o, gf180));
  }

  lemma SomeChange(changes: seq<Change>)
    ensures changes == [] || exists c :: c in changes
  {
    if changes != [] {
      assert changes[0] in changes;
    }
  }

  lemma NoViolations(m: map<string, real>, n: int)
    requires SignedOff(m) && NoNegativeCount(m) && Violations(m, n)
    ensures n <= 0
  {
    hide SLEW, CAP, FANOUT, SLEW_33, SLEW_50, CAP_33, CAP_50, FANOUT_33, FANOUT_50, SetupMet;
    var slew, cap, fanout :| Counted(m, SLEW, SLEW_33, SLEW_50, slew) && Counted(m, CAP, CAP_33, CAP_50, cap) &&
      Counted(m, FANOUT, FANOUT_33, FANOUT_50, fanout) && n == slew + cap + fanout;
    assert slew <= 0 && cap <= 0 && fanout <= 0;
  }
}
