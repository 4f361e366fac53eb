/** Small things several modules share. */
module Basics {

  datatype Option<+T> = None | Some(value: T)

  predicate EndsWith(s: string, suffix: string) {
    |s| >= |suffix| && forall i :: 0 <= i < |suffix| ==> s[|s| - |suffix| + i] == suffix[i]
  }

  lemma {:induction false} SubsetCard<T>(small: set<T>, big: set<T>)
    requires small <= big
    ensures |small| <= |big| && (|small| == |big| ==> small == big)
    decreases small
  {
    if small != {} {
      var x :| x in small;
      SubsetCard(small - {x}, big - {x});
    }
  }
}
