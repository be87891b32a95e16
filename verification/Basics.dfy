/** What several models share. */
module Basics {

  datatype Option<+T> = None | Some(value: T)

  /** The largest size_t. */
  const SIZE_MAX: nat := 0xffff_ffff_ffff_ffff

  ghost predicate NoRepeats(s: seq<nat>) {
    forall i, j :: 0 <= i < j < |s| ==> s[i] != s[j]
  }

  lemma {:induction false} LeastExists(s: set<nat>, x: nat)
    requires x in s
    ensures exists k :: k in s && forall j :: j in s ==> k <= j
    decreases x
  {
    if y :| y in s && y < x {
      LeastExists(s, y);
    }
  }
}
