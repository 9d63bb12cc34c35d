/** Sequences without repetition, and sequences with one element taken out. */
module Sequences {
  ghost predicate Distinct<T>(s: seq<T>) {
    forall i: nat, j: nat {:trigger s[i], s[j]} :: i < j < |s| ==> s[i] != s[j]
  }

  function Without<T>(s: seq<T>, k: nat): (r: seq<T>)
    requires k < |s|
    ensures |r| == |s| - 1
  {
    seq(|s| - 1, i requires 0 <= i < |s| - 1 => if i < k then s[i] else s[i + 1])
  }
}
