/** Searching in strings. */
module Strings {

  predicate At(s: string, p: nat, t: string)
  {
    p + |t| <= |s| && s[p..p + |t|] == t
  }

  /** bytes.Index */
  function Index(s: string, t: string): (r: int)
    ensures -1 <= r <= |s|
    ensures r >= 0 ==> At(s, r, t) && forall i :: 0 <= i < r ==> !At(s, i, t)
    ensures r < 0 ==> forall i: nat :: !At(s, i, t)
  {
    IndexFrom(s, t, 0)
  }

  function IndexFrom(s: string, t: string, p: nat): (r: int)
    requires p <= |s| && forall i :: 0 <= i < p ==> !At(s, i, t)
    ensures -1 <= r <= |s|
    ensures r >= 0 ==> At(s, r, t) && forall i :: 0 <= i < r ==> !At(s, i, t)
    ensures r < 0 ==> forall i: nat :: !At(s, i, t)
    decreases |s| - p
  {
    if At(s, p, t) then p else if p == |s| then -1 else IndexFrom(s, t, p + 1)
  }
}
