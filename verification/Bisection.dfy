/** `bisect_right` over values that never fall. */
module Bisection {
  predicate Climbs(s: seq<int>) {
    forall i, j :: 0 <= i < j < |s| ==> s[i] <= s[j]
  }

  /** The number of leading values at or before a moment. */
  function CountUpTo(s: seq<int>, t: int): (n: nat)
    requires Climbs(s)
    ensures n <= |s|
    ensures forall i :: 0 <= i < n ==> s[i] <= t
    ensures forall i :: n <= i < |s| ==> s[i] > t
  {
    CountFrom(s, t, 0)
  }

  function CountFrom(s: seq<int>, t: int, i: nat): (n: nat)
    requires i <= |s| && Climbs(s)
    ensures i <= n <= |s|
    ensures forall j :: i <= j < n ==> s[j] <= t
    ensures forall j :: n <= j < |s| ==> s[j] > t
    decreases |s| - i
  {
    if i < |s| && s[i] <= t then CountFrom(s, t, i + 1) else i
  }

  lemma CountIs(s: seq<int>, t: int, n: nat)
    requires Climbs(s) && n <= |s|
    requires (n > 0 ==> s[n - 1] <= t) && (n < |s| ==> s[n] > t)
    ensures CountUpTo(s, t) == n
  {
    var m := CountUpTo(s, t);
    assert !(m < n) && !(n < m);
  }
}
