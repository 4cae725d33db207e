/**
 * The first index below a bound that satisfies a test: what the sources'
 * "for i := range xs { if test(xs[i]) { return i } }" loops find.
 */
module FirstMatch {
  import opened Wrappers

  /** The least j in [i, n) with p(j), if there is one. */
  function FirstFrom(n: nat, p: nat -> bool, i: nat): (r: Option<nat>)
    requires i <= n
    ensures r.Some? ==> i <= r.value < n && p(r.value)
    ensures r.Some? ==> forall j :: i <= j < r.value ==> !p(j)
    ensures r.None? ==> forall j :: i <= j < n ==> !p(j)
    decreases n - i
  {
    if i == n then None
    else if p(i) then Some(i)
    else FirstFrom(n, p, i + 1)
  }

  /** The least j below n with p(j): what every "for ... { if ... return }" loop finds. */
  function First(n: nat, p: nat -> bool): (r: Option<nat>)
    ensures r.Some? ==> r.value < n && p(r.value) && forall j :: 0 <= j < r.value ==> !p(j)
    ensures r.None? ==> forall j :: 0 <= j < n ==> !p(j)
  {
    FirstFrom(n, p, 0)
  }

  /** k is the first match when p holds at k and nowhere below it. */
  lemma FirstIs(n: nat, p: nat -> bool, k: nat)
    requires k < n && p(k) && forall j :: 0 <= j < k ==> !p(j)
    ensures First(n, p) == Some(k)
  {
  }

  /** No match when p holds nowhere below n. */
  lemma FirstNone(n: nat, p: nat -> bool)
    requires forall j :: 0 <= j < n ==> !p(j)
    ensures First(n, p) == None
  {
  }

  /** Two predicates that agree below n have the same first match. */
  lemma FirstAgrees(n: nat, p: nat -> bool, q: nat -> bool)
    requires forall j :: 0 <= j < n ==> p(j) == q(j)
    ensures First(n, p) == First(n, q)
  {
  }
}
