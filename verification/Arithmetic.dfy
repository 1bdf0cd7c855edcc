/** Counting, and division facts the solver does not find by itself. */
module Arithmetic {

  function One(b: bool): nat {
    if b then 1 else 0
  }

  lemma Multiple(d: int, w: nat)
    ensures d >= 1 ==> d * w >= w
    ensures d <= -1 ==> d * w + w <= 0
    ensures d >= 0 ==> d * w >= 0
  {
  }

  lemma QuotientIs(k: nat, w: nat, q: nat, r: nat)
    requires w > 0 && r < w && k == q * w + r
    ensures k / w == q && k % w == r
  {
    var d := k / w - q;
    assert k == (k / w) * w + k % w;
    assert d * w == (k / w) * w - q * w;
    Multiple(d, w);
  }

  lemma QuotientAtLeast(a: nat, m: nat, k: nat)
    requires m > 0 && a >= k * m
    ensures a / m >= k
  {
    var d := k - a / m;
    assert a == (a / m) * m + a % m;
    assert d * m == k * m - (a / m) * m;
    Multiple(d, m);
  }

  lemma QuotientBelow(a: nat, m: nat, k: nat)
    requires m > 0 && a < k * m
    ensures a / m < k
  {
    var d := a / m - k;
    assert a == (a / m) * m + a % m;
    assert d * m == (a / m) * m - k * m;
    Multiple(d, m);
  }
}
