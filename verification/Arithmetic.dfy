/** Facts about products, quotients and powers that the index maps and the number
    display share. */
module Arithmetic {

  function Power(b: nat, k: nat): (p: nat)
    ensures b > 0 ==> p > 0
  {
    if k == 0 then 1 else b * Power(b, k - 1)
  }

  lemma NoSmallMultiple(w: int, d: int, e: int)
    requires -w < e < w && d * w == e
    ensures d == 0
  {
  }

  lemma MonotoneProduct(x: int, y: int, z: nat)
    requires x <= y
    ensures x * z <= y * z
  {
  }

  lemma Distribute(s: int, b: int, t: int, a: int)
    ensures (s * b + t) * a == s * (b * a) + t * a
  {
  }

  lemma DivisionIsUnique(n: int, w: int, q: int, r: int)
    requires n == q * w + r && 0 <= r < w
    ensures n / w == q && n % w == r
  {
    assert n == (n / w) * w + n % w;
    NoSmallMultiple(w, n / w - q, r - n % w);
  }

  lemma DivideTwice(n: nat, a: nat, b: nat)
    requires a > 0 && b > 0
    ensures b * a > 0
    ensures n / (b * a) == n / a / b
  {
    var q, r := n / a, n % a;
    var s, t := q / b, q % b;
    assert n == q * a + r && q == s * b + t;
    assert q * a == s * (b * a) + t * a by { Distribute(s, b, t, a); }
    assert t * a + r < b * a by { MonotoneProduct(t + 1, b, a); }
    DivisionIsUnique(n, b * a, s, t * a + r);
  }

  /** n without its last k digits in base b. */
  function Dropped(b: nat, n: nat, k: nat): nat
    requires b > 0
  {
    n / Power(b, k)
  }

  /** Dropping k digits and then splitting off the last is dropping k+1 digits. */
  lemma NextDigit(b: nat, n: nat, k: nat)
    requires b > 0
    ensures Dropped(b, n, k) == Dropped(b, n, k + 1) * b + Dropped(b, n, k) % b
  {
    DivideTwice(n, Power(b, k), b);
  }

  lemma {:induction false} PowerIsMonotone(b: nat, j: nat, k: nat)
    requires b > 0 && j <= k
    ensures Power(b, j) <= Power(b, k)
  {
    if j == k {
    } else {
      PowerIsMonotone(b, j, k - 1);
      MonotoneProduct(1, b, Power(b, k - 1));
    }
  }

  lemma Associate(x: int, y: int, z: int)
    ensures x * (y * z) == (x * y) * z
  {
  }

  lemma {:induction false} PowerOfSum(b: nat, j: nat, k: nat)
    ensures Power(b, j + k) == Power(b, j) * Power(b, k)
  {
    if j == 0 {
    } else {
      PowerOfSum(b, j - 1, k);
      Associate(b, Power(b, j - 1), Power(b, k));
    }
  }
}
