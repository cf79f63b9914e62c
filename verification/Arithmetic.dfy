/** Facts about products and quotients of naturals, each small enough for the solver. */
module Arithmetic {
  function Div(a: nat, b: nat): nat
    requires b > 0
  {
    a / b
  }

  /** Quotient of a product, the rounding step that every share computation uses. */
  function MulDiv(a: nat, b: nat, c: nat): nat
    requires c > 0
  {
    a * b / c
  }

  lemma MulDivBounds(a: nat, b: nat, c: nat)
    requires c > 0
    ensures MulDiv(a, b, c) * c <= a * b < MulDiv(a, b, c) * c + c
  {
  }

  lemma CancelFactor(a: int, b: int, y: int)
    requires y > 0 && a * y <= b * y
    ensures a <= b
  {
    if a > b {
      MulMonotone(b + 1, a, y);
    }
  }

  lemma CancelStrict(a: int, b: int, y: int)
    requires y > 0 && a * y < b * y
    ensures a < b
  {
    if a >= b {
      MulMonotone(b, a, y);
    }
  }

  lemma MulMonotone(a: int, b: int, y: int)
    requires y >= 0 && a <= b
    ensures a * y <= b * y
  {
  }

  lemma MulAssociates(a: int, b: int, c: int)
    ensures (a * b) * c == a * (b * c)
  {
  }

  lemma MulSwap(a: int, b: int, c: int)
    ensures (a * b) * c == (a * c) * b
  {
  }

  /** The quotient is the largest integer whose product stays below. */
  lemma MulDivAtLeast(k: nat, a: nat, b: nat, c: nat)
    requires c > 0 && k * c <= a * b
    ensures k <= MulDiv(a, b, c)
  {
    MulDivBounds(a, b, c);
    var m := MulDiv(a, b, c);
    assert (m + 1) * c == m * c + c;
    CancelStrict(k, m + 1, c);
  }

  lemma MulDivAtMost(k: nat, a: nat, b: nat, c: nat)
    requires c > 0 && a * b <= k * c
    ensures MulDiv(a, b, c) <= k
  {
    MulDivBounds(a, b, c);
    CancelFactor(MulDiv(a, b, c), k, c);
  }

  /** Fractions compared crosswise: c/z >= b/y >= a/x. */
  lemma CrossTransitive(a: nat, x: nat, b: nat, y: nat, c: nat, z: nat)
    requires y > 0
    requires b * x >= a * y && c * y >= b * z
    ensures c * x >= a * z
  {
    MulMonotone(b * z, c * y, x);
    MulMonotone(a * y, b * x, z);
    MulSwap(b, z, x);
    MulSwap(a, y, z);
    MulSwap(c, y, x);
    CancelFactor(a * z, c * x, y);
  }

  /** Adding at most proportionally to the denominator raises a fraction. */
  lemma MediantRises(l: nat, s: nat, inc: nat, lp: nat)
    requires lp * l <= inc * s
    ensures l * (s + lp) <= (l + inc) * s
  {
    assert l * (s + lp) == l * s + lp * l;
    assert (l + inc) * s == l * s + inc * s;
  }

  lemma MediantFalls(l: nat, s: nat, dec: nat, lp: nat)
    requires dec * s <= lp * l && dec <= l && lp <= s
    ensures l * (s - lp) <= (l - dec) * s
  {
    assert l * (s - lp) == l * s - lp * l;
    assert (l - dec) * s == l * s - dec * s;
  }
}
