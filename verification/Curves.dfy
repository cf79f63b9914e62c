/** The pluggable curve of `zoro_curve_base`: an arbitrary implementation, and the identity curve. */
module Curves {
  /** The three operations of the `Curve` trait; every theorem about a `Curve` holds for every implementation. */
  datatype Curve = Curve(
    psi: (nat, nat, nat) -> nat,
    inverseDiagonal: (nat, nat, nat, nat) -> nat,
    inverseHorizontal: (int, int, int, nat) -> nat)

  /** `ConfiguredCurve::new(beta, c)`. */
  type CurveFamily = (int, int) -> Curve

  function SaturatingSub(a: nat, b: nat): nat {
    if b <= a then a - b else 0
  }

  function DummyCurve(beta: int, c: int): Curve {
    Curve(
      (b, l, decimals) => b,
      (b, l, capitalB, decimals) => SaturatingSub(capitalB, b),
      (b, l, capitalB, decimals) => if capitalB - b < 0 then 0 else capitalB - b)
  }

  ghost predicate IsIdentity(curve: Curve) {
    && (forall b: nat, l: nat, d: nat :: curve.psi(b, l, d) == b)
    && (forall b: nat, l: nat, k: nat, d: nat :: curve.inverseDiagonal(b, l, k, d) == SaturatingSub(k, b))
    && (forall b: int, l: int, k: int, d: nat ::
          curve.inverseHorizontal(b, l, k, d) == if k - b < 0 then 0 else k - b)
  }

  /** Every pool, whatever its settings, is priced by the identity curve. */
  ghost predicate IsIdentityFamily(curves: CurveFamily) {
    forall beta: int, c: int :: IsIdentity(curves(beta, c))
  }

  lemma DummyCurveIsIdentity()
    ensures IsIdentityFamily(DummyCurve)
  {
  }
}
