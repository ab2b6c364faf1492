/** Exact real arithmetic behind the power operation, its local derivative,
    and dual numbers as an independent account of that derivative. */
module Calculus {
  import opened Outcomes

  /** The product of two reals, behind a function of its own so that the
      solver meets a bare nonlinear term only where a proof asks for it. */
  function Product(p: real, q: real): (r: real)
    ensures r == 0.0 <==> p == 0.0 || q == 0.0
  {
    p * q
  }

  lemma ProductOne(p: real)
    ensures Product(p, 1.0) == p && Product(1.0, p) == p
  {
  }

  lemma ProductZero(p: real)
    ensures Product(p, 0.0) == 0.0 && Product(0.0, p) == 0.0
  {
  }

  /** x raised to a natural power, by repeated multiplication. */
  function NatPower(x: real, n: nat): (r: real)
    ensures x != 0.0 ==> r != 0.0
  {
    if n == 0 then 1.0 else Product(NatPower(x, n - 1), x)
  }

  /** x raised to an integer power; a negative power is a reciprocal, so it
      needs a nonzero base (the source raises ZeroDivisionError otherwise). */
  function Power(x: real, k: int): (r: real)
    requires k >= 0 || x != 0.0
    ensures k == 0 ==> r == 1.0
    ensures k == 1 ==> r == x
    ensures x != 0.0 ==> r != 0.0
  {
    ProductOne(x);
    assert NatPower(x, 1) == Product(1.0, x);
    if k >= 0 then NatPower(x, k) else 1.0 / NatPower(x, -k)
  }

  /** The local derivative the power rule adds for x ** k: k * x^(k-1),
      and 0 when k is 0 (the derivative of a constant). */
  function PowLocal(x: real, k: int): (r: real)
    requires k >= 0 || x != 0.0
    ensures k == 1 ==> r == 1.0
    ensures r == 0.0 <==> k == 0 || (x == 0.0 && k > 1)
  {
    ProductOne(1.0);
    if k == 0 then 0.0 else Product(k as real, Power(x, k - 1))
  }

  /** The power rule's local derivative evaluated in the order of
      engine.py:60: x is raised to k - 1 before the product with k, so a zero
      base with a negative exponent k - 1 fails even when k is 0. */
  function PowLocalAsWritten(x: real, k: int): (r: Result<real>)
    ensures r.Err? <==> x == 0.0 && k < 1
  {
    if x == 0.0 && k - 1 < 0 then Err(ZeroDivisionError)
    else Ok(Product(k as real, Power(x, k - 1)))
  }

  /** The as-written rule and the corrected one agree on every input the
      forward pass accepts, except a zero base with exponent 0. */
  lemma PowLocalAsWrittenAgrees(x: real, k: int)
    requires k >= 0 || x != 0.0
    ensures x == 0.0 && k == 0 ==> PowLocalAsWritten(x, k) == Err(ZeroDivisionError)
    ensures !(x == 0.0 && k == 0) ==> PowLocalAsWritten(x, k) == Ok(PowLocal(x, k))
  {
  }

  /** Multiplying by y ** -1 divides by y. */
  lemma ReciprocalQuotient(x: real, y: real)
    requires y != 0.0
    ensures Power(y, -1) == 1.0 / y && Product(x, Power(y, -1)) == x / y
  {
    ProductOne(y);
    assert NatPower(y, 1) == Product(1.0, y);
  }

  /** A dual number v + d·e with e·e = 0; its d part carries a derivative. */
  datatype Dual = Dual(v: real, d: real)

  /** Product rule. */
  function DualMul(p: Dual, q: Dual): Dual {
    Dual(Product(p.v, q.v), Product(p.d, q.v) + Product(p.v, q.d))
  }

  /** Reciprocal rule: d(1/u) = -du/u². */
  function DualRecip(p: Dual): Dual
    requires p.v != 0.0
  {
    Dual(1.0 / p.v, -p.d / Product(p.v, p.v))
  }

  /** p^n by repeated dual multiplication; its value part is the real power. */
  function DualNatPower(p: Dual, n: nat): (r: Dual)
    ensures r.v == NatPower(p.v, n)
  {
    if n == 0 then Dual(1.0, 0.0) else DualMul(DualNatPower(p, n - 1), p)
  }

  /** p^k for an integer k, a reciprocal of a natural power when k < 0. */
  function DualPower(p: Dual, k: int): Dual
    requires k >= 0 || p.v != 0.0
  {
    if k >= 0 then DualNatPower(p, k) else DualRecip(DualNatPower(p, -k))
  }

  /** Differentiating x^n by the product rule n times gives n * x^(n-1). */
  lemma {:induction false} DualNatPowerTangent(x: real, n: nat)
    ensures DualNatPower(Dual(x, 1.0), n).d == if n == 0 then 0.0 else Product(n as real, NatPower(x, n - 1))
  {
    if n > 0 {
      var p := DualNatPower(Dual(x, 1.0), n - 1);
      assert DualNatPower(Dual(x, 1.0), n) == DualMul(p, Dual(x, 1.0));
      ProductOne(p.v);
      if n == 1 {
        assert p == Dual(1.0, 0.0);
        ProductZero(x);
        ProductOne(1.0);
      } else {
        DualNatPowerTangent(x, n - 1);
        ProductRuleStep((n - 1) as real, NatPower(x, n - 2), x);
      }
    }
  }

  /** One more factor x: (m·q)·x + q·x is (m + 1)·(q·x). */
  lemma ProductRuleStep(m: real, q: real, x: real)
    ensures Product(Product(m, q), x) + Product(q, x) == Product(m + 1.0, Product(q, x))
  {
  }

  /** The reciprocal rule on u = q·x with du = n·q, against the power rule's
      k·x^(k-1) for k = -n, where w = u·x: -n·q / u² = k / w. */
  lemma QuotientOfPowers(n: real, q: real, x: real, k: real)
    requires q != 0.0 && x != 0.0 && k == -n
    ensures -Product(n, q) / Product(Product(q, x), Product(q, x)) == Product(k, 1.0 / Product(Product(q, x), x))
  {
    var u := Product(q, x);
    var uu, ux := Product(u, u), Product(u, x);
    var lhs, rhs := -Product(n, q) / uu, -n / ux;
    assert lhs * uu == -Product(n, q);
    assert rhs * ux == -n;
    assert uu == ux * q;
    assert rhs * uu == -Product(n, q);
    assert Product(k, 1.0 / ux) == rhs;
  }

  /** For a negative k = -n, x^k and its dual are reciprocals of natural
      powers, and the power rule's factor is k / x^(n+1). */
  lemma NegativePower(x: real, k: int, n: nat)
    requires k < 0 && x != 0.0 && n == -k
    ensures Power(x, k) == 1.0 / NatPower(x, n)
    ensures PowLocal(x, k) == Product(k as real, 1.0 / NatPower(x, n + 1))
    ensures DualPower(Dual(x, 1.0), k) == DualRecip(DualNatPower(Dual(x, 1.0), n))
  {
  }

  /** The power rule's local derivative is the tangent that dual numbers
      compute for x^k, for every integer k the forward pass accepts. */
  lemma PowLocalIsDualTangent(x: real, k: int)
    requires k >= 0 || x != 0.0
    ensures DualPower(Dual(x, 1.0), k) == Dual(Power(x, k), PowLocal(x, k))
  {
    if k >= 0 {
      DualNatPowerTangent(x, k);
    } else {
      var n: nat := -k;
      NegativePower(x, k, n);
      DualNatPowerTangent(x, n);
      QuotientOfPowers(n as real, NatPower(x, n - 1), x, k as real);
    }
  }
}
