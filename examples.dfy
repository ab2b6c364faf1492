/** Small graphs worked through end to end: the gradients `backward` leaves
    on `x + x`, on `x / y`, and the power rule at a zero base. */
module Examples {
  import opened Outcomes
  import opened Calculus
  import opened Nodes
  import opened Rules
  import opened Builders
  import opened Gradients

  /** `y = x + x; y.backward()` from fresh grads: x.grad is 2 and y.grad 1,
      although x appears once in y's children. */
  lemma SelfAddGradient(m: Elementary, x: real)
    ensures var g := BuildAdd(m, BuildLeaf(m, [], x), 0, Ref(0));
      |g| == 2 && Children(g[1].op) == {0} && BackwardGrads(g, 1, Zeros(2)) == [2.0, 1.0]
  {
    var g := BuildAdd(m, BuildLeaf(m, [], x), 0, Ref(0));
    assert g[1].op == Add(0, 0);
    SelfAddHasOneChild(0);
    var u := Zeros(2)[1 := 1.0];
    SeedIsOne(g, 1, Zeros(2));
    assert 1 in Reach(g, 1);
    SlotSumTwo(0, 0, 1.0, 1.0, 0);
    assert Partial(g, 1, 0) == 2.0;
    ProductOne(2.0);
    assert AdjointInflow(g, 1, u, 0, 1) == 0.0;
    assert Adjoint(g, 1, u, 0) == 2.0;
    assert BackwardGrads(g, 1, Zeros(2)) == [Adjoint(g, 1, u, 0), Adjoint(g, 1, u, 1)];
  }

  /** The arena of two leaves x and y followed by `x / y`, which appends
      `y ** -1` (node 2) and `x * y ** -1` (node 3). */
  function QuotientGraph(m: Elementary, x: real, y: real): (g: Graph)
    requires y != 0.0
    ensures WellFormed(g) && |g| == 4 && g[0] == Node(x, Leaf) && g[1] == Node(y, Leaf)
    ensures g[2].op == Pow(1, -1) && g[2].data == Power(y, -1)
    ensures g[3].op == Mul(0, 2) && g[3].data == x / y
  {
    var g2 := BuildLeaf(m, BuildLeaf(m, [], x), y);
    BuildDiv(m, g2, 0, Ref(1)).value
  }

  /** What `x / y` leaves in the arena, as the facts the gradient lemmas use. */
  predicate QuotientShape(g: Graph, x: real, y: real) {
    WellFormed(g) && |g| == 4 && y != 0.0 && g[0].data == x && g[1] == Node(y, Leaf)
    && g[2].op == Pow(1, -1) && g[2].data == 1.0 / y && g[3].op == Mul(0, 2)
  }

  lemma QuotientShapeHolds(m: Elementary, x: real, y: real)
    requires y != 0.0
    ensures QuotientShape(QuotientGraph(m, x, y), x, y)
  {
    var g := QuotientGraph(m, x, y);
    ReciprocalQuotient(1.0, y);
    ProductOne(1.0 / y);
    assert g[2].data == Power(y, -1);
  }

  /** Both reachable nodes below the root feed into it. */
  lemma QuotientReach(g: Graph, x: real, y: real)
    requires QuotientShape(g, x, y)
    ensures 1 in Reach(g, 3) && 2 in Reach(g, 3) && 3 in Reach(g, 3)
  {
    ChildReach(g, 3, 2);
    ChildReach(g, 2, 1);
  }

  /** Node 2, `y ** -1`, receives x·1 from the multiply. */
  lemma ReciprocalNodeGrad(g: Graph, x: real, y: real, u: seq<real>)
    requires QuotientShape(g, x, y) && u == Zeros(4)[3 := 1.0]
    ensures Adjoint(g, 3, u, 2) == x
  {
    SeedIsOne(g, 3, Zeros(4));
    QuotientReach(g, x, y);
    SlotSumTwo(0, 2, g[2].data, g[0].data, 2);
    ProductOne(x);
    assert Partial(g, 3, 2) == x;
    assert AdjointInflow(g, 3, u, 2, 3) == 0.0;
    assert AdjointInflow(g, 3, u, 2, 4) == Product(x, Adjoint(g, 3, u, 3));
  }

  /** Node 0, x, receives (1/y)·1 from the multiply and nothing else. */
  lemma DividendGrad(g: Graph, x: real, y: real, u: seq<real>)
    requires QuotientShape(g, x, y) && u == Zeros(4)[3 := 1.0]
    ensures Adjoint(g, 3, u, 0) == 1.0 / y
  {
    SeedIsOne(g, 3, Zeros(4));
    QuotientReach(g, x, y);
    SlotSumTwo(0, 2, g[2].data, g[0].data, 0);
    assert Partial(g, 3, 0) == 1.0 / y;
    ProductOne(1.0 / y);
    PartialOfNonChild(g, 2, 0);
    PartialOfNonChild(g, 1, 0);
    ProductZero(Adjoint(g, 3, u, 2));
    ProductZero(Adjoint(g, 3, u, 1));
    assert AdjointInflow(g, 3, u, 0, 1) == 0.0;
    assert AdjointInflow(g, 3, u, 0, 2) == 0.0;
    assert AdjointInflow(g, 3, u, 0, 3) == 0.0;
    assert AdjointInflow(g, 3, u, 0, 4) == 1.0 / y;
  }

  /** Node 1, y, receives -1/y² times the grad x of `y ** -1`. */
  lemma DivisorGrad(g: Graph, x: real, y: real, u: seq<real>)
    requires QuotientShape(g, x, y) && u == Zeros(4)[3 := 1.0]
    ensures Adjoint(g, 3, u, 1) == -x / (y * y)
  {
    QuotientReach(g, x, y);
    ReciprocalNodeGrad(g, x, y, u);
    SlotSumOne(1, PowLocal(y, -1), 1);
    assert Partial(g, 2, 1) == PowLocal(y, -1);
    PartialOfNonChild(g, 3, 1);
    ProductZero(Adjoint(g, 3, u, 3));
    InverseSquare(x, y);
    assert AdjointInflow(g, 3, u, 1, 2) == 0.0;
    assert AdjointInflow(g, 3, u, 1, 3) == -x / (y * y);
    assert AdjointInflow(g, 3, u, 1, 4) == -x / (y * y);
  }

  /** `(x / y).backward()` from fresh grads: x.grad is 1/y and y.grad is
      -x/y², the quotient rule. */
  lemma QuotientGradient(m: Elementary, x: real, y: real)
    requires y != 0.0
    ensures var g := QuotientGraph(m, x, y);
      BackwardGrads(g, 3, Zeros(4))[0] == 1.0 / y
      && BackwardGrads(g, 3, Zeros(4))[1] == -x / (y * y)
  {
    var g := QuotientGraph(m, x, y);
    QuotientShapeHolds(m, x, y);
    DividendGrad(g, x, y, Zeros(4)[3 := 1.0]);
    DivisorGrad(g, x, y, Zeros(4)[3 := 1.0]);
  }

  /** The reciprocal's local derivative -1/y², times x. */
  lemma InverseSquare(x: real, y: real)
    requires y != 0.0
    ensures Product(PowLocal(y, -1), x) == -x / (y * y)
  {
    var q := Product(y, y);
    ProductOne(y);
    assert NatPower(y, 1) == y;
    assert NatPower(y, 2) == q;
    assert PowLocal(y, -1) == Product(-1.0, 1.0 / q);
    var r := -x / (y * y);
    assert r * (y * y) == -x;
    assert Product(Product(-1.0, 1.0 / q), x) * q == -x;
  }

  /** `Value(0.0) ** 0` builds fine (data 1), but running its rule as the
      source writes it evaluates `0.0 ** -1` and raises ZeroDivisionError;
      the corrected rule adds 0. */
  lemma ZeroToTheZero(m: Elementary)
    ensures BuildPow(m, BuildLeaf(m, [], 0.0), 0, 0).Ok?
    ensures Out(BuildPow(m, BuildLeaf(m, [], 0.0), 0, 0).value).data == 1.0
    ensures PowLocalAsWritten(0.0, 0) == Err(ZeroDivisionError)
    ensures PowLocal(0.0, 0) == 0.0
  {
  }
}
