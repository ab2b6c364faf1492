/** The per-node backward rules (`_backward`): each adds
    local derivative * out.grad into the grad of every operand slot. */
module Rules {
  import opened Calculus
  import opened Nodes

  /** The local derivative of a node with respect to each operand slot,
      computed from stored values: y and x for x * y, e^x read back from
      the exp node, 1/x for log, and 1 - t² with t the tanh node's value. */
  function Local(g: Graph, j: nat): (ls: seq<real>)
    requires WellFormed(g) && j < |g|
    ensures |ls| == |Operands(g[j].op)|
    ensures g[j].op.Log? ==> ls[0] > 0.0
  {
    match g[j].op
    case Leaf => []
    case Add(_, _) => [1.0, 1.0]
    case Mul(a, b) => [g[b].data, g[a].data]
    case Pow(a, k) => [PowLocal(g[a].data, k)]
    case Exp(_) => [g[j].data]
    case Log(a) => [1.0 / g[a].data]
    case Tanh(_) => [1.0 - Product(g[j].data, g[j].data)]
  }

  /** The local derivatives of the slots that hold x, summed. */
  function SlotSum(cs: seq<nat>, ls: seq<real>, x: nat): real
    requires |cs| == |ls|
  {
    if cs == [] then 0.0
    else (if cs[0] == x then ls[0] else 0.0) + SlotSum(cs[1..], ls[1..], x)
  }

  /** d(node j)/d(node x) through j's own operation: what j's rule adds to
      x's grad per unit of j's grad. */
  function Partial(g: Graph, j: nat, x: nat): real
    requires WellFormed(g) && j < |g|
  {
    SlotSum(Operands(g[j].op), Local(g, j), x)
  }

  lemma {:induction false} SlotSumAbsent(cs: seq<nat>, ls: seq<real>, x: nat)
    requires |cs| == |ls| && x !in cs
    ensures SlotSum(cs, ls, x) == 0.0
  {
    if cs != [] { SlotSumAbsent(cs[1..], ls[1..], x); }
  }

  lemma SlotSumOne(a: nat, la: real, x: nat)
    ensures SlotSum([a], [la], x) == if a == x then la else 0.0
  {
    assert [a][1..] == [];
  }

  lemma SlotSumTwo(a: nat, b: nat, la: real, lb: real, x: nat)
    ensures SlotSum([a, b], [la, lb], x) == (if a == x then la else 0.0) + (if b == x then lb else 0.0)
  {
    assert [a, b][1..] == [b] && [la, lb][1..] == [lb];
    SlotSumOne(b, lb, x);
  }

  /** A node has no partial derivative with respect to a non-child. */
  lemma PartialOfNonChild(g: Graph, j: nat, x: nat)
    requires WellFormed(g) && j < |g| && x !in Children(g[j].op)
    ensures Partial(g, j, x) == 0.0
  {
    SlotSumAbsent(Operands(g[j].op), Local(g, j), x);
  }

  /** The `+=` statements of a rule, one per slot, in slot order. */
  function Accumulate(s: seq<real>, cs: seq<nat>, ls: seq<real>, gout: real): (r: seq<real>)
    requires |cs| == |ls| && forall c :: c in cs ==> c < |s|
    ensures |r| == |s|
    ensures forall x :: 0 <= x < |s| ==> r[x] == s[x] + Product(SlotSum(cs, ls, x), gout)
    decreases |cs|
  {
    if cs == [] then s
    else
      assert cs[0] in cs;
      assert forall c :: c in cs[1..] ==> c in cs;
      Accumulate(s[cs[0] := s[cs[0]] + Product(ls[0], gout)], cs[1..], ls[1..], gout)
  }

  /** Accumulate on a single slot: one `+=`. */
  lemma AccumulateOne(s: seq<real>, a: nat, la: real, gout: real)
    requires a < |s|
    ensures Accumulate(s, [a], [la], gout) == s[a := s[a] + Product(la, gout)]
  {
    assert [a][1..] == [] && [la][1..] == [];
  }

  /** Accumulate on two slots: the first `+=`, then the second. */
  lemma AccumulateTwo(s: seq<real>, a: nat, b: nat, la: real, lb: real, gout: real)
    requires a < |s| && b < |s|
    ensures Accumulate(s, [a, b], [la, lb], gout) == Accumulate(s[a := s[a] + Product(la, gout)], [b], [lb], gout)
  {
    assert [a, b][1..] == [b] && [la, lb][1..] == [lb];
  }

  /** Running node j's rule on the grads s. The rule reads s[j] (out.grad),
      which it never writes, since every operand index is below j. */
  function ApplyRule(g: Graph, j: nat, s: seq<real>): (r: seq<real>)
    requires WellFormed(g) && j < |g| && |s| == |g|
    ensures |r| == |g|
    ensures forall x :: 0 <= x < |g| ==> r[x] == s[x] + Product(Partial(g, j, x), s[j])
  {
    ChildrenBelow(g);
    Accumulate(s, Operands(g[j].op), Local(g, j), s[j])
  }

  /** A two-slot rule is two `+=` statements in slot order; the second
      reads out.grad after the first, which left it alone. */
  lemma TwoSlotRule(g: Graph, j: nat, s: seq<real>, a: nat, b: nat, la: real, lb: real)
    requires WellFormed(g) && j < |g| && |s| == |g|
    requires Operands(g[j].op) == [a, b] && Local(g, j) == [la, lb]
    ensures a < j && b < j
    ensures ApplyRule(g, j, s) ==
      var s1 := s[a := s[a] + Product(la, s[j])];
      s1[b := s1[b] + Product(lb, s1[j])]
  {
    ChildrenBelow(g);
    assert a in Children(g[j].op) && b in Children(g[j].op);
    var s1 := s[a := s[a] + Product(la, s[j])];
    AccumulateTwo(s, a, b, la, lb, s[j]);
    AccumulateOne(s1, b, lb, s[j]);
    assert s1[j] == s[j];
  }

  /** A one-slot rule is a single `+=`. */
  lemma OneSlotRule(g: Graph, j: nat, s: seq<real>, a: nat, la: real)
    requires WellFormed(g) && j < |g| && |s| == |g|
    requires Operands(g[j].op) == [a] && Local(g, j) == [la]
    ensures a < j
    ensures ApplyRule(g, j, s) == s[a := s[a] + Product(la, s[j])]
  {
    ChildrenBelow(g);
    assert a in Children(g[j].op);
    AccumulateOne(s, a, la, s[j]);
  }

  /** A leaf's rule changes nothing. */
  lemma LeafRule(g: Graph, j: nat, s: seq<real>)
    requires WellFormed(g) && j < |g| && |s| == |g| && g[j].op == Leaf
    ensures ApplyRule(g, j, s) == s
  {
  }

  /** The add rule adds out.grad to both operands; on `x + x` it adds it
      twice to the single child. Nothing else changes. */
  lemma AddRule(g: Graph, j: nat, s: seq<real>, a: nat, b: nat)
    requires WellFormed(g) && j < |g| && |s| == |g| && g[j].op == Add(a, b)
    ensures a != b ==> ApplyRule(g, j, s)[a] == s[a] + s[j] && ApplyRule(g, j, s)[b] == s[b] + s[j]
    ensures a == b ==> ApplyRule(g, j, s)[a] == s[a] + 2.0 * s[j]
    ensures forall x :: 0 <= x < |g| && x != a && x != b ==> ApplyRule(g, j, s)[x] == s[x]
  {
    forall x | 0 <= x < |g| { SlotSumTwo(a, b, 1.0, 1.0, x); }
  }

  /** The multiply rule adds y·out.grad to the first operand and x·out.grad
      to the second; on `x * x` the child gains 2x·out.grad. */
  lemma MulRule(g: Graph, j: nat, s: seq<real>, a: nat, b: nat)
    requires WellFormed(g) && j < |g| && |s| == |g| && g[j].op == Mul(a, b)
    ensures a != b ==>
      ApplyRule(g, j, s)[a] == s[a] + Product(g[b].data, s[j])
      && ApplyRule(g, j, s)[b] == s[b] + Product(g[a].data, s[j])
    ensures a == b ==> ApplyRule(g, j, s)[a] == s[a] + Product(2.0 * g[a].data, s[j])
    ensures forall x :: 0 <= x < |g| && x != a && x != b ==> ApplyRule(g, j, s)[x] == s[x]
  {
    forall x | 0 <= x < |g| { SlotSumTwo(a, b, g[b].data, g[a].data, x); }
    if a == b {
      assert Partial(g, j, a) == 2.0 * g[a].data;
    }
  }

  /** Each one-operand rule adds local·out.grad to its operand and changes
      nothing else; the local factor is k·x^(k-1) for `**`, the stored e^x
      for exp, 1/x for log and 1 - t² (t the tanh output) for tanh. */
  lemma UnaryRule(g: Graph, j: nat, s: seq<real>, a: nat, local: real)
    requires WellFormed(g) && j < |g| && |s| == |g|
    requires g[j].op.Pow? || g[j].op.Exp? || g[j].op.Log? || g[j].op.Tanh?
    requires a == g[j].op.a
    requires g[j].op.Pow? ==> local == PowLocal(g[a].data, g[j].op.k)
    requires g[j].op.Exp? ==> local == g[j].data
    requires g[j].op.Log? ==> local == 1.0 / g[a].data
    requires g[j].op.Tanh? ==> local == 1.0 - Product(g[j].data, g[j].data)
    ensures ApplyRule(g, j, s)[a] == s[a] + Product(local, s[j])
    ensures forall x :: 0 <= x < |g| && x != a ==> ApplyRule(g, j, s)[x] == s[x]
  {
    assert Operands(g[j].op) == [a] && Local(g, j) == [local];
    forall x | 0 <= x < |g| { SlotSumOne(a, local, x); }
  }
}
