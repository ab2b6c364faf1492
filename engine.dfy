/** The mutable side of the engine: an arena that owns every node built so
    far together with its `grad` field, the builders as methods that append
    nodes with grad 0, each node's `_backward` rule as a method that adds
    into the grads, and `backward` itself. */
module Engine {
  import opened Outcomes
  import opened Calculus
  import opened Nodes
  import opened Rules
  import opened Builders
  import opened TopoSort
  import opened Gradients

  /** The nodes of q in reverse order, the order `reversed(result)` yields. */
  function Reversed(q: seq<nat>): (r: seq<nat>)
    ensures |r| == |q| && forall t :: 0 <= t < |q| ==> r[t] == q[|q| - 1 - t]
  {
    if q == [] then [] else Reversed(q[1..]) + [q[0]]
  }

  class Arena {
    /** The host's exp, log and tanh. */
    const math: Elementary
    /** Every `Value` built so far, operands before their users. */
    var nodes: Graph
    /** `grad` of each node, by index. */
    var grad: seq<real>

    ghost predicate Valid()
      reads this
    {
      WellFormed(nodes) && |grad| == |nodes| && Consistent(math, nodes)
    }

    constructor (math: Elementary)
      ensures Valid() && this.math == math && nodes == [] && grad == []
    {
      this.math := math;
      nodes := [];
      grad := [];
    }

    /** Take over the nodes a builder appended; each new `Value` starts with
        grad 0. */
    method Grow(g: Graph) returns (out: nat)
      requires Valid() && WellFormed(g) && Extends(nodes, g) && Consistent(math, g)
      modifies this
      ensures Valid() && nodes == g && grad == old(grad) + Zeros(|g| - |old(nodes)|)
      ensures out == |g| - 1
    {
      grad := grad + Zeros(|g| - |nodes|);
      nodes := g;
      out := |g| - 1;
    }

    /** Take over the outcome of a builder that can fail: on an error the
        arena is left as it was. */
    method Adopt(r: Result<Graph>) returns (out: Result<nat>)
      requires Valid()
      requires r.Ok? ==> WellFormed(r.value) && Extends(nodes, r.value) && Consistent(math, r.value)
      modifies this
      ensures Valid()
      ensures r.Err? ==> out == Err(r.error) && nodes == old(nodes) && grad == old(grad)
      ensures r.Ok? ==> nodes == r.value && grad == old(grad) + Zeros(|r.value| - |old(nodes)|)
      ensures r.Ok? ==> out == Ok(|nodes| - 1)
    {
      if r.Err? {
        return Err(r.error);
      }
      var n := Grow(r.value);
      return Ok(n);
    }

    /** `Value(x)`. */
    method Value(x: real) returns (out: nat)
      requires Valid()
      modifies this
      ensures Valid() && nodes == BuildLeaf(math, old(nodes), x) && grad == old(grad) + [0.0]
      ensures out == |old(nodes)| && nodes[out].op.Leaf? && grad[out] == 0.0
    {
      out := Grow(BuildLeaf(math, nodes, x));
      assert Zeros(1) == [0.0];
    }

    /** `self + other`. */
    method Add(i: nat, other: Operand) returns (out: nat)
      requires Valid() && i < |nodes| && OperandOk(nodes, other)
      modifies this
      ensures Valid() && nodes == BuildAdd(math, old(nodes), i, other)
      ensures grad == old(grad) + Zeros(|nodes| - |old(nodes)|) && out == |nodes| - 1
    {
      out := Grow(BuildAdd(math, nodes, i, other));
    }

    /** `other + self` with a number other (`__radd__`). */
    method RAdd(x: real, i: nat) returns (out: nat)
      requires Valid() && i < |nodes|
      modifies this
      ensures Valid() && nodes == BuildRAdd(math, old(nodes), x, i)
      ensures grad == old(grad) + Zeros(2) && out == |nodes| - 1
    {
      out := Grow(BuildRAdd(math, nodes, x, i));
    }

    /** `self * other`. */
    method Mul(i: nat, other: Operand) returns (out: nat)
      requires Valid() && i < |nodes| && OperandOk(nodes, other)
      modifies this
      ensures Valid() && nodes == BuildMul(math, old(nodes), i, other)
      ensures grad == old(grad) + Zeros(|nodes| - |old(nodes)|) && out == |nodes| - 1
    {
      out := Grow(BuildMul(math, nodes, i, other));
    }

    /** `number * self`, as intended (the source's hook is misspelled). */
    method RMul(x: real, i: nat) returns (out: nat)
      requires Valid() && i < |nodes|
      modifies this
      ensures Valid() && nodes == BuildRMul(math, old(nodes), x, i)
      ensures grad == old(grad) + Zeros(2) && out == |nodes| - 1
    {
      out := Grow(BuildRMul(math, nodes, x, i));
    }

    /** `-self`. */
    method Neg(i: nat) returns (out: nat)
      requires Valid() && i < |nodes|
      modifies this
      ensures Valid() && nodes == BuildNeg(math, old(nodes), i)
      ensures grad == old(grad) + Zeros(2) && out == |nodes| - 1
    {
      out := Grow(BuildNeg(math, nodes, i));
    }

    /** `self - other`, as intended. */
    method Sub(i: nat, other: Operand) returns (out: nat)
      requires Valid() && i < |nodes| && OperandOk(nodes, other)
      modifies this
      ensures Valid() && nodes == BuildSub(math, old(nodes), i, other)
      ensures grad == old(grad) + Zeros(|nodes| - |old(nodes)|) && out == |nodes| - 1
    {
      out := Grow(BuildSub(math, nodes, i, other));
    }

    /** `self ** k`; on ZeroDivisionError nothing is built. */
    method Pow(i: nat, k: int) returns (out: Result<nat>)
      requires Valid() && i < |nodes|
      modifies this
      ensures Valid()
      ensures BuildPow(math, old(nodes), i, k).Err? ==>
        out == Err(BuildPow(math, old(nodes), i, k).error) && nodes == old(nodes) && grad == old(grad)
      ensures BuildPow(math, old(nodes), i, k).Ok? ==>
        nodes == BuildPow(math, old(nodes), i, k).value && grad == old(grad) + [0.0] && out == Ok(|nodes| - 1)
    {
      var r := BuildPow(math, nodes, i, k);
      if r.Err? {
        return Err(r.error);
      }
      var n := Grow(r.value);
      assert Zeros(1) == [0.0];
      return Ok(n);
    }

    /** `self / other`; on ZeroDivisionError nothing is built. */
    method Div(i: nat, other: Operand) returns (out: Result<nat>)
      requires Valid() && i < |nodes| && OperandOk(nodes, other)
      modifies this
      ensures Valid()
      ensures BuildDiv(math, old(nodes), i, other).Err? ==>
        out == Err(BuildDiv(math, old(nodes), i, other).error) && nodes == old(nodes) && grad == old(grad)
      ensures BuildDiv(math, old(nodes), i, other).Ok? ==>
        nodes == BuildDiv(math, old(nodes), i, other).value && grad == old(grad) + Zeros(2) && out == Ok(|nodes| - 1)
    {
      out := Adopt(BuildDiv(math, nodes, i, other));
    }

    /** `self.exp()`. */
    method Exp(i: nat) returns (out: nat)
      requires Valid() && i < |nodes|
      modifies this
      ensures Valid() && nodes == BuildExp(math, old(nodes), i)
      ensures grad == old(grad) + [0.0] && out == |nodes| - 1
    {
      out := Grow(BuildExp(math, nodes, i));
      assert Zeros(1) == [0.0];
    }

    /** `self.log()`; on the math library's domain error nothing is built. */
    method Log(i: nat) returns (out: Result<nat>)
      requires Valid() && i < |nodes|
      modifies this
      ensures Valid()
      ensures BuildLog(math, old(nodes), i).Err? ==>
        out == Err(DomainError) && nodes == old(nodes) && grad == old(grad)
      ensures BuildLog(math, old(nodes), i).Ok? ==>
        nodes == BuildLog(math, old(nodes), i).value && grad == old(grad) + [0.0] && out == Ok(|nodes| - 1)
    {
      var r := BuildLog(math, nodes, i);
      if r.Err? {
        return Err(r.error);
      }
      var n := Grow(r.value);
      assert Zeros(1) == [0.0];
      return Ok(n);
    }

    /** `self.tanh()`. */
    method Tanh(i: nat) returns (out: nat)
      requires Valid() && i < |nodes|
      modifies this
      ensures Valid() && nodes == BuildTanh(math, old(nodes), i)
      ensures grad == old(grad) + [0.0] && out == |nodes| - 1
    {
      out := Grow(BuildTanh(math, nodes, i));
      assert Zeros(1) == [0.0];
    }

    /** `node._backward()` for node j: the closure its builder attached,
        chosen by the node's operation; a leaf's does nothing. */
    method RunRule(j: nat)
      requires Valid() && j < |nodes|
      modifies this`grad
      ensures grad == ApplyRule(nodes, j, old(grad))
    {
      match nodes[j].op
      case Leaf =>
      case Add(a, b) => AddBackward(j, a, b);
      case Mul(a, b) => MulBackward(j, a, b);
      case Pow(a, k) => PowBackward(j, a, k);
      case Exp(a) => ExpBackward(j, a);
      case Log(a) => LogBackward(j, a);
      case Tanh(a) => TanhBackward(j, a);
    }

    /** The add closure (engine.py:22-24): out.grad is added to the first
        operand's grad and then to the second's, so a node used twice
        receives it twice. */
    method AddBackward(j: nat, a: nat, b: nat)
      requires Valid() && j < |nodes| && nodes[j].op == Op.Add(a, b)
      modifies this`grad
      ensures grad == ApplyRule(nodes, j, old(grad))
    {
      TwoSlotRule(nodes, j, grad, a, b, 1.0, 1.0);
      grad := grad[a := grad[a] + Product(1.0, grad[j])];
      grad := grad[b := grad[b] + Product(1.0, grad[j])];
    }

    /** The multiply closure (engine.py:36-38): each operand's grad gains
        the other operand's data times out.grad, first operand first. */
    method MulBackward(j: nat, a: nat, b: nat)
      requires Valid() && j < |nodes| && nodes[j].op == Op.Mul(a, b)
      modifies this`grad
      ensures grad == ApplyRule(nodes, j, old(grad))
    {
      TwoSlotRule(nodes, j, grad, a, b, nodes[b].data, nodes[a].data);
      grad := grad[a := grad[a] + Product(nodes[b].data, grad[j])];
      grad := grad[b := grad[b] + Product(nodes[a].data, grad[j])];
    }

    /** The power closure (engine.py:59-60): the operand's grad gains the
        power rule's factor times out.grad, with the factor as corrected
        (see Calculus.PowLocal). */
    method PowBackward(j: nat, a: nat, k: int)
      requires Valid() && j < |nodes| && nodes[j].op == Op.Pow(a, k)
      modifies this`grad
      ensures grad == ApplyRule(nodes, j, old(grad))
    {
      var local := PowLocal(nodes[a].data, k);
      OneSlotRule(nodes, j, grad, a, local);
      grad := grad[a := grad[a] + Product(local, grad[j])];
    }

    /** The exp closure (engine.py:69-70): the operand's grad gains the
        stored result e^x times out.grad. */
    method ExpBackward(j: nat, a: nat)
      requires Valid() && j < |nodes| && nodes[j].op == Op.Exp(a)
      modifies this`grad
      ensures grad == ApplyRule(nodes, j, old(grad))
    {
      var x := nodes[j].data;
      OneSlotRule(nodes, j, grad, a, x);
      grad := grad[a := grad[a] + Product(x, grad[j])];
    }

    /** The log closure (engine.py:79-81): the reciprocal of the operand's
        data, times out.grad, is added to the operand's grad. */
    method LogBackward(j: nat, a: nat)
      requires Valid() && j < |nodes| && nodes[j].op == Op.Log(a)
      modifies this`grad
      ensures grad == ApplyRule(nodes, j, old(grad))
    {
      var logGrad := 1.0 / nodes[a].data;
      OneSlotRule(nodes, j, grad, a, logGrad);
      grad := grad[a := grad[a] + Product(logGrad, grad[j])];
    }

    /** The tanh closure (engine.py:90-92): one minus the square of the
        stored tanh result, times out.grad, is added to the operand's grad. */
    method TanhBackward(j: nat, a: nat)
      requires Valid() && j < |nodes| && nodes[j].op == Op.Tanh(a)
      modifies this`grad
      ensures grad == ApplyRule(nodes, j, old(grad))
    {
      var x := nodes[j].data;
      var tanhGrad := 1.0 - Product(x, x);
      OneSlotRule(nodes, j, grad, a, tanhGrad);
      grad := grad[a := grad[a] + Product(tanhGrad, grad[j])];
    }

    /** `backward()` on node root: sort, seed the root with 1.0, then run
        every rule in reverse postorder. The ghost results expose the
        postorder the search chose and the nodes whose rules ran, in order. */
    method Backward(root: nat) returns (ghost order: seq<nat>, ghost ran: seq<nat>)
      requires Valid() && root < |nodes|
      modifies this`grad
      ensures Valid() && nodes == old(nodes)
      ensures IsPostorder(nodes, root, order) && ran == Reversed(order)
      ensures grad == BackwardGrads(nodes, root, old(grad))
      ensures grad[root] == 1.0
      ensures forall x :: 0 <= x < |nodes| && x !in Reach(nodes, root) ==> grad[x] == old(grad)[x]
    {
      var result := Sort(nodes, root);
      order := result;
      SweepIsAdjoint(nodes, root, result, grad);
      ghost var stale := grad;
      grad := grad[root := 1.0];
      ghost var seeded := grad;
      ran := [];
      var t := |result|;
      while t > 0
        invariant 0 <= t <= |result| && |grad| == |nodes|
        invariant grad == Sweep(nodes, result[t..], seeded)
        invariant ran == Reversed(result[t..])
      {
        t := t - 1;
        assert result[t..][1..] == result[t + 1..];
        FullyAccumulated(nodes, root, result, stale, t);
        assert grad[result[t]] == BackwardGrads(nodes, root, stale)[result[t]];
        RunRule(result[t]);
        ran := ran + [result[t]];
      }
      assert result[0..] == result;
      SeedIsOne(nodes, root, stale);
      forall x | 0 <= x < |nodes| && x !in Reach(nodes, root) ensures grad[x] == stale[x] {
        UnreachableUnchanged(nodes, root, stale, x);
      }
    }
  }
}
