/** The graph node (`Value`) and the arena that holds every node of a
    computation. A node's operands are arena indices smaller than its own
    index, so the graph is acyclic by construction. */
module Nodes {
  import opened Calculus

  /** The operation that produced a node (its `op` tag) with its operands,
      in operand order: `x + x` is `Add(i, i)`, two slots on one node. */
  datatype Op =
    | Leaf
    | Add(a: nat, b: nat)
    | Mul(a: nat, b: nat)
    | Pow(a: nat, k: int)
    | Exp(a: nat)
    | Log(a: nat)
    | Tanh(a: nat)

  /** The parts of a `Value` that are fixed once it is built: its forward
      value `data` and how it was produced. Gradients are kept apart. */
  datatype Node = Node(data: real, op: Op)

  type Graph = seq<Node>

  /** The host's exp, log and tanh, taken as parameters: the model makes no
      claim about their values. */
  datatype Elementary = Elementary(exp: real -> real, log: real -> real, tanh: real -> real)

  /** The operand slots of an operation, in order. */
  function Operands(op: Op): (cs: seq<nat>)
    ensures |cs| <= 2
    ensures op.Leaf? <==> cs == []
    ensures (op.Add? || op.Mul?) <==> |cs| == 2
  {
    match op
    case Leaf => []
    case Add(a, b) => [a, b]
    case Mul(a, b) => [a, b]
    case Pow(a, _) => [a]
    case Exp(a) => [a]
    case Log(a) => [a]
    case Tanh(a) => [a]
  }

  /** The `children` set of a node: its operands without repetition. */
  function Children(op: Op): (r: set<nat>)
    ensures r == {} <==> op.Leaf?
    ensures forall c :: c in r ==> c in Operands(op)
  {
    var cs := Operands(op);
    var r := set c | c in cs;
    assert |cs| > 0 ==> cs[0] in r;
    r
  }

  /** `x + x` records one child although it has two operand slots. */
  lemma SelfAddHasOneChild(a: nat)
    ensures Children(Add(a, a)) == {a} && |Operands(Add(a, a))| == 2
  {
  }

  /** Every operand was built before the node that uses it, and the node
      passed the domain check its builder makes. */
  predicate WellFormed(g: Graph) {
    forall i {:trigger g[i].op} :: 0 <= i < |g| ==>
      match g[i].op
      case Leaf => true
      case Add(a, b) => a < i && b < i
      case Mul(a, b) => a < i && b < i
      case Pow(a, k) => a < i && (k >= 0 || g[a].data != 0.0)
      case Exp(a) => a < i
      case Log(a) => a < i && g[a].data > 0.0
      case Tanh(a) => a < i
  }

  /** The check a builder makes before appending a node with operation op:
      its operands exist, and its domain condition holds. */
  predicate Admits(g: Graph, op: Op) {
    match op
    case Leaf => true
    case Add(a, b) => a < |g| && b < |g|
    case Mul(a, b) => a < |g| && b < |g|
    case Pow(a, k) => a < |g| && (k >= 0 || g[a].data != 0.0)
    case Exp(a) => a < |g|
    case Log(a) => a < |g| && g[a].data > 0.0
    case Tanh(a) => a < |g|
  }

  /** Appending an admitted node keeps the arena well formed and leaves
      every existing node as it was. */
  function Append(g: Graph, n: Node): (r: Graph)
    requires WellFormed(g) && Admits(g, n.op)
    ensures WellFormed(r) && |r| == |g| + 1 && r[|g|] == n
    ensures forall x {:trigger r[x]} :: 0 <= x < |g| ==> r[x] == g[x]
  {
    g + [n]
  }

  lemma ChildrenBelow(g: Graph)
    requires WellFormed(g)
    ensures forall j, c :: 0 <= j < |g| && c in Children(g[j].op) ==> c < j
  {
  }

  /** The forward value an operation computes from its operands' data. */
  function Eval(m: Elementary, g: Graph, i: nat): (r: real)
    requires WellFormed(g) && i < |g|
    ensures g[i].op.Mul? ==> (r == 0.0 <==> g[g[i].op.a].data == 0.0 || g[g[i].op.b].data == 0.0)
    ensures g[i].op.Pow? && g[g[i].op.a].data != 0.0 ==> r != 0.0
    ensures g[i].op.Pow? && g[i].op.k == 0 ==> r == 1.0
  {
    match g[i].op
    case Leaf => g[i].data
    case Add(a, b) => g[a].data + g[b].data
    case Mul(a, b) => Product(g[a].data, g[b].data)
    case Pow(a, k) => Power(g[a].data, k)
    case Exp(a) => m.exp(g[a].data)
    case Log(a) => m.log(g[a].data)
    case Tanh(a) => m.tanh(g[a].data)
  }

  /** Every node's data is what its operation computes (op and data never drift). */
  predicate Consistent(m: Elementary, g: Graph)
    requires WellFormed(g)
  {
    forall i :: 0 <= i < |g| ==> Computed(m, g, i)
  }

  predicate Computed(m: Elementary, g: Graph, i: nat)
    requires WellFormed(g) && i < |g|
  {
    g[i].data == Eval(m, g, i)
  }

  /** Appending a node whose data matches its op keeps the arena consistent. */
  lemma AppendConsistent(m: Elementary, g: Graph, n: Node)
    requires WellFormed(g) && Admits(g, n.op)
    requires Computed(m, Append(g, n), |g|)
    ensures Consistent(m, g) ==> Consistent(m, Append(g, n))
  {
    var r := Append(g, n);
    if Consistent(m, g) {
      forall i | 0 <= i < |g| ensures Computed(m, r, i) {
        assert Computed(m, g, i);
        EvalOnPrefix(m, g, r, i);
      }
    }
  }

  /** Eval only looks at a node and its operands, all at or below it. */
  lemma EvalOnPrefix(m: Elementary, g: Graph, r: Graph, i: nat)
    requires WellFormed(g) && WellFormed(r) && i < |g| <= |r|
    requires forall x {:trigger r[x]} :: 0 <= x < |g| ==> r[x] == g[x]
    ensures Eval(m, r, i) == Eval(m, g, i)
  {
  }

  /** The nodes reachable from i through `children`, i included. */
  function Reach(g: Graph, i: nat): (r: set<nat>)
    requires WellFormed(g) && i < |g|
    ensures i in r
    ensures forall x :: x in r ==> x <= i
    decreases i
  {
    var cs := Operands(g[i].op);
    {i}
    + (if |cs| > 0 then Reach(g, cs[0]) else {})
    + (if |cs| > 1 then Reach(g, cs[1]) else {})
  }

  /** A set that contains the children of each of its members. */
  predicate ClosedUnderChildren(g: Graph, s: set<nat>) {
    forall x, c :: x in s && x < |g| && c in Children(g[x].op) ==> c in s
  }

  /** Reach(g, i) is closed under children. */
  lemma {:induction false} ReachClosed(g: Graph, i: nat)
    requires WellFormed(g) && i < |g|
    ensures ClosedUnderChildren(g, Reach(g, i))
  {
    var cs := Operands(g[i].op);
    if |cs| > 0 { ReachClosed(g, cs[0]); }
    if |cs| > 1 { ReachClosed(g, cs[1]); }
  }

  /** ... and it is the least such set containing i. */
  lemma {:induction false} ReachLeast(g: Graph, i: nat, s: set<nat>)
    requires WellFormed(g) && i < |g|
    requires i in s && ClosedUnderChildren(g, s)
    ensures Reach(g, i) <= s
  {
    var cs := Operands(g[i].op);
    if |cs| > 0 { assert cs[0] in Children(g[i].op); ReachLeast(g, cs[0], s); }
    if |cs| > 1 { assert cs[1] in Children(g[i].op); ReachLeast(g, cs[1], s); }
  }

  /** A node outside Reach(g, root) is no child of a node inside it. */
  lemma OutsideIsNoChild(g: Graph, root: nat, x: nat, i: nat)
    requires WellFormed(g) && root < |g| && x < |g|
    requires x in Reach(g, root) && i !in Reach(g, root)
    ensures i !in Children(g[x].op)
  {
    ReachClosed(g, root);
  }

  /** Whatever a child reaches, its parent reaches. */
  lemma ChildReach(g: Graph, i: nat, c: nat)
    requires WellFormed(g) && i < |g| && c in Children(g[i].op)
    ensures c < i && Reach(g, c) <= Reach(g, i)
  {
  }
}
