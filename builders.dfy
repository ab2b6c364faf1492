/** The operation builders: each computes the forward value of a new node,
    records its operands, and appends it to the arena. The node's backward
    rule is fixed by its op (see module Rules). */
module Builders {
  import opened Outcomes
  import opened Calculus
  import opened Nodes

  /** The other operand of a binary operator: a node already in the arena,
      or a plain number that the operator first wraps as a leaf. */
  datatype Operand = Ref(index: nat) | Num(x: real)

  predicate OperandOk(g: Graph, o: Operand) {
    o.Ref? ==> o.index < |g|
  }

  function ValueOf(g: Graph, o: Operand): real
    requires OperandOk(g, o)
  {
    if o.Ref? then g[o.index].data else o.x
  }

  /** g2 keeps every node of g unchanged and appends at least one more. */
  predicate Extends(g: Graph, g2: Graph) {
    |g| < |g2| && forall x {:trigger g2[x]} :: 0 <= x < |g| ==> g2[x] == g[x]
  }

  /** The node an operation returns: the one it appended last. */
  function Out(g: Graph): Node
    requires |g| > 0
  {
    g[|g| - 1]
  }

  /** `Value(x)`: a leaf, with no children and an empty op; its grad starts
      at 0 (module Engine) and its rule changes nothing (Rules.LeafRule). */
  function BuildLeaf(m: Elementary, g: Graph, x: real): (r: Graph)
    requires WellFormed(g)
    ensures WellFormed(r) && Extends(g, r) && |r| == |g| + 1
    ensures Out(r).data == x && Out(r).op == Leaf && Children(Out(r).op) == {}
    ensures Consistent(m, g) ==> Consistent(m, r)
  {
    var n := Node(x, Leaf);
    AppendConsistent(m, g, n);
    Append(g, n)
  }

  /** A node operand as it is, a number operand wrapped as a new leaf. */
  function Wrap(m: Elementary, g: Graph, o: Operand): (r: (Graph, nat))
    requires WellFormed(g) && OperandOk(g, o)
    ensures WellFormed(r.0) && |g| <= |r.0| && r.1 < |r.0|
    ensures forall x {:trigger r.0[x]} :: 0 <= x < |g| ==> r.0[x] == g[x]
    ensures r.0[r.1].data == ValueOf(g, o)
    ensures o.Ref? ==> r.0 == g && r.1 == o.index
    ensures o.Num? ==> |r.0| == |g| + 1 && r.1 == |g| && r.0[r.1].op == Leaf
    ensures Consistent(m, g) ==> Consistent(m, r.0)
  {
    match o
    case Ref(i) => (g, i)
    case Num(x) => (BuildLeaf(m, g, x), |g|)
  }

  /** `self + other`: data x + y, operands (self, other). */
  function BuildAdd(m: Elementary, g: Graph, i: nat, other: Operand): (r: Graph)
    requires WellFormed(g) && i < |g| && OperandOk(g, other)
    ensures WellFormed(r) && Extends(g, r) && |r| == |g| + (if other.Num? then 2 else 1)
    ensures Out(r).op.Add? && Out(r).op.a == i && Out(r).op.b < |r| - 1
    ensures r[Out(r).op.b].data == ValueOf(g, other)
    ensures other.Ref? ==> Out(r).op.b == other.index
    ensures other.Num? ==> Out(r).op.b == |g| && r[|g|] == Node(other.x, Leaf)
    ensures Out(r).data == g[i].data + ValueOf(g, other)
    ensures Consistent(m, g) ==> Consistent(m, r)
  {
    var w := Wrap(m, g, other);
    var n := Node(g[i].data + ValueOf(g, other), Add(i, w.1));
    AppendConsistent(m, w.0, n);
    Append(w.0, n)
  }

  /** `other + self` with a number on the left (`__radd__`): the same node
      as `self + other`, the Value first. */
  function BuildRAdd(m: Elementary, g: Graph, x: real, i: nat): (r: Graph)
    requires WellFormed(g) && i < |g|
    ensures WellFormed(r) && Extends(g, r) && |r| == |g| + 2
    ensures Out(r).op.Add? && Out(r).op.a == i && r[Out(r).op.b].data == x
    ensures Out(r).op.b == |g| && r[|g|] == Node(x, Leaf)
    ensures Out(r).data == x + g[i].data
    ensures Consistent(m, g) ==> Consistent(m, r)
  {
    BuildAdd(m, g, i, Num(x))
  }

  /** `self * other`: data x * y, operands (self, other). */
  function BuildMul(m: Elementary, g: Graph, i: nat, other: Operand): (r: Graph)
    requires WellFormed(g) && i < |g| && OperandOk(g, other)
    ensures WellFormed(r) && Extends(g, r) && |r| == |g| + (if other.Num? then 2 else 1)
    ensures Out(r).op.Mul? && Out(r).op.a == i && Out(r).op.b < |r| - 1
    ensures r[Out(r).op.b].data == ValueOf(g, other)
    ensures other.Ref? ==> Out(r).op.b == other.index
    ensures other.Num? ==> Out(r).op.b == |g| && r[|g|] == Node(other.x, Leaf)
    ensures Out(r).data == Product(g[i].data, ValueOf(g, other))
    ensures Consistent(m, g) ==> Consistent(m, r)
  {
    var w := Wrap(m, g, other);
    var n := Node(Product(g[i].data, ValueOf(g, other)), Mul(i, w.1));
    AppendConsistent(m, w.0, n);
    Append(w.0, n)
  }

  /** `number * self` as the source evidently intends it: the reflected
      multiply `self * number`. */
  function BuildRMul(m: Elementary, g: Graph, x: real, i: nat): (r: Graph)
    requires WellFormed(g) && i < |g|
    ensures WellFormed(r) && Extends(g, r) && |r| == |g| + 2
    ensures Out(r).op.Mul? && Out(r).op.a == i && r[Out(r).op.b].data == x
    ensures Out(r).op.b == |g| && r[|g|] == Node(x, Leaf)
    ensures Out(r).data == Product(g[i].data, x)
    ensures Consistent(m, g) ==> Consistent(m, r)
  {
    BuildMul(m, g, i, Num(x))
  }

  /** `number * self` as the source is written: the reflected hook is
      spelled `__rmull__`, so no `__rmul__` exists and the operator fails. */
  function BuildRMulAsWritten(m: Elementary, g: Graph, x: real, i: nat): (r: Result<Graph>)
    requires WellFormed(g) && i < |g|
    ensures r == Err(TypeError)
  {
    Err(TypeError)
  }

  /** `-self`, built as `self * -1`. */
  function BuildNeg(m: Elementary, g: Graph, i: nat): (r: Graph)
    requires WellFormed(g) && i < |g|
    ensures WellFormed(r) && Extends(g, r) && |r| == |g| + 2
    ensures Out(r).op.Mul? && Out(r).op.a == i && r[Out(r).op.b].data == -1.0
    ensures Out(r).op.b == |g| && r[|g|] == Node(-1.0, Leaf)
    ensures Out(r).data == -g[i].data
    ensures Consistent(m, g) ==> Consistent(m, r)
  {
    BuildMul(m, g, i, Num(-1.0))
  }

  /** `self - other` as evidently intended: `self + (-1 * other)`, with
      `-1 * other` the reflected multiply when other is a node. */
  function BuildSub(m: Elementary, g: Graph, i: nat, other: Operand): (r: Graph)
    requires WellFormed(g) && i < |g| && OperandOk(g, other)
    ensures WellFormed(r) && Extends(g, r)
    ensures Out(r).op.Add? && Out(r).op.a == i
    ensures Out(r).data == g[i].data - ValueOf(g, other)
    ensures other.Ref? ==> |r| == |g| + 3 && Out(r).op == Add(i, |g| + 1)
    ensures other.Ref? ==> r[|g|] == Node(-1.0, Leaf) && r[|g| + 1].op == Mul(other.index, |g|)
    ensures other.Num? ==> r == BuildAdd(m, g, i, Num(-1.0 * other.x))
    ensures Consistent(m, g) ==> Consistent(m, r)
  {
    match other
    case Num(x) => BuildAdd(m, g, i, Num(-1.0 * x))
    case Ref(j) =>
      var g1 := BuildRMul(m, g, -1.0, j);
      assert g1[|g| + 1].op == Mul(j, |g|) && g1[i] == g[i];
      BuildAdd(m, g1, i, Ref(|g| + 1))
  }

  /** `self - other` as the source is written: `-1 * other` has no
      implementation when other is a node, so only a number works. */
  function BuildSubAsWritten(m: Elementary, g: Graph, i: nat, other: Operand): (r: Result<Graph>)
    requires WellFormed(g) && i < |g| && OperandOk(g, other)
    ensures other.Ref? <==> r == Err(TypeError)
    ensures other.Num? ==> r == Ok(BuildSub(m, g, i, other))
  {
    match other
    case Ref(j) => BuildRMulAsWritten(m, g, -1.0, j)
    case Num(x) => Ok(BuildAdd(m, g, i, Num(-1.0 * x)))
  }

  /** `self ** k` for an integer constant k: data x^k, one operand. Zero to
      a negative power raises ZeroDivisionError. */
  function BuildPow(m: Elementary, g: Graph, i: nat, k: int): (r: Result<Graph>)
    requires WellFormed(g) && i < |g|
    ensures r.Err? <==> g[i].data == 0.0 && k < 0
    ensures r.Err? ==> r.error == ZeroDivisionError
    ensures r.Ok? ==> WellFormed(r.value) && Extends(g, r.value) && |r.value| == |g| + 1
    ensures r.Ok? ==> Out(r.value).op == Pow(i, k) && Children(Out(r.value).op) == {i}
    ensures r.Ok? ==> Out(r.value).data == Power(g[i].data, k)
    ensures r.Ok? && Consistent(m, g) ==> Consistent(m, r.value)
  {
    if g[i].data == 0.0 && k < 0 then Err(ZeroDivisionError)
    else
      var n := Node(Power(g[i].data, k), Pow(i, k));
      AppendConsistent(m, g, n);
      Ok(Append(g, n))
  }

  /** `self / other`, built as `self * other ** -1`. With a node divisor the
      `**` makes a node (and fails on zero); with a number divisor Python
      computes the reciprocal first (and fails on zero). */
  function BuildDiv(m: Elementary, g: Graph, i: nat, other: Operand): (r: Result<Graph>)
    requires WellFormed(g) && i < |g| && OperandOk(g, other)
    ensures r.Err? <==> ValueOf(g, other) == 0.0
    ensures r.Err? ==> r.error == ZeroDivisionError
    ensures r.Ok? ==> WellFormed(r.value) && Extends(g, r.value)
    ensures r.Ok? ==> Out(r.value).op.Mul? && Out(r.value).op.a == i
    ensures r.Ok? ==> Out(r.value).data == g[i].data / ValueOf(g, other)
    ensures r.Ok? ==> |r.value| == |g| + 2
    ensures r.Ok? && other.Ref? ==> Out(r.value).op.b == |g|
    ensures r.Ok? && other.Ref? ==> r.value[|g|].op == Pow(other.index, -1)
    ensures r.Ok? && other.Ref? ==> r.value[|g|].data == Power(ValueOf(g, other), -1)
    ensures r.Ok? && other.Num? ==> Out(r.value).op.b == |g| && r.value[|g|] == Node(Power(other.x, -1), Leaf)
    ensures r.Ok? && Consistent(m, g) ==> Consistent(m, r.value)
  {
    var y := ValueOf(g, other);
    if y == 0.0 then Err(ZeroDivisionError)
    else
      var x, p := g[i].data, Power(y, -1);
      match other
      case Num(_) =>
        var r := BuildMul(m, g, i, Num(p));
        TimesReciprocal(x, y, p, Out(r).data);
        Ok(r)
      case Ref(j) =>
        var g1 := BuildPow(m, g, j, -1).value;
        var r := BuildMul(m, g1, i, Ref(|g1| - 1));
        assert g1[i].data == x && Out(g1).data == p;
        TimesReciprocal(x, y, p, Out(r).data);
        Ok(r)
  }

  /** Multiplying by y ** -1 divides by y. */
  lemma TimesReciprocal(x: real, y: real, p: real, d: real)
    requires y != 0.0 && p == Power(y, -1) && d == Product(x, p)
    ensures d == x / y
  {
    ReciprocalQuotient(x, y);
  }

  /** `self.exp()`: data e^x (the host's exp), one operand. */
  function BuildExp(m: Elementary, g: Graph, i: nat): (r: Graph)
    requires WellFormed(g) && i < |g|
    ensures WellFormed(r) && Extends(g, r) && |r| == |g| + 1
    ensures Out(r).op == Exp(i) && Out(r).data == m.exp(g[i].data)
    ensures Consistent(m, g) ==> Consistent(m, r)
  {
    var n := Node(m.exp(g[i].data), Exp(i));
    AppendConsistent(m, g, n);
    Append(g, n)
  }

  /** `self.log()`: data ln x (the host's log), one operand; the math
      library raises a domain error for x <= 0. */
  function BuildLog(m: Elementary, g: Graph, i: nat): (r: Result<Graph>)
    requires WellFormed(g) && i < |g|
    ensures r.Err? <==> g[i].data <= 0.0
    ensures r.Err? ==> r.error == DomainError
    ensures r.Ok? ==> WellFormed(r.value) && Extends(g, r.value) && |r.value| == |g| + 1
    ensures r.Ok? ==> Out(r.value).op == Log(i) && Out(r.value).data == m.log(g[i].data)
    ensures r.Ok? && Consistent(m, g) ==> Consistent(m, r.value)
  {
    if g[i].data <= 0.0 then Err(DomainError)
    else
      var n := Node(m.log(g[i].data), Log(i));
      AppendConsistent(m, g, n);
      Ok(Append(g, n))
  }

  /** `self.tanh()`: data tanh x (the host's tanh), one operand. */
  function BuildTanh(m: Elementary, g: Graph, i: nat): (r: Graph)
    requires WellFormed(g) && i < |g|
    ensures WellFormed(r) && Extends(g, r) && |r| == |g| + 1
    ensures Out(r).op == Tanh(i) && Out(r).data == m.tanh(g[i].data)
    ensures Consistent(m, g) ==> Consistent(m, r)
  {
    var n := Node(m.tanh(g[i].data), Tanh(i));
    AppendConsistent(m, g, n);
    Append(g, n)
  }

  /** The reflected multiply and subtraction by a node fail as written,
      while the intended forms compute x·y and x - y. */
  lemma ReflectedOperatorsFail(m: Elementary, g: Graph, i: nat, j: nat, x: real)
    requires WellFormed(g) && i < |g| && j < |g|
    ensures BuildRMulAsWritten(m, g, x, j).Err? && Out(BuildRMul(m, g, x, j)).data == Product(g[j].data, x)
    ensures BuildSubAsWritten(m, g, i, Ref(j)).Err?
    ensures Out(BuildSub(m, g, i, Ref(j))).data == g[i].data - g[j].data
  {
  }
}
