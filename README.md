# micrograd engine, modelled in Dafny

This project models `engine.py` as a set of Dafny modules. `engine.py` is micrograd's scalar
reverse-mode automatic-differentiation engine:

- a `Value` node holds `data`, `grad`, its `children`, an `op` tag and a `_backward` closure;
- the operator methods (`+`, `*`, `**`, `-`, `/`, unary `-`, `exp`, `log`, `tanh`) build new
  nodes;
- `backward()` sorts the graph below a node with a depth-first `topo_sort`, seeds the node's
  grad with 1.0, and runs every closure in reverse postorder.

Modules:

- `Outcomes`: the exceptions the engine can raise (`ZeroDivisionError`, the math library's
  domain error, `TypeError`) and a `Result` type.
- `Calculus`: exact real arithmetic for `x ** k` with an integer constant `k`, and the power
  rule's local derivative. Dual numbers give an independent account of that derivative.
- `Nodes`: the arena. Every `Value` ever built is a record `Node(data, op)` in a sequence, and
  its index stands for the object's identity. Operands are indices below the node's own
  index, so the graph is acyclic by construction. The operand pair is ordered: `x + x` has
  two operand slots but a one-element `children` set. `Reach` is the set of nodes that
  `children` reaches.
- `Rules`: each node's `_backward` rule as a function of the grads (`ApplyRule`), with the
  local derivatives (`Local`). One lemma per operation (`AddRule`, `MulRule`, `UnaryRule`,
  `LeafRule`) states what the rule adds, and to which grad.
- `Builders`: the forward half of each operator, as functions that append nodes to the arena.
  Their contracts give the data, the operand structure, the error cases, and that every
  node's data stays what its op computes (`Consistent`).
- `TopoSort`: `topo_sort` as a recursive method `Visit`. The `visited` set and the `result`
  list are threaded through the recursion. Iteration over the `children` set is an arbitrary
  choice (`:|`). `Sort` proves the result is a postorder of exactly the nodes reachable from
  the root, with no repetition.
- `Gradients`:
  - `Sweep` is the loop over `reversed(result)`.
  - `Adjoint` is an order-free chain-rule definition of the gradients. Node i keeps its
    starting grad and receives `d(j)/d(i) * Adjoint(j)` from every reachable consumer j.
  - `SweepIsAdjoint` proves the two agree for every postorder.
  - The other properties of `backward` follow from that: the seed, full accumulation before
    each rule runs, the frame, additivity, and reset-and-rerun.
- `Engine`: the mutable side. Class `Arena` holds the nodes and a `grad` sequence. It has:
  - a method per operator, which appends nodes with grad 0;
  - a method per `_backward` closure, doing the same `+=` steps as the source;
  - `Backward`, a loop with invariants over the rules, proved to leave `BackwardGrads`.
- `Examples`: worked graphs. `x + x` gives x.grad 2. `x / y` gives grads `1/y` and `-x/y²`.
  `Value(0.0) ** 0` shows the power-rule finding.

One detail of the string tag: engine.py:20, 34, 57, 67, 77 and 88 pass the operator name as
the third positional argument of `Value`. That argument is `label` (engine.py:7), so `op`
stays `''` for every node (engine.py:13). The `Op` datatype plays the role of the tag, and no
string tag is modelled.

## Model

| member | source | states |
|---|---|---|
| Builders.BuildLeaf | engine.py:7-13 | a leaf appends one node with the given data, op `Leaf` and no children; earlier nodes are unchanged |
| Engine.Arena.Value | engine.py:7-13 | `Value(x)` appends a leaf whose grad starts at 0.0 and returns its index |
| Rules.LeafRule | engine.py:12 | a leaf's backward rule leaves every grad unchanged |
| Nodes.SelfAddHasOneChild | engine.py:9 | `x + x` has two operand slots but a one-element children set |
| Builders.Wrap | engine.py:19 | a number operand becomes a new leaf holding that number; a node operand is used as it is |
| Builders.BuildAdd | engine.py:18-20 | `self + other` appends a node with data x + y and operands (self, other); a number operand is first appended as a fresh leaf holding it, placed right after the existing nodes, and that leaf is the second operand; the arena stays consistent |
| Builders.BuildRAdd | engine.py:29-30 | `number + self` builds `self + number`: a fresh leaf holding the number, then an add of self and that leaf, with data number + x; consistency is preserved |
| Builders.BuildMul | engine.py:32-34 | `self * other` appends a node with data x·y and operands (self, other); a number operand is first appended as a fresh leaf holding it, placed right after the existing nodes, and that leaf is the second operand |
| Builders.BuildRMulAsWritten | engine.py:43-44 | `number * Value` fails with TypeError, because the hook is spelled `__rmull__` |
| Builders.BuildRMul | engine.py:43-44 | corrected: `number * self` builds `self * number`: a fresh leaf holding the number, then a multiply of self and that leaf, with data x·number |
| Builders.BuildNeg | engine.py:52-53 | `-self` is `self * -1`: a fresh leaf holding -1, placed right after the existing nodes, then a multiply of self by it, with data -x |
| Builders.BuildSubAsWritten | engine.py:46-47 | `self - other` fails with TypeError exactly when other is a Value; with a number it is the corrected subtraction |
| Builders.BuildSub | engine.py:46-47 | corrected: `self + (-1 * other)`, with data x - y; with a number other it is self plus the negated number; with a node other it appends a fresh -1 leaf, a multiply of other by that leaf, and an add of self and that product |
| Builders.ReflectedOperatorsFail | engine.py:43-47 | for any two nodes, the as-written reflected multiply and subtraction fail, while the corrected ones compute y·x and x - y |
| Builders.BuildPow | engine.py:55-57 | `self ** k` fails with ZeroDivisionError exactly when x = 0 and k < 0; otherwise it appends a node with data x^k and the single child self |
| Builders.BuildDiv | engine.py:49-50 | `self / other` is `self * other ** -1`; it fails exactly when the divisor's value is 0, and otherwise the data is x / y; with a node divisor, a `Pow(other, -1)` node holding y^-1 comes first; with a number divisor, a fresh leaf holding y^-1 comes first; either way that node, placed right after the existing nodes, is the multiply's second operand |
| Builders.TimesReciprocal | engine.py:50 | multiplying by y ** -1 is dividing by y |
| Builders.BuildExp | engine.py:65-67 | `exp` appends a node with data exp(x) and the single operand self |
| Builders.BuildLog | engine.py:75-77 | `log` fails with a domain error exactly when x <= 0; otherwise it appends a node with data log(x) |
| Builders.BuildTanh | engine.py:86-88 | `tanh` appends a node with data tanh(x) and the single operand self |
| Engine.Arena.Add | engine.py:18-27 | the arena becomes BuildAdd's graph; new nodes get grad 0; the returned index is the output node |
| Engine.Arena.RAdd | engine.py:29-30 | the arena becomes BuildRAdd's graph, with two new nodes at grad 0 |
| Engine.Arena.Mul | engine.py:32-41 | the arena becomes BuildMul's graph; new nodes get grad 0 |
| Engine.Arena.RMul | engine.py:43-44 | the arena becomes the corrected reflected multiply's graph |
| Engine.Arena.Neg | engine.py:52-53 | the arena becomes BuildNeg's graph, with two new nodes at grad 0 |
| Engine.Arena.Sub | engine.py:46-47 | the arena becomes the corrected subtraction's graph |
| Engine.Arena.Pow | engine.py:55-63 | on ZeroDivisionError nothing changes; otherwise one node is appended at grad 0 |
| Engine.Arena.Div | engine.py:49-50 | on ZeroDivisionError nothing changes; otherwise two nodes are appended at grad 0 |
| Engine.Arena.Exp | engine.py:65-73 | one node is appended at grad 0 |
| Engine.Arena.Log | engine.py:75-84 | on the domain error nothing changes; otherwise one node is appended at grad 0 |
| Engine.Arena.Tanh | engine.py:86-95 | one node is appended at grad 0 |
| Nodes.Children | engine.py:9 | the children set of a node is empty exactly for a leaf, and holds only the node's operands |
| Nodes.Eval | engine.py:18-88 | the forward value that a node's op computes from its operands' data (lines 20, 34, 57, 66, 76 and 87): a product is 0 exactly when a factor is; a power of a nonzero base is nonzero; any value to the power 0 is 1 |
| Calculus.Power | engine.py:57 | `x ** k` for an integer k: 1 for k = 0, x for k = 1, nonzero for a nonzero base; a negative power needs a nonzero base |
| Calculus.PowLocal | engine.py:60 | corrected power-rule factor k·x^(k-1): 1 for k = 1, and 0 exactly when k = 0 or the base is 0 with k > 1; PowLocalIsDualTangent proves it is the derivative |
| Rules.Local | engine.py:22-92 | the factors of lines 23-24, 37-38, 60, 70, 80 and 91: one local derivative per operand slot of a node; log's factor 1/x is positive, its operand being positive; AddRule, MulRule and UnaryRule state each op's factors |
| Gradients.Sweep | engine.py:114-115 | running the rules of a list, last element first, keeps one grad per node; SweepIsAdjoint states what a sweep of a postorder computes |
| Gradients.BackwardGrads | engine.py:113-115 | the grads `backward` leaves, one per node: the chain-rule Adjoint from the starting grads with the root overwritten by 1.0; SeedIsOne, UnreachableUnchanged and SweepIsAdjoint state its properties |
| Rules.Accumulate | engine.py:23-24 | the rule's `+=` statements in slot order add, to each grad x, the local derivatives of the slots holding x times out.grad |
| Rules.ApplyRule | engine.py:22-24 | after node j's rule, every grad x has gained d(j)/d(x)·grad[j] |
| Rules.TwoSlotRule | engine.py:22-24 | a two-operand rule is the first `+=`, then the second, which reads the unchanged out.grad |
| Rules.OneSlotRule | engine.py:59-60 | a one-operand rule is a single `+=` into the operand |
| Rules.AddRule | engine.py:22-24 | the add rule adds out.grad to each operand, 2·out.grad when both operands are one node; no other grad changes |
| Rules.MulRule | engine.py:36-38 | the multiply rule adds y·out.grad to the first operand and x·out.grad to the second, 2x·out.grad for `x * x`; no other grad changes |
| Rules.UnaryRule | engine.py:59-60 | `**`, exp, log and tanh add local·out.grad to their operand, with local k·x^(k-1), the stored e^x, 1/x, and 1 - t² for the tanh output t; no other grad changes |
| Rules.PartialOfNonChild | engine.py:22-24 | a rule adds nothing to a node that is not among its children |
| Calculus.PowLocalAsWritten | engine.py:60 | the local factor `other * self.data ** (other - 1)` fails exactly when x = 0 and k < 1 |
| Calculus.PowLocalAsWrittenAgrees | engine.py:57-60 | on every input the forward power accepts, the as-written factor equals the corrected PowLocal, except x = 0, k = 0, where it fails |
| Calculus.PowLocalIsDualTangent | engine.py:57-60 | the power rule's factor is the derivative of x^k, as dual-number arithmetic computes it, for every integer k |
| Calculus.ReciprocalQuotient | engine.py:50 | y ** -1 is 1/y, and x·y^-1 is x / y |
| Engine.Arena.AddBackward | engine.py:22-24 | the `+` closure's two `+=` statements perform that node's rule |
| Engine.Arena.MulBackward | engine.py:36-38 | the `*` closure's two `+=` statements perform that node's rule |
| Engine.Arena.PowBackward | engine.py:59-60 | the `**` closure's `+=` performs that node's rule |
| Engine.Arena.ExpBackward | engine.py:69-70 | the exp closure's `+=` performs that node's rule |
| Engine.Arena.LogBackward | engine.py:79-81 | the log closure's `+=` performs that node's rule |
| Engine.Arena.TanhBackward | engine.py:90-92 | the tanh closure's `+=` performs that node's rule |
| Engine.Arena.RunRule | engine.py:115 | `node._backward()` dispatches on the node's op and performs its rule |
| Nodes.Reach | engine.py:102-108 | the nodes reachable through children contain the start node and lie at or below it |
| Nodes.ReachClosed | engine.py:106-107 | Reach contains the children of each of its members |
| Nodes.ReachLeast | engine.py:106-107 | Reach is contained in every set that holds the start node and is closed under children |
| Nodes.ChildReach | engine.py:106-107 | a child has a lower index, and everything it reaches its parent reaches |
| TopoSort.Visit | engine.py:102-108 | one call marks the node, appends only unvisited reachable nodes, each after its children and without repetition, and appends the node itself last unless it was already visited |
| TopoSort.Sort | engine.py:99-110 | the search from the root lists exactly the reachable nodes, once each, children before parents, with the root last |
| TopoSort.PostorderIsTopological | engine.py:102-108 | in such a list no node has a child later in the list |
| Engine.Reversed | engine.py:114 | `reversed(result)` lists the same nodes, last first |
| Gradients.SweepEquation | engine.py:114-115 | after a topologically ordered sweep, each grad is its start value plus what every rule passed to it, each rule having read its node's final grad |
| Gradients.SweepIsAdjoint | engine.py:113-115 | seeding the root with 1.0 and sweeping any postorder in reverse gives the chain-rule gradient `BackwardGrads` |
| Gradients.FixpointIsAdjoint | engine.py:113-115 | the chain-rule equations have a single solution, so every sweep that satisfies them gives the same grads |
| Gradients.LaterRulesKeep | engine.py:114-115 | the rules that run after node order[t]'s rule leave its grad alone |
| Gradients.FullyAccumulated | engine.py:114-115 | when a node's rule runs, its grad already holds its final value |
| Gradients.SeedIsOne | engine.py:113 | the root's grad ends at exactly 1.0, whatever it held, because no reachable node consumes it |
| Gradients.UnreachableUnchanged | engine.py:104-115 | a node the root does not reach keeps its grad |
| Gradients.AdjointAdditive | engine.py:23-24 | rules only add: the gradients from a sum of starting grads are the sum of the gradients |
| Gradients.StaleGradsAdd | engine.py:113-115 | a second `backward` without resetting gives the clean gradient plus what the stale non-root grads pass down |
| Gradients.ResetAndRerun | engine.py:113-115 | after resetting the reachable grads to 0, `backward` gives the clean gradient on them and leaves the other nodes alone |
| Engine.Arena.Backward | engine.py:97-115 | `backward()` leaves the nodes unchanged, sorts the reachable nodes into a postorder, runs each rule once in reverse postorder, leaves `BackwardGrads` with the root at 1.0, and keeps unreachable grads |
| Examples.SelfAddGradient | engine.py:18-24 | for `y = x + x`, `y.backward()` gives x.grad 2 and y.grad 1, though x is y's only child |
| Examples.QuotientGradient | engine.py:49-63 | for `x / y` with two leaves, `backward` gives x.grad 1/y and y.grad -x/y² |
| Examples.InverseSquare | engine.py:60 | the power rule at k = -1 multiplied by x is -x/y² |
| Examples.ZeroToTheZero | engine.py:55-60 | `Value(0.0) ** 0` builds with data 1; the as-written rule then fails; the corrected one adds 0 |

## Left out

- `nn.py` is not part of this model. It consists of neurons, layers, a loss and a training
  script built on the engine's operators.
- Floating point: `data` and `grad` are exact reals. Rounding, overflow, infinities and NaN
  are not modelled.
- `exp`, `log` and `tanh` are the host math library's. They are a parameter (`Elementary`),
  and no numeric property of them is claimed. The math library's `OverflowError` from `exp`
  on a large argument is not modelled.
- `**` takes only an integer constant. A float exponent, and the complex result Python gives
  for a negative base with one, are not modelled. So is a `Value` as exponent, which the
  source rejects.
- `__repr__`, `label` and the string `op` field are display-only and are not modelled.
- Object identity: nodes are arena indices, so identity hashing in the `visited` set becomes
  index comparison. Python's set iteration order over `children` is an arbitrary choice.
- `topo_sort`'s recursion-depth limit is not modelled; `Visit` recurses without bound.
- The nested `topo_sort` closure shares `visited` and `result` with `backward`. The model
  threads them through as parameters and results.
- The `_backward` closures are replaced by a dispatch on `op` (`Engine.Arena.RunRule`). The
  closures captured the same operands and formulas; the model keeps them in the node record.
- Assigning to `data` or `grad` from outside the engine is not an operation of the model.
  That includes an optimiser's parameter update between passes. `ResetAndRerun` and
  `StaleGradsAdd` cover the grad resets that such code does.
- Engine.Arena.RMul and Engine.Arena.Sub: these model the corrected operators. The
  as-written failures are the functions `BuildRMulAsWritten` and `BuildSubAsWritten`.
- Engine.Arena.PowBackward: this uses the corrected local factor. The as-written factor is
  `PowLocalAsWritten`.

## Findings

| source | as written | input that shows it | evidently intended | confidence | as-written member | corrected member |
|---|---|---|---|---|---|---|
| engine.py:43-44 | the reflected multiply hook is named `__rmull__`, so Python never calls it | `2 * Value(3.0)` raises TypeError | `__rmul__`, giving `Value(3.0) * 2` | high; not executed | Builders.BuildRMulAsWritten | Builders.BuildRMul |
| engine.py:46-47 | `self + (-1 * other)` uses `int * Value`, which has no implementation without `__rmul__` | `Value(1.0) - Value(2.0)` raises TypeError | subtraction of two nodes giving x - y | high; not executed | Builders.BuildSubAsWritten | Builders.BuildSub |
| engine.py:60 | the rule evaluates `self.data ** (other - 1)` before multiplying by `other` | `(Value(0.0) ** 0).backward()` raises ZeroDivisionError in the rule, though the forward pass succeeded | local derivative 0 for k = 0 (the derivative of a constant) | medium; not executed | Calculus.PowLocalAsWritten | Calculus.PowLocal |
