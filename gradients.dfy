/** What `backward` computes. The loop over `reversed(result)` is modelled
    by Sweep; Adjoint is an independent, order-free account of the same
    numbers (each node's grad is its initial value plus what every reachable
    consumer passes back to it through the chain rule), and SweepIsAdjoint
    proves the two agree for every postorder the search can produce. */
module Gradients {
  import opened Calculus
  import opened Nodes
  import opened Rules
  import opened TopoSort

  /** Every listed index names a node of the arena. */
  predicate InArena(g: Graph, q: seq<nat>) {
    forall t :: 0 <= t < |q| ==> q[t] < |g|
  }

  /** Running the rules of q on the grads s, last element first, as the
      loop of engine.py:114-115 does over the reversed result list. */
  function Sweep(g: Graph, q: seq<nat>, s: seq<real>): (r: seq<real>)
    requires WellFormed(g) && InArena(g, q) && |s| == |g|
    ensures |r| == |g|
    decreases |q|
  {
    if q == [] then s else ApplyRule(g, q[0], Sweep(g, q[1..], s))
  }

  /** What the rules of q pass back into node i, with v the grads of the
      nodes of q at the time their rules read them. */
  function SeqInflow(g: Graph, q: seq<nat>, i: nat, v: seq<real>): real
    requires WellFormed(g) && InArena(g, q) && |v| == |g|
    decreases |q|
  {
    if q == [] then 0.0 else Product(Partial(g, q[0], i), v[q[0]]) + SeqInflow(g, q[1..], i, v)
  }

  /** The same, summed over the members of S below hi in index order. */
  function RangeInflow(g: Graph, S: set<nat>, i: nat, hi: nat, v: seq<real>): real
    requires WellFormed(g) && hi <= |g| && |v| == |g|
  {
    if hi == 0 then 0.0
    else (if hi - 1 in S then Product(Partial(g, hi - 1, i), v[hi - 1]) else 0.0) + RangeInflow(g, S, i, hi - 1, v)
  }

  /** The chain rule over the graph reachable from root, with u the grads
      before the sweep: node i keeps u[i] and receives
      d(j)/d(i) · Adjoint(j) from every reachable consumer j. */
  function Adjoint(g: Graph, root: nat, u: seq<real>, i: nat): real
    requires WellFormed(g) && root < |g| && |u| == |g| && i < |g|
    decreases |g| - i, 1, 0
  {
    u[i] + AdjointInflow(g, root, u, i, |g|)
  }

  /** The consumers' contributions to node i from reachable nodes j with
      i < j < hi (a consumer always has the larger index). */
  function AdjointInflow(g: Graph, root: nat, u: seq<real>, i: nat, hi: nat): real
    requires WellFormed(g) && root < |g| && |u| == |g| && i < |g| && hi <= |g|
    decreases |g| - i, 0, hi
  {
    if hi <= i + 1 then 0.0
    else
      (if hi - 1 in Reach(g, root) then Product(Partial(g, hi - 1, i), Adjoint(g, root, u, hi - 1)) else 0.0)
      + AdjointInflow(g, root, u, i, hi - 1)
  }

  /** The grads `backward` leaves, given the grads s it starts from: the
      root is first overwritten with 1.0. */
  function BackwardGrads(g: Graph, root: nat, s: seq<real>): (r: seq<real>)
    requires WellFormed(g) && root < |g| && |s| == |g|
    ensures |r| == |g|
  {
    seq(|g|, i requires 0 <= i < |g| => Adjoint(g, root, s[root := 1.0], i))
  }

  // ---------------------------------------------------------------- the sweep

  /** A node that is no child of any node of q keeps its grad. */
  lemma {:induction false} SweepFrame(g: Graph, q: seq<nat>, s: seq<real>, x: nat)
    requires WellFormed(g) && InArena(g, q) && |s| == |g| && x < |g|
    requires forall t :: 0 <= t < |q| ==> x !in Children(g[q[t]].op)
    ensures Sweep(g, q, s)[x] == s[x]
    decreases |q|
  {
    if q != [] {
      SweepFrame(g, q[1..], s, x);
      PartialOfNonChild(g, q[0], x);
    }
  }

  /** Running a + b is running b, then a. */
  lemma {:induction false} SweepConcat(g: Graph, a: seq<nat>, b: seq<nat>, s: seq<real>)
    requires WellFormed(g) && InArena(g, a) && InArena(g, b) && |s| == |g|
    ensures InArena(g, a + b) && Sweep(g, a + b, s) == Sweep(g, a, Sweep(g, b, s))
    decreases |a|
  {
    if a != [] {
      assert (a + b)[1..] == a[1..] + b;
      SweepConcat(g, a[1..], b, s);
    } else {
      assert a + b == b;
    }
  }

  lemma {:induction false} SeqInflowCongruent(g: Graph, q: seq<nat>, i: nat, v: seq<real>, w: seq<real>)
    requires WellFormed(g) && InArena(g, q) && |v| == |g| && |w| == |g|
    requires forall t :: 0 <= t < |q| ==> v[q[t]] == w[q[t]]
    ensures SeqInflow(g, q, i, v) == SeqInflow(g, q, i, w)
    decreases |q|
  {
    if q != [] { SeqInflowCongruent(g, q[1..], i, v, w); }
  }

  /** After a topologically ordered sweep every grad is its start value plus
      what each rule passed back, each rule having read the final grad of
      its own node (nothing later in the sweep feeds that node). */
  lemma {:induction false} SweepEquation(g: Graph, q: seq<nat>, s: seq<real>, i: nat)
    requires WellFormed(g) && InArena(g, q) && TopoOrdered(g, q) && |s| == |g| && i < |g|
    ensures Sweep(g, q, s)[i] == s[i] + SeqInflow(g, q, i, Sweep(g, q, s))
    decreases |q|
  {
    if q != [] {
      var h := Sweep(g, q[1..], s);
      var r := Sweep(g, q, s);
      assert TopoOrdered(g, q[1..]) by {
        forall p, t | 0 <= p < t < |q[1..]| && q[1..][p] < |g| ensures q[1..][t] !in Children(g[q[1..][p]].op) {
          assert q[1..][p] == q[p + 1] && q[1..][t] == q[t + 1];
        }
      }
      SweepEquation(g, q[1..], s, i);
      forall t | 0 <= t < |q[1..]| ensures r[q[1..][t]] == h[q[1..][t]] {
        assert q[1..][t] == q[t + 1];
        PartialOfNonChild(g, q[0], q[t + 1]);
      }
      SeqInflowCongruent(g, q[1..], i, h, r);
      ChildrenBelow(g);
      PartialOfNonChild(g, q[0], q[0]);
      assert r[q[0]] == h[q[0]];
    }
  }

  // ------------------------------------------------ from positions to indices

  /** RangeInflow sees S only below hi. */
  lemma {:induction false} RangeInflowSameBelow(g: Graph, S: set<nat>, S': set<nat>, i: nat, hi: nat, v: seq<real>)
    requires WellFormed(g) && hi <= |g| && |v| == |g|
    requires forall x :: x < hi ==> (x in S <==> x in S')
    ensures RangeInflow(g, S, i, hi, v) == RangeInflow(g, S', i, hi, v)
  {
    if hi > 0 { RangeInflowSameBelow(g, S, S', i, hi - 1, v); }
  }

  /** Taking one element out of the order takes its term out of the sum. */
  lemma {:induction false} SeqInflowRemove(g: Graph, q: seq<nat>, p: nat, i: nat, v: seq<real>)
    requires WellFormed(g) && InArena(g, q) && |v| == |g| && p < |q|
    ensures InArena(g, Without(q, p))
    ensures SeqInflow(g, q, i, v) == Product(Partial(g, q[p], i), v[q[p]]) + SeqInflow(g, Without(q, p), i, v)
    decreases |q|
  {
    if p > 0 {
      SeqInflowRemove(g, q[1..], p - 1, i, v);
      assert Without(q, p) == [q[0]] + (q[1..][..p - 1] + q[1..][p..]);
    } else {
      assert Without(q, p) == q[1..];
    }
  }

  /** The list q with its element at position p taken out. */
  function Without(q: seq<nat>, p: nat): (r: seq<nat>)
    requires p < |q|
    ensures |r| == |q| - 1
    ensures forall t :: 0 <= t < |r| ==> r[t] == (if t < p then q[t] else q[t + 1])
  {
    q[..p] + q[p + 1..]
  }

  /** Removing the element at p from a list without repetition. */
  lemma RemoveAt(q: seq<nat>, p: nat)
    requires NoDuplicates(q) && p < |q|
    ensures NoDuplicates(Without(q, p))
    ensures Elems(Without(q, p)) == Elems(q) - {q[p]}
  {
    var q' := Without(q, p);
    forall x | x in Elems(q) - {q[p]} ensures x in Elems(q') {
      var t :| 0 <= t < |q| && q[t] == x;
      assert q'[if t < p then t else t - 1] == x;
    }
  }

  /** If all of q lies below hi and q[p] is hi - 1, the rest lies below hi - 1. */
  lemma RemoveTop(q: seq<nat>, p: nat, hi: nat)
    requires NoDuplicates(q) && p < |q| && q[p] + 1 == hi
    requires forall t :: 0 <= t < |q| ==> q[t] < hi
    ensures forall t :: 0 <= t < |q| - 1 ==> Without(q, p)[t] < hi - 1
  {
    RemoveAt(q, p);
    forall t | 0 <= t < |q| - 1 ensures Without(q, p)[t] < hi - 1 {
      var t' := if t < p then t else t + 1;
      assert Without(q, p)[t] == q[t'] && t' != p;
    }
  }

  /** The order of a sum over distinct nodes does not matter. */
  lemma {:induction false} SeqInflowIsRangeInflow(g: Graph, q: seq<nat>, i: nat, hi: nat, v: seq<real>)
    requires WellFormed(g) && hi <= |g| && |v| == |g| && NoDuplicates(q)
    requires forall t :: 0 <= t < |q| ==> q[t] < hi
    ensures InArena(g, q) && SeqInflow(g, q, i, v) == RangeInflow(g, Elems(q), i, hi, v)
    decreases hi, 1
  {
    if hi == 0 {
      if q != [] { assert false; }
    } else if hi - 1 in Elems(q) {
      SeqInflowPeelTop(g, q, i, hi, v);
    } else {
      assert forall t :: 0 <= t < |q| ==> q[t] < hi - 1 by {
        forall t | 0 <= t < |q| ensures q[t] < hi - 1 { assert q[t] in Elems(q); }
      }
      SeqInflowIsRangeInflow(g, q, i, hi - 1, v);
    }
  }

  /** The case where node hi - 1 is in the list: its term comes first in
      the range sum and can be taken out of the list sum. */
  lemma {:induction false} SeqInflowPeelTop(g: Graph, q: seq<nat>, i: nat, hi: nat, v: seq<real>)
    requires WellFormed(g) && 0 < hi <= |g| && |v| == |g| && NoDuplicates(q)
    requires forall t :: 0 <= t < |q| ==> q[t] < hi
    requires hi - 1 in Elems(q)
    ensures InArena(g, q) && SeqInflow(g, q, i, v) == RangeInflow(g, Elems(q), i, hi, v)
    decreases hi, 0
  {
    var p :| 0 <= p < |q| && q[p] == hi - 1;
    var q' := Without(q, p);
    SeqInflowRemove(g, q, p, i, v);
    RemoveAt(q, p);
    RemoveTop(q, p, hi);
    SeqInflowIsRangeInflow(g, q', i, hi - 1, v);
    RangeInflowSameBelow(g, Elems(q'), Elems(q), i, hi - 1, v);
    var top := Product(Partial(g, hi - 1, i), v[hi - 1]);
    var rest := RangeInflow(g, Elems(q), i, hi - 1, v);
    assert SeqInflow(g, q', i, v) == rest;
    assert SeqInflow(g, q, i, v) == top + SeqInflow(g, q', i, v);
    assert RangeInflow(g, Elems(q), i, hi, v) == top + rest;
  }

  // ------------------------------------------------------ uniqueness of Adjoint

  /** Only nodes above i can feed i. */
  lemma {:induction false} RangeInflowBelowIsZero(g: Graph, S: set<nat>, i: nat, hi: nat, v: seq<real>)
    requires WellFormed(g) && hi <= |g| && |v| == |g| && hi <= i + 1
    ensures RangeInflow(g, S, i, hi, v) == 0.0
  {
    if hi > 0 {
      ChildrenBelow(g);
      PartialOfNonChild(g, hi - 1, i);
      RangeInflowBelowIsZero(g, S, i, hi - 1, v);
    }
  }

  lemma {:induction false} RangeInflowIsAdjointInflow(g: Graph, root: nat, u: seq<real>, v: seq<real>, i: nat, hi: nat)
    requires WellFormed(g) && root < |g| && |u| == |g| && |v| == |g| && i < |g| && hi <= |g|
    requires forall j :: i < j < |g| ==> v[j] == Adjoint(g, root, u, j)
    ensures RangeInflow(g, Reach(g, root), i, hi, v) == AdjointInflow(g, root, u, i, hi)
  {
    if hi <= i + 1 {
      RangeInflowBelowIsZero(g, Reach(g, root), i, hi, v);
    } else {
      RangeInflowIsAdjointInflow(g, root, u, v, i, hi - 1);
    }
  }

  /** Any grads that satisfy the chain-rule equations are the Adjoint: the
      equations determine node i from the nodes above it. */
  lemma {:induction false} FixpointIsAdjoint(g: Graph, root: nat, u: seq<real>, v: seq<real>, i: nat)
    requires WellFormed(g) && root < |g| && |u| == |g| && |v| == |g| && i < |g|
    requires forall x :: 0 <= x < |g| ==> v[x] == u[x] + RangeInflow(g, Reach(g, root), x, |g|, v)
    ensures v[i] == Adjoint(g, root, u, i)
    decreases |g| - i
  {
    forall j | i < j < |g| ensures v[j] == Adjoint(g, root, u, j) {
      FixpointIsAdjoint(g, root, u, v, j);
    }
    RangeInflowIsAdjointInflow(g, root, u, v, i, |g|);
  }

  // -------------------------------------------------------------- main theorem

  /** Sweeping any postorder of the graph below root, after setting the
      root's grad to 1.0, leaves exactly the Adjoint grads. */
  lemma SweepIsAdjoint(g: Graph, root: nat, order: seq<nat>, s: seq<real>)
    requires WellFormed(g) && root < |g| && |s| == |g| && IsPostorder(g, root, order)
    ensures InArena(g, order)
    ensures Sweep(g, order, s[root := 1.0]) == BackwardGrads(g, root, s)
  {
    var u := s[root := 1.0];
    assert InArena(g, order) by {
      forall t | 0 <= t < |order| ensures order[t] < |g| {
        assert order[t] in Reach(g, root);
      }
    }
    PostorderIsTopological(g, order);
    var v := Sweep(g, order, u);
    forall x | 0 <= x < |g| ensures v[x] == u[x] + RangeInflow(g, Reach(g, root), x, |g|, v) {
      SweepEquation(g, order, u, x);
      SeqInflowIsRangeInflow(g, order, x, |g|, v);
    }
    forall i | 0 <= i < |g| ensures v[i] == BackwardGrads(g, root, s)[i] {
      FixpointIsAdjoint(g, root, u, v, i);
    }
  }

  // ------------------------------------------------------------ consequences

  /** In a postorder no node at or before position t consumes order[t]. */
  lemma NoEarlierConsumer(g: Graph, order: seq<nat>, t: nat)
    requires NoDuplicates(order) && ChildrenFirst(g, order) && InArena(g, order) && t < |order|
    ensures forall p :: 0 <= p <= t ==> order[t] !in Children(g[order[p]].op)
  {
  }

  /** The rules that run after order[t]'s leave its grad as it was. */
  lemma LaterRulesKeep(g: Graph, order: seq<nat>, s: seq<real>, t: nat)
    requires WellFormed(g) && InArena(g, order) && |s| == |g| && t < |order|
    requires NoDuplicates(order) && ChildrenFirst(g, order)
    ensures Sweep(g, order, s)[order[t]] == Sweep(g, order[t + 1..], s)[order[t]]
  {
    var a, b := order[..t + 1], order[t + 1..];
    assert order == a + b;
    NoEarlierConsumer(g, order, t);
    assert forall p :: 0 <= p < |a| ==> a[p] == order[p];
    SweepConcat(g, a, b, s);
    SweepFrame(g, a, Sweep(g, b, s), order[t]);
  }

  /** The rule of order[t] runs on a grad that no later rule changes: at that
      moment its grad already holds its final value. */
  lemma FullyAccumulated(g: Graph, root: nat, order: seq<nat>, s: seq<real>, t: nat)
    requires WellFormed(g) && root < |g| && |s| == |g| && IsPostorder(g, root, order) && t < |order|
    ensures InArena(g, order) && order[t] < |g|
    ensures Sweep(g, order[t + 1..], s[root := 1.0])[order[t]] == BackwardGrads(g, root, s)[order[t]]
  {
    SweepIsAdjoint(g, root, order, s);
    LaterRulesKeep(g, order, s[root := 1.0], t);
  }

  lemma {:induction false} RootInflowIsZero(g: Graph, root: nat, u: seq<real>, hi: nat)
    requires WellFormed(g) && root < |g| && |u| == |g| && hi <= |g|
    ensures AdjointInflow(g, root, u, root, hi) == 0.0
  {
    if hi > root + 1 {
      assert hi - 1 !in Reach(g, root);
      RootInflowIsZero(g, root, u, hi - 1);
    }
  }

  /** The seed: no reachable node consumes the root, so it keeps the 1.0
      `backward` writes into it. */
  lemma SeedIsOne(g: Graph, root: nat, s: seq<real>)
    requires WellFormed(g) && root < |g| && |s| == |g|
    ensures BackwardGrads(g, root, s)[root] == 1.0
  {
    RootInflowIsZero(g, root, s[root := 1.0], |g|);
  }

  lemma {:induction false} UnreachableInflowIsZero(g: Graph, root: nat, u: seq<real>, i: nat, hi: nat)
    requires WellFormed(g) && root < |g| && |u| == |g| && i < |g| && hi <= |g|
    requires i !in Reach(g, root)
    ensures AdjointInflow(g, root, u, i, hi) == 0.0
  {
    if hi > i + 1 {
      UnreachableInflowIsZero(g, root, u, i, hi - 1);
      if hi - 1 in Reach(g, root) {
        OutsideIsNoChild(g, root, hi - 1, i);
        PartialOfNonChild(g, hi - 1, i);
      }
    }
  }

  /** A node the root does not reach keeps the grad it had. */
  lemma UnreachableUnchanged(g: Graph, root: nat, s: seq<real>, i: nat)
    requires WellFormed(g) && root < |g| && |s| == |g| && i < |g| && i !in Reach(g, root)
    ensures BackwardGrads(g, root, s)[i] == s[i]
  {
    UnreachableInflowIsZero(g, root, s[root := 1.0], i, |g|);
  }

  /** Grads added elementwise. */
  function Plus(u: seq<real>, v: seq<real>): (w: seq<real>)
    requires |u| == |v|
    ensures |w| == |u| && forall x :: 0 <= x < |u| ==> w[x] == u[x] + v[x]
  {
    seq(|u|, x requires 0 <= x < |u| => u[x] + v[x])
  }

  lemma ProductAdds(p: real, a: real, b: real)
    ensures Product(p, a + b) == Product(p, a) + Product(p, b)
  {
  }

  lemma {:induction false} InflowAdditive(g: Graph, root: nat, u: seq<real>, v: seq<real>, i: nat, hi: nat)
    requires WellFormed(g) && root < |g| && |u| == |g| && |v| == |g| && i < |g| && hi <= |g|
    requires forall j :: i < j < |g| ==> Adjoint(g, root, Plus(u, v), j) == Adjoint(g, root, u, j) + Adjoint(g, root, v, j)
    ensures AdjointInflow(g, root, Plus(u, v), i, hi) == AdjointInflow(g, root, u, i, hi) + AdjointInflow(g, root, v, i, hi)
  {
    if hi > i + 1 {
      InflowAdditive(g, root, u, v, i, hi - 1);
      ProductAdds(Partial(g, hi - 1, i), Adjoint(g, root, u, hi - 1), Adjoint(g, root, v, hi - 1));
    }
  }

  /** Accumulation is additive: the grads from the sum of two starting
      vectors are the sums of the grads from each. */
  lemma {:induction false} AdjointAdditive(g: Graph, root: nat, u: seq<real>, v: seq<real>, i: nat)
    requires WellFormed(g) && root < |g| && |u| == |g| && |v| == |g| && i < |g|
    ensures Adjoint(g, root, Plus(u, v), i) == Adjoint(g, root, u, i) + Adjoint(g, root, v, i)
    decreases |g| - i
  {
    forall j | i < j < |g| ensures Adjoint(g, root, Plus(u, v), j) == Adjoint(g, root, u, j) + Adjoint(g, root, v, j) {
      AdjointAdditive(g, root, u, v, j);
    }
    InflowAdditive(g, root, u, v, i, |g|);
  }

  function Zeros(n: nat): (z: seq<real>)
    ensures |z| == n && forall x :: 0 <= x < n ==> z[x] == 0.0
  {
    seq(n, _ => 0.0)
  }

  /** A second `backward` without resetting: the result is the clean
      gradient plus whatever the stale grads (root excluded, since it is
      overwritten) pass down through the graph. */
  lemma StaleGradsAdd(g: Graph, root: nat, s: seq<real>, i: nat)
    requires WellFormed(g) && root < |g| && |s| == |g| && i < |g|
    ensures BackwardGrads(g, root, s)[i] == BackwardGrads(g, root, Zeros(|g|))[i] + Adjoint(g, root, s[root := 0.0], i)
  {
    assert s[root := 1.0] == Plus(Zeros(|g|)[root := 1.0], s[root := 0.0]);
    AdjointAdditive(g, root, Zeros(|g|)[root := 1.0], s[root := 0.0], i);
  }

  lemma {:induction false} InflowOnReachable(g: Graph, root: nat, u: seq<real>, v: seq<real>, i: nat, hi: nat)
    requires WellFormed(g) && root < |g| && |u| == |g| && |v| == |g| && i < |g| && hi <= |g|
    requires forall j :: i < j < |g| && j in Reach(g, root) ==> Adjoint(g, root, u, j) == Adjoint(g, root, v, j)
    ensures AdjointInflow(g, root, u, i, hi) == AdjointInflow(g, root, v, i, hi)
  {
    if hi > i + 1 {
      InflowOnReachable(g, root, u, v, i, hi - 1);
    }
  }

  /** Reachable grads depend only on the reachable part of the start grads. */
  lemma {:induction false} AdjointOnReachable(g: Graph, root: nat, u: seq<real>, v: seq<real>, i: nat)
    requires WellFormed(g) && root < |g| && |u| == |g| && |v| == |g| && i < |g|
    requires forall x :: 0 <= x < |g| && x in Reach(g, root) ==> u[x] == v[x]
    ensures Adjoint(g, root, u, i) - u[i] == Adjoint(g, root, v, i) - v[i]
    decreases |g| - i
  {
    forall j | i < j < |g| && j in Reach(g, root) ensures Adjoint(g, root, u, j) == Adjoint(g, root, v, j) {
      AdjointOnReachable(g, root, u, v, j);
    }
    InflowOnReachable(g, root, u, v, i, |g|);
  }

  /** Resetting the grads of the reachable nodes to 0 and running `backward`
      again gives the clean gradient on them and leaves the others alone,
      whatever grads earlier runs left behind. */
  lemma ResetAndRerun(g: Graph, root: nat, s: seq<real>, i: nat)
    requires WellFormed(g) && root < |g| && |s| == |g| && i < |g|
    requires forall x :: 0 <= x < |g| && x in Reach(g, root) ==> s[x] == 0.0
    ensures i in Reach(g, root) ==> BackwardGrads(g, root, s)[i] == BackwardGrads(g, root, Zeros(|g|))[i]
    ensures i !in Reach(g, root) ==> BackwardGrads(g, root, s)[i] == s[i]
  {
    AdjointOnReachable(g, root, s[root := 1.0], Zeros(|g|)[root := 1.0], i);
    if i !in Reach(g, root) { UnreachableUnchanged(g, root, s, i); }
  }
}
