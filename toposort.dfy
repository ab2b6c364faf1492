/** The depth-first `topo_sort` inside `backward`: a visited set and a
    result list, threaded through the recursion the way the nested Python
    function shares them, produce a postorder of the nodes reachable from
    the root. */
module TopoSort {
  import opened Nodes

  function Elems(s: seq<nat>): set<nat> {
    set x | x in s
  }

  predicate NoDuplicates(s: seq<nat>) {
    forall p, q :: 0 <= p < q < |s| ==> s[p] != s[q]
  }

  /** Every listed node's children are listed before it. */
  predicate ChildrenFirst(g: Graph, s: seq<nat>) {
    forall p, c :: 0 <= p < |s| && s[p] < |g| && c in Children(g[s[p]].op) ==> c in s[..p]
  }

  /** A postorder of the DAG below root: every reachable node exactly once,
      each after all of its children, the root last. */
  predicate IsPostorder(g: Graph, root: nat, s: seq<nat>)
    requires WellFormed(g) && root < |g|
  {
    NoDuplicates(s) && Elems(s) == Reach(g, root) && ChildrenFirst(g, s)
    && |s| > 0 && s[|s| - 1] == root
  }

  /** What holds between calls of the search: the result lists visited
      nodes without repetition, children first. */
  predicate DfsState(g: Graph, visited: set<nat>, result: seq<nat>) {
    (forall x :: x in visited ==> x < |g|)
    && Elems(result) <= visited && NoDuplicates(result) && ChildrenFirst(g, result)
  }

  /** The nodes visited but not yet appended are those whose call is still
      running, ancestors of the node about to be visited; all lie above n. */
  predicate OnStackAbove(visited: set<nat>, result: seq<nat>, n: nat) {
    forall x :: x in visited && x !in Elems(result) ==> x > n
  }

  lemma AppendFresh(g: Graph, result: seq<nat>, n: nat)
    requires NoDuplicates(result) && ChildrenFirst(g, result) && n !in Elems(result)
    requires n < |g| && Children(g[n].op) <= Elems(result)
    ensures NoDuplicates(result + [n]) && ChildrenFirst(g, result + [n])
    ensures Elems(result + [n]) == Elems(result) + {n}
  {
    var r := result + [n];
    assert r[..|result|] == result;
    forall p, c | 0 <= p < |r| && r[p] < |g| && c in Children(g[r[p]].op) ensures c in r[..p] {
      if p < |result| {
        assert r[..p] == result[..p];
      } else {
        assert c in Elems(result);
      }
    }
  }

  /** A result only ever grows at its end. */
  predicate IsPrefix(a: seq<nat>, b: seq<nat>) {
    |a| <= |b| && b[..|a|] == a
  }

  lemma PrefixTransitive(a: seq<nat>, b: seq<nat>, c: seq<nat>)
    requires IsPrefix(a, b) && IsPrefix(b, c)
    ensures IsPrefix(a, c) && Elems(a) <= Elems(b) <= Elems(c)
  {
    assert c[..|a|] == c[..|b|][..|a|];
    forall x | x in Elems(b) ensures x in Elems(c) {
      var p :| 0 <= p < |b| && b[p] == x;
      assert c[p] == x;
    }
    forall x | x in Elems(a) ensures x in Elems(b) {
      var p :| 0 <= p < |a| && a[p] == x;
      assert b[p] == x;
    }
  }

  /** Between the children of an unvisited node n: n is marked, every child
      no longer pending is listed, and only nodes below n were appended. */
  predicate Scanning(g: Graph, n: nat, visited: set<nat>, result: seq<nat>,
                     pending: set<nat>, visited': set<nat>, result': seq<nat>)
    requires WellFormed(g) && n < |g|
  {
    pending <= Children(g[n].op)
    && DfsState(g, visited', result') && IsPrefix(result, result')
    && visited' == visited + {n} + Elems(result')
    && Elems(result') - Elems(result) <= Reach(g, n) - {n}
    && (Elems(result') - Elems(result)) !! visited
    && (forall c :: c in Children(g[n].op) && c !in pending ==> c in Elems(result'))
    && (forall x :: x in visited' && x !in Elems(result') ==> x >= n)
    && n !in Elems(result')
  }

  /** Visiting one more child keeps Scanning true. */
  lemma ScanStep(g: Graph, n: nat, visited: set<nat>, result: seq<nat>, pending: set<nat>,
                 c: nat, v0: set<nat>, r0: seq<nat>, v1: set<nat>, r1: seq<nat>)
    requires WellFormed(g) && n < |g| && c in pending
    requires Scanning(g, n, visited, result, pending, v0, r0)
    requires DfsState(g, v1, r1) && IsPrefix(r0, r1) && c in Elems(r1)
    requires v1 == v0 + Elems(r1) && Elems(r1) - Elems(r0) <= Reach(g, c)
    requires (Elems(r1) - Elems(r0)) !! v0
    ensures Scanning(g, n, visited, result, pending - {c}, v1, r1)
  {
    ChildReach(g, n, c);
    PrefixTransitive(result, r0, r1);
  }

  /** Marking an unvisited node starts Scanning with all children pending. */
  lemma ScanStart(g: Graph, n: nat, visited: set<nat>, result: seq<nat>)
    requires WellFormed(g) && n < |g| && n !in visited
    requires DfsState(g, visited, result) && OnStackAbove(visited, result, n)
    ensures Scanning(g, n, visited, result, Children(g[n].op), visited + {n}, result)
  {
  }

  /** While Scanning, the stack lies above each child, so the child may be visited. */
  lemma ScanCanVisit(g: Graph, n: nat, visited: set<nat>, result: seq<nat>, pending: set<nat>,
                     c: nat, v0: set<nat>, r0: seq<nat>)
    requires WellFormed(g) && n < |g| && c in pending
    requires Scanning(g, n, visited, result, pending, v0, r0)
    ensures c < |g| && DfsState(g, v0, r0) && OnStackAbove(v0, r0, c)
  {
    ChildReach(g, n, c);
  }

  /** With no child pending, appending n completes the call. */
  lemma ScanDone(g: Graph, n: nat, visited: set<nat>, result: seq<nat>, v0: set<nat>, r0: seq<nat>)
    requires WellFormed(g) && n < |g| && n !in visited
    requires Scanning(g, n, visited, result, {}, v0, r0)
    ensures DfsState(g, v0, r0 + [n]) && IsPrefix(result, r0 + [n])
    ensures n in Elems(r0 + [n]) && v0 == visited + Elems(r0 + [n])
    ensures Elems(r0 + [n]) - Elems(result) <= Reach(g, n)
    ensures (Elems(r0 + [n]) - Elems(result)) !! visited
  {
    AppendFresh(g, r0, n);
    assert IsPrefix(r0, r0 + [n]);
    PrefixTransitive(result, r0, r0 + [n]);
  }

  /** `topo_sort(node)`: if node is unvisited, mark it, visit each child in
      whatever order set iteration yields, then append it. */
  method Visit(g: Graph, n: nat, visited: set<nat>, result: seq<nat>)
    returns (visited': set<nat>, result': seq<nat>)
    requires WellFormed(g) && n < |g|
    requires DfsState(g, visited, result) && OnStackAbove(visited, result, n)
    ensures DfsState(g, visited', result') && IsPrefix(result, result')
    ensures n in Elems(result')
    ensures visited' == visited + Elems(result')
    ensures Elems(result') - Elems(result) <= Reach(g, n)
    ensures (Elems(result') - Elems(result)) !! visited
    ensures n in visited ==> visited' == visited && result' == result
    ensures n !in visited ==> result'[|result'| - 1] == n
    decreases n
  {
    if n in visited {
      assert n in Elems(result);
      return visited, result;
    }
    visited', result' := visited + {n}, result;
    var pending := Children(g[n].op);
    ScanStart(g, n, visited, result);
    while pending != {}
      invariant Scanning(g, n, visited, result, pending, visited', result')
      decreases pending
    {
      var c :| c in pending;
      ScanCanVisit(g, n, visited, result, pending, c, visited', result');
      var v1, r1 := Visit(g, c, visited', result');
      ScanStep(g, n, visited, result, pending, c, visited', result', v1, r1);
      pending := pending - {c};
      visited', result' := v1, r1;
    }
    ScanDone(g, n, visited, result, visited', result');
    result' := result' + [n];
  }

  /** The whole search from the root, from an empty visited set and result. */
  method Sort(g: Graph, root: nat) returns (order: seq<nat>)
    requires WellFormed(g) && root < |g|
    ensures IsPostorder(g, root, order)
  {
    var visited;
    visited, order := Visit(g, root, {}, []);
    assert ClosedUnderChildren(g, Elems(order)) by {
      forall x, c | x in Elems(order) && x < |g| && c in Children(g[x].op) ensures c in Elems(order) {
        var p :| 0 <= p < |order| && order[p] == x;
        assert c in order[..p];
      }
    }
    ReachLeast(g, root, Elems(order));
  }

  /** No listed node has a child later in the list. */
  predicate TopoOrdered(g: Graph, s: seq<nat>) {
    forall p, q :: 0 <= p < q < |s| && s[p] < |g| ==> s[q] !in Children(g[s[p]].op)
  }

  /** A postorder without repetition is topologically ordered: a child of
      s[p] sits before p, so it cannot also sit after it. */
  lemma PostorderIsTopological(g: Graph, s: seq<nat>)
    requires NoDuplicates(s) && ChildrenFirst(g, s)
    ensures TopoOrdered(g, s)
  {
  }
}
