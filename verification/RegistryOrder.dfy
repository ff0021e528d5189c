/** The upload order of `registry_order.py`: a depth-first topological sort that names a cycle. */
module RegistryOrder {
  import opened Esp

  /** component -> the components it depends on */
  type Graph = map<string, set<string>>

  datatype Failure =
    | Cycle(path: seq<string>)
    | Missing(node: string, dep: string)

  // --------------------------------------------------------------------- name order

  /** Python's order on strings. */
  predicate Less(a: string, b: string) {
    b != "" && (a == "" || a[0] < b[0] || (a[0] == b[0] && Less(a[1..], b[1..])))
  }

  lemma {:induction false} LessTotal(a: string, b: string)
    ensures a == b || Less(a, b) || Less(b, a)
  {
    if a != "" && b != "" && a[0] == b[0] {
      LessTotal(a[1..], b[1..]);
      assert a == [a[0]] + a[1..] && b == [b[0]] + b[1..];
    }
  }

  lemma {:induction false} LessTransitive(a: string, b: string, c: string)
    requires Less(a, b) && Less(b, c)
    ensures Less(a, c)
  {
    if a != "" && a[0] == b[0] == c[0] { LessTransitive(a[1..], b[1..], c[1..]); }
  }

  ghost predicate Ascending(q: seq<string>) {
    forall i, j :: 0 <= i < j < |q| ==> Less(q[i], q[j])
  }

  /** Python's `sorted` on a set of names. */
  method Sorted(s: set<string>) returns (q: seq<string>)
    ensures Ascending(q) && forall x :: x in q <==> x in s
  {
    q := [];
    var rest := s;
    while rest != {}
      invariant Ascending(q) && rest <= s && forall x :: x in q <==> x in s - rest
      decreases rest
    {
      var x :| x in rest;
      q := Insert(q, x);
      rest := rest - {x};
    }
  }

  method Insert(q: seq<string>, x: string) returns (r: seq<string>)
    requires Ascending(q) && x !in q
    ensures Ascending(r) && forall y :: y in r <==> y == x || y in q
  {
    var i := 0;
    while i < |q| && Less(q[i], x)
      invariant i <= |q| && forall j :: 0 <= j < i ==> Less(q[j], x)
    {
      i := i + 1;
    }
    if i < |q| {
      LessTotal(q[i], x);
      forall j | i < j < |q| ensures Less(x, q[j]) { LessTransitive(x, q[i], q[j]); }
    }
    r := q[..i] + [x] + q[i..];
  }

  // ------------------------------------------------------------------ paths and cycles

  predicate Edge(g: Graph, a: string, b: string) {
    a in g && b in g[a]
  }

  predicate IsPath(g: Graph, p: seq<string>) {
    forall i :: 0 <= i < |p| - 1 ==> Edge(g, p[i], p[i + 1])
  }

  /** A path of real edges back to its start. */
  predicate IsCycle(g: Graph, p: seq<string>) {
    |p| >= 2 && p[0] == p[|p| - 1] && IsPath(g, p)
  }

  ghost predicate Acyclic(g: Graph) {
    forall p :: !IsCycle(g, p)
  }

  ghost predicate Closed(g: Graph) {
    forall a, b :: Edge(g, a, b) ==> b in g
  }

  predicate Genuine(g: Graph, f: Failure) {
    match f
    case Cycle(path) => IsCycle(g, path)
    case Missing(node, dep) => Edge(g, node, dep) && dep !in g
  }

  predicate NoDuplicates(q: seq<string>) {
    forall i, j :: 0 <= i < j < |q| ==> q[i] != q[j]
  }

  /** Every component comes after the ones it depends on. */
  ghost predicate DepsFirst(g: Graph, q: seq<string>) {
    forall i, d :: 0 <= i < |q| && Edge(g, q[i], d) ==> d in q[..i]
  }

  ghost predicate UploadOrder(g: Graph, q: seq<string>) {
    NoDuplicates(q) && DepsFirst(g, q) && forall x :: x in q <==> x in g
  }

  function Position(q: seq<string>, x: string): (i: nat)
    requires x in q
    ensures i < |q| && q[i] == x
  {
    if q[0] == x then 0 else 1 + Position(q[1..], x)
  }

  lemma {:induction false} EdgeGoesBack(g: Graph, q: seq<string>, a: string, b: string)
    requires UploadOrder(g, q) && Edge(g, a, b)
    ensures b in q && a in q && Position(q, b) < Position(q, a)
  {
    var i := Position(q, a);
    assert b in q[..i];
    var j :| 0 <= j < i && q[j] == b;
    assert Position(q, b) == j;
  }

  lemma {:induction false} PathGoesBack(g: Graph, q: seq<string>, p: seq<string>, k: nat)
    requires UploadOrder(g, q) && IsPath(g, p) && 0 < k < |p|
    ensures p[0] in q && p[k] in q && Position(q, p[k]) < Position(q, p[0])
    decreases k
  {
    assert Edge(g, p[k - 1], p[k]);
    EdgeGoesBack(g, q, p[k - 1], p[k]);
    if k > 1 { PathGoesBack(g, q, p, k - 1); }
  }

  /** An upload order exists only for a closed graph without cycles. */
  lemma {:induction false} OrderedMeansAcyclic(g: Graph, q: seq<string>)
    requires UploadOrder(g, q)
    ensures Acyclic(g) && Closed(g)
  {
    forall p ensures !IsCycle(g, p) {
      if IsCycle(g, p) { PathGoesBack(g, q, p, |p| - 1); }
    }
    forall a, b | Edge(g, a, b) ensures b in g {
      EdgeGoesBack(g, q, a, b);
    }
  }

  // ------------------------------------------------------------------- the sort itself

  class Sorter {
    const graph: Graph
    var order: seq<string>
    var done: set<string>

    ghost predicate Valid()
      reads this
    {
      && (forall x :: x in order <==> x in done)
      && (forall x :: x in done ==> x in graph)
      && NoDuplicates(order) && DepsFirst(graph, order)
    }

    constructor (g: Graph)
      ensures graph == g && order == [] && done == {} && Valid()
    {
      graph, order, done := g, [], {};
    }

    /** Depth first. `stack` is the path of edges that led to `node`. */
    method Visit(node: string, stack: seq<string>) returns (failure: Option<Failure>)
      requires Valid() && node in graph && IsPath(graph, stack + [node])
      requires NoDuplicates(stack) && forall x :: x in stack ==> x in graph
      modifies this`order, this`done
      ensures Valid() && old(done) <= done
      ensures forall x :: x in stack && x in done ==> x in old(done)
      ensures failure.None? ==> node in done
      ensures failure.Some? ==> Genuine(graph, failure.value)
      decreases graph.Keys - (set x | x in stack)
    {
      if node in done { return None; }
      if node in stack {
        var i := Position(stack, node);
        var path := stack[i..] + [node];
        NamedCycle(graph, stack, node, i);
        return Some(Cycle(path));
      }
      var deps := Sorted(graph[node]);
      var k := 0;
      while k < |deps|
        invariant k <= |deps| && Valid() && old(done) <= done
        invariant forall x :: (x in stack || x == node) && x in done ==> x in old(done)
        invariant forall j :: 0 <= j < k ==> deps[j] in done
      {
        var dep := deps[k];
        if dep !in graph { return Some(Missing(node, dep)); }
        Deeper(graph, stack, node, dep);
        failure := Visit(dep, stack + [node]);
        if failure.Some? { return failure; }
        k := k + 1;
      }
      Appended(graph, order, done, node);
      done := done + {node};
      order := order + [node];
      return None;
    }

    /** The whole order, or the reason there is none. */
    method TopoOrder() returns (failure: Option<Failure>)
      requires order == [] && done == {}
      modifies this`order, this`done
      ensures failure.None? <==> Closed(graph) && Acyclic(graph)
      ensures failure.None? ==> UploadOrder(graph, order)
      ensures failure.Some? ==> Genuine(graph, failure.value)
    {
      var nodes := Sorted(graph.Keys);
      var k := 0;
      while k < |nodes|
        invariant k <= |nodes| && Valid()
        invariant forall j :: 0 <= j < k ==> nodes[j] in done
      {
        failure := Visit(nodes[k], []);
        if failure.Some? {
          return;
        }
        k := k + 1;
      }
      OrderedMeansAcyclic(graph, order);
      return None;
    }
  }

  lemma {:induction false} NamedCycle(g: Graph, stack: seq<string>, node: string, i: nat)
    requires IsPath(g, stack + [node]) && i < |stack| && stack[i] == node
    ensures IsCycle(g, stack[i..] + [node])
  {
    var p, c := stack + [node], stack[i..] + [node];
    forall j | 0 <= j < |c| - 1 ensures Edge(g, c[j], c[j + 1]) {
      assert c[j] == p[i + j] && c[j + 1] == p[i + j + 1];
    }
  }

  lemma {:induction false} Deeper(g: Graph, stack: seq<string>, node: string, dep: string)
    requires IsPath(g, stack + [node]) && Edge(g, node, dep) && node !in stack && node in g
    requires NoDuplicates(stack) && forall x :: x in stack ==> x in g
    ensures IsPath(g, stack + [node] + [dep]) && NoDuplicates(stack + [node])
    ensures forall x :: x in stack + [node] <==> x in stack || x == node
    ensures g.Keys - (set x | x in stack + [node]) < g.Keys - (set x | x in stack)
  {
    var p, c := stack + [node], stack + [node] + [dep];
    forall j | 0 <= j < |c| - 1 ensures Edge(g, c[j], c[j + 1]) {
      if j < |p| - 1 { assert c[j] == p[j] && c[j + 1] == p[j + 1]; }
    }
    assert node in g.Keys - (set x | x in stack);
    assert node !in g.Keys - (set x | x in stack + [node]);
  }

  lemma {:induction false} Appended(g: Graph, order: seq<string>, done: set<string>, node: string)
    requires forall x :: x in order <==> x in done
    requires NoDuplicates(order) && DepsFirst(g, order) && node !in done && node in g
    requires forall d :: d in g[node] ==> d in done
    ensures NoDuplicates(order + [node]) && DepsFirst(g, order + [node])
    ensures forall x :: x in order + [node] <==> x in done + {node}
  {
    var q := order + [node];
    forall i, d | 0 <= i < |q| && Edge(g, q[i], d) ensures d in q[..i] {
      if i < |order| {
        assert q[..i] == order[..i];
      } else {
        assert q[..i] == order;
      }
    }
  }
}
