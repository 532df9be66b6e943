/**
 * The directed graph of `src/graph.rs`: vertices `0 .. n-1`, where `edges[i]`
 * lists the out-neighbours of vertex `i` (repetitions allowed), and the
 * `is_tree` walk over it.
 *
 * `is_tree` visits the graph breadth first from vertex 0, restarting from the
 * next unvisited vertex whenever the queue runs dry, and answers `false` as
 * soon as it takes a vertex off the queue that it has visited before. Its
 * contract here: a `true` answer means every vertex has at most one parent
 * and, in a non-empty graph, vertex 0 has none and there are fewer edges than
 * vertices; conversely, a
 * graph in which every vertex has at most one parent and every edge leads to a
 * larger index gets `true`. The panic on a vanished unvisited vertex cannot
 * happen.
 */
module Graph {
  import opened Common

  /** `EdgeListGraph`: the vertex list and, per vertex, its out-edges. */
  datatype EdgeListGraph = EdgeListGraph(vertices: seq<nat>, edges: seq<seq<nat>>)

  /** `(0..n).collect()`. */
  function Range(n: nat): (r: seq<nat>)
    ensures |r| == n && forall i :: 0 <= i < n ==> r[i] == i
  {
    seq(n, i => i)
  }

  /** Every edge names one of the `|el|` vertices. */
  predicate EdgesInRange(el: seq<seq<nat>>) {
    forall i, j :: 0 <= i < |el| && 0 <= j < |el[i]| ==> el[i][j] < |el|
  }

  /** What `make`, the only way to build a graph, guarantees. */
  predicate ValidGraph(g: EdgeListGraph) {
    g.vertices == Range(|g.edges|) && EdgesInRange(g.edges)
  }

  /** `EdgeListGraph::make`: rejects an edge list naming a vertex that does not exist. */
  method Make(el: seq<seq<nat>>) returns (r: Result<EdgeListGraph, string>)
    ensures r.Err? <==> !EdgesInRange(el)
    ensures r.Err? ==> r.error == "Oh no"
    ensures r.Ok? ==> r.value == EdgeListGraph(Range(|el|), el) && ValidGraph(r.value)
  {
    var sz := |el|;
    for i := 0 to |el|
      invariant forall i', j :: 0 <= i' < i && 0 <= j < |el[i']| ==> el[i'][j] < sz
    {
      for j := 0 to |el[i]|
        invariant forall i', j' :: 0 <= i' < i && 0 <= j' < |el[i']| ==> el[i'][j'] < sz
        invariant forall j' :: 0 <= j' < j ==> el[i][j'] < sz
      {
        if el[i][j] >= sz {
          return Err("Oh no");
        }
      }
    }
    return Ok(EdgeListGraph(Range(sz), el));
  }

  /** `size`: the number of edge lists, which is the number of vertices. */
  function Size(g: EdgeListGraph): (r: nat)
    ensures ValidGraph(g) ==> r == |g.vertices|
  {
    |g.edges|
  }

  /** `get_vertices`: the vertices in increasing order. */
  function GetVertices(g: EdgeListGraph): (r: seq<nat>)
    ensures ValidGraph(g) ==> |r| == Size(g) && forall i :: 0 <= i < |r| ==> r[i] == i
  {
    g.vertices
  }

  /** `get_connected`: the out-neighbours of `v`, each itself a vertex. */
  function GetConnected(g: EdgeListGraph, v: nat): (r: seq<nat>)
    requires v < |g.edges|
    ensures ValidGraph(g) ==> forall i :: 0 <= i < |r| ==> r[i] < Size(g)
  {
    g.edges[v]
  }

  /** `get_decorator`: a map with exactly the vertices as keys, each holding `default`. */
  method GetDecorator<T>(g: EdgeListGraph, default: T) returns (dec: map<nat, T>)
    ensures forall k: nat :: k in dec <==> k < Size(g)
    ensures forall k :: k in dec ==> dec[k] == default
  {
    dec := map[];
    for i := 0 to Size(g)
      invariant forall k: nat :: k in dec <==> k < i
      invariant forall k :: k in dec ==> dec[k] == default
    {
      dec := dec[i := default];
    }
  }

  // ---------------------------------------------------------------------------
  // Counting edges
  // ---------------------------------------------------------------------------

  /** All edges of the lists, as a multiset of their targets. */
  function AllEdges(el: seq<seq<nat>>): multiset<nat>
    decreases |el|
  {
    if el == [] then multiset{} else AllEdges(el[..|el| - 1]) + multiset(el[|el| - 1])
  }

  /** How many edges lead into `v`. */
  function InDegree(g: EdgeListGraph, v: nat): nat {
    AllEdges(g.edges)[v]
  }

  function EdgeCount(g: EdgeListGraph): nat {
    |AllEdges(g.edges)|
  }

  /** Every edge leads from a smaller index to a larger one. */
  predicate ParentsFirst(g: EdgeListGraph) {
    forall u, j :: 0 <= u < |g.edges| && 0 <= j < |g.edges[u]| ==> u < g.edges[u][j]
  }

  /** Every vertex has at most one parent, and parents come before their children. */
  ghost predicate OrderedForest(g: EdgeListGraph) {
    (forall v :: InDegree(g, v) <= 1) && ParentsFirst(g)
  }

  predicate IsVisited(visited: map<nat, bool>, v: nat) {
    v in visited && visited[v]
  }

  /** The edges leaving the visited vertices below `k`. */
  function EdgesOf(g: EdgeListGraph, visited: map<nat, bool>, k: nat): multiset<nat>
    requires k <= |g.edges|
  {
    if k == 0 then multiset{}
    else EdgesOf(g, visited, k - 1) + (if IsVisited(visited, k - 1) then multiset(g.edges[k - 1]) else multiset{})
  }

  /** The visited vertices below `k`. */
  function VisitedBelow(visited: map<nat, bool>, k: nat): multiset<nat> {
    if k == 0 then multiset{}
    else VisitedBelow(visited, k - 1) + (if IsVisited(visited, k - 1) then multiset{k - 1} else multiset{})
  }

  /** The number of unvisited vertices below `k`. */
  function CountUnvisited(visited: map<nat, bool>, k: nat): nat {
    if k == 0 then 0
    else CountUnvisited(visited, k - 1) + (if IsVisited(visited, k - 1) then 0 else 1)
  }

  /** The decorator has an entry for exactly the vertices below `n`. */
  ghost predicate KeysBelow(visited: map<nat, bool>, n: nat) {
    forall k: nat :: k in visited <==> k < n
  }

  /** Every root has no parent and is a root once. */
  ghost predicate RootsIsolated(g: EdgeListGraph, roots: multiset<nat>) {
    (forall w :: roots[w] <= 1) && (forall w :: w in roots ==> InDegree(g, w) == 0)
  }

  // ---------------------------------------------------------------------------
  // Lemmas about the counts
  // ---------------------------------------------------------------------------

  /** Marking a vertex at or above `k` leaves the edges of the visited vertices below `k` as they were. */
  lemma {:induction false} MarkAbove(g: EdgeListGraph, visited: map<nat, bool>, v: nat, k: nat)
    requires k <= |g.edges| && k <= v
    ensures EdgesOf(g, visited[v := true], k) == EdgesOf(g, visited, k)
  {
    if k > 0 {
      MarkAbove(g, visited, v, k - 1);
    }
  }

  /** Marking an unvisited vertex below `k` adds its edges to those of the visited vertices. */
  lemma {:induction false} MarkAddsEdges(g: EdgeListGraph, visited: map<nat, bool>, v: nat, k: nat)
    requires v < k <= |g.edges| && v in visited && !visited[v]
    ensures EdgesOf(g, visited[v := true], k) == EdgesOf(g, visited, k) + multiset(g.edges[v])
  {
    if k - 1 == v {
      MarkAbove(g, visited, v, v);
    } else {
      MarkAddsEdges(g, visited, v, k - 1);
    }
  }

  /** Marking an unvisited vertex adds it to the visited vertices. */
  lemma {:induction false} MarkAddsVertex(visited: map<nat, bool>, v: nat, k: nat)
    requires v in visited && !visited[v]
    ensures VisitedBelow(visited[v := true], k) ==
      VisitedBelow(visited, k) + (if v < k then multiset{v} else multiset{})
  {
    if k > 0 {
      MarkAddsVertex(visited, v, k - 1);
      var marked := visited[v := true];
      if v == k - 1 {
        assert IsVisited(marked, k - 1) && !IsVisited(visited, k - 1);
      } else {
        assert IsVisited(marked, k - 1) == IsVisited(visited, k - 1);
      }
    }
  }

  /** Marking an unvisited vertex takes one off the unvisited count. */
  lemma {:induction false} MarkCounts(visited: map<nat, bool>, v: nat, k: nat)
    requires v in visited && !visited[v]
    ensures CountUnvisited(visited[v := true], k) + (if v < k then 1 else 0) == CountUnvisited(visited, k)
  {
    if k > 0 {
      MarkCounts(visited, v, k - 1);
      var marked := visited[v := true];
      if v == k - 1 {
        assert IsVisited(marked, k - 1) && !IsVisited(visited, k - 1);
      } else {
        assert IsVisited(marked, k - 1) == IsVisited(visited, k - 1);
      }
    }
  }

  lemma {:induction false} VisitedBelowCount(visited: map<nat, bool>, k: nat, w: nat)
    ensures VisitedBelow(visited, k)[w] == if w < k && IsVisited(visited, w) then 1 else 0
  {
    if k > 0 {
      VisitedBelowCount(visited, k - 1, w);
    }
  }

  lemma {:induction false} VisitedBelowSize(visited: map<nat, bool>, k: nat)
    requires forall i :: 0 <= i < k ==> IsVisited(visited, i)
    ensures |VisitedBelow(visited, k)| == k
  {
    if k > 0 {
      VisitedBelowSize(visited, k - 1);
    }
  }

  lemma {:induction false} NothingVisited(g: EdgeListGraph, visited: map<nat, bool>, k: nat)
    requires k <= |g.edges|
    requires forall i :: i in visited ==> !visited[i]
    ensures EdgesOf(g, visited, k) == multiset{} && VisitedBelow(visited, k) == multiset{}
    ensures CountUnvisited(visited, k) == k
  {
    if k > 0 {
      NothingVisited(g, visited, k - 1);
    }
  }

  lemma {:induction false} NoneUnvisited(visited: map<nat, bool>, k: nat)
    requires CountUnvisited(visited, k) == 0
    ensures forall i :: 0 <= i < k ==> IsVisited(visited, i)
  {
    if k > 0 {
      NoneUnvisited(visited, k - 1);
    }
  }

  lemma {:induction false} AllVisitedCount(visited: map<nat, bool>, k: nat)
    requires forall i :: 0 <= i < k ==> IsVisited(visited, i)
    ensures CountUnvisited(visited, k) == 0
  {
    if k > 0 {
      AllVisitedCount(visited, k - 1);
    }
  }

  /** The edges of the visited vertices are among all the edges. */
  lemma {:induction false} EdgesOfBound(g: EdgeListGraph, visited: map<nat, bool>, k: nat, w: nat)
    requires k <= |g.edges|
    ensures EdgesOf(g, visited, k)[w] <= AllEdges(g.edges[..k])[w]
  {
    if k > 0 {
      EdgesOfBound(g, visited, k - 1, w);
      assert g.edges[..k][..k - 1] == g.edges[..k - 1];
    }
  }

  /** Once every vertex below `k` is visited, their edges are all the edges there. */
  lemma {:induction false} EdgesOfAll(g: EdgeListGraph, visited: map<nat, bool>, k: nat)
    requires k <= |g.edges|
    requires forall i :: 0 <= i < k ==> IsVisited(visited, i)
    ensures EdgesOf(g, visited, k) == AllEdges(g.edges[..k])
  {
    if k > 0 {
      EdgesOfAll(g, visited, k - 1);
      assert g.edges[..k][..k - 1] == g.edges[..k - 1];
    }
  }

  lemma {:induction false} EdgesOfHas(g: EdgeListGraph, visited: map<nat, bool>, k: nat, u: nat, w: nat)
    requires k <= |g.edges| && u < k && IsVisited(visited, u) && w in g.edges[u]
    ensures EdgesOf(g, visited, k)[w] >= 1
  {
    if u < k - 1 {
      EdgesOfHas(g, visited, k - 1, u, w);
    }
  }

  lemma {:induction false} NoParent(el: seq<seq<nat>>, w: nat)
    requires forall u :: 0 <= u < |el| ==> w !in el[u]
    ensures AllEdges(el)[w] == 0
  {
    if el != [] {
      NoParent(el[..|el| - 1], w);
    }
  }

  /**
   * In an ordered forest, a vertex found unvisited by the scan, with every
   * smaller vertex visited and no visited vertex pointing at it, has no parent.
   */
  lemma NewRootHasNoParent(g: EdgeListGraph, visited: map<nat, bool>, v: nat)
    requires ValidGraph(g) && ParentsFirst(g) && v < |g.edges|
    requires forall k :: 0 <= k < v ==> IsVisited(visited, k)
    requires EdgesOf(g, visited, |g.edges|)[v] == 0
    ensures InDegree(g, v) == 0
  {
    forall u | 0 <= u < |g.edges|
      ensures v !in g.edges[u]
    {
      if v in g.edges[u] {
        var j :| 0 <= j < |g.edges[u]| && g.edges[u][j] == v;
        assert u < v;
        EdgesOfHas(g, visited, |g.edges|, u, v);
      }
    }
    NoParent(g.edges, v);
  }

  /**
   * The balance the walk keeps: every root and every edge leaving a visited
   * vertex is either a visited vertex or waiting in the queue, as often as it
   * occurs.
   */
  ghost predicate Balanced(g: EdgeListGraph, visited: map<nat, bool>, roots: multiset<nat>, queue: seq<nat>) {
    roots + EdgesOf(g, visited, |g.edges|) == VisitedBelow(visited, |g.edges|) + multiset(queue)
  }

  /**
   * The key step: while the walk is balanced and the roots have no parent, a
   * vertex with at most one parent cannot be at the front of the queue a second
   * time.
   */
  lemma FrontUnvisited(g: EdgeListGraph, visited: map<nat, bool>, roots: multiset<nat>, queue: seq<nat>)
    requires ValidGraph(g) && queue != [] && queue[0] < |g.edges|
    requires Balanced(g, visited, roots, queue)
    ensures (forall w :: InDegree(g, w) <= 1) && RootsIsolated(g, roots) ==> !IsVisited(visited, queue[0])
  {
    var n := |g.edges|;
    var v := queue[0];
    VisitedBelowCount(visited, n, v);
    EdgesOfBound(g, visited, n, v);
    assert g.edges[..n] == g.edges;
    assert InDegree(g, v) == AllEdges(g.edges)[v];
    assert multiset(queue)[v] >= 1;
    assert (roots + EdgesOf(g, visited, n))[v] == roots[v] + EdgesOf(g, visited, n)[v];
    assert (VisitedBelow(visited, n) + multiset(queue))[v] == VisitedBelow(visited, n)[v] + multiset(queue)[v];
  }

  /** At the start nothing is visited, and vertex 0 (if any) is the first root, with no parent in an ordered forest. */
  lemma StartWalk(g: EdgeListGraph, visited: map<nat, bool>)
    requires ValidGraph(g) && forall i :: i in visited ==> !visited[i]
    ensures var roots := if |g.edges| > 0 then multiset{0} else multiset{};
      Balanced(g, visited, roots, if |g.edges| > 0 then [0] else []) &&
      (OrderedForest(g) ==> RootsIsolated(g, roots))
    ensures CountUnvisited(visited, |g.edges|) == |g.edges|
  {
    NothingVisited(g, visited, |g.edges|);
    if |g.edges| > 0 && ParentsFirst(g) {
      NoParent(g.edges, 0);
    }
  }

  /**
   * Taking an unvisited vertex off the queue, marking it and queueing its
   * out-neighbours keeps the balance and lowers the unvisited count by one.
   */
  lemma PopStep(g: EdgeListGraph, visited: map<nat, bool>, roots: multiset<nat>, queue: seq<nat>)
    requires ValidGraph(g) && queue != [] && queue[0] in visited && !visited[queue[0]]
    requires Balanced(g, visited, roots, queue) && queue[0] < |g.edges|
    ensures var v := queue[0];
      Balanced(g, visited[v := true], roots, queue[1..] + g.edges[v]) &&
      CountUnvisited(visited[v := true], |g.edges|) + 1 == CountUnvisited(visited, |g.edges|)
  {
    var n := |g.edges|;
    var v := queue[0];
    MarkAddsEdges(g, visited, v, n);
    MarkAddsVertex(visited, v, n);
    MarkCounts(visited, v, n);
    assert queue == [v] + queue[1..];
    assert multiset(queue) == multiset{v} + multiset(queue[1..]);
    assert multiset(queue[1..] + g.edges[v]) == multiset(queue[1..]) + multiset(g.edges[v]);
    calc {
      roots + EdgesOf(g, visited[v := true], n);
      roots + EdgesOf(g, visited, n) + multiset(g.edges[v]);
      VisitedBelow(visited, n) + multiset(queue) + multiset(g.edges[v]);
      VisitedBelow(visited, n) + multiset{v} + multiset(queue[1..]) + multiset(g.edges[v]);
      VisitedBelow(visited[v := true], n) + multiset(queue[1..] + g.edges[v]);
    }
  }

  /** After that step, every vertex that was visited or queued is still visited or queued. */
  lemma PopKeepsCovered(visited: map<nat, bool>, queue: seq<nat>, extra: seq<nat>, bound: nat)
    requires queue != []
    ensures var v := queue[0];
      forall k :: 0 <= k < bound && (IsVisited(visited, k) || k in queue) ==>
        IsVisited(visited[v := true], k) || k in queue[1..] + extra
  {
    var v := queue[0];
    forall k | 0 <= k < bound && k in queue && k != v
      ensures k in queue[1..]
    {
      var i :| 0 <= i < |queue| && queue[i] == k;
      assert queue[1..][i - 1] == k;
    }
  }

  /**
   * With the queue empty, a vertex the scan finds unvisited becomes the next
   * root; in an ordered forest it has no parent and was not a root before.
   */
  lemma NewRoot(g: EdgeListGraph, visited: map<nat, bool>, roots: multiset<nat>, v: nat)
    requires ValidGraph(g) && v < |g.edges| && !IsVisited(visited, v)
    requires forall k :: 0 <= k < v ==> IsVisited(visited, k)
    requires Balanced(g, visited, roots, [])
    requires OrderedForest(g) ==> RootsIsolated(g, roots)
    ensures Balanced(g, visited, roots + multiset{v}, [v])
    ensures OrderedForest(g) ==> RootsIsolated(g, roots + multiset{v})
  {
    var n := |g.edges|;
    VisitedBelowCount(visited, n, v);
    assert (roots + EdgesOf(g, visited, n))[v] == 0;
    var none: seq<nat> := [];
    assert multiset([v]) == multiset{v} && multiset(none) == multiset{};
    assert roots + EdgesOf(g, visited, n) == VisitedBelow(visited, n);
    assert roots + multiset{v} + EdgesOf(g, visited, n) == VisitedBelow(visited, n) + multiset([v]);
    if ParentsFirst(g) {
      NewRootHasNoParent(g, visited, v);
    }
  }

  /**
   * When the walk ends with every vertex visited, balanced and with vertex 0
   * among the roots, every vertex has at most one parent and, in a non-empty
   * graph, vertex 0 has none and there are fewer edges than vertices.
   */
  lemma WalkComplete(g: EdgeListGraph, visited: map<nat, bool>, roots: multiset<nat>)
    requires ValidGraph(g) && CountUnvisited(visited, |g.edges|) == 0
    requires Balanced(g, visited, roots, [])
    requires |g.edges| > 0 ==> 0 in roots
    ensures forall v :: InDegree(g, v) <= 1
    ensures |g.edges| > 0 ==> InDegree(g, 0) == 0 && EdgeCount(g) < |g.edges|
  {
    var n := |g.edges|;
    NoneUnvisited(visited, n);
    EdgesOfAll(g, visited, n);
    assert g.edges[..n] == g.edges;
    assert roots + AllEdges(g.edges) == VisitedBelow(visited, n);
    forall w
      ensures InDegree(g, w) <= 1
    {
      VisitedBelowCount(visited, n, w);
      assert (roots + AllEdges(g.edges))[w] == roots[w] + AllEdges(g.edges)[w];
    }
    if n > 0 {
      VisitedBelowCount(visited, n, 0);
      assert (roots + AllEdges(g.edges))[0] == roots[0] + AllEdges(g.edges)[0];
      VisitedBelowSize(visited, n);
      assert |roots| + |AllEdges(g.edges)| == n;
    }
  }

  // ---------------------------------------------------------------------------
  // is_tree
  // ---------------------------------------------------------------------------

  /**
   * The inner loop of `is_tree`: touch everything reachable from `root`,
   * breadth first, marking each vertex as it leaves the queue. It fails on a
   * vertex touched twice, which cannot happen while every vertex has at most
   * one parent and the roots have none; on success the balance holds with the
   * queue empty, and every vertex below `next` is visited.
   */
  method TouchFrom(g: EdgeListGraph, visited0: map<nat, bool>, unvisited0: nat, root: nat,
                   ghost roots: multiset<nat>, ghost next: nat)
    returns (ok: bool, visited: map<nat, bool>, unvisited: nat)
    requires ValidGraph(g) && root < |g.edges|
    requires KeysBelow(visited0, |g.edges|)
    requires unvisited0 == CountUnvisited(visited0, |g.edges|)
    requires forall k :: 0 <= k < next ==> IsVisited(visited0, k) || k == root
    requires Balanced(g, visited0, roots, [root])
    ensures KeysBelow(visited, |g.edges|)
    ensures unvisited == CountUnvisited(visited, |g.edges|)
    ensures forall k :: IsVisited(visited0, k) ==> IsVisited(visited, k)
    ensures ok ==> Balanced(g, visited, roots, []) && forall k :: 0 <= k < next ==> IsVisited(visited, k)
    ensures !ok ==> !((forall w :: InDegree(g, w) <= 1) && RootsIsolated(g, roots))
  {
    ghost var n := |g.edges|;
    visited := visited0;
    unvisited := unvisited0;
    var queue: seq<nat> := [root];
    while true
      invariant KeysBelow(visited, n)
      invariant unvisited == CountUnvisited(visited, n)
      invariant forall k :: IsVisited(visited0, k) ==> IsVisited(visited, k)
      invariant forall i :: 0 <= i < |queue| ==> queue[i] < n
      invariant forall k :: 0 <= k < next ==> IsVisited(visited, k) || k in queue
      invariant Balanced(g, visited, roots, queue)
      decreases unvisited
    {
      if queue == [] {
        return true, visited, unvisited;
      }
      var v := queue[0];
      FrontUnvisited(g, visited, roots, queue);
      if visited[v] {
        return false, visited, unvisited;
      }
      PopStep(g, visited, roots, queue);
      PopKeepsCovered(visited, queue, GetConnected(g, v), next);
      unvisited := unvisited - 1;
      queue := queue[1..] + GetConnected(g, v);
      visited := visited[v := true];
    }
  }

  /**
   * The restart scan of `is_tree`: advance the vertex iterator from `start` to
   * the first vertex not yet visited, or to its end.
   */
  method NextUnvisited(vertices: seq<nat>, visited: map<nat, bool>, start: nat)
    returns (found: Option<nat>, next: nat)
    requires start <= |vertices|
    requires forall i :: 0 <= i < |vertices| ==> vertices[i] == i && vertices[i] in visited
    ensures start <= next <= |vertices|
    ensures found.Some? ==> found.value == next - 1 && !IsVisited(visited, found.value)
    ensures found.None? ==> next == |vertices|
    ensures forall k :: start <= k < next && found != Some(k) ==> IsVisited(visited, k)
  {
    next := start;
    while next < |vertices|
      invariant start <= next <= |vertices|
      invariant forall k :: start <= k < next ==> IsVisited(visited, k)
      decreases |vertices| - next
    {
      var v := vertices[next];
      next := next + 1;
      if !visited[v] {
        return Some(v), next;
      }
    }
    return None, next;
  }

  /**
   * `is_tree`. `visited` is the decorator map, `unvisited` the count and `next`
   * the position of the vertex iterator. The ghost `roots` collects every
   * vertex the walk started from.
   */
  method IsTree(g: EdgeListGraph) returns (r: bool)
    requires ValidGraph(g)
    ensures r ==> forall v :: InDegree(g, v) <= 1
    ensures r && Size(g) > 0 ==> InDegree(g, 0) == 0
    ensures r && Size(g) > 0 ==> EdgeCount(g) < Size(g)
    ensures OrderedForest(g) ==> r
  {
    ghost var n := |g.edges|;
    var visited: map<nat, bool> := GetDecorator(g, false);
    var unvisited := Size(g);
    StartWalk(g, visited);
    var vertices := GetVertices(g);
    var next := 0;
    var optRoot: Option<nat> := None;
    if next < |vertices| {
      optRoot := Some(vertices[next]);
      next := next + 1;
    }
    ghost var roots: multiset<nat> := if optRoot.Some? then multiset{optRoot.value} else multiset{};

    while optRoot.Some?
      invariant KeysBelow(visited, n)
      invariant unvisited == CountUnvisited(visited, n)
      invariant 0 <= next <= n
      invariant optRoot.Some? ==> optRoot.value == next - 1 && !IsVisited(visited, optRoot.value)
      invariant optRoot.None? ==> unvisited == 0
      invariant forall k :: 0 <= k < next ==> IsVisited(visited, k) || optRoot == Some(k)
      invariant Balanced(g, visited, roots, if optRoot.Some? then [optRoot.value] else [])
      invariant n > 0 ==> 0 in roots
      invariant OrderedForest(g) ==> RootsIsolated(g, roots)
      decreases if optRoot.Some? then n - next + 1 else 0
    {
      var root := optRoot.value;
      optRoot := None;
      var ok;
      ok, visited, unvisited := TouchFrom(g, visited, unvisited, root, roots, next);
      if !ok {
        return false;
      }
      if unvisited > 0 {
        optRoot, next := NextUnvisited(vertices, visited, next);
        if optRoot.None? {
          AllVisitedCount(visited, n);
          assert false;
        }
        NewRoot(g, visited, roots, optRoot.value);
        roots := roots + multiset{optRoot.value};
      }
    }

    WalkComplete(g, visited, roots);
    return true;
  }

  // ---------------------------------------------------------------------------
  // The module's test graphs
  // ---------------------------------------------------------------------------

  /** Two vertices pointing at each other. */
  const CycleEdges: seq<seq<nat>> := [[1], [0]]
  /** Two vertices without edges. */
  const ForestEdges: seq<seq<nat>> := [[], []]
  /** Vertex 0 is the parent of vertex 1. */
  const NormEdges: seq<seq<nat>> := [[1], []]
  /** Both vertices point at vertex 1. */
  const SelfCycleEdges: seq<seq<nat>> := [[1], [1]]

  lemma CycleShape()
    ensures EdgesInRange(CycleEdges) && AllEdges(CycleEdges)[0] == 1
  {
    assert CycleEdges[..1] == [[1]];
  }

  lemma ForestShape()
    ensures EdgesInRange(ForestEdges) && AllEdges(ForestEdges) == multiset{}
    ensures ParentsFirst(EdgeListGraph(Range(2), ForestEdges))
  {
    assert ForestEdges[..1] == [[]];
  }

  lemma NormShape()
    ensures EdgesInRange(NormEdges) && AllEdges(NormEdges) == multiset{1}
    ensures ParentsFirst(EdgeListGraph(Range(2), NormEdges))
  {
    assert NormEdges[..1] == [[1]];
  }

  lemma SelfCycleShape()
    ensures EdgesInRange(SelfCycleEdges) && AllEdges(SelfCycleEdges)[1] == 2
  {
    assert SelfCycleEdges[..1] == [[1]];
  }

  /** The four graphs of the module's test, with the answers it expects. */
  method TreeExamples() returns (cyc: bool, forest: bool, norm: bool, selfcyc: bool)
    ensures !cyc && forest && norm && !selfcyc
  {
    CycleShape();
    ForestShape();
    NormShape();
    SelfCycleShape();
    var c := Make(CycleEdges);
    var f := Make(ForestEdges);
    var m := Make(NormEdges);
    var s := Make(SelfCycleEdges);
    cyc := IsTree(c.value);
    forest := IsTree(f.value);
    norm := IsTree(m.value);
    selfcyc := IsTree(s.value);
  }
}
