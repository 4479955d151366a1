/** `ungraph<T>` with `T = int`: an undirected graph stored as a digraph in
    which the undirected edge `{u, v}` is the pair of directed edges
    `u -> v` and `v -> u`. Its mutators apply each digraph mutator in both
    directions; none of them takes a symmetric graph to an asymmetric one. */
module Undirected {
  import opened EdgeContainer
  import opened Adjacency
  import opened Directed

  /** Every stored destination is a vertex and every stored edge has its
      reverse, with the same weight. */
  ghost predicate Symmetric(a: Adj) {
    Closed(a) && forall v, w :: 0 <= v < |a| && 0 <= w < |a| && w in a[v] ==> v in a[w] && a[w][v] == a[v][w]
  }

  /** One instance of symmetry. */
  lemma SymmetricAt(a: Adj, v: int, w: int)
    requires Symmetric(a) && 0 <= v < |a| && w in a[v]
    ensures 0 <= w < |a| && v in a[w] && a[w][v] == a[v][w]
  {
  }

  /** The adjacency vector after an undirected mutator, and what it returned. */
  datatype Outcome = Outcome(adj: Adj, ok: bool)

  /** `addEdge(src, dst, e)`: the forward insert, then, only if that one
      inserted, the reverse insert; true when both inserted. */
  function UndirectedAdd(a: Adj, src: int, dst: int, e: int): Outcome
    requires 0 <= src < |a| && (dst !in a[src] ==> 0 <= dst < |a|)
  {
    if dst in a[src] then Outcome(a, false)
    else
      var a' := Insert(a, src, dst, e);
      if src in a'[dst] then Outcome(a', false) else Outcome(Insert(a', dst, src, e), true)
  }

  /** `delEdge(src, dst)`: the forward erase, then, only if that one
      erased, the reverse erase; true when both erased. */
  function UndirectedDel(a: Adj, src: int, dst: int): Outcome
    requires 0 <= src < |a| && (dst in a[src] ==> 0 <= dst < |a|)
  {
    if dst !in a[src] then Outcome(a, false)
    else
      var a' := Erase(a, src, dst);
      Outcome(Erase(a', dst, src), src in a'[dst])
  }

  /** `delAllEdges(src)`: `delInEdges(src)`, then `delOutEdges(src)`. */
  function IsolateVertex(a: Adj, src: int): Adj
    requires 0 <= src < |a|
  {
    EraseInEdges(a, src)[src := map[]]
  }

  class Ungraph {
    /** The digraph this graph is built on. Only the mutators below change
        it: the inherited mutable `operator[]` is made protected in the
        source, and the model offers no way to reach an edge map for
        writing either. */
    const g: Digraph

    /** `ungraph(int nverts)`. */
    constructor (nverts: nat)
      ensures fresh(g) && g.adj == Empty(nverts)
      ensures Symmetric(g.adj)
    {
      g := new Digraph(nverts);
    }

    /** `addEdge(src, dst, e)`. `src` must be a vertex and `dst < numVerts()`
        as for the digraph's insert; only when the forward insert
        succeeds is the reverse one run, which then indexes the vector by
        `dst`. */
    method AddEdge(src: int, dst: int, e: int) returns (ok: bool)
      requires 0 <= src < |g.adj| && dst < |g.adj|
      requires dst !in g.adj[src] ==> 0 <= dst
      modifies g
      ensures Outcome(g.adj, ok) == UndirectedAdd(old(g.adj), src, dst, e)
      ensures Symmetric(old(g.adj)) ==> Symmetric(g.adj)
    {
      ghost var a := g.adj;
      ok := g.AddEdge(src, dst, e);
      if ok {
        ok := g.AddEdge(dst, src, e);
      }
      AddKeepsSymmetric(a, src, dst, e);
    }

    /** `delEdge(src, dst)`. */
    method DelEdge(src: int, dst: int) returns (ok: bool)
      requires 0 <= src < |g.adj|
      requires dst in g.adj[src] ==> 0 <= dst < |g.adj|
      modifies g
      ensures Outcome(g.adj, ok) == UndirectedDel(old(g.adj), src, dst)
      ensures Symmetric(old(g.adj)) ==> Symmetric(g.adj)
    {
      ghost var a := g.adj;
      EraseProperties(a, src, dst);
      ok := g.DelEdge(src, dst);
      if ok {
        ok := g.DelEdge(dst, src);
      }
      DelKeepsSymmetric(a, src, dst);
    }

    /** The protected `delEdge(src, ditr)`: `ditr` designates the entry of
        `dst` in the map of `src`. The reverse edge `dst -> src` goes first,
        while `ditr` is still valid; the entry itself is then erased through
        the iterator. For a self-loop the first erase would invalidate that
        iterator, so `dst` differs from `src`. */
    method DelEdgeAt(src: int, dst: int)
      requires 0 <= src < |g.adj| && dst in g.adj[src]
      requires 0 <= dst < |g.adj| && dst != src
      modifies g
      ensures g.adj == Erase(Erase(old(g.adj), dst, src), src, dst)
      ensures Symmetric(old(g.adj)) ==> Symmetric(g.adj)
    {
      ghost var a := g.adj;
      var _ := g.DelEdge(dst, src);
      g.DelEdgeAt(src, dst);
      DelKeepsSymmetric(a, src, dst);
    }

    /** `delAllEdges(src)`: every edge into and out of `src`. The in-edges
        are found through the out-edges, as `delInEdges` requires. */
    method DelAllEdges(src: int)
      requires 0 <= src < |g.adj|
      requires src !in g.adj[src]
      requires forall w :: w in g.adj[src] ==> 0 <= w < |g.adj|
      modifies g
      ensures g.adj == IsolateVertex(old(g.adj), src)
      ensures Symmetric(old(g.adj)) ==> Symmetric(g.adj)
    {
      ghost var a := g.adj;
      g.DelInEdges(src);
      g.DelOutEdges(src);
      if Symmetric(a) {
        IsolateProperties(a, src);
      }
    }

    /** The integer part of `calc_node_degree_stats`: the smallest and the
        largest out-degree and their sum. The minimum starts at
        `numVerts()` and the maximum at 0, so both are bounded by those
        starting values; with no vertex both stay there. */
    method CalcNodeDegreeStats() returns (minDegree: int, maxDegree: int, total: int)
      ensures total == EdgeCount(g.adj)
      ensures 0 <= maxDegree && minDegree <= |g.adj|
      ensures forall v :: 0 <= v < |g.adj| ==> minDegree <= |g.adj[v]| <= maxDegree
      ensures minDegree == |g.adj| || exists v :: 0 <= v < |g.adj| && minDegree == |g.adj[v]|
      ensures maxDegree == 0 || exists v :: 0 <= v < |g.adj| && maxDegree == |g.adj[v]|
      ensures Closed(g.adj) && |g.adj| > 0 ==>
        minDegree <= maxDegree && exists v :: 0 <= v < |g.adj| && minDegree == |g.adj[v]|
    {
      var n := g.NumVerts();
      minDegree, maxDegree, total := n, 0, 0;
      for i := 0 to n
        invariant total == EdgeCountBefore(g.adj, i)
        invariant 0 <= maxDegree && minDegree <= n
        invariant forall v :: 0 <= v < i ==> minDegree <= |g.adj[v]| <= maxDegree
        invariant minDegree == n || exists v :: 0 <= v < i && minDegree == |g.adj[v]|
        invariant maxDegree == 0 || exists v :: 0 <= v < i && maxDegree == |g.adj[v]|
      {
        var degree := |g.Adj(i)|;
        total := total + degree;
        if degree > maxDegree {
          maxDegree := degree;
        }
        if degree < minDegree {
          minDegree := degree;
        }
      }
      if Closed(g.adj) && n > 0 {
        DegreeBound(g.adj, 0);
        assert minDegree <= |g.adj[0]| <= maxDegree;
      }
    }
  }

  /** The result of `addEdge` is true exactly when `dst -> src` was
      absent too. On a symmetric graph and two distinct vertices the call is
      all-or-nothing: false with nothing changed, or true with both
      directions stored under weight `e`. */
  lemma AddProperties(a: Adj, src: int, dst: int, e: int)
    requires 0 <= src < |a| && (dst !in a[src] ==> 0 <= dst < |a|)
    ensures UndirectedAdd(a, src, dst, e).ok <==> dst !in a[src] && src != dst && src !in a[dst]
    ensures Symmetric(a) && src != dst && !UndirectedAdd(a, src, dst, e).ok ==> UndirectedAdd(a, src, dst, e).adj == a
    ensures UndirectedAdd(a, src, dst, e).ok ==>
      UndirectedAdd(a, src, dst, e).adj == a[src := a[src][dst := e]][dst := a[dst][src := e]]
  {
  }

  /** The partial failure: when the forward insert succeeds but the reverse
      one finds its edge present, the forward edge stays and the call
      reports false. A self-loop is the case every graph can reach. */
  lemma AddPartialFailure(a: Adj, src: int, dst: int, e: int)
    requires 0 <= src < |a| && 0 <= dst < |a| && dst !in a[src]
    requires src == dst || src in a[dst]
    ensures UndirectedAdd(a, src, dst, e) == Outcome(a[src := a[src][dst := e]], false)
  {
  }

  /** `addEdge` never breaks symmetry: an inserted self-loop is its own
      reverse, and between distinct vertices of a symmetric graph both
      directions are present or both absent. */
  lemma AddKeepsSymmetric(a: Adj, src: int, dst: int, e: int)
    requires 0 <= src < |a| && (dst !in a[src] ==> 0 <= dst < |a|)
    ensures Symmetric(a) ==> Symmetric(UndirectedAdd(a, src, dst, e).adj)
  {
    if Symmetric(a) && dst !in a[src] {
      var r := UndirectedAdd(a, src, dst, e).adj;
      assert src != dst ==> src !in a[dst];
      forall v, w | 0 <= v < |r| && w in r[v] ensures 0 <= w < |r| && v in r[w] && r[w][v] == r[v][w] {
        if (v, w) != (src, dst) && (v, w) != (dst, src) {
          assert w in a[v] && r[v][w] == a[v][w];
          SymmetricAt(a, v, w);
          assert v in r[w] && r[w][v] == a[w][v];
        }
      }
    }
  }

  /** The result of `delEdge` is true exactly when both directions were
      stored and distinct. On a symmetric graph the call removes both
      directions or neither, and it reports true unless there was nothing
      between distinct vertices, or a self-loop, to remove. */
  lemma DelProperties(a: Adj, src: int, dst: int)
    requires 0 <= src < |a| && (dst in a[src] ==> 0 <= dst < |a|)
    ensures UndirectedDel(a, src, dst).ok <==> dst in a[src] && src != dst && src in a[dst]
    ensures dst !in a[src] ==> UndirectedDel(a, src, dst).adj == a
    ensures dst in a[src] ==> UndirectedDel(a, src, dst).adj == a[src := a[src] - {dst}][dst := a[dst] - {src}]
    ensures Symmetric(a) && src != dst ==> (UndirectedDel(a, src, dst).ok <==> dst in a[src])
  {
    if src == dst {
      assert a[src] - {dst} - {src} == a[src] - {dst};
    }
  }

  /** A successful `addEdge` stores exactly two more directed edges, and a
      failed one on a symmetric graph none. */
  lemma AddCountsTwo(a: Adj, src: int, dst: int, e: int)
    requires 0 <= src < |a| && (dst !in a[src] ==> 0 <= dst < |a|)
    ensures UndirectedAdd(a, src, dst, e).ok ==> EdgeCount(UndirectedAdd(a, src, dst, e).adj) == EdgeCount(a) + 2
    ensures Symmetric(a) && src != dst && !UndirectedAdd(a, src, dst, e).ok ==>
      EdgeCount(UndirectedAdd(a, src, dst, e).adj) == EdgeCount(a)
  {
    AddProperties(a, src, dst, e);
    if UndirectedAdd(a, src, dst, e).ok {
      var a1 := a[src := a[src][dst := e]];
      EdgeCountUpdate(a, src, a[src][dst := e], |a|);
      assert a1[dst] == a[dst];
      EdgeCountUpdate(a1, dst, a[dst][src := e], |a|);
    }
  }

  /** A successful `delEdge` removes exactly two directed edges. */
  lemma DelCountsTwo(a: Adj, src: int, dst: int)
    requires 0 <= src < |a| && (dst in a[src] ==> 0 <= dst < |a|)
    ensures UndirectedDel(a, src, dst).ok ==> EdgeCount(UndirectedDel(a, src, dst).adj) + 2 == EdgeCount(a)
  {
    DelProperties(a, src, dst);
    if UndirectedDel(a, src, dst).ok {
      var a1 := a[src := a[src] - {dst}];
      EdgeCountUpdate(a, src, a[src] - {dst}, |a|);
      assert a1[dst] == a[dst];
      EdgeCountUpdate(a1, dst, a[dst] - {src}, |a|);
    }
  }

  /** On a symmetric graph every in-neighbour of `src` is an out-neighbour,
      so `delInEdges(src)` leaves no edge into `src`: this is the promise
      "delete all in-edges" of the declaration, and it is the only way the
      undirected graph uses the operation. */
  lemma SymmetricEraseInEdgesComplete(a: Adj, src: int)
    requires 0 <= src < |a| && Symmetric(a)
    ensures forall v :: 0 <= v < |a| ==> src !in EraseInEdges(a, src)[v]
  {
    forall v | 0 <= v < |a| ensures src !in EraseInEdges(a, src)[v] {
      if src in a[v] {
        SymmetricAt(a, v, src);
      }
    }
  }

  /** Deleting a symmetric pair, in either order, keeps a symmetric graph
      symmetric; this covers `delEdge(src, dst)` and the iterator variant. */
  lemma DelKeepsSymmetric(a: Adj, src: int, dst: int)
    requires 0 <= src < |a| && (dst in a[src] ==> 0 <= dst < |a|)
    ensures Symmetric(a) ==> Symmetric(UndirectedDel(a, src, dst).adj)
    ensures Symmetric(a) && dst in a[src] ==> Symmetric(Erase(Erase(a, dst, src), src, dst))
  {
    if Symmetric(a) && dst in a[src] {
      var r := Erase(Erase(a, src, dst), dst, src);
      assert r == Erase(Erase(a, dst, src), src, dst) == UndirectedDel(a, src, dst).adj;
      forall v, w | 0 <= v < |r| && w in r[v] ensures 0 <= w < |r| && v in r[w] && r[w][v] == r[v][w] {
        assert r[v] == a[v] - (if v == src then {dst} else {}) - (if v == dst then {src} else {});
        assert w in a[v] && r[v][w] == a[v][w];
        SymmetricAt(a, v, w);
        assert r[w] == a[w] - (if w == src then {dst} else {}) - (if w == dst then {src} else {});
      }
    }
  }

  /** After `delAllEdges(src)` the vertex has no out-edges. On a symmetric
      graph without a self-loop at `src` it has no in-edges either, every
      other edge is kept, and the graph stays symmetric. */
  lemma IsolateProperties(a: Adj, src: int)
    requires 0 <= src < |a|
    ensures IsolateVertex(a, src)[src] == map[]
    ensures |IsolateVertex(a, src)| == |a|
    ensures Symmetric(a) && src !in a[src] ==>
      (forall v :: 0 <= v < |a| ==> src !in IsolateVertex(a, src)[v]) &&
      (forall v, w :: 0 <= v < |a| && v != src && w in a[v] && w != src ==> w in IsolateVertex(a, src)[v]) &&
      Symmetric(IsolateVertex(a, src))
  {
    if Symmetric(a) && src !in a[src] {
      var r := IsolateVertex(a, src);
      forall v | 0 <= v < |a| ensures src !in r[v] {
        if v != src && src in a[v] {
          assert v in a[src];
        }
      }
      forall v, w | 0 <= v < |r| && w in r[v] ensures 0 <= w < |r| && v in r[w] && r[w][v] == r[v][w] {
        assert v != src && r[v] == (if v in a[src] then a[v] - {src} else a[v]);
        assert w in a[v] && w != src && r[v][w] == a[v][w];
        SymmetricAt(a, v, w);
        assert r[w] == (if w in a[src] then a[w] - {src} else a[w]);
      }
    }
  }

  /** The vertex numbers below `n`. */
  function Vertices(n: nat): (r: set<int>)
    ensures |r| == n
    ensures forall w :: w in r <==> 0 <= w < n
  {
    if n == 0 then {} else Vertices(n - 1) + {n - 1}
  }

  /** In a graph whose destinations are all vertices, no out-degree exceeds
      the number of vertices. */
  lemma DegreeBound(a: Adj, v: int)
    requires Closed(a) && 0 <= v < |a|
    ensures |a[v]| <= |a|
  {
    SubsetSize(a[v].Keys, Vertices(|a|));
  }

  /** A subset is no larger than its superset. */
  lemma SubsetSize(s: set<int>, t: set<int>)
    requires s <= t
    ensures |s| <= |t|
  {
    assert t == s + (t - s);
    assert s * (t - s) == {};
  }
}
