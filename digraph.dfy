/** `digraph<T>` with `T = int`: a growable vector of per-vertex edge maps.
    Vertices are the indices `0 .. numVerts()-1`; an edge `u -> v` exists
    exactly when `v` is a key of the map of `u`. The functions before the
    class give the effect of each mutator on the adjacency vector as a value;
    the lemmas after it state what those effects mean. */
module Directed {
  import opened Wrappers
  import opened EdgeContainer
  import opened Adjacency

  /** `m_adj[src].insert({dst, e})`: the edge is added unless `dst` is
      already a key, in which case nothing changes (no overwrite). */
  function Insert(a: Adj, src: int, dst: int, e: int): Adj
    requires 0 <= src < |a|
  {
    if dst in a[src] then a else a[src := a[src][dst := e]]
  }

  /** `m_adj[src].erase(dst)`. */
  function Erase(a: Adj, src: int, dst: int): Adj
    requires 0 <= src < |a|
  {
    a[src := a[src] - {dst}]
  }

  /** The effect of `delInEdges(src)`: every vertex that `src` points to
      loses its edge back to `src`; no other map changes. */
  function EraseInEdges(a: Adj, src: int): Adj
    requires 0 <= src < |a|
  {
    seq(|a|, v requires 0 <= v < |a| => if v in a[src] then a[v] - {src} else a[v])
  }

  /** `n` vertices without edges. */
  function Empty(n: nat): Adj {
    seq(n, _ => map[])
  }

  /** The tree edges `parent[i] -> i` for the first `k` entries of a parent
      array whose in-range, non-sentinel entries name the parent of `i`. */
  function TreeAdjBefore(parent: seq<int>, k: nat): Adj
    requires k <= |parent|
  {
    seq(|parent|, v requires 0 <= v < |parent| =>
      map i | 0 <= i < k && parent[i] == v :: 0)
  }

  /** The graph the parent-array constructor builds. */
  function TreeAdj(parent: seq<int>): Adj {
    TreeAdjBefore(parent, |parent|)
  }

  class Digraph {
    var adj: Adj

    /** `digraph(int nverts)`. */
    constructor (nverts: nat)
      ensures adj == Empty(nverts)
    {
      adj := Empty(nverts);
    }

    /** The copy constructor: a deep copy of every edge map. */
    constructor Copy(g: Digraph)
      ensures adj == g.adj
    {
      adj := g.adj;
    }

    /** `digraph(std::vector<int> const& parent)`: for each `i`, the edge
        `parent[i] -> i` with the default weight `int() == 0`, when
        `parent[i]` is neither -1 nor beyond the array. An entry below -1
        would index outside the vector, so callers must not pass one. */
    constructor FromParent(parent: seq<int>)
      requires forall i :: 0 <= i < |parent| ==> -1 <= parent[i]
      ensures adj == TreeAdj(parent)
    {
      adj := Empty(|parent|);
      new;
      var dst := 0;
      while dst < |parent|
        invariant 0 <= dst <= |parent|
        invariant adj == TreeAdjBefore(parent, dst)
      {
        var src := parent[dst];
        if src != -1 && src < |parent| {
          assert dst !in adj[src];
          var _ := AddEdge(src, dst, 0);
        }
        forall v | 0 <= v < |parent|
          ensures adj[v] == TreeAdjBefore(parent, dst + 1)[v]
        {
        }
        dst := dst + 1;
      }
    }

    /** `clear()`: removes every vertex. */
    method Clear()
      modifies this
      ensures adj == []
    {
      adj := [];
    }

    /** `resize(nverts)`: grows with empty edge maps and returns 1; a smaller
        count would orphan edges, so it returns 0 and changes nothing. */
    method Resize(nverts: int) returns (ok: int)
      modifies this
      ensures nverts < old(|adj|) ==> ok == 0 && adj == old(adj)
      ensures nverts >= old(|adj|) ==> ok == 1 && adj == old(adj) + Empty(nverts - old(|adj|))
    {
      if nverts < |adj| {
        return 0;
      }
      adj := adj + Empty(nverts - |adj|);
      return 1;
    }

    function NumVerts(): nat
      reads this
    {
      |adj|
    }

    /** `numEdges()`: the sum of the edge-map sizes, computed on demand. */
    method NumEdges() returns (m: int)
      ensures m == EdgeCount(adj)
    {
      m := 0;
      for v := 0 to |adj|
        invariant m == EdgeCountBefore(adj, v)
      {
        m := m + |adj[v]|;
      }
    }

    /** `minOutDegreeIndex(include_set)`: the first masked-in vertex of
        least out-degree, provided that degree is below `numVerts()` (the
        initial bound of the search); -1 when there is no such vertex. */
    method MinOutDegreeIndex(includeSet: seq<bool>) returns (ndx: int)
      requires |includeSet| <= |adj|
      ensures ndx == -1 <==> forall u :: 0 <= u < |includeSet| && includeSet[u] ==> |adj[u]| >= |adj|
      ensures ndx != -1 ==> 0 <= ndx < |includeSet| && includeSet[ndx] && |adj[ndx]| < |adj|
      ensures ndx != -1 ==> forall u :: 0 <= u < |includeSet| && includeSet[u] ==> |adj[ndx]| <= |adj[u]|
      ensures ndx != -1 ==> forall u :: 0 <= u < ndx && includeSet[u] ==> |adj[ndx]| < |adj[u]|
    {
      var m := |adj|;
      ndx := -1;
      for v := 0 to |includeSet|
        invariant ndx == -1 ==> m == |adj| && forall u :: 0 <= u < v && includeSet[u] ==> |adj[u]| >= |adj|
        invariant ndx != -1 ==> 0 <= ndx < v && includeSet[ndx] && m == |adj[ndx]| < |adj|
        invariant ndx != -1 ==> forall u :: 0 <= u < v && includeSet[u] ==> m <= |adj[u]|
        invariant ndx != -1 ==> forall u :: 0 <= u < ndx && includeSet[u] ==> m < |adj[u]|
      {
        if includeSet[v] && |adj[v]| < m {
          m := |adj[v]|;
          ndx := v;
        }
      }
    }

    /** `findEdge(src, dst)`: the stored weight, or `None` for `end()`. */
    function FindEdge(src: int, dst: int): (r: Option<int>)
      reads this
      requires 0 <= src < |adj|
      ensures r.Some? <==> dst in adj[src]
      ensures r.Some? ==> r.value == adj[src][dst]
    {
      Find(adj[src], dst)
    }

    /** `adj(src)` and the const `operator[]`: the edge map of `src`. */
    function Adj(src: int): EdgeMap
      reads this
      requires 0 <= src < |adj|
    {
      adj[src]
    }

    /** `addEdge(src, dst, e)`: inserts `src -> dst` with weight `e` unless
        that edge exists; reports whether it inserted. `src` must be a vertex
        and `dst < numVerts()` is the bound the debug build checks. */
    method AddEdge(src: int, dst: int, e: int) returns (inserted: bool)
      requires 0 <= src < |adj| && dst < |adj|
      modifies this
      ensures inserted <==> dst !in old(adj)[src]
      ensures adj == Insert(old(adj), src, dst, e)
    {
      inserted := dst !in adj[src];
      if inserted {
        adj := adj[src := adj[src][dst := e]];
      }
    }

    /** `addVertex(v)`: a new last vertex whose edge map is a copy of that
        of `v`; returns its index. */
    method AddVertex(v: int) returns (pos: int)
      requires 0 <= v < |adj|
      modifies this
      ensures pos == old(|adj|)
      ensures adj == old(adj) + [old(adj)[v]]
    {
      adj := adj + [adj[v]];
      pos := |adj| - 1;
    }

    /** `delEdge(src, dst)`: removes `src -> dst`; reports whether it existed. */
    method DelEdge(src: int, dst: int) returns (deleted: bool)
      requires 0 <= src < |adj|
      modifies this
      ensures deleted <==> dst in old(adj)[src]
      ensures adj == Erase(old(adj), src, dst)
    {
      deleted := dst in adj[src];
      adj := adj[src := adj[src] - {dst}];
    }

    /** The protected `delEdge(src, ditr)`: erases the entry the iterator
        designates, which must be an entry of the map of `src`. */
    method DelEdgeAt(src: int, dst: int)
      requires 0 <= src < |adj| && dst in adj[src]
      modifies this
      ensures adj == Erase(old(adj), src, dst)
    {
      adj := adj[src := adj[src] - {dst}];
    }

    /** `delInEdges(src)`: for each `w` that `src` points to, erases
        `w -> src`. A self-loop at `src` would make the loop erase the entry
        its own iterator stands on, and each `w` indexes the vector, so both
        are excluded. */
    method DelInEdges(src: int)
      requires 0 <= src < |adj|
      requires src !in adj[src]
      requires forall w :: w in adj[src] ==> 0 <= w < |adj|
      modifies this
      ensures adj == EraseInEdges(old(adj), src)
    {
      var ks := Keys(adj[src]);
      for i := 0 to |ks|
        invariant |adj| == |old(adj)|
        invariant adj[src] == old(adj)[src]
        invariant forall v :: 0 <= v < |adj| ==>
          adj[v] == if v in ks[..i] then old(adj)[v] - {src} else old(adj)[v]
      {
        var _ := DelEdge(ks[i], src);
      }
      assert ks[..|ks|] == ks;
      forall v | 0 <= v < |adj|
        ensures adj[v] == EraseInEdges(old(adj), src)[v]
      {
        if v in old(adj)[src] {
          KeysComplete(old(adj)[src], v);
        }
      }
    }

    /** `delOutEdges(src)`: empties the edge map of `src`. */
    method DelOutEdges(src: int)
      requires 0 <= src < |adj|
      modifies this
      ensures adj == old(adj)[src := map[]]
    {
      adj := adj[src := map[]];
    }

    /** `appendGraph(g)`: appends copies of all of `g`'s edge maps, keeping
        their destination indices as they were in `g` (no renumbering). The
        vertex count of `g` is taken before the loop, so appending a graph to
        itself doubles it. */
    method AppendGraph(g: Digraph)
      modifies this
      ensures adj == old(adj) + old(g.adj)
    {
      ghost var source := g.adj;
      var n := |g.adj|;
      for v := 0 to n
        invariant adj == old(adj) + source[..v]
        invariant g == this ==> source == old(adj)
        invariant g != this ==> g.adj == source
      {
        assert g.adj[v] == source[v];
        adj := adj + [g.adj[v]];
      }
      assert source[..n] == source;
    }
  }

  /** Inserting reports success exactly when the edge was absent, stores the
      weight without overwriting an existing one, adds exactly one edge, and
      changes no other vertex's map. */
  lemma InsertProperties(a: Adj, src: int, dst: int, e: int)
    requires 0 <= src < |a|
    ensures |Insert(a, src, dst, e)| == |a|
    ensures forall v :: 0 <= v < |a| && v != src ==> Insert(a, src, dst, e)[v] == a[v]
    ensures dst in a[src] ==> Insert(a, src, dst, e) == a
    ensures dst !in a[src] ==> Find(Insert(a, src, dst, e)[src], dst) == Some(e)
    ensures EdgeCount(Insert(a, src, dst, e)) == EdgeCount(a) + (if dst in a[src] then 0 else 1)
  {
    if dst !in a[src] {
      EdgeCountUpdate(a, src, a[src][dst := e], |a|);
    }
  }

  /** Erasing leaves `dst` absent, removes exactly one edge when it was
      there and none otherwise, and changes no other vertex's map. */
  lemma EraseProperties(a: Adj, src: int, dst: int)
    requires 0 <= src < |a|
    ensures |Erase(a, src, dst)| == |a|
    ensures dst !in Erase(a, src, dst)[src]
    ensures forall v :: 0 <= v < |a| && v != src ==> Erase(a, src, dst)[v] == a[v]
    ensures dst !in a[src] ==> Erase(a, src, dst) == a
    ensures EdgeCount(Erase(a, src, dst)) == EdgeCount(a) - (if dst in a[src] then 1 else 0)
  {
    EdgeCountUpdate(a, src, a[src] - {dst}, |a|);
    if dst !in a[src] {
      assert a[src] - {dst} == a[src];
    }
  }

  /** `delInEdges(src)` removes `src` only from the maps of the
      destinations of `src`: with vertices 0 and 1 and the single edge
      `1 -> 0`, `delInEdges(0)` keeps that in-edge of 0. */
  lemma EraseInEdgesKeepsUnlistedInEdge()
    ensures 0 in EraseInEdges([map[], map[0 := 0]], 0)[1]
  {
  }

  /** After `delInEdges(src)`, no vertex that `src` pointed to still has an
      edge to `src`; every other edge into `src` survives, and the map of
      `src` itself is untouched when it has no self-loop. */
  lemma EraseInEdgesProperties(a: Adj, src: int)
    requires 0 <= src < |a| && src !in a[src]
    ensures |EraseInEdges(a, src)| == |a|
    ensures forall w :: w in a[src] && 0 <= w < |a| ==> src !in EraseInEdges(a, src)[w]
    ensures forall v :: 0 <= v < |a| && v !in a[src] ==> EraseInEdges(a, src)[v] == a[v]
    ensures forall v, w :: 0 <= v < |a| && w in a[v] && w != src ==>
                            w in EraseInEdges(a, src)[v] && EraseInEdges(a, src)[v][w] == a[v][w]
    ensures EraseInEdges(a, src)[src] == a[src]
  {
  }

  /** Growing the vertex count keeps every edge and adds none. */
  lemma GrowProperties(a: Adj, k: nat)
    ensures EdgeCount(a + Empty(k)) == EdgeCount(a)
    ensures Closed(a) ==> Closed(a + Empty(k))
  {
    EdgeCountAppend(a, Empty(k), k);
    EmptyHasNoEdges(k, k);
  }

  lemma {:induction false} EmptyHasNoEdges(n: nat, k: nat)
    requires k <= n
    ensures EdgeCountBefore(Empty(n), k) == 0
  {
    if k > 0 {
      EmptyHasNoEdges(n, k - 1);
    }
  }

  /** A new graph has `n` vertices and no edge. */
  lemma EmptyProperties(n: nat)
    ensures |Empty(n)| == n && EdgeCount(Empty(n)) == 0 && Closed(Empty(n))
  {
    EmptyHasNoEdges(n, n);
  }

  /** `addVertex(v)` adds as many edges as `v` has; `appendGraph(g)` adds
      all of `g`'s. Both keep every destination a vertex of the graph. */
  lemma AppendProperties(a: Adj, b: Adj)
    ensures EdgeCount(a + b) == EdgeCount(a) + EdgeCount(b)
    ensures Closed(a) && Closed(b) ==> Closed(a + b)
  {
    EdgeCountAppend(a, b, |b|);
    if Closed(a) && Closed(b) {
      forall v, w | 0 <= v < |a + b| && w in (a + b)[v] ensures 0 <= w < |a + b| {
        if v >= |a| {
          assert (a + b)[v] == b[v - |a|];
        }
      }
    }
  }

  /** Inserting an edge to a vertex, and every kind of erase, keep all
      destinations vertices of the graph. */
  lemma MutatorsKeepClosed(a: Adj, src: int, dst: int, e: int)
    requires Closed(a) && 0 <= src < |a|
    ensures 0 <= dst < |a| ==> Closed(Insert(a, src, dst, e))
    ensures Closed(Erase(a, src, dst))
    ensures Closed(a[src := map[]])
    ensures Closed(EraseInEdges(a, src))
  {
  }

  /** The parent-array graph: `i -> j` is an edge exactly when `parent[j]`
      is `i`, and every edge has the default weight. */
  lemma TreeAdjEdges(parent: seq<int>, u: int, j: int)
    requires 0 <= u < |parent|
    ensures j in TreeAdj(parent)[u] <==> 0 <= j < |parent| && parent[j] == u
    ensures j in TreeAdj(parent)[u] ==> TreeAdj(parent)[u][j] == 0
  {
  }

  /** Its destinations are vertices, and no vertex has two parents. */
  lemma TreeAdjShape(parent: seq<int>)
    ensures |TreeAdj(parent)| == |parent|
    ensures Closed(TreeAdj(parent))
    ensures forall u, v, j ::
      0 <= u < |parent| && 0 <= v < |parent| && j in TreeAdj(parent)[u] && j in TreeAdj(parent)[v] ==> u == v
  {
  }
}
