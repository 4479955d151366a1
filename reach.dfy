/** Reachability along outgoing edges and the state the breadth-first
    search maintains, as values, with the lemmas that carry the search from
    one step to the next. */
module Reach {
  import opened Adjacency

  /** Step `i` of `p` follows a stored edge. */
  ghost predicate Linked(a: Adj, p: seq<int>, i: int)
    requires 0 <= i < |p| - 1
  {
    0 <= p[i] < |a| && p[i + 1] in a[p[i]]
  }

  /** A non-empty walk along outgoing edges through vertices of the graph. */
  ghost predicate IsPath(a: Adj, p: seq<int>) {
    && |p| > 0
    && (forall i :: 0 <= i < |p| ==> 0 <= p[i] < |a|)
    && (forall i :: 0 <= i < |p| - 1 ==> Linked(a, p, i))
  }

  /** `t` can be reached from `s` along outgoing edges (in zero or more steps). */
  ghost predicate Reachable(a: Adj, s: int, t: int) {
    exists p :: IsPath(a, p) && p[0] == s && p[|p| - 1] == t
  }

  /** `dist` gives every vertex a level: 0 at `src`, one more than its
      parent's at every vertex with a parent, and at most one more than its
      source's along every edge out of a reached vertex. Levels strictly
      increase along parent links, so the links have no cycle, and they
      make every recorded path to a vertex a shortest one
      (`TreePathsAreShortest`). */
  ghost predicate Levels(a: Adj, src: int, parent: seq<int>, dist: seq<nat>)
    requires 0 <= src < |a| && |parent| == |a|
  {
    && |dist| == |a| && dist[src] == 0
    && (forall w :: 0 <= w < |a| && 0 <= parent[w] < |a| ==> dist[w] == dist[parent[w]] + 1)
    && (forall u, w :: 0 <= u < |a| && (u == src || parent[u] != -1) && w in a[u] && 0 <= w < |a| ==>
          dist[w] <= dist[u] + 1)
  }

  /** What `bfs(src, parent)` leaves in `parent`: one entry per vertex; -1 at
      `src`; every other entry -1 or a vertex with an edge to the entry's own
      index; apart from `src`, an entry other than -1 exactly at the vertices
      reachable from `src`; every recorded parent is itself `src` or has a
      parent; and the links have breadth-first levels. Together these make
      the entries a tree rooted at `src` (`ParentsLeadToSource`) whose
      paths are shortest paths (`TreePathsAreShortest`). */
  ghost predicate IsBfsParent(a: Adj, src: int, parent: seq<int>)
    requires 0 <= src < |a|
  {
    && |parent| == |a|
    && parent[src] == -1
    && (forall w :: 0 <= w < |a| ==> parent[w] == -1 || (0 <= parent[w] < |a| && w in a[parent[w]]))
    && (forall w :: 0 <= w < |a| && w != src ==> (parent[w] != -1 <==> Reachable(a, src, w)))
    && (forall w :: 0 <= w < |a| && parent[w] != -1 ==> parent[w] == src || parent[parent[w]] != -1)
    && (exists dist :: Levels(a, src, parent, dist))
  }

  /** The vertex reached from `w` by following `k` parent links (or the -1
      where the links stop). */
  function Climb(parent: seq<int>, w: int, k: nat): int
    decreases k
  {
    if k == 0 || !(0 <= w < |parent|) then w else Climb(parent, parent[w], k - 1)
  }

  /** The position of `x` in `s`. */
  function IndexOf(s: seq<int>, x: int): (i: nat)
    requires x in s
    ensures i < |s| && s[i] == x
  {
    if s[0] == x then 0 else 1 + IndexOf(s[1..], x)
  }

  predicate Distinct(s: seq<int>) {
    forall i, j :: 0 <= i < j < |s| ==> s[i] != s[j]
  }

  function CountFalse(s: seq<bool>): nat {
    if s == [] then 0 else CountFalse(s[1..]) + (if s[0] then 0 else 1)
  }

  lemma {:induction false} CountFalseMark(s: seq<bool>, i: int)
    requires 0 <= i < |s| && !s[i]
    ensures CountFalse(s[i := true]) == CountFalse(s) - 1
  {
    if i > 0 {
      assert s[i := true][1..] == s[1..][i - 1 := true];
      CountFalseMark(s[1..], i - 1);
    } else {
      assert s[i := true][1..] == s[1..];
    }
  }

  /** One more edge from a reachable vertex reaches its destination. */
  lemma ReachStep(a: Adj, s: int, v: int, w: int)
    requires Reachable(a, s, v) && 0 <= w < |a| && w in a[v]
    ensures Reachable(a, s, w)
  {
    var p :| IsPath(a, p) && p[0] == s && p[|p| - 1] == v;
    var q := p + [w];
    forall i | 0 <= i < |q| - 1 ensures Linked(a, q, i) {
      if i < |p| - 1 {
        assert Linked(a, p, i);
      }
    }
    assert IsPath(a, q);
  }

  /** A set of vertices (as a mask) that holds `p[0]` and is closed under
      outgoing edges holds the end of the walk `p`. */
  lemma {:induction false} ClosedMaskHoldsPathEnd(a: Adj, mark: seq<bool>, p: seq<int>)
    requires |mark| == |a| && IsPath(a, p) && mark[p[0]]
    requires forall v, w :: 0 <= v < |a| && mark[v] && w in a[v] && 0 <= w < |a| ==> mark[w]
    ensures mark[p[|p| - 1]]
  {
    if |p| > 1 {
      var p' := p[..|p| - 1];
      forall i | 0 <= i < |p'| - 1 ensures Linked(a, p', i) {
        assert Linked(a, p, i);
      }
      assert IsPath(a, p');
      ClosedMaskHoldsPathEnd(a, mark, p');
      assert Linked(a, p, |p| - 2);
    }
  }

  /** Hence every vertex reachable from a vertex in such a set is in it. */
  lemma ClosedMaskHoldsReachable(a: Adj, mark: seq<bool>, s: int, t: int)
    requires |mark| == |a| && 0 <= s < |a| && mark[s] && Reachable(a, s, t)
    requires forall v, w :: 0 <= v < |a| && mark[v] && w in a[v] && 0 <= w < |a| ==> mark[w]
    ensures 0 <= t < |a| && mark[t]
  {
    var p :| IsPath(a, p) && p[0] == s && p[|p| - 1] == t;
    ClosedMaskHoldsPathEnd(a, mark, p);
  }

  /** The state of the search after the first `done` enqueued vertices have
      been expanded: `visited` marks exactly the enqueued vertices, each
      enqueued once; the parent entries follow edges; every visited vertex
      is reachable; every edge out of an expanded vertex leads to a visited
      one; and each enqueued vertex's parent was enqueued before it. */
  ghost predicate SearchState(a: Adj, src: int, parent: seq<int>, visited: seq<bool>, order: seq<int>, done: int)
  {
    && 0 <= src < |a| && |parent| == |a| && |visited| == |a|
    && visited[src] && parent[src] == -1
    && 0 <= done <= |order|
    && (forall i :: 0 <= i < |order| ==> 0 <= order[i] < |a|)
    && (forall w :: 0 <= w < |a| ==> (visited[w] <==> w in order))
    && Distinct(order)
    && (forall w :: 0 <= w < |a| && w != src ==> (parent[w] != -1 <==> visited[w]))
    && (forall w :: 0 <= w < |a| ==> parent[w] == -1 || (0 <= parent[w] < |a| && w in a[parent[w]]))
    && (forall w :: 0 <= w < |a| && visited[w] ==> Reachable(a, src, w))
    && (forall i, w :: 0 <= i < done && w in a[order[i]] && 0 <= w < |a| ==> visited[w])
    && ParentsEarlier(parent, order)
  }

  /** Every vertex of `order` that has a parent comes after that parent. */
  ghost predicate ParentsEarlier(parent: seq<int>, order: seq<int>) {
    forall j :: 0 <= j < |order| && 0 <= order[j] < |parent| && parent[order[j]] != -1 ==>
      parent[order[j]] in order[..j]
  }

  /** The levels of the enqueued vertices while the queue is worked off:
      `dist` is 0 at `src` and fits the parent link of every enqueued
      vertex; it never decreases along the queue order; no enqueued vertex
      is more than one level above the next vertex to expand; and every
      edge out of an expanded vertex rises at most one level. */
  ghost predicate Levelled(a: Adj, src: int, parent: seq<int>, order: seq<int>, done: int, dist: seq<nat>) {
    && 0 <= src < |dist| && dist[src] == 0 && |parent| == |dist| && |a| == |dist|
    && 0 <= done <= |order|
    && (forall j :: 0 <= j < |order| ==> 0 <= order[j] < |dist|)
    && LevelsFit(parent, order, dist)
    && LevelsSorted(order, dist)
    && LevelsSpan(order, done, dist)
    && LevelsRise(a, order, done, dist)
  }

  ghost predicate LevelsFit(parent: seq<int>, order: seq<int>, dist: seq<nat>)
    requires |parent| == |dist| && forall j :: 0 <= j < |order| ==> 0 <= order[j] < |dist|
  {
    forall j :: 0 <= j < |order| && 0 <= parent[order[j]] < |dist| ==> dist[order[j]] == dist[parent[order[j]]] + 1
  }

  ghost predicate LevelsSorted(order: seq<int>, dist: seq<nat>)
    requires forall j :: 0 <= j < |order| ==> 0 <= order[j] < |dist|
  {
    forall i, j :: 0 <= i < j < |order| ==> dist[order[i]] <= dist[order[j]]
  }

  ghost predicate LevelsSpan(order: seq<int>, done: int, dist: seq<nat>)
    requires 0 <= done <= |order| && forall j :: 0 <= j < |order| ==> 0 <= order[j] < |dist|
  {
    done < |order| ==> forall j :: 0 <= j < |order| ==> dist[order[j]] <= dist[order[done]] + 1
  }

  ghost predicate LevelsRise(a: Adj, order: seq<int>, done: int, dist: seq<nat>)
    requires |a| == |dist| && 0 <= done <= |order| && forall j :: 0 <= j < |order| ==> 0 <= order[j] < |dist|
  {
    forall i, w :: 0 <= i < done && w in a[order[i]] && 0 <= w < |a| ==> dist[w] <= dist[order[i]] + 1
  }

  /** The levels after the vertex being expanded, at level `d - 1`, has
      been swept: every vertex the sweep newly visited is at level `d`. */
  ghost function Deepen(dist: seq<nat>, before: seq<bool>, after: seq<bool>, d: nat): (r: seq<nat>)
    ensures |r| == |dist|
    ensures forall x :: 0 <= x < |dist| && x < |before| && x < |after| ==>
      r[x] == if !before[x] && after[x] then d else dist[x]
  {
    seq(|dist|, x requires 0 <= x < |dist| => if x < |before| && x < |after| && !before[x] && after[x] then d else dist[x])
  }

  lemma SearchStart(a: Adj, src: int)
    requires 0 <= src < |a|
    ensures SearchState(a, src, seq(|a|, _ => -1), seq(|a|, _ => false)[src := true], [src], 0)
  {
    assert IsPath(a, [src]);
  }

  /** Visiting an unvisited destination `w` of the vertex being expanded. */
  lemma SearchVisit(a: Adj, src: int, parent: seq<int>, visited: seq<bool>, order: seq<int>, done: int, w: int)
    requires SearchState(a, src, parent, visited, order, done)
    requires done < |order| && 0 <= w < |a| && w in a[order[done]] && !visited[w]
    ensures SearchState(a, src, parent[w := order[done]], visited[w := true], order + [w], done)
  {
    ReachStep(a, src, order[done], w);
    var order' := order + [w];
    forall i, x | 0 <= i < done && x in a[order'[i]] && 0 <= x < |a| ensures visited[w := true][x] {
      assert order'[i] == order[i];
    }
    ParentsEarlierPush(parent, order, w, order[done]);
  }

  /** A vertex pushed with a parent already in the queue order keeps every
      parent ahead of its child. */
  lemma ParentsEarlierPush(parent: seq<int>, order: seq<int>, w: int, p: int)
    requires ParentsEarlier(parent, order)
    requires 0 <= w < |parent| && w !in order && p in order
    ensures ParentsEarlier(parent[w := p], order + [w])
  {
    var order', parent' := order + [w], parent[w := p];
    forall j | 0 <= j < |order'| && 0 <= order'[j] < |parent'| && parent'[order'[j]] != -1
      ensures parent'[order'[j]] in order'[..j]
    {
      if j < |order| {
        assert order'[j] == order[j] != w && order'[..j] == order[..j];
      } else {
        assert order'[..j] == order;
      }
    }
  }

  /** The parent array, visited mask and pushed vertices after the inner
      loop of the search has looked at some destinations. */
  datatype Sweep = Sweep(parent: seq<int>, visited: seq<bool>, pushed: seq<int>)

  /** The inner loop of the search over the destinations `ws` of `v`, in
      order: each destination not yet visited is marked, gets `v` as its
      parent and is pushed on the queue. */
  ghost function Discover(v: int, parent: seq<int>, visited: seq<bool>, ws: seq<int>): (r: Sweep)
    requires |parent| == |visited|
    requires forall i :: 0 <= i < |ws| ==> 0 <= ws[i] < |visited|
    ensures |r.parent| == |parent| && |r.visited| == |visited|
    decreases |ws|
  {
    if ws == [] then Sweep(parent, visited, [])
    else
      var r := Discover(v, parent, visited, ws[..|ws| - 1]);
      var w := ws[|ws| - 1];
      if r.visited[w] then r else Sweep(r.parent[w := v], r.visited[w := true], r.pushed + [w])
  }

  /** Sweeping destinations of the vertex being expanded keeps the search
      state. */
  lemma {:induction false} DiscoverKeepsState(a: Adj, src: int, parent: seq<int>, visited: seq<bool>,
                                              order: seq<int>, done: int, ws: seq<int>)
    requires SearchState(a, src, parent, visited, order, done) && done < |order|
    requires forall i :: 0 <= i < |ws| ==> 0 <= ws[i] < |a| && ws[i] in a[order[done]]
    ensures var r := Discover(order[done], parent, visited, ws);
      SearchState(a, src, r.parent, r.visited, order + r.pushed, done)
  {
    if ws != [] {
      var ws' := ws[..|ws| - 1];
      DiscoverKeepsState(a, src, parent, visited, order, done, ws');
      var r := Discover(order[done], parent, visited, ws');
      var w := ws[|ws| - 1];
      if !r.visited[w] {
        var order' := order + r.pushed;
        assert order'[done] == order[done];
        SearchVisit(a, src, r.parent, r.visited, order', done, w);
        assert order' + [w] == order + (r.pushed + [w]);
      }
    } else {
      assert order + [] == order;
    }
  }

  /** It visits every destination it looks at, and each push uses up one
      unvisited vertex. */
  lemma {:induction false} DiscoverVisits(v: int, parent: seq<int>, visited: seq<bool>, ws: seq<int>)
    requires |parent| == |visited|
    requires forall i :: 0 <= i < |ws| ==> 0 <= ws[i] < |visited|
    ensures var r := Discover(v, parent, visited, ws);
      && CountFalse(r.visited) + |r.pushed| == CountFalse(visited)
      && (forall i :: 0 <= i < |ws| ==> r.visited[ws[i]])
      && (forall w :: 0 <= w < |visited| && visited[w] ==> r.visited[w])
  {
    if ws != [] {
      var ws' := ws[..|ws| - 1];
      DiscoverVisits(v, parent, visited, ws');
      var r := Discover(v, parent, visited, ws');
      var w := ws[|ws| - 1];
      if !r.visited[w] {
        CountFalseMark(r.visited, w);
      }
    }
  }

  /** Finishing the expansion of a vertex all of whose destinations are visited. */
  lemma SearchExpanded(a: Adj, src: int, parent: seq<int>, visited: seq<bool>, order: seq<int>, done: int)
    requires SearchState(a, src, parent, visited, order, done)
    requires done < |order| && forall w :: w in a[order[done]] && 0 <= w < |a| ==> visited[w]
    ensures SearchState(a, src, parent, visited, order, done + 1)
  {
  }

  /** Once every enqueued vertex is expanded, the parent array is the
      result, and the levels kept during the search are its levels. */
  lemma SearchComplete(a: Adj, src: int, parent: seq<int>, visited: seq<bool>, order: seq<int>, dist: seq<nat>)
    requires SearchState(a, src, parent, visited, order, |order|) && Closed(a)
    requires Levelled(a, src, parent, order, |order|, dist)
    ensures IsBfsParent(a, src, parent)
    ensures forall w :: w in order <==> 0 <= w < |a| && (w == src || parent[w] != -1)
  {
    forall w | 0 <= w < |a| && parent[w] != -1
      ensures dist[w] == dist[parent[w]] + 1 && (parent[w] == src || parent[parent[w]] != -1)
    {
      var j := IndexOf(order, w);
      assert parent[order[j]] in order[..j];
    }
    forall u, w | 0 <= u < |a| && (u == src || parent[u] != -1) && w in a[u] && 0 <= w < |a|
      ensures dist[w] <= dist[u] + 1
    {
      var i := IndexOf(order, u);
    }
    assert Levels(a, src, parent, dist);
    forall v, w | 0 <= v < |a| && visited[v] && w in a[v] && 0 <= w < |a|
      ensures visited[w]
    {
      var i :| 0 <= i < |order| && order[i] == v;
    }
    forall w | 0 <= w < |a| && w != src && Reachable(a, src, w)
      ensures parent[w] != -1
    {
      ClosedMaskHoldsReachable(a, visited, src, w);
    }
  }

  lemma SuffixAppend(s: seq<int>, p: seq<int>, k: int)
    requires 0 <= k <= |s|
    ensures (s + p)[k..] == s[k..] + p
  {
  }

  /** Following parent links from `src` or from any vertex with a parent
      leads back to `src`: the parent array is a tree rooted there. */
  lemma ParentsLeadToSource(a: Adj, src: int, parent: seq<int>, w: int)
    requires 0 <= src < |a| && IsBfsParent(a, src, parent)
    requires 0 <= w < |a| && (w == src || parent[w] != -1)
    ensures exists k: nat :: Climb(parent, w, k) == src
  {
    var dist :| Levels(a, src, parent, dist);
    ClimbLevels(a, src, parent, dist, w);
  }

  /** From a vertex at level `k`, `k` parent links lead to `src`. */
  lemma {:induction false} ClimbLevels(a: Adj, src: int, parent: seq<int>, dist: seq<nat>, w: int)
    requires 0 <= src < |a| && IsBfsParent(a, src, parent) && Levels(a, src, parent, dist)
    requires 0 <= w < |a| && (w == src || parent[w] != -1)
    ensures Climb(parent, w, dist[w]) == src
    decreases dist[w]
  {
    if w != src {
      var p := parent[w];
      ClimbLevels(a, src, parent, dist, p);
      assert Climb(parent, w, dist[w]) == Climb(parent, p, dist[p]);
    }
  }

  /** Every vertex other than `src` reachable from `src` has a parent. */
  ghost predicate ReachedHaveParents(a: Adj, src: int, parent: seq<int>)
    requires |parent| == |a|
  {
    forall w :: 0 <= w < |a| && w != src && Reachable(a, src, w) ==> parent[w] != -1
  }

  /** Along a walk from `src`, the `i`-th vertex is reached and its level is
      at most `i`. */
  lemma {:induction false} LevelAlongPath(a: Adj, src: int, parent: seq<int>, dist: seq<nat>, p: seq<int>, i: int)
    requires 0 <= src < |a| && |parent| == |a| && Levels(a, src, parent, dist)
    requires ReachedHaveParents(a, src, parent)
    requires IsPath(a, p) && p[0] == src && 0 <= i < |p|
    ensures (p[i] == src || parent[p[i]] != -1) && dist[p[i]] <= i
    decreases i
  {
    if i > 0 {
      LevelAlongPath(a, src, parent, dist, p, i - 1);
      assert Linked(a, p, i - 1);
      LevelsEdge(a, src, parent, dist, p[i - 1], p[i]);
      PrefixReaches(a, p, i);
    }
  }

  /** An edge out of a reached vertex rises at most one level. */
  lemma LevelsEdge(a: Adj, src: int, parent: seq<int>, dist: seq<nat>, u: int, w: int)
    requires 0 <= src < |a| && |parent| == |a| && Levels(a, src, parent, dist)
    requires 0 <= u < |a| && (u == src || parent[u] != -1) && w in a[u] && 0 <= w < |a|
    ensures dist[w] <= dist[u] + 1
  {
  }

  /** Every vertex of a walk is reachable from its first vertex. */
  lemma PrefixReaches(a: Adj, p: seq<int>, i: int)
    requires IsPath(a, p) && 0 <= i < |p|
    ensures Reachable(a, p[0], p[i])
  {
    var q := p[..i + 1];
    forall k | 0 <= k < |q| - 1 ensures Linked(a, q, k) {
      assert Linked(a, p, k);
    }
    assert IsPath(a, q);
  }

  /** Breadth first: the parent links from any vertex back to `src` are
      no more than the edges of any walk from `src` to that vertex, so
      every recorded path is a shortest path. */
  lemma TreePathsAreShortest(a: Adj, src: int, parent: seq<int>, p: seq<int>, w: int)
    requires 0 <= src < |a| && IsBfsParent(a, src, parent)
    requires IsPath(a, p) && p[0] == src && p[|p| - 1] == w
    ensures exists k: nat :: k < |p| && Climb(parent, w, k) == src
  {
    var dist :| Levels(a, src, parent, dist);
    assert ReachedHaveParents(a, src, parent);
    LevelAlongPath(a, src, parent, dist, p, |p| - 1);
    ClimbLevels(a, src, parent, dist, w);
    var k: nat := dist[w];
    assert k < |p|;
    assert Climb(parent, w, k) == src;
  }

  /** The levels at the start: `src` alone at level 0. */
  lemma LevelsStart(a: Adj, src: int) returns (dist: seq<nat>)
    requires 0 <= src < |a|
    ensures Levelled(a, src, seq(|a|, _ => -1), [src], 0, dist)
  {
    dist := seq(|a|, _ => 0);
  }

  /** What a sweep of the vertex being expanded, `order[done]`, does to the
      levels: the new arrays agree with the old ones on every enqueued
      vertex, and each vertex pushed gets the expanded vertex as parent and
      the level above it. */
  ghost predicate LevelsAppendable(a: Adj, src: int, parent: seq<int>, order: seq<int>, done: int, dist: seq<nat>,
                                   parent': seq<int>, pushed: seq<int>, dist': seq<nat>)
  {
    && Levelled(a, src, parent, order, done, dist) && ParentsEarlier(parent, order)
    && done < |order| && src in order && |parent'| == |parent| && |dist'| == |dist|
    && (forall i, x :: 0 <= i < done && x in a[order[i]] && 0 <= x < |a| ==> x in order)
    && (forall j :: 0 <= j < |order| ==> parent'[order[j]] == parent[order[j]] && dist'[order[j]] == dist[order[j]])
    && (forall k :: 0 <= k < |pushed| ==>
          0 <= pushed[k] < |dist| && parent'[pushed[k]] == order[done] && dist'[pushed[k]] == dist[order[done]] + 1)
  }

  /** Such a sweep keeps the levels, with the pushed vertices at the back
      of the queue. */
  lemma LevelsAppend(a: Adj, src: int, parent: seq<int>, order: seq<int>, done: int, dist: seq<nat>,
                          parent': seq<int>, pushed: seq<int>, dist': seq<nat>)
    requires LevelsAppendable(a, src, parent, order, done, dist, parent', pushed, dist')
    ensures Levelled(a, src, parent', order + pushed, done, dist')
  {
    var src' := IndexOf(order, src);
    AppendFits(a, src, parent, order, done, dist, parent', pushed, dist');
    AppendSorted(a, src, parent, order, done, dist, parent', pushed, dist');
    AppendSpan(a, src, parent, order, done, dist, parent', pushed, dist');
    AppendRise(a, src, parent, order, done, dist, parent', pushed, dist');
  }

  lemma AppendFits(a: Adj, src: int, parent: seq<int>, order: seq<int>, done: int, dist: seq<nat>,
                        parent': seq<int>, pushed: seq<int>, dist': seq<nat>)
    requires LevelsAppendable(a, src, parent, order, done, dist, parent', pushed, dist')
    ensures forall j :: 0 <= j < |order + pushed| ==> 0 <= (order + pushed)[j] < |dist'|
    ensures LevelsFit(parent', order + pushed, dist')
  {
    var order' := order + pushed;
    forall j | 0 <= j < |order'| && 0 <= parent'[order'[j]] < |dist'|
      ensures dist'[order'[j]] == dist'[parent'[order'[j]]] + 1
    {
      if j < |order| {
        assert order'[j] == order[j] && parent[order[j]] in order[..j];
      } else {
        assert order'[j] == pushed[j - |order|];
      }
    }
  }

  lemma AppendSorted(a: Adj, src: int, parent: seq<int>, order: seq<int>, done: int, dist: seq<nat>,
                          parent': seq<int>, pushed: seq<int>, dist': seq<nat>)
    requires LevelsAppendable(a, src, parent, order, done, dist, parent', pushed, dist')
    requires forall j :: 0 <= j < |order + pushed| ==> 0 <= (order + pushed)[j] < |dist'|
    ensures LevelsSorted(order + pushed, dist')
  {
    var order' := order + pushed;
    forall i, j | 0 <= i < j < |order'| ensures dist'[order'[i]] <= dist'[order'[j]] {
      if i < |order| {
        assert order'[i] == order[i];
      } else {
        assert order'[i] == pushed[i - |order|];
      }
      if j < |order| {
        assert order'[j] == order[j];
      } else {
        assert order'[j] == pushed[j - |order|];
      }
    }
  }

  lemma AppendSpan(a: Adj, src: int, parent: seq<int>, order: seq<int>, done: int, dist: seq<nat>,
                        parent': seq<int>, pushed: seq<int>, dist': seq<nat>)
    requires LevelsAppendable(a, src, parent, order, done, dist, parent', pushed, dist')
    requires forall j :: 0 <= j < |order + pushed| ==> 0 <= (order + pushed)[j] < |dist'|
    ensures LevelsSpan(order + pushed, done, dist')
  {
    var order' := order + pushed;
    forall j | 0 <= j < |order'| ensures dist'[order'[j]] <= dist'[order'[done]] + 1 {
      assert order'[done] == order[done];
      if j < |order| {
        assert order'[j] == order[j];
      } else {
        assert order'[j] == pushed[j - |order|];
      }
    }
  }

  lemma AppendRise(a: Adj, src: int, parent: seq<int>, order: seq<int>, done: int, dist: seq<nat>,
                        parent': seq<int>, pushed: seq<int>, dist': seq<nat>)
    requires LevelsAppendable(a, src, parent, order, done, dist, parent', pushed, dist')
    requires forall j :: 0 <= j < |order + pushed| ==> 0 <= (order + pushed)[j] < |dist'|
    ensures LevelsRise(a, order + pushed, done, dist')
  {
    var order' := order + pushed;
    forall i, x | 0 <= i < done && x in a[order'[i]] && 0 <= x < |a| ensures dist'[x] <= dist'[order'[i]] + 1 {
      assert order'[i] == order[i] && x in order;
      var j := IndexOf(order, x);
    }
  }

  /** Finishing the expansion of a vertex all of whose destinations are
      enqueued: its edges rise at most one level, and the next vertex to
      expand is no lower. */
  lemma LevelsExpanded(a: Adj, src: int, parent: seq<int>, order: seq<int>, done: int, dist: seq<nat>)
    requires Levelled(a, src, parent, order, done, dist)
    requires done < |order| && forall w :: w in a[order[done]] && 0 <= w < |a| ==> w in order
    ensures Levelled(a, src, parent, order, done + 1, dist)
  {
    forall w | w in a[order[done]] && 0 <= w < |a| ensures dist[w] <= dist[order[done]] + 1 {
      var j := IndexOf(order, w);
    }
    if done + 1 < |order| {
      assert dist[order[done]] <= dist[order[done + 1]];
    }
  }

  /** What a sweep changes: visited vertices keep their mark and parent;
      each pushed vertex was unvisited and now is visited with parent `v`;
      and every vertex it marks is pushed. */
  ghost predicate SweepShape(v: int, parent: seq<int>, visited: seq<bool>, r: Sweep)
    requires |r.parent| == |parent| == |visited| == |r.visited|
  {
    && (forall x :: 0 <= x < |visited| && visited[x] ==> r.visited[x] && r.parent[x] == parent[x])
    && (forall k :: 0 <= k < |r.pushed| ==>
          0 <= r.pushed[k] < |visited| && !visited[r.pushed[k]] && r.visited[r.pushed[k]] && r.parent[r.pushed[k]] == v)
    && (forall x :: 0 <= x < |visited| && r.visited[x] && !visited[x] ==> x in r.pushed)
  }

  /** Every sweep has that shape. */
  lemma {:induction false} DiscoverShape(v: int, parent: seq<int>, visited: seq<bool>, ws: seq<int>)
    requires |parent| == |visited|
    requires forall i :: 0 <= i < |ws| ==> 0 <= ws[i] < |visited|
    ensures SweepShape(v, parent, visited, Discover(v, parent, visited, ws))
    decreases |ws|
  {
    if ws != [] {
      var ws' := ws[..|ws| - 1];
      DiscoverShape(v, parent, visited, ws');
      var r := Discover(v, parent, visited, ws');
      var w := ws[|ws| - 1];
      if !r.visited[w] {
        var r' := Discover(v, parent, visited, ws);
        assert r' == Sweep(r.parent[w := v], r.visited[w := true], r.pushed + [w]);
        forall k | 0 <= k < |r'.pushed|
          ensures 0 <= r'.pushed[k] < |visited| && !visited[r'.pushed[k]] && r'.visited[r'.pushed[k]]
          ensures r'.parent[r'.pushed[k]] == v
        {
          if k < |r.pushed| {
            var x := r.pushed[k];
            assert r'.pushed[k] == x;
          } else {
            assert r'.pushed[k] == w && !visited[w];
          }
        }
        forall x | 0 <= x < |visited| && r'.visited[x] && !visited[x] ensures x in r'.pushed {
          if x != w {
            assert x in r.pushed;
          }
        }
      }
    }
  }
}
