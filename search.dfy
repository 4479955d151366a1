/** `digraph<T>::bfs`: breadth-first search from one vertex, recording for
    every vertex it reaches the vertex it was first reached from. */
module Search {
  import opened EdgeContainer
  import opened Adjacency
  import opened Directed
  import opened Reach

  /** The inner loop of `bfs`: with `v`, the vertex just taken from the
      front of the queue, the next to expand, each destination of `v` not
      yet visited is marked, given `v` as parent and pushed on the back of
      the queue. Afterwards `v` counts as expanded, and every push has
      traded one unvisited vertex for one queue entry. */
  method VisitNeighbours(g: Digraph, src: int, v: int, parent: seq<int>, visited: seq<bool>, q: seq<int>,
                         ghost order: seq<int>, ghost done: int, ghost dist: seq<nat>)
    returns (parent': seq<int>, visited': seq<bool>, q': seq<int>, ghost pushed: seq<int>, ghost dist': seq<nat>)
    requires Closed(g.adj) && SearchState(g.adj, src, parent, visited, order, done)
    requires Levelled(g.adj, src, parent, order, done, dist)
    requires done < |order| && order[done] == v
    ensures q' == q + pushed
    ensures SearchState(g.adj, src, parent', visited', order + pushed, done + 1)
    ensures Levelled(g.adj, src, parent', order + pushed, done + 1, dist')
    ensures CountFalse(visited') + |pushed| == CountFalse(visited)
  {
    KeysInRange(g.adj, v);
    parent', visited', q', pushed := SweepDestinations(v, parent, visited, q, Keys(g.adj[v]));
    StateStep(g.adj, src, parent, visited, order, done, parent', visited', pushed);
    dist' := LevelStep(g.adj, src, parent, visited, order, done, dist, parent', visited', pushed);
  }

  /** `ExpandVertex` for the arrays the sweep returns. */
  lemma StateStep(a: Adj, src: int, parent: seq<int>, visited: seq<bool>, order: seq<int>, done: int,
                  parent': seq<int>, visited': seq<bool>, pushed: seq<int>)
    requires Closed(a) && SearchState(a, src, parent, visited, order, done) && done < |order|
    requires forall i :: 0 <= i < |Keys(a[order[done]])| ==> 0 <= Keys(a[order[done]])[i] < |visited|
    requires Sweep(parent', visited', pushed) == Discover(order[done], parent, visited, Keys(a[order[done]]))
    ensures SearchState(a, src, parent', visited', order + pushed, done + 1)
    ensures CountFalse(visited') + |pushed| == CountFalse(visited)
  {
    ExpandVertex(a, src, parent, visited, order, done);
  }

  /** `ExpandVertexLevels` for the arrays the sweep returns: the new
      levels, those of `Deepen`, fit them. */
  lemma LevelStep(a: Adj, src: int, parent: seq<int>, visited: seq<bool>, order: seq<int>, done: int,
                  dist: seq<nat>, parent': seq<int>, visited': seq<bool>, pushed: seq<int>)
    returns (dist': seq<nat>)
    requires Closed(a) && SearchState(a, src, parent, visited, order, done) && done < |order|
    requires Levelled(a, src, parent, order, done, dist)
    requires forall i :: 0 <= i < |Keys(a[order[done]])| ==> 0 <= Keys(a[order[done]])[i] < |visited|
    requires Sweep(parent', visited', pushed) == Discover(order[done], parent, visited, Keys(a[order[done]]))
    ensures Levelled(a, src, parent', order + pushed, done + 1, dist')
  {
    dist' := Deepen(dist, visited, visited', dist[order[done]] + 1);
    ExpandVertexLevels(a, src, parent, visited, order, done, dist);
  }

  /** The loop of `VisitNeighbours` over the destinations `ws` of `v`, in
      order. */
  method SweepDestinations(v: int, parent: seq<int>, visited: seq<bool>, q: seq<int>, ws: seq<int>)
    returns (parent': seq<int>, visited': seq<bool>, q': seq<int>, ghost pushed: seq<int>)
    requires |parent| == |visited|
    requires forall k :: 0 <= k < |ws| ==> 0 <= ws[k] < |visited|
    ensures parent' == Discover(v, parent, visited, ws).parent
    ensures visited' == Discover(v, parent, visited, ws).visited
    ensures q' == q + Discover(v, parent, visited, ws).pushed
    ensures pushed == Discover(v, parent, visited, ws).pushed
  {
    pushed := [];
    parent', visited', q' := parent, visited, q;
    for i := 0 to |ws|
      invariant Sweep(parent', visited', pushed) == Discover(v, parent, visited, ws[..i])
      invariant q' == q + pushed
    {
      DiscoverPrefix(v, parent, visited, ws, i);
      var w := ws[i];
      if !visited'[w] {
        visited' := visited'[w := true];
        parent' := parent'[w := v];
        q' := q' + [w];
        pushed := pushed + [w];
      }
    }
    assert ws[..|ws|] == ws;
  }

  /** Every destination of a vertex of a closed graph is a vertex. */
  lemma KeysInRange(a: Adj, v: int)
    requires Closed(a) && 0 <= v < |a|
    ensures forall i :: 0 <= i < |Keys(a[v])| ==> 0 <= Keys(a[v])[i] < |a| && Keys(a[v])[i] in a[v]
  {
  }

  /** One more destination of a prefix: the step of the inner loop. */
  lemma DiscoverPrefix(v: int, parent: seq<int>, visited: seq<bool>, ws: seq<int>, i: nat)
    requires |parent| == |visited| && i < |ws|
    requires forall k :: 0 <= k < |ws| ==> 0 <= ws[k] < |visited|
    ensures var r := Discover(v, parent, visited, ws[..i]);
      Discover(v, parent, visited, ws[..i + 1]) ==
        if r.visited[ws[i]] then r else Sweep(r.parent[ws[i] := v], r.visited[ws[i] := true], r.pushed + [ws[i]])
  {
    assert ws[..i + 1][..i] == ws[..i];
  }

  /** Sweeping all destinations of the next vertex, in key order, expands
      it: the search state moves on by one vertex, and each push uses up
      one unvisited vertex. */
  lemma ExpandVertex(a: Adj, src: int, parent: seq<int>, visited: seq<bool>, order: seq<int>, done: int)
    requires Closed(a) && SearchState(a, src, parent, visited, order, done) && done < |order|
    ensures forall i :: 0 <= i < |Keys(a[order[done]])| ==> 0 <= Keys(a[order[done]])[i] < |visited|
    ensures var r := Discover(order[done], parent, visited, Keys(a[order[done]]));
      && SearchState(a, src, r.parent, r.visited, order + r.pushed, done + 1)
      && CountFalse(r.visited) + |r.pushed| == CountFalse(visited)
  {
    var v := order[done];
    var ks := Keys(a[v]);
    KeysInRange(a, v);
    DiscoverKeepsState(a, src, parent, visited, order, done, ks);
    DiscoverVisits(v, parent, visited, ks);
    var r := Discover(v, parent, visited, ks);
    forall w | w in a[v] && 0 <= w < |a| ensures r.visited[w] {
      KeysComplete(a[v], w);
    }
    SearchExpanded(a, src, r.parent, r.visited, order + r.pushed, done);
  }

  /** The sweep also keeps the levels: the newly visited vertices are one
      level above the expanded one. */
  lemma ExpandVertexLevels(a: Adj, src: int, parent: seq<int>, visited: seq<bool>, order: seq<int>, done: int,
                           dist: seq<nat>)
    requires Closed(a) && SearchState(a, src, parent, visited, order, done) && done < |order|
    requires Levelled(a, src, parent, order, done, dist)
    ensures forall i :: 0 <= i < |Keys(a[order[done]])| ==> 0 <= Keys(a[order[done]])[i] < |visited|
    ensures var r := Discover(order[done], parent, visited, Keys(a[order[done]]));
      Levelled(a, src, r.parent, order + r.pushed, done + 1, Deepen(dist, visited, r.visited, dist[order[done]] + 1))
  {
    SweepAppendable(a, src, parent, visited, order, done, dist);
    SweepCovers(a, order[done], parent, visited, order);
    SweepLevels(a, src, parent, visited, order, done, dist);
  }

  /** The sweep of the vertex being expanded is appendable to the levels. */
  lemma SweepAppendable(a: Adj, src: int, parent: seq<int>, visited: seq<bool>, order: seq<int>, done: int,
                        dist: seq<nat>)
    requires Closed(a) && SearchState(a, src, parent, visited, order, done) && done < |order|
    requires Levelled(a, src, parent, order, done, dist)
    ensures forall i :: 0 <= i < |Keys(a[order[done]])| ==> 0 <= Keys(a[order[done]])[i] < |visited|
    ensures var r := Discover(order[done], parent, visited, Keys(a[order[done]]));
      LevelsAppendable(a, src, parent, order, done, dist, r.parent, r.pushed,
                       Deepen(dist, visited, r.visited, dist[order[done]] + 1))
  {
    var v := order[done];
    KeysInRange(a, v);
    SweepExtends(v, parent, visited, order, Keys(a[v]), dist, dist[v] + 1);
    assert forall i, x :: 0 <= i < done && x in a[order[i]] && 0 <= x < |a| ==> x in order;
  }

  /** A sweep leaves the parent and level of every enqueued (hence
      visited) vertex alone, and gives each vertex it pushes the expanded
      vertex as parent and the new level `d`. */
  lemma SweepExtends(v: int, parent: seq<int>, visited: seq<bool>, order: seq<int>, ks: seq<int>,
                     dist: seq<nat>, d: nat)
    requires |parent| == |visited| == |dist|
    requires forall i :: 0 <= i < |ks| ==> 0 <= ks[i] < |visited|
    requires forall j :: 0 <= j < |order| ==> 0 <= order[j] < |visited| && visited[order[j]]
    ensures var r := Discover(v, parent, visited, ks);
      var dist' := Deepen(dist, visited, r.visited, d);
      && (forall j :: 0 <= j < |order| ==> r.parent[order[j]] == parent[order[j]] && dist'[order[j]] == dist[order[j]])
      && (forall k :: 0 <= k < |r.pushed| ==>
            0 <= r.pushed[k] < |dist| && r.parent[r.pushed[k]] == v && dist'[r.pushed[k]] == d)
  {
    DiscoverShape(v, parent, visited, ks);
  }

  /** After the sweep of `v` every destination of `v` is enqueued. */
  lemma SweepCovers(a: Adj, v: int, parent: seq<int>, visited: seq<bool>, order: seq<int>)
    requires Closed(a) && 0 <= v < |a| && |parent| == |visited| == |a|
    requires forall w :: 0 <= w < |a| && visited[w] ==> w in order
    ensures forall i :: 0 <= i < |Keys(a[v])| ==> 0 <= Keys(a[v])[i] < |visited|
    ensures forall w :: w in a[v] && 0 <= w < |a| ==> w in order + Discover(v, parent, visited, Keys(a[v])).pushed
  {
    var ks := Keys(a[v]);
    KeysInRange(a, v);
    DiscoverShape(v, parent, visited, ks);
    DiscoverVisits(v, parent, visited, ks);
    forall w | w in a[v] && 0 <= w < |a| ensures w in order + Discover(v, parent, visited, ks).pushed {
      KeysComplete(a[v], w);
    }
  }

  /** A sweep that is appendable and covers every destination of the
      expanded vertex finishes that vertex's level step. */
  lemma SweepLevels(a: Adj, src: int, parent: seq<int>, visited: seq<bool>, order: seq<int>, done: int,
                    dist: seq<nat>)
    requires 0 <= done < |order| && 0 <= order[done] < |a| && |parent| == |visited| && |dist| == |a|
    requires forall i :: 0 <= i < |Keys(a[order[done]])| ==> 0 <= Keys(a[order[done]])[i] < |visited|
    requires var r := Discover(order[done], parent, visited, Keys(a[order[done]]));
      LevelsAppendable(a, src, parent, order, done, dist, r.parent, r.pushed,
                       Deepen(dist, visited, r.visited, dist[order[done]] + 1))
    requires forall w :: w in a[order[done]] && 0 <= w < |a| ==>
      w in order + Discover(order[done], parent, visited, Keys(a[order[done]])).pushed
    ensures var r := Discover(order[done], parent, visited, Keys(a[order[done]]));
      Levelled(a, src, r.parent, order + r.pushed, done + 1, Deepen(dist, visited, r.visited, dist[order[done]] + 1))
  {
    var r := Discover(order[done], parent, visited, Keys(a[order[done]]));
    var dist' := Deepen(dist, visited, r.visited, dist[order[done]] + 1);
    LevelsAppend(a, src, parent, order, done, dist, r.parent, r.pushed, dist');
    assert (order + r.pushed)[done] == order[done];
    LevelsExpanded(a, src, r.parent, order + r.pushed, done, dist');
  }

  /** `bfs(src, parent)`: a FIFO queue seeded with `src`; each vertex taken
      from the front marks and enqueues, in key order, each destination not
      yet visited, recording itself as that destination's parent. The ghost
      `order` is every vertex in the order it was enqueued: no vertex is
      enqueued twice, and the enqueued vertices are `src` and those given a
      parent. The visited mask indexes every destination, so every stored
      destination must be a vertex. */
  method Bfs(g: Digraph, src: int) returns (parent: seq<int>, ghost order: seq<int>)
    requires 0 <= src < |g.adj| && Closed(g.adj)
    ensures IsBfsParent(g.adj, src, parent)
    ensures Distinct(order)
    ensures forall w :: w in order <==> 0 <= w < |g.adj| && (w == src || parent[w] != -1)
    ensures forall j :: 0 <= j < |order| ==> 0 <= order[j] < |parent| && (parent[order[j]] != -1 ==> parent[order[j]] in order[..j])
  {
    var n := |g.adj|;
    parent := seq(n, _ => -1);
    var visited := seq(n, _ => false);
    var q := [src];
    visited := visited[src := true];
    order := [src];
    SearchStart(g.adj, src);
    ghost var dist := LevelsStart(g.adj, src);
    ghost var head := 0;
    while q != []
      invariant 0 <= head <= |order| && q == order[head..]
      invariant SearchState(g.adj, src, parent, visited, order, head)
      invariant Levelled(g.adj, src, parent, order, head, dist)
      decreases CountFalse(visited), |q|
    {
      var v := q[0];
      q := q[1..];
      assert q == order[head + 1..];
      ghost var pushed;
      parent, visited, q, pushed, dist := VisitNeighbours(g, src, v, parent, visited, q, order, head, dist);
      SuffixAppend(order, pushed, head + 1);
      order, head := order + pushed, head + 1;
    }
    BfsFinish(g.adj, src, parent, visited, order, head, dist);
  }

  /** With the queue worked off, the search state gives what `Bfs`
      promises. */
  lemma BfsFinish(a: Adj, src: int, parent: seq<int>, visited: seq<bool>, order: seq<int>, head: int,
                  dist: seq<nat>)
    requires Closed(a) && 0 <= head <= |order| && order[head..] == []
    requires SearchState(a, src, parent, visited, order, head) && Levelled(a, src, parent, order, head, dist)
    ensures IsBfsParent(a, src, parent)
    ensures Distinct(order)
    ensures forall w :: w in order <==> 0 <= w < |a| && (w == src || parent[w] != -1)
    ensures forall j :: 0 <= j < |order| ==> 0 <= order[j] < |parent| && (parent[order[j]] != -1 ==> parent[order[j]] in order[..j])
  {
    assert head == |order|;
    SearchComplete(a, src, parent, visited, order, dist);
  }

  /** The three-cycle `0 -> 1 -> 2 -> 0` beside an isolated vertex 3. */
  function CycleExample(): Adj {
    [map[1 := 0], map[2 := 0], map[0 := 0], map[]]
  }

  /** From 0 the cycle reaches 1 and 2 but not the isolated vertex. */
  lemma CycleExampleReach()
    ensures Reachable(CycleExample(), 0, 1) && Reachable(CycleExample(), 0, 2)
    ensures !Reachable(CycleExample(), 0, 3)
  {
    var a := CycleExample();
    assert IsPath(a, [0, 1]) by {
      assert Linked(a, [0, 1], 0);
    }
    assert IsPath(a, [0, 1, 2]) by {
      assert Linked(a, [0, 1, 2], 0);
      assert Linked(a, [0, 1, 2], 1);
    }
    if Reachable(a, 0, 3) {
      var mark := [true, true, true, false];
      ClosedMaskHoldsReachable(a, mark, 0, 3);
      assert false;
    }
  }

  /** On that graph the search from 0 can only produce `[-1, 0, 1, -1]`:
      each reached vertex has one possible parent, and 3 is unreachable. */
  lemma BfsCycleExample(parent: seq<int>)
    requires IsBfsParent(CycleExample(), 0, parent)
    ensures parent == [-1, 0, 1, -1]
  {
    CycleExampleReach();
    var a := CycleExample();
    assert parent[1] == 0 by {
      assert parent[1] != -1;
    }
    assert parent[2] == 1 by {
      assert parent[2] != -1;
    }
    assert parent[3] == -1;
  }

  /** A parent array whose recorded parent was never reached is not one the
      search produces: with edges `0 -> 1` and `2 -> 1`, vertex 1 cannot
      have parent 2. */
  lemma UnreachedParentRejected()
    ensures !IsBfsParent([map[1 := 0], map[], map[1 := 0]], 0, [-1, 2, -1])
  {
    var parent := [-1, 2, -1];
    assert parent[1] != -1 && parent[1] != 0 && parent[parent[1]] == -1;
  }

  /** Nor is one whose parent links form a cycle: with edges `0 -> 1`,
      `1 -> 2` and `2 -> 1`, vertices 1 and 2 cannot be each other's
      parents. */
  lemma CyclicParentsRejected()
    ensures !IsBfsParent([map[1 := 0], map[2 := 0], map[1 := 0]], 0, [-1, 2, 1])
  {
    var a := [map[1 := 0], map[2 := 0], map[1 := 0]];
    forall dist: seq<nat> ensures !Levels(a, 0, [-1, 2, 1], dist) {
      CyclicUnlevelled(dist);
    }
  }

  lemma CyclicUnlevelled(dist: seq<nat>)
    ensures !Levels([map[1 := 0], map[2 := 0], map[1 := 0]], 0, [-1, 2, 1], dist)
  {
    var parent := [-1, 2, 1];
    if |dist| == 3 {
      assert parent[1] == 2 && parent[2] == 1;
    }
  }

  /** Nor is a depth-first tree: with edges `0 -> 1`, `0 -> 2` and
      `1 -> 2`, the search from 0 reaches 2 directly, so `[-1, 0, 1]`,
      which reaches it through 1, is refuted; the breadth-first search
      gives `[-1, 0, 0]`. */
  lemma DepthFirstTreeRejected()
    ensures !IsBfsParent([map[1 := 0, 2 := 0], map[2 := 0], map[]], 0, [-1, 0, 1])
  {
    var a := [map[1 := 0, 2 := 0], map[2 := 0], map[]];
    forall dist: seq<nat> ensures !Levels(a, 0, [-1, 0, 1], dist) {
      DepthFirstUnlevelled(dist);
    }
  }

  lemma DepthFirstUnlevelled(dist: seq<nat>)
    ensures !Levels([map[1 := 0, 2 := 0], map[2 := 0], map[]], 0, [-1, 0, 1], dist)
  {
    var a, parent := [map[1 := 0, 2 := 0], map[2 := 0], map[]], [-1, 0, 1];
    if |dist| == 3 && dist[0] == 0 {
      assert parent[1] == 0 && parent[2] == 1 && 2 in a[0];
    }
  }
}
