/** The adjacency vector `m_adj` of a digraph as a value: one edge map per
    vertex, indexed by vertex number, and the stored edges it holds listed in
    the order every edge loop of the model visits them (vertices ascending,
    then destinations ascending). */
module Adjacency {
  import opened EdgeContainer

  type Adj = seq<EdgeMap>

  /** Every stored destination is a vertex of the graph. */
  ghost predicate Closed(a: Adj) {
    forall v, w :: 0 <= v < |a| && w in a[v] ==> 0 <= w < |a|
  }

  /** The number of stored edges leaving vertices `0 .. k-1`. */
  function EdgeCountBefore(a: Adj, k: nat): nat
    requires k <= |a|
  {
    if k == 0 then 0 else EdgeCountBefore(a, k - 1) + |a[k - 1]|
  }

  /** The number of stored directed edges: the sum of all edge-map sizes. */
  function EdgeCount(a: Adj): nat {
    EdgeCountBefore(a, |a|)
  }

  /** One stored directed edge `src -> dst` and its weight. */
  datatype Entry = Entry(src: int, dst: int, weight: int)

  /** The order of the edge loops: by source, then by destination. */
  predicate Before(x: Entry, y: Entry) {
    x.src < y.src || (x.src == y.src && x.dst < y.dst)
  }

  /** The edges leaving `v`, by ascending destination. */
  function VertexEntries(a: Adj, v: int): (r: seq<Entry>)
    requires 0 <= v < |a|
    ensures |r| == |a[v]|
    ensures forall i :: 0 <= i < |r| ==> r[i].src == v && ListedEdge(a, r[i], v + 1)
    ensures forall i, j :: 0 <= i < j < |r| ==> r[i].dst < r[j].dst
  {
    var ks := Keys(a[v]);
    seq(|ks|, i requires 0 <= i < |ks| => Entry(v, ks[i], a[v][ks[i]]))
  }

  /** Every edge leaving `v` is listed. */
  lemma VertexEntriesComplete(a: Adj, v: int, w: int)
    requires 0 <= v < |a| && w in a[v]
    ensures Entry(v, w, a[v][w]) in VertexEntries(a, v)
  {
    var ks := Keys(a[v]);
    KeysComplete(a[v], w);
    var i :| 0 <= i < |ks| && ks[i] == w;
    assert VertexEntries(a, v)[i] == Entry(v, w, a[v][w]);
  }

  /** The edges leaving vertices `0 .. k-1`, in loop order. */
  function EntriesBefore(a: Adj, k: nat): (r: seq<Entry>)
    requires k <= |a|
    ensures |r| == EdgeCountBefore(a, k)
  {
    if k == 0 then [] else EntriesBefore(a, k - 1) + VertexEntries(a, k - 1)
  }

  /** Each listed entry is a stored edge leaving one of the first `k` vertices. */
  lemma {:induction false} EntriesBeforeSound(a: Adj, k: nat)
    requires k <= |a|
    ensures forall i :: 0 <= i < |EntriesBefore(a, k)| ==> ListedEdge(a, EntriesBefore(a, k)[i], k)
  {
    if k > 0 {
      EntriesBeforeSound(a, k - 1);
      var prev, here := EntriesBefore(a, k - 1), VertexEntries(a, k - 1);
      var r := EntriesBefore(a, k);
      assert r == prev + here;
      forall i | 0 <= i < |r| ensures ListedEdge(a, r[i], k) {
        if i < |prev| {
          assert r[i] == prev[i] && ListedEdge(a, prev[i], k - 1);
        } else {
          assert r[i] == here[i - |prev|];
        }
      }
    }
  }

  /** The entry is a stored edge, with its weight, leaving a vertex below `k`. */
  predicate ListedEdge(a: Adj, e: Entry, k: nat)
    requires k <= |a|
  {
    0 <= e.src < k && e.dst in a[e.src] && e.weight == a[e.src][e.dst]
  }

  /** The listing is strictly ordered by source, then destination. */
  lemma {:induction false} EntriesBeforeOrdered(a: Adj, k: nat)
    requires k <= |a|
    ensures forall i, j :: 0 <= i < j < |EntriesBefore(a, k)| ==>
      Before(EntriesBefore(a, k)[i], EntriesBefore(a, k)[j])
  {
    if k > 0 {
      EntriesBeforeOrdered(a, k - 1);
      EntriesBeforeSound(a, k - 1);
      var prev, here := EntriesBefore(a, k - 1), VertexEntries(a, k - 1);
      var r := EntriesBefore(a, k);
      assert r == prev + here;
      forall i, j | 0 <= i < j < |r| ensures Before(r[i], r[j]) {
        if j < |prev| {
          assert r[i] == prev[i] && r[j] == prev[j];
        } else if i < |prev| {
          assert r[i] == prev[i] && ListedEdge(a, prev[i], k - 1);
          assert r[j] == here[j - |prev|];
        } else {
          assert r[i] == here[i - |prev|] && r[j] == here[j - |prev|];
        }
      }
    }
  }

  /** Every stored edge leaving one of the first `k` vertices is listed. */
  lemma EntriesBeforeComplete(a: Adj, k: nat)
    requires k <= |a|
    ensures forall v, w :: 0 <= v < k && w in a[v] ==> Entry(v, w, a[v][w]) in EntriesBefore(a, k)
  {
    forall v, w | 0 <= v < k && w in a[v] ensures Entry(v, w, a[v][w]) in EntriesBefore(a, k) {
      var i := EntryIndex(a, k, v, w);
    }
  }

  /** Where a stored edge sits in the listing. */
  lemma {:induction false} EntryIndex(a: Adj, k: nat, v: int, w: int) returns (i: nat)
    requires k <= |a| && 0 <= v < k && w in a[v]
    ensures i < |EntriesBefore(a, k)| && EntriesBefore(a, k)[i] == Entry(v, w, a[v][w])
  {
    var prev, here := EntriesBefore(a, k - 1), VertexEntries(a, k - 1);
    var r := prev + here;
    assert EntriesBefore(a, k) == r;
    if v < k - 1 {
      i := EntryIndex(a, k - 1, v, w);
      assert r[i] == prev[i];
    } else {
      var j := VertexEntryIndex(a, v, w);
      i := |prev| + j;
      assert r[i] == here[j];
    }
  }

  lemma VertexEntryIndex(a: Adj, v: int, w: int) returns (j: nat)
    requires 0 <= v < |a| && w in a[v]
    ensures j < |VertexEntries(a, v)| && VertexEntries(a, v)[j] == Entry(v, w, a[v][w])
  {
    var ks := Keys(a[v]);
    KeysComplete(a[v], w);
    j :| 0 <= j < |ks| && ks[j] == w;
  }

  /** Every stored directed edge, each exactly once, in loop order. */
  function Entries(a: Adj): seq<Entry> {
    EntriesBefore(a, |a|)
  }

  /** There is one entry per stored edge: as many as `numEdges()` counts. */
  lemma EntriesCount(a: Adj)
    ensures |Entries(a)| == EdgeCount(a)
  {
  }

  /** An entry is listed exactly when the edge is stored with that weight. */
  lemma EntriesMembership(a: Adj, e: Entry)
    ensures e in Entries(a) <==> 0 <= e.src < |a| && e.dst in a[e.src] && e.weight == a[e.src][e.dst]
  {
    EntriesBeforeSound(a, |a|);
    EntriesBeforeComplete(a, |a|);
    if e in Entries(a) {
      var i :| 0 <= i < |Entries(a)| && Entries(a)[i] == e;
      assert ListedEdge(a, Entries(a)[i], |a|);
    }
  }

  /** No edge is listed twice. */
  lemma EntriesDistinct(a: Adj)
    ensures forall i, j :: 0 <= i < j < |Entries(a)| ==> Entries(a)[i] != Entries(a)[j]
  {
    EntriesBeforeOrdered(a, |a|);
  }

  /** Replacing one edge map changes the edge count by the difference in size. */
  lemma {:induction false} EdgeCountUpdate(a: Adj, v: int, m: EdgeMap, k: nat)
    requires 0 <= v < |a| && k <= |a|
    ensures EdgeCountBefore(a[v := m], k) == EdgeCountBefore(a, k) + (if v < k then |m| - |a[v]| else 0)
  {
    if k > 0 {
      EdgeCountUpdate(a, v, m, k - 1);
    }
  }

  /** Appending vertices adds their edges to the count. */
  lemma {:induction false} EdgeCountAppend(a: Adj, b: Adj, k: nat)
    requires k <= |b|
    ensures EdgeCountBefore(a + b, |a| + k) == EdgeCount(a) + EdgeCountBefore(b, k)
  {
    if k == 0 {
      EdgeCountPrefix(a, a + b, |a|);
    } else {
      EdgeCountAppend(a, b, k - 1);
    }
  }

  /** The count over the first `k` vertices depends only on those vertices. */
  lemma {:induction false} EdgeCountPrefix(a: Adj, b: Adj, k: nat)
    requires k <= |a| && k <= |b| && a[..k] == b[..k]
    ensures EdgeCountBefore(a, k) == EdgeCountBefore(b, k)
  {
    if k > 0 {
      assert a[k - 1] == a[..k][k - 1] == b[..k][k - 1] == b[k - 1];
      assert a[..k - 1] == a[..k][..k - 1] && b[..k - 1] == b[..k][..k - 1];
      EdgeCountPrefix(a, b, k - 1);
    }
  }
}
