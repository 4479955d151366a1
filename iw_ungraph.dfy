/** `iw_ungraph`: the undirected graph with integer weights, and its
    Graphviz DOT writer. The writer visits every stored directed edge in
    loop order but only emits those that lead to a higher vertex, so each
    undirected edge of a symmetric graph is written once. */
module WeightedUndirected {
  import opened EdgeContainer
  import opened Adjacency
  import opened Directed
  import opened Undirected
  import opened Decimal
  import opened Text
  import Export

  /** The opening of the DOT document: the graph statement and the
      `overlap` attribute. The experimental layout attributes are compiled
      out by default and are not part of the output. */
  const DotHeader: string := "graph graphname" + " {" + "\n" + "   overlap=" + "\"false\";" + "\n"

  const DotFooter: string := "}" + "\n"

  /** The entries `toDOT` writes: those whose destination is the higher
      vertex, in their original order. */
  function Upper(es: seq<Entry>): (r: seq<Entry>)
    ensures forall e :: e in r <==> e in es && e.dst > e.src
    ensures |r| <= |es|
  {
    if es == [] then []
    else
      var last := es[|es| - 1];
      Upper(es[..|es| - 1]) + (if last.dst > last.src then [last] else [])
  }

  /** One DOT edge statement; the weight becomes an attribute. */
  function DotLine(e: Entry): string {
    "   " + IntToString(e.src) + " -- " + IntToString(e.dst) + " [weight=" + IntToString(e.weight) + "];" + "\n"
  }

  /** The edges the DOT document lists. */
  function DotEdges(a: Adj): seq<Entry> {
    Upper(Entries(a))
  }

  /** The document `toDOT` returns. */
  function DotText(a: Adj): string {
    DotHeader + Render(DotEdges(a), DotLine) + DotFooter
  }

  class IwUngraph {
    const u: Ungraph

    /** `iw_ungraph(int nverts)`. */
    constructor (nverts: nat)
      ensures fresh(u) && fresh(u.g) && u.g.adj == Empty(nverts) && Symmetric(u.g.adj)
    {
      u := new Ungraph(nverts);
    }

    /** The inner loop of `toDOT`: the entries of `v` in key order, each
        written when it leads to a higher vertex. */
    method AppendDotLines(v: int, res0: string) returns (res: string)
      requires 0 <= v < |u.g.adj|
      ensures res == res0 + Render(Upper(VertexEntries(u.g.adj, v)), DotLine)
    {
      var es := VertexEntries(u.g.adj, v);
      res := res0;
      for i := 0 to |es|
        invariant res == res0 + Render(Upper(es[..i]), DotLine)
      {
        var e := es[i];
        UpperPrefix(es, i);
        if e.dst > v {
          RenderSnoc(Upper(es[..i]), e, DotLine);
          Associative(res0, Render(Upper(es[..i]), DotLine), DotLine(e));
          res := res + DotLine(e);
        }
      }
      assert es[..|es|] == es;
    }

    /** `toDOT(label)`: the flag, `labels` here, is accepted and ignored. */
    method ToDOT(labels: bool) returns (res: string)
      ensures res == DotText(u.g.adj)
    {
      ghost var a := u.g.adj;
      res := "graph graphname" + " {" + "\n";
      res := res + ("   overlap=" + "\"false\";" + "\n");
      for v := 0 to |u.g.adj|
        invariant res == DotHeader + Render(Upper(EntriesBefore(a, v)), DotLine)
      {
        var before, here := Upper(EntriesBefore(a, v)), Upper(VertexEntries(a, v));
        res := AppendDotLines(v, res);
        UpperAppend(EntriesBefore(a, v), VertexEntries(a, v));
        RenderAppend(before, here, DotLine);
        Associative(DotHeader, Render(before, DotLine), Render(here, DotLine));
      }
      res := res + DotFooter;
    }
  }

  /** One more entry is kept exactly when it leads to a higher vertex. */
  lemma UpperSnoc(xs: seq<Entry>, x: Entry)
    ensures Upper(xs + [x]) == Upper(xs) + (if x.dst > x.src then [x] else [])
  {
    assert (xs + [x])[..|xs|] == xs;
  }

  /** One more entry of a prefix is kept exactly when it leads to a higher
      vertex. */
  lemma UpperPrefix(es: seq<Entry>, i: nat)
    requires i < |es|
    ensures Upper(es[..i + 1]) == Upper(es[..i]) + (if es[i].dst > es[i].src then [es[i]] else [])
    ensures es[i].dst <= es[i].src ==> Upper(es[..i + 1]) == Upper(es[..i])
  {
    assert es[..i + 1] == es[..i] + [es[i]];
    UpperSnoc(es[..i], es[i]);
    assert Upper(es[..i]) + [] == Upper(es[..i]);
  }

  /** Filtering a concatenation filters each part. */
  lemma {:induction false} UpperAppend(xs: seq<Entry>, ys: seq<Entry>)
    ensures Upper(xs + ys) == Upper(xs) + Upper(ys)
    decreases |ys|
  {
    if ys == [] {
      assert xs + ys == xs;
    } else {
      var ys' := ys[..|ys| - 1];
      assert (xs + ys)[..|xs + ys| - 1] == xs + ys';
      UpperAppend(xs, ys');
    }
  }

  /** Filtering keeps a strictly ordered list strictly ordered. */
  lemma {:induction false} UpperOrdered(es: seq<Entry>)
    requires forall i, j :: 0 <= i < j < |es| ==> Before(es[i], es[j])
    ensures forall i, j :: 0 <= i < j < |Upper(es)| ==> Before(Upper(es)[i], Upper(es)[j])
    decreases |es|
  {
    if es != [] {
      var init, last := es[..|es| - 1], es[|es| - 1];
      UpperOrdered(init);
      var r := Upper(es);
      var p := Upper(init);
      forall i, j | 0 <= i < j < |r| ensures Before(r[i], r[j]) {
        if j >= |p| {
          assert r[i] in p && r[j] == last;
          var k :| 0 <= k < |init| && init[k] == r[i];
          assert es[k] == r[i] && k < |es| - 1;
        } else {
          assert r[i] == p[i] && r[j] == p[j];
        }
      }
    }
  }

  /** A DOT edge statement is one line. */
  lemma DotLineIsLine(e: Entry)
    ensures Newlines(DotLine(e)) == 1
  {
    var p, n, q, m, r, x, s := "   ", IntToString(e.src), " -- ", IntToString(e.dst), " [weight=", IntToString(e.weight), "];";
    NoNewlines(p);
    NoNewlines(q);
    NoNewlines(r);
    NoNewlines(s);
    NumeralNewlines(e.src);
    NumeralNewlines(e.dst);
    NumeralNewlines(e.weight);
    NewlinesAppend(p, n);
    NewlinesAppend(p + n, q);
    NewlinesAppend(p + n + q, m);
    NewlinesAppend(p + n + q + m, r);
    NewlinesAppend(p + n + q + m + r, x);
    NewlinesAppend(p + n + q + m + r + x, s);
    NewlinesAppend(p + n + q + m + r + x + s, "\n");
  }

  lemma DotFixedLines()
    ensures Newlines(DotHeader) == 2 && Newlines(DotFooter) == 1
  {
    var g, b, o, f := "graph graphname", " {", "   overlap=", "\"false\";";
    NoNewlines(g);
    NoNewlines(b);
    NoNewlines(o);
    NoNewlines(f);
    NoNewlines("}");
    NewlinesAppend(g, b);
    NewlinesAppend(g + b, "\n");
    NewlinesAppend(g + b + "\n", o);
    NewlinesAppend(g + b + "\n" + o, f);
    NewlinesAppend(g + b + "\n" + o + f, "\n");
    NewlinesAppend("}", "\n");
  }

  /** The document has the two header lines, one line per listed edge and
      the closing line. */
  lemma DotLineCount(a: Adj)
    ensures Newlines(DotText(a)) == 3 + |DotEdges(a)|
  {
    DotFixedLines();
    var es := DotEdges(a);
    forall k | 0 <= k < |es| ensures Newlines(DotLine(es[k])) == 1 {
      DotLineIsLine(es[k]);
    }
    RenderLines(es, DotLine);
    NewlinesAppend(DotHeader, Render(es, DotLine));
    NewlinesAppend(DotHeader + Render(es, DotLine), DotFooter);
  }

  /** An edge is listed exactly when it is stored, with its weight, and
      leads to a higher vertex: self-loops and the lower half of each
      symmetric pair are never written. */
  lemma DotEdgesMembership(a: Adj, e: Entry)
    ensures e in DotEdges(a) <==>
      0 <= e.src < |a| && e.dst in a[e.src] && e.weight == a[e.src][e.dst] && e.src < e.dst
  {
    EntriesMembership(a, e);
  }

  /** No two listed edges join the same two vertices, in either
      direction. */
  lemma DotPairsDistinct(a: Adj)
    ensures forall i, j :: 0 <= i < j < |DotEdges(a)| ==>
      (DotEdges(a)[i].src, DotEdges(a)[i].dst) != (DotEdges(a)[j].src, DotEdges(a)[j].dst) &&
      (DotEdges(a)[i].src, DotEdges(a)[i].dst) != (DotEdges(a)[j].dst, DotEdges(a)[j].src)
  {
    EntriesBeforeOrdered(a, |a|);
    UpperOrdered(Entries(a));
    var r := DotEdges(a);
    forall i, j | 0 <= i < j < |r|
      ensures (r[i].src, r[i].dst) != (r[j].src, r[j].dst) && (r[i].src, r[i].dst) != (r[j].dst, r[j].src)
    {
      assert Before(r[i], r[j]);
      assert r[i] in r && r[j] in r;
    }
  }

  /** On a symmetric graph every undirected edge between two distinct
      vertices is written as its statement from the lower to the higher
      vertex, and by `DotPairsDistinct` no other statement joins the
      two. */
  lemma DotListsEveryPair(a: Adj, v: int, w: int)
    requires Symmetric(a) && 0 <= v < |a| && w in a[v] && v != w
    ensures var lo, hi := if v < w then v else w, if v < w then w else v;
      0 <= lo < hi < |a| && Occurs(DotLine(Entry(lo, hi, a[v][w])), DotText(a))
  {
    SymmetricAt(a, v, w);
    var lo, hi := if v < w then v else w, if v < w then w else v;
    var e := Entry(lo, hi, a[v][w]);
    DotEdgesMembership(a, e);
    var i :| 0 <= i < |DotEdges(a)| && DotEdges(a)[i] == e;
    RenderContains(DotEdges(a), i, DotLine);
    OccursExtend(DotLine(e), Render(DotEdges(a), DotLine), DotHeader, DotFooter);
  }

  /** The DOT document and the adjacency matrix describe the same edges:
      on a symmetric graph whose weights are never -1, for vertices
      `v < w` the matrix cell is -1 exactly when no DOT statement joins
      `v` and `w`. */
  lemma DotAgreesWithMatrix(a: Adj, v: int, w: int)
    requires Symmetric(a) && (forall x, y :: 0 <= x < |a| && y in a[x] ==> a[x][y] != -1)
    requires 0 <= v < w < |a|
    ensures Export.Cell(a, v, w) == -1 <==> forall e :: e in DotEdges(a) ==> (e.src, e.dst) != (v, w)
  {
    if w in a[v] {
      DotEdgesMembership(a, Entry(v, w, a[v][w]));
    } else {
      forall e | e in DotEdges(a) ensures (e.src, e.dst) != (v, w) {
        DotEdgesMembership(a, e);
      }
    }
  }
}
