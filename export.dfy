/** The three text serialisers of `digraph<T>`: GraphML 1.0, the DIMACS
    max-flow problem format and a bracketed adjacency matrix. Each output is
    first defined as a function of the adjacency vector; each method builds
    it the way the source does, by appending to a string in nested loops. */
module Export {
  import opened EdgeContainer
  import opened Adjacency
  import opened Directed
  import opened Decimal
  import opened Text

  // ---------------------------------------------------------------- GraphML

  /** The XML declaration and the opening `graphml` element with its
      namespace and schema location: five lines, the first four with a
      trailing blank. Each line is spelled in pieces of at most 14
      characters only to keep the verifier fast: a proof that a literal
      holds no line feed looks at every character, and short pieces keep
      each such proof small. The concatenation is the line the source
      writes. */
  const XmlDeclaration: string := "<?xml version=" + "\"1.0\" encoding" + "=\"UTF-8\"?> "
  const XmlRootOpen: string := "<graphml xmlns" + "=\"http://graph" + "ml.graphdrawin" + "g.org/xmlns\" "
  const XmlNamespace: string := "   xmlns:xsi=\"" + "http://www.w3." + "org/2001/XMLSc" + "hema-instance\"" + " "
  const XmlSchemaLocation: string := "   xsi:schemaL" + "ocation=\"http:" + "//graphml.grap" + "hdrawing.org/x" + "mlns "
  const XmlSchemaUrl: string := "   http://grap" + "hml.graphdrawi" + "ng.org/xmlns/1" + ".0/graphml.xsd" + "\">"

  const XmlPreamble: string :=
    XmlDeclaration + "\n" + XmlRootOpen + "\n" + XmlNamespace + "\n" + XmlSchemaLocation + "\n" + XmlSchemaUrl + "\n"

  const XmlGraphOpen: string := "  <graph id=\"G" + "\" edgedefault=" + "\"undirected\">" + "\n"

  const XmlClose: string := "  </graph>" + "\n" + "</graphml>" + "\n"

  function XmlNodeLine(v: int): string {
    "    <node id=\"n" + IntToString(v) + "\"/>" + "\n"
  }

  function XmlEdgeLine(e: Entry): string {
    "    <edge source=\"n" + IntToString(e.src) + "\" target=\"n" + IntToString(e.dst) + "\"/>" + "\n"
  }

  /** The document `toXML()` returns: preamble, graph element, one node line
      per vertex, one edge line per stored directed edge, closing tags. */
  function XmlText(a: Adj): string {
    XmlPreamble + XmlGraphOpen + Render(Range(|a|), XmlNodeLine) + Render(Entries(a), XmlEdgeLine) + XmlClose
  }

  // ----------------------------------------------------------------- DIMACS

  function DimacsHeader(a: Adj, src: int, dst: int): string {
    "c toDIMACS()" + "\n"
    + "p max     " + IntToString(|a|) + "    " + IntToString(EdgeCount(a)) + "\n"
    + "n         " + IntToString(src + 1) + "  s" + "\n"
    + "n         " + IntToString(dst + 1) + "  t" + "\n"
  }

  /** One arc, with 1-based vertex numbers and its weight as capacity. */
  function DimacsArcLine(e: Entry): string {
    "a       " + IntToString(e.src + 1) + "       " + IntToString(e.dst + 1) + "       " + IntToString(e.weight) + "\n"
  }

  /** The text `toDIMACS(src, dst)` returns. */
  function DimacsText(a: Adj, src: int, dst: int): string {
    DimacsHeader(a, src, dst) + Render(Entries(a), DimacsArcLine)
  }

  // ------------------------------------------------------- adjacency matrix

  /** Row `v`, column `w` of the matrix: the stored weight, or -1 (`T(-1)`)
      where there is no edge. */
  function Cell(a: Adj, v: int, w: int): int {
    if 0 <= v < |a| && w in a[v] then a[v][w] else -1
  }

  /** Columns `1 .. w-1` of row `v`, each preceded by a comma. */
  function ColumnsText(a: Adj, v: int, w: int): string
    decreases w
  {
    if w <= 1 then "" else ColumnsText(a, v, w - 1) + "," + IntToString(Cell(a, v, w - 1))
  }

  /** What precedes each row but the first. */
  function RowSeparator(v: int): string {
    if v == 0 then "" else "," + "\n"
  }

  /** Row `v` in brackets, preceded by `",\n"` unless it is the first. */
  function RowText(a: Adj, v: int): string {
    RowSeparator(v) + "[" + IntToString(Cell(a, v, 0)) + ColumnsText(a, v, |a|) + "]"
  }

  /** The text `toAdjMat()` returns: nothing for the empty graph, otherwise
      the rows in an outer pair of brackets and a final line feed. */
  function AdjMatText(a: Adj): string {
    if |a| == 0 then "" else "[" + Render(Range(|a|), v => RowText(a, v)) + "]\n"
  }

  // ---------------------------------------------------------------- methods

  /** The inner edge loop of `toXML` and `toDIMACS`: for each edge of `v`
      in key order, append that edge's line. */
  method AppendVertexLines(g: Digraph, v: int, res0: string, line: Entry -> string) returns (res: string)
    requires 0 <= v < |g.adj|
    ensures res == res0 + Render(VertexEntries(g.adj, v), line)
  {
    var es := VertexEntries(g.adj, v);
    res := res0;
    for i := 0 to |es|
      invariant res == res0 + Render(es[..i], line)
    {
      RenderPrefix(es, i, line);
      Associative(res0, Render(es[..i], line), line(es[i]));
      res := res + line(es[i]);
    }
    assert es[..|es|] == es;
  }

  lemma EntryLinesStep(a: Adj, v: int, line: Entry -> string)
    requires 0 <= v < |a|
    ensures Render(EntriesBefore(a, v + 1), line) == Render(EntriesBefore(a, v), line) + Render(VertexEntries(a, v), line)
  {
    RenderAppend(EntriesBefore(a, v), VertexEntries(a, v), line);
  }

  /** The outer edge loop: every vertex in order. */
  method AppendEdgeLines(g: Digraph, res0: string, line: Entry -> string) returns (res: string)
    ensures res == res0 + Render(Entries(g.adj), line)
  {
    res := res0;
    for v := 0 to |g.adj|
      invariant res == res0 + Render(EntriesBefore(g.adj, v), line)
    {
      res := AppendVertexLines(g, v, res, line);
      EntryLinesStep(g.adj, v, line);
      Associative(res0, Render(EntriesBefore(g.adj, v), line), Render(VertexEntries(g.adj, v), line));
    }
  }

  /** `toXML()`. */
  method ToXML(g: Digraph) returns (res: string)
    ensures res == XmlText(g.adj)
  {
    res := XmlPreamble + XmlGraphOpen;
    for v := 0 to |g.adj|
      invariant res == XmlPreamble + XmlGraphOpen + Render(Range(v), XmlNodeLine)
    {
      RangeSnoc(v);
      RenderSnoc(Range(v), v, XmlNodeLine);
      Associative(XmlPreamble + XmlGraphOpen, Render(Range(v), XmlNodeLine), XmlNodeLine(v));
      res := res + XmlNodeLine(v);
    }
    res := AppendEdgeLines(g, res, XmlEdgeLine);
    res := res + XmlClose;
  }

  /** `toDIMACS(src, dst)`: the edge count in the problem line comes from
      `numEdges()`. */
  method ToDIMACS(g: Digraph, src: int, dst: int) returns (res: string)
    ensures res == DimacsText(g.adj, src, dst)
  {
    var m := g.NumEdges();
    res := "c toDIMACS()" + "\n";
    res := res + "p max     " + IntToString(|g.adj|) + "    " + IntToString(m) + "\n";
    res := res + "n         " + IntToString(src + 1) + "  s" + "\n";
    res := res + "n         " + IntToString(dst + 1) + "  t" + "\n";
    res := AppendEdgeLines(g, res, DimacsArcLine);
  }

  /** The body of the row loop of `toAdjMat()`: row `v`, looking up every
      column with `findEdge`. */
  method AppendRow(g: Digraph, v: int, res0: string) returns (res: string)
    requires 0 <= v < |g.adj|
    ensures res == res0 + RowText(g.adj, v)
  {
    var n := |g.adj|;
    ghost var a := g.adj;
    var prefix := if v == 0 then "[" else ",\n[";
    var it := g.FindEdge(v, 0);
    var val := if it.Some? then it.value else -1;
    var head := prefix + IntToString(val);
    assert head == RowSeparator(v) + "[" + IntToString(Cell(a, v, 0)) by {
      assert val == Cell(a, v, 0);
    }
    res := res0 + head;
    assert res == res0 + head + ColumnsText(a, v, 1) by {
      assert ColumnsText(a, v, 1) == [];
    }
    for w := 1 to n
      invariant res == res0 + head + ColumnsText(a, v, w)
    {
      it := g.FindEdge(v, w);
      val := if it.Some? then it.value else -1;
      ColumnStep(res0 + head, a, v, w, val);
      res := res + ("," + IntToString(val));
    }
    res := res + "]";
    RowClose(res0, head, ColumnsText(a, v, n));
  }

  /** One more column of a row. */
  lemma ColumnStep(pre: string, a: Adj, v: int, w: int, val: int)
    requires w >= 1 && val == Cell(a, v, w)
    ensures pre + ColumnsText(a, v, w) + ("," + IntToString(val)) == pre + ColumnsText(a, v, w + 1)
  {
    Associative(pre, ColumnsText(a, v, w), "," + IntToString(val));
    Associative(ColumnsText(a, v, w), ",", IntToString(val));
  }

  lemma RowClose(res0: string, head: string, cols: string)
    ensures res0 + head + cols + "]" == res0 + (head + cols + "]")
  {
  }

  /** `toAdjMat()`. */
  method ToAdjMat(g: Digraph) returns (res: string)
    ensures res == AdjMatText(g.adj)
  {
    var n := |g.adj|;
    if n < 1 {
      return "";
    }
    ghost var a := g.adj;
    ghost var rowText := v => RowText(a, v);
    res := "[";
    for v := 0 to n
      invariant res == "[" + Render(Range(v), rowText)
    {
      RangeSnoc(v);
      RenderSnoc(Range(v), v, rowText);
      Associative("[", Render(Range(v), rowText), RowText(a, v));
      res := AppendRow(g, v, res);
    }
    res := res + "]\n";
  }

  // ------------------------------------------------------------- properties

  lemma XmlNodeLineIsLine(v: int)
    ensures Newlines(XmlNodeLine(v)) == 1
  {
    var p, n, q := "    <node id=\"n", IntToString(v), "\"/>";
    NoNewlines(p);
    NoNewlines(q);
    NumeralNewlines(v);
    NewlinesAppend(p, n);
    NewlinesAppend(p + n, q);
    NewlinesAppend(p + n + q, "\n");
  }

  lemma XmlEdgeLineIsLine(e: Entry)
    ensures Newlines(XmlEdgeLine(e)) == 1
  {
    var p, n, q, m, r := "    <edge source=\"n", IntToString(e.src), "\" target=\"n", IntToString(e.dst), "\"/>";
    NoNewlines(p);
    NoNewlines(q);
    NoNewlines(r);
    NumeralNewlines(e.src);
    NumeralNewlines(e.dst);
    NewlinesAppend(p, n);
    NewlinesAppend(p + n, q);
    NewlinesAppend(p + n + q, m);
    NewlinesAppend(p + n + q + m, r);
    NewlinesAppend(p + n + q + m + r, "\n");
  }

  lemma XmlDeclarationPlain()
    ensures Newlines(XmlDeclaration) == 0
  {
    NoNewlines("<?xml version=");
    NoNewlines("\"1.0\" encoding");
    NoNewlines("=\"UTF-8\"?> ");
    NewlinesAppend("<?xml version=", "\"1.0\" encoding");
    NewlinesAppend("<?xml version=" + "\"1.0\" encoding", "=\"UTF-8\"?> ");
  }

  lemma XmlRootOpenPlain()
    ensures Newlines(XmlRootOpen) == 0
  {
    NoNewlines("<graphml xmlns");
    NoNewlines("=\"http://graph");
    NoNewlines("ml.graphdrawin");
    NoNewlines("g.org/xmlns\" ");
    NewlinesAppend("<graphml xmlns", "=\"http://graph");
    NewlinesAppend("<graphml xmlns" + "=\"http://graph", "ml.graphdrawin");
    NewlinesAppend("<graphml xmlns" + "=\"http://graph" + "ml.graphdrawin", "g.org/xmlns\" ");
  }

  lemma XmlNamespacePlain()
    ensures Newlines(XmlNamespace) == 0
  {
    NoNewlines("   xmlns:xsi=\"");
    NoNewlines("http://www.w3.");
    NoNewlines("org/2001/XMLSc");
    NoNewlines("hema-instance\"");
    NoNewlines(" ");
    NewlinesAppend("   xmlns:xsi=\"", "http://www.w3.");
    NewlinesAppend("   xmlns:xsi=\"" + "http://www.w3.", "org/2001/XMLSc");
    NewlinesAppend("   xmlns:xsi=\"" + "http://www.w3." + "org/2001/XMLSc", "hema-instance\"");
    NewlinesAppend("   xmlns:xsi=\"" + "http://www.w3." + "org/2001/XMLSc" + "hema-instance\"", " ");
  }

  lemma XmlSchemaLocationPlain()
    ensures Newlines(XmlSchemaLocation) == 0
  {
    NoNewlines("   xsi:schemaL");
    NoNewlines("ocation=\"http:");
    NoNewlines("//graphml.grap");
    NoNewlines("hdrawing.org/x");
    NoNewlines("mlns ");
    NewlinesAppend("   xsi:schemaL", "ocation=\"http:");
    NewlinesAppend("   xsi:schemaL" + "ocation=\"http:", "//graphml.grap");
    NewlinesAppend("   xsi:schemaL" + "ocation=\"http:" + "//graphml.grap", "hdrawing.org/x");
    NewlinesAppend("   xsi:schemaL" + "ocation=\"http:" + "//graphml.grap" + "hdrawing.org/x", "mlns ");
  }

  lemma XmlSchemaUrlPlain()
    ensures Newlines(XmlSchemaUrl) == 0
  {
    NoNewlines("   http://grap");
    NoNewlines("hml.graphdrawi");
    NoNewlines("ng.org/xmlns/1");
    NoNewlines(".0/graphml.xsd");
    NoNewlines("\">");
    NewlinesAppend("   http://grap", "hml.graphdrawi");
    NewlinesAppend("   http://grap" + "hml.graphdrawi", "ng.org/xmlns/1");
    NewlinesAppend("   http://grap" + "hml.graphdrawi" + "ng.org/xmlns/1", ".0/graphml.xsd");
    NewlinesAppend("   http://grap" + "hml.graphdrawi" + "ng.org/xmlns/1" + ".0/graphml.xsd", "\">");
  }

  lemma XmlPreambleLines()
    ensures Newlines(XmlPreamble) == 5
  {
    XmlDeclarationPlain();
    XmlRootOpenPlain();
    XmlNamespacePlain();
    XmlSchemaLocationPlain();
    XmlSchemaUrlPlain();
    var l1, l2, l3, l4, l5 := XmlDeclaration, XmlRootOpen, XmlNamespace, XmlSchemaLocation, XmlSchemaUrl;
    NewlinesLine([], l1);
    assert [] + l1 + "\n" == l1 + "\n";
    NewlinesLine(l1 + "\n", l2);
    NewlinesLine(l1 + "\n" + l2 + "\n", l3);
    NewlinesLine(l1 + "\n" + l2 + "\n" + l3 + "\n", l4);
    NewlinesLine(l1 + "\n" + l2 + "\n" + l3 + "\n" + l4 + "\n", l5);
  }

  lemma XmlGraphOpenLines()
    ensures Newlines(XmlGraphOpen) == 1
  {
    var o := "  <graph id=\"G" + "\" edgedefault=" + "\"undirected\">";
    NoNewlines(o);
    NewlinesLine([], o);
    assert [] + o + "\n" == XmlGraphOpen;
  }

  lemma XmlCloseLines()
    ensures Newlines(XmlClose) == 2
  {
    var c1, c2 := "  </graph>", "</graphml>";
    NoNewlines(c1);
    NoNewlines(c2);
    NewlinesLine([], c1);
    assert [] + c1 + "\n" == c1 + "\n";
    NewlinesLine(c1 + "\n", c2);
  }

  /** The GraphML document has eight fixed lines, one node line per vertex
      and one edge line per stored directed edge: as many as `numEdges()`. */
  lemma XmlLineCount(a: Adj)
    ensures Newlines(XmlText(a)) == 8 + |a| + EdgeCount(a)
  {
    XmlPreambleLines();
    XmlGraphOpenLines();
    XmlCloseLines();
    forall k | 0 <= k < |Range(|a|)| ensures Newlines(XmlNodeLine(Range(|a|)[k])) == 1 {
      XmlNodeLineIsLine(Range(|a|)[k]);
    }
    RenderLines(Range(|a|), XmlNodeLine);
    forall k | 0 <= k < |Entries(a)| ensures Newlines(XmlEdgeLine(Entries(a)[k])) == 1 {
      XmlEdgeLineIsLine(Entries(a)[k]);
    }
    RenderLines(Entries(a), XmlEdgeLine);
    EntriesCount(a);
    var nodes, edges := Render(Range(|a|), XmlNodeLine), Render(Entries(a), XmlEdgeLine);
    NewlinesAppend(XmlPreamble, XmlGraphOpen);
    NewlinesAppend(XmlPreamble + XmlGraphOpen, nodes);
    NewlinesAppend(XmlPreamble + XmlGraphOpen + nodes, edges);
    NewlinesAppend(XmlPreamble + XmlGraphOpen + nodes + edges, XmlClose);
  }

  /** Every vertex has its node line in the document. */
  lemma XmlListsEveryNode(a: Adj, v: int)
    requires 0 <= v < |a|
    ensures Occurs(XmlNodeLine(v), XmlText(a))
  {
    RenderContains(Range(|a|), v, XmlNodeLine);
    OccursExtend(XmlNodeLine(v), Render(Range(|a|), XmlNodeLine), XmlPreamble + XmlGraphOpen,
                 Render(Entries(a), XmlEdgeLine) + XmlClose);
    Associative(XmlPreamble + XmlGraphOpen + Render(Range(|a|), XmlNodeLine), Render(Entries(a), XmlEdgeLine), XmlClose);
  }

  /** Every stored edge `v -> w` has its edge line in the document. */
  lemma XmlListsEveryEdge(a: Adj, v: int, w: int)
    requires 0 <= v < |a| && w in a[v]
    ensures Occurs(XmlEdgeLine(Entry(v, w, a[v][w])), XmlText(a))
  {
    var e := Entry(v, w, a[v][w]);
    EntriesMembership(a, e);
    var i :| 0 <= i < |Entries(a)| && Entries(a)[i] == e;
    RenderContains(Entries(a), i, XmlEdgeLine);
    OccursExtend(XmlEdgeLine(e), Render(Entries(a), XmlEdgeLine),
                 XmlPreamble + XmlGraphOpen + Render(Range(|a|), XmlNodeLine), XmlClose);
  }

  lemma DimacsArcLineIsLine(e: Entry)
    ensures Newlines(DimacsArcLine(e)) == 1
  {
    var p, sp := "a       ", "       ";
    var n, m, x := IntToString(e.src + 1), IntToString(e.dst + 1), IntToString(e.weight);
    NoNewlines(p);
    NoNewlines(sp);
    NumeralNewlines(e.src + 1);
    NumeralNewlines(e.dst + 1);
    NumeralNewlines(e.weight);
    NewlinesAppend(p, n);
    NewlinesAppend(p + n, sp);
    NewlinesAppend(p + n + sp, m);
    NewlinesAppend(p + n + sp + m, sp);
    NewlinesAppend(p + n + sp + m + sp, x);
    NewlinesAppend(p + n + sp + m + sp + x, "\n");
  }

  /** The problem line is one line. */
  lemma DimacsProblemLine(s0: string, n: int, m: int)
    ensures Newlines(s0 + "p max     " + IntToString(n) + "    " + IntToString(m) + "\n") == Newlines(s0) + 1
  {
    var p, sp := "p max     ", "    ";
    NoNewlines(p);
    NoNewlines(sp);
    NumeralNewlines(n);
    NewlinesAppend(s0, p);
    NewlinesAppend(s0 + p, IntToString(n));
    NumeralLine(s0 + p + IntToString(n), sp, m, []);
    assert s0 + p + IntToString(n) + sp + IntToString(m) + [] + "\n" == s0 + p + IntToString(n) + sp + IntToString(m) + "\n";
  }

  /** A source or sink line is one line. */
  lemma DimacsNodeLine(s0: string, v: int, tag: string)
    requires tag == "  s" || tag == "  t"
    ensures Newlines(s0 + "n         " + IntToString(v) + tag + "\n") == Newlines(s0) + 1
  {
    NoNewlines("n         ");
    NoNewlines(tag);
    NumeralLine(s0, "n         ", v, tag);
  }

  lemma DimacsHeaderLines(a: Adj, src: int, dst: int)
    ensures Newlines(DimacsHeader(a, src, dst)) == 4
  {
    var c := "c toDIMACS()";
    NoNewlines(c);
    NewlinesLine([], c);
    assert [] + c + "\n" == c + "\n";
    DimacsProblemLine(c + "\n", |a|, EdgeCount(a));
    var h2 := c + "\n" + "p max     " + IntToString(|a|) + "    " + IntToString(EdgeCount(a)) + "\n";
    DimacsNodeLine(h2, src + 1, "  s");
    DimacsNodeLine(h2 + "n         " + IntToString(src + 1) + "  s" + "\n", dst + 1, "  t");
  }

  /** The DIMACS text has four header lines and one arc line per stored
      directed edge. */
  lemma DimacsLineCount(a: Adj, src: int, dst: int)
    ensures Newlines(DimacsText(a, src, dst)) == 4 + EdgeCount(a)
  {
    DimacsHeaderLines(a, src, dst);
    forall k | 0 <= k < |Entries(a)| ensures Newlines(DimacsArcLine(Entries(a)[k])) == 1 {
      DimacsArcLineIsLine(Entries(a)[k]);
    }
    RenderLines(Entries(a), DimacsArcLine);
    EntriesCount(a);
    NewlinesAppend(DimacsHeader(a, src, dst), Render(Entries(a), DimacsArcLine));
  }

  /** Every stored edge `v -> w` has its arc line, numbered from 1 and
      carrying its weight, in the DIMACS text. */
  lemma DimacsListsEveryArc(a: Adj, src: int, dst: int, v: int, w: int)
    requires 0 <= v < |a| && w in a[v]
    ensures Occurs(DimacsArcLine(Entry(v, w, a[v][w])), DimacsText(a, src, dst))
  {
    var e := Entry(v, w, a[v][w]);
    EntriesMembership(a, e);
    var i :| 0 <= i < |Entries(a)| && Entries(a)[i] == e;
    RenderContains(Entries(a), i, DimacsArcLine);
    OccursExtend(DimacsArcLine(e), Render(Entries(a), DimacsArcLine), DimacsHeader(a, src, dst), "");
    assert DimacsHeader(a, src, dst) + Render(Entries(a), DimacsArcLine) + "" == DimacsText(a, src, dst);
  }

  /** The matrix is empty exactly for the graph without vertices. */
  lemma AdjMatEmpty(a: Adj)
    ensures AdjMatText(a) == "" <==> |a| == 0
  {
    if |a| > 0 {
      assert AdjMatText(a)[0] == '[';
    }
  }

  lemma {:induction false} ColumnsNoNewlines(a: Adj, v: int, w: int)
    ensures Newlines(ColumnsText(a, v, w)) == 0
    decreases w
  {
    if w > 1 {
      ColumnsNoNewlines(a, v, w - 1);
      NoNewlines(",");
      NumeralNewlines(Cell(a, v, w - 1));
      NewlinesAppend(ColumnsText(a, v, w - 1), ",");
      NewlinesAppend(ColumnsText(a, v, w - 1) + ",", IntToString(Cell(a, v, w - 1)));
    }
  }

  /** Rows after the first start on a new line. */
  lemma RowLines(a: Adj, v: int)
    ensures Newlines(RowText(a, v)) == if v == 0 then 0 else 1
  {
    var p, n, c := RowSeparator(v), IntToString(Cell(a, v, 0)), ColumnsText(a, v, |a|);
    if v != 0 {
      NoNewlines(",");
      NewlinesAppend(",", "\n");
    }
    NoNewlines("[");
    NoNewlines("]");
    NumeralNewlines(Cell(a, v, 0));
    ColumnsNoNewlines(a, v, |a|);
    NewlinesAppend(p, "[");
    NewlinesAppend(p + "[", n);
    NewlinesAppend(p + "[" + n, c);
    NewlinesAppend(p + "[" + n + c, "]");
  }

  lemma {:induction false} RowsLines(a: Adj, k: nat)
    requires 0 < k
    ensures Newlines(Render(Range(k), v => RowText(a, v))) == k - 1
  {
    var rowText := v => RowText(a, v);
    RangeSnoc(k - 1);
    RenderSnoc(Range(k - 1), k - 1, rowText);
    RowLines(a, k - 1);
    NewlinesAppend(Render(Range(k - 1), rowText), RowText(a, k - 1));
    if k > 1 {
      RowsLines(a, k - 1);
    } else {
      assert Range(0) == [];
    }
  }

  /** A non-empty matrix spans one line per vertex. */
  lemma AdjMatLineCount(a: Adj)
    requires |a| > 0
    ensures Newlines(AdjMatText(a)) == |a|
  {
    var rows := Render(Range(|a|), v => RowText(a, v));
    RowsLines(a, |a|);
    NoNewlines("[");
    NoNewlines("]");
    NewlinesAppend("[", rows);
    NewlinesAppend("]", "\n");
    NewlinesAppend("[" + rows, "]\n");
  }

  /** When no stored weight is -1, the matrix determines the graph: two
      graphs on the same vertices whose destinations are vertices and whose
      cells agree everywhere are equal. */
  lemma MatrixDeterminesGraph(a: Adj, b: Adj)
    requires |a| == |b| && Closed(a) && Closed(b)
    requires forall v, w :: 0 <= v < |a| && w in a[v] ==> a[v][w] != -1
    requires forall v, w :: 0 <= v < |b| && w in b[v] ==> b[v][w] != -1
    requires forall v, w :: 0 <= v < |a| && 0 <= w < |a| ==> Cell(a, v, w) == Cell(b, v, w)
    ensures a == b
  {
    forall v | 0 <= v < |a| ensures a[v] == b[v] {
      forall w ensures (w in a[v] <==> w in b[v]) && (w in a[v] ==> a[v][w] == b[v][w]) {
        if w in a[v] || w in b[v] {
          assert Cell(a, v, w) == Cell(b, v, w);
        }
      }
    }
  }
}
