/** Text assembly shared by the serialisers: each of them appends one piece
    of text per element of a sequence (`res += ...` inside a loop). */
module Text {
  import opened Decimal

  /** The concatenation of `line(x)` over the elements `x` of `xs`, in order. */
  function Render<T>(xs: seq<T>, line: T -> string): string
    decreases |xs|
  {
    if xs == [] then "" else Render(xs[..|xs| - 1], line) + line(xs[|xs| - 1])
  }

  lemma {:induction false} RenderAppend<T>(a: seq<T>, b: seq<T>, line: T -> string)
    ensures Render(a + b, line) == Render(a, line) + Render(b, line)
    decreases |b|
  {
    if b == [] {
      assert a + b == a;
    } else {
      var b' := b[..|b| - 1];
      assert (a + b)[..|a + b| - 1] == a + b';
      RenderAppend(a, b', line);
    }
  }

  /** One more element appends exactly its own piece: the step of every
      serialiser loop. */
  lemma RenderSnoc<T>(xs: seq<T>, x: T, line: T -> string)
    ensures Render(xs + [x], line) == Render(xs, line) + line(x)
  {
    assert (xs + [x])[..|xs|] == xs;
  }

  /** Rendering one more element of a prefix appends its line. */
  lemma RenderPrefix<T>(xs: seq<T>, i: nat, line: T -> string)
    requires i < |xs|
    ensures Render(xs[..i + 1], line) == Render(xs[..i], line) + line(xs[i])
  {
    assert xs[..i + 1] == xs[..i] + [xs[i]];
    RenderSnoc(xs[..i], xs[i], line);
  }

  /** `piece` occurs in `s` as a contiguous substring. */
  ghost predicate Occurs(piece: string, s: string) {
    exists pre: string, post: string :: s == pre + piece + post
  }

  /** The piece of every element occurs in the rendering. */
  lemma {:induction false} RenderContains<T>(xs: seq<T>, i: nat, line: T -> string)
    requires i < |xs|
    ensures Occurs(line(xs[i]), Render(xs, line))
    decreases |xs|
  {
    var init := xs[..|xs| - 1];
    if i == |xs| - 1 {
      assert Render(xs, line) == Render(init, line) + line(xs[i]) + "";
    } else {
      RenderContains(init, i, line);
      var pre: string, post: string :| Render(init, line) == pre + line(init[i]) + post;
      assert Render(xs, line) == pre + line(xs[i]) + (post + line(xs[|xs| - 1]));
    }
  }

  lemma Associative(a: string, b: string, c: string)
    ensures a + b + c == a + (b + c)
  {
  }

  /** A substring of a substring is a substring. */
  lemma OccursExtend(piece: string, s: string, before: string, after: string)
    requires Occurs(piece, s)
    ensures Occurs(piece, before + s + after)
  {
    var pre: string, post: string :| s == pre + piece + post;
    assert before + s + after == (before + pre) + piece + (post + after);
  }

  /** The indices `0 .. n-1`, the range of every vertex loop. */
  function Range(n: nat): (r: seq<int>)
    ensures |r| == n && forall i :: 0 <= i < n ==> r[i] == i
  {
    seq(n, i => i)
  }

  lemma RangeSnoc(n: nat)
    ensures Range(n + 1) == Range(n) + [n]
  {
  }

  /** The number of line-feed characters in `s`. */
  function Newlines(s: string): nat
    decreases |s|
  {
    if s == [] then 0 else Newlines(s[..|s| - 1]) + (if s[|s| - 1] == '\n' then 1 else 0)
  }

  lemma {:induction false} NewlinesAppend(s: string, t: string)
    ensures Newlines(s + t) == Newlines(s) + Newlines(t)
    decreases |t|
  {
    if t == [] {
      assert s + t == s;
    } else {
      var t' := t[..|t| - 1];
      assert (s + t)[..|s + t| - 1] == s + t';
      NewlinesAppend(s, t');
    }
  }

  /** A line without a line break of its own, then the break, adds one
      line. */
  lemma NewlinesLine(s: string, l: string)
    requires Newlines(l) == 0
    ensures Newlines(s + l + "\n") == Newlines(s) + 1
  {
    NewlinesAppend(s, l);
    NewlinesAppend(s + l, "\n");
  }

  /** A line made of a numeral between two pieces without line breaks
      adds one line. */
  lemma NumeralLine(s: string, p: string, i: int, q: string)
    requires Newlines(p) == 0 && Newlines(q) == 0
    ensures Newlines(s + p + IntToString(i) + q + "\n") == Newlines(s) + 1
  {
    NumeralNewlines(i);
    NewlinesAppend(s, p);
    NewlinesAppend(s + p, IntToString(i));
    NewlinesLine(s + p + IntToString(i), q);
  }

  lemma {:induction false} NoNewlines(s: string)
    requires forall k :: 0 <= k < |s| ==> s[k] != '\n'
    ensures Newlines(s) == 0
    decreases |s|
  {
    if s != [] {
      NoNewlines(s[..|s| - 1]);
    }
  }

  /** A decimal numeral never contains a line feed. */
  lemma NumeralNewlines(i: int)
    ensures Newlines(IntToString(i)) == 0
  {
    NoNewlines(IntToString(i));
  }

  /** When every piece is one line, the rendering has one line per element. */
  lemma {:induction false} RenderLines<T>(xs: seq<T>, line: T -> string)
    requires forall k :: 0 <= k < |xs| ==> Newlines(line(xs[k])) == 1
    ensures Newlines(Render(xs, line)) == |xs|
    decreases |xs|
  {
    if xs != [] {
      var init := xs[..|xs| - 1];
      assert forall k :: 0 <= k < |init| ==> init[k] == xs[k];
      RenderLines(init, line);
      NewlinesAppend(Render(init, line), line(xs[|xs| - 1]));
    }
  }
}
