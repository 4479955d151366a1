/** The fractal cellular automaton of the driver program: a square grid of
    `width * height` cells numbered row by row, an undirected graph saying
    which cells are neighbours, one Boolean state per cell and a generation
    counter. The program's globals become the fields of `Automaton`; the
    grid width, which the free functions read as a global, becomes their
    parameter. */
module FractalCA {
  import opened EdgeContainer
  import opened Adjacency
  import opened Directed
  import opened Undirected
  import opened WeightedUndirected

  // ------------------------------------------------------ 32-bit integers

  /** The value a 32-bit two's-complement `int` holds after an operation
      whose exact result is `x`. */
  function Wrap32(x: int): (r: int)
    ensures -0x8000_0000 <= r < 0x8000_0000
    ensures (r - x) % 0x1_0000_0000 == 0
    ensures -0x8000_0000 <= x < 0x8000_0000 ==> r == x
  {
    (x + 0x8000_0000) % 0x1_0000_0000 - 0x8000_0000
  }

  function Pow2(k: nat): nat {
    if k == 0 then 1 else 2 * Pow2(k - 1)
  }

  /** Adding a multiple of 2^32 does not change the wrapped value. */
  lemma WrapPeriodic(x: int, j: int)
    ensures Wrap32(x + j * 0x1_0000_0000) == Wrap32(x)
  {
    var y := x + 0x8000_0000;
    DivModUnique(y + j * 0x1_0000_0000, 0x1_0000_0000, y / 0x1_0000_0000 + j, y % 0x1_0000_0000);
  }

  /** Doubling a wrapped value wraps to the same value as doubling the
      exact one. */
  lemma WrapDouble(x: int)
    ensures Wrap32(2 * Wrap32(x)) == Wrap32(2 * x)
  {
    var j := (x + 0x8000_0000) / 0x1_0000_0000;
    assert Wrap32(x) == x - j * 0x1_0000_0000;
    WrapPeriodic(2 * x, -2 * j);
  }

  /** `mypow2(k)`: `k` doublings of 1 in a 32-bit `int`; none for `k <= 0`. */
  method MyPow2(k: int) returns (res: int)
    ensures res == Wrap32(Pow2(if k < 0 then 0 else k))
  {
    res := 1;
    var i := 0;
    while i < k
      invariant 0 <= i <= (if k < 0 then 0 else k)
      invariant res == Wrap32(Pow2(i))
    {
      WrapDouble(Pow2(i));
      res := Wrap32(res * 2);
      i := i + 1;
    }
  }

  lemma {:induction false} Pow2Monotone(i: nat, j: nat)
    requires i <= j
    ensures Pow2(i) <= Pow2(j)
  {
    if i < j {
      Pow2Monotone(i, j - 1);
    }
  }

  lemma Pow2Values()
    ensures Pow2(4) == 16 && Pow2(8) == 256 && Pow2(12) == 4096 && Pow2(16) == 65536
    ensures Pow2(30) == 0x4000_0000 && Pow2(31) == 0x8000_0000 && Pow2(32) == 0x1_0000_0000
  {
    assert Pow2(4) == 16;
    assert Pow2(8) == 256;
    assert Pow2(12) == 4096;
    assert Pow2(16) == 65536;
    assert Pow2(20) == 0x10_0000;
    assert Pow2(24) == 0x100_0000;
    assert Pow2(28) == 0x1000_0000;
    assert Pow2(32) == 0x1_0000_0000;
  }

  /** Up to 2^30 the power is exact; 2^31 wraps to the most negative
      `int`. */
  lemma MyPow2Exact(k: nat)
    ensures k <= 30 ==> Wrap32(Pow2(k)) == Pow2(k)
    ensures k == 31 ==> Wrap32(Pow2(k)) == -0x8000_0000
  {
    Pow2Values();
    if k <= 30 {
      Pow2Monotone(k, 30);
    }
  }

  lemma {:induction false} Pow2Multiple(k: nat)
    requires k >= 32
    ensures Pow2(k) % 0x1_0000_0000 == 0
  {
    if k == 32 {
      Pow2Values();
    } else {
      Pow2Multiple(k - 1);
      var q := Pow2(k - 1) / 0x1_0000_0000;
      assert Pow2(k - 1) == q * 0x1_0000_0000;
      assert Pow2(k) == (2 * q) * 0x1_0000_0000;
    }
  }

  /** From 2^32 on, every power of two wraps to 0. */
  lemma MyPow2Wraps(k: nat)
    requires k >= 32
    ensures Wrap32(Pow2(k)) == 0
  {
    Pow2Multiple(k);
    var q := Pow2(k) / 0x1_0000_0000;
    assert Pow2(k) + 0x8000_0000 == q * 0x1_0000_0000 + 0x8000_0000;
  }

  // ------------------------------------------------------ grid dimensions

  /** The grid width the driver computes for recursion level `level`:
      `mypow2(level * 4) + 1`. */
  function GridWidth(level: int): int {
    Wrap32(Pow2(if 4 * level < 0 then 0 else 4 * level)) + 1
  }

  /** The level check of the driver, as written: levels 1 to 10. */
  predicate LauncherAccepts(level: int) {
    1 <= level <= 10
  }

  /** An accepted level whose width wraps: at level 8 the power 2^32 is 0,
      so the grid is one cell wide. */
  lemma AcceptedLevelCollapses()
    ensures LauncherAccepts(8) && GridWidth(8) == 1
  {
    MyPow2Wraps(32);
  }

  /** An accepted level whose cell count does not fit an `int`: at level 4
      the width is 65537, and `width * height` exceeds 2^31 - 1. */
  lemma AcceptedLevelOverflows()
    ensures LauncherAccepts(4) && GridWidth(4) == 65537 && GridWidth(4) * GridWidth(4) >= 0x8000_0000
  {
    Pow2Values();
  }

  /** The levels whose width is the intended `2^(4 level) + 1` and whose
      cell count fits an `int`. */
  predicate SafeLevel(level: int) {
    1 <= level <= 3
  }

  lemma SafeLevelFits(level: int)
    requires SafeLevel(level)
    ensures GridWidth(level) == Pow2(4 * level) + 1 && 17 <= GridWidth(level) <= 4097
    ensures GridWidth(level) * GridWidth(level) < 0x8000_0000
  {
    Pow2Values();
    assert GridWidth(level) == 17 || GridWidth(level) == 257 || GridWidth(level) == 4097;
  }

  // ------------------------------------------------------------ midpoints

  /** C++ integer division for a positive divisor: truncation toward 0. */
  function CDiv(x: int, y: int): int
    requires y > 0
  {
    if x >= 0 then x / y else -((-x) / y)
  }

  /** C++ `%` for a positive divisor: the remainder takes the dividend's sign. */
  function CMod(x: int, y: int): int
    requires y > 0
  {
    x - CDiv(x, y) * y
  }

  /** `midpoint(a, b)`: the cell whose row is the truncated mean of the
      rows of `a` and `b`, and whose column is that of their columns. */
  function Midpoint(width: int, a: int, b: int): int
    requires width > 0
  {
    CDiv(CDiv(a, width) + CDiv(b, width), 2) * width + CDiv(CMod(a, width) + CMod(b, width), 2)
  }

  lemma MulAtLeast(d: int, w: int)
    requires d >= 1 && w > 0
    ensures d * w >= w
  {
  }

  /** A row and a column within the row determine the quotient and the
      remainder. */
  lemma DivModUnique(m: int, w: int, q: int, r: int)
    requires w > 0 && 0 <= r < w && m == q * w + r
    ensures m / w == q && m % w == r
  {
    var q', r' := m / w, m % w;
    assert m == q' * w + r' && 0 <= r' < w;
    if q > q' {
      MulAtLeast(q - q', w);
    } else if q < q' {
      MulAtLeast(q' - q, w);
    }
  }

  /** For cells, which are not negative, C++ division is Dafny's. */
  lemma CellOf(width: int, a: int)
    requires width > 0 && 0 <= a
    ensures CDiv(a, width) == a / width && CMod(a, width) == a % width && 0 <= a / width
  {
    assert a == (a / width) * width + a % width;
  }

  /** The midpoint lies in the middle row and the middle column, rounded
      down. */
  lemma MidpointCell(width: int, a: int, b: int)
    requires width > 0 && 0 <= a && 0 <= b
    ensures Midpoint(width, a, b) / width == (a / width + b / width) / 2
    ensures Midpoint(width, a, b) % width == (a % width + b % width) / 2
    ensures Midpoint(width, a, b) == ((a / width + b / width) / 2) * width + (a % width + b % width) / 2
  {
    var row, col := (a / width + b / width) / 2, (a % width + b % width) / 2;
    CellOf(width, a);
    CellOf(width, b);
    assert Midpoint(width, a, b) == row * width + col;
    DivModUnique(row * width + col, width, row, col);
  }

  /** The midpoint is symmetric in its two cells, and the midpoint of a
      cell with itself is the cell. */
  lemma MidpointSymmetric(width: int, a: int, b: int)
    requires width > 0 && 0 <= a && 0 <= b
    ensures Midpoint(width, a, b) == Midpoint(width, b, a)
    ensures Midpoint(width, a, a) == a
  {
    CellOf(width, a);
    assert Midpoint(width, a, a) == (a / width) * width + a % width;
  }

  /** The midpoint of two cells of a `width * height` grid is a cell of it. */
  lemma MidpointInGrid(width: int, height: int, a: int, b: int)
    requires width > 0 && height > 0
    requires 0 <= a < width * height && 0 <= b < width * height
    ensures 0 <= Midpoint(width, a, b) < width * height
  {
    var ra, rb, ca, cb := a / width, b / width, a % width, b % width;
    assert 0 <= ra < height && 0 <= ca < width by {
      RowInGrid(width, height, a);
    }
    assert 0 <= rb < height && 0 <= cb < width by {
      RowInGrid(width, height, b);
    }
    GridMean(width, height, ra, rb, ca, cb);
    MidpointCell(width, a, b);
  }

  /** Mean row and mean column of two cells make a cell. */
  lemma GridMean(width: int, height: int, ra: int, rb: int, ca: int, cb: int)
    requires 0 <= ra < height
    requires 0 <= rb < height
    requires 0 <= ca < width
    requires 0 <= cb < width
    ensures 0 <= ((ra + rb) / 2) * width + (ca + cb) / 2 < width * height
  {
    GridCell(width, height, (ra + rb) / 2, (ca + cb) / 2);
  }

  lemma MulMonotone(x: int, y: int, w: int)
    requires x <= y && w >= 0
    ensures x * w <= y * w
  {
    assert y * w - x * w == (y - x) * w;
  }

  /** A cell of a `width * height` grid lies in one of its rows. */
  lemma RowInGrid(width: int, height: int, a: int)
    requires width > 0 && height > 0 && 0 <= a < width * height
    ensures a / width < height
  {
    assert a == (a / width) * width + a % width;
    if a / width >= height {
      MulMonotone(height, a / width, width);
    }
  }

  /** A row and a column of the grid make a cell of it. */
  lemma GridCell(width: int, height: int, row: int, col: int)
    requires 0 <= row < height && 0 <= col < width
    ensures 0 <= row * width + col < width * height
  {
    MulMonotone(row, height - 1, width);
    assert (height - 1) * width == height * width - width;
  }

  // ------------------------------------------------------- colour indices

  /** The slots of the shift table that `init_color_index_shift` writes,
      for the eight neighbour offsets `d` at slot `d + width + 1`. */
  predicate IsNeighbourSlot(width: int, si: int) {
    si == width + 2 || si == 2 * (width + 1) || si == 2 * width + 1 || si == 2 * width ||
    si == width || si == 0 || si == 1 || si == 2
  }

  /** The shift a written slot ends up holding. The writes go clockwise
      from the right neighbour; the tests here go in the reverse order, so
      when a narrow grid makes two slots coincide the later write wins. */
  function SlotShift(width: int, si: int): int
    requires IsNeighbourSlot(width, si)
  {
    if si == 2 then 0
    else if si == 1 then 1
    else if si == 0 then 2
    else if si == width then 3
    else if si == 2 * width then 4
    else if si == 2 * width + 1 then 5
    else if si == 2 * (width + 1) then 6
    else 7
  }

  /** `1 << s` for the eight shifts of a colour index. */
  function Bit(s: int): bv8
    requires 0 <= s < 8
  {
    if s == 0 then 1 else if s == 1 then 2 else if s == 2 then 4 else if s == 3 then 8
    else if s == 4 then 16 else if s == 5 then 32 else if s == 6 then 64 else 128
  }

  predicate HasBit(x: bv8, s: int)
    requires 0 <= s < 8
  {
    x & Bit(s) != 0
  }

  /** Every neighbour `n` of `k` in `ns` has a slot in the table, holding
      a shift below 8. */
  ghost predicate ShiftsCover(table: seq<int>, width: int, k: int, ns: seq<int>) {
    forall i :: 0 <= i < |ns| ==> 0 <= ns[i] - k + width + 1 < |table| && 0 <= table[ns[i] - k + width + 1] < 8
  }

  /** The OR of `1 << shift` over the first `count` neighbours `ns` of `k`. */
  function ColorMask(table: seq<int>, width: int, k: int, ns: seq<int>, count: int): bv8
    requires ShiftsCover(table, width, k, ns) && 0 <= count <= |ns|
  {
    if count == 0 then 0
    else ColorMask(table, width, k, ns, count - 1) | Bit(table[ns[count - 1] - k + width + 1])
  }

  lemma BitOfOr(x: bv8, t: int, s: int)
    requires 0 <= t < 8 && 0 <= s < 8
    ensures HasBit(x | Bit(t), s) <==> HasBit(x, s) || s == t
  {
  }

  /** Bit `s` of the colour index is set exactly when one of the counted
      neighbours' slots holds shift `s`. */
  lemma {:induction false} ColorMaskBits(table: seq<int>, width: int, k: int, ns: seq<int>, count: int, s: int)
    requires ShiftsCover(table, width, k, ns) && 0 <= count <= |ns| && 0 <= s < 8
    ensures HasBit(ColorMask(table, width, k, ns, count), s) <==>
      exists i :: 0 <= i < count && table[ns[i] - k + width + 1] == s
  {
    if count > 0 {
      ColorMaskBits(table, width, k, ns, count - 1, s);
      BitOfOr(ColorMask(table, width, k, ns, count - 1), table[ns[count - 1] - k + width + 1], s);
    }
  }

  /** Every destination `n` of the edge map has a slot in the table,
      holding a shift below 8. */
  ghost predicate SlotsCover(table: seq<int>, width: int, k: int, m: EdgeMap) {
    forall n :: n in m ==> 0 <= n - k + width + 1 < |table| && 0 <= table[n - k + width + 1] < 8
  }

  /** The loop of `get_mycolor_index` over the neighbours `ns` of `k`:
      ORs in `1 << shift` of each neighbour's slot. */
  method OrShifts(table: seq<int>, width: int, k: int, ns: seq<int>) returns (mask: bv8)
    requires ShiftsCover(table, width, k, ns)
    ensures mask == ColorMask(table, width, k, ns, |ns|)
  {
    mask := 0;
    for i := 0 to |ns|
      invariant mask == ColorMask(table, width, k, ns, i)
    {
      mask := mask | Bit(table[ns[i] - k + width + 1]);
    }
  }

  /** Bit `s` of `mask` is set exactly when some neighbour `n` of `k` in
      `m` has shift `s` in its slot of `table`. */
  ghost predicate MarksShifts(mask: bv8, table: seq<int>, width: int, k: int, m: EdgeMap)
    requires SlotsCover(table, width, k, m)
  {
    forall s :: 0 <= s < 8 ==> (HasBit(mask, s) <==> exists n :: n in m && table[n - k + width + 1] == s)
  }

  /** Over all the neighbours of `k` in key order, bit `s` of the colour
      index is set exactly when some neighbour's slot holds shift `s`. */
  lemma ColorMaskKeys(table: seq<int>, width: int, k: int, m: EdgeMap)
    requires SlotsCover(table, width, k, m)
    ensures ShiftsCover(table, width, k, Keys(m))
    ensures MarksShifts(ColorMask(table, width, k, Keys(m), |m|), table, width, k, m)
  {
    var ks := Keys(m);
    forall s | 0 <= s < 8
      ensures HasBit(ColorMask(table, width, k, ks, |ks|), s) <==> exists n :: n in m && table[n - k + width + 1] == s
    {
      ColorMaskBits(table, width, k, ks, |ks|, s);
      if exists n :: n in m && table[n - k + width + 1] == s {
        var n :| n in m && table[n - k + width + 1] == s;
        KeysComplete(m, n);
      }
    }
  }

  /** For a grid at least three cells wide the eight neighbour slots are
      distinct and get the eight shifts clockwise from the right neighbour:
      right 7, lower right 6, below 5, lower left 4, left 3, upper left 2,
      above 1, upper right 0. So distinct neighbour directions set distinct
      bits. */
  lemma ClockwiseShifts(width: int)
    requires width >= 3
    ensures SlotShift(width, 1 + width + 1) == 7
    ensures SlotShift(width, (width + 1) + width + 1) == 6
    ensures SlotShift(width, width + width + 1) == 5
    ensures SlotShift(width, (width - 1) + width + 1) == 4
    ensures SlotShift(width, -1 + width + 1) == 3
    ensures SlotShift(width, -(width + 1) + width + 1) == 2
    ensures SlotShift(width, -width + width + 1) == 1
    ensures SlotShift(width, -(width - 1) + width + 1) == 0
    ensures forall si, sj :: IsNeighbourSlot(width, si) && IsNeighbourSlot(width, sj) && si != sj ==>
      SlotShift(width, si) != SlotShift(width, sj)
  {
  }

  // ------------------------------------------------------------ the rule

  /** The neighbours of `k` that are alive. */
  ghost function LiveNeighbours(a: Adj, state: seq<bool>, k: int): set<int>
    requires 0 <= k < |a|
  {
    set n | n in a[k] && 0 <= n < |state| && state[n]
  }

  /** `next_state_rule`'s decision: a live cell survives with one or two
      live neighbours; a dead one comes alive with exactly two. */
  ghost function NextState(a: Adj, state: seq<bool>, k: int): bool
    requires 0 <= k < |a| && k < |state|
  {
    var live := |LiveNeighbours(a, state, k)|;
    if state[k] then live == 1 || live == 2 else live == 2
  }

  /** The state vector `apply_rule_to_all_cells` builds: `n` cells, false
      unless the cell is a vertex with at least one neighbour, in which
      case the rule applied to the old states. */
  ghost function NextGeneration(a: Adj, state: seq<bool>, n: nat): seq<bool>
    requires |a| <= |state|
  {
    seq(n, k requires 0 <= k < n => k < |a| && |a[k]| > 0 && NextState(a, state, k))
  }

  /** The live cells among `ns`. */
  ghost function LiveAmong(state: seq<bool>, ns: seq<int>): set<int>
    requires forall i :: 0 <= i < |ns| ==> 0 <= ns[i] < |state|
  {
    if ns == [] then {}
    else LiveAmong(state, ns[..|ns| - 1]) + (if state[ns[|ns| - 1]] then {ns[|ns| - 1]} else {})
  }

  lemma {:induction false} LiveAmongMembers(state: seq<bool>, ns: seq<int>, n: int)
    requires forall i :: 0 <= i < |ns| ==> 0 <= ns[i] < |state|
    ensures n in LiveAmong(state, ns) <==> n in ns && state[n]
  {
    if ns != [] {
      var init := ns[..|ns| - 1];
      LiveAmongMembers(state, init, n);
      assert ns == init + [ns[|ns| - 1]];
    }
  }

  /** How many of `ns` are alive, counting repeats. */
  ghost function CountLive(state: seq<bool>, ns: seq<int>): nat
    requires forall i :: 0 <= i < |ns| ==> 0 <= ns[i] < |state|
  {
    if ns == [] then 0
    else CountLive(state, ns[..|ns| - 1]) + (if state[ns[|ns| - 1]] then 1 else 0)
  }

  /** Without repeats, the count is the number of live cells among `ns`. */
  lemma {:induction false} CountLiveDistinct(state: seq<bool>, ns: seq<int>)
    requires forall i :: 0 <= i < |ns| ==> 0 <= ns[i] < |state|
    requires forall i, j :: 0 <= i < j < |ns| ==> ns[i] < ns[j]
    ensures CountLive(state, ns) == |LiveAmong(state, ns)|
  {
    if ns != [] {
      var init, last := ns[..|ns| - 1], ns[|ns| - 1];
      CountLiveDistinct(state, init);
      LiveAmongMembers(state, init, last);
      assert last !in init by {
        forall i | 0 <= i < |init| ensures init[i] != last {
          assert init[i] == ns[i];
        }
      }
    }
  }

  /** Counting over the neighbours of `k` in key order counts the live
      neighbours. */
  lemma CountLiveKeys(a: Adj, state: seq<bool>, k: int)
    requires 0 <= k < |a| && forall n :: n in a[k] ==> 0 <= n < |state|
    ensures forall i :: 0 <= i < |Keys(a[k])| ==> 0 <= Keys(a[k])[i] < |state|
    ensures CountLive(state, Keys(a[k])) == |LiveNeighbours(a, state, k)|
  {
    var ks := Keys(a[k]);
    forall n ensures n in LiveAmong(state, ks) <==> n in LiveNeighbours(a, state, k) {
      LiveAmongMembers(state, ks, n);
      if n in a[k] {
        KeysComplete(a[k], n);
      }
    }
    assert LiveAmong(state, ks) == LiveNeighbours(a, state, k);
    CountLiveDistinct(state, ks);
  }

  /** The rule is local: a cell's next state depends only on its own state
      and those of its neighbours. */
  lemma NextStateLocal(a: Adj, s1: seq<bool>, s2: seq<bool>, k: int)
    requires 0 <= k < |a| && k < |s1| && |s1| == |s2|
    requires s1[k] == s2[k]
    requires forall n :: n in a[k] && 0 <= n < |s1| ==> s1[n] == s2[n]
    ensures NextState(a, s1, k) == NextState(a, s2, k)
  {
    assert LiveNeighbours(a, s1, k) == LiveNeighbours(a, s2, k);
  }

  /** No cell has more live neighbours than neighbours; so a cell with
      fewer than two neighbours is never born, and a cell whose neighbours
      are all dead is dead in the next generation. */
  lemma LiveNeighboursBound(a: Adj, state: seq<bool>, k: int)
    requires 0 <= k < |a| && k < |state|
    ensures |LiveNeighbours(a, state, k)| <= |a[k]|
    ensures !state[k] && |a[k]| < 2 ==> !NextState(a, state, k)
    ensures (forall n :: n in a[k] && 0 <= n < |state| ==> !state[n]) ==> !NextState(a, state, k)
  {
    SubsetSize(LiveNeighbours(a, state, k), a[k].Keys);
    if forall n :: n in a[k] && 0 <= n < |state| ==> !state[n] {
      assert LiveNeighbours(a, state, k) == {};
    }
  }

  /** The next generation has `n` cells; a cell that is not a vertex or
      has no neighbour is dead in it; and a grid with no live cell stays
      without one. */
  lemma NextGenerationProperties(a: Adj, state: seq<bool>, n: nat)
    requires |a| <= |state|
    ensures |NextGeneration(a, state, n)| == n
    ensures forall k :: 0 <= k < n && (k >= |a| || |a[k]| == 0) ==> !NextGeneration(a, state, n)[k]
    ensures (forall k :: 0 <= k < |state| ==> !state[k]) ==> forall k :: 0 <= k < n ==> !NextGeneration(a, state, n)[k]
  {
    if forall k :: 0 <= k < |state| ==> !state[k] {
      forall k | 0 <= k < n && k < |a|
        ensures !NextGeneration(a, state, n)[k]
      {
        LiveNeighboursBound(a, state, k);
      }
    }
  }

  // -------------------------------------------------------- the automaton

  class Automaton {
    /** The neighbour graph. */
    const g: IwUngraph
    /** The state of every cell. */
    var gstate: seq<bool>
    /** The generation number. */
    var gen: int
    var width: int
    var height: int
    /** The shift slot table of the colour index. */
    var colorIndexShift: seq<int>

    /** The adjacency of the neighbour graph. */
    function Cells(): Adj
      reads g, g.u, g.u.g
    {
      g.u.g.adj
    }

    /** Every shift in the table is below 8. */
    ghost predicate ShiftsValid()
      reads this
    {
      forall i :: 0 <= i < |colorIndexShift| ==> 0 <= colorIndexShift[i] < 8
    }

    /** The state the driver sets up before building the graph, at a level
        whose grid dimensions fit an `int`: width and height `2^(4 level)
        + 1`, a graph of `width * height` cells without edges, every cell
        dead, generation 0, the shift table initialised. */
    constructor (level: int)
      requires SafeLevel(level)
      ensures width == height == Pow2(4 * level) + 1
      ensures fresh(g) && fresh(g.u) && fresh(g.u.g) && Cells() == Empty(width * height)
      ensures gstate == seq(width * height, _ => false) && gen == 0
      ensures |colorIndexShift| == 2 * (width + 1) + 1 && ShiftsValid()
      ensures forall si :: 0 <= si < |colorIndexShift| ==>
        colorIndexShift[si] == if IsNeighbourSlot(width, si) then SlotShift(width, si) else 0
    {
      var p := MyPow2(level * 4);
      SafeLevelFits(level);
      var w := p + 1;
      width, height := w, w;
      g := new IwUngraph(w * w);
      gstate := seq(w * w, _ => false);
      gen := 0;
      colorIndexShift := [];
      new;
      InitColorIndexShift();
    }

    /** `init_color_index_shift()`: the table is resized to
        `2 * (width + 1) + 1` slots, new slots 0, then the eight neighbour
        slots are written. */
    method InitColorIndexShift()
      requires width >= 1
      modifies this
      ensures |colorIndexShift| == 2 * (width + 1) + 1
      ensures forall si :: 0 <= si < |colorIndexShift| ==>
        colorIndexShift[si] == if IsNeighbourSlot(width, si) then SlotShift(width, si)
          else if si < |old(colorIndexShift)| then old(colorIndexShift)[si] else 0
      ensures old(ShiftsValid()) ==> ShiftsValid()
      ensures gstate == old(gstate) && gen == old(gen) && width == old(width) && height == old(height)
    {
      var n, t := 2 * (width + 1) + 1, colorIndexShift;
      if n <= |t| {
        t := t[..n];
      } else {
        t := t + seq(n - |t|, _ => 0);
      }
      t := t[width + 2 := 7];
      t := t[2 * (width + 1) := 6];
      t := t[2 * width + 1 := 5];
      t := t[2 * width := 4];
      t := t[width := 3];
      t := t[0 := 2];
      t := t[1 := 1];
      t := t[2 := 0];
      colorIndexShift := t;
    }

    /** `get_mycolor_index(k)`: one bit per neighbour, at the shift of the
        neighbour's slot. Every neighbour must lie within `width + 1` of `k`
        in cell number, so that its slot is in the table. */
    method GetMycolorIndex(k: int) returns (colorIndex: bv8)
      requires 0 <= k < |Cells()| && ShiftsValid()
      requires forall n :: n in Cells()[k] ==> 0 <= n - k + width + 1 < |colorIndexShift|
      ensures MarksShifts(colorIndex, colorIndexShift, width, k, Cells()[k])
    {
      ColorMaskKeys(colorIndexShift, width, k, Cells()[k]);
      colorIndex := OrShifts(colorIndexShift, width, k, Keys(g.u.g.adj[k]));
    }

    /** `next_state_rule(k)`: counts the live neighbours of `k`, then
        decides. Every neighbour is a cell with a state. */
    method NextStateRule(k: int) returns (next: bool)
      requires 0 <= k < |Cells()| && k < |gstate|
      requires forall n :: n in Cells()[k] ==> 0 <= n < |gstate|
      ensures next == NextState(Cells(), gstate, k)
    {
      var ks := Keys(g.u.g.adj[k]);
      CountLiveKeys(Cells(), gstate, k);
      var liveNeighs := 0;
      for i := 0 to |ks|
        invariant liveNeighs == CountLive(gstate, ks[..i])
      {
        assert ks[..i + 1][..i] == ks[..i];
        if gstate[ks[i]] {
          liveNeighs := liveNeighs + 1;
        }
      }
      assert ks[..|ks|] == ks;
      if gstate[k] {
        if liveNeighs == 1 || liveNeighs == 2 {
          return true;
        }
      } else {
        if liveNeighs == 2 {
          return true;
        }
      }
      return false;
    }

    /** `apply_rule_to_all_cells()`: the generation count goes up by one and
        the whole state is replaced at once by the next generation of
        `width * height` cells, each computed from the old states. The
        state vector must cover every vertex, and every vertex indexes the
        new vector. */
    method ApplyRuleToAllCells()
      requires Closed(Cells()) && |Cells()| <= |gstate| && |Cells()| <= width * height
      modifies this
      ensures width == old(width) && height == old(height) && colorIndexShift == old(colorIndexShift)
      ensures gen == old(gen) + 1
      ensures gstate == NextGeneration(Cells(), old(gstate), width * height)
    {
      var n := width * height;
      var newState := seq(n, _ => false);
      ghost var target := NextGeneration(Cells(), gstate, n);
      for k := 0 to |g.u.g.adj|
        invariant |newState| == n
        modifies {}
        invariant forall j :: 0 <= j < k ==> newState[j] == target[j]
        invariant forall j :: k <= j < n ==> !newState[j]
      {
        if |g.u.g.adj[k]| > 0 {
          var next := NextStateRule(k);
          newState := newState[k := next];
        }
      }
      gen := gen + 1;
      gstate := newState;
    }
  }
}
