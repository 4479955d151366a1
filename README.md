# Fractal cellular automaton on an index-based graph container

This project models two things in Dafny:

- a small C++ graph library whose weights are `int`;
- the cellular-automaton step of the program built on it.

**The library**

- **`digraph<T>`** is a growable vector of per-vertex edge maps. It holds edges from a vertex index to a weight.
- Module `Directed` holds the class `Digraph`, whose field `adj` is a `seq<map<int, int>>`.
- The operations of `digraph<T>` are methods that reassign `adj`.
- Each method's contract ties the new `adj` to a function of the old one: `Insert`, `Erase`, `EraseInEdges`, `Empty` or `TreeAdj`. Lemmas state what those functions mean.
- Breadth-first search is in modules `Reach` and `Search`. It is proved to produce a breadth-first tree rooted at `src`. Each parent has an edge to its child, exactly the reachable vertices get a parent, and following parents always leads back to `src`. The links also carry breadth-first levels, so the tree path to any vertex is no longer than any walk to it from `src`.
- The GraphML, DIMACS and adjacency-matrix writers are in module `Export`. Each writer is a method that appends to a string in nested loops, the way the source does. Each is proved equal to a function of the graph, and lemmas state the shape of that text:
  - its line count;
  - which lines it contains;
  - that the matrix determines the graph.

**The undirected layers**

- **`ungraph<T>`** (module `Undirected`) applies each directed mutator in both directions, with the source's short-circuit `&&`.
- Its lemmas state when the result is `true` and what changes when it is `false`. They also prove that symmetry is preserved.
- **`iw_ungraph::toDOT`** (module `WeightedUndirected`) writes each undirected edge of a symmetric graph exactly once.

**The automaton and helpers**

- The driver's globals (`g`, `gstate`, `gen`, `width`, `height`, `color_index_shift`) are the fields of class `FractalCA.Automaton`.
- `mypow2` is a loop whose 32-bit wrap-around is written out.
- `midpoint` uses C++ truncating division.
- The colour index is an 8-bit mask.
- The synchronous game-of-life rule is proved equal to a specification function on the old state.
- Shared modules:
  - `EdgeContainer` holds the edge map, its keys in ascending order and `find`.
  - `Adjacency` holds the adjacency vector and the order in which edge loops visit entries.
  - `Decimal` is the decimal numeral written by `num2str<int>`. Its reader `ReadInt` agrees with `str2num<int>` on numerals only: `ReadInt` rejects anything else, while `str2num` skips leading blanks, accepts `+`, stops at trailing characters and gives 0 when nothing can be read.
  - `Text` holds line counting and concatenation of lines.

**Edge visit order.** Every loop over an edge map visits the keys in ascending order. The source iterates an `unordered_map`, whose order is unspecified, so this model fixes one order. Following that, each serialiser's output is one definite string.

## Model

| member | source | states |
|---|---|---|
| `Directed.Digraph.constructor` | digraph.hpp:172-176 | `digraph(n)` has `n` vertices, each with an empty edge map (`EmptyProperties`: no edges, closed) |
| `Directed.Digraph.Copy` | digraph.hpp:178-185 | the copy has the same adjacency vector as the original |
| `Directed.Digraph.FromParent` | digraph.hpp:187-199 | the graph built from a parent array is `TreeAdj(parent)`, for entries no smaller than -1 |
| `Directed.TreeAdjEdges` | digraph.hpp:192-197 | `j` is a destination of `u` exactly when `parent[j] == u` is a vertex, and the weight is the default `T()` = 0 |
| `Directed.TreeAdjShape` | digraph.hpp:189-199 | one vertex per parent entry; the graph is closed; every vertex has at most one in-edge |
| `Directed.Digraph.Clear` | digraph.hpp:201-205 | `clear()` leaves no vertices |
| `Directed.Digraph.Resize` | digraph.hpp:207-215 | a smaller count returns 0 and changes nothing; otherwise returns 1 and appends empty maps, old maps unchanged |
| `Directed.GrowProperties` | digraph.hpp:213 | growing keeps the edge count and keeps the graph closed |
| `Directed.Digraph.NumEdges` | digraph.hpp:223-231 | the accumulator loop returns the sum of all map sizes |
| `Directed.Digraph.MinOutDegreeIndex` | digraph.hpp:233-248 | -1 exactly when no included vertex has out-degree below `numVerts()`; otherwise the included vertex of least out-degree, the first such one |
| `Directed.Digraph.FindEdge` | digraph.hpp:250-256 | found exactly when `dst` is a key of `adj(src)`, and then with its weight |
| `Directed.Digraph.AddEdge` | digraph.hpp:278-293 | returns true exactly when `dst` was not a key; the new adjacency is `Insert` |
| `Directed.InsertProperties` | digraph.hpp:292 | only `adj(src)` can change; an existing key is not overwritten; a new key holds `e`; the edge count grows by one exactly when the key was new |
| `Directed.Digraph.AddVertex` | digraph.hpp:295-316 | returns the old vertex count; the new last map is a copy of `adj(v)` |
| `Directed.Digraph.DelEdge` | digraph.hpp:318-324 | returns true exactly when `dst` was a key; the new adjacency is `Erase` |
| `Directed.EraseProperties` | digraph.hpp:323 | afterwards `dst` is not a key; only `adj(src)` changes; the edge count drops by one exactly when the key was there |
| `Directed.Digraph.DelEdgeAt` | digraph.hpp:326-331 | erasing through an iterator at `dst` is `Erase` |
| `Directed.Digraph.DelInEdges` | digraph.hpp:333-340 | the loop over `adj(src)` erases `w -> src` for each `w` there: the new adjacency is `EraseInEdges` |
| `Directed.EraseInEdgesProperties` | digraph.hpp:333-340 | every `w -> src` with `w` in `adj(src)` is gone; maps of vertices not in `adj(src)` are unchanged; every other edge survives with its weight; `adj(src)` is untouched |
| `Directed.EraseInEdgesKeepsUnlistedInEdge` | digraph.hpp:142 | on `[map[], map[0 := 0]]`, `delInEdges(0)` keeps the in-edge `1 -> 0`, since 1 is not a destination of 0 |
| `Directed.Digraph.DelOutEdges` | digraph.hpp:342-346 | only `adj(src)` changes, to the empty map |
| `Directed.Digraph.AppendGraph` | digraph.hpp:360-367 | the other graph's maps are appended verbatim, without remapping indices |
| `Directed.AppendProperties` | digraph.hpp:360-367 | edge counts add up; appending two closed graphs gives a closed graph |
| `Directed.MutatorsKeepClosed` | digraph.hpp:278-346 | insert (of a vertex destination), erase, clearing a map and erasing in-edges keep every destination a vertex |
| `EdgeContainer.Keys` | digraph.hpp:49-52 | the keys of an edge map, each once, in strictly ascending order |
| `EdgeContainer.KeysComplete` | digraph.hpp:49-52 | every key of the map is among the iterated keys |
| `EdgeContainer.Find` | digraph.hpp:61-62 | `find` succeeds exactly on keys, with the stored weight |
| `Adjacency.VertexEntries` | digraph.cpp:58-63 | the entries of one vertex's loop: as many as its map has, all from `v`, destinations ascending |
| `Adjacency.VertexEntriesComplete` | digraph.cpp:58-63 | every stored edge of `v` is visited by its loop |
| `Adjacency.EntriesMembership` | digraph.cpp:57-64 | an entry is visited by the nested loops exactly when it is a stored edge with its weight |
| `Adjacency.EntriesCount` | digraph.cpp:57-64 | the nested loops visit exactly `numEdges()` entries |
| `Adjacency.EntriesDistinct` | digraph.cpp:57-64 | no entry is visited twice |
| `Adjacency.EntriesBeforeOrdered` | digraph.cpp:57-64 | entries come in vertex order, then destination order |
| `Reach.ReachStep` | digraph.cpp:30-37 | one more edge from a reachable vertex reaches its destination |
| `Reach.ClosedMaskHoldsReachable` | digraph.cpp:30-37 | a vertex set closed under edges that holds `s` holds every vertex reachable from `s` |
| `Reach.SearchStart` | digraph.cpp:17-24 | the initial parent array, visited mask and one-element queue satisfy the search invariant |
| `Reach.SearchVisit` | digraph.cpp:33-37 | marking an unvisited destination, giving it a parent and enqueuing it keeps the search invariant |
| `Reach.DiscoverKeepsState` | digraph.cpp:30-38 | sweeping any destinations of the vertex being expanded keeps the search invariant |
| `Reach.DiscoverVisits` | digraph.cpp:30-38 | after the sweep every swept destination is visited; each push uses up one unvisited vertex |
| `Reach.SearchComplete` | digraph.cpp:25-39 | once the queue is empty the parent array is a BFS parent array: links follow edges, a vertex other than `src` has a parent exactly when it is reachable, every recorded parent is `src` or has a parent, and the levels the queue carried are breadth-first levels of the links; the enqueued vertices are `src` and those with a parent |
| `Reach.LevelsStart` | digraph.cpp:17-24 | the queue `[src]` with `src` at level 0 satisfies the level invariant |
| `Reach.LevelsAppend` | digraph.cpp:30-37 | enqueuing new vertices one level above the vertex being expanded keeps the queue sorted by level and spanning at most two adjacent levels, and keeps every link one level up |
| `Reach.LevelsExpanded` | digraph.cpp:29-38 | once all destinations of the front vertex are enqueued, its edges rise at most one level, and the next vertex to expand is no lower |
| `Reach.DiscoverShape` | digraph.cpp:30-38 | the sweep keeps the mark and parent of visited vertices; every pushed vertex was unvisited, is now visited and has the expanded vertex as parent; every newly marked vertex is pushed |
| `Search.ExpandVertexLevels` | digraph.cpp:29-38 | sweeping every destination of the front vertex moves the level invariant on by one vertex, the newly visited vertices one level above the front vertex |
| `Search.BfsFinish` | digraph.cpp:25-40 | with the queue worked off, the search and level invariants give everything `bfs` promises |
| `Search.SweepDestinations` | digraph.cpp:30-38 | the inner loop computes `Discover` over the destinations and pushes exactly the newly visited ones |
| `Search.ExpandVertex` | digraph.cpp:29-38 | sweeping every destination of the front vertex moves the search on by one expanded vertex |
| `Search.VisitNeighbours` | digraph.cpp:26-38 | one iteration of the outer loop keeps the search invariant with one more vertex expanded; the queue only grows at its end, by exactly as many vertices as became visited |
| `Search.Bfs` | digraph.cpp:14-40 | `parent` has one entry per vertex and -1 at `src`; a non-(-1) entry is a vertex with an edge to that index; a vertex other than `src` has a parent exactly when it is reachable; every recorded parent is itself reached and was enqueued before its child; the links have breadth-first levels (`IsBfsParent`); no vertex is enqueued twice |
| `Reach.ParentsLeadToSource` | digraph.cpp:30-37 | from `src` or any vertex with a parent, following parent links some number of times arrives at `src` |
| `Reach.ClimbLevels` | digraph.cpp:30-37 | from a reached vertex, following parent links as many times as its level arrives at `src` |
| `Reach.LevelAlongPath` | digraph.cpp:25-39 | along a walk from `src`, the `i`-th vertex is reached and its level is at most `i` |
| `Reach.TreePathsAreShortest` | digraph.cpp:25-39 | for any walk from `src` to `w`, following parent links from `w` reaches `src` in fewer steps than the walk has vertices: tree paths are shortest paths |
| `Reach.ParentsEarlierPush` | digraph.cpp:33-36 | recording the vertex being expanded as the parent of a newly pushed vertex keeps every parent ahead of its child in the queue order |
| `Search.UnreachedParentRejected` | digraph.cpp:30-37 | with edges `0 -> 1` and `2 -> 1`, the array `[-1, 2, -1]` is not a BFS parent array, since parent 2 is never reached |
| `Search.CyclicParentsRejected` | digraph.cpp:30-37 | with edges `0 -> 1`, `1 -> 2` and `2 -> 1`, the array `[-1, 2, 1]` is not a BFS parent array, since its links form a cycle |
| `Search.DepthFirstTreeRejected` | digraph.cpp:25-39 | with edges `0 -> 1`, `0 -> 2` and `1 -> 2`, the depth-first tree `[-1, 0, 1]` is not a BFS parent array, since 2 is one edge from `src` but two links deep |
| `Search.CycleExampleReach` | digraph.cpp:23-39 | on `0 -> 1 -> 2 -> 0` plus isolated 3, vertices 1 and 2 are reachable from 0 and 3 is not |
| `Search.BfsCycleExample` | digraph.cpp:14-40 | on that graph the search from 0 can only give `[-1, 0, 1, -1]` |
| `Decimal.NatToString` | strfuncs.hpp:11-17 | a non-empty string of digits, with no leading zero unless the number is 0 |
| `Decimal.IntToString` | strfuncs.hpp:11-17 | a non-empty numeral; digits, with a leading `-` exactly for negative numbers |
| `Decimal.NatToStringRoundTrip` | strfuncs.hpp:11-17 | reading back the digits gives the number |
| `Decimal.IntToStringRoundTrip` | strfuncs.hpp:35-41 | reading an integer numeral back gives the integer |
| `Decimal.IntToStringInjective` | strfuncs.hpp:11-17 | different integers have different numerals |
| `Export.AppendVertexLines` | digraph.cpp:58-63 | the inner edge loop appends one line per entry of `v`, in visit order |
| `Export.AppendEdgeLines` | digraph.cpp:57-64 | the nested loops append one line per stored edge, in visit order |
| `Export.ToXML` | digraph.cpp:42-70 | `toXML()` returns exactly `XmlText` |
| `Export.XmlPreambleLines` | digraph.cpp:45-49 | the XML declaration and `graphml` opening are five lines |
| `Export.XmlGraphOpenLines` | digraph.cpp:51 | the `graph` element opening is one line |
| `Export.XmlCloseLines` | digraph.cpp:66-67 | the closing tags are two lines |
| `Export.XmlNodeLineIsLine` | digraph.cpp:54 | a node line is one line |
| `Export.XmlEdgeLineIsLine` | digraph.cpp:61-62 | an edge line is one line |
| `Export.XmlLineCount` | digraph.cpp:42-70 | the document has 8 fixed lines, one per vertex and exactly `numEdges()` edge lines |
| `Export.XmlListsEveryNode` | digraph.cpp:53-55 | every vertex has its node line in the document |
| `Export.XmlListsEveryEdge` | digraph.cpp:57-64 | every stored edge has its edge line in the document |
| `Export.ToDIMACS` | digraph.cpp:72-94 | `toDIMACS(s, t)` returns exactly `DimacsText`, whose problem line carries `numVerts()` and `numEdges()` |
| `Export.DimacsHeaderLines` | digraph.cpp:76-80 | the comment, problem, source and sink lines are four lines |
| `Export.DimacsArcLineIsLine` | digraph.cpp:88-89 | an arc line is one line |
| `Export.DimacsLineCount` | digraph.cpp:72-94 | the text has four header lines and one arc line per stored edge |
| `Export.DimacsListsEveryArc` | digraph.cpp:82-91 | every stored edge has its 1-based arc line, with its weight, in the text |
| `Export.AppendRow` | digraph.cpp:105-117 | one row: its separator, then `[`, then every column looked up with `findEdge` (-1 where absent), then `]` |
| `Export.ToAdjMat` | digraph.cpp:96-121 | `toAdjMat()` returns exactly `AdjMatText` |
| `Export.AdjMatEmpty` | digraph.cpp:101-102 | the matrix text is empty exactly when there are no vertices |
| `Export.RowLines` | digraph.cpp:106 | every row but the first starts a new line |
| `Export.AdjMatLineCount` | digraph.cpp:104-118 | with `n >= 1` vertices the matrix has `n` lines |
| `Export.MatrixDeterminesGraph` | digraph.cpp:107-115 | two closed graphs with no -1 weights and the same matrix cells are equal |
| `Undirected.SymmetricAt` | ungraph.hpp:7-12 | an edge of a symmetric graph has its reverse, with the same weight |
| `Undirected.Ungraph.constructor` | ungraph.hpp:42-46 | `ungraph(n)` is `n` vertices without edges, so the graph starts symmetric |
| `Undirected.Ungraph.AddEdge` | ungraph.hpp:48-56 | result and new adjacency are `UndirectedAdd`, and symmetry is preserved |
| `Undirected.AddProperties` | ungraph.hpp:48-56 | true exactly when both inserts succeed; on a symmetric graph a false result with distinct ends changes nothing; a true result adds both directions with weight `e` |
| `Undirected.AddPartialFailure` | ungraph.hpp:54-55 | when the forward insert succeeds and the reverse fails (e.g. a self-loop), the forward edge stays and the result is false |
| `Undirected.AddKeepsSymmetric` | ungraph.hpp:48-56 | `addEdge` keeps a symmetric graph symmetric |
| `Undirected.Ungraph.DelEdge` | ungraph.hpp:58-63 | result and new adjacency are `UndirectedDel`, and symmetry is preserved |
| `Undirected.DelProperties` | ungraph.hpp:58-63 | true exactly when both erases succeed; an absent forward edge changes nothing; on a symmetric graph with distinct ends both go or neither |
| `Undirected.AddCountsTwo` | ungraph.hpp:48-56 | a successful `addEdge` raises the edge count by exactly 2; on a symmetric graph a failed one with distinct ends leaves it unchanged |
| `Undirected.DelCountsTwo` | ungraph.hpp:58-63 | a successful `delEdge` lowers the edge count by exactly 2 |
| `Undirected.SymmetricEraseInEdgesComplete` | digraph.hpp:333-340 | on a symmetric graph, the loop of `delInEdges(src)` removes every edge into `src` |
| `Undirected.DelKeepsSymmetric` | ungraph.hpp:58-72 | both deletions keep a symmetric graph symmetric |
| `Undirected.Ungraph.DelEdgeAt` | ungraph.hpp:65-72 | the reverse edge is erased first, then the forward edge |
| `Undirected.Ungraph.DelAllEdges` | ungraph.hpp:74-79 | the new adjacency is `IsolateVertex`, and symmetry is preserved |
| `Undirected.IsolateProperties` | ungraph.hpp:74-79 | `adj(src)` ends empty; on a symmetric graph without a self-loop at `src` no edge into `src` remains, other edges survive, and symmetry holds |
| `Undirected.Ungraph.CalcNodeDegreeStats` | ungraph.hpp:87-105 | the total is `numEdges()`; every out-degree lies between min and max; both are attained, or keep their initial `numVerts()` / 0; on a closed graph with a vertex the minimum is attained and is at most the maximum |
| `Undirected.DegreeBound` | ungraph.hpp:95-102 | in a closed graph no out-degree exceeds the vertex count |
| `WeightedUndirected.Upper` | iw_ungraph.cpp:31 | keeps exactly the entries with destination above source |
| `WeightedUndirected.UpperOrdered` | iw_ungraph.cpp:26-36 | the kept entries stay in visit order |
| `WeightedUndirected.IwUngraph.constructor` | iw_ungraph.hpp:15-18 | `iw_ungraph(n)` is `n` vertices without edges, so the graph starts symmetric |
| `WeightedUndirected.IwUngraph.AppendDotLines` | iw_ungraph.cpp:27-35 | one vertex's loop appends a DOT line for each entry with `w > v`, in key order |
| `WeightedUndirected.IwUngraph.ToDOT` | iw_ungraph.cpp:11-40 | `toDOT(label)` returns exactly `DotText`, whatever `label` is |
| `WeightedUndirected.DotLineIsLine` | iw_ungraph.cpp:32-33 | an edge statement is one line |
| `WeightedUndirected.DotFixedLines` | iw_ungraph.cpp:16-37 | the header is two lines, the footer one |
| `WeightedUndirected.DotLineCount` | iw_ungraph.cpp:11-40 | the document has three fixed lines and one per listed edge |
| `WeightedUndirected.DotEdgesMembership` | iw_ungraph.cpp:26-36 | an edge is listed exactly when it is stored, with its weight, from the lower to the higher vertex; self-loops never |
| `WeightedUndirected.DotPairsDistinct` | iw_ungraph.cpp:26-36 | no two listed edges join the same two vertices, in either direction |
| `WeightedUndirected.DotListsEveryPair` | iw_ungraph.cpp:26-35 | on a symmetric graph every pair of distinct adjacent vertices is listed, lower vertex first |
| `WeightedUndirected.DotAgreesWithMatrix` | iw_ungraph.cpp:26-36 | on a symmetric graph with no -1 weights, for `v < w` the matrix cell of `toAdjMat` is -1 exactly when no DOT line joins `v` and `w` |
| `FractalCA.Wrap32` | main.cpp:160 | the 32-bit value of an exact result: in range, congruent modulo 2^32, unchanged when in range |
| `FractalCA.WrapDouble` | main.cpp:160 | doubling the wrapped value wraps to the same as doubling the exact one |
| `FractalCA.MyPow2` | main.cpp:156-164 | the loop returns 2^k wrapped to 32 bits (1 for `k <= 0`) |
| `FractalCA.MyPow2Exact` | main.cpp:156-164 | exact for `k <= 30`; `k == 31` gives -2^31 |
| `FractalCA.MyPow2Wraps` | main.cpp:156-164 | for `k >= 32` the result is 0 |
| `FractalCA.LauncherAccepts` | main.cpp:461-464 | the level check as written: levels 1 to 10 are accepted; what that admits is stated by `AcceptedLevelCollapses` and `AcceptedLevelOverflows` |
| `FractalCA.GridWidth` | main.cpp:466 | `mypow2(level * 4) + 1`, with the 32-bit wrap of `mypow2`; its values are stated by `SafeLevelFits`, `AcceptedLevelOverflows` and `AcceptedLevelCollapses` |
| `FractalCA.AcceptedLevelCollapses` | main.cpp:460-466 | the accepted level 8 gives a grid of width 1 |
| `FractalCA.AcceptedLevelOverflows` | main.cpp:460-473 | at the accepted level 4 the width is 65537 and `width * height` is beyond a 32-bit `int` |
| `FractalCA.SafeLevelFits` | main.cpp:466-475 | at levels 1 to 3 the width is exactly 2^(4 level) + 1 and `width * height` fits an `int` |
| `FractalCA.Automaton.constructor` | main.cpp:466-477 | width = height = 2^(4 level) + 1; an edgeless graph of `width * height` cells, all dead, generation 0; the shift table has `2 * (width + 1) + 1` slots, the eight neighbour slots hold their clockwise shifts and every other slot is 0 |
| `FractalCA.Midpoint` | main.cpp:166-170 | `midpoint(a, b)` with C++ truncating `/` and `%`; its meaning is stated by `MidpointCell`, `MidpointSymmetric` and `MidpointInGrid` |
| `FractalCA.CellOf` | main.cpp:168-169 | for non-negative cells C++ `/` and `%` are row and column |
| `FractalCA.MidpointCell` | main.cpp:166-170 | the midpoint's row is the mean of the rows and its column the mean of the columns (rounded down) |
| `FractalCA.MidpointSymmetric` | main.cpp:166-170 | the midpoint does not depend on argument order; a cell is its own midpoint |
| `FractalCA.MidpointInGrid` | main.cpp:166-170 | the midpoint of two grid cells is a grid cell |
| `FractalCA.Automaton.InitColorIndexShift` | main.cpp:35-80 | the table has `2 (width + 1) + 1` slots; the eight neighbour slots hold their shifts, the last write winning; kept slots keep their value and new ones are 0; nothing else changes |
| `FractalCA.ClockwiseShifts` | main.cpp:43-79 | for width at least 3 the eight neighbour directions get shifts 7 to 0 clockwise from the right neighbour, all distinct |
| `FractalCA.BitOfOr` | main.cpp:110 | OR-ing `1 << t` sets bit `t` and keeps the others |
| `FractalCA.ColorMaskBits` | main.cpp:102-111 | after `count` neighbours, bit `s` is set exactly when one of them has shift `s` |
| `FractalCA.OrShifts` | main.cpp:102-111 | the loop computes the OR of `1 << shift` over the neighbours |
| `FractalCA.ColorMaskKeys` | main.cpp:102-111 | over all neighbours, bit `s` is set exactly when some neighbour's slot holds shift `s` |
| `FractalCA.Automaton.GetMycolorIndex` | main.cpp:82-115 | the 8-bit index has bit `s` set exactly when some neighbour of `k` has shift `s` in its slot |
| `FractalCA.CountLiveDistinct` | main.cpp:264-268 | summing the states over distinct neighbours counts the live neighbours |
| `FractalCA.CountLiveKeys` | main.cpp:264-268 | the counting loop's total is the number of live neighbours |
| `FractalCA.Automaton.NextStateRule` | main.cpp:259-283 | the result is `NextState`: live with 1 or 2 live neighbours, or dead with exactly 2 |
| `FractalCA.NextStateLocal` | main.cpp:259-283 | the rule depends only on the cell and its neighbours |
| `FractalCA.LiveNeighboursBound` | main.cpp:264-282 | live neighbours are at most the degree; a dead cell of degree below 2 stays dead; a cell with no live neighbour is dead next |
| `FractalCA.Automaton.ApplyRuleToAllCells` | main.cpp:285-299 | `gen` grows by one; the new state is `NextGeneration` of the old: synchronous, `width * height` long; nothing else changes |
| `FractalCA.NextGenerationProperties` | main.cpp:290-296 | the new state has `width * height` cells; cells without neighbours, or beyond the graph, are dead; an all-dead grid stays dead |

## Left out

- OpenGL/GLUT rendering and the event loop are not part of this model. This covers `set_mycolor`, reshape, the mouse and keyboard handlers and the timer. They are I/O.
- The argument parsing of `main` is left out, except the level check and the grid set-up. Those appear as `LauncherAccepts` and `Automaton.constructor`.
- `init_mycolors` is left out: it is floating-point colour shading.
- `build_sierpinski_graph` and `tri_connect` are left out. They are a generator that only calls `addEdge`. The version in main.cpp recurses without any guard on its seven last calls, so it has no terminating model.
- main_orig.cpp is not part of this model. It is an earlier copy of the driver.
- Directed.Digraph.MinOutDegreeIndex: the source's `m` is `unsigned`. It is modelled as a natural number, which is exact because sizes are never negative.
- Undirected.Ungraph.CalcNodeDegreeStats: `avg_degree` is floating point, and it divides by zero on an empty graph. The method returns the integer total instead.
- Directed.Digraph.NumEdges: the count is unbounded here. In the source the accumulator `m` is an `int` that could overflow on graphs with more than 2^31 - 1 edges.
- Undirected.Ungraph.CalcNodeDegreeStats: the total is unbounded here. In the source, `total_degrees` is an `int` that could overflow on graphs with more than 2^31 edges.
- The hash-table layout is left out: `bucket_count`, `rehash`, `reserve`, `load_factor`, `getNumBuckets`, `setNumBuckets` and the `HASH_STATS` destructor output. It affects storage, not contents.
- Hash iteration order is replaced by ascending key order throughout.
- `getEdge` and `delDeg12Nodes` are declared but never defined, so they are not modelled. Neither are `digraph::toDOT` and `ungraph::toDOT` (only `iw_ungraph::toDOT` has a body).
- Undirected.Ungraph: the source hides the mutable `operator[]` by making it protected. Dafny has no access control here. `Ungraph` exposes only the undirected mutators, but nothing stops other code from calling the directed ones on its `g`.
- Debug checks and undefined behaviour become preconditions. This covers `AT()` bounds checks and the `_DEBUG` throw in `addEdge`. Examples:
  - `src` must be a vertex;
  - `dst < numVerts()` for `addEdge`;
  - no self-loop for `delInEdges`, since the erase would invalidate the loop's iterator;
  - `Closed` for `bfs`, since `visited.AT(w)` needs every destination to be a vertex.
- Directed.Digraph.constructor: a negative vertex count, which makes `std::vector` throw, is excluded by the `nat` type.
- Directed.Digraph.FromParent: parent entries below -1 are excluded, since they index out of range.
- The `debug` tracing output of `get_mycolor_index` and `next_state_rule` is left out.
- The printing every hundred generations in `apply_rule_to_all_cells` is left out.
- FractalCA.Automaton.ApplyRuleToAllCells: `gen` is a `long` in the source; it is unbounded here. The source increments it before the loop; the model increments it afterwards. Nothing in between reads it once printing is left out.
- `FractalCA.MyPow2`: signed overflow is undefined behaviour in C++. The model takes the usual two's-complement wrap-around.
- `FractalCA.Automaton.GetMycolorIndex` returns an 8-bit value where the source returns an `int`. Shifts are below 8, so only bits 0 to 7 can ever be set, and the two agree.

## Findings

| source | as written | input that shows it | evidently intended | confidence | as-written member | corrected member |
|---|---|---|---|---|---|---|
| digraph.hpp:142 | `delInEdges(src)` is documented to delete all in-edges of `src`, but its loop (digraph.hpp:336-339) only erases `w -> src` for the destinations `w` of `src` | on `[map[], map[0 := 0]]`, `delInEdges(0)` keeps `1 -> 0` | every in-edge of `src` is removed; this holds whenever the graph is symmetric, which is how `ungraph::delAllEdges` uses it | not executed | `Directed.EraseInEdgesKeepsUnlistedInEdge` | `Undirected.SymmetricEraseInEdgesComplete` |
| main.cpp:461-473 | the launcher accepts every level `k` from 1 to 10, then sets `width = mypow2(k * 4) + 1` and allocates `width * height` cells in 32-bit `int` | `k = 4`: width 65537, and `width * height` overflows `int`. `k = 8`: `mypow2(32)` wraps to 0, so the grid is 1 cell wide | accept only the levels whose grid fits an `int`, which are levels 1 to 3 (widths 17, 257, 4097) | not executed | `FractalCA.LauncherAccepts`, `FractalCA.AcceptedLevelCollapses`, `FractalCA.AcceptedLevelOverflows` | `FractalCA.SafeLevel`, `FractalCA.SafeLevelFits`, `FractalCA.Automaton.constructor` |
