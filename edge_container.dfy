/** `edgeContainer<T>`: the outgoing edges of one vertex, a map from
    destination index to edge weight (`std::unordered_map<int, T>` with
    `T = int`). Hash-table layout is not modelled; wherever the source
    walks the map, the model visits keys in ascending order. */
module EdgeContainer {
  import opened Wrappers

  type EdgeMap = map<int, int>

  lemma Element(s: set<int>) returns (x: int)
    requires |s| > 0
    ensures x in s
  {
    if forall y :: y !in s {
      assert false;
    }
    x :| x in s;
  }

  /** Every non-empty finite set of integers has a least element. */
  lemma {:induction false} LeastWitness(s: set<int>) returns (m: int)
    requires |s| > 0
    ensures m in s && forall j :: j in s ==> m <= j
    decreases |s|
  {
    var x := Element(s);
    var rest := s - {x};
    if |rest| == 0 {
      m := x;
      forall j | j in s ensures m <= j {
        assert j !in rest;
      }
    } else {
      var k := LeastWitness(rest);
      m := if x < k then x else k;
      forall j | j in s ensures m <= j {
        if j != x {
          assert j in rest;
        }
      }
    }
  }

  lemma LeastExists(s: set<int>)
    requires |s| > 0
    ensures exists m :: m in s && forall j :: j in s ==> m <= j
  {
    var m := LeastWitness(s);
  }

  /** The smallest element of a non-empty set of indices. */
  function Least(s: set<int>): (k: int)
    requires |s| > 0
    ensures k in s && forall j :: j in s ==> k <= j
  {
    LeastExists(s);
    var k :| k in s && forall j :: j in s ==> k <= j; k
  }

  /** The elements of `s` in strictly ascending order. */
  function Ascending(s: set<int>): (r: seq<int>)
    ensures |r| == |s|
    ensures forall i :: 0 <= i < |r| ==> r[i] in s
    ensures forall i, j :: 0 <= i < j < |r| ==> r[i] < r[j]
    decreases |s|
  {
    if |s| == 0 then []
    else
      var k := Least(s);
      [k] + Ascending(s - {k})
  }

  /** Every element of `s` is listed. */
  lemma {:induction false} AscendingComplete(s: set<int>, x: int)
    requires x in s
    ensures x in Ascending(s)
    decreases |s|
  {
    var k := Least(s);
    if x != k {
      AscendingComplete(s - {k}, x);
    }
  }

  /** The destinations of `m`, in the order every edge loop of the model visits them. */
  function Keys(m: EdgeMap): (r: seq<int>)
    ensures |r| == |m|
    ensures forall i :: 0 <= i < |r| ==> r[i] in m
    ensures forall i, j :: 0 <= i < j < |r| ==> r[i] < r[j]
  {
    Ascending(m.Keys)
  }

  lemma KeysComplete(m: EdgeMap, x: int)
    requires x in m
    ensures x in Keys(m)
  {
    AscendingComplete(m.Keys, x);
  }

  /** `edgeContainer::find`: the weight stored for `key`, or `None` where the
      source returns `end()`. */
  function Find(m: EdgeMap, key: int): (r: Option<int>)
    ensures r.Some? <==> key in m
    ensures r.Some? ==> r.value == m[key]
  {
    if key in m then Some(m[key]) else None
  }
}
