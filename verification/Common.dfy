/** Shared vocabulary: an optional value, used for nullable columns and for "not found", and sequences
    read as sets. */
module Common {
  datatype Option<+T> = None | Some(value: T)

  function Max(a: int, b: int): int {
    if a < b then b else a
  }

  /** `Math.ceil(a / b)` */
  function CeilDiv(a: int, b: int): int
    requires b > 0
  {
    -(-a / b)
  }

  predicate Distinct<T(==)>(s: seq<T>) {
    forall i, j :: 0 <= i < j < |s| ==> s[i] != s[j]
  }

  function Elems<T>(s: seq<T>): set<T> {
    set x | x in s
  }

  lemma ElemsOfConcat<T>(s: seq<T>, x: T)
    ensures Elems(s + [x]) == Elems(s) + {x}
  {}

  /** A query answer listing exactly the rows that satisfy a condition, each once, in any order. */
  ghost predicate Lists<T>(order: seq<T>, ids: set<T>) {
    (forall i :: 0 <= i < |order| ==> order[i] in ids)
    && (forall id :: id in ids ==> id in order)
    && Distinct(order)
  }

  /** A duplicate-free list has as many entries as elements. */
  lemma {:induction false} DistinctSize<T>(s: seq<T>)
    requires Distinct(s)
    ensures |Elems(s)| == |s|
  {
    if s != [] {
      var n := |s| - 1;
      DistinctSize(s[..n]);
      assert s == s[..n] + [s[n]];
      ElemsOfConcat(s[..n], s[n]);
    }
  }

  lemma ListSize<T>(order: seq<T>, ids: set<T>)
    requires Lists(order, ids)
    ensures |order| == |ids|
  {
    DistinctSize(order);
    assert Elems(order) == ids by {
      assert forall x :: x in order ==> exists i :: 0 <= i < |order| && order[i] == x;
    }
  }

  lemma SubsetSize<T>(a: set<T>, b: set<T>)
    requires a <= b
    ensures |a| <= |b| && (|a| == |b| ==> a == b)
  {
    assert b == a + (b - a);
  }
}
