/** Board cells, their drawing order, and the sentinel-terminated lists the game keeps them in. */
module Cells {
  import opened Lists

  /** The x value that ends a cell list. */
  const FIN := 999

  /** A cell: x is the row (growing downwards), y is the column. */
  datatype Coord = Coord(x: int, y: int)

  /** Row first, then column. */
  predicate Before(a: Coord, b: Coord) {
    a.x < b.x || (a.x == b.x && a.y < b.y)
  }

  predicate NotAfter(a: Coord, b: Coord) {
    a == b || Before(a, b)
  }

  predicate Sorted(s: seq<Coord>) {
    forall i, j :: 0 <= i < j < |s| ==> NotAfter(s[i], s[j])
  }

  predicate StrictlySorted(s: seq<Coord>) {
    forall i, j :: 0 <= i < j < |s| ==> Before(s[i], s[j])
  }

  predicate NoFin(s: seq<Coord>) {
    forall i :: 0 <= i < |s| ==> s[i].x != FIN
  }

  /** Array a holds exactly the cells s, followed by the end mark. */
  predicate Holds(a: array<Coord>, s: seq<Coord>)
    reads a
  {
    |s| < a.Length && a[..|s|] == s && a[|s|].x == FIN && NoFin(s)
  }

  lemma HoldsAt(a: array<Coord>, s: seq<Coord>, i: nat)
    requires Holds(a, s) && i <= |s|
    ensures i < |s| ==> a[i] == s[i]
    ensures a[i].x == FIN <==> i == |s|
  {
    if i < |s| { assert a[..|s|][i] == s[i]; }
  }

  function Insert(c: Coord, s: seq<Coord>): (r: seq<Coord>)
    ensures |r| == |s| + 1
  {
    if s == [] then [c]
    else if NotAfter(c, s[0]) then [c] + s
    else [s[0]] + Insert(c, s[1..])
  }

  /** The sorted arrangement of s; the reference for the in-place sort. */
  function SortCells(s: seq<Coord>): (r: seq<Coord>)
    ensures |r| == |s|
  {
    if s == [] then [] else Insert(s[0], SortCells(s[1..]))
  }

  lemma {:induction false} InsertMultiset(c: Coord, s: seq<Coord>)
    ensures multiset(Insert(c, s)) == multiset(s) + multiset{c}
  {
    if s != [] {
      InsertMultiset(c, s[1..]);
      assert s == [s[0]] + s[1..];
    }
  }

  /** Sorting keeps every cell, with its multiplicity. */
  lemma {:induction false} SortCellsMultiset(s: seq<Coord>)
    ensures multiset(SortCells(s)) == multiset(s)
  {
    if s != [] {
      SortCellsMultiset(s[1..]);
      InsertMultiset(s[0], SortCells(s[1..]));
      assert s == [s[0]] + s[1..];
    }
  }

  lemma {:induction false} InsertBounds(c: Coord, s: seq<Coord>, lo: Coord)
    requires NotAfter(lo, c) && forall i :: 0 <= i < |s| ==> NotAfter(lo, s[i])
    ensures forall i :: 0 <= i < |s| + 1 ==> NotAfter(lo, Insert(c, s)[i])
  {
    if s != [] && !NotAfter(c, s[0]) {
      InsertBounds(c, s[1..], lo);
    }
  }

  lemma {:induction false} InsertKeepsSorted(c: Coord, s: seq<Coord>)
    requires Sorted(s)
    ensures Sorted(Insert(c, s))
  {
    if s != [] && !NotAfter(c, s[0]) {
      InsertKeepsSorted(c, s[1..]);
      InsertBounds(c, s[1..], s[0]);
    }
  }

  lemma {:induction false} SortCellsSorted(s: seq<Coord>)
    ensures Sorted(SortCells(s))
  {
    if s != [] {
      SortCellsSorted(s[1..]);
      InsertKeepsSorted(s[0], SortCells(s[1..]));
    }
  }

  lemma SortedHead(a: seq<Coord>, b: seq<Coord>)
    requires Sorted(a) && Sorted(b) && multiset(a) == multiset(b)
    requires a != [] && b != []
    ensures a[0] == b[0]
  {
    assert a[0] in multiset(b) && b[0] in multiset(a);
    var i :| 0 <= i < |b| && b[i] == a[0];
    var j :| 0 <= j < |a| && a[j] == b[0];
    assert NotAfter(b[0], b[i]) && NotAfter(a[0], a[j]);
  }

  lemma DropHead(s: seq<Coord>)
    requires s != []
    ensures multiset(s[1..]) == multiset(s) - multiset{s[0]}
  {
    assert s == [s[0]] + s[1..];
  }

  /** A sorted arrangement is determined by the cells in it. */
  lemma {:induction false} SortedUnique(a: seq<Coord>, b: seq<Coord>)
    requires Sorted(a) && Sorted(b)
    requires multiset(a) == multiset(b)
    ensures a == b
  {
    assert |multiset(a)| == |a| && |multiset(b)| == |b|;
    if a != [] {
      SortedHead(a, b);
      DropHead(a);
      DropHead(b);
      SortedUnique(a[1..], b[1..]);
      assert a == [a[0]] + a[1..] && b == [b[0]] + b[1..];
    }
  }

  lemma SortCellsUnique(s: seq<Coord>, r: seq<Coord>)
    requires Sorted(r) && multiset(r) == multiset(s)
    ensures SortCells(s) == r
  {
    SortCellsSorted(s);
    SortCellsMultiset(s);
    SortedUnique(SortCells(s), r);
  }

  lemma SameElements(s: seq<Coord>, r: seq<Coord>)
    requires multiset(r) == multiset(s)
    ensures forall c :: c in r <==> c in s
  {
    forall c ensures c in r <==> c in s {
      assert c in r <==> c in multiset(r);
      assert c in s <==> c in multiset(s);
    }
  }

  lemma SortKeeps(s: seq<Coord>, c: Coord)
    ensures c in SortCells(s) <==> c in s
  {
    hide SortCells;
    SortCellsMultiset(s);
    assert c in SortCells(s) <==> c in multiset(SortCells(s));
    assert c in s <==> c in multiset(s);
  }

  lemma {:induction false} DistinctPermutation(s: seq<Coord>, r: seq<Coord>)
    requires Distinct(s) && multiset(r) == multiset(s)
    ensures Distinct(r)
  {
    forall i, j | 0 <= i < j < |r| ensures r[i] != r[j] {
      if r[i] == r[j] {
        assert r == r[..i] + [r[i]] + r[i+1..j] + [r[j]] + r[j+1..];
        assert multiset(r)[r[i]] >= 2;
        DistinctMultiplicity(s, r[i]);
      }
    }
  }

  lemma {:induction false} DistinctMultiplicity(s: seq<Coord>, c: Coord)
    requires Distinct(s)
    ensures multiset(s)[c] <= 1
  {
    if s != [] {
      assert s == [s[0]] + s[1..];
      DistinctMultiplicity(s[1..], c);
      if s[0] == c { assert c !in s[1..]; }
    }
  }

  // ---------------------------------------------------------------- exchanging neighbours

  function Swapped(s: seq<Coord>, i: nat): (r: seq<Coord>)
    requires i + 1 < |s|
  {
    s[i := s[i+1]][i+1 := s[i]]
  }

  /** How many cells of s come before c. */
  function CountBefore(c: Coord, s: seq<Coord>): nat {
    if s == [] then 0 else (if Before(s[0], c) then 1 else 0) + CountBefore(c, s[1..])
  }

  /** The number of pairs that stand in the wrong order. */
  function Inversions(s: seq<Coord>): nat {
    if s == [] then 0 else CountBefore(s[0], s[1..]) + Inversions(s[1..])
  }

  lemma InsertCommutes(a: Coord, b: Coord, s: seq<Coord>)
    requires Sorted(s)
    ensures Insert(a, Insert(b, s)) == Insert(b, Insert(a, s))
  {
    InsertKeepsSorted(b, s);
    InsertKeepsSorted(a, Insert(b, s));
    InsertKeepsSorted(a, s);
    InsertKeepsSorted(b, Insert(a, s));
    InsertMultiset(b, s);
    InsertMultiset(a, Insert(b, s));
    InsertMultiset(a, s);
    InsertMultiset(b, Insert(a, s));
    SortedUnique(Insert(a, Insert(b, s)), Insert(b, Insert(a, s)));
  }

  lemma {:induction false} CountBeforeSwapped(c: Coord, s: seq<Coord>, i: nat)
    requires i + 1 < |s|
    ensures CountBefore(c, Swapped(s, i)) == CountBefore(c, s)
  {
    var r := Swapped(s, i);
    if i == 0 {
      assert r[1..][1..] == s[1..][1..];
    } else {
      assert r[1..] == Swapped(s[1..], i - 1);
      CountBeforeSwapped(c, s[1..], i - 1);
    }
  }

  /** Exchanging two neighbours that are out of order removes exactly one inversion and keeps the sorted outcome. */
  lemma {:induction false} SwapRemovesOneInversion(s: seq<Coord>, i: nat)
    requires i + 1 < |s| && Before(s[i+1], s[i])
    ensures Inversions(Swapped(s, i)) == Inversions(s) - 1
    ensures SortCells(Swapped(s, i)) == SortCells(s)
  {
    var r := Swapped(s, i);
    if i == 0 {
      assert r[1..][1..] == s[1..][1..];
      SortCellsSorted(s[1..][1..]);
      InsertCommutes(s[0], s[1], SortCells(s[1..][1..]));
    } else {
      assert r[1..] == Swapped(s[1..], i - 1);
      CountBeforeSwapped(s[0], s[1..], i - 1);
      SwapRemovesOneInversion(s[1..], i - 1);
    }
  }

  lemma {:induction false} NeighboursSorted(s: seq<Coord>)
    requires forall i :: 0 <= i < |s| - 1 ==> NotAfter(s[i], s[i+1])
    ensures Sorted(s)
  {
    if |s| > 1 {
      forall i | 0 <= i < |s[1..]| - 1 ensures NotAfter(s[1..][i], s[1..][i+1]) {
        assert s[1..][i] == s[i+1] && s[1..][i+1] == s[i+2];
      }
      NeighboursSorted(s[1..]);
      forall i, j | 0 <= i < j < |s| ensures NotAfter(s[i], s[j]) {
        if i == 0 {
          assert j == 1 || NotAfter(s[1..][0], s[1..][j-1]);
        } else {
          assert NotAfter(s[1..][i-1], s[1..][j-1]);
        }
      }
    }
  }
}
