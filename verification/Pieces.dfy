/** The tetris pieces: their table, their quarter turns, and where a turned piece lands on the board. */
module Pieces {
  import opened Cells
  import opened Lists

  const PITWIDTH := 12
  const PITDEPTH := 24
  const NSHAPES := 7
  const NBLOCKS := 5

  /** A piece in its bounding box: rows 0..dx, columns 0..dy; p ends with the end mark. */
  datatype Shape = Shape(dx: int, dy: int, p: seq<Coord>)

  const END := Coord(FIN, FIN)

  const SHAPES: seq<Shape> := [
    Shape(0, 3, [Coord(0, 0), Coord(0, 1), Coord(0, 2), Coord(0, 3), END]),
    Shape(1, 2, [Coord(0, 0), Coord(1, 0), Coord(1, 1), Coord(1, 2), END]),
    Shape(1, 2, [Coord(0, 1), Coord(1, 0), Coord(1, 1), Coord(1, 2), END]),
    Shape(1, 2, [Coord(0, 2), Coord(1, 0), Coord(1, 1), Coord(1, 2), END]),
    Shape(1, 2, [Coord(0, 0), Coord(0, 1), Coord(1, 1), Coord(1, 2), END]),
    Shape(1, 2, [Coord(0, 1), Coord(0, 2), Coord(1, 0), Coord(1, 1), END]),
    Shape(1, 1, [Coord(0, 0), Coord(0, 1), Coord(1, 0), Coord(1, 1), END])
  ]

  predicate InBox(dx: int, dy: int, p: Coord) {
    0 <= p.x <= dx && 0 <= p.y <= dy
  }

  /** A non-empty list of cells inside the box, ended by the mark, in a box narrower than the pit. */
  predicate WellFormed(t: Shape) {
    && |t.p| >= 2 && t.p[|t.p| - 1].x == FIN
    && 0 <= t.dx < PITWIDTH && 0 <= t.dy < PITWIDTH
    && forall i :: 0 <= i < |t.p| - 1 ==> InBox(t.dx, t.dy, t.p[i])
  }

  function Blocks(t: Shape): (s: seq<Coord>)
    requires t.p != []
  {
    t.p[..|t.p| - 1]
  }

  /** The piece touches all four sides of its box. */
  predicate Spans(t: Shape)
    requires t.p != []
  {
    && (exists p :: p in Blocks(t) && p.x == 0) && (exists p :: p in Blocks(t) && p.x == t.dx)
    && (exists p :: p in Blocks(t) && p.y == 0) && (exists p :: p in Blocks(t) && p.y == t.dy)
  }

  lemma ShapeTable(i: nat)
    requires i < NSHAPES
    ensures |SHAPES| == NSHAPES
    ensures WellFormed(SHAPES[i]) && |SHAPES[i].p| == NBLOCKS && Distinct(Blocks(SHAPES[i]))
    ensures SHAPES[i].dx <= 1 && SHAPES[i].dy <= 3
  {
  }

  lemma ShapeSpans(i: nat)
    requires i < NSHAPES
    ensures SHAPES[i].p != [] && Spans(SHAPES[i])
  {
    var b := Blocks(SHAPES[i]);
    assert b[0] in b && b[1] in b && b[2] in b && b[3] in b;
  }

  predicate Adjacent(p: Coord, q: Coord) {
    (p.x == q.x && (p.y == q.y + 1 || q.y == p.y + 1)) || (p.y == q.y && (p.x == q.x + 1 || q.x == p.x + 1))
  }

  /** Pairs of blocks that share an edge, enough to join all four. */
  function Edges(i: nat): (r: seq<(nat, nat)>)
    ensures |r| == 3 && forall n :: 0 <= n < 3 ==> r[n].0 < 4 && r[n].1 < 4
  {
    if i == 2 then [(0, 2), (1, 2), (2, 3)]
    else if i == 3 then [(0, 3), (1, 2), (2, 3)]
    else if i == 5 then [(0, 1), (2, 3), (0, 3)]
    else if i == 6 then [(0, 1), (0, 2), (1, 3)]
    else [(0, 1), (1, 2), (2, 3)]
  }

  lemma EdgesTouch(i: nat, n: nat)
    requires i < NSHAPES && n < 3
    ensures |SHAPES[i].p| == NBLOCKS && Adjacent(SHAPES[i].p[Edges(i)[n].0], SHAPES[i].p[Edges(i)[n].1])
  {
  }

  /** If some of the four blocks are in the part and some are not, one of the edges leads out of it. */
  lemma EdgesJoin(i: nat, in_: seq<bool>) returns (n: nat)
    requires |in_| == 4 && !(in_[0] == in_[1] == in_[2] == in_[3])
    ensures n < 3 && in_[Edges(i)[n].0] != in_[Edges(i)[n].1]
  {
    n := if in_[Edges(i)[0].0] != in_[Edges(i)[0].1] then 0
         else if in_[Edges(i)[1].0] != in_[Edges(i)[1].1] then 1
         else 2;
  }

  /** Every piece hangs together: any part of it shares an edge with the rest. */
  lemma ShapeConnected(i: nat, part: set<Coord>)
    requires i < NSHAPES && SHAPES[i].p != []
    requires exists p :: p in Blocks(SHAPES[i]) && p in part
    requires exists q :: q in Blocks(SHAPES[i]) && q !in part
    ensures exists p, q :: p in Blocks(SHAPES[i]) && q in Blocks(SHAPES[i]) && p in part && q !in part && Adjacent(p, q)
  {
    var b := Blocks(SHAPES[i]);
    ShapeTable(i);
    var n := EdgesJoin(i, [b[0] in part, b[1] in part, b[2] in part, b[3] in part]);
    EdgesTouch(i, n);
    var p, q := b[Edges(i)[n].0], b[Edges(i)[n].1];
    assert p in b && q in b && Adjacent(p, q) && Adjacent(q, p);
  }

  // ---------------------------------------------------------------- turning

  function RowExtent(t: Shape, a: int): int {
    if a % 2 == 1 then t.dy else t.dx
  }

  function ColExtent(t: Shape, a: int): int {
    if a % 2 == 1 then t.dx else t.dy
  }

  /** The cell p of t after turning by angle a, inside the turned box. */
  function Turned(t: Shape, a: int, p: Coord): Coord
    requires 0 <= a < 4
  {
    var xw, yw := RowExtent(t, a), ColExtent(t, a);
    if a == 0 then p
    else if a == 3 then Coord(xw - p.y, p.x)
    else if a == 2 then Coord(xw - p.x, yw - p.y)
    else Coord(p.y, yw - p.x)
  }

  /** One quarter turn of a box with rows 0..dx. */
  function QuarterTurn(dx: int, p: Coord): Coord {
    Coord(p.y, dx - p.x)
  }

  /** n quarter turns in a row; the box extents change places at every turn. */
  function QuarterTurns(n: nat, dx: int, dy: int, p: Coord): Coord
    decreases n
  {
    if n == 0 then p else QuarterTurns(n - 1, dy, dx, QuarterTurn(dx, p))
  }

  /** Four quarter turns are the identity. */
  lemma FourTurns(n: nat, dx: int, dy: int, p: Coord)
    ensures QuarterTurns(n + 4, dx, dy, p) == QuarterTurns(n, dx, dy, p)
  {
    var p1 := QuarterTurn(dx, p);
    var p2 := QuarterTurn(dy, p1);
    var p3 := QuarterTurn(dx, p2);
    calc {
      QuarterTurns(n + 4, dx, dy, p);
      QuarterTurns(n + 3, dy, dx, p1);
      QuarterTurns(n + 2, dx, dy, p2);
      QuarterTurns(n + 1, dy, dx, p3);
      QuarterTurns(n, dx, dy, QuarterTurn(dy, p3));
    }
  }

  /** The four orientation cases are repeated quarter turns, for any number of turns. */
  lemma {:induction false} OrientationIsQuarterTurns(t: Shape, n: nat, p: Coord)
    ensures QuarterTurns(n, t.dx, t.dy, p) == Turned(t, n % 4, p)
  {
    if n >= 4 {
      FourTurns(n - 4, t.dx, t.dy, p);
      OrientationIsQuarterTurns(t, n - 4, p);
    } else {
      var p1 := QuarterTurn(t.dx, p);
      assert n > 0 ==> QuarterTurns(n, t.dx, t.dy, p) == QuarterTurns(n - 1, t.dy, t.dx, p1);
      assert n > 1 ==> QuarterTurns(n - 1, t.dy, t.dx, p1) == QuarterTurns(n - 2, t.dx, t.dy, QuarterTurn(t.dy, p1));
    }
  }

  /** Each orientation case is a quarter turn of the one before it. */
  lemma TurnStep(t: Shape, a: int, p: Coord)
    requires 0 <= a < 4
    ensures Turned(t, (a + 1) % 4, p) == QuarterTurn(RowExtent(t, a), Turned(t, a, p))
  {
  }

  /** Undoes Turned. */
  function TurnedBack(t: Shape, a: int, q: Coord): Coord
    requires 0 <= a < 4
  {
    QuarterTurns((4 - a) % 4, RowExtent(t, a), ColExtent(t, a), q)
  }

  /** Each orientation is a bijection of the box onto the turned box. */
  lemma TurnedIsBijection(t: Shape, a: int, p: Coord)
    requires 0 <= a < 4
    ensures TurnedBack(t, a, Turned(t, a, p)) == p && Turned(t, a, TurnedBack(t, a, p)) == p
    ensures InBox(t.dx, t.dy, p) <==> InBox(RowExtent(t, a), ColExtent(t, a), Turned(t, a, p))
  {
    var back := Shape(RowExtent(t, a), ColExtent(t, a), t.p);
    OrientationIsQuarterTurns(back, (4 - a) % 4, Turned(t, a, p));
    OrientationIsQuarterTurns(back, (4 - a) % 4, p);
  }

  /** The cells of the turned box that t covers. */
  ghost function Covered(t: Shape, a: int): set<Coord>
    requires t.p != [] && 0 <= a < 4
  {
    set p | p in Blocks(t) :: Turned(t, a, p)
  }

  /** A piece that touches the sides of its box determines the box, also when turned. */
  lemma CoveredBox(t: Shape, a: int)
    requires WellFormed(t) && Spans(t) && 0 <= a < 4
    ensures forall q :: q in Covered(t, a) ==> InBox(RowExtent(t, a), ColExtent(t, a), q)
    ensures exists q :: q in Covered(t, a) && q.x == RowExtent(t, a)
    ensures exists q :: q in Covered(t, a) && q.y == ColExtent(t, a)
  {
    forall p | p in Blocks(t) ensures InBox(RowExtent(t, a), ColExtent(t, a), Turned(t, a, p)) {
      TurnedIsBijection(t, a, p);
    }
    var p :| p in Blocks(t) && Turned(t, a, p).x == RowExtent(t, a);
    assert Turned(t, a, p) in Covered(t, a);
    var r :| r in Blocks(t) && Turned(t, a, r).y == ColExtent(t, a);
    assert Turned(t, a, r) in Covered(t, a);
  }

  /** The pieces in a box of two rows and three columns, row by row. */
  const PICTURES: seq<string> := ["#..###", ".#.###", "..####", "##..##", ".####."]

  lemma Picture(i: nat, k: nat)
    requires 1 <= i <= 5 && k < 6
    ensures SHAPES[i].p != [] && |PICTURES[i - 1]| == 6
    ensures Coord(k / 3, k % 3) in Blocks(SHAPES[i]) <==> PICTURES[i - 1][k] == '#'
  {
    var b := Blocks(SHAPES[i]);
    assert b[0] in b && b[1] in b && b[2] in b && b[3] in b;
  }

  /** Half a turn reverses the picture. */
  lemma PictureCovered(i: nat, a: int, k: nat)
    requires 1 <= i <= 5 && (a == 0 || a == 2) && k < 6
    ensures SHAPES[i].p != [] && |PICTURES[i - 1]| == 6
    ensures Coord(k / 3, k % 3) in Covered(SHAPES[i], a) <==> PICTURES[i - 1][if a == 0 then k else 5 - k] == '#'
  {
    var t, q := SHAPES[i], Coord(k / 3, k % 3);
    var l := if a == 0 then k else 5 - k;
    Picture(i, l);
    hide PICTURES;
    assert Turned(t, a, Coord(l / 3, l % 3)) == q;
    if q in Covered(t, a) {
      var p :| p in Blocks(t) && Turned(t, a, p) == q;
      assert p == Coord(l / 3, l % 3);
    }
  }

  lemma PicturesDiffer(i: nat, j: nat, a: int) returns (k: nat)
    requires 1 <= i <= 5 && 1 <= j <= 5 && i != j && (a == 0 || a == 2)
    ensures k < 6 && |PICTURES[i - 1]| == |PICTURES[j - 1]| == 6
    ensures PICTURES[i - 1][if a == 0 then k else 5 - k] != PICTURES[j - 1][k]
  {
    var u, v := PICTURES[i - 1], PICTURES[j - 1];
    var b := if a == 0 then 0 else 5;
    k := if u[b] != v[0] then 0
         else if u[if a == 0 then 1 else 4] != v[1] then 1
         else if u[if a == 0 then 2 else 3] != v[2] then 2
         else if u[if a == 0 then 3 else 2] != v[3] then 3
         else if u[if a == 0 then 4 else 1] != v[4] then 4
         else 5;
  }

  lemma SameBoxDiffer(i: nat, j: nat, a: int)
    requires 1 <= i <= 5 && 1 <= j <= 5 && i != j && (a == 0 || a == 2)
    ensures SHAPES[i].p != [] && SHAPES[j].p != [] && Covered(SHAPES[i], a) != Covered(SHAPES[j], 0)
  {
    hide Covered;
    var k := PicturesDiffer(i, j, a);
    PictureCovered(i, a, k);
    PictureCovered(j, 0, k);
  }

  lemma SameBox(i: nat, j: nat, a: int)
    requires i < NSHAPES && j < NSHAPES && i != j && 0 <= a < 4
    requires RowExtent(SHAPES[i], a) == SHAPES[j].dx && ColExtent(SHAPES[i], a) == SHAPES[j].dy
    ensures 1 <= i <= 5 && 1 <= j <= 5 && (a == 0 || a == 2)
  {
  }

  lemma SameCover(s: Shape, t: Shape, a: int)
    requires WellFormed(s) && Spans(s) && WellFormed(t) && Spans(t) && 0 <= a < 4
    requires Covered(s, a) == Covered(t, 0)
    ensures RowExtent(s, a) == t.dx && ColExtent(s, a) == t.dy
  {
    hide WellFormed, Spans, Covered;
    CoveredBox(s, a);
    CoveredBox(t, 0);
  }

  /** No piece is a turned copy of another. */
  lemma PiecesDiffer(i: nat, j: nat, a: int)
    requires i < NSHAPES && j < NSHAPES && i != j && 0 <= a < 4
    ensures SHAPES[i].p != [] && SHAPES[j].p != [] && Covered(SHAPES[i], a) != Covered(SHAPES[j], 0)
  {
    ShapeTable(i);
    ShapeTable(j);
    ShapeSpans(i);
    ShapeSpans(j);
    hide WellFormed, Spans, Covered;
    if Covered(SHAPES[i], a) == Covered(SHAPES[j], 0) {
      SameCover(SHAPES[i], SHAPES[j], a);
      SameBox(i, j, a);
      SameBoxDiffer(i, j, a);
    }
  }

  // ---------------------------------------------------------------- placing

  /** The board cell of the turned box's upper left corner, for centre c. */
  function Origin(t: Shape, c: Coord, a: int): Coord
    requires WellFormed(t)
  {
    var xw, yw := RowExtent(t, a), ColExtent(t, a);
    var y0 := c.y - yw / 2;
    var y1 := if y0 < 0 then 0 else y0;
    var y2 := if y1 + yw >= PITWIDTH && c.y <= PITWIDTH then PITWIDTH - 1 - yw else y1;
    Coord(c.x - (xw + 1) / 2, y2)
  }

  function Add(a: Coord, b: Coord): Coord {
    Coord(a.x + b.x, a.y + b.y)
  }

  /** The board cells of the piece, in table order. */
  function Placed(t: Shape, c: Coord, a: int): (s: seq<Coord>)
    requires WellFormed(t) && 0 <= a < 4
    ensures |s| == |t.p| - 1
  {
    seq(|t.p| - 1, i requires 0 <= i < |t.p| - 1 => Add(Turned(t, a, t.p[i]), Origin(t, c, a)))
  }

  /** The board cells of the piece, in drawing order. */
  function Translated(t: Shape, c: Coord, a: int): (s: seq<Coord>)
    requires WellFormed(t) && 0 <= a < 4
    ensures |s| == |t.p| - 1
  {
    SortCells(Placed(t, c, a))
  }

  /** The lowest row the turned box reaches. */
  function BottomRow(t: Shape, c: Coord, a: int): int
    requires WellFormed(t)
  {
    c.x + RowExtent(t, a) / 2
  }

  lemma PlacedInBox(t: Shape, c: Coord, a: int, i: nat)
    requires WellFormed(t) && 0 <= a < 4 && i < |t.p| - 1
    ensures BottomRow(t, c, a) - RowExtent(t, a) <= Placed(t, c, a)[i].x <= BottomRow(t, c, a)
    ensures c.y <= PITWIDTH ==> 0 <= Placed(t, c, a)[i].y < PITWIDTH
  {
    assert InBox(t.dx, t.dy, t.p[i]);
  }

  lemma PlacedDistinct(t: Shape, c: Coord, a: int)
    requires WellFormed(t) && 0 <= a < 4 && Distinct(Blocks(t))
    ensures Distinct(Placed(t, c, a))
  {
    var u := Placed(t, c, a);
    forall i, j | 0 <= i < j < |u| ensures u[i] != u[j] {
      assert Blocks(t)[i] != Blocks(t)[j];
      TurnedIsBijection(t, a, t.p[i]);
      TurnedIsBijection(t, a, t.p[j]);
    }
  }

  /** The outcome is the sorted permutation of the placed cells; distinct cells stay distinct. */
  lemma TranslatedSorted(t: Shape, c: Coord, a: int)
    requires WellFormed(t) && 0 <= a < 4
    ensures Sorted(Translated(t, c, a))
    ensures multiset(Translated(t, c, a)) == multiset(Placed(t, c, a))
    ensures Distinct(Blocks(t)) ==> StrictlySorted(Translated(t, c, a))
  {
    var u, r := Placed(t, c, a), Translated(t, c, a);
    SortCellsSorted(u);
    SortCellsMultiset(u);
    if Distinct(Blocks(t)) {
      PlacedDistinct(t, c, a);
      DistinctPermutation(u, r);
      assert forall i, j :: 0 <= i < j < |r| ==> NotAfter(r[i], r[j]) && r[i] != r[j];
    }
  }

  /** No cell leaves the placed box, and for centre columns up to PITWIDTH none leaves the pit's columns. */
  lemma TranslatedInBox(t: Shape, c: Coord, a: int)
    requires WellFormed(t) && 0 <= a < 4
    ensures forall q :: q in Translated(t, c, a) ==> BottomRow(t, c, a) - RowExtent(t, a) <= q.x <= BottomRow(t, c, a)
    ensures c.y <= PITWIDTH ==> forall q :: q in Translated(t, c, a) ==> 0 <= q.y < PITWIDTH
  {
    var u, r := Placed(t, c, a), Translated(t, c, a);
    SortCellsMultiset(u);
    SameElements(u, r);
    forall q | q in r
      ensures BottomRow(t, c, a) - RowExtent(t, a) <= q.x <= BottomRow(t, c, a)
      ensures c.y <= PITWIDTH ==> 0 <= q.y < PITWIDTH
    {
      assert q in u;
      var i :| 0 <= i < |u| && u[i] == q;
      PlacedInBox(t, c, a, i);
    }
  }

  /** The placed box lies within the pit's columns just when the centre column is at most PITWIDTH. */
  lemma BoxClamp(t: Shape, c: Coord, a: int)
    requires WellFormed(t)
    ensures (0 <= Origin(t, c, a).y && Origin(t, c, a).y + ColExtent(t, a) < PITWIDTH) <==> c.y <= PITWIDTH
  {
  }

  /** A piece that touches its box's sides has a cell in the last column of the placed box. */
  lemma TranslatedRight(t: Shape, c: Coord, a: int)
    requires WellFormed(t) && Spans(t) && 0 <= a < 4
    ensures exists q :: q in Translated(t, c, a) && q.y == Origin(t, c, a).y + ColExtent(t, a)
  {
    var p :| p in Blocks(t) && Turned(t, a, p).y == ColExtent(t, a);
    var i :| 0 <= i < |t.p| - 1 && t.p[i] == p;
    var q := Placed(t, c, a)[i];
    SortCellsMultiset(Placed(t, c, a));
    SameElements(Placed(t, c, a), Translated(t, c, a));
    assert q in Translated(t, c, a) && q.y == Origin(t, c, a).y + ColExtent(t, a);
  }

  /** The clamping is exact: all cells of a piece are within the pit's columns just when its centre column is at most PITWIDTH. */
  lemma ClampExact(t: Shape, c: Coord, a: int)
    requires WellFormed(t) && Spans(t) && 0 <= a < 4
    ensures (forall q :: q in Translated(t, c, a) ==> 0 <= q.y < PITWIDTH) <==> c.y <= PITWIDTH
  {
    hide Translated, Spans, WellFormed;
    TranslatedInBox(t, c, a);
    BoxClamp(t, c, a);
    if c.y > PITWIDTH {
      TranslatedRight(t, c, a);
      CornerNotLeft(t, c, a);
    }
  }

  lemma CornerNotLeft(t: Shape, c: Coord, a: int)
    requires WellFormed(t)
    ensures 0 <= Origin(t, c, a).y
  {
  }

  /** The four-block bar with its centre in column 13 has a cell right of the pit. */
  lemma BarOutside()
    ensures WellFormed(SHAPES[0]) && Coord(5, 14) in Translated(SHAPES[0], Coord(5, 13), 0)
  {
    ShapeTable(0);
    var u := Placed(SHAPES[0], Coord(5, 13), 0);
    assert u[2] == Coord(5, 14);
    SortCellsMultiset(u);
    SameElements(u, Translated(SHAPES[0], Coord(5, 13), 0));
  }

  /** A piece that touches its box's sides has a cell in the bottom row. */
  lemma TranslatedBottom(t: Shape, c: Coord, a: int)
    requires WellFormed(t) && Spans(t) && 0 <= a < 4
    ensures exists q :: q in Translated(t, c, a) && q.x == BottomRow(t, c, a)
  {
    var p :| p in Blocks(t) && Turned(t, a, p).x == RowExtent(t, a);
    var i :| 0 <= i < |t.p| - 1 && t.p[i] == p;
    var q := Placed(t, c, a)[i];
    SortCellsMultiset(Placed(t, c, a));
    SameElements(Placed(t, c, a), Translated(t, c, a));
    assert q in Translated(t, c, a) && q.x == BottomRow(t, c, a);
  }

  /** The list with every cell moved d rows down and e columns to the right. */
  function Moved(s: seq<Coord>, d: int, e: int): (r: seq<Coord>)
    ensures |r| == |s|
  {
    seq(|s|, i requires 0 <= i < |s| => Coord(s[i].x + d, s[i].y + e))
  }

  lemma {:induction false} InsertMoved(c: Coord, s: seq<Coord>, d: int, e: int)
    ensures Insert(Coord(c.x + d, c.y + e), Moved(s, d, e)) == Moved(Insert(c, s), d, e)
  {
    if s != [] && !NotAfter(c, s[0]) {
      assert Moved(s, d, e)[1..] == Moved(s[1..], d, e);
      InsertMoved(c, s[1..], d, e);
    }
  }

  lemma {:induction false} SortMoved(s: seq<Coord>, d: int, e: int)
    ensures SortCells(Moved(s, d, e)) == Moved(SortCells(s), d, e)
  {
    if s != [] {
      assert Moved(s, d, e)[1..] == Moved(s[1..], d, e);
      SortMoved(s[1..], d, e);
      InsertMoved(s[0], SortCells(s[1..]), d, e);
    }
  }

  lemma PlacedMoved(t: Shape, c: Coord, b: Coord, a: int)
    requires WellFormed(t) && 0 <= a < 4
    ensures Placed(t, b, a) == Moved(Placed(t, c, a), b.x - c.x, Origin(t, b, a).y - Origin(t, c, a).y)
  {
    hide Turned;
  }

  lemma TranslatedMoved(t: Shape, c: Coord, b: Coord, a: int)
    requires WellFormed(t) && 0 <= a < 4
    ensures Translated(t, b, a) == Moved(Translated(t, c, a), b.x - c.x, Origin(t, b, a).y - Origin(t, c, a).y)
  {
    hide Placed, Moved, SortCells;
    PlacedMoved(t, c, b, a);
    SortMoved(Placed(t, c, a), b.x - c.x, Origin(t, b, a).y - Origin(t, c, a).y);
  }

  /** Moving the centre down moves every cell down and keeps the list order. */
  lemma TranslatedLowered(t: Shape, c: Coord, a: int, d: int)
    requires WellFormed(t) && 0 <= a < 4
    ensures Translated(t, Coord(c.x + d, c.y), a) == Moved(Translated(t, c, a), d, 0)
  {
    hide Translated, Moved;
    TranslatedMoved(t, c, Coord(c.x + d, c.y), a);
  }

  /** Moving the centre one column to the right moves every cell one column to the right where that keeps the box
      within the pit's columns, and moves no cell at a wall. */
  lemma TranslatedSideways(t: Shape, c: Coord, a: int)
    requires WellFormed(t) && 0 <= a < 4 && c.y < PITWIDTH
    ensures var yw := if a % 2 == 1 then t.dx else t.dy;
            var left := c.y - yw / 2;
            Translated(t, Coord(c.x, c.y + 1), a) ==
            Moved(Translated(t, c, a), 0, if left < 0 || left + yw >= PITWIDTH - 1 then 0 else 1)
  {
    hide Translated, Moved;
    TranslatedMoved(t, c, Coord(c.x, c.y + 1), a);
  }

  lemma PlacedCells(t: Shape, c: Coord, a: int, q: Coord)
    requires WellFormed(t) && 0 <= a < 4
    ensures q in Placed(t, c, a) <==> exists p :: p in Blocks(t) && q == Add(Turned(t, a, p), Origin(t, c, a))
  {
    hide Turned, Add, Origin;
    var u, b := Placed(t, c, a), Blocks(t);
    if q in u {
      var i :| 0 <= i < |u| && u[i] == q;
      assert b[i] in b;
    }
    if p :| p in b && q == Add(Turned(t, a, p), Origin(t, c, a)) {
      var i :| 0 <= i < |b| && b[i] == p;
      assert u[i] == q;
    }
  }

  lemma TranslatedCells(t: Shape, c: Coord, a: int, q: Coord)
    requires WellFormed(t) && 0 <= a < 4
    ensures q in Translated(t, c, a) <==>
            exists p :: p in Blocks(t) && q == Add(QuarterTurns(a, t.dx, t.dy, p), Origin(t, c, a))
  {
    hide Origin, QuarterTurns, Turned, SortCells, Placed, Add, WellFormed;
    SortKeeps(Placed(t, c, a), q);
    PlacedCells(t, c, a, q);
    if p :| p in Blocks(t) && q == Add(Turned(t, a, p), Origin(t, c, a)) {
      OrientationIsQuarterTurns(t, a, p);
    }
    if p :| p in Blocks(t) && q == Add(QuarterTurns(a, t.dx, t.dy, p), Origin(t, c, a)) {
      OrientationIsQuarterTurns(t, a, p);
    }
  }

  /** Where a piece is: its blocks after a quarter turns, in a box whose rows follow the centre and whose left column m
      is the centre's less half the width, except that for centre columns up to PITWIDTH the box is kept off the walls. */
  lemma Placement(t: Shape, c: Coord, a: int) returns (m: int)
    requires WellFormed(t) && 0 <= a < 4
    ensures var yw := if a % 2 == 1 then t.dx else t.dy;
            var left := c.y - yw / 2;
            && (left < 0 ==> m == 0)
            && (left >= 0 && left + yw < PITWIDTH ==> m == left)
            && (c.y <= PITWIDTH && left + yw >= PITWIDTH ==> m == PITWIDTH - 1 - yw)
            && (c.y > PITWIDTH ==> m == left)
    ensures var xw := if a % 2 == 1 then t.dy else t.dx;
            forall q :: q in Translated(t, c, a) <==>
              exists p :: p in Blocks(t) && q == Add(QuarterTurns(a, t.dx, t.dy, p), Coord(c.x - (xw + 1) / 2, m))
  {
    m := Origin(t, c, a).y;
    assert Origin(t, c, a) == Coord(c.x - ((if a % 2 == 1 then t.dy else t.dx) + 1) / 2, m);
    hide Translated, QuarterTurns, Add, WellFormed;
    forall q {
      TranslatedCells(t, c, a, q);
    }
  }

  lemma HookCells()
    ensures WellFormed(SHAPES[1])
    ensures Placed(SHAPES[1], Coord(5, 5), 1) == [Coord(4, 6), Coord(4, 5), Coord(5, 5), Coord(6, 5)]
  {
    ShapeTable(1);
    hide WellFormed;
  }

  /** The second piece of the table, turned by one angle in the middle of the pit. */
  lemma HookPlaced(q: Coord)
    ensures WellFormed(SHAPES[1])
    ensures q in Translated(SHAPES[1], Coord(5, 5), 1) <==>
            q in [Coord(4, 5), Coord(4, 6), Coord(5, 5), Coord(6, 5)]
  {
    hide SortCells, Placed, WellFormed;
    HookCells();
    SortKeeps(Placed(SHAPES[1], Coord(5, 5), 1), q);
  }

  // ---------------------------------------------------------------- the in-place version

  method SwapNext(res: array<Coord>, i: nat, ghost s: seq<Coord>)
    requires Holds(res, s) && i + 1 < |s|
    modifies res
    ensures Holds(res, Swapped(s, i))
  {
    var tmp := res[i];
    res[i] := res[i+1];
    res[i+1] := tmp;
    assert res[..|s|] == Swapped(s, i);
  }

  /** One pass over the list, exchanging neighbours that are out of order. */
  method BubblePass(res: array<Coord>, ghost s: seq<Coord>) returns (swaps: nat)
    requires Holds(res, s) && s != []
    modifies res
    ensures Holds(res, res[..|s|])
    ensures SortCells(res[..|s|]) == SortCells(s)
    ensures Inversions(res[..|s|]) + swaps == Inversions(s)
    ensures swaps == 0 ==> Sorted(res[..|s|])
  {
    swaps := 0;
    var i := 0;
    ghost var n := |s|;
    while res[i+1].x != FIN
      invariant 0 <= i < n
      invariant Holds(res, res[..n])
      invariant SortCells(res[..n]) == SortCells(s)
      invariant Inversions(res[..n]) + swaps == Inversions(s)
      invariant swaps == 0 ==> forall j :: 0 <= j < i ==> NotAfter(res[j], res[j+1])
      decreases n - i
    {
      if res[i].x < res[i+1].x || (res[i].x == res[i+1].x && res[i].y <= res[i+1].y) {
      } else {
        swaps := swaps + 1;
        SwapRemovesOneInversion(res[..n], i);
        SwapNext(res, i, res[..n]);
      }
      i := i + 1;
    }
    if swaps == 0 {
      NeighboursSorted(res[..n]);
    }
  }

  /** Passes until one makes no exchange; every exchange uses up one inversion, so this ends. */
  method BubbleSort(res: array<Coord>, ghost s: seq<Coord>)
    requires Holds(res, s) && s != []
    modifies res
    ensures Holds(res, SortCells(s))
  {
    ghost var n := |s|;
    var swaps := BubblePass(res, s);
    while swaps != 0
      invariant Holds(res, res[..n])
      invariant SortCells(res[..n]) == SortCells(s)
      invariant swaps == 0 ==> Sorted(res[..n])
      decreases Inversions(res[..n]), swaps
    {
      swaps := BubblePass(res, res[..n]);
    }
    SortCellsUnique(res[..n], res[..n]);
  }

  /** The extents of the turned box and the cell of its upper left corner. */
  method FindOrigin(t: Shape, c: Coord, a: int) returns (xw: int, yw: int, org: Coord)
    requires WellFormed(t) && 0 <= a < 4
    ensures xw == RowExtent(t, a) && yw == ColExtent(t, a) && org == Origin(t, c, a)
  {
    if a % 2 == 1 {
      xw, yw := t.dy, t.dx;
    } else {
      xw, yw := t.dx, t.dy;
    }
    org := Coord(c.x - (xw + 1) / 2, c.y - yw / 2);
    if org.y < 0 {
      org := org.(y := 0);
    }
    if org.y + yw >= PITWIDTH && c.y <= PITWIDTH {
      org := org.(y := PITWIDTH - 1 - yw);
    }
  }

  /** Fills res with the cells of shape t turned by a around centre c, in table order, and the end mark. */
  method PlaceBlocks(t: Shape, c: Coord, a: int, res: array<Coord>)
    requires WellFormed(t) && 0 <= a < 4
    requires |t.p| <= res.Length
    requires NoFin(Placed(t, c, a))
    modifies res
    ensures Holds(res, Placed(t, c, a))
  {
    var xw, yw, org := FindOrigin(t, c, a);
    ghost var u := Placed(t, c, a);
    var i := 0;
    while t.p[i].x != FIN
      invariant 0 <= i <= |t.p| - 1
      invariant forall k :: 0 <= k < i ==> res[k] == u[k]
      decreases |t.p| - i
    {
      var p := t.p[i];
      var q := p;
      match a {
        case 0 =>
        case 3 => q := Coord(xw - p.y, p.x);
        case 2 => q := Coord(xw - p.x, yw - p.y);
        case _ => q := Coord(p.y, yw - p.x);
      }
      res[i] := Coord(q.x + org.x, q.y + org.y);
      i := i + 1;
    }
    res[i] := END;
    assert res[..i] == u;
  }

  /** Fills res with the sorted cells of shape t turned by a around centre c. */
  method Translate(t: Shape, c: Coord, a: int, res: array<Coord>)
    requires WellFormed(t) && 0 <= a < 4
    requires |t.p| <= res.Length
    requires NoFin(Translated(t, c, a))
    modifies res
    ensures Holds(res, Translated(t, c, a))
  {
    SortCellsMultiset(Placed(t, c, a));
    SameElements(Placed(t, c, a), Translated(t, c, a));
    assert forall k :: 0 <= k < |Placed(t, c, a)| ==> Placed(t, c, a)[k] in Translated(t, c, a);
    PlaceBlocks(t, c, a, res);
    BubbleSort(res, Placed(t, c, a));
  }
}
