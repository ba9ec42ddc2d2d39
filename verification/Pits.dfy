/** The pit as rows of occupied cells: placing cells, and removing full rows. */
module Pits {
  import opened Cells
  import opened Lists
  import opened Pieces

  type Row = seq<bool>

  const EMPTY: Row :=
    [false, false, false, false, false, false, false, false, false, false, false, false]

  function Count(r: Row): nat {
    if r == [] then 0 else (if r[0] then 1 else 0) + Count(r[1..])
  }

  predicate Full(r: Row) {
    forall w :: 0 <= w < |r| ==> r[w]
  }

  lemma {:induction false} CountFull(r: Row)
    ensures Count(r) <= |r|
    ensures Count(r) == |r| <==> Full(r)
  {
    if r != [] {
      CountFull(r[1..]);
      assert Full(r) <==> r[0] && Full(r[1..]) by {
        assert r == [r[0]] + r[1..];
      }
    }
  }

  lemma {:induction false} CountSet(r: Row, w: nat)
    requires w < |r| && !r[w]
    ensures Count(r[w := true]) == Count(r) + 1
  {
    if w == 0 {
      assert r[w := true][1..] == r[1..];
    } else {
      assert r[w := true][1..] == r[1..][w - 1 := true];
      CountSet(r[1..], w - 1);
    }
  }

  lemma {:induction false} CountNone(r: Row)
    requires forall w :: 0 <= w < |r| ==> !r[w]
    ensures Count(r) == 0
  {
    if r != [] { CountNone(r[1..]); }
  }

  /** The count is the number of occupied columns. */
  lemma {:induction false} CountCells(r: Row)
    ensures Count(r) == |set w | 0 <= w < |r| && r[w]|
  {
    var all := set w | 0 <= w < |r| && r[w];
    if r == [] {
      assert all == {};
    } else {
      var n := |r| - 1;
      CountCells(r[..n]);
      CountLast(r);
      var rest := set w | 0 <= w < n && r[..n][w];
      assert all == if r[n] then rest + {n} else rest;
    }
  }

  lemma {:induction false} CountLast(r: Row)
    requires r != []
    ensures Count(r) == Count(r[..|r| - 1]) + if r[|r| - 1] then 1 else 0
  {
    if |r| > 1 {
      CountLast(r[1..]);
      assert r[1..][..|r| - 2] == r[..|r| - 1][1..];
    }
  }

  // ---------------------------------------------------------------- removing full rows

  /** The rows that are not full, in order. */
  function Survivors(rows: seq<Row>): seq<Row> {
    if rows == [] then []
    else
      var n := |rows| - 1;
      Survivors(rows[..n]) + if Full(rows[n]) then [] else [rows[n]]
  }

  function Fulls(rows: seq<Row>): nat {
    if rows == [] then 0
    else
      var n := |rows| - 1;
      Fulls(rows[..n]) + if Full(rows[n]) then 1 else 0
  }

  function Blank(n: nat): (r: seq<Row>) {
    seq(n, _ => EMPTY)
  }

  /** Delete the full rows and push as many empty ones on top. */
  function Compact(rows: seq<Row>): seq<Row> {
    Blank(Fulls(rows)) + Survivors(rows)
  }

  lemma {:induction false} SurvivorsLength(rows: seq<Row>)
    ensures |Survivors(rows)| + Fulls(rows) == |rows|
  {
    if rows != [] { SurvivorsLength(rows[..|rows| - 1]); }
  }

  lemma {:induction false} Split(a: seq<Row>, b: seq<Row>)
    ensures Survivors(a + b) == Survivors(a) + Survivors(b)
    ensures Fulls(a + b) == Fulls(a) + Fulls(b)
  {
    if b == [] {
      assert a + b == a;
    } else {
      var n := |b| - 1;
      assert (a + b)[..|a + b| - 1] == a + b[..n];
      Split(a, b[..n]);
    }
  }

  predicate NoneFullIn(rows: seq<Row>) {
    forall h :: 0 <= h < |rows| ==> !Full(rows[h])
  }

  lemma {:induction false} NoFulls(rows: seq<Row>)
    requires NoneFullIn(rows)
    ensures Fulls(rows) == 0 && Survivors(rows) == rows
  {
    if rows != [] {
      var n := |rows| - 1;
      assert NoneFullIn(rows[..n]) && !Full(rows[n]);
      NoFulls(rows[..n]);
      assert rows == rows[..n] + [rows[n]];
    }
  }

  lemma {:induction false} FullsZero(rows: seq<Row>, h: nat)
    requires Fulls(rows) == 0 && h < |rows|
    ensures !Full(rows[h])
  {
    if h < |rows| - 1 { FullsZero(rows[..|rows| - 1], h); }
  }

  lemma {:induction false} SurvivorsNotFull(rows: seq<Row>)
    ensures forall h :: 0 <= h < |Survivors(rows)| ==> !Full(Survivors(rows)[h])
    ensures forall h :: 0 <= h < |Survivors(rows)| ==> Survivors(rows)[h] in rows
  {
    if rows != [] { SurvivorsNotFull(rows[..|rows| - 1]); }
  }

  lemma EmptyNotFull()
    ensures |EMPTY| == PITWIDTH && !Full(EMPTY) && Count(EMPTY) == 0
  {
    assert !EMPTY[0];
    CountNone(EMPTY);
  }

  /** A row that survives ends up as far down as there are full rows below it. */
  lemma CompactRow(rows: seq<Row>, s: nat)
    requires s < |rows| && !Full(rows[s])
    ensures s + Fulls(rows[s..]) < |Compact(rows)|
    ensures Compact(rows)[s + Fulls(rows[s..])] == rows[s]
  {
    assert rows == rows[..s] + rows[s..];
    assert rows[s..] == [rows[s]] + rows[s+1..];
    Split(rows[..s], rows[s..]);
    Split([rows[s]], rows[s+1..]);
    SurvivorsLength(rows[..s]);
  }

  /** Compaction leaves the rows below the last full row where they are. */
  lemma CompactBelow(rows: seq<Row>, h: nat, i: nat)
    requires h <= i < |rows| && Fulls(rows[h..]) == 0
    ensures |Compact(rows)| == |rows| && Compact(rows)[i] == rows[i]
  {
    FullsZero(rows[h..], i - h);
    assert rows[h..] == rows[h..i] + rows[i..];
    Split(rows[h..i], rows[i..]);
    CompactRow(rows, i);
    SurvivorsLength(rows);
  }

  function Removed(rows: seq<Row>, h: nat): seq<Row>
    requires h < |rows|
  {
    [EMPTY] + rows[..h] + rows[h+1..]
  }

  lemma Single(r: Row)
    ensures Survivors([r]) == if Full(r) then [] else [r]
    ensures Fulls([r]) == if Full(r) then 1 else 0
  {
    assert [r][..0] == [];
  }

  lemma SplitAroundFull(a: seq<Row>, r: Row, b: seq<Row>)
    requires Full(r)
    ensures Survivors(a + [r] + b) == Survivors(a) + Survivors(b)
    ensures Fulls(a + [r] + b) == Fulls(a) + 1 + Fulls(b)
  {
    Split(a + [r], b);
    assert (a + [r])[..|a|] == a;
    assert Survivors(a + [r]) == Survivors(a) + [] == Survivors(a);
  }

  lemma Around(rows: seq<Row>, h: nat)
    requires h < |rows|
    ensures rows == rows[..h] + [rows[h]] + rows[h+1..]
  {
  }

  lemma SurvivorsWithout(rows: seq<Row>, h: nat)
    requires h < |rows| && Full(rows[h])
    ensures Survivors(rows) == Survivors(rows[..h]) + Survivors(rows[h+1..])
    ensures Fulls(rows) == Fulls(rows[..h]) + 1 + Fulls(rows[h+1..])
  {
    Around(rows, h);
    SplitAroundFull(rows[..h], rows[h], rows[h+1..]);
  }

  lemma SurvivorsRemoved(rows: seq<Row>, h: nat)
    requires h < |rows|
    ensures Survivors(Removed(rows, h)) == [EMPTY] + Survivors(rows[..h]) + Survivors(rows[h+1..])
    ensures Fulls(Removed(rows, h)) == Fulls(rows[..h]) + Fulls(rows[h+1..])
  {
    EmptyNotFull();
    Single(EMPTY);
    Split([EMPTY] + rows[..h], rows[h+1..]);
    Split([EMPTY], rows[..h]);
  }

  lemma Pad(n: nat, x: seq<Row>, y: seq<Row>)
    ensures Blank(n) + ([EMPTY] + x + y) == Blank(n + 1) + (x + y)
  {
  }

  /** Taking out one full row and pushing one empty row does not change the compacted pit. */
  lemma RemoveFull(rows: seq<Row>, h: nat)
    requires h < |rows| && Full(rows[h])
    ensures Compact(Removed(rows, h)) == Compact(rows)
    ensures Fulls(Removed(rows, h)) == Fulls(rows) - 1
  {
    SurvivorsWithout(rows, h);
    SurvivorsRemoved(rows, h);
    Pad(Fulls(rows) - 1, Survivors(rows[..h]), Survivors(rows[h+1..]));
  }

  lemma CompactWhole(rows: seq<Row>)
    requires forall h :: 0 <= h < |rows| ==> |rows[h]| == PITWIDTH
    ensures |Compact(rows)| == |rows|
    ensures forall h :: 0 <= h < |rows| ==> |Compact(rows)[h]| == PITWIDTH && !Full(Compact(rows)[h])
    ensures forall h :: 0 <= h < Fulls(rows) ==> Compact(rows)[h] == EMPTY
  {
    SurvivorsLength(rows);
    SurvivorsNotFull(rows);
    EmptyNotFull();
  }

  // ---------------------------------------------------------------- occupancy

  /** The number of occupied cells. */
  function Occupied(rows: seq<Row>): nat {
    if rows == [] then 0
    else
      var n := |rows| - 1;
      Occupied(rows[..n]) + Count(rows[n])
  }

  lemma {:induction false} OccupiedSplit(a: seq<Row>, b: seq<Row>)
    ensures Occupied(a + b) == Occupied(a) + Occupied(b)
  {
    if b == [] {
      assert a + b == a;
    } else {
      assert (a + b)[..|a + b| - 1] == a + b[..|b| - 1];
      OccupiedSplit(a, b[..|b| - 1]);
    }
  }

  lemma {:induction false} OccupiedBlank(n: nat)
    ensures Occupied(Blank(n)) == 0
  {
    if n > 0 {
      assert Blank(n)[..n - 1] == Blank(n - 1);
      EmptyNotFull();
      OccupiedBlank(n - 1);
    }
  }

  lemma {:induction false} OccupiedSurvivors(rows: seq<Row>)
    requires forall h :: 0 <= h < |rows| ==> |rows[h]| == PITWIDTH
    ensures Occupied(rows) == Occupied(Survivors(rows)) + PITWIDTH * Fulls(rows)
  {
    if rows != [] {
      var n := |rows| - 1;
      OccupiedSurvivors(rows[..n]);
      CountFull(rows[n]);
      if !Full(rows[n]) {
        OccupiedSplit(Survivors(rows[..n]), [rows[n]]);
        assert Occupied([rows[n]]) == Occupied([]) + Count(rows[n]) by { assert [rows[n]][..0] == []; }
      } else {
        assert Survivors(rows) == Survivors(rows[..n]);
      }
    }
  }

  /** Each removed row takes exactly PITWIDTH cells with it. */
  lemma CompactOccupied(rows: seq<Row>)
    requires forall h :: 0 <= h < |rows| ==> |rows[h]| == PITWIDTH
    ensures Occupied(Compact(rows)) == Occupied(rows) - PITWIDTH * Fulls(rows)
  {
    OccupiedSurvivors(rows);
    OccupiedBlank(Fulls(rows));
    OccupiedSplit(Blank(Fulls(rows)), Survivors(rows));
  }

  // ---------------------------------------------------------------- the whole pit, floor included

  predicate IsPit(p: seq<Row>) {
    && |p| == PITDEPTH + 1
    && (forall h :: 0 <= h <= PITDEPTH ==> |p[h]| == PITWIDTH)
    && Full(p[PITDEPTH])
  }

  /** Between pieces: no row is full and the top row is empty. */
  predicate Settled(p: seq<Row>) {
    && IsPit(p)
    && (forall h :: 0 <= h < PITDEPTH ==> !Full(p[h]))
    && p[0] == EMPTY
  }

  function FloorRow(): Row {
    seq(PITWIDTH, _ => true)
  }

  function EmptyPit(): (p: seq<Row>)
    ensures Settled(p)
  {
    EmptyNotFull();
    Blank(PITDEPTH) + [FloorRow()]
  }

  lemma EmptyPitCells()
    ensures |EmptyPit()| == PITDEPTH + 1
    ensures forall h :: 0 <= h <= PITDEPTH ==> |EmptyPit()[h]| == PITWIDTH
    ensures forall h, w :: 0 <= h <= PITDEPTH && 0 <= w < PITWIDTH ==> EmptyPit()[h][w] == (h == PITDEPTH)
    ensures forall h :: 0 <= h < PITDEPTH ==> Count(EmptyPit()[h]) == 0
  {
    EmptyNotFull();
    forall h | 0 <= h < PITDEPTH ensures EmptyPit()[h] == EMPTY {
    }
  }

  /** A cell inside the pit, floor included. */
  predicate InPit(c: Coord) {
    0 <= c.x <= PITDEPTH && 0 <= c.y < PITWIDTH
  }

  /** A cell that the screen can show. */
  predicate InGrid(c: Coord) {
    0 <= c.x < PITDEPTH && 0 <= c.y < PITWIDTH
  }

  predicate Hits(p: seq<Row>, c: Coord)
    requires IsPit(p)
  {
    InPit(c) && p[c.x][c.y]
  }

  predicate InGridAll(s: seq<Coord>) {
    forall i :: 0 <= i < |s| ==> InGrid(s[i])
  }

  predicate BelowTop(s: seq<Coord>) {
    forall i :: 0 <= i < |s| ==> s[i].x > 0
  }

  /** The cells that are not above the pit are inside it and unoccupied. */
  predicate FreeIn(p: seq<Row>, s: seq<Coord>)
    requires IsPit(p)
  {
    forall i :: 0 <= i < |s| && s[i].x >= 0 ==> InGrid(s[i]) && !Hits(p, s[i])
  }

  function Put(p: seq<Row>, c: Coord): (q: seq<Row>)
    requires IsPit(p) && InGrid(c)
    ensures IsPit(q)
  {
    p[c.x := p[c.x][c.y := true]]
  }

  function PutAll(p: seq<Row>, s: seq<Coord>): (q: seq<Row>)
    requires IsPit(p) && InGridAll(s)
    ensures IsPit(q)
  {
    if s == [] then p else Put(PutAll(p, s[..|s| - 1]), s[|s| - 1])
  }

  function Compacted(p: seq<Row>): (q: seq<Row>)
    requires IsPit(p)
    ensures IsPit(q)
    ensures forall h :: 0 <= h < PITDEPTH ==> !Full(q[h])
  {
    CompactWhole(p[..PITDEPTH]);
    Compact(p[..PITDEPTH]) + [p[PITDEPTH]]
  }

  /** Exactly the given cells are added. */
  lemma {:induction false} PutAllCells(p: seq<Row>, s: seq<Coord>, c: Coord)
    requires IsPit(p) && InGridAll(s)
    ensures Hits(PutAll(p, s), c) <==> Hits(p, c) || c in s
  {
    if s != [] {
      var n := |s| - 1;
      PutAllCells(p, s[..n], c);
      assert s == s[..n] + [s[n]];
    }
  }

  lemma PutAllNext(p: seq<Row>, s: seq<Coord>, i: nat)
    requires IsPit(p) && i < |s| && Distinct(s) && FreeIn(p, s)
    requires InGridAll(s[..i]) && BelowTop(s[..i]) && s[i].x > 0
    ensures InGridAll(s[..i+1]) && BelowTop(s[..i+1])
    ensures InGrid(s[i]) && !Hits(PutAll(p, s[..i]), s[i])
    ensures PutAll(p, s[..i+1]) == Put(PutAll(p, s[..i]), s[i])
  {
    PutAllCells(p, s[..i], s[i]);
    assert s[..i+1] == s[..i] + [s[i]];
    assert s[..i+1][..i] == s[..i];
  }

  lemma {:induction false} PutOccupied(p: seq<Row>, c: Coord)
    requires IsPit(p) && InGrid(c) && !Hits(p, c)
    ensures Occupied(Put(p, c)[..PITDEPTH]) == Occupied(p[..PITDEPTH]) + 1
  {
    var q := Put(p, c);
    var r := p[c.x][c.y := true];
    CountSet(p[c.x], c.y);
    var a, b := p[..c.x], p[c.x+1..PITDEPTH];
    assert p[..PITDEPTH] == a + ([p[c.x]] + b) && q[..PITDEPTH] == a + ([r] + b);
    OccupiedSplit(a, [p[c.x]] + b);
    OccupiedSplit(a, [r] + b);
    OccupiedSplit([p[c.x]], b);
    OccupiedSplit([r], b);
    assert [r][..0] == [] == [p[c.x]][..0];
  }

  lemma {:induction false} PutAllOccupied(p: seq<Row>, s: seq<Coord>)
    requires IsPit(p) && InGridAll(s) && FreeIn(p, s) && Distinct(s)
    ensures Occupied(PutAll(p, s)[..PITDEPTH]) == Occupied(p[..PITDEPTH]) + |s|
  {
    if s != [] {
      var n := |s| - 1;
      PutAllOccupied(p, s[..n]);
      PutAllCells(p, s[..n], s[n]);
      PutOccupied(PutAll(p, s[..n]), s[n]);
    }
  }

  lemma PutAllTop(p: seq<Row>, s: seq<Coord>)
    requires Settled(p) && InGridAll(s) && BelowTop(s)
    ensures PutAll(p, s)[0] == EMPTY
  {
    var q := PutAll(p, s);
    forall w | 0 <= w < PITWIDTH ensures q[0][w] == EMPTY[w] {
      PutAllCells(p, s, Coord(0, w));
      assert Hits(p, Coord(0, w)) <==> p[0][w];
      assert Hits(q, Coord(0, w)) <==> q[0][w];
    }
  }

  /** Landing a piece keeps the pit settled, provided no cell is in the top row. */
  lemma CompactedSettled(p: seq<Row>, s: seq<Coord>)
    requires Settled(p) && InGridAll(s) && BelowTop(s)
    ensures Settled(Compacted(PutAll(p, s)))
  {
    PutAllTop(p, s);
    var rows := PutAll(p, s)[..PITDEPTH];
    CompactWhole(rows);
    if Fulls(rows) == 0 {
      assert rows[0..] == rows;
      CompactBelow(rows, 0, 0);
    }
  }

  lemma RemovedAt(rows: seq<Row>, h: nat, r: nat)
    requires h < |rows| && r < |rows|
    ensures |Removed(rows, h)| == |rows|
    ensures Removed(rows, h)[r] == if r == 0 then EMPTY else if r <= h then rows[r-1] else rows[r]
  {
  }

  /** RemoveFull for the pit with its floor. */
  lemma RemoveFullRow(p: seq<Row>, h: nat)
    requires IsPit(p) && h < PITDEPTH && Full(p[h])
    ensures IsPit(Removed(p, h))
    ensures Compacted(Removed(p, h)) == Compacted(p)
    ensures Fulls(Removed(p, h)[..PITDEPTH]) == Fulls(p[..PITDEPTH]) - 1
  {
    forall r | 0 <= r <= PITDEPTH ensures |Removed(p, h)[r]| == PITWIDTH {
      RemovedAt(p, h, r);
    }
    RemovedAt(p, h, PITDEPTH);
    RemoveFull(p[..PITDEPTH], h);
    assert Removed(p, h)[..PITDEPTH] == Removed(p[..PITDEPTH], h);
  }

  lemma NoneFull(p: seq<Row>)
    requires IsPit(p) && Fulls(p[0..PITDEPTH]) == 0
    ensures forall h :: 0 <= h < PITDEPTH ==> !Full(p[h])
  {
    forall h | 0 <= h < PITDEPTH ensures !Full(p[h]) {
      FullsZero(p[0..PITDEPTH], h);
    }
  }

  predicate NoFullBelow(p: seq<Row>, h: int)
    requires IsPit(p) && 0 <= h < PITDEPTH
  {
    forall r :: h < r < PITDEPTH ==> !Full(p[r])
  }

  lemma NoFullUp(p: seq<Row>, h: int)
    requires IsPit(p) && 0 < h < PITDEPTH
    requires NoFullBelow(p, h) && !Full(p[h])
    ensures NoFullBelow(p, h - 1)
  {
  }

  lemma NoFullKept(p: seq<Row>, q: seq<Row>, h: int)
    requires IsPit(p) && IsPit(q) && 0 < h < PITDEPTH
    requires NoFullBelow(p, h) && forall r :: h < r < PITDEPTH ==> q[r] == p[r]
    ensures NoFullBelow(q, h)
  {
    forall r | h < r < PITDEPTH ensures !Full(q[r]) {
      assert q[r] == p[r];
    }
  }

  lemma CompactedDone(p: seq<Row>)
    requires IsPit(p) && p[0] == EMPTY && NoFullBelow(p, 0)
    ensures Compacted(p) == p
  {
    EmptyNotFull();
    CompactedSame(p);
  }

  lemma CompactedSame(p: seq<Row>)
    requires IsPit(p) && forall h :: 0 <= h < PITDEPTH ==> !Full(p[h])
    ensures Compacted(p) == p && Fulls(p[..PITDEPTH]) == 0
  {
    NoFulls(p[..PITDEPTH]);
  }

  /** Where row s of the pit goes when k full rows are at or below it. */
  lemma CompactedRow(p: seq<Row>, s: nat, k: nat)
    requires IsPit(p) && s < PITDEPTH && !Full(p[s]) && k == Fulls(p[s..PITDEPTH])
    ensures s + k < PITDEPTH && Compacted(p)[s + k] == p[s]
  {
    var rows := p[..PITDEPTH];
    assert rows[s..] == p[s..PITDEPTH];
    CompactRow(rows, s);
    CompactWhole(rows);
  }

  lemma CompactedBelow(p: seq<Row>, h: nat)
    requires IsPit(p) && h <= PITDEPTH && Fulls(p[h..PITDEPTH]) == 0
    ensures forall r :: h <= r < PITDEPTH ==> Compacted(p)[r] == p[r]
  {
    var rows := p[..PITDEPTH];
    assert rows[h..] == p[h..PITDEPTH];
    forall r | h <= r < PITDEPTH ensures Compacted(p)[r] == p[r] {
      CompactBelow(rows, h, r);
    }
  }

  lemma CompactedTop(p: seq<Row>)
    requires IsPit(p)
    ensures Fulls(p[0..PITDEPTH]) <= PITDEPTH
    ensures forall r :: 0 <= r < Fulls(p[0..PITDEPTH]) ==> Compacted(p)[r] == EMPTY
  {
    var rows := p[..PITDEPTH];
    assert p[0..PITDEPTH] == rows;
    SurvivorsLength(rows);
    CompactWhole(rows);
  }

  lemma FullsTail(p: seq<Row>, s: nat)
    requires IsPit(p) && s < PITDEPTH
    ensures Fulls(p[s..PITDEPTH]) == (if Full(p[s]) then 1 else 0) + Fulls(p[s+1..PITDEPTH])
  {
    assert p[s..PITDEPTH] == [p[s]] + p[s+1..PITDEPTH];
    Split([p[s]], p[s+1..PITDEPTH]);
    Single(p[s]);
  }

  lemma FullsChange(p: seq<Row>, h: nat, r: Row)
    requires h < |p| && !Full(p[h])
    ensures Fulls(p[h := r]) == Fulls(p) + if Full(r) then 1 else 0
  {
    var a, b := p[..h], p[h+1..];
    assert p == a + ([p[h]] + b) && p[h := r] == a + ([r] + b);
    Split(a, [p[h]] + b);
    Split(a, [r] + b);
    Split([p[h]], b);
    Split([r], b);
    Single(p[h]);
    Single(r);
  }

  /** Placing one free cell fills at most its own row, and the count tells. */
  lemma PutFulls(p: seq<Row>, c: Coord)
    requires IsPit(p) && InGrid(c) && !Hits(p, c)
    ensures Count(Put(p, c)[c.x]) == Count(p[c.x]) + 1
    ensures Fulls(Put(p, c)[0..PITDEPTH]) == Fulls(p[0..PITDEPTH]) + if Count(p[c.x]) + 1 == PITWIDTH then 1 else 0
  {
    CountSet(p[c.x], c.y);
    CountFull(p[c.x][c.y := true]);
    FullsChange(p[0..PITDEPTH], c.x, p[c.x][c.y := true]);
    assert Put(p, c)[0..PITDEPTH] == p[0..PITDEPTH][c.x := p[c.x][c.y := true]];
  }

  /** Conservation: a landing adds the piece's cells and takes PITWIDTH away for every full row. */
  lemma LandingOccupied(p: seq<Row>, s: seq<Coord>)
    requires IsPit(p) && InGridAll(s) && FreeIn(p, s) && Distinct(s)
    ensures Occupied(Compacted(PutAll(p, s))[..PITDEPTH])
         == Occupied(p[..PITDEPTH]) + |s| - PITWIDTH * Fulls(PutAll(p, s)[..PITDEPTH])
  {
    PutAllOccupied(p, s);
    var rows := PutAll(p, s)[..PITDEPTH];
    CompactOccupied(rows);
    CompactWhole(rows);
    assert Compacted(PutAll(p, s))[..PITDEPTH] == Compact(rows);
  }
}
