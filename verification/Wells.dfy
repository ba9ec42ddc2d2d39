/** The pit in memory: the grid, the per-row counts, the screen, and what happens when a piece lands. */
module Wells {
  import opened Cells
  import opened Lists
  import opened Pieces
  import opened Pits
  import opened Screens

  /** The occupied cells above the floor. */
  function Filled(p: seq<Row>): set<Coord>
    requires IsPit(p)
  {
    set h, w | 0 <= h < PITDEPTH && 0 <= w < PITWIDTH && p[h][w] :: Coord(h, w)
  }

  predicate OnGrid(lit: set<Coord>) {
    forall c :: c in lit ==> InGrid(c)
  }

  predicate ShowsRow(lit: set<Coord>, h: int, r: Row)
    requires |r| == PITWIDTH
  {
    forall w :: 0 <= w < PITWIDTH ==> (Coord(h, w) in lit <==> r[w])
  }

  lemma ShowsPit(lit: set<Coord>, p: seq<Row>)
    requires IsPit(p)
    ensures lit == Filled(p) <==> OnGrid(lit) && forall h :: 0 <= h < PITDEPTH ==> ShowsRow(lit, h, p[h])
  {
    if OnGrid(lit) && forall h :: 0 <= h < PITDEPTH ==> ShowsRow(lit, h, p[h]) {
      forall c ensures c in lit <==> c in Filled(p) {
        if c in lit {
          assert InGrid(c) && ShowsRow(lit, c.x, p[c.x]);
          assert c == Coord(c.x, c.y) && p[c.x][c.y];
        }
      }
    }
  }

  lemma FilledEmpty()
    ensures Filled(EmptyPit()) == {}
  {
    hide EmptyPit;
    EmptyPitCells();
  }

  lemma FilledPutAll(p: seq<Row>, s: seq<Coord>)
    requires IsPit(p) && InGridAll(s)
    ensures Filled(PutAll(p, s)) == Filled(p) + Visible(s)
  {
    var q := PutAll(p, s);
    forall c ensures c in Filled(q) <==> c in Filled(p) + Visible(s) {
      PutAllCells(p, s, c);
      assert c in Filled(q) <==> InGrid(c) && Hits(q, c);
      assert c in Filled(p) <==> InGrid(c) && Hits(p, c);
    }
  }

  lemma PieceOffPit(p: seq<Row>, s: seq<Coord>)
    requires IsPit(p) && FreeIn(p, s)
    ensures Filled(p) !! Visible(s)
  {
    forall c | c in Visible(s) ensures c !in Filled(p) {
      var i :| 0 <= i < |s| && s[i] == c;
      assert !Hits(p, s[i]);
    }
  }

  /** Rows above h already show t, the others still show p. */
  predicate Halfway(lit: set<Coord>, h: int, t: seq<Row>, p: seq<Row>)
    requires IsPit(t) && IsPit(p) && 0 <= h <= PITDEPTH
  {
    && OnGrid(lit)
    && (forall r :: 0 <= r < h ==> ShowsRow(lit, r, t[r]))
    && (forall r :: h <= r < PITDEPTH ==> ShowsRow(lit, r, p[r]))
  }

  /** The two screens differ at most in row h of the grid. */
  ghost predicate OnlyRow(h: int, before: set<Coord>, after: set<Coord>) {
    forall c: Coord :: c.x != h || !InGrid(c) ==> (c in after <==> c in before)
  }

  lemma HalfwayStep(before: set<Coord>, after: set<Coord>, h: int, t: seq<Row>, p: seq<Row>)
    requires IsPit(t) && IsPit(p) && 0 <= h < PITDEPTH
    requires Halfway(before, h, t, p) && OnlyRow(h, before, after) && ShowsRow(after, h, t[h])
    ensures Halfway(after, h + 1, t, p)
  {
    forall r | 0 <= r < PITDEPTH && r != h
      ensures ShowsRow(after, r, if r < h then t[r] else p[r])
    {
      var row := if r < h then t[r] else p[r];
      assert ShowsRow(before, r, row);
      forall w | 0 <= w < PITWIDTH ensures Coord(r, w) in after <==> row[w] {
        assert Coord(r, w) in after <==> Coord(r, w) in before;
      }
    }
  }

  lemma HalfwayDone(lit: set<Coord>, h: int, t: seq<Row>, p: seq<Row>)
    requires IsPit(t) && IsPit(p) && 0 <= h <= PITDEPTH && Halfway(lit, h, t, p)
    requires forall r :: h <= r < PITDEPTH ==> t[r] == p[r]
    ensures Halfway(lit, PITDEPTH, t, p)
  {
    forall r | h <= r < PITDEPTH ensures ShowsRow(lit, r, t[r]) {
      assert ShowsRow(lit, r, p[r]);
    }
  }

  class Well {
    const pit: array2<bool>
    const pitcnt: array<int>
    const scr: Screen

    /** The grid as rows. */
    ghost var rows: seq<Row>

    ghost predicate Sized() {
      pit.Length0 == PITDEPTH + 1 && pit.Length1 == PITWIDTH && pitcnt.Length == PITDEPTH
    }

    ghost predicate Valid()
      reads this, pit
    {
      && Sized()
      && |rows| == PITDEPTH + 1
      && (forall h :: 0 <= h <= PITDEPTH ==> |rows[h]| == PITWIDTH)
      && (forall h, w :: 0 <= h <= PITDEPTH && 0 <= w < PITWIDTH ==> rows[h][w] == pit[h, w])
    }

    /** The counts agree with the grid. */
    ghost predicate Counted()
      requires Valid()
      reads this, pit, pitcnt
    {
      forall h :: 0 <= h < PITDEPTH ==> pitcnt[h] == Count(rows[h])
    }

    constructor ()
      ensures Valid() && fresh(pit) && fresh(pitcnt) && fresh(scr)
      ensures rows == EmptyPit() && Counted() && scr.lit == {}
    {
      pit := new bool[PITDEPTH + 1, PITWIDTH]((_, _) => false);
      pitcnt := new int[PITDEPTH];
      scr := new Screen();
      rows := Blank(PITDEPTH + 1);
      new;
      Clear();
      assert scr.lit == {};
    }

    /** Darkens and empties one row. */
    method ClearRow(h: int)
      requires Sized() && 0 <= h < PITDEPTH
      modifies pit, scr
      ensures forall i, j :: 0 <= i <= PITDEPTH && 0 <= j < PITWIDTH ==> pit[i, j] == (i != h && old(pit[i, j]))
      ensures forall c :: c in scr.lit <==> c in old(scr.lit) && !(InGrid(c) && c.x == h)
    {
      var w := 0;
      while w < PITWIDTH
        invariant 0 <= w <= PITWIDTH
        invariant forall i, j :: 0 <= i <= PITDEPTH && 0 <= j < PITWIDTH ==>
                    pit[i, j] == (!(i == h && j < w) && old(pit[i, j]))
        invariant forall c :: c in scr.lit <==> c in old(scr.lit) && !(c.x == h && 0 <= c.y < w)
      {
        scr.DrawBlock(h, w, false);
        pit[h, w] := false;
        w := w + 1;
      }
    }

    /** Empties the pit, the counts and the screen, and lays the floor. */
    method Clear()
      requires Sized()
      modifies `rows, pit, pitcnt, scr
      ensures Valid() && rows == EmptyPit() && Counted()
      ensures forall c :: c in scr.lit <==> c in old(scr.lit) && !InGrid(c)
    {
      var h := 0;
      while h < PITDEPTH
        invariant 0 <= h <= PITDEPTH
        invariant forall i, j :: 0 <= i < h && 0 <= j < PITWIDTH ==> !pit[i, j]
        invariant forall i :: 0 <= i < h ==> pitcnt[i] == 0
        invariant forall c :: c in scr.lit <==> c in old(scr.lit) && !(InGrid(c) && c.x < h)
      {
        ClearRow(h);
        pitcnt[h] := 0;
        h := h + 1;
      }
      LayFloor();
    }

    method LayFloor()
      requires Sized()
      requires forall i, j :: 0 <= i < PITDEPTH && 0 <= j < PITWIDTH ==> !pit[i, j]
      requires forall i :: 0 <= i < PITDEPTH ==> pitcnt[i] == 0
      modifies `rows, pit
      ensures Valid() && rows == EmptyPit() && Counted()
    {
      forall w | 0 <= w < PITWIDTH {
        pit[PITDEPTH, w] := true;
      }
      hide EmptyPit;
      rows := EmptyPit();
      EmptyPitCells();
    }

    method SetCell(c: Coord)
      requires Valid() && InGrid(c) && IsPit(rows)
      modifies `rows, pit
      ensures Valid() && rows == Put(old(rows), c)
    {
      pit[c.x, c.y] := true;
      rows := Put(rows, c);
    }

    /** Moves rows 0..h-1 one down, over row h, and empties the top row. */
    method ShiftGrid(h: int)
      requires Sized() && 0 < h < PITDEPTH
      modifies pit
      ensures forall i, j :: 0 <= i <= PITDEPTH && 0 <= j < PITWIDTH ==>
                pit[i, j] == if i == 0 then false else if i <= h then old(pit[i-1, j]) else old(pit[i, j])
    {
      forall r, w | 1 <= r <= h && 0 <= w < PITWIDTH {
        pit[r, w] := pit[r-1, w];
      }
      forall w | 0 <= w < PITWIDTH {
        pit[0, w] := false;
      }
    }

    method ShiftCounts(h: int)
      requires Sized() && 0 < h < PITDEPTH
      modifies pitcnt
      ensures forall i :: 0 <= i < PITDEPTH ==>
                pitcnt[i] == if i == 0 then 0 else if i <= h then old(pitcnt[i-1]) else old(pitcnt[i])
    {
      forall r | 1 <= r <= h {
        pitcnt[r] := pitcnt[r-1];
      }
      pitcnt[0] := 0;
    }

    /** Removes row h from the grid and the counts. */
    method ShiftDown(h: int)
      requires Valid() && Counted() && 0 < h < PITDEPTH
      modifies `rows, pit, pitcnt
      ensures Valid() && Counted() && rows == Removed(old(rows), h)
    {
      ghost var p := rows;
      ShiftGrid(h);
      ShiftCounts(h);
      rows := Removed(p, h);
      RemovedAt(p, h, 0);
      EmptyNotFull();
      forall i | 0 <= i <= PITDEPTH ensures |rows[i]| == PITWIDTH {
        RemovedAt(p, h, i);
      }
      forall i, j | 0 <= i <= PITDEPTH && 0 <= j < PITWIDTH ensures rows[i][j] == pit[i, j] {
        RemovedAt(p, h, i);
      }
      forall i | 0 <= i < PITDEPTH ensures pitcnt[i] == Count(rows[i]) {
        RemovedAt(p, h, i);
      }
    }

    // -------------------------------------------------------------- a piece has landed

    /** Enters one free cell into the grid and the counts, and tells whether that fills its row. */
    method PlaceCell(c: Coord) returns (full: bool)
      requires Valid() && IsPit(rows) && Counted() && InGrid(c) && !Hits(rows, c)
      modifies `rows, pit, pitcnt
      ensures Valid()
      ensures rows == Put(old(rows), c) && Counted()
      ensures Fulls(rows[0..PITDEPTH]) == old(Fulls(rows[0..PITDEPTH])) + if full then 1 else 0
    {
      PutFulls(rows, c);
      SetCell(c);
      pitcnt[c.x] := pitcnt[c.x] + 1;
      full := pitcnt[c.x] == PITWIDTH;
    }

    /** Enters the cells; stops at the first one that is not below the top row. */
    method Place(c: array<Coord>, ghost s: seq<Coord>, ghost p: seq<Row>) returns (over: bool, nfull: nat)
      requires Valid() && Holds(c, s) && p == rows && IsPit(p) && Counted() && Distinct(s)
      requires Fulls(p[0..PITDEPTH]) == 0
      requires FreeIn(p, s)
      modifies `rows, pit, pitcnt
      ensures Valid()
      ensures over <==> !BelowTop(s)
      ensures !over ==> InGridAll(s) && rows == PutAll(p, s) && Counted() && nfull == Fulls(rows[0..PITDEPTH])
    {
      nfull := 0;
      ghost var q := p;
      var i := 0;
      while c[i].x != FIN
        invariant 0 <= i <= |s|
        invariant InGridAll(s[..i]) && BelowTop(s[..i])
        invariant Valid() && rows == q && IsPit(q) && Counted() && q == PutAll(p, s[..i])
        invariant nfull == Fulls(q[0..PITDEPTH])
        decreases |s| - i
      {
        HoldsAt(c, s, i);
        if c[i].x <= 0 {
          return true, nfull;
        }
        PutAllNext(p, s, i);
        var full := PlaceCell(c[i]);
        if full {
          nfull := nfull + 1;
        }
        q := Put(q, s[i]);
        i := i + 1;
      }
      over := false;
      HoldsAt(c, s, i);
      assert s[..i] == s;
    }

    /** Darkens what row h shows. */
    method DarkenRow(h: int, ghost lit: set<Coord>, ghost mark: nat)
      requires Valid() && 0 <= h < PITDEPTH
      requires ShowsRow(scr.lit, h, rows[h]) && ShowsRow(lit, h, rows[h])
      requires Sparing(lit, scr.log, mark, Coord(h, 0))
      modifies scr
      ensures ShowsRow(scr.lit, h, EMPTY)
      ensures OnlyRow(h, old(scr.lit), scr.lit)
      ensures Sparing(lit, scr.log, mark, Coord(h + 1, 0))
    {
      var w := 0;
      while w < PITWIDTH
        invariant 0 <= w <= PITWIDTH
        invariant forall j :: 0 <= j < PITWIDTH ==> (Coord(h, j) in scr.lit <==> j >= w && pit[h, j])
        invariant OnlyRow(h, old(scr.lit), scr.lit)
        invariant Sparing(lit, scr.log, mark, Coord(h, w))
      {
        if pit[h, w] {
          SparingDraw(lit, scr.log, mark, h, w, false);
          scr.DrawBlock(h, w, false);
        } else {
          SparingOn(lit, scr.log, mark, Coord(h, w), Coord(h, w + 1));
        }
        w := w + 1;
      }
      SparingOn(lit, scr.log, mark, Coord(h, w), Coord(h + 1, 0));
    }

    /** Makes row h show what row g of the grid holds, touching only the columns where they differ. */
    method CopyRow(h: int, g: int, ghost lit: set<Coord>, ghost mark: nat)
      requires Valid() && 0 <= h < PITDEPTH && 0 <= g < PITDEPTH
      requires ShowsRow(scr.lit, h, rows[h]) && ShowsRow(lit, h, rows[h])
      requires Sparing(lit, scr.log, mark, Coord(h, 0))
      modifies scr
      ensures ShowsRow(scr.lit, h, rows[g])
      ensures OnlyRow(h, old(scr.lit), scr.lit)
      ensures Sparing(lit, scr.log, mark, Coord(h + 1, 0))
    {
      var w := 0;
      while w < PITWIDTH
        invariant 0 <= w <= PITWIDTH
        invariant forall j :: 0 <= j < PITWIDTH ==> (Coord(h, j) in scr.lit <==> if j < w then pit[g, j] else pit[h, j])
        invariant OnlyRow(h, old(scr.lit), scr.lit)
        invariant Sparing(lit, scr.log, mark, Coord(h, w))
      {
        if pit[h, w] != pit[g, w] {
          SparingDraw(lit, scr.log, mark, h, w, pit[g, w]);
          scr.DrawBlock(h, w, pit[g, w]);
        } else {
          SparingOn(lit, scr.log, mark, Coord(h, w), Coord(h, w + 1));
        }
        w := w + 1;
      }
      SparingOn(lit, scr.log, mark, Coord(h, w), Coord(h + 1, 0));
    }

    /** Shows the compacted pit before the grid itself is compacted; every drawing call changes a cell, and none twice. */
    method Redraw(nfull: nat)
      requires Valid() && Counted() && IsPit(rows)
      requires nfull == Fulls(rows[0..PITDEPTH])
      requires scr.lit == Filled(rows)
      modifies scr
      ensures scr.lit == Filled(Compacted(rows))
      ensures Sparing(old(scr.lit), scr.log, |old(scr.log)|, Coord(PITDEPTH, 0))
    {
      ghost var p, t, lit, mark := rows, Compacted(rows), scr.lit, |scr.log|;
      ShowsPit(lit, p);
      CompactedTop(p);
      var h := 0;
      while h < nfull
        invariant 0 <= h <= nfull
        invariant Halfway(scr.lit, h, t, p)
        invariant Sparing(lit, scr.log, mark, Coord(h, 0))
      {
        ghost var before := scr.lit;
        DarkenRow(h, lit, mark);
        HalfwayStep(before, scr.lit, h, t, p);
        h := h + 1;
      }
      RedrawMoved(nfull, p, t, lit, mark);
      ShowsPit(scr.lit, t);
    }

    /** Row h takes over row g of the grid, which is its row in the compacted pit t. */
    method RedrawRow(h: int, g: int, ghost p: seq<Row>, ghost t: seq<Row>, ghost lit: set<Coord>, ghost mark: nat)
      requires Valid() && p == rows && IsPit(p) && IsPit(t) && lit == Filled(p)
      requires 0 <= g <= h < PITDEPTH && t[h] == p[g]
      requires Halfway(scr.lit, h, t, p) && Sparing(lit, scr.log, mark, Coord(h, 0))
      modifies scr
      ensures Halfway(scr.lit, h + 1, t, p) && Sparing(lit, scr.log, mark, Coord(h + 1, 0))
    {
      hide Sparing, Filled;
      ShowsPit(lit, p);
      ghost var before := scr.lit;
      CopyRow(h, g, lit, mark);
      HalfwayStep(before, scr.lit, h, t, p);
    }

    /** The second half of the redraw: row h takes over row h - k, for k full rows still ahead. */
    method RedrawMoved(nfull: nat, ghost p: seq<Row>, ghost t: seq<Row>, ghost lit: set<Coord>, ghost mark: nat)
      requires Valid() && Counted() && IsPit(rows)
      requires p == rows && t == Compacted(p) && lit == Filled(p)
      requires nfull == Fulls(p[0..PITDEPTH]) <= PITDEPTH
      requires Halfway(scr.lit, nfull, t, p) && Sparing(lit, scr.log, mark, Coord(nfull, 0))
      modifies scr
      ensures Halfway(scr.lit, PITDEPTH, t, p) && Sparing(lit, scr.log, mark, Coord(PITDEPTH, 0))
    {
      hide Sparing, Filled, Fulls, Halfway, Compacted, Full;
      var h, k := nfull, nfull;
      ghost var s := 0;
      while h < PITDEPTH && k > 0
        invariant 0 <= k && s == h - k && 0 <= s && h <= PITDEPTH
        invariant k == Fulls(p[s..PITDEPTH])
        invariant Halfway(scr.lit, h, t, p) && Sparing(lit, scr.log, mark, Coord(h, 0))
        decreases PITDEPTH - h + k
      {
        FullsTail(p, s);
        CountFull(p[s]);
        if pitcnt[h-k] == PITWIDTH {
          k := k - 1;
        } else {
          CompactedRow(p, s, k);
          RedrawRow(h, h - k, p, t, lit, mark);
          h := h + 1;
        }
        s := s + 1;
      }
      if h < PITDEPTH {
        CompactedBelow(p, h);
      }
      HalfwayDone(scr.lit, h, t, p);
      SparingOn(lit, scr.log, mark, Coord(h, 0), Coord(PITDEPTH, 0));
    }

    /** Takes the full row h out of the grid and the counts. */
    method RemoveRow(h: int)
      requires Valid() && Counted() && IsPit(rows) && 0 < h < PITDEPTH && Full(rows[h])
      modifies `rows, pit, pitcnt
      ensures Valid()
      ensures Counted() && IsPit(rows) && rows[0] == EMPTY
      ensures Compacted(rows) == Compacted(old(rows))
      ensures Fulls(rows[..PITDEPTH]) == Fulls(old(rows)[..PITDEPTH]) - 1
      ensures forall r :: h < r < PITDEPTH ==> rows[r] == old(rows)[r]
    {
      ghost var p := rows;
      RemoveFullRow(p, h);
      ShiftDown(h);
      RemovedAt(p, h, 0);
      forall r | h < r < PITDEPTH ensures rows[r] == p[r] {
        RemovedAt(p, h, r);
      }
    }

    /** Removes the full rows from the grid, from the bottom up. */
    method RemoveFullRows()
      requires Valid() && Counted() && IsPit(rows) && rows[0] == EMPTY
      modifies `rows, pit, pitcnt
      ensures Valid()
      ensures rows == Compacted(old(rows)) && Counted()
    {
      ghost var p := rows;
      var h := PITDEPTH - 1;
      while h > 0
        invariant 0 <= h < PITDEPTH
        invariant Valid() && rows == p && IsPit(p) && p[0] == EMPTY && Counted()
        invariant NoFullBelow(p, h)
        invariant Compacted(p) == Compacted(old(rows))
        decreases Fulls(p[..PITDEPTH]), h
      {
        CountFull(p[h]);
        if pitcnt[h] != PITWIDTH {
          NoFullUp(p, h);
          h := h - 1;
        } else {
          RemoveRow(h);
          NoFullKept(p, rows, h);
          p := rows;
        }
      }
      CompactedDone(p);
    }

    /** The piece in c has come to rest. */
    method Stopped(c: array<Coord>, ghost s: seq<Coord>)
      requires Valid() && Holds(c, s) && Settled(rows) && Counted() && Distinct(s)
      requires FreeIn(rows, s)
      requires scr.lit == Filled(rows) + Visible(s)
      modifies `rows, pit, pitcnt, scr
      ensures Valid()
      ensures Counted() && IsPit(rows) && scr.lit == Filled(rows)
      ensures BelowTop(s) ==> InGridAll(s) && rows == Compacted(PutAll(old(rows), s))
      ensures !BelowTop(s) ==> rows == EmptyPit()
      ensures BelowTop(s) ==> Sparing(old(scr.lit), scr.log, |old(scr.log)|, Coord(PITDEPTH, 0))
    {
      ghost var p := rows;
      NoFulls(p[0..PITDEPTH]);
      var over, nfull := Place(c, s, p);
      if over {
        Clear();
        FilledEmpty();
        return;
      }
      FilledPutAll(p, s);
      if nfull == 0 {
        NoneFull(rows);
        CompactedSame(rows);
        return;
      }
      PutAllTop(p, s);
      Redraw(nfull);
      RemoveFullRows();
    }
  }
}
