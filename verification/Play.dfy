/** The running game: arrays, counters and screen changed in place, refining the state machine of Games. */
module Play {
  import opened Cells
  import opened Pieces
  import opened Pits
  import opened Screens
  import opened Wells
  import opened Games
  import opened Rules

  /** Redrawing the difference takes a screen that shows the pit and the piece to one that shows the piece moved. */
  lemma RepaintPiece(s: State, c: Coord, angle: int)
    requires Inv(s) && 0 <= angle < 4
    ensures var o, n := Piece(s), CellsOf(s.ptype, angle, c);
            Paint(Filled(s.rows) + Visible(o), MoveOps(o, n)) == Filled(s.rows) + Visible(n)
  {
    PieceFacts(s.ptype, s.angle, s.c);
    PieceFacts(s.ptype, angle, c);
    PieceOffPit(s.rows, Piece(s));
    MoveRedraws(Filled(s.rows), Piece(s), CellsOf(s.ptype, angle, c));
  }

  class Game {
    const well: Well
    const old_: array<Coord>
    const new_: array<Coord>
    const chk: array<Coord>
    var ptype: int
    var angle: int
    var c: Coord
    var msec: int
    var up: nat
    var left: nat
    var right: nat
    var down: nat

    ghost predicate Valid()
      reads well, well.pit
    {
      && well.Valid()
      && old_.Length == new_.Length == chk.Length == NBLOCKS
      && old_ != new_ && old_ != chk && new_ != chk
    }

    /** The values the state machine speaks about. */
    ghost function Abs(): State
      requires Valid()
      reads this, well, well.pit
    {
      State(well.rows, ptype, angle, c, msec, up, left, right, down)
    }

    /** The redundant data agree with the state: counts, the list of the piece's cells, and the screen,
        which shows exactly the pit and the visible part of the piece. */
    ghost predicate Coupled()
      requires Valid()
      reads `ptype, `angle, `c, well, well.pit, well.pitcnt, well.scr, new_
    {
      && KnownPiece(ptype, angle) && 0 <= c.y < PITWIDTH
      && Fits(well.rows, ptype, angle, c)
      && well.Counted()
      && Holds(new_, CellsOf(ptype, angle, c))
      && well.scr.lit == Filled(well.rows) + Visible(CellsOf(ptype, angle, c))
    }

    /** Starts with an empty pit and a first piece. */
    constructor (first: Input)
      ensures Valid() && Coupled() && Abs() == Start(first)
      ensures fresh(well) && fresh(well.pit) && fresh(well.pitcnt) && fresh(well.scr)
      ensures fresh(old_) && fresh(new_) && fresh(chk)
    {
      well := new Well();
      old_ := new Coord[NBLOCKS](_ => END);
      new_ := new Coord[NBLOCKS](_ => END);
      chk := new Coord[NBLOCKS](_ => END);
      ptype, angle, c, msec := 0, 0, Coord(0, 0), 0;
      up, left, right, down := 0, 0, 0, 0;
      new;
      FilledEmpty();
      NewPiece(first);
    }

    /** Whether some visible cell of the list is occupied. */
    method Probe(list: array<Coord>, ghost s: seq<Coord>) returns (hit: bool)
      requires Valid() && Holds(list, s) && IsPit(well.rows) && Probeable(s)
      ensures hit <==> Blocked(well.rows, s)
    {
      var i := 0;
      while list[i].x != FIN
        invariant 0 <= i <= |s|
        invariant forall k :: 0 <= k < i && s[k].x >= 0 ==> !Hits(well.rows, s[k])
        decreases |s| - i
      {
        HoldsAt(list, s, i);
        if list[i].x >= 0 && well.pit[list[i].x, list[i].y] {
          assert Hits(well.rows, s[i]);
          return true;
        }
        i := i + 1;
      }
      HoldsAt(list, s, i);
      hit := false;
    }

    method WithinColumns(list: array<Coord>, ghost s: seq<Coord>) returns (ok: bool)
      requires Holds(list, s)
      ensures ok <==> InColumns(s)
    {
      var i := 0;
      while list[i].x != FIN
        invariant 0 <= i <= |s|
        invariant forall k :: 0 <= k < i ==> 0 <= s[k].y < PITWIDTH
        decreases |s| - i
      {
        HoldsAt(list, s, i);
        if list[i].y < 0 || list[i].y >= PITWIDTH {
          return false;
        }
        i := i + 1;
      }
      HoldsAt(list, s, i);
      ok := true;
    }

    method CopyList(from: array<Coord>, to: array<Coord>, ghost s: seq<Coord>)
      requires from != to && from.Length == to.Length && Holds(from, s)
      modifies to
      ensures Holds(to, s)
    {
      forall i | 0 <= i < to.Length {
        to[i] := from[i];
      }
      assert to[..] == from[..];
    }

    /** Puts the cells of the current piece for centre cnew and angle anew into list. */
    method Translate(cnew: Coord, anew: int, list: array<Coord>)
      requires KnownPiece(ptype, anew) && list.Length == NBLOCKS
      requires NoFin(CellsOf(ptype, anew, cnew))
      modifies list
      ensures Holds(list, CellsOf(ptype, anew, cnew))
    {
      ShapeTable(ptype);
      Pieces.Translate(SHAPES[ptype], cnew, anew, list);
    }

    // -------------------------------------------------------------- a new piece

    method AnyVisible(list: array<Coord>, ghost s: seq<Coord>) returns (shown: bool)
      requires Holds(list, s)
      ensures shown <==> exists q :: q in s && q.x >= 0
    {
      var i := 0;
      while list[i].x != FIN
        invariant 0 <= i <= |s|
        invariant forall k :: 0 <= k < i ==> s[k].x < 0
        decreases |s| - i
      {
        HoldsAt(list, s, i);
        if list[i].x >= 0 {
          assert s[i] in s;
          return true;
        }
        i := i + 1;
      }
      HoldsAt(list, s, i);
      shown := false;
    }

    method DrawList(list: array<Coord>, ghost s: seq<Coord>)
      requires Holds(list, s)
      modifies well.scr
      ensures well.scr.lit == old(well.scr.lit) + Visible(s)
    {
      var i := 0;
      while list[i].x != FIN
        invariant 0 <= i <= |s|
        invariant well.scr.lit == old(well.scr.lit) + Visible(s[..i])
        decreases |s| - i
      {
        HoldsAt(list, s, i);
        DrawVisible(well.scr, list[i], true);
        assert s[..i+1] == s[..i] + [s[i]];
        i := i + 1;
      }
      HoldsAt(list, s, i);
      assert s[..i] == s;
    }

    /** Lowers the centre from above the pit until the piece first shows. */
    method FindSpawnRow()
      requires Valid() && KnownPiece(ptype, angle)
      modifies this`c, new_
      ensures c == Coord(SpawnRow(ptype, angle), PITWIDTH / 2 - 1)
      ensures Holds(new_, CellsOf(ptype, angle, c))
    {
      c := Coord(START_X, PITWIDTH / 2 - 1);
      ShapeTable(ptype);
      while true
        invariant c.y == PITWIDTH / 2 - 1
        invariant START_X <= c.x <= SpawnRow(ptype, angle)
        decreases SpawnRow(ptype, angle) - c.x
      {
        SpawnProbe(ptype, angle, c);
        Translate(c, angle, new_);
        var shown := AnyVisible(new_, CellsOf(ptype, angle, c));
        if shown {
          break;
        }
        c := c.(x := c.x + 1);
      }
    }

    method ChoosePiece(i: Input)
      requires Valid() && Settled(well.rows)
      modifies `ptype, `angle, `c, `msec, new_
      ensures Abs() == Spawned(old(Abs()), i)
      ensures Inv(Abs()) && Holds(new_, Piece(Abs()))
    {
      SpawnedKeepsInv(Abs(), i);
      ptype := i.rnd0 % NSHAPES;
      angle := i.rnd1 % 3;
      msec := PERIOD;
      FindSpawnRow();
    }

    method ShowPiece()
      requires Valid() && Inv(Abs()) && well.Counted() && Holds(new_, Piece(Abs()))
      requires well.scr.lit == Filled(well.rows)
      modifies old_, well.scr
      ensures Coupled()
    {
      DrawList(new_, Piece(Abs()));
      CopyList(new_, old_, Piece(Abs()));
    }

    /** Chooses, places and draws the next piece. */
    method NewPiece(i: Input)
      requires Valid() && Settled(well.rows) && well.Counted()
      requires well.scr.lit == Filled(well.rows)
      modifies `ptype, `angle, `c, `msec, old_, new_, well.scr
      ensures Coupled() && Abs() == Spawned(old(Abs()), i)
    {
      ChoosePiece(i);
      ShowPiece();
    }

    // -------------------------------------------------------------- moving the piece

    /** Makes chk the current list and redraws the difference. */
    method Advance(ghost o: seq<Coord>, ghost n: seq<Coord>)
      requires Valid() && Holds(new_, o) && Holds(chk, n)
      modifies old_, new_, well.scr
      ensures Holds(new_, n)
      ensures well.scr.lit == Paint(old(well.scr.lit), MoveOps(o, n))
    {
      CopyList(new_, old_, o);
      CopyList(chk, new_, n);
      Move(well.scr, old_, new_, o, n);
    }

    /** Takes over the position in chk and redraws the piece there. */
    method Commit(cnew: Coord, anew: int, ghost s: State)
      requires Valid() && Coupled() && s == Abs() && 0 <= anew < 4
      requires Holds(chk, CellsOf(ptype, anew, cnew))
      requires Inv(s.(c := cnew, angle := anew))
      modifies `c, `angle, old_, new_, well.scr
      ensures Coupled() && Abs() == s.(c := cnew, angle := anew)
    {
      RepaintPiece(s, cnew, anew);
      Advance(Piece(s), CellsOf(ptype, anew, cnew));
      c := cnew;
      angle := anew;
    }

    /** The common tail of all moves: look at the position in chk, and take it if nothing is in the way. */
    method Check(cnew: Coord, anew: int)
      requires Valid() && Coupled() && 0 <= anew < 4 && 0 <= cnew.y < PITWIDTH
      requires cnew.x == c.x || (cnew.x == c.x + 1 && anew == angle)
      requires Holds(chk, CellsOf(ptype, anew, cnew))
      modifies `c, `angle, old_, new_, well.scr
      ensures Coupled() && Abs() == Tried(old(Abs()), cnew, anew)
    {
      ghost var n := CellsOf(ptype, anew, cnew);
      var ok := WithinColumns(chk, n);
      if ok {
        ProbesInPit(Abs(), cnew, anew);
        var hit := Probe(chk, n);
        if !hit {
          TriedKeepsInv(Abs(), cnew, anew);
          Commit(cnew, anew, Abs());
        }
      }
    }

    /** Computes the position for cnew and anew, and goes there if possible. */
    method Attempt(cnew: Coord, anew: int)
      requires Valid() && Coupled() && 0 <= anew < 4 && 0 <= cnew.y < PITWIDTH
      requires cnew.x == c.x
      modifies `c, `angle, old_, new_, chk, well.scr
      ensures Coupled() && Abs() == Tried(old(Abs()), cnew, anew)
    {
      ProbesInPit(Abs(), cnew, anew);
      Translate(cnew, anew, chk);
      Check(cnew, anew);
    }

    // -------------------------------------------------------------- landing

    /** The piece of state t, whose cells are in list, joins the pit. */
    method Settle(list: array<Coord>, ghost t: State)
      requires Valid() && Inv(t) && well.rows == t.rows && well.Counted()
      requires Holds(list, Piece(t))
      requires well.scr.lit == Filled(t.rows) + Visible(Piece(t))
      modifies well`rows, well.pit, well.pitcnt, well.scr
      ensures Valid() && well.rows == LandedRows(t) && well.Counted()
      ensures well.scr.lit == Filled(well.rows)
    {
      PieceFacts(t.ptype, t.angle, t.c);
      well.Stopped(list, Piece(t));
    }

    /** The piece of state t has stopped; the next one starts. */
    method Land(list: array<Coord>, ghost t: State, i: Input)
      requires Valid() && Inv(t) && Abs() == t.(c := c) && well.Counted()
      requires Holds(list, Piece(t))
      requires well.scr.lit == Filled(t.rows) + Visible(Piece(t))
      modifies `ptype, `angle, `c, `msec, old_, new_, well`rows, well.pit, well.pitcnt, well.scr
      ensures Valid() && Coupled() && Abs() == Landed(t, i)
    {
      Settle(list, t);
      NewPiece(i);
    }

    /** Moves the list chk one row below the piece's position and tells whether something is in the way. */
    method LookBelow(ghost s: State, cnew: Coord) returns (hit: bool)
      requires Valid() && Inv(s) && s.rows == well.rows && s.ptype == ptype && s.angle == angle
      requires cnew == Below(s.c)
      modifies chk
      ensures hit == Resting(s)
      ensures Holds(chk, CellsOf(ptype, angle, cnew))
    {
      ProbesInPit(s, cnew, angle);
      Translate(cnew, angle, chk);
      hit := Probe(chk, CellsOf(ptype, angle, cnew));
    }

    /** Time is up: one row down, or the piece stops. */
    method Timeout(i: Input)
      requires Valid() && Coupled()
      modifies `ptype, `angle, `c, `msec, old_, new_, chk, well`rows, well.pit, well.pitcnt, well.scr
      ensures Valid() && Coupled() && Abs() == TimedOut(old(Abs()), i)
    {
      hide Fits, CellsOf, Filled, Visible, Holds;
      msec := PERIOD;
      var cnew := c.(x := c.x + 1);
      var hit := LookBelow(Abs(), cnew);
      if hit {
        Land(new_, Abs(), i);
      } else {
        Check(cnew, angle);
      }
    }

    /** Looks further and further below the piece until something is in the way. */
    method FindRest(ghost s: State) returns (cnew: Coord)
      requires Valid() && Inv(s) && s == Abs()
      modifies chk
      ensures cnew == Dropped(s).c
    {
      ghost var t := s;
      cnew := c;
      while true
        invariant Inv(t) && t == s.(c := cnew) && Dropped(t) == Dropped(s)
        decreases PITDEPTH - cnew.x
      {
        LowEnough(t);
        cnew := cnew.(x := cnew.x + 1);
        var hit := LookBelow(t, cnew);
        if hit {
          cnew := cnew.(x := cnew.x - 1);
          break;
        }
        FallKeepsInv(t);
        t := t.(c := cnew);
      }
    }

    /** Straight down until something is in the way, then the piece stops. */
    method Drop(i: Input)
      requires Valid() && Coupled()
      modifies `ptype, `angle, `c, `msec, old_, new_, chk, well`rows, well.pit, well.pitcnt, well.scr
      ensures Valid() && Coupled() && Abs() == Landed(Dropped(old(Abs())), i)
    {
      ghost var s, t := Abs(), Dropped(Abs());
      var cnew := FindRest(s);
      ProbesInPit(t, cnew, angle);
      Translate(cnew, angle, chk);
      RepaintPiece(s, cnew, angle);
      Move(well.scr, new_, chk, Piece(s), Piece(t));
      Land(chk, t, i);
    }

    // -------------------------------------------------------------- the main loop

    method OnUp()
      requires Valid() && Coupled() && up > 0
      modifies `up, `c, `angle, old_, new_, chk, well.scr
      ensures Coupled() && Abs() == KeyUp(old(Abs()))
    {
      hide Fits, CellsOf, Filled, Visible, Holds;
      up := up - 1;
      var anew := angle - 1;
      if anew < 0 {
        anew := 3;
      }
      Attempt(c, anew);
    }

    method OnLeft()
      requires Valid() && Coupled() && left > 0
      modifies `left, `c, `angle, old_, new_, chk, well.scr
      ensures Coupled() && Abs() == KeyLeft(old(Abs()))
    {
      hide Fits, CellsOf, Filled, Visible, Holds;
      left := left - 1;
      if c.y > 0 {
        Attempt(c.(y := c.y - 1), angle);
      }
    }

    method OnRight()
      requires Valid() && Coupled() && right > 0
      modifies `right, `c, `angle, old_, new_, chk, well.scr
      ensures Coupled() && Abs() == KeyRight(old(Abs()))
    {
      hide Fits, CellsOf, Filled, Visible, Holds;
      right := right - 1;
      if c.y < PITWIDTH - 1 {
        Attempt(c.(y := c.y + 1), angle);
      }
    }

    method OnDown(i: Input)
      requires Valid() && Coupled() && down > 0
      modifies this, old_, new_, chk, well`rows, well.pit, well.pitcnt, well.scr
      ensures Valid() && Coupled() && Abs() == KeyDown(old(Abs()), i)
    {
      hide Landed, Dropped, Fits, CellsOf, Filled, Visible, Holds;
      down := down - 1;
      Drop(i);
    }

    /** Serves at most one waiting key, or lets time pass. */
    method ServeKey(i: Input)
      requires Valid() && Coupled()
      modifies this, old_, new_, chk, well`rows, well.pit, well.pitcnt, well.scr
      ensures Valid() && Coupled() && Abs() == Served(old(Abs()), i)
    {
      hide Fits, CellsOf, Filled, Visible, Holds;
      if up > 0 {
        OnUp();
      } else if left > 0 {
        OnLeft();
      } else if right > 0 {
        OnRight();
      } else if down > 0 {
        OnDown(i);
      } else {
        msec := msec - TICK;
      }
    }

    method AddKeys(i: Input)
      requires Valid() && Coupled()
      modifies `up, `left, `right, `down
      ensures Coupled() && Abs() == WithKeys(old(Abs()), i)
    {
      hide Fits, CellsOf, Filled, Visible, Holds;
      up := up + i.up;
      left := left + i.left;
      right := right + i.right;
      down := down + i.down;
    }

    /** One turn of the inner loop. */
    method Turn(i: Input)
      requires Valid() && Coupled()
      modifies this, old_, new_, chk, well`rows, well.pit, well.pitcnt, well.scr
      ensures Valid() && Coupled() && Abs() == Step(old(Abs()), i)
    {
      hide Fits, CellsOf, Filled, Visible, Holds;
      AddKeys(i);
      if msec <= 0 {
        Timeout(i);
      } else {
        ServeKey(i);
      }
    }

    /** Any number of turns. */
    method Turns(ghost first: Input, turns: seq<Input>)
      requires Valid() && Coupled() && Abs() == Run(first, [])
      modifies this, old_, new_, chk, well`rows, well.pit, well.pitcnt, well.scr
      ensures Valid() && Coupled() && Abs() == Run(first, turns)
    {
      hide Fits, CellsOf, Filled, Visible, Holds;
      var n := 0;
      while n < |turns|
        invariant 0 <= n <= |turns|
        invariant Valid() && Coupled() && Abs() == Run(first, turns[..n])
      {
        RunNext(first, turns, n);
        Turn(turns[n]);
        n := n + 1;
      }
      assert turns[..n] == turns;
    }
  }

  /** Memory shows the state s: the grid is its pit, each count is the number of occupied columns of its row, and a cell
      of the screen is lit just when the pit or the piece has it. */
  ghost predicate Displays(g: Game, s: State)
    requires g.well.Sized() && WellTyped(s)
    reads g.well.pit, g.well.pitcnt, g.well.scr
  {
    && (forall h, w :: 0 <= h <= PITDEPTH && 0 <= w < PITWIDTH ==> g.well.pit[h, w] == s.rows[h][w])
    && (forall h :: 0 <= h < PITDEPTH ==> g.well.pitcnt[h] == |set w | 0 <= w < PITWIDTH && s.rows[h][w]|)
    && (forall h, w :: Coord(h, w) in g.well.scr.lit <==>
          && 0 <= h < PITDEPTH && 0 <= w < PITWIDTH
          && (s.rows[h][w] || Coord(h, w) in Spot(s.ptype, s.angle, s.c)))
  }

  lemma CoupledDisplays(g: Game)
    requires g.Valid() && g.Coupled()
    ensures Displays(g, g.Abs())
  {
    var s := g.Abs();
    SpotIsPiece(s.ptype, s.angle, s.c);
    hide CellsOf, Spot, Count;
    forall h | 0 <= h < PITDEPTH ensures g.well.pitcnt[h] == |set w | 0 <= w < PITWIDTH && s.rows[h][w]| {
      CountCells(s.rows[h]);
    }
    forall c: Coord | c in Piece(s) && c.x >= 0 ensures InGrid(c) {
      var k :| 0 <= k < |Piece(s)| && Piece(s)[k] == c;
    }
  }

  /** The game from the first piece on, for any number of turns: whatever the keys, the clock and the random numbers do,
      the grid, the counts and the screen agree with the state machine. */
  method WindowLoop(first: Input, turns: seq<Input>) returns (g: Game)
    ensures g.Valid() && g.Coupled() && g.Abs() == Run(first, turns)
    ensures Displays(g, Run(first, turns))
  {
    g := new Game(first);
    g.Turns(first, turns);
    CoupledDisplays(g);
  }
}
