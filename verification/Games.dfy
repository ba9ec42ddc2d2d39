/** The game as a state machine: what one turn of the main loop does to the pit and the falling piece. */
module Games {
  import opened Cells
  import opened Lists
  import opened Pieces
  import opened Pits

  /** What the main loop keeps between turns; k* count key presses not yet served. */
  datatype State = State(rows: seq<Row>, ptype: int, angle: int, c: Coord, msec: int,
                         up: nat, left: nat, right: nat, down: nat)

  /** Everything from outside during one turn: keys that arrive, and the random numbers for a next piece. */
  datatype Input = Input(up: nat, left: nat, right: nat, down: nat, rnd0: nat, rnd1: nat)

  const START_X := -2
  const PERIOD := 500
  const TICK := 10

  predicate KnownPiece(ptype: int, angle: int) {
    0 <= ptype < NSHAPES && 0 <= angle < 4
  }

  /** The cells of piece ptype, turned by angle, with centre c. */
  function CellsOf(ptype: int, angle: int, c: Coord): (s: seq<Coord>)
    requires KnownPiece(ptype, angle)
  {
    ShapeTable(ptype);
    Translated(SHAPES[ptype], c, angle)
  }

  function Bottom(ptype: int, angle: int, c: Coord): int
    requires KnownPiece(ptype, angle)
  {
    ShapeTable(ptype);
    BottomRow(SHAPES[ptype], c, angle)
  }

  predicate WellTyped(s: State) {
    IsPit(s.rows) && KnownPiece(s.ptype, s.angle)
  }

  function Piece(s: State): seq<Coord>
    requires WellTyped(s)
  {
    CellsOf(s.ptype, s.angle, s.c)
  }

  /** The pit is settled and the piece at centre c lies free in it. */
  predicate Fits(rows: seq<Row>, ptype: int, angle: int, c: Coord) {
    && Settled(rows)
    && KnownPiece(ptype, angle)
    && 0 <= c.y < PITWIDTH
    && START_X <= c.x
    && FreeIn(rows, CellsOf(ptype, angle, c))
  }

  /** What holds at the head of the inner loop in every reachable state. */
  predicate Inv(s: State) {
    Fits(s.rows, s.ptype, s.angle, s.c)
  }

  /** Some visible cell of the list is occupied. */
  predicate Blocked(p: seq<Row>, s: seq<Coord>)
    requires IsPit(p)
  {
    exists i :: 0 <= i < |s| && s[i].x >= 0 && Hits(p, s[i])
  }

  /** Every visible cell of the list is a cell of the grid, floor included. */
  predicate Probeable(s: seq<Coord>) {
    forall i :: 0 <= i < |s| && s[i].x >= 0 ==> InPit(s[i])
  }

  predicate InColumns(s: seq<Coord>) {
    forall i :: 0 <= i < |s| ==> 0 <= s[i].y < PITWIDTH
  }

  // ---------------------------------------------------------------- one turn

  function Below(c: Coord): Coord {
    Coord(c.x + 1, c.y)
  }

  /** The centre row at which a new piece just shows its lowest row. */
  function SpawnRow(ptype: int, angle: int): int
    requires KnownPiece(ptype, angle)
  {
    -(RowExtent(SHAPES[ptype], angle) / 2)
  }

  function Spawned(s: State, i: Input): State {
    var ptype, angle := i.rnd0 % NSHAPES, i.rnd1 % 3;
    s.(ptype := ptype, angle := angle, c := Coord(SpawnRow(ptype, angle), PITWIDTH / 2 - 1), msec := PERIOD)
  }

  /** The piece comes to rest: it joins the pit and full rows go, or the game is over and the pit is emptied. */
  function LandedRows(s: State): (p: seq<Row>)
    requires Inv(s)
    ensures Settled(p)
  {
    if BelowTop(Piece(s)) then
      assert InGridAll(Piece(s));
      CompactedSettled(s.rows, Piece(s));
      Compacted(PutAll(s.rows, Piece(s)))
    else EmptyPit()
  }

  function Landed(s: State, i: Input): State
    requires Inv(s)
  {
    Spawned(s.(rows := LandedRows(s)), i)
  }

  /** Go to the new centre and angle if the piece fits there, else stay. */
  function Tried(s: State, c: Coord, angle: int): State
    requires WellTyped(s) && 0 <= angle < 4
  {
    var chk := CellsOf(s.ptype, angle, c);
    if InColumns(chk) && !Blocked(s.rows, chk) then s.(c := c, angle := angle) else s
  }

  predicate Resting(s: State)
    requires WellTyped(s)
  {
    Blocked(s.rows, CellsOf(s.ptype, s.angle, Below(s.c)))
  }

  /** The timeout branch: one row down, or the piece stops. */
  function TimedOut(s: State, i: Input): State
    requires Inv(s)
  {
    if Resting(s) then Landed(s, i) else Tried(s.(msec := PERIOD), Below(s.c), s.angle)
  }

  /** Straight down until the next row is blocked. */
  function Dropped(s: State): (r: State)
    requires Inv(s)
    ensures Inv(r) && Resting(r) && r == s.(c := r.c)
    decreases PITDEPTH - s.c.x
  {
    LowEnough(s);
    if Resting(s) then s
    else
      FallKeepsInv(s);
      Dropped(s.(c := Below(s.c)))
  }

  /** The keys that arrive before a turn are added to those waiting. */
  function WithKeys(s: State, i: Input): State {
    s.(up := s.up + i.up, left := s.left + i.left, right := s.right + i.right, down := s.down + i.down)
  }

  function AngleBefore(angle: int): int {
    if angle - 1 < 0 then 3 else angle - 1
  }

  function KeyUp(s: State): State
    requires WellTyped(s) && s.up > 0
  {
    Tried(s.(up := s.up - 1), s.c, AngleBefore(s.angle))
  }

  function KeyLeft(s: State): State
    requires WellTyped(s) && s.left > 0
  {
    var t := s.(left := s.left - 1);
    if s.c.y <= 0 then t else Tried(t, Coord(s.c.x, s.c.y - 1), s.angle)
  }

  function KeyRight(s: State): State
    requires WellTyped(s) && s.right > 0
  {
    var t := s.(right := s.right - 1);
    if s.c.y >= PITWIDTH - 1 then t else Tried(t, Coord(s.c.x, s.c.y + 1), s.angle)
  }

  function KeyDown(s: State, i: Input): State
    requires Inv(s) && s.down > 0
  {
    Landed(Dropped(s.(down := s.down - 1)), i)
  }

  /** A turn that is not a timeout serves one waiting key, or lets time pass. */
  function Served(s: State, i: Input): State
    requires Inv(s)
  {
    if s.up > 0 then KeyUp(s)
    else if s.left > 0 then KeyLeft(s)
    else if s.right > 0 then KeyRight(s)
    else if s.down > 0 then KeyDown(s, i)
    else s.(msec := s.msec - TICK)
  }

  /** One turn of the inner loop, with the spawning of the next piece when one lands. */
  function Step(s: State, i: Input): (r: State)
    requires Inv(s)
  {
    var t := WithKeys(s, i);
    if t.msec <= 0 then TimedOut(t, i) else Served(t, i)
  }

  // ---------------------------------------------------------------- the piece and the pit

  lemma PieceFacts(ptype: int, angle: int, c: Coord)
    requires KnownPiece(ptype, angle)
    ensures |CellsOf(ptype, angle, c)| == NBLOCKS - 1
    ensures StrictlySorted(CellsOf(ptype, angle, c)) && Distinct(CellsOf(ptype, angle, c))
    ensures forall q :: q in CellsOf(ptype, angle, c) ==> q.x <= Bottom(ptype, angle, c)
    ensures exists q :: q in CellsOf(ptype, angle, c) && q.x == Bottom(ptype, angle, c)
    ensures c.y <= PITWIDTH ==> InColumns(CellsOf(ptype, angle, c))
    ensures c.x <= Bottom(ptype, angle, c) <= c.x + 1
  {
    var t := SHAPES[ptype];
    ShapeTable(ptype);
    ShapeSpans(ptype);
    TranslatedSorted(t, c, angle);
    TranslatedInBox(t, c, angle);
    TranslatedBottom(t, c, angle);
  }

  /** The floor keeps the piece's lowest row above it. */
  lemma LowEnough(s: State)
    requires Inv(s)
    ensures s.c.x <= Bottom(s.ptype, s.angle, s.c) < PITDEPTH
  {
    PieceFacts(s.ptype, s.angle, s.c);
    var q :| q in Piece(s) && q.x == Bottom(s.ptype, s.angle, s.c);
    var i :| 0 <= i < |Piece(s)| && Piece(s)[i] == q;
  }

  /** Every probe of the pit stays inside it: any turn in place or sideways step, and one row down. */
  lemma ProbesInPit(s: State, c: Coord, angle: int)
    requires Inv(s) && 0 <= angle < 4 && 0 <= c.y < PITWIDTH
    requires c.x == s.c.x || (c.x == s.c.x + 1 && angle == s.angle)
    ensures Probeable(CellsOf(s.ptype, angle, c)) && InColumns(CellsOf(s.ptype, angle, c))
    ensures NoFin(CellsOf(s.ptype, angle, c))
  {
    LowEnough(s);
    PieceFacts(s.ptype, angle, c);
    var chk := CellsOf(s.ptype, angle, c);
    assert Bottom(s.ptype, angle, c) <= PITDEPTH;
    forall i | 0 <= i < |chk| ensures chk[i].x <= PITDEPTH {
      assert chk[i] in chk;
    }
  }

  lemma UnblockedIsFree(p: seq<Row>, s: seq<Coord>)
    requires IsPit(p) && Probeable(s) && !Blocked(p, s)
    ensures FreeIn(p, s)
  {
    forall i | 0 <= i < |s| && s[i].x >= 0 ensures InGrid(s[i]) && !Hits(p, s[i]) {
      assert InPit(s[i]) && !Hits(p, s[i]);
    }
  }

  lemma TriedKeepsInv(s: State, c: Coord, angle: int)
    requires Inv(s) && 0 <= angle < 4 && 0 <= c.y < PITWIDTH
    requires c.x == s.c.x || (c.x == s.c.x + 1 && angle == s.angle)
    ensures Inv(Tried(s, c, angle))
  {
    ProbesInPit(s, c, angle);
    var chk := CellsOf(s.ptype, angle, c);
    if !Blocked(s.rows, chk) {
      UnblockedIsFree(s.rows, chk);
    }
  }

  lemma FallKeepsInv(s: State)
    requires Inv(s) && !Resting(s)
    ensures Inv(s.(c := Below(s.c)))
    ensures Tried(s, Below(s.c), s.angle) == s.(c := Below(s.c))
  {
    ProbesInPit(s, Below(s.c), s.angle);
    UnblockedIsFree(s.rows, CellsOf(s.ptype, s.angle, Below(s.c)));
  }

  /** A new piece has its lowest row exactly in row 0, which is empty, so it overlaps nothing. */
  lemma SpawnedKeepsInv(s: State, i: Input)
    requires Settled(s.rows)
    ensures Inv(Spawned(s, i))
    ensures Bottom(Spawned(s, i).ptype, Spawned(s, i).angle, Spawned(s, i).c) == 0
  {
    var r := Spawned(s, i);
    PieceFacts(r.ptype, r.angle, r.c);
    ShapeTable(r.ptype);
    var cells := Piece(r);
    forall k | 0 <= k < |cells| && cells[k].x >= 0 ensures InGrid(cells[k]) && !Hits(r.rows, cells[k]) {
      assert cells[k] in cells;
      assert cells[k].x == 0;
    }
  }

  /** The piece shows just when its centre has come down to the spawning row. */
  lemma SpawnProbe(ptype: int, angle: int, c: Coord)
    requires KnownPiece(ptype, angle) && c.x <= SpawnRow(ptype, angle)
    ensures (exists q :: q in CellsOf(ptype, angle, c) && q.x >= 0) <==> c.x == SpawnRow(ptype, angle)
    ensures NoFin(CellsOf(ptype, angle, c))
  {
    PieceFacts(ptype, angle, c);
    ShapeTable(ptype);
    var s := CellsOf(ptype, angle, c);
    assert Bottom(ptype, angle, c) == c.x - SpawnRow(ptype, angle);
    forall k | 0 <= k < |s| ensures s[k].x != FIN {
      assert s[k] in s;
    }
  }

  lemma LandedKeepsInv(s: State, i: Input)
    requires Inv(s)
    ensures Inv(Landed(s, i))
  {
    SpawnedKeepsInv(s.(rows := LandedRows(s)), i);
  }

  lemma TimedOutKeepsInv(s: State, i: Input)
    requires Inv(s)
    ensures Inv(TimedOut(s, i))
  {
    if Resting(s) {
      LandedKeepsInv(s, i);
    } else {
      TriedKeepsInv(s.(msec := PERIOD), Below(s.c), s.angle);
    }
  }

  lemma KeyUpKeepsInv(s: State)
    requires Inv(s) && s.up > 0
    ensures Inv(KeyUp(s))
  {
    TriedKeepsInv(s.(up := s.up - 1), s.c, AngleBefore(s.angle));
  }

  lemma KeyLeftKeepsInv(s: State)
    requires Inv(s) && s.left > 0
    ensures Inv(KeyLeft(s))
  {
    if s.c.y > 0 { TriedKeepsInv(s.(left := s.left - 1), Coord(s.c.x, s.c.y - 1), s.angle); }
  }

  lemma KeyRightKeepsInv(s: State)
    requires Inv(s) && s.right > 0
    ensures Inv(KeyRight(s))
  {
    if s.c.y < PITWIDTH - 1 { TriedKeepsInv(s.(right := s.right - 1), Coord(s.c.x, s.c.y + 1), s.angle); }
  }

  /** Every turn keeps the invariant. */
  lemma StepKeepsInv(s0: State, i: Input)
    requires Inv(s0)
    ensures Inv(Step(s0, i))
  {
    var s := WithKeys(s0, i);
    assert Inv(s);
    if s.msec <= 0 {
      TimedOutKeepsInv(s, i);
    } else if s.up > 0 {
      KeyUpKeepsInv(s);
    } else if s.left > 0 {
      KeyLeftKeepsInv(s);
    } else if s.right > 0 {
      KeyRightKeepsInv(s);
    } else if s.down > 0 {
      LandedKeepsInv(Dropped(s.(down := s.down - 1)), i);
    }
  }

  // ---------------------------------------------------------------- keys undo each other

  lemma FreeIsUnblocked(s: State)
    requires Inv(s)
    ensures InColumns(Piece(s)) && !Blocked(s.rows, Piece(s))
  {
    ProbesInPit(s, s.c, s.angle);
  }

  /** A step to one side that was made can always be taken back. */
  lemma SidewaysUndone(s: State)
    requires Inv(s) && s.left > 0 && s.right > 0
    ensures WellTyped(KeyLeft(s)) && WellTyped(KeyRight(s))
    ensures KeyLeft(s).c != s.c ==> KeyRight(KeyLeft(s)) == s.(left := s.left - 1, right := s.right - 1)
    ensures KeyRight(s).c != s.c ==> KeyLeft(KeyRight(s)) == s.(left := s.left - 1, right := s.right - 1)
  {
    hide CellsOf, InColumns, Blocked;
    FreeIsUnblocked(s);
    assert Coord(s.c.x, s.c.y) == s.c;
  }

  /** Where the piece can turn freely, four turns bring it back. */
  lemma FullTurn(s: State)
    requires Inv(s) && s.up >= 4
    requires forall a :: 0 <= a < 4 ==> !Blocked(s.rows, CellsOf(s.ptype, a, s.c))
    ensures var t := s.(up := s.up - 4);
            KeyUp(KeyUp(KeyUp(KeyUp(s)))) == t
  {
    hide CellsOf, InColumns, Blocked;
    TurnsFreely(s, s);
    TurnsFreely(s, KeyUp(s));
    TurnsFreely(s, KeyUp(KeyUp(s)));
    TurnsFreely(s, KeyUp(KeyUp(KeyUp(s))));
  }

  lemma TurnsFreely(s: State, t: State)
    requires Inv(s) && t == s.(up := t.up, angle := t.angle) && 0 <= t.angle < 4 && t.up > 0
    requires forall a :: 0 <= a < 4 ==> !Blocked(s.rows, CellsOf(s.ptype, a, s.c))
    ensures KeyUp(t) == t.(up := t.up - 1, angle := AngleBefore(t.angle))
  {
    ProbesInPit(s, s.c, AngleBefore(t.angle));
  }

  // ---------------------------------------------------------------- dropping is repeated falling

  /** n timeouts in a row. */
  function Timeouts(s: State, n: nat, i: Input): (r: State)
    requires Inv(s)
    ensures Inv(r)
    decreases n
  {
    TimedOutKeepsInv(s, i);
    if n == 0 then s else Timeouts(TimedOut(s, i), n - 1, i)
  }

  function Lower(s: State, n: nat): State {
    s.(c := Coord(s.c.x + n, s.c.y), msec := PERIOD)
  }

  lemma {:induction false} DroppedIgnoresClock(s: State, m: int)
    requires Inv(s)
    ensures Inv(s.(msec := m)) && Dropped(s.(msec := m)) == Dropped(s).(msec := m)
    decreases PITDEPTH - s.c.x
  {
    LowEnough(s);
    assert Resting(s.(msec := m)) == Resting(s);
    if !Resting(s) {
      FallKeepsInv(s);
      DroppedIgnoresClock(s.(c := Below(s.c)), m);
    }
  }

  /** How far the piece falls when dropped. */
  function Depth(s: State): int
    requires Inv(s)
  {
    Dropped(s).c.x - s.c.x
  }

  lemma LandedIgnoresClock(s: State, m: int, i: Input)
    requires Inv(s) && Inv(s.(msec := m))
    ensures Landed(s.(msec := m), i) == Landed(s, i)
  {
  }

  /** A piece with room below falls one row at a timeout, and dropping it from there is the same. */
  lemma FallsAt(s: State, m: int, i: Input) returns (g: State)
    requires Inv(s) && !Resting(s)
    ensures Inv(s.(msec := m)) && Inv(g) && g == s.(c := Below(s.c), msec := PERIOD)
    ensures TimedOut(s.(msec := m), i) == g
    ensures Dropped(g).c == Dropped(s).c
    ensures Landed(Dropped(g), i) == Landed(Dropped(s), i)
  {
    g := s.(c := Below(s.c), msec := PERIOD);
    FallKeepsInv(s);
    FallKeepsInv(s.(msec := m));
    DroppedIgnoresClock(s.(c := Below(s.c)), PERIOD);
    LandedIgnoresClock(Dropped(s), PERIOD, i);
  }

  lemma TimeoutFirst(s: State, n: nat, i: Input)
    requires Inv(s) && n >= 1
    ensures Inv(TimedOut(s, i)) && Timeouts(s, n, i) == Timeouts(TimedOut(s, i), n - 1, i)
  {
    hide TimedOut, Inv;
    TimedOutKeepsInv(s, i);
  }

  lemma RestingDepth(s: State)
    requires Inv(s)
    ensures Resting(s) ==> Dropped(s) == s && Depth(s) == 0
  {
  }

  /** Dropping the piece does what letting it time out again and again does: it passes through every free position,
      and the turn on which it stops leaves the same state. */
  lemma {:induction false} DropIsRepeatedTimeouts(s: State, i: Input)
    requires Inv(s)
    ensures Depth(s) >= 0
    ensures forall n :: 1 <= n <= Depth(s) ==> Timeouts(s, n, i) == Lower(s, n)
    ensures Timeouts(s, Depth(s) + 1, i) == Landed(Dropped(s), i)
    decreases PITDEPTH - s.c.x
  {
    hide Landed, Dropped, CellsOf, Blocked;
    LowEnough(s);
    RestingDepth(s);
    if Resting(s) {
      TimeoutFirst(s, 1, i);
    } else {
      var g := FallsAt(s, s.msec, i);
      DropIsRepeatedTimeouts(g, i);
      DropStep(s, g, i);
    }
  }

  lemma DropStep(s: State, g: State, i: Input)
    requires Inv(s) && Inv(g) && g == Lower(s, 1) && TimedOut(s, i) == g && Depth(s) == Depth(g) + 1
    requires Depth(g) >= 0 && forall n :: 1 <= n <= Depth(g) ==> Timeouts(g, n, i) == Lower(g, n)
    ensures forall n :: 1 <= n <= Depth(s) ==> Timeouts(s, n, i) == Lower(s, n)
    ensures Timeouts(s, Depth(s) + 1, i) == Timeouts(g, Depth(g) + 1, i)
  {
    hide Depth, Inv, TimedOut;
    forall n | 1 <= n <= Depth(s) ensures Timeouts(s, n, i) == Lower(s, n) {
      TimeoutFirst(s, n, i);
      assert Lower(g, n - 1) == Lower(s, n);
    }
    TimeoutFirst(s, Depth(s) + 1, i);
  }

  lemma CellsLowered(ptype: int, angle: int, c: Coord, n: nat)
    requires KnownPiece(ptype, angle)
    ensures CellsOf(ptype, angle, Coord(c.x + n, c.y)) == Moved(CellsOf(ptype, angle, c), n, 0)
  {
    hide Translated, Moved;
    ShapeTable(ptype);
    TranslatedLowered(SHAPES[ptype], c, angle, n);
  }

  /** On the way every cell of the piece is exactly as many rows lower as there were timeouts. */
  lemma FallingPiece(s: State, n: nat, i: Input)
    requires Inv(s) && 1 <= n <= Depth(s)
    ensures Piece(Timeouts(s, n, i)) == Moved(Piece(s), n, 0)
  {
    hide Timeouts, Depth, CellsOf, Moved;
    DropIsRepeatedTimeouts(s, i);
    CellsLowered(s.ptype, s.angle, s.c, n);
  }

  // ---------------------------------------------------------------- a piece left alone

  /** No key is waiting and none arrives. */
  predicate Quiet(s: State, i: Input) {
    s.up == s.left == s.right == s.down == 0 && i.up == i.left == i.right == i.down == 0
  }

  /** n turns with the same input. */
  function Turns(s: State, n: nat, i: Input): (r: State)
    requires Inv(s)
    ensures Inv(r)
    decreases n
  {
    StepKeepsInv(s, i);
    if n == 0 then s else Turns(Step(s, i), n - 1, i)
  }

  lemma {:induction false} TurnsAdd(s: State, m: nat, n: nat, i: Input)
    requires Inv(s)
    ensures Turns(s, m + n, i) == Turns(Turns(s, m, i), n, i)
    decreases m
  {
    hide Step, Inv;
    StepKeepsInv(s, i);
    if m > 0 { TurnsAdd(Step(s, i), m - 1, n, i); }
  }

  function Later(s: State, n: nat): State {
    s.(msec := s.msec - TICK * n)
  }

  /** Idle turns until the clock runs out. */
  function Patience(s: State): nat {
    if s.msec <= 0 then 0 else (s.msec + TICK - 1) / TICK
  }

  lemma {:induction false} IdleTurns(s: State, n: nat, i: Input)
    requires Inv(s) && Quiet(s, i) && n <= Patience(s)
    ensures Inv(Later(s, n)) && Turns(s, n, i) == Later(s, n)
    decreases n
  {
    if n > 0 {
      assert Step(s, i) == Later(s, 1);
      IdleTurns(Later(s, 1), n - 1, i);
    }
  }

  /** With no keys, the clock runs out and the timeout branch is taken. */
  lemma QuietTimeout(s: State, i: Input)
    requires Inv(s) && Quiet(s, i)
    ensures Inv(Later(s, Patience(s)))
    ensures Turns(s, Patience(s) + 1, i) == TimedOut(Later(s, Patience(s)), i)
  {
    var n := Patience(s);
    IdleTurns(s, n, i);
    TurnsAdd(s, n, 1, i);
    var t := Later(s, n);
    assert Step(t, i) == TimedOut(t, i);
    assert Turns(t, 1, i) == Turns(Step(t, i), 0, i);
  }

  /** Every piece left alone comes to rest, after a number of turns that is found here, where dropping it would put it. */
  lemma {:induction false} LeftAloneItLands(s: State, i: Input) returns (n: nat)
    requires Inv(s) && Quiet(s, i)
    ensures Turns(s, n, i) == Landed(Dropped(s), i)
    decreases PITDEPTH - s.c.x
  {
    hide Turns, Landed, CellsOf, Blocked;
    LowEnough(s);
    QuietTimeout(s, i);
    var w := Patience(s);
    if Resting(s) {
      n := w + 1;
      LandedIgnoresClock(s, Later(s, w).msec, i);
    } else {
      var g := FallsAt(s, Later(s, w).msec, i);
      var m := LeftAloneItLands(g, i);
      n := w + 1 + m;
      TurnsAdd(s, w + 1, m, i);
    }
  }

  // ---------------------------------------------------------------- whole runs

  function Start(i: Input): State {
    Spawned(State(EmptyPit(), 0, 0, Coord(0, 0), 0, 0, 0, 0, 0), i)
  }

  /** The game after the given turns. */
  function Run(first: Input, turns: seq<Input>): (s: State)
    ensures Inv(s)
    decreases |turns|
  {
    if turns == [] then
      SpawnedKeepsInv(State(EmptyPit(), 0, 0, Coord(0, 0), 0, 0, 0, 0, 0), first);
      Start(first)
    else
      var n := |turns| - 1;
      var s := Run(first, turns[..n]);
      StepKeepsInv(s, turns[n]);
      Step(s, turns[n])
  }

  lemma RunNext(first: Input, turns: seq<Input>, n: nat)
    requires n < |turns|
    ensures Run(first, turns[..n+1]) == Step(Run(first, turns[..n]), turns[n])
  {
    assert turns[..n+1][..n] == turns[..n];
  }

  // ---------------------------------------------------------------- conservation over runs

  datatype Option<T> = None | Some(value: T)

  /** Where the piece comes to rest, if this turn lands it. */
  function StopsAt(s0: State, i: Input): (r: Option<State>)
    requires Inv(s0)
    ensures r.Some? ==> Inv(r.value) && Step(s0, i) == Landed(r.value, i) && r.value.rows == s0.rows
    ensures r.None? ==> Step(s0, i).rows == s0.rows
  {
    var s := WithKeys(s0, i);
    if s.msec <= 0 then if Resting(s) then Some(s) else None
    else if s.up == 0 && s.left == 0 && s.right == 0 && s.down > 0 then Some(Dropped(s.(down := s.down - 1)))
    else None
  }

  /** Pieces landed and rows removed since the pit was last empty. */
  datatype Ledger = Ledger(pieces: nat, lines: nat)

  function Booked(l: Ledger, s: State, i: Input): Ledger
    requires Inv(s)
  {
    match StopsAt(s, i)
    case None => l
    case Some(t) =>
      if BelowTop(Piece(t)) then
        assert InGridAll(Piece(t));
        Ledger(l.pieces + 1, l.lines + Fulls(PutAll(t.rows, Piece(t))[..PITDEPTH]))
      else Ledger(0, 0)
  }

  function RunLedger(first: Input, turns: seq<Input>): Ledger
    decreases |turns|
  {
    if turns == [] then Ledger(0, 0)
    else
      var n := |turns| - 1;
      Booked(RunLedger(first, turns[..n]), Run(first, turns[..n]), turns[n])
  }

  function InPlay(s: State): nat
    requires IsPit(s.rows)
  {
    Occupied(s.rows[..PITDEPTH])
  }

  lemma LandedConserves(s: State, i: Input)
    requires Inv(s)
    ensures BelowTop(Piece(s)) ==> InGridAll(Piece(s))
    ensures BelowTop(Piece(s)) ==>
              InPlay(Landed(s, i)) == InPlay(s) + 4 - PITWIDTH * Fulls(PutAll(s.rows, Piece(s))[..PITDEPTH])
    ensures !BelowTop(Piece(s)) ==> InPlay(Landed(s, i)) == 0
  {
    PieceFacts(s.ptype, s.angle, s.c);
    if BelowTop(Piece(s)) {
      LandingOccupied(s.rows, Piece(s));
    } else {
      assert EmptyPit()[..PITDEPTH] == Blank(PITDEPTH);
      OccupiedBlank(PITDEPTH);
    }
  }

  /** At every moment the occupied cells are four per landed piece less a full row's worth per removed row. */
  lemma {:induction false} RunConserves(first: Input, turns: seq<Input>)
    ensures InPlay(Run(first, turns)) == 4 * RunLedger(first, turns).pieces - PITWIDTH * RunLedger(first, turns).lines
    decreases |turns|
  {
    if turns == [] {
      assert EmptyPit()[..PITDEPTH] == Blank(PITDEPTH);
      OccupiedBlank(PITDEPTH);
    } else {
      var n := |turns| - 1;
      RunConserves(first, turns[..n]);
      var at := StopsAt(Run(first, turns[..n]), turns[n]);
      if at.Some? {
        LandedConserves(at.value, turns[n]);
      }
    }
  }
}
