/** The rules of the game in plain terms: what one turn does to the pit, the piece, the clock and the waiting keys. */
module Rules {
  import opened Cells
  import opened Lists
  import opened Pieces
  import opened Pits
  import opened Games

  /** The cells of piece ptype, turned by a, with centre c. */
  function Spot(ptype: int, a: int, c: Coord): seq<Coord>
    requires 0 <= ptype < 7 && 0 <= a < 4
  {
    ShapeTable(ptype);
    Translated(SHAPES[ptype], c, a)
  }

  /** No cell of the pit that the piece would cover at centre c and angle a is occupied. */
  predicate Vacant(s: State, c: Coord, a: int)
    requires WellTyped(s) && 0 <= a < 4
  {
    forall q :: q in Spot(s.ptype, a, c) && InPit(q) ==> !s.rows[q.x][q.y]
  }

  /** The piece would fit n rows lower. */
  predicate FitsLower(s: State, n: int)
    requires WellTyped(s)
  {
    Vacant(s, Coord(s.c.x + n, s.c.y), s.angle)
  }

  lemma VacantUnblocked(s: State, c: Coord, a: int)
    requires WellTyped(s) && 0 <= a < 4
    ensures Vacant(s, c, a) <==> !Blocked(s.rows, CellsOf(s.ptype, a, c))
  {
    var chk := CellsOf(s.ptype, a, c);
    if Blocked(s.rows, chk) {
      var k :| 0 <= k < |chk| && chk[k].x >= 0 && Hits(s.rows, chk[k]);
      assert chk[k] in chk;
    }
    forall q | q in chk && InPit(q) && s.rows[q.x][q.y] ensures Blocked(s.rows, chk) {
      var k :| 0 <= k < |chk| && chk[k] == q;
      assert chk[k].x >= 0 && Hits(s.rows, chk[k]);
    }
  }

  lemma TriedPlainly(s: State, t: State, c: Coord, a: int)
    requires Inv(s) && t == s.(msec := t.msec, up := t.up, left := t.left, right := t.right, down := t.down)
    requires 0 <= a < 4 && 0 <= c.y < PITWIDTH
    requires c.x == s.c.x || (c.x == s.c.x + 1 && a == s.angle)
    ensures Tried(t, c, a) == if Vacant(s, c, a) then t.(c := c, angle := a) else t
  {
    hide CellsOf, Blocked, InColumns, Vacant;
    VacantUnblocked(s, c, a);
    ProbesInPit(s, c, a);
  }

  // ---------------------------------------------------------------- keys

  /** A key that turns the piece: back by one angle if the piece fits there, and nothing else but the counters changes. */
  lemma UpTurns(s: State, i: Input)
    requires Inv(s) && s.msec > 0 && s.up + i.up > 0
    ensures var a := (s.angle + 3) % 4;
            Step(s, i) == s.(up := s.up + i.up - 1, left := s.left + i.left, right := s.right + i.right,
                             down := s.down + i.down, angle := if Vacant(s, s.c, a) then a else s.angle)
  {
    hide Vacant, Tried, CellsOf;
    TriedPlainly(s, WithKeys(s, i).(up := s.up + i.up - 1), s.c, (s.angle + 3) % 4);
  }

  /** A key to the left, when no turn is waiting. */
  lemma LeftSteps(s: State, i: Input)
    requires Inv(s) && s.msec > 0 && s.up + i.up == 0 && s.left + i.left > 0
    ensures var c := Coord(s.c.x, s.c.y - 1);
            Step(s, i) == s.(left := s.left + i.left - 1, right := s.right + i.right, down := s.down + i.down,
                             c := if s.c.y > 0 && Vacant(s, c, s.angle) then c else s.c)
  {
    hide Vacant, Tried, CellsOf;
    if s.c.y > 0 {
      TriedPlainly(s, WithKeys(s, i).(left := s.left + i.left - 1), Coord(s.c.x, s.c.y - 1), s.angle);
    }
  }

  /** A key to the right, when no turn and no step to the left is waiting. */
  lemma RightSteps(s: State, i: Input)
    requires Inv(s) && s.msec > 0 && s.up + i.up == 0 && s.left + i.left == 0 && s.right + i.right > 0
    ensures var c := Coord(s.c.x, s.c.y + 1);
            Step(s, i) == s.(right := s.right + i.right - 1, down := s.down + i.down,
                             c := if s.c.y < PITWIDTH - 1 && Vacant(s, c, s.angle) then c else s.c)
  {
    hide Vacant, Tried, CellsOf;
    if s.c.y < PITWIDTH - 1 {
      TriedPlainly(s, WithKeys(s, i).(right := s.right + i.right - 1), Coord(s.c.x, s.c.y + 1), s.angle);
    }
  }

  /** With no key and time left, only the clock moves. */
  lemma IdleWaits(s: State, i: Input)
    requires Inv(s) && s.msec > 0
    requires s.up + i.up == s.left + i.left == s.right + i.right == s.down + i.down == 0
    ensures Step(s, i) == s.(msec := s.msec - 10)
  {
  }

  // ---------------------------------------------------------------- a new piece

  /** r has the new piece that the random numbers choose: any of the seven, in any of three orientations, over the
      column left of the middle, just showing its lowest row, with a full period on the clock. */
  ghost predicate Dealt(r: State, i: Input) {
    && 0 <= r.ptype < 7 && (i.rnd0 - r.ptype) % 7 == 0
    && 0 <= r.angle < 3 && (i.rnd1 - r.angle) % 3 == 0
    && r.c.y == 5 && r.msec == 500
    && (forall q :: q in Spot(r.ptype, r.angle, r.c) ==> q.x <= 0)
    && (exists q :: q in Spot(r.ptype, r.angle, r.c) && q.x == 0)
  }

  lemma SpawnedDealt(s: State, i: Input)
    requires Settled(s.rows)
    ensures Dealt(Spawned(s, i), i)
    ensures var r := Spawned(s, i); r == s.(ptype := r.ptype, angle := r.angle, c := r.c, msec := r.msec)
  {
    var r := Spawned(s, i);
    hide CellsOf, Spot, Inv;
    SpawnedKeepsInv(s, i);
    PieceFacts(r.ptype, r.angle, r.c);
    SpotIsPiece(r.ptype, r.angle, r.c);
  }

  lemma SpotIsPiece(ptype: int, a: int, c: Coord)
    requires KnownPiece(ptype, a)
    ensures Spot(ptype, a, c) == CellsOf(ptype, a, c)
  {
  }

  // ---------------------------------------------------------------- the pit after a landing

  /** The cell is occupied when the piece has stopped where it is. */
  predicate Taken(t: State, h: int, w: int)
    requires WellTyped(t) && 0 <= h <= PITDEPTH && 0 <= w < PITWIDTH
  {
    t.rows[h][w] || Coord(h, w) in Spot(t.ptype, t.angle, t.c)
  }

  predicate Complete(t: State, h: int)
    requires WellTyped(t) && 0 <= h <= PITDEPTH
  {
    forall w :: 0 <= w < PITWIDTH ==> Taken(t, h, w)
  }

  /** How many rows from h down are complete. */
  ghost function CompleteFrom(t: State, h: int): nat
    requires WellTyped(t) && 0 <= h
  {
    |set r | h <= r < PITDEPTH && Complete(t, r)|
  }

  /** All cells of the stopped piece are below the top row. */
  predicate Playable(t: State)
    requires WellTyped(t)
  {
    forall q :: q in Spot(t.ptype, t.angle, t.c) ==> q.x > 0
  }

  /** The pit p after the piece of t has stopped: complete rows are gone, every other row is as many rows lower as there
      were complete rows below it, and empty rows are on top; if the piece is not below the top row, the pit is empty.
      The floor stays. */
  ghost predicate PitAfter(t: State, p: seq<Row>)
    requires WellTyped(t)
  {
    && |p| == PITDEPTH + 1 && (forall h :: 0 <= h <= PITDEPTH ==> |p[h]| == PITWIDTH)
    && (forall w :: 0 <= w < PITWIDTH ==> p[PITDEPTH][w])
    && (Playable(t) ==>
          && (forall h :: 0 <= h < PITDEPTH && !Complete(t, h) ==> RowKept(t, p, h))
          && (forall h, w :: 0 <= h < CompleteFrom(t, 0) && h < PITDEPTH && 0 <= w < PITWIDTH ==> !p[h][w]))
    && (!Playable(t) ==> forall h, w :: 0 <= h < PITDEPTH && 0 <= w < PITWIDTH ==> !p[h][w])
  }

  ghost predicate RowKept(t: State, p: seq<Row>, h: int)
    requires WellTyped(t) && 0 <= h < PITDEPTH
    requires |p| == PITDEPTH + 1 && forall r :: 0 <= r <= PITDEPTH ==> |p[r]| == PITWIDTH
  {
    var k := h + CompleteFrom(t, h);
    k < PITDEPTH && forall w :: 0 <= w < PITWIDTH ==> p[k][w] == Taken(t, h, w)
  }

  /** The pit q holds exactly the taken cells. */
  ghost predicate Joined(t: State, q: seq<Row>)
    requires WellTyped(t) && IsPit(q)
  {
    forall h, w :: 0 <= h <= PITDEPTH && 0 <= w < PITWIDTH ==> q[h][w] == Taken(t, h, w)
  }

  lemma PutJoins(t: State)
    requires Inv(t) && InGridAll(Piece(t))
    ensures Joined(t, PutAll(t.rows, Piece(t)))
  {
    var q := PutAll(t.rows, Piece(t));
    hide CellsOf, PutAll, Spot;
    SpotIsPiece(t.ptype, t.angle, t.c);
    forall h, w | 0 <= h <= PITDEPTH && 0 <= w < PITWIDTH ensures q[h][w] == Taken(t, h, w) {
      PutAllCells(t.rows, Piece(t), Coord(h, w));
      assert Hits(q, Coord(h, w)) == q[h][w] && Hits(t.rows, Coord(h, w)) == t.rows[h][w];
    }
  }

  lemma CompleteIsFull(t: State, q: seq<Row>, h: int)
    requires WellTyped(t) && IsPit(q) && Joined(t, q) && 0 <= h <= PITDEPTH
    ensures Complete(t, h) <==> Full(q[h])
  {
    hide Taken;
    forall w | 0 <= w < PITWIDTH ensures Taken(t, h, w) == q[h][w] {
    }
  }

  lemma {:induction false} CompleteCount(t: State, q: seq<Row>, h: nat)
    requires WellTyped(t) && IsPit(q) && Joined(t, q) && h <= PITDEPTH
    ensures CompleteFrom(t, h) == Fulls(q[h..PITDEPTH])
    decreases PITDEPTH - h
  {
    hide Complete, Full, Joined;
    var here := set r | h <= r < PITDEPTH && Complete(t, r);
    if h == PITDEPTH {
      assert here == {};
      assert q[h..PITDEPTH] == [];
    } else {
      var next := set r | h + 1 <= r < PITDEPTH && Complete(t, r);
      CompleteCount(t, q, h + 1);
      CompleteIsFull(t, q, h);
      FullsTail(q, h);
      assert here == if Complete(t, h) then next + {h} else next;
    }
  }

  lemma RowsKept(t: State, q: seq<Row>, h: nat)
    requires WellTyped(t) && IsPit(q) && Joined(t, q) && h < PITDEPTH && !Complete(t, h)
    ensures RowKept(t, Compacted(q), h)
  {
    hide Taken, Compacted, CompleteFrom, Complete, Fulls;
    CompleteCount(t, q, h);
    CompleteIsFull(t, q, h);
    CompactedRow(q, h, Fulls(q[h..PITDEPTH]));
  }

  lemma TopCleared(t: State, q: seq<Row>)
    requires WellTyped(t) && IsPit(q) && Joined(t, q)
    ensures forall h, w :: 0 <= h < CompleteFrom(t, 0) && h < PITDEPTH && 0 <= w < PITWIDTH ==> !Compacted(q)[h][w]
  {
    hide Taken, Compacted, CompleteFrom, Complete, Fulls;
    CompleteCount(t, q, 0);
    CompactedTop(q);
  }

  /** What a landing does to the pit, cell by cell. */
  lemma LandingRule(t: State)
    requires Inv(t)
    ensures PitAfter(t, LandedRows(t))
  {
    SpotIsPiece(t.ptype, t.angle, t.c);
    PlayableIsBelowTop(t);
    if Playable(t) {
      assert InGridAll(Piece(t));
      PutJoins(t);
      var q := PutAll(t.rows, Piece(t));
      hide Joined, Compacted, PutAll, Spot, CellsOf, CompleteFrom, Complete, Fits;
      TopCleared(t, q);
      forall h | 0 <= h < PITDEPTH && !Complete(t, h) ensures RowKept(t, Compacted(q), h) {
        RowsKept(t, q, h);
      }
    } else {
      EmptyPitCells();
    }
  }

  lemma PlayableIsBelowTop(t: State)
    requires WellTyped(t)
    ensures Playable(t) <==> BelowTop(Piece(t))
  {
    var p := Piece(t);
    if Playable(t) {
      forall k | 0 <= k < |p| ensures p[k].x > 0 {
        assert p[k] in p;
      }
    }
  }

  // ---------------------------------------------------------------- landing

  /** r follows t in which the piece has stopped: pit, new piece and clock; the waiting keys stay. */
  ghost predicate Lands(t: State, r: State, i: Input)
    requires WellTyped(t)
  {
    && PitAfter(t, r.rows) && Dealt(r, i)
    && r.up == t.up && r.left == t.left && r.right == t.right && r.down == t.down
  }

  lemma LandedLands(t: State, i: Input)
    requires Inv(t)
    ensures Lands(t, Landed(t, i), i)
  {
    hide PitAfter, Dealt, LandedRows, Spawned, Inv;
    LandingRule(t);
    SpawnedDealt(t.(rows := LandedRows(t)), i);
  }

  /** The state with its piece n rows lower. */
  function Sunk(s: State, n: nat): State {
    s.(c := Coord(s.c.x + n, s.c.y))
  }

  /** A dropped piece falls through free positions only, as far as it can. */
  lemma {:induction false} DroppedSinks(s: State) returns (n: nat)
    requires Inv(s)
    ensures Dropped(s) == Sunk(s, n)
    ensures forall k :: 0 <= k <= n ==> FitsLower(s, k)
    ensures !FitsLower(s, n + 1)
    decreases PITDEPTH - s.c.x
  {
    hide Vacant, CellsOf, Blocked;
    LowEnough(s);
    FreeIsUnblocked(s);
    VacantUnblocked(s, s.c, s.angle);
    VacantUnblocked(s, Below(s.c), s.angle);
    assert FitsLower(s, 0) && FitsLower(s, 1) == !Resting(s);
    if Resting(s) {
      n := 0;
    } else {
      FallKeepsInv(s);
      var g := s.(c := Below(s.c));
      var m := DroppedSinks(g);
      n := m + 1;
      forall k | 0 <= k <= m + 1 ensures FitsLower(s, k + 1) == FitsLower(g, k) {
        LowerByOne(s, g, k);
      }
      forall k | 0 <= k <= n ensures FitsLower(s, k) {
        if k > 0 { assert FitsLower(g, k - 1) && FitsLower(s, k - 1 + 1); }
      }
      assert !FitsLower(g, m + 1);
    }
  }

  lemma LowerByOne(s: State, g: State, k: int)
    requires WellTyped(s) && g == s.(c := Below(s.c))
    ensures FitsLower(s, k + 1) == FitsLower(g, k)
  {
    hide Spot;
  }

  /** A key that drops the piece, when no other is waiting: it stops at the last free position straight below. */
  lemma DownLands(s: State, i: Input) returns (n: nat)
    requires Inv(s) && s.msec > 0 && s.up + i.up == s.left + i.left == s.right + i.right == 0 && s.down + i.down > 0
    ensures forall k :: 0 <= k <= n ==> FitsLower(s, k)
    ensures !FitsLower(s, n + 1)
    ensures Lands(Sunk(s, n).(down := s.down + i.down - 1), Step(s, i), i)
  {
    hide Vacant, Landed, Dropped, CellsOf, Lands;
    var t := s.(down := s.down + i.down - 1);
    n := DroppedSinks(t);
    LandedLands(Dropped(t), i);
    forall k | 0 <= k <= n + 1 ensures FitsLower(s, k) == FitsLower(t, k) {
      OnlyKeys(s, t, k);
    }
  }

  lemma OnlyKeys(s: State, t: State, k: int)
    requires WellTyped(s) && t == s.(up := t.up, left := t.left, right := t.right, down := t.down)
    ensures FitsLower(s, k) == FitsLower(t, k)
  {
    hide Spot;
  }

  // ---------------------------------------------------------------- the clock

  /** The state with the arriving keys waiting. */
  function Pressed(s: State, i: Input): State {
    s.(up := s.up + i.up, left := s.left + i.left, right := s.right + i.right, down := s.down + i.down)
  }

  /** When time is up no key is served. The piece falls one row if that is free. */
  lemma TimeoutFalls(s: State, i: Input)
    requires Inv(s) && s.msec <= 0 && FitsLower(s, 1)
    ensures Step(s, i) == Pressed(s, i).(c := Coord(s.c.x + 1, s.c.y), msec := 500)
  {
    hide Vacant, Tried, CellsOf, Landed, Blocked;
    VacantUnblocked(s, Below(s.c), s.angle);
    TriedPlainly(s, Pressed(s, i).(msec := 500), Below(s.c), s.angle);
  }

  /** Otherwise it stops where it is. */
  lemma TimeoutLands(s: State, i: Input)
    requires Inv(s) && s.msec <= 0 && !FitsLower(s, 1)
    ensures Lands(Pressed(s, i), Step(s, i), i)
  {
    hide Vacant, Tried, CellsOf, Landed, Blocked, Lands;
    VacantUnblocked(s, Below(s.c), s.angle);
    LandedLands(Pressed(s, i), i);
  }

  // ---------------------------------------------------------------- which pieces come

  /** The game starts with an empty pit, no key waiting, and a new piece. */
  lemma FirstPiece(i: Input)
    ensures var r := Start(i);
            && Dealt(r, i) && r.up == r.left == r.right == r.down == 0
            && |r.rows| == PITDEPTH + 1 && (forall h :: 0 <= h <= PITDEPTH ==> |r.rows[h]| == PITWIDTH)
            && forall h, w :: 0 <= h <= PITDEPTH && 0 <= w < PITWIDTH ==> r.rows[h][w] == (h == PITDEPTH)
  {
    hide Dealt;
    EmptyPitCells();
    SpawnedDealt(State(EmptyPit(), 0, 0, Coord(0, 0), 0, 0, 0, 0, 0), i);
  }

  lemma Chosen(r: State, i: Input)
    requires Dealt(r, i)
    ensures 0 <= r.ptype < 7 && 0 <= r.angle < 3
    ensures i.rnd0 < 7 ==> r.ptype == i.rnd0
    ensures i.rnd1 < 3 ==> r.angle == i.rnd1
  {
  }

  /** Every piece can come first in three of its orientations, and in no other. */
  lemma Starts(p: int, a: int)
    ensures (exists i :: Start(i).ptype == p && Start(i).angle == a) <==> 0 <= p < 7 && 0 <= a < 3
  {
    hide Start, Dealt;
    forall i ensures 0 <= Start(i).ptype < 7 && 0 <= Start(i).angle < 3 {
      FirstPiece(i);
      Chosen(Start(i), i);
    }
    if 0 <= p < 7 && 0 <= a < 3 {
      var i := Input(0, 0, 0, 0, p, a);
      FirstPiece(i);
      Chosen(Start(i), i);
    }
  }

  /** The same holds of the piece that follows one that has come to rest. */
  lemma Follows(s: State, p: int, a: int)
    requires Inv(s) && s.msec <= 0 && !FitsLower(s, 1)
    ensures (exists i :: Step(s, i).ptype == p && Step(s, i).angle == a) <==> 0 <= p < 7 && 0 <= a < 3
  {
    hide Vacant, Step, Inv, Dealt, PitAfter;
    forall i ensures Dealt(Step(s, i), i) {
      TimeoutLands(s, i);
    }
    forall i ensures 0 <= Step(s, i).ptype < 7 && 0 <= Step(s, i).angle < 3 {
      Chosen(Step(s, i), i);
    }
    if 0 <= p < 7 && 0 <= a < 3 {
      var i := Input(0, 0, 0, 0, p, a);
      Chosen(Step(s, i), i);
    }
  }

  // ---------------------------------------------------------------- keys over whole runs

  function Waiting(s: State): nat {
    s.up + s.left + s.right + s.down
  }

  function Arriving(i: Input): nat {
    i.up + i.left + i.right + i.down
  }

  /** A turn serves a key when there is one and time is not up. */
  predicate Serves(s: State, i: Input) {
    s.msec > 0 && Waiting(s) + Arriving(i) > 0
  }

  function Arrived(turns: seq<Input>): nat {
    if turns == [] then 0 else Arrived(turns[..|turns| - 1]) + Arriving(turns[|turns| - 1])
  }

  /** The number of turns of a run that serve a key. */
  function Servings(first: Input, turns: seq<Input>): nat {
    if turns == [] then 0
    else
      var n := |turns| - 1;
      Servings(first, turns[..n]) + if Serves(Run(first, turns[..n]), turns[n]) then 1 else 0
  }

  lemma StepKeys(s: State, i: Input)
    requires Inv(s)
    ensures Waiting(Step(s, i)) == Waiting(s) + Arriving(i) - if Serves(s, i) then 1 else 0
  {
    hide CellsOf, Step, Vacant, PitAfter, Dealt;
    if s.msec <= 0 {
      if FitsLower(s, 1) { TimeoutFalls(s, i); } else { TimeoutLands(s, i); }
    } else if s.up + i.up > 0 {
      UpTurns(s, i);
    } else if s.left + i.left > 0 {
      LeftSteps(s, i);
    } else if s.right + i.right > 0 {
      RightSteps(s, i);
    } else if s.down + i.down > 0 {
      var n := DownLands(s, i);
    } else {
      IdleWaits(s, i);
    }
  }

  /** No key press is lost and none is served twice: over every run, keys arrived are keys served and keys waiting. */
  lemma {:induction false} RunKeys(first: Input, turns: seq<Input>)
    ensures Servings(first, turns) + Waiting(Run(first, turns)) == Arrived(turns)
    decreases |turns|
  {
    hide Inv, Step;
    if turns == [] {
      FirstPiece(first);
    } else {
      var n := |turns| - 1;
      RunKeys(first, turns[..n]);
      StepKeys(Run(first, turns[..n]), turns[n]);
    }
  }
}
