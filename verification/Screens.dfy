/** The screen, seen as the set of lit cells, and the merge that redraws a moved piece. */
module Screens {
  import opened Cells

  /** One drawing call: light or darken a cell. */
  datatype Op = Op(cell: Coord, visible: bool)

  function Apply(lit: set<Coord>, op: Op): set<Coord> {
    if op.visible then lit + {op.cell} else lit - {op.cell}
  }

  /** The screen after a list of drawing calls. */
  function Paint(lit: set<Coord>, ops: seq<Op>): set<Coord>
    decreases |ops|
  {
    if ops == [] then lit else Paint(Apply(lit, ops[0]), ops[1..])
  }

  class Screen {
    var lit: set<Coord>
    /** Every drawing call made so far. */
    ghost var log: seq<Op>

    constructor ()
      ensures lit == {} && log == []
    {
      lit := {};
      log := [];
    }

    method DrawBlock(h: int, w: int, visible: bool)
      modifies this
      ensures lit == Apply(old(lit), Op(Coord(h, w), visible))
      ensures log == old(log) + [Op(Coord(h, w), visible)]
    {
      if visible {
        lit := lit + {Coord(h, w)};
      } else {
        lit := lit - {Coord(h, w)};
      }
      log := log + [Op(Coord(h, w), visible)];
    }
  }

  /** The cells of a list that are below the upper edge of the pit. */
  function Visible(s: seq<Coord>): set<Coord> {
    set c | c in s && c.x >= 0
  }

  function DrawIfVisible(c: Coord, visible: bool): seq<Op> {
    if c.x >= 0 then [Op(c, visible)] else []
  }

  /** The drawing calls that turn a picture of list o into one of list n, found by merging the two. */
  function MoveOps(o: seq<Coord>, n: seq<Coord>): seq<Op>
    decreases |o| + |n|
  {
    if o == [] && n == [] then []
    else if o == [] || (n != [] && Before(n[0], o[0])) then
      DrawIfVisible(n[0], true) + MoveOps(o, n[1..])
    else if n == [] || Before(o[0], n[0]) then
      DrawIfVisible(o[0], false) + MoveOps(o[1..], n)
    else MoveOps(o[1..], n[1..])
  }

  predicate EachCellOnce(ops: seq<Op>) {
    forall i, j :: 0 <= i < j < |ops| ==> ops[i].cell != ops[j].cell
  }

  /** The calls logged from mark on are all before cell c, touch no cell twice, and each really changes the screen lit. */
  ghost predicate Sparing(lit: set<Coord>, log: seq<Op>, mark: nat, c: Coord) {
    && mark <= |log|
    && (forall k :: mark <= k < |log| ==> Before(log[k].cell, c))
    && (forall k :: mark <= k < |log| ==> (log[k].visible <==> log[k].cell !in lit))
    && (forall j, k :: mark <= j < k < |log| ==> log[j].cell != log[k].cell)
  }

  lemma SparingDraw(lit: set<Coord>, log: seq<Op>, mark: nat, h: int, w: int, visible: bool)
    requires Sparing(lit, log, mark, Coord(h, w)) && (visible <==> Coord(h, w) !in lit)
    ensures Sparing(lit, log + [Op(Coord(h, w), visible)], mark, Coord(h, w + 1))
  {
  }

  lemma SparingOn(lit: set<Coord>, log: seq<Op>, mark: nat, c: Coord, d: Coord)
    requires Sparing(lit, log, mark, c) && NotAfter(c, d)
    ensures Sparing(lit, log, mark, d)
  {
  }

  /** A cell is drawn just when it is new, darkened just when it is gone, and no other cell is touched. */
  ghost predicate ExactDiff(o: seq<Coord>, n: seq<Coord>, ops: seq<Op>) {
    && (forall c :: Op(c, true) in ops <==> c in n && c !in o && c.x >= 0)
    && (forall c :: Op(c, false) in ops <==> c in o && c !in n && c.x >= 0)
    && EachCellOnce(ops)
  }

  lemma TailSorted(s: seq<Coord>)
    requires StrictlySorted(s) && s != []
    ensures StrictlySorted(s[1..])
    ensures forall c :: c in s[1..] ==> Before(s[0], c)
    ensures forall c :: c in s <==> c == s[0] || c in s[1..]
  {
    assert s == [s[0]] + s[1..];
  }

  lemma OpsOnce(op: Op, ops: seq<Op>)
    requires EachCellOnce(ops) && Op(op.cell, true) !in ops && Op(op.cell, false) !in ops
    ensures EachCellOnce([op] + ops)
  {
    forall i | 0 <= i < |ops| ensures ops[i].cell != op.cell {
      assert ops[i] == Op(ops[i].cell, ops[i].visible) && ops[i] in ops;
    }
  }

  lemma DrawOne(h: Coord, o: seq<Coord>, n: seq<Coord>, ops: seq<Op>)
    requires h !in o && h !in n && ExactDiff(o, n, ops)
    ensures ExactDiff(o, [h] + n, DrawIfVisible(h, true) + ops)
  {
    if h.x >= 0 { OpsOnce(Op(h, true), ops); }
  }

  lemma ClearOne(h: Coord, o: seq<Coord>, n: seq<Coord>, ops: seq<Op>)
    requires h !in o && h !in n && ExactDiff(o, n, ops)
    ensures ExactDiff([h] + o, n, DrawIfVisible(h, false) + ops)
  {
    if h.x >= 0 { OpsOnce(Op(h, false), ops); }
  }

  lemma SkipOne(h: Coord, o: seq<Coord>, n: seq<Coord>, ops: seq<Op>)
    requires h !in o && h !in n && ExactDiff(o, n, ops)
    ensures ExactDiff([h] + o, [h] + n, ops)
  {
  }

  /** For strictly sorted lists of any length the merge makes exactly the drawing calls that are needed. */
  lemma {:induction false} MoveIsExact(o: seq<Coord>, n: seq<Coord>)
    requires StrictlySorted(o) && StrictlySorted(n)
    ensures ExactDiff(o, n, MoveOps(o, n))
    decreases |o| + |n|
  {
    if o == [] && n == [] {
    } else if o == [] || (n != [] && Before(n[0], o[0])) {
      TailSorted(n);
      MoveIsExact(o, n[1..]);
      if o != [] { TailSorted(o); }
      DrawOne(n[0], o, n[1..], MoveOps(o, n[1..]));
      assert n == [n[0]] + n[1..];
    } else if n == [] || Before(o[0], n[0]) {
      TailSorted(o);
      MoveIsExact(o[1..], n);
      if n != [] { TailSorted(n); }
      ClearOne(o[0], o[1..], n, MoveOps(o[1..], n));
      assert o == [o[0]] + o[1..];
    } else {
      TailSorted(o);
      TailSorted(n);
      MoveIsExact(o[1..], n[1..]);
      SkipOne(o[0], o[1..], n[1..], MoveOps(o[1..], n[1..]));
      assert o == [o[0]] + o[1..] && n == [n[0]] + n[1..];
    }
  }

  lemma {:induction false} PaintMeaning(lit: set<Coord>, ops: seq<Op>, c: Coord)
    requires EachCellOnce(ops)
    ensures c in Paint(lit, ops) <==> Op(c, true) in ops || (c in lit && Op(c, false) !in ops)
    decreases |ops|
  {
    if ops != [] {
      assert ops == [ops[0]] + ops[1..];
      PaintMeaning(Apply(lit, ops[0]), ops[1..], c);
      if ops[0].cell == c {
        assert forall p :: p in ops[1..] ==> p.cell != c;
      }
    }
  }

  /** A screen showing a background and the old list then shows the same background and the new list. */
  lemma MoveRedraws(back: set<Coord>, o: seq<Coord>, n: seq<Coord>)
    requires StrictlySorted(o) && StrictlySorted(n)
    requires back !! Visible(o)
    ensures Paint(back + Visible(o), MoveOps(o, n)) == back + Visible(n)
  {
    MoveIsExact(o, n);
    var ops := MoveOps(o, n);
    forall c ensures c in Paint(back + Visible(o), ops) <==> c in back + Visible(n) {
      PaintMeaning(back + Visible(o), ops, c);
    }
  }

  lemma {:induction false} PaintAppend(lit: set<Coord>, a: seq<Op>, b: seq<Op>)
    ensures Paint(lit, a + b) == Paint(Paint(lit, a), b)
    decreases |a|
  {
    if a == [] {
      assert a + b == b;
    } else {
      assert (a + b)[1..] == a[1..] + b;
      PaintAppend(Apply(lit, a[0]), a[1..], b);
    }
  }

  /** The drawing calls still to come when the merge has reached i and j. */
  function Rest(o: seq<Coord>, n: seq<Coord>, i: nat, j: nat): seq<Op>
    requires i <= |o| && j <= |n|
  {
    MoveOps(o[i..], n[j..])
  }

  lemma RestEnds(o: seq<Coord>, n: seq<Coord>)
    ensures Rest(o, n, 0, 0) == MoveOps(o, n) && Rest(o, n, |o|, |n|) == []
  {
    assert o[0..] == o && n[0..] == n;
  }

  /** One step of the merge, for the suffixes from i and j. */
  function MoveStep(o: seq<Coord>, n: seq<Coord>, i: nat, j: nat): (r: (seq<Op>, nat, nat))
    requires i <= |o| && j <= |n| && (i < |o| || j < |n|)
    ensures r.1 <= |o| && r.2 <= |n| && r.1 + r.2 > i + j
    ensures Rest(o, n, i, j) == r.0 + Rest(o, n, r.1, r.2)
  {
    assert i < |o| ==> o[i..][1..] == o[i+1..];
    assert j < |n| ==> n[j..][1..] == n[j+1..];
    if i == |o| || (j < |n| && Before(n[j], o[i])) then (DrawIfVisible(n[j], true), i, j + 1)
    else if j == |n| || Before(o[i], n[j]) then (DrawIfVisible(o[i], false), i + 1, j)
    else ([], i + 1, j + 1)
  }

  method DrawVisible(scr: Screen, c: Coord, visible: bool)
    modifies scr
    ensures scr.log == old(scr.log) + DrawIfVisible(c, visible)
    ensures scr.lit == Paint(old(scr.lit), DrawIfVisible(c, visible))
  {
    if c.x >= 0 {
      scr.DrawBlock(c.x, c.y, visible);
    }
  }

  /** One turn of the merge loop, with both lists not yet at their end marks. */
  method MoveOne(scr: Screen, old_: array<Coord>, new_: array<Coord>, i: nat, j: nat,
                 ghost o: seq<Coord>, ghost n: seq<Coord>) returns (i': nat, j': nat)
    requires Holds(old_, o) && Holds(new_, n)
    requires i <= |o| && j <= |n| && (i < |o| || j < |n|)
    modifies scr
    ensures i' == MoveStep(o, n, i, j).1 && j' == MoveStep(o, n, i, j).2
    ensures scr.log == old(scr.log) + MoveStep(o, n, i, j).0
    ensures scr.lit == Paint(old(scr.lit), MoveStep(o, n, i, j).0)
  {
    HoldsAt(old_, o, i);
    HoldsAt(new_, n, j);
    i', j' := i, j;
    if old_[i].x == FIN || (new_[j].x != FIN &&
       (old_[i].x > new_[j].x || (old_[i].x == new_[j].x && old_[i].y > new_[j].y))) {
      DrawVisible(scr, new_[j], true);
      j' := j + 1;
    } else if new_[j].x == FIN || old_[i].x < new_[j].x || old_[i].y != new_[j].y {
      DrawVisible(scr, old_[i], false);
      i' := i + 1;
    } else {
      i', j' := i + 1, j + 1;
    }
  }

  /** Walks the two end-marked lists side by side, drawing only what differs. */
  method Move(scr: Screen, old_: array<Coord>, new_: array<Coord>, ghost o: seq<Coord>, ghost n: seq<Coord>)
    requires Holds(old_, o) && Holds(new_, n)
    modifies scr
    ensures scr.log == old(scr.log) + MoveOps(o, n)
    ensures scr.lit == Paint(old(scr.lit), MoveOps(o, n))
  {
    hide Rest, MoveOps, MoveStep;
    var i, j := 0, 0;
    ghost var done: seq<Op> := [];
    RestEnds(o, n);
    while true
      invariant 0 <= i <= |o| && 0 <= j <= |n|
      invariant done + Rest(o, n, i, j) == MoveOps(o, n)
      invariant scr.log == old(scr.log) + done
      invariant scr.lit == Paint(old(scr.lit), done)
      decreases |o| + |n| - i - j
    {
      HoldsAt(old_, o, i);
      HoldsAt(new_, n, j);
      if old_[i].x == FIN && new_[j].x == FIN {
        assert done + [] == done;
        break;
      }
      ghost var ops := MoveStep(o, n, i, j).0;
      PaintAppend(old(scr.lit), done, ops);
      i, j := MoveOne(scr, old_, new_, i, j, o, n);
      done := done + ops;
    }
  }
}
