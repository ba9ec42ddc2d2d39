/** Whole runs over any number of queues: elements enter, leave and move between queues that share chain fields. */
module QueueRuns {
  import opened Lists
  import opened Queues

  /** A queue is known by its head; the chain field it runs through is fixed. */
  datatype Name = Name(head: Head, chain: Chain)

  /** What every queue holds. */
  type World = map<Name, seq<Elem>>

  ghost predicate Disjoint(s: seq<Elem>, t: seq<Elem>) {
    forall e :: e in s ==> e !in t
  }

  ghost predicate Parted(m: World, a: Name, b: Name)
    requires a in m && b in m
  {
    a.head != b.head && (a.chain == b.chain ==> Disjoint(m[a], m[b]))
  }

  /** Queues have different heads, and no element is twice on queues through the same chain field. */
  ghost predicate Separate(m: World) {
    && (forall a :: a in m ==> Distinct(m[a]))
    && (forall a, b :: a in m && b in m && a != b ==> Parted(m, a, b))
  }

  ghost function Heads(m: World): set<Head> {
    set a | a in m :: a.head
  }

  ghost function Members(m: World): set<Elem> {
    set a, e | a in m && e in m[a] :: e
  }

  /** Memory holds the world: every head's ring is its sequence. */
  ghost predicate Holding(m: World)
    reads Heads(m), Members(m)
  {
    forall a :: a in m ==> (Listed(m, a); IsQueue(a.head, a.chain, m[a]))
  }

  lemma Listed(m: World, a: Name)
    requires a in m
    ensures a.head in Heads(m) && forall e :: e in m[a] ==> e in Members(m)
  {
  }

  /** An operation on one of the queues. */
  datatype Act = Act(on: Name, op: Op)

  /** The operation is legal on its queue, and an element that enters is on no other queue of the same chain field. */
  ghost predicate LegalAct(m: World, x: Act) {
    && x.on in m && Legal(x.on.head, m[x.on], x.op)
    && (x.op.Put? ==> forall b :: b in m && b.chain == x.on.chain ==> x.op.elt !in m[b])
  }

  ghost function After(m: World, x: Act): World
    requires LegalAct(m, x)
  {
    m[x.on := Effect(x.on.head, m[x.on], x.op)]
  }

  ghost predicate LegalActs(m: World, xs: seq<Act>)
    decreases |xs|
  {
    xs == [] || (LegalAct(m, xs[0]) && LegalActs(After(m, xs[0]), xs[1..]))
  }

  ghost function AfterAll(m: World, xs: seq<Act>): World
    requires LegalActs(m, xs)
    decreases |xs|
  {
    if xs == [] then m else AfterAll(After(m, xs[0]), xs[1..])
  }

  /** The elements the run hands back, in order. */
  ghost function ReturnedAll(m: World, xs: seq<Act>): seq<Elem>
    requires LegalActs(m, xs)
    decreases |xs|
  {
    if xs == [] then [] else (if xs[0].op.Pop? then [m[xs[0].on][0]] else []) + ReturnedAll(After(m, xs[0]), xs[1..])
  }

  function Entrant(op: Op): set<Elem> {
    if op.Put? then {op.elt} else {}
  }

  function Entrants(xs: seq<Act>): set<Elem>
    decreases |xs|
  {
    if xs == [] then {} else Entrant(xs[0].op) + Entrants(xs[1..])
  }

  lemma EffectElements(q: Head, s: seq<Elem>, op: Op)
    requires Legal(q, s, op)
    ensures forall e :: e in Effect(q, s, op) ==> e in s || e in Entrant(op)
    ensures Distinct(s) ==> Distinct(Effect(q, s, op))
  {
  }

  /** Every legal operation keeps the queues separate. */
  lemma SeparateKept(m: World, x: Act)
    requires Separate(m) && LegalAct(m, x)
    ensures Separate(After(m, x))
  {
    var w := After(m, x);
    EffectElements(x.on.head, m[x.on], x.op);
    forall a, b | a in w && b in w && a != b ensures Parted(w, a, b) {
      assert Parted(m, a, b);
    }
  }

  lemma MembersAfter(m: World, x: Act)
    requires LegalAct(m, x)
    ensures Heads(After(m, x)) == Heads(m)
    ensures Members(After(m, x)) <= Members(m) + Entrant(x.op)
  {
    EffectElements(x.on.head, m[x.on], x.op);
    var w := After(m, x);
    assert w.Keys == m.Keys;
    forall e | e in Members(w) ensures e in Members(m) + Entrant(x.op) {
      var a :| a in w && e in w[a];
      assert a in m;
      if a == x.on && e !in Entrant(x.op) { assert e in m[x.on]; }
    }
  }

  lemma OthersApart(m: World, x: Act, b: Name)
    requires Separate(m) && LegalAct(m, x) && b in m && b != x.on
    ensures var s := m[x.on];
            Apart(Queue(b.head, b.chain, m[b]), x.on.head, x.on.chain, if x.op.Put? then s + [x.op.elt] else s)
  {
    assert Parted(m, b, x.on);
  }

  /** Carries out one operation on one queue of the world. */
  method Do(x: Act, ghost m: World) returns (out: seq<Elem>)
    requires Separate(m) && Holding(m) && LegalAct(m, x)
    modifies x.on.head, m[x.on], Entrant(x.op)
    ensures out == if x.op.Pop? then [m[x.on][0]] else []
    ensures Holding(After(m, x))
  {
    hide IsQueue, Effect, Legal, Apart;
    ghost var others := set b | b in m && b != x.on :: Queue(b.head, b.chain, m[b]);
    forall o | o in others
      ensures Holds(o)
      ensures var s := m[x.on]; Apart(o, x.on.head, x.on.chain, if x.op.Put? then s + [x.op.elt] else s)
    {
      var b :| b in m && b != x.on && o == Queue(b.head, b.chain, m[b]);
      OthersApart(m, x, b);
    }
    out := Perform(x.on.head, x.on.chain, x.op, m[x.on], others);
    forall a | a in After(m, x) ensures IsQueue(a.head, a.chain, After(m, x)[a]) {
      if a != x.on { assert Holds(Queue(a.head, a.chain, m[a])); }
    }
  }

  /** Every legal run of operations on any number of queues does to memory what it does to the sequences, hands back
      the elements it should, and leaves the queues separate. */
  method Run(xs: seq<Act>, ghost m: World) returns (out: seq<Elem>)
    requires Separate(m) && Holding(m) && LegalActs(m, xs)
    modifies Heads(m), Members(m), Entrants(xs)
    ensures Holding(AfterAll(m, xs)) && Separate(AfterAll(m, xs))
    ensures out == ReturnedAll(m, xs)
    decreases |xs|
  {
    out := [];
    if xs != [] {
      SeparateKept(m, xs[0]);
      MembersAfter(m, xs[0]);
      Listed(m, xs[0].on);
      var first := Do(xs[0], m);
      var rest := Run(xs[1..], After(m, xs[0]));
      out := first + rest;
    }
  }

  // ---------------------------------------------------------------- what a run hands back

  function Pops(xs: seq<Act>): nat
    decreases |xs|
  {
    if xs == [] then 0 else (if xs[0].op.Pop? then 1 else 0) + Pops(xs[1..])
  }

  lemma {:induction false} OnePerPop(m: World, xs: seq<Act>)
    requires LegalActs(m, xs)
    ensures |ReturnedAll(m, xs)| == Pops(xs)
    decreases |xs|
  {
    if xs != [] { OnePerPop(After(m, xs[0]), xs[1..]); }
  }

  /** A run hands back one element for each pop, in their order: the one that was first on that queue just before. */
  lemma {:induction false} HandedBack(m: World, xs: seq<Act>, j: nat)
    requires LegalActs(m, xs) && j < |xs| && xs[j].op.Pop?
    ensures |ReturnedAll(m, xs)| == Pops(xs) && Pops(xs[..j]) < Pops(xs)
    ensures LegalActs(m, xs[..j]) && xs[j].on in AfterAll(m, xs[..j]) && AfterAll(m, xs[..j])[xs[j].on] != []
    ensures ReturnedAll(m, xs)[Pops(xs[..j])] == AfterAll(m, xs[..j])[xs[j].on][0]
    decreases |xs|
  {
    hide Effect;
    OnePerPop(m, xs);
    if j > 0 {
      HandedBack(After(m, xs[0]), xs[1..], j - 1);
      assert xs[..j][1..] == xs[1..][..j-1] && xs[..j][0] == xs[0];
    }
  }

  /** The queue a is used first in, first out: other queues may be used in any way. */
  predicate InOrder(xs: seq<Act>, a: Name) {
    forall j :: 0 <= j < |xs| && xs[j].on == a ==> xs[j].op.Pop? || (xs[j].op.Put? && xs[j].op.form.Last?)
  }

  /** What entered queue a, in order. */
  function Entered(xs: seq<Act>, a: Name): seq<Elem>
    decreases |xs|
  {
    if xs == [] then []
    else (if xs[0].on == a && xs[0].op.Put? then [xs[0].op.elt] else []) + Entered(xs[1..], a)
  }

  /** What was handed back from queue a, in order. */
  ghost function HandedFrom(m: World, xs: seq<Act>, a: Name): seq<Elem>
    requires LegalActs(m, xs)
    decreases |xs|
  {
    if xs == [] then []
    else (if xs[0].on == a && xs[0].op.Pop? then [m[a][0]] else []) + HandedFrom(After(m, xs[0]), xs[1..], a)
  }

  /** On one queue alone that is all the run hands back. */
  lemma {:induction false} HandedFromOnly(m: World, xs: seq<Act>, a: Name)
    requires LegalActs(m, xs) && forall j :: 0 <= j < |xs| ==> xs[j].on == a
    ensures HandedFrom(m, xs, a) == ReturnedAll(m, xs)
    decreases |xs|
  {
    hide Effect;
    if xs != [] { HandedFromOnly(After(m, xs[0]), xs[1..], a); }
  }

  /** First in, first out: in every legal run over any number of queues, what a queue used in order hands back, followed
      by what it still holds, is what it held followed by what entered it. */
  lemma {:induction false} FirstInFirstOut(m: World, xs: seq<Act>, a: Name)
    requires LegalActs(m, xs) && a in m && InOrder(xs, a)
    ensures a in AfterAll(m, xs)
    ensures HandedFrom(m, xs, a) + AfterAll(m, xs)[a] == m[a] + Entered(xs, a)
    decreases |xs|
  {
    hide Effect, Legal;
    if xs != [] {
      var x, rest := xs[0], xs[1..];
      FirstInFirstOut(After(m, x), rest, a);
      OrderStep(m, x, a);
      var handed := if x.on == a && x.op.Pop? then [m[a][0]] else [];
      var entered := if x.on == a && x.op.Put? then [x.op.elt] else [];
      Regroup(handed, HandedFrom(After(m, x), rest, a), AfterAll(m, xs)[a], m[a], After(m, x)[a], entered,
              Entered(rest, a));
    }
  }

  lemma OrderStep(m: World, x: Act, a: Name)
    requires LegalAct(m, x) && a in m && InOrder([x], a)
    ensures x.on == a && x.op.Pop? ==> m[a] != []
    ensures (if x.on == a && x.op.Pop? then [m[a][0]] else []) + After(m, x)[a]
         == m[a] + (if x.on == a && x.op.Put? then [x.op.elt] else [])
  {
    assert [x][0] == x;
    if x.on == a { var _, _ := EffectRule(a.head, m[a], x.op); }
  }

  lemma Regroup(h: seq<Elem>, hs: seq<Elem>, left: seq<Elem>, was: seq<Elem>, then_: seq<Elem>, e: seq<Elem>, es: seq<Elem>)
    requires h + then_ == was + e && hs + left == then_ + es
    ensures h + hs + left == was + (e + es)
  {
    assert h + hs + left == h + (hs + left) == (h + then_) + es == was + (e + es);
  }

  // ---------------------------------------------------------------- who is on a queue

  /** The elements on queues of one chain field. */
  ghost function Aboard(m: World, f: Chain): set<Elem> {
    set a, e | a in m && a.chain == f && e in m[a] :: e
  }

  /** Who leaves when the operation is carried out. */
  ghost function Leaver(m: World, x: Act): set<Elem>
    requires LegalAct(m, x)
  {
    match x.op
    case Put(_, _) => {}
    case Take(e) => {e}
    case Pop => {m[x.on][0]}
  }

  lemma DeletedElements(s: seq<Elem>, i: nat, d: Elem)
    requires Distinct(s) && i < |s|
    ensures d in Deleted(s, i) <==> d in s && d != s[i]
  {
    if d in s && d != s[i] {
      var k :| 0 <= k < |s| && s[k] == d;
      assert Deleted(s, i)[if k < i then k else k - 1] == d;
    }
  }

  lemma InsertedElements(s: seq<Elem>, i: nat, x: Elem, d: Elem)
    requires i <= |s|
    ensures d in Inserted(s, i, x) <==> d in s || d == x
  {
    var r := Inserted(s, i, x);
    assert r[i] == x;
    if d in s {
      var k :| 0 <= k < |s| && s[k] == d;
      assert r[if k < i then k else k + 1] == d;
    }
  }

  /** The operation changes its own queue by exactly who enters and who leaves. */
  lemma EffectExact(m: World, x: Act, d: Elem)
    requires Separate(m) && LegalAct(m, x)
    ensures d in After(m, x)[x.on] <==> (d in m[x.on] && d !in Leaver(m, x)) || d in Entrant(x.op)
  {
    var s := m[x.on];
    match x.op {
      case Put(e, form) => InsertedElements(s, Position(x.on.head, s, form), e, d);
      case Take(e) => DeletedElements(s, IndexOf(s, e), d);
      case Pop =>
        DeletedElements(s, 0, d);
        assert Deleted(s, 0) == s[1..];
    }
  }

  lemma LeaverElsewhere(m: World, x: Act, b: Name, d: Elem)
    requires Separate(m) && LegalAct(m, x) && b in m && b.chain == x.on.chain && b != x.on
    ensures d in m[b] ==> d !in Leaver(m, x) && d !in Entrant(x.op)
  {
    assert Parted(m, x.on, b);
  }

  /** On its chain field, an operation brings aboard exactly who enters, who was not there, and takes off who leaves, who was. */
  lemma AboardAfter(m: World, x: Act)
    requires Separate(m) && LegalAct(m, x)
    ensures Aboard(After(m, x), x.on.chain) == Aboard(m, x.on.chain) - Leaver(m, x) + Entrant(x.op)
    ensures Leaver(m, x) <= Aboard(m, x.on.chain) && Entrant(x.op) !! Aboard(m, x.on.chain)
  {
    hide Effect, Leaver, Entrant;
    var w, f := After(m, x), x.on.chain;
    var goal := Aboard(m, f) - Leaver(m, x) + Entrant(x.op);
    forall d | d in Aboard(w, f) ensures d in goal {
      EffectExact(m, x, d);
      var a :| a in w && a.chain == f && d in w[a];
      if a != x.on {
        LeaverElsewhere(m, x, a, d);
        assert d in m[a];
      } else if d !in Entrant(x.op) {
        assert d in m[x.on];
      }
    }
    forall d | d in goal ensures d in Aboard(w, f) {
      EffectExact(m, x, d);
      if d in Entrant(x.op) {
        assert d in w[x.on];
      } else {
        var a :| a in m && a.chain == f && d in m[a];
        assert d in w[a];
      }
    }
    WhoMoves(m, x);
  }

  lemma WhoMoves(m: World, x: Act)
    requires LegalAct(m, x)
    ensures Leaver(m, x) <= Aboard(m, x.on.chain) && Entrant(x.op) !! Aboard(m, x.on.chain)
  {
    forall d | d in Leaver(m, x) ensures d in Aboard(m, x.on.chain) {
      assert d in m[x.on];
    }
  }

  lemma AboardOther(m: World, x: Act, f: Chain)
    requires LegalAct(m, x) && f != x.on.chain
    ensures Aboard(After(m, x), f) == Aboard(m, f)
  {
    var w := After(m, x);
    forall d ensures d in Aboard(w, f) <==> d in Aboard(m, f) {
      if d in Aboard(m, f) {
        var a :| a in m && a.chain == f && d in m[a];
        assert d in w[a];
      }
    }
  }

  /** Insertions less removals among the operations on one chain field. */
  function Balance(xs: seq<Act>, f: Chain): int
    decreases |xs|
  {
    if xs == [] then 0
    else (if xs[0].on.chain != f then 0 else if xs[0].op.Put? then 1 else -1) + Balance(xs[1..], f)
  }

  /** Over every legal run, each chain field carries as many elements as before plus insertions less removals. */
  lemma {:induction false} RunConserves(m: World, xs: seq<Act>, f: Chain)
    requires Separate(m) && LegalActs(m, xs)
    ensures |Aboard(AfterAll(m, xs), f)| == |Aboard(m, f)| + Balance(xs, f)
    decreases |xs|
  {
    if xs != [] {
      var x := xs[0];
      SeparateKept(m, x);
      RunConserves(After(m, x), xs[1..], f);
      if x.on.chain == f {
        AboardAfter(m, x);
      } else {
        AboardOther(m, x, f);
      }
    }
  }

  /** An element may always leave its queue for any position of another queue of the same chain field; that is legal,
      changes those two sequences only, and loses nobody. */
  lemma Migration(m: World, a: Name, b: Name, e: Elem, form: Form)
    requires Separate(m) && a in m && b in m && a != b && a.chain == b.chain && e in m[a]
    requires Legal(b.head, m[b], Put(e, form))
    ensures var xs := [Act(a, Take(e)), Act(b, Put(e, form))];
            && LegalActs(m, xs)
            && AfterAll(m, xs) == m[a := Deleted(m[a], IndexOf(m[a], e))][b := Inserted(m[b], Position(b.head, m[b], form), e)]
            && Aboard(AfterAll(m, xs), a.chain) == Aboard(m, a.chain)
  {
    var x, y := Act(a, Take(e)), Act(b, Put(e, form));
    var xs := [x, y];
    var w := After(m, x);
    assert Parted(m, a, b);
    SeparateKept(m, x);
    AboardAfter(m, x);
    assert forall c :: c in w && c.chain == a.chain && e in w[c] ==> e in Aboard(w, a.chain);
    assert LegalAct(w, y);
    assert xs[1..] == [y] && [y][1..] == [];
    assert AfterAll(m, xs) == AfterAll(w, [y]) == After(w, y);
    AboardAfter(w, y);
  }
}
