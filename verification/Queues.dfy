/** The Mach queue: a circular doubly linked list threaded through chain fields of the caller's own objects. */
module Queues {
  import opened Lists

  /** A link: queue entries point either back to the queue head or to an element. */
  datatype Ptr = ToHead(head: Head) | ToElem(elem: Elem)

  /** The name of a chain field; one object may have several, for different queues. */
  datatype Chain = Chain(id: int)

  type LinkMap = map<Chain, Ptr>

  class Head {
    var next: Ptr
    var prev: Ptr

    constructor ()
      ensures forall f: Chain :: IsQueue(this, f, [])
    {
      next := ToHead(this);
      prev := ToHead(this);
    }
  }

  /** The links of an element, one pair for every chain field that has been used. */
  class Elem {
    var next: LinkMap
    var prev: LinkMap

    constructor ()
      ensures next == map[] && prev == map[]
    {
      next := map[];
      prev := map[];
    }
  }

  /** All links of a head and of a list of elements at one moment. */
  datatype Links = Links(hn: Ptr, hp: Ptr, n: seq<LinkMap>, p: seq<LinkMap>)

  ghost function Nexts(s: seq<Elem>): (r: seq<LinkMap>)
    reads s
    ensures |r| == |s| && forall k :: 0 <= k < |s| ==> r[k] == s[k].next
  {
    if s == [] then [] else Nexts(s[..|s| - 1]) + [s[|s| - 1].next]
  }

  ghost function Prevs(s: seq<Elem>): (r: seq<LinkMap>)
    reads s
    ensures |r| == |s| && forall k :: 0 <= k < |s| ==> r[k] == s[k].prev
  {
    if s == [] then [] else Prevs(s[..|s| - 1]) + [s[|s| - 1].prev]
  }

  ghost function LinksOf(q: Head, s: seq<Elem>): Links
    reads q, s
  {
    Links(q.next, q.prev, Nexts(s), Prevs(s))
  }

  /** The circular order: position -1 and position |s| are the head. */
  ghost function Node(q: Head, s: seq<Elem>, i: int): Ptr {
    if 0 <= i < |s| then ToElem(s[i]) else ToHead(q)
  }

  /** In the links v, head q and the elements s form a ring through chain field f. */
  ghost predicate Ring(q: Head, f: Chain, s: seq<Elem>, v: Links) {
    && |v.n| == |s| && |v.p| == |s|
    && Distinct(s)
    && v.hn == Node(q, s, 0) && v.hp == Node(q, s, |s| - 1)
    && (forall i :: 0 <= i < |s| ==> f in v.n[i] && v.n[i][f] == Node(q, s, i + 1))
    && (forall i :: 0 <= i < |s| ==> f in v.p[i] && v.p[i][f] == Node(q, s, i - 1))
  }

  /** Head q holds exactly the elements s, in order, through chain field f. */
  ghost predicate IsQueue(q: Head, f: Chain, s: seq<Elem>)
    reads q, s
  {
    Ring(q, f, s, LinksOf(q, s))
  }

  /** A column of links with entry k, if there is one, pointing to x. */
  ghost function Pointed(col: seq<LinkMap>, f: Chain, k: int, x: Ptr): (r: seq<LinkMap>)
    ensures |r| == |col|
    ensures forall j :: 0 <= j < |col| ==> r[j] == if j == k then col[j][f := x] else col[j]
  {
    if 0 <= k < |col| then col[k := col[k][f := x]] else col
  }

  /** The links v of s, with elt, whose own links were en and ep, put at position i. */
  ghost function SplicedIn(q: Head, f: Chain, s: seq<Elem>, v: Links, i: nat, elt: Elem, en: LinkMap, ep: LinkMap): Links
    requires i <= |s| && |v.n| == |v.p| == |s|
  {
    var x := ToElem(elt);
    Links(if i == 0 then x else v.hn,
          if i == |s| then x else v.hp,
          Inserted(Pointed(v.n, f, i - 1, x), i, en[f := Node(q, s, i)]),
          Inserted(Pointed(v.p, f, i, x), i, ep[f := Node(q, s, i - 1)]))
  }

  /** The links v of s with position i taken out. */
  ghost function SplicedOut(q: Head, f: Chain, s: seq<Elem>, v: Links, i: nat): Links
    requires i < |s| && |v.n| == |v.p| == |s|
  {
    var n, p := Node(q, s, i + 1), Node(q, s, i - 1);
    Links(if i == 0 then n else v.hn,
          if i == |s| - 1 then p else v.hp,
          Deleted(Pointed(v.n, f, i - 1, n), i),
          Deleted(Pointed(v.p, f, i + 1, p), i))
  }

  lemma InsertedAt<T>(s: seq<T>, i: nat, x: T, k: nat)
    requires i <= |s| && k <= |s|
    ensures |Inserted(s, i, x)| == |s| + 1
    ensures Inserted(s, i, x)[k] == if k < i then s[k] else if k == i then x else s[k-1]
  {
  }

  lemma InsertedNode(q: Head, s: seq<Elem>, i: nat, elt: Elem, k: int)
    requires i <= |s|
    ensures Node(q, Inserted(s, i, elt), k) ==
            if k < i then Node(q, s, k) else if k == i then ToElem(elt) else Node(q, s, k - 1)
  {
    if 0 <= k <= |s| { InsertedAt(s, i, elt, k); }
  }

  lemma DeletedNode(q: Head, s: seq<Elem>, i: nat, k: int)
    requires i < |s|
    ensures Node(q, Deleted(s, i), k) == Node(q, s, if k < i then k else k + 1)
  {
  }

  /** Splicing a new element in keeps the ring and inserts in the sequence. */
  lemma SplicedInRing(q: Head, f: Chain, s: seq<Elem>, v: Links, i: nat, elt: Elem, en: LinkMap, ep: LinkMap)
    requires Ring(q, f, s, v) && i <= |s| && elt !in s
    ensures Ring(q, f, Inserted(s, i, elt), SplicedIn(q, f, s, v, i, elt, en, ep))
  {
    var r, w := Inserted(s, i, elt), SplicedIn(q, f, s, v, i, elt, en, ep);
    InsertedNode(q, s, i, elt, 0);
    InsertedNode(q, s, i, elt, |s|);
    forall k | 0 <= k < |r| ensures f in w.n[k] && w.n[k][f] == Node(q, r, k + 1) {
      InsertedNode(q, s, i, elt, k + 1);
    }
    forall k | 0 <= k < |r| ensures f in w.p[k] && w.p[k][f] == Node(q, r, k - 1) {
      InsertedNode(q, s, i, elt, k - 1);
    }
  }

  /** Splicing an element out keeps the ring and deletes from the sequence. */
  lemma SplicedOutRing(q: Head, f: Chain, s: seq<Elem>, v: Links, i: nat)
    requires Ring(q, f, s, v) && i < |s|
    ensures Ring(q, f, Deleted(s, i), SplicedOut(q, f, s, v, i))
  {
    var r, w := Deleted(s, i), SplicedOut(q, f, s, v, i);
    DeletedNode(q, s, i, 0);
    DeletedNode(q, s, i, |s| - 2);
    forall k | 0 <= k < |r| ensures f in w.n[k] && w.n[k][f] == Node(q, r, k + 1) {
      DeletedNode(q, s, i, k + 1);
    }
    forall k | 0 <= k < |r| ensures f in w.p[k] && w.p[k][f] == Node(q, r, k - 1) {
      DeletedNode(q, s, i, k - 1);
    }
  }

  lemma DeletedInserted<T>(s: seq<T>, i: nat, x: T)
    requires i <= |s|
    ensures Deleted(Inserted(s, i, x), i) == s
  {
  }

  lemma NextsUndone(col: seq<LinkMap>, f: Chain, i: nat, x: Ptr, mine: LinkMap, n: Ptr)
    requires i <= |col| && (i > 0 ==> f in col[i-1] && col[i-1][f] == n)
    ensures Deleted(Pointed(Inserted(Pointed(col, f, i - 1, x), i, mine), f, i - 1, n), i) == col
  {
    if i > 0 { assert col[i-1][f := x][f := n] == col[i-1]; }
  }

  lemma PrevsUndone(col: seq<LinkMap>, f: Chain, i: nat, x: Ptr, mine: LinkMap, p: Ptr)
    requires i <= |col| && (i < |col| ==> f in col[i] && col[i][f] == p)
    ensures Deleted(Pointed(Inserted(Pointed(col, f, i, x), i, mine), f, i + 1, p), i) == col
  {
    if i < |col| { assert col[i][f := x][f := p] == col[i]; }
  }

  /** Taking out what was put in restores every link of the head and of all other elements. */
  lemma SpliceUndone(q: Head, f: Chain, s: seq<Elem>, v: Links, i: nat, elt: Elem, en: LinkMap, ep: LinkMap)
    requires Ring(q, f, s, v) && i <= |s|
    ensures Deleted(Inserted(s, i, elt), i) == s
    ensures SplicedOut(q, f, Inserted(s, i, elt), SplicedIn(q, f, s, v, i, elt, en, ep), i) == v
  {
    DeletedInserted(s, i, elt);
    InsertedNode(q, s, i, elt, i + 1);
    InsertedNode(q, s, i, elt, i - 1);
    NextsUndone(v.n, f, i, ToElem(elt), en[f := Node(q, s, i)], Node(q, s, i));
    PrevsUndone(v.p, f, i, ToElem(elt), ep[f := Node(q, s, i - 1)], Node(q, s, i - 1));
  }

  // ---------------------------------------------------------------- from memory to links

  /** The forward links of the elements, right now. */
  ghost predicate Forward(s: seq<Elem>, col: seq<LinkMap>)
    reads s`next
  {
    |col| == |s| && forall k :: 0 <= k < |s| ==> s[k].next == col[k]
  }

  ghost predicate Backward(s: seq<Elem>, col: seq<LinkMap>)
    reads s`prev
  {
    |col| == |s| && forall k :: 0 <= k < |s| ==> s[k].prev == col[k]
  }

  /** What a queue's own links say at its head and at one position. */
  lemma QueueAt(q: Head, f: Chain, s: seq<Elem>, i: int)
    requires IsQueue(q, f, s)
    ensures Ring(q, f, s, LinksOf(q, s))
    ensures Distinct(s) && Forward(s, LinksOf(q, s).n) && Backward(s, LinksOf(q, s).p)
    ensures q.next == LinksOf(q, s).hn == Node(q, s, 0)
    ensures q.prev == LinksOf(q, s).hp == Node(q, s, |s| - 1)
    ensures 0 <= i < |s| ==> f in s[i].next && s[i].next[f] == Node(q, s, i + 1)
    ensures 0 <= i < |s| ==> f in s[i].prev && s[i].prev[f] == Node(q, s, i - 1)
  {
  }

  /** Right now the links are v with elt put at position i. */
  ghost predicate NowIn(q: Head, f: Chain, s: seq<Elem>, v: Links, i: nat, elt: Elem, en: LinkMap, ep: LinkMap)
    requires i <= |s|
    reads q, s, elt
  {
    && q.next == (if i == 0 then ToElem(elt) else v.hn)
    && q.prev == (if i == |s| then ToElem(elt) else v.hp)
    && elt.next == en[f := Node(q, s, i)] && elt.prev == ep[f := Node(q, s, i - 1)]
    && Forward(s, Pointed(v.n, f, i - 1, ToElem(elt)))
    && Backward(s, Pointed(v.p, f, i, ToElem(elt)))
  }

  /** Right now the links are v with position i taken out; the element itself keeps its links. */
  ghost predicate NowOut(q: Head, f: Chain, s: seq<Elem>, v: Links, i: nat)
    requires i < |s|
    reads q, s
  {
    && q.next == (if i == 0 then Node(q, s, i + 1) else v.hn)
    && q.prev == (if i == |s| - 1 then Node(q, s, i - 1) else v.hp)
    && Forward(s, Pointed(v.n, f, i - 1, Node(q, s, i + 1)))
    && Backward(s, Pointed(v.p, f, i + 1, Node(q, s, i - 1)))
  }

  lemma NextsInserted(s: seq<Elem>, i: nat, elt: Elem, col: seq<LinkMap>)
    requires i <= |s| && Forward(s, col)
    ensures Nexts(Inserted(s, i, elt)) == Inserted(col, i, elt.next)
  {
  }

  lemma PrevsInserted(s: seq<Elem>, i: nat, elt: Elem, col: seq<LinkMap>)
    requires i <= |s| && Backward(s, col)
    ensures Prevs(Inserted(s, i, elt)) == Inserted(col, i, elt.prev)
  {
  }

  lemma NextsDeleted(s: seq<Elem>, i: nat, col: seq<LinkMap>)
    requires i < |s| && Forward(s, col)
    ensures Nexts(Deleted(s, i)) == Deleted(col, i)
  {
  }

  lemma PrevsDeleted(s: seq<Elem>, i: nat, col: seq<LinkMap>)
    requires i < |s| && Backward(s, col)
    ensures Prevs(Deleted(s, i)) == Deleted(col, i)
  {
  }

  lemma NowInIsQueue(q: Head, f: Chain, s: seq<Elem>, v: Links, i: nat, elt: Elem, en: LinkMap, ep: LinkMap)
    requires Ring(q, f, s, v) && i <= |s| && elt !in s
    requires NowIn(q, f, s, v, i, elt, en, ep)
    ensures LinksOf(q, Inserted(s, i, elt)) == SplicedIn(q, f, s, v, i, elt, en, ep)
    ensures IsQueue(q, f, Inserted(s, i, elt))
  {
    hide Ring;
    SplicedInRing(q, f, s, v, i, elt, en, ep);
    NextsInserted(s, i, elt, Pointed(v.n, f, i - 1, ToElem(elt)));
    PrevsInserted(s, i, elt, Pointed(v.p, f, i, ToElem(elt)));
  }

  lemma NowOutIsQueue(q: Head, f: Chain, s: seq<Elem>, v: Links, i: nat)
    requires Ring(q, f, s, v) && i < |s|
    requires NowOut(q, f, s, v, i)
    ensures LinksOf(q, Deleted(s, i)) == SplicedOut(q, f, s, v, i)
    ensures IsQueue(q, f, Deleted(s, i))
  {
    hide Ring;
    SplicedOutRing(q, f, s, v, i);
    NextsDeleted(s, i, Pointed(v.n, f, i - 1, Node(q, s, i + 1)));
    PrevsDeleted(s, i, Pointed(v.p, f, i + 1, Node(q, s, i - 1)));
  }

  // ---------------------------------------------------------------- the operations

  /** Makes the entry p, which is position k or the head, point forward to x. */
  method PointForward(q: Head, p: Ptr, f: Chain, x: Ptr, ghost s: seq<Elem>, ghost k: int, ghost col: seq<LinkMap>)
    requires Distinct(s) && Forward(s, col)
    requires -1 <= k < |s| && p == Node(q, s, k)
    modifies q`next, s`next
    ensures q.next == if k == -1 then x else old(q.next)
    ensures Forward(s, Pointed(col, f, k, x))
  {
    if p == ToHead(q) {
      q.next := x;
    } else {
      p.elem.next := p.elem.next[f := x];
    }
  }

  /** Makes the entry p, which is position k or the head, point back to x. */
  method PointBack(q: Head, p: Ptr, f: Chain, x: Ptr, ghost s: seq<Elem>, ghost k: int, ghost col: seq<LinkMap>)
    requires Distinct(s) && Backward(s, col)
    requires 0 <= k <= |s| && p == Node(q, s, k)
    modifies q`prev, s`prev
    ensures q.prev == if k == |s| then x else old(q.prev)
    ensures Backward(s, Pointed(col, f, k, x))
  {
    if p == ToHead(q) {
      q.prev := x;
    } else {
      p.elem.prev := p.elem.prev[f := x];
    }
  }

  method Init(q: Head)
    modifies q
    ensures forall f: Chain :: IsQueue(q, f, [])
  {
    q.prev := ToHead(q);
    q.next := q.prev;
  }

  /** At the tail. */
  method Enter(q: Head, elt: Elem, f: Chain, ghost s: seq<Elem>)
    requires IsQueue(q, f, s) && elt !in s
    modifies q, s, elt
    ensures NowIn(q, f, s, old(LinksOf(q, s)), |s|, elt, old(elt.next), old(elt.prev))
    ensures IsQueue(q, f, s + [elt])
  {
    hide IsQueue, Ring, LinksOf, Forward, Backward, Distinct;
    QueueAt(q, f, s, -1);
    ghost var v := LinksOf(q, s);
    var prev := q.prev;
    PointForward(q, prev, f, ToElem(elt), s, |s| - 1, v.n);
    elt.prev := elt.prev[f := prev];
    elt.next := elt.next[f := ToHead(q)];
    q.prev := ToElem(elt);
    NowInIsQueue(q, f, s, v, |s|, elt, old(elt.next), old(elt.prev));
    assert Inserted(s, |s|, elt) == s + [elt];
  }

  /** At the front. */
  method EnterFirst(q: Head, elt: Elem, f: Chain, ghost s: seq<Elem>)
    requires IsQueue(q, f, s) && elt !in s
    modifies q, s, elt
    ensures NowIn(q, f, s, old(LinksOf(q, s)), 0, elt, old(elt.next), old(elt.prev))
    ensures IsQueue(q, f, [elt] + s)
  {
    hide IsQueue, Ring, LinksOf, Forward, Backward, Distinct;
    QueueAt(q, f, s, -1);
    ghost var v := LinksOf(q, s);
    var next := q.next;
    PointBack(q, next, f, ToElem(elt), s, 0, v.p);
    elt.next := elt.next[f := next];
    elt.prev := elt.prev[f := ToHead(q)];
    q.next := ToElem(elt);
    NowInIsQueue(q, f, s, v, 0, elt, old(elt.next), old(elt.prev));
    assert Inserted(s, 0, elt) == [elt] + s;
  }

  /** Gives elt the links of an element before nelt, which is position i or the head. */
  method LinkBefore(q: Head, nelt: Ptr, elt: Elem, f: Chain, ghost s: seq<Elem>, ghost i: nat) returns (prev: Ptr)
    requires IsQueue(q, f, s) && elt !in s
    requires i <= |s| && nelt == Node(q, s, i)
    modifies elt
    ensures prev == Node(q, s, i - 1)
    ensures elt.next == old(elt.next)[f := nelt] && elt.prev == old(elt.prev)[f := prev]
  {
    hide IsQueue, Ring, LinksOf, Forward, Backward, Distinct;
    QueueAt(q, f, s, i);
    elt.next := elt.next[f := nelt];
    prev := if nelt == ToHead(q) then q.prev else nelt.elem.prev[f];
    elt.prev := elt.prev[f := prev];
  }

  /** Gives elt the links of an element after pelt, which is position i - 1 or the head. */
  method LinkAfter(q: Head, pelt: Ptr, elt: Elem, f: Chain, ghost s: seq<Elem>, ghost i: nat) returns (next: Ptr)
    requires IsQueue(q, f, s) && elt !in s
    requires i <= |s| && pelt == Node(q, s, i - 1)
    modifies elt
    ensures next == Node(q, s, i)
    ensures elt.next == old(elt.next)[f := next] && elt.prev == old(elt.prev)[f := pelt]
  {
    hide IsQueue, Ring, LinksOf, Forward, Backward, Distinct;
    QueueAt(q, f, s, i - 1);
    elt.prev := elt.prev[f := pelt];
    next := if pelt == ToHead(q) then q.next else pelt.elem.next[f];
    elt.next := elt.next[f := next];
  }

  /** Before position i, which is given by its link nelt and may be the head. */
  method EnterBefore(q: Head, nelt: Ptr, elt: Elem, f: Chain, ghost s: seq<Elem>, ghost i: nat)
    requires IsQueue(q, f, s) && elt !in s
    requires i <= |s| && nelt == Node(q, s, i)
    modifies q, s, elt
    ensures NowIn(q, f, s, old(LinksOf(q, s)), i, elt, old(elt.next), old(elt.prev))
    ensures IsQueue(q, f, Inserted(s, i, elt))
  {
    hide Node, Inserted, SplicedIn, IsQueue, Ring, LinksOf, Pointed, Forward, Backward, Distinct;
    QueueAt(q, f, s, i);
    ghost var v := LinksOf(q, s);
    var prev := LinkBefore(q, nelt, elt, f, s, i);
    PointBack(q, nelt, f, ToElem(elt), s, i, v.p);
    PointForward(q, prev, f, ToElem(elt), s, i - 1, v.n);
    NowInIsQueue(q, f, s, v, i, elt, old(elt.next), old(elt.prev));
  }

  /** After position i - 1, which is given by its link pelt and may be the head. */
  method EnterAfter(q: Head, pelt: Ptr, elt: Elem, f: Chain, ghost s: seq<Elem>, ghost i: nat)
    requires IsQueue(q, f, s) && elt !in s
    requires i <= |s| && pelt == Node(q, s, i - 1)
    modifies q, s, elt
    ensures NowIn(q, f, s, old(LinksOf(q, s)), i, elt, old(elt.next), old(elt.prev))
    ensures IsQueue(q, f, Inserted(s, i, elt))
  {
    hide Node, Inserted, SplicedIn, IsQueue, Ring, LinksOf, Pointed, Forward, Backward, Distinct;
    QueueAt(q, f, s, i - 1);
    ghost var v := LinksOf(q, s);
    var next := LinkAfter(q, pelt, elt, f, s, i);
    PointForward(q, pelt, f, ToElem(elt), s, i - 1, v.n);
    PointBack(q, next, f, ToElem(elt), s, i, v.p);
    NowInIsQueue(q, f, s, v, i, elt, old(elt.next), old(elt.prev));
  }

  /** The element at position i, wherever that is. */
  method Remove(q: Head, elt: Elem, f: Chain, ghost s: seq<Elem>, ghost i: nat)
    requires IsQueue(q, f, s)
    requires i < |s| && elt == s[i]
    modifies q, s
    ensures NowOut(q, f, s, old(LinksOf(q, s)), i)
    ensures IsQueue(q, f, Deleted(s, i))
  {
    hide IsQueue, Ring, LinksOf, Pointed, Forward, Backward, Distinct;
    QueueAt(q, f, s, i);
    ghost var v := LinksOf(q, s);
    var next := elt.next[f];
    var prev := elt.prev[f];
    PointBack(q, next, f, prev, s, i + 1, v.p);
    PointForward(q, prev, f, next, s, i - 1, v.n);
    NowOutIsQueue(q, f, s, v, i);
  }

  method RemoveFirst(q: Head, f: Chain, ghost s: seq<Elem>) returns (entry: Elem)
    requires IsQueue(q, f, s) && s != []
    modifies q, s
    ensures entry == s[0]
    ensures NowOut(q, f, s, old(LinksOf(q, s)), 0)
    ensures IsQueue(q, f, s[1..])
  {
    hide IsQueue, Ring, LinksOf, Forward, Backward, Distinct;
    QueueAt(q, f, s, 0);
    ghost var v := LinksOf(q, s);
    entry := q.next.elem;
    var next := entry.next[f];
    PointBack(q, next, f, ToHead(q), s, 1, v.p);
    q.next := next;
    NowOutIsQueue(q, f, s, v, 0);
    assert Deleted(s, 0) == s[1..];
  }

  // ---------------------------------------------------------------- several queues, several chains

  datatype Queue = Queue(head: Head, chain: Chain, elems: seq<Elem>)

  ghost predicate Holds(o: Queue)
    reads o.head, o.elems
  {
    IsQueue(o.head, o.chain, o.elems)
  }

  /** Queue o shares no head with q, and no element of s if it uses the same chain field. */
  ghost predicate Apart(o: Queue, q: Head, f: Chain, s: seq<Elem>) {
    o.head != q && (o.chain == f ==> forall e :: e in o.elems ==> e !in s)
  }

  predicate SameAt(g: Chain, m: LinkMap, m': LinkMap) {
    g in m ==> g in m' && m'[g] == m[g]
  }

  /** As far as queue o goes, the links are still w. */
  ghost predicate Still(o: Queue, w: Links)
    reads o.head, o.elems
  {
    && |w.n| == |w.p| == |o.elems|
    && o.head.next == w.hn && o.head.prev == w.hp
    && (forall k :: 0 <= k < |o.elems| ==> SameAt(o.chain, w.n[k], o.elems[k].next))
    && (forall k :: 0 <= k < |o.elems| ==> SameAt(o.chain, w.p[k], o.elems[k].prev))
  }

  lemma StillHolds(o: Queue, w: Links)
    requires Ring(o.head, o.chain, o.elems, w) && Still(o, w)
    ensures Holds(o)
  {
  }

  /** The four ways to insert. */
  datatype Form = Last | First | Before(at: Ptr) | After(at: Ptr)

  /** One operation on a queue: insert, remove a given element, remove the first one. */
  datatype Op = Put(elt: Elem, form: Form) | Take(elt: Elem) | Pop

  /** The form designates position i. */
  ghost predicate Designates(q: Head, s: seq<Elem>, form: Form, i: nat) {
    match form
    case Last => i == |s|
    case First => i == 0
    case Before(p) => p == Node(q, s, i)
    case After(p) => p == Node(q, s, i - 1)
  }

  /** Any of the four insertions. */
  method InsertAt(q: Head, elt: Elem, f: Chain, form: Form, ghost s: seq<Elem>, ghost i: nat)
    requires IsQueue(q, f, s) && elt !in s && i <= |s| && Designates(q, s, form, i)
    modifies q, s, elt
    ensures NowIn(q, f, s, old(LinksOf(q, s)), i, elt, old(elt.next), old(elt.prev))
    ensures IsQueue(q, f, Inserted(s, i, elt))
  {
    hide IsQueue, NowIn, LinksOf;
    match form {
      case Last =>
        Enter(q, elt, f, s);
        assert Inserted(s, i, elt) == s + [elt];
      case First =>
        EnterFirst(q, elt, f, s);
        assert Inserted(s, i, elt) == [elt] + s;
      case Before(p) => EnterBefore(q, p, elt, f, s, i);
      case After(p) => EnterAfter(q, p, elt, f, s, i);
    }
  }

  /** The links w of queue o agree with the links v of s where the two have elements in common. */
  ghost predicate Agree(o: Queue, w: Links, s: seq<Elem>, v: Links) {
    && |w.n| == |w.p| == |o.elems| && |v.n| == |v.p| == |s|
    && (forall k, j :: 0 <= k < |o.elems| && 0 <= j < |s| && o.elems[k] == s[j] ==> w.n[k] == v.n[j] && w.p[k] == v.p[j])
  }

  /** Elements of o that are not among s have the links w. */
  ghost predicate Elsewhere(o: Queue, w: Links, s: seq<Elem>)
    reads o.head, set e | e in o.elems && e !in s
  {
    && |w.n| == |w.p| == |o.elems|
    && o.head.next == w.hn && o.head.prev == w.hp
    && (forall k :: 0 <= k < |o.elems| && o.elems[k] !in s ==> o.elems[k].next == w.n[k] && o.elems[k].prev == w.p[k])
  }

  /** Only links of chain f differ between the two columns. */
  ghost predicate OnlyChain(f: Chain, col: seq<LinkMap>, col': seq<LinkMap>) {
    |col'| == |col| && forall j, g :: 0 <= j < |col| && g != f ==> SameAt(g, col[j], col'[j])
  }

  /** The links of queue o at this moment, and how they lie to those of queue q. */
  lemma OtherNow(o: Queue, q: Head, s: seq<Elem>)
    requires Holds(o)
    ensures Ring(o.head, o.chain, o.elems, LinksOf(o.head, o.elems))
    ensures Agree(o, LinksOf(o.head, o.elems), s, LinksOf(q, s))
    ensures Elsewhere(o, LinksOf(o.head, o.elems), s)
  {
  }

  lemma StillIn(o: Queue, w: Links, s: seq<Elem>, n: seq<LinkMap>, p: seq<LinkMap>)
    requires Elsewhere(o, w, s) && |w.n| == |w.p| == |o.elems|
    requires |n| == |p| == |s| && Forward(s, n) && Backward(s, p)
    requires forall k, j :: 0 <= k < |o.elems| && 0 <= j < |s| && o.elems[k] == s[j] ==>
               SameAt(o.chain, w.n[k], n[j]) && SameAt(o.chain, w.p[k], p[j])
    ensures Still(o, w)
  {
  }

  /** Changing only chain f among the elements of s leaves a queue that is apart as it was. */
  lemma OtherHolds(o: Queue, w: Links, q: Head, f: Chain, s: seq<Elem>, v: Links, n: seq<LinkMap>, p: seq<LinkMap>)
    requires Ring(o.head, o.chain, o.elems, w) && Agree(o, w, s, v) && Apart(o, q, f, s) && Elsewhere(o, w, s)
    requires Forward(s, n) && Backward(s, p) && OnlyChain(f, v.n, n) && OnlyChain(f, v.p, p)
    ensures Holds(o)
  {
    hide Ring, Elsewhere, Forward, Backward, Still, Holds;
    forall k, j | 0 <= k < |o.elems| && 0 <= j < |s| && o.elems[k] == s[j]
      ensures SameAt(o.chain, w.n[k], n[j]) && SameAt(o.chain, w.p[k], p[j])
    {
      assert o.elems[k] in o.elems && s[j] in s;
    }
    StillIn(o, w, s, n, p);
    StillHolds(o, w);
  }

  /** Either of the two removals. */
  method RemoveAt(q: Head, f: Chain, op: Op, ghost s: seq<Elem>, ghost i: nat) returns (out: seq<Elem>)
    requires IsQueue(q, f, s) && i < |s| && !op.Put? && (if op.Take? then op.elt == s[i] else i == 0)
    modifies q, s
    ensures out == if op.Pop? then [s[0]] else []
    ensures NowOut(q, f, s, old(LinksOf(q, s)), i)
    ensures IsQueue(q, f, Deleted(s, i))
  {
    hide IsQueue, NowOut, LinksOf;
    if op.Take? {
      Remove(q, op.elt, f, s, i);
      out := [];
    } else {
      var first := RemoveFirst(q, f, s);
      out := [first];
      assert Deleted(s, 0) == s[1..];
    }
  }

  /** Removal from one queue; every other queue stays as it is. */
  method Delete(q: Head, f: Chain, op: Op, ghost s: seq<Elem>, ghost i: nat, ghost others: set<Queue>)
    returns (out: seq<Elem>)
    requires IsQueue(q, f, s) && i < |s| && !op.Put? && (if op.Take? then op.elt == s[i] else i == 0)
    requires forall o :: o in others ==> Holds(o) && Apart(o, q, f, s)
    modifies q, s
    ensures out == if op.Pop? then [s[0]] else []
    ensures NowOut(q, f, s, old(LinksOf(q, s)), i)
    ensures IsQueue(q, f, Deleted(s, i))
    ensures forall o :: o in others ==> Holds(o)
  {
    hide IsQueue, LinksOf, Ring, Agree, Elsewhere, Holds, Forward, Backward, Pointed;
    ghost var v := LinksOf(q, s);
    ghost var w := map o | o in others :: LinksOf(o.head, o.elems);
    forall o | o in others
      ensures Ring(o.head, o.chain, o.elems, w[o]) && Agree(o, w[o], s, v) && Elsewhere(o, w[o], s)
    {
      OtherNow(o, q, s);
    }
    out := RemoveAt(q, f, op, s, i);
    ghost var n, p := Pointed(v.n, f, i - 1, Node(q, s, i + 1)), Pointed(v.p, f, i + 1, Node(q, s, i - 1));
    forall o | o in others ensures Holds(o) {
      OtherHolds(o, w[o], q, f, s, v, n, p);
    }
  }

  lemma LinksWith(q: Head, s: seq<Elem>, elt: Elem)
    ensures LinksOf(q, s + [elt]).n == LinksOf(q, s).n + [elt.next]
    ensures LinksOf(q, s + [elt]).p == LinksOf(q, s).p + [elt.prev]
  {
  }

  lemma ColumnsWith(q: Head, f: Chain, s: seq<Elem>, v: Links, i: nat, elt: Elem, en: LinkMap, ep: LinkMap)
    requires i <= |s| && NowIn(q, f, s, v, i, elt, en, ep)
    ensures Forward(s + [elt], Pointed(v.n, f, i - 1, ToElem(elt)) + [elt.next])
    ensures Backward(s + [elt], Pointed(v.p, f, i, ToElem(elt)) + [elt.prev])
    ensures OnlyChain(f, v.n + [en], Pointed(v.n, f, i - 1, ToElem(elt)) + [elt.next])
    ensures OnlyChain(f, v.p + [ep], Pointed(v.p, f, i, ToElem(elt)) + [elt.prev])
  {
  }

  /** Insertion into one queue; every other queue stays as it is, even one that elt is on through another chain. */
  method Insert(q: Head, elt: Elem, f: Chain, form: Form, ghost s: seq<Elem>, ghost i: nat, ghost others: set<Queue>)
    requires IsQueue(q, f, s) && elt !in s && i <= |s| && Designates(q, s, form, i)
    requires forall o :: o in others ==> Holds(o) && Apart(o, q, f, s + [elt])
    modifies q, s, elt
    ensures NowIn(q, f, s, old(LinksOf(q, s)), i, elt, old(elt.next), old(elt.prev))
    ensures IsQueue(q, f, Inserted(s, i, elt))
    ensures forall o :: o in others ==> Holds(o)
  {
    hide IsQueue, LinksOf, Ring, Agree, Elsewhere, Holds, Forward, Backward, Pointed, NowIn, OnlyChain;
    ghost var t, v := s + [elt], LinksOf(q, s);
    ghost var u := LinksOf(q, t);
    LinksWith(q, s, elt);
    ghost var w := map o | o in others :: LinksOf(o.head, o.elems);
    forall o | o in others
      ensures Ring(o.head, o.chain, o.elems, w[o]) && Agree(o, w[o], t, u) && Elsewhere(o, w[o], t)
    {
      OtherNow(o, q, t);
    }
    InsertAt(q, elt, f, form, s, i);
    ColumnsWith(q, f, s, v, i, elt, old(elt.next), old(elt.prev));
    ghost var n := Pointed(v.n, f, i - 1, ToElem(elt)) + [elt.next];
    ghost var p := Pointed(v.p, f, i, ToElem(elt)) + [elt.prev];
    forall o | o in others ensures Holds(o) {
      OtherHolds(o, w[o], q, f, t, u, n, p);
    }
  }

  /** Removal undoes insertion, whatever the form: all links of the head and of all other elements are as before. */
  method InsertThenRemove(q: Head, elt: Elem, f: Chain, form: Form, ghost s: seq<Elem>, ghost i: nat)
    requires IsQueue(q, f, s) && elt !in s && i <= |s| && Designates(q, s, form, i)
    modifies q, s, elt
    ensures LinksOf(q, s) == old(LinksOf(q, s))
    ensures IsQueue(q, f, s)
  {
    hide LinksOf, Ring, NowIn, NowOut, SplicedIn, SplicedOut;
    ghost var v, r := LinksOf(q, s), Inserted(s, i, elt);
    InsertAt(q, elt, f, form, s, i);
    NowInIsQueue(q, f, s, v, i, elt, old(elt.next), old(elt.prev));
    ghost var w := LinksOf(q, r);
    Remove(q, elt, f, r, i);
    NowOutIsQueue(q, f, r, w, i);
    SpliceUndone(q, f, s, v, i, elt, old(elt.next), old(elt.prev));
  }

  // ---------------------------------------------------------------- walking and moving a queue

  method Iterate(q: Head, f: Chain, ghost s: seq<Elem>) returns (visited: seq<Elem>)
    requires IsQueue(q, f, s)
    ensures visited == s
  {
    hide IsQueue, Ring, LinksOf, Distinct, Forward, Backward;
    QueueAt(q, f, s, -1);
    visited := [];
    var elt := q.next;
    while elt != ToHead(q)
      invariant |visited| <= |s| && visited == s[..|visited|]
      invariant elt == Node(q, s, |visited|)
      decreases |s| - |visited|
    {
      QueueAt(q, f, s, |visited|);
      visited := visited + [elt.elem];
      elt := elt.elem.next[f];
    }
  }

  method IterateBack(q: Head, f: Chain, ghost s: seq<Elem>) returns (visited: seq<Elem>)
    requires IsQueue(q, f, s)
    ensures visited == Backwards(s)
  {
    hide IsQueue, Ring, LinksOf, Distinct, Forward, Backward, Backwards;
    QueueAt(q, f, s, -1);
    visited := [];
    var elt := q.prev;
    ghost var j := |s|;
    while elt != ToHead(q)
      invariant 0 <= j <= |s|
      invariant visited == Backwards(s[j..])
      invariant elt == Node(q, s, j - 1)
      decreases j
    {
      j := j - 1;
      QueueAt(q, f, s, j);
      BackwardsFrom(s, j);
      visited := visited + [elt.elem];
      elt := elt.elem.prev[f];
    }
    assert s[0..] == s;
  }

  lemma ReheadedRing(to: Head, from: Head, f: Chain, s: seq<Elem>, v: Links)
    requires Ring(from, f, s, v) && s != []
    ensures Ring(to, f, s, v.(n := Pointed(v.n, f, |s| - 1, ToHead(to)), p := Pointed(v.p, f, 0, ToHead(to))))
  {
  }

  lemma ColumnsAreLinks(s: seq<Elem>, n: seq<LinkMap>, p: seq<LinkMap>)
    requires Forward(s, n) && Backward(s, p)
    ensures Nexts(s) == n && Prevs(s) == p
  {
  }

  /** Moves all elements of a non-empty queue to another head; queues apart from both stay as they are. */
  method Assign(to: Head, from: Head, f: Chain, ghost s: seq<Elem>, ghost others: set<Queue>)
    requires IsQueue(from, f, s) && s != []
    requires forall o :: o in others ==> Holds(o) && Apart(o, to, f, s)
    modifies to, s
    ensures IsQueue(to, f, s)
    ensures forall o :: o in others ==> Holds(o)
  {
    hide Ring, Forward, Backward, Pointed, Agree, Elsewhere, Holds, OnlyChain, Distinct;
    ghost var v := LinksOf(from, s);
    QueueAt(from, f, s, 0);
    ghost var w := map o | o in others :: LinksOf(o.head, o.elems);
    forall o | o in others
      ensures Ring(o.head, o.chain, o.elems, w[o]) && Agree(o, w[o], s, v) && Elsewhere(o, w[o], s)
    {
      OtherNow(o, from, s);
    }
    ghost var n, p := Pointed(v.n, f, |s| - 1, ToHead(to)), Pointed(v.p, f, 0, ToHead(to));
    MoveColumns(to, from, f, s, v);
    ReheadedRing(to, from, f, s, v);
    ColumnsAreLinks(s, n, p);
    PointedOnlyChain(v.n, f, |s| - 1, ToHead(to));
    PointedOnlyChain(v.p, f, 0, ToHead(to));
    forall o | o in others ensures Holds(o) {
      OtherHolds(o, w[o], to, f, s, v, n, p);
    }
  }

  lemma PointedOnlyChain(col: seq<LinkMap>, f: Chain, k: int, x: Ptr)
    ensures OnlyChain(f, col, Pointed(col, f, k, x))
  {
  }

  /** The three assignments of the move: last element, first element, head. */
  method MoveColumns(to: Head, from: Head, f: Chain, ghost s: seq<Elem>, ghost v: Links)
    requires IsQueue(from, f, s) && s != [] && v == LinksOf(from, s)
    modifies to, s
    ensures Forward(s, Pointed(v.n, f, |s| - 1, ToHead(to)))
    ensures Backward(s, Pointed(v.p, f, 0, ToHead(to)))
    ensures to.next == v.hn && to.prev == v.hp
  {
    hide IsQueue, Ring, LinksOf, Forward, Backward, Pointed, Distinct;
    QueueAt(from, f, s, 0);
    PointForward(to, from.prev, f, ToHead(to), s, |s| - 1, v.n);
    PointBack(to, from.next, f, ToHead(to), s, 0, v.p);
    to.next := from.next;
    to.prev := from.prev;
  }

  // ---------------------------------------------------------------- operations on the sequence

  ghost function IndexOf(s: seq<Elem>, e: Elem): (i: nat)
    requires e in s
    ensures i < |s| && s[i] == e
  {
    if s[0] == e then 0 else 1 + IndexOf(s[1..], e)
  }

  /** The link names the head or an element of the queue. */
  ghost predicate OnQueue(q: Head, s: seq<Elem>, p: Ptr) {
    match p
    case ToHead(h) => h == q
    case ToElem(e) => e in s
  }

  ghost predicate Legal(q: Head, s: seq<Elem>, op: Op) {
    match op
    case Put(e, Before(p)) => e !in s && OnQueue(q, s, p)
    case Put(e, After(p)) => e !in s && OnQueue(q, s, p)
    case Put(e, _) => e !in s
    case Take(e) => e in s
    case Pop => s != []
  }

  ghost function Position(q: Head, s: seq<Elem>, form: Form): (i: nat)
    requires form.Before? || form.After? ==> OnQueue(q, s, form.at)
    ensures i <= |s| && Designates(q, s, form, i)
  {
    match form
    case Last => |s|
    case First => 0
    case Before(p) => if p.ToHead? then |s| else IndexOf(s, p.elem)
    case After(p) => if p.ToHead? then 0 else IndexOf(s, p.elem) + 1
  }

  /** What an operation means for the sequence. */
  ghost function Effect(q: Head, s: seq<Elem>, op: Op): seq<Elem>
    requires Legal(q, s, op)
  {
    match op
    case Put(e, form) => Inserted(s, Position(q, s, form), e)
    case Take(e) => Deleted(s, IndexOf(s, e))
    case Pop => s[1..]
  }

  /** Carries out one operation. */
  method Perform(q: Head, f: Chain, op: Op, ghost s: seq<Elem>, ghost others: set<Queue>) returns (out: seq<Elem>)
    requires IsQueue(q, f, s) && Legal(q, s, op)
    requires forall o :: o in others ==> Holds(o) && Apart(o, q, f, if op.Put? then s + [op.elt] else s)
    modifies q, s, if op.Put? then {op.elt} else {}
    ensures out == if op.Pop? then [s[0]] else []
    ensures IsQueue(q, f, Effect(q, s, op))
    ensures forall o :: o in others ==> Holds(o)
  {
    hide IsQueue, Holds, LinksOf, NowIn, NowOut, Designates;
    match op {
      case Put(e, form) =>
        Insert(q, e, f, form, s, Position(q, s, form), others);
        out := [];
      case Take(e) =>
        out := Delete(q, f, op, s, IndexOf(s, e), others);
      case Pop =>
        out := Delete(q, f, op, s, 0, others);
        assert Deleted(s, 0) == s[1..];
    }
  }

  /** The form puts a new element between a and b. */
  ghost predicate Between(a: seq<Elem>, b: seq<Elem>, form: Form) {
    match form
    case Last => b == []
    case First => a == []
    case Before(ToHead(_)) => b == []
    case After(ToHead(_)) => a == []
    case Before(ToElem(d)) => d !in a && b != [] && b[0] == d
    case After(ToElem(d)) => a != [] && a[|a| - 1] == d && d !in a[..|a| - 1]
  }

  lemma {:induction false} IndexIsFirst(s: seq<Elem>, e: Elem)
    requires e in s
    ensures e !in s[..IndexOf(s, e)]
  {
    if s[0] != e {
      IndexIsFirst(s[1..], e);
      assert s[..IndexOf(s, e)] == [s[0]] + s[1..][..IndexOf(s[1..], e)];
    }
  }

  lemma PutSplits(q: Head, s: seq<Elem>, e: Elem, form: Form) returns (a: seq<Elem>, b: seq<Elem>)
    requires Legal(q, s, Put(e, form))
    ensures s == a + b && Between(a, b, form) && Effect(q, s, Put(e, form)) == a + [e] + b
  {
    var i := Position(q, s, form);
    a, b := s[..i], s[i..];
    if form.Before? && form.at.ToElem? {
      IndexIsFirst(s, form.at.elem);
    } else if form.After? && form.at.ToElem? {
      IndexIsFirst(s, form.at.elem);
      assert a[..i - 1] == s[..i - 1];
    }
  }

  /** What an operation does to the sequence: an element goes in where the form says, the named element goes out, or the
      first one does. */
  lemma EffectRule(q: Head, s: seq<Elem>, op: Op) returns (a: seq<Elem>, b: seq<Elem>)
    requires Legal(q, s, op)
    ensures match op
            case Put(e, form) => s == a + b && Between(a, b, form) && Effect(q, s, op) == a + [e] + b
            case Take(e) => s == a + [e] + b && e !in a && Effect(q, s, op) == a + b
            case Pop => |a| == 1 && s == a + b && Effect(q, s, op) == b
  {
    match op {
      case Put(e, form) => a, b := PutSplits(q, s, e, form);
      case Take(e) =>
        var i := IndexOf(s, e);
        a, b := s[..i], s[i+1..];
        IndexIsFirst(s, e);
      case Pop => a, b := s[..1], s[1..];
    }
  }
}
