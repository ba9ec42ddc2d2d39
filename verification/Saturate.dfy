/** The saturating reference count, as the x86 instruction sequences that implement it. */
module Saturate {

  const WORDS: nat := 0x1_0000_0000
  const ONES: nat := 0xFFFF_FFFF

  /** One memory word and the carry flag. */
  class Cell {
    var iv: nat
    var carry: bool

    ghost predicate Valid()
      reads this
    {
      iv < WORDS
    }

    constructor (start: nat)
      requires start < WORDS
      ensures Valid() && iv == start
    {
      iv := start;
      carry := false;
    }

    method Addl(k: nat)
      requires Valid() && k < WORDS
      modifies this
      ensures Valid()
      ensures iv + (if carry then WORDS else 0) == old(iv) + k
    {
      iv := iv + k;
      carry := iv >= WORDS;
      if carry { iv := iv - WORDS; }
    }

    method Adcl(k: nat)
      requires Valid() && k < WORDS
      modifies this
      ensures Valid()
      ensures iv + (if carry then WORDS else 0) == old(iv) + k + if old(carry) then 1 else 0
    {
      iv := iv + k + if carry then 1 else 0;
      carry := iv >= WORDS;
      if carry { iv := iv - WORDS; }
    }

    method Subl(k: nat)
      requires Valid() && k < WORDS
      modifies this
      ensures Valid()
      ensures iv - (if carry then WORDS else 0) == old(iv) - k
    {
      carry := iv < k;
      iv := if carry then iv + WORDS - k else iv - k;
    }

    method Sbbl(k: nat)
      requires Valid() && k < WORDS
      modifies this
      ensures Valid()
      ensures iv - (if carry then WORDS else 0) == old(iv) - k - if old(carry) then 1 else 0
    {
      var d := k + if carry then 1 else 0;
      carry := iv < d;
      iv := if carry then iv + WORDS - d else iv - d;
    }

    method Cmc()
      modifies this`carry
      ensures carry == !old(carry)
    {
      carry := !carry;
    }

    /** Counts up, except that all ones stays. */
    method Inc()
      requires Valid()
      modifies this
      ensures Valid() && iv == Bumped(old(iv), Up)
    {
      Addl(1);
      Sbbl(0);
    }

    /** Counts down, except that all ones stays. */
    method Dec()
      requires Valid()
      modifies this
      ensures Valid() && iv == Bumped(old(iv), Down)
    {
      Addl(1);
      Subl(1);
      Cmc();
      Sbbl(0);
    }

    /** The three-instruction form computes the same, on every word. */
    method ShorterDec()
      requires Valid()
      modifies this
      ensures Valid() && iv == Bumped(old(iv), Down)
    {
      Addl(1);
      Adcl(0);
      Subl(2);
    }

    /** Any sequence of reference-count changes. */
    method Apply(ops: seq<Change>)
      requires Valid()
      modifies this
      ensures Valid() && iv == Counter(old(iv), ops)
    {
      var n := 0;
      while n < |ops|
        invariant 0 <= n <= |ops| && Valid()
        invariant iv == Counter(old(iv), ops[..n])
      {
        assert ops[..n+1][..n] == ops[..n];
        if ops[n].Up? { Inc(); } else { Dec(); }
        n := n + 1;
      }
      assert ops[..n] == ops;
    }
  }

  datatype Change = Up | Down

  /** All ones is sticky; below zero a count wraps onto it. */
  function Bumped(x: nat, op: Change): (r: nat)
    requires x < WORDS
    ensures r < WORDS
  {
    if x == ONES then ONES
    else if op.Up? then x + 1
    else if x == 0 then ONES
    else x - 1
  }

  function Counter(start: nat, ops: seq<Change>): (r: nat)
    requires start < WORDS
    ensures r < WORDS
    decreases |ops|
  {
    if ops == [] then start else Bumped(Counter(start, ops[..|ops| - 1]), ops[|ops| - 1])
  }

  /** The number of references there really are. */
  function Refs(start: nat, ops: seq<Change>): int
    decreases |ops|
  {
    if ops == [] then start
    else Refs(start, ops[..|ops| - 1]) + if ops[|ops| - 1].Up? then 1 else -1
  }

  /** No reference is dropped that was never taken. */
  predicate Balanced(start: nat, ops: seq<Change>)
    decreases |ops|
  {
    Refs(start, ops) >= 0 && (ops == [] || Balanced(start, ops[..|ops| - 1]))
  }

  /** The most references there were at any time. */
  function Peak(start: nat, ops: seq<Change>): int
    decreases |ops|
  {
    if ops == [] then start
    else
      var p, r := Peak(start, ops[..|ops| - 1]), Refs(start, ops);
      if r > p then r else p
  }

  lemma PeakBounds(start: nat, ops: seq<Change>)
    ensures Refs(start, ops) <= Peak(start, ops)
  {
  }

  /** Over every balanced run the counter is the exact count until that first reaches all ones, and all ones from then on. */
  lemma {:induction false} CounterExact(start: nat, ops: seq<Change>)
    requires start < WORDS && Balanced(start, ops)
    ensures Counter(start, ops) == if Peak(start, ops) < ONES then Refs(start, ops) else ONES
    decreases |ops|
  {
    if ops != [] {
      CounterExact(start, ops[..|ops| - 1]);
      PeakBounds(start, ops[..|ops| - 1]);
    }
  }

  /** So the counter reads zero only when no reference remains, and always then if it was never saturated. */
  lemma ZeroMeansFree(start: nat, ops: seq<Change>)
    requires start < WORDS && Balanced(start, ops)
    ensures Counter(start, ops) == 0 <==> Refs(start, ops) == 0 && Peak(start, ops) < ONES
  {
    CounterExact(start, ops);
  }

  // ---------------------------------------------------------------- without balance

  /** What the counter promises: the exact count, or all ones from the moment that many references were held. */
  function Promised(start: nat, ops: seq<Change>): int {
    if Peak(start, ops) < ONES then Refs(start, ops) else ONES
  }

  /** At no time were more references dropped than taken, unless the counter had saturated by then. */
  predicate Covered(start: nat, ops: seq<Change>)
    decreases |ops|
  {
    (Refs(start, ops) >= 0 || Peak(start, ops) >= ONES) && (ops == [] || Covered(start, ops[..|ops| - 1]))
  }

  /** On every run, balanced or not: a covered run leaves the promised value, any other leaves all ones. */
  lemma {:induction false} CounterTotal(start: nat, ops: seq<Change>)
    requires start < WORDS
    ensures Counter(start, ops) == if Covered(start, ops) then Promised(start, ops) else ONES
    decreases |ops|
  {
    if ops != [] {
      CounterTotal(start, ops[..|ops| - 1]);
      PeakBounds(start, ops[..|ops| - 1]);
    }
  }

  lemma {:induction false} CoveredPrefixes(start: nat, ops: seq<Change>)
    ensures Covered(start, ops) <==>
            forall n :: 0 <= n <= |ops| ==> Refs(start, ops[..n]) >= 0 || Peak(start, ops[..n]) >= ONES
    decreases |ops|
  {
    assert ops[..|ops|] == ops;
    if ops != [] {
      var last := |ops| - 1;
      CoveredPrefixes(start, ops[..last]);
      assert forall n :: 0 <= n <= last ==> ops[..last][..n] == ops[..n];
    }
  }

  /** The counter keeps its promise throughout a run exactly when, at each moment of the run, the references taken cover
      those dropped or the counter has already saturated. */
  lemma PromiseKept(start: nat, ops: seq<Change>)
    requires start < WORDS
    ensures (forall n :: 0 <= n <= |ops| ==> Counter(start, ops[..n]) == Promised(start, ops[..n]))
       <==> (forall n :: 0 <= n <= |ops| ==> Refs(start, ops[..n]) >= 0 || Peak(start, ops[..n]) >= ONES)
  {
    hide Counter, Refs, Peak, Covered;
    CoveredPrefixes(start, ops);
    if Covered(start, ops) {
      forall n | 0 <= n <= |ops| ensures Counter(start, ops[..n]) == Promised(start, ops[..n]) {
        CoveredPrefixes(start, ops[..n]);
        assert forall m :: 0 <= m <= n ==> ops[..n][..m] == ops[..m];
        CounterTotal(start, ops[..n]);
      }
    } else {
      var n :| 0 <= n <= |ops| && Refs(start, ops[..n]) < 0 && Peak(start, ops[..n]) < ONES;
      assert Promised(start, ops[..n]) < 0;
    }
  }

  /** One release of a count of zero: the counter reads all ones, and the promise was minus one. */
  lemma UnderflowOnce()
    ensures Counter(0, [Down]) == ONES && Promised(0, [Down]) == -1 && !Covered(0, [Down])
  {
    assert [Down][..0] == [];
  }

  /** From then on the counter is stuck: one release too many leaves it at all ones whatever follows. */
  lemma {:induction false} UnderflowSticks(start: nat, before: seq<Change>, after: seq<Change>)
    requires start < WORDS && Counter(start, before) == 0
    ensures Counter(start, before + [Down] + after) == ONES
    decreases |after|
  {
    if after == [] {
      assert (before + [Down] + after)[..|before|] == before;
    } else {
      var n := |after| - 1;
      UnderflowSticks(start, before, after[..n]);
      var ops := before + [Down] + after;
      assert ops[..|ops| - 1] == before + [Down] + after[..n];
    }
  }
}
