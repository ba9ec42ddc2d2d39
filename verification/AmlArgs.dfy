/** ACPICA's packed argument lists and its power-of-two arithmetic by shifts and masks. */
module AmlArgs {
  import opened Bits
  import opened Lists

  const WIDTH: nat := 5
  const INVALID_OPCODE: nat := 0xFFFF_FFFF

  /** A type shifted to field k of a 32-bit word. */
  function Arg(x: nat, k: nat): nat {
    U32(Shl(x, k * WIDTH))
  }

  /** The parser's packing: the first argument in the lowest field. */
  function ParserList(ts: seq<nat>): nat {
    if ts == [] then 0 else Or(ParserList(ts[..|ts| - 1]), Arg(ts[|ts| - 1], |ts| - 1))
  }

  /** The interpreter's packing: the first argument in the highest field, the last in the lowest. */
  function InterpreterList(ts: seq<nat>): nat {
    if ts == [] then 0 else Or(InterpreterList(ts[1..]), Arg(ts[0], |ts| - 1))
  }

  /** An interpreter list is the parser list of the reversed arguments. */
  lemma {:induction false} InterpreterIsReversed(ts: seq<nat>)
    ensures InterpreterList(ts) == ParserList(Backwards(ts))
  {
    if ts != [] {
      InterpreterIsReversed(ts[1..]);
      assert Backwards(ts)[..|ts| - 1] == Backwards(ts[1..]);
    }
  }

  /** At most six argument types, zero being the end mark. */
  predicate Types(ts: seq<nat>) {
    |ts| <= 6 && forall k :: 0 <= k < |ts| ==> 1 <= ts[k] <= 31
  }

  function CurrentType(list: nat): nat {
    And(list, 0x1F)
  }

  function NextList(list: nat): nat {
    Shr(list, WIDTH)
  }

  /** What stands in the fields, read as one number. */
  function Packed(ts: seq<nat>): nat {
    if ts == [] then 0 else ts[0] + 32 * Packed(ts[1..])
  }

  lemma {:induction false} PackedSnoc(ts: seq<nat>, t: nat)
    ensures Packed(ts + [t]) == Packed(ts) + t * Pow2(|ts| * WIDTH)
  {
    if ts == [] {
      assert ts + [t] == [t] && [t][1..] == [];
    } else {
      assert (ts + [t])[1..] == ts[1..] + [t];
      PackedSnoc(ts[1..], t);
      var n := |ts| - 1;
      Pow2Add(WIDTH, n * WIDTH);
      assert Pow2(5) == 32;
      assert 32 * (t * Pow2(n * WIDTH)) == t * (32 * Pow2(n * WIDTH));
    }
  }

  lemma {:induction false} PackedBound(ts: seq<nat>)
    requires forall k :: 0 <= k < |ts| ==> ts[k] <= 31
    ensures Packed(ts) < Pow2(|ts| * WIDTH)
  {
    if ts != [] {
      PackedBound(ts[1..]);
      Pow2Add(WIDTH, (|ts| - 1) * WIDTH);
      assert Pow2(5) == 32;
    }
  }

  /** Six fields fit in a word, so no shift loses bits. */
  lemma ArgFits(t: nat, k: nat)
    requires t <= 31 && k < 6
    ensures Arg(t, k) == t * Pow2(k * WIDTH) < Pow2(30)
  {
    assert Pow2(5) == 32;
    hide Pow2;
    var p := Pow2(k * WIDTH);
    ShlIsMul(t, k * WIDTH);
    Pow2Add(WIDTH, k * WIDTH);
    Pow2Monotone(WIDTH + k * WIDTH, 30);
    MulStep(t, 32, p);
    Pow2Words();
  }

  /** Or-ing the shifted types packs them as digits to base 32. */
  lemma {:induction false} ParserListPacked(ts: seq<nat>)
    requires Types(ts)
    ensures ParserList(ts) == Packed(ts)
  {
    hide Arg, Or, Pow2;
    if ts != [] {
      var n := |ts| - 1;
      ParserListPacked(ts[..n]);
      PackedBound(ts[..n]);
      ArgFits(ts[n], n);
      OrDisjoint(Packed(ts[..n]), ts[n], n * WIDTH);
      PackedSnoc(ts[..n], ts[n]);
      assert ts == ts[..n] + [ts[n]];
    }
  }

  lemma PackedFits(ts: seq<nat>)
    requires Types(ts)
    ensures ParserList(ts) < Pow2(30)
  {
    hide ParserList, Packed, Pow2;
    ParserListPacked(ts);
    PackedBound(ts);
    Pow2Monotone(|ts| * WIDTH, 30);
  }

  /** A legal list leaves two bits of its word free, so it is never the invalid-opcode mark. */
  lemma NeverInvalid(ts: seq<nat>)
    requires Types(ts)
    ensures ParserList(ts) < Pow2(30) && ParserList(ts) != INVALID_OPCODE
    ensures InterpreterList(ts) < Pow2(30) && InterpreterList(ts) != INVALID_OPCODE
  {
    hide ParserList, InterpreterList, Pow2;
    PackedFits(ts);
    InterpreterIsReversed(ts);
    PackedFits(Backwards(ts));
    Pow2Words();
  }

  lemma FirstField(t: nat, rest: nat)
    requires t <= 31
    ensures CurrentType(t + 32 * rest) == t && NextList(t + 32 * rest) == rest
  {
    assert Pow2(5) == 32;
    ShrIsDiv(t + 32 * rest, WIDTH);
    LowMask(t + 32 * rest, 5);
    DivModUnique(t + 32 * rest, 32, rest, t);
  }

  lemma NextIsLess(list: nat)
    requires CurrentType(list) != 0
    ensures NextList(list) < list
  {
    assert Pow2(5) == 32;
    ShrIsDiv(list, WIDTH);
    DivMod(list, 32);
  }

  /** The types in a packed list up to the end mark. */
  function Decoded(list: nat): seq<nat>
    decreases list
  {
    if CurrentType(list) == 0 then []
    else
      NextIsLess(list);
      [CurrentType(list)] + Decoded(NextList(list))
  }

  /** The list after n advances. */
  function Advanced(list: nat, n: nat): nat
    decreases n
  {
    if n == 0 then list else Advanced(NextList(list), n - 1)
  }

  lemma {:induction false} PackedDecodes(ts: seq<nat>)
    requires forall k :: 0 <= k < |ts| ==> 1 <= ts[k] <= 31
    ensures Decoded(Packed(ts)) == ts && Advanced(Packed(ts), |ts|) == 0
  {
    hide CurrentType, NextList;
    FirstField(0, 0);
    if ts != [] {
      FirstField(ts[0], Packed(ts[1..]));
      PackedDecodes(ts[1..]);
    }
  }

  /** Reading a parser list gives the types back in order, an interpreter list gives them back in reverse, and only zeros follow. */
  lemma ListsDecode(ts: seq<nat>)
    requires Types(ts)
    ensures Decoded(ParserList(ts)) == ts && Advanced(ParserList(ts), |ts|) == 0
    ensures Decoded(InterpreterList(ts)) == Backwards(ts) && Advanced(InterpreterList(ts), |ts|) == 0
  {
    hide Decoded, ParserList, InterpreterList, Packed, Advanced;
    InterpreterIsReversed(ts);
    ParserListPacked(ts);
    PackedDecodes(ts);
    ParserListPacked(Backwards(ts));
    PackedDecodes(Backwards(ts));
  }

  /** Reads the types off a packed list, shifting it in place, until the end mark. */
  method ReadTypes(packed: nat) returns (types: seq<nat>)
    ensures types == Decoded(packed)
  {
    types := [];
    var list := packed;
    while CurrentType(list) != 0
      invariant types + Decoded(list) == Decoded(packed)
      decreases list
    {
      NextIsLess(list);
      types := types + [CurrentType(list)];
      list := NextList(list);
    }
  }

  // ---------------------------------------------------------------- arithmetic by powers of two

  function Div(value: nat, k: nat): nat {
    U32(Shr(value, k))
  }

  function Mul(value: nat, k: nat): nat {
    U32(Shl(value, k))
  }

  function Mod(value: nat, divisor: nat): nat
    requires divisor > 0
  {
    U32(And(value, divisor - 1))
  }

  /** Rounding by mask in a w-bit word. */
  function RoundDown(w: nat, value: nat, boundary: nat): nat
    requires 0 < boundary <= Pow2(w)
  {
    And(value, Not(w, boundary - 1))
  }

  function RoundUp(w: nat, value: nat, boundary: nat): nat
    requires 0 < boundary <= Pow2(w)
  {
    MaskUp(w, value, boundary)
  }

  /** On 32-bit values shifts and masks divide exactly by every power of two of a word, and multiplication wraps. */
  lemma PowersOfTwo(value: nat, k: nat)
    requires value < 0x1_0000_0000 && k < 32
    ensures Div(value, k) == value / Pow2(k) && Mod(value, Pow2(k)) == value % Pow2(k)
    ensures Div(value, k) * Pow2(k) + Mod(value, Pow2(k)) == value
    ensures Mul(value, k) == U32(value * Pow2(k))
  {
    hide And, Shr, Shl, Pow2;
    ShrIsDiv(value, k);
    ShlIsMul(value, k);
    LowMask(value, k);
    DivMod(value, Pow2(k));
    ModAtMost(value, Pow2(k));
    QuotientAtMost(value, Pow2(k));
  }

  lemma QuotientAtMost(x: nat, d: nat)
    requires d > 0
    ensures 0 <= x / d <= x
  {
    DivMod(x, d);
    MulStep(0, d, x / d);
  }

  lemma RoundDownIsFloor(w: nat, value: nat, k: nat)
    requires k <= w && value < Pow2(w)
    ensures Pow2(k) <= Pow2(w)
    ensures RoundDown(w, value, Pow2(k)) == Floor(value, Pow2(k))
  {
    HighMask(w, value, k);
  }

  /** Rounding up gives the least multiple exactly when the sum with boundary - 1 does not wrap. */
  lemma RoundUpIsCeil(w: nat, value: nat, k: nat)
    requires k <= w && value < Pow2(w)
    ensures Pow2(k) <= Pow2(w)
    ensures LeastMultiple(value, Pow2(k), RoundUp(w, value, Pow2(k))) <==> value + Pow2(k) - 1 < Pow2(w)
    ensures value + Pow2(k) - 1 >= Pow2(w) ==> RoundUp(w, value, Pow2(k)) == 0
  {
    MaskUpIsCeil(w, value, k);
  }

  /** The largest word rounded up to an even number is zero. */
  lemma RoundUpLargest(w: nat)
    requires w >= 1
    ensures Pow2(w) >= 2 && RoundUp(w, Pow2(w) - 1, 2) == 0
    ensures RoundUp(32, 0xFFFF_FFFF, 2) == 0
  {
    assert Pow2(1) == 2;
    Pow2Words();
    RoundUpIsCeil(w, Pow2(w) - 1, 1);
    RoundUpIsCeil(32, 0xFFFF_FFFF, 1);
  }
}
