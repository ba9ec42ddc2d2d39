/** Bitwise operators on unsigned words of any width, and what masks with powers of two compute. */
module Bits {

  function Pow2(k: nat): (p: nat)
    ensures p >= 1
  {
    if k == 0 then 1 else 2 * Pow2(k - 1)
  }

  function And(x: nat, y: nat): nat
    decreases x
  {
    if x == 0 then 0 else (if x % 2 == 1 && y % 2 == 1 then 1 else 0) + 2 * And(x / 2, y / 2)
  }

  function Or(x: nat, y: nat): nat
    decreases x
  {
    if x == 0 then y else (if x % 2 == 1 || y % 2 == 1 then 1 else 0) + 2 * Or(x / 2, y / 2)
  }

  /** Complement of a w-bit word. */
  function Not(w: nat, x: nat): (r: nat)
    requires x < Pow2(w)
  {
    Pow2(w) - 1 - x
  }

  /** What remains of a value in an unsigned 32-bit word. */
  function U32(x: nat): nat {
    x % 0x1_0000_0000
  }

  /** Shifts, one bit at a time. */
  function Shr(x: nat, k: nat): nat
    decreases k
  {
    if k == 0 then x else Shr(x / 2, k - 1)
  }

  function Shl(x: nat, k: nat): nat
    decreases k
  {
    if k == 0 then x else Shl(2 * x, k - 1)
  }

  // ---------------------------------------------------------------- division facts

  lemma MulNonnegative(a: int, d: int)
    requires a >= 0 && d >= 0
    ensures a * d >= 0
  {
  }

  lemma MulStep(a: int, b: int, d: int)
    requires d >= 0
    ensures a < b ==> a * d + d <= b * d
  {
    var e := b - a - 1;
    if e >= 0 { MulNonnegative(e, d); }
    assert (e + a + 1) * d == e * d + a * d + d;
  }

  /** Quotient and remainder are determined by the division equation. */
  lemma DivModUnique(x: int, d: int, q: int, r: int)
    requires d > 0 && x == q * d + r && 0 <= r < d
    ensures x / d == q && x % d == r
  {
    MulStep(x / d, q, d);
    MulStep(q, x / d, d);
    assert x == (x / d) * d + x % d;
  }

  lemma DivMod(x: int, d: int)
    requires d > 0
    ensures x == (x / d) * d + x % d && 0 <= x % d < d
  {
  }

  lemma HalfMod(x: nat, m: nat)
    requires m > 0
    ensures x % (2 * m) == x % 2 + 2 * ((x / 2) % m)
    ensures x / (2 * m) == (x / 2) / m
  {
    var h := x / 2;
    DivMod(h, m);
    var q, r := h / m, h % m;
    assert x == 2 * h + x % 2;
    assert x == 2 * (q * m) + 2 * r + x % 2;
    assert q * (2 * m) == 2 * (q * m);
    DivModUnique(x, 2 * m, q, 2 * r + x % 2);
  }

  lemma Pow2Step(k: nat)
    requires k > 0
    ensures Pow2(k) == 2 * Pow2(k - 1)
  {
  }

  lemma MulDouble(x: int, p: int)
    ensures (2 * x) * p == 2 * (x * p) == x * (2 * p)
  {
  }

  lemma {:induction false} Pow2Add(a: nat, b: nat)
    ensures Pow2(a + b) == Pow2(a) * Pow2(b)
  {
    if a > 0 {
      Pow2Add(a - 1, b);
      MulDouble(Pow2(a - 1), Pow2(b));
    }
  }

  lemma Pow2Words()
    ensures Pow2(5) == 32 && Pow2(30) == 0x4000_0000 && Pow2(32) == 0x1_0000_0000
  {
    assert Pow2(5) == 32 && Pow2(8) == 0x100;
    Pow2Add(8, 8);
    Pow2Add(16, 16);
    assert Pow2(32) == 4 * Pow2(30);
  }

  lemma {:induction false} Pow2Monotone(a: nat, b: nat)
    requires a <= b
    ensures Pow2(a) <= Pow2(b)
    decreases b
  {
    if a < b { Pow2Monotone(a, b - 1); }
  }

  lemma {:induction false} ShrIsDiv(x: nat, k: nat)
    ensures Shr(x, k) == x / Pow2(k)
    decreases k
  {
    if k > 0 {
      ShrIsDiv(x / 2, k - 1);
      HalfMod(x, Pow2(k - 1));
    }
  }

  lemma {:induction false} ShlIsMul(x: nat, k: nat)
    ensures Shl(x, k) == x * Pow2(k)
    decreases k
  {
    if k > 0 {
      ShlIsMul(2 * x, k - 1);
      MulDouble(x, Pow2(k - 1));
    }
  }

  lemma ModAtMost(x: nat, d: nat)
    requires d > 0
    ensures x % d <= x
  {
    DivMod(x, d);
    MulNonnegative(x / d, d);
  }

  // ---------------------------------------------------------------- masks

  /** Masking with 2^k - 1 is the remainder by 2^k. */
  lemma {:induction false} LowMask(x: nat, k: nat)
    ensures And(x, Pow2(k) - 1) == x % Pow2(k)
    decreases k
  {
    if k == 0 {
      AndZero(x);
    } else {
      var m := Pow2(k - 1);
      HalfMod(x, m);
      LowMask(x / 2, k - 1);
      assert (2 * m - 1) / 2 == m - 1 && (2 * m - 1) % 2 == 1;
    }
  }

  lemma AndZero(x: nat)
    ensures And(x, 0) == 0
  {
  }

  lemma AndDouble(x: nat, y: nat)
    ensures And(x, 2 * y) == 2 * And(x / 2, y)
  {
    assert (2 * y) / 2 == y && (2 * y) % 2 == 0;
  }

  /** Masking a w-bit word with the complement of 2^k - 1 removes the remainder by 2^k. */
  lemma {:induction false} HighMask(w: nat, x: nat, k: nat)
    requires k <= w && x < Pow2(w)
    ensures Pow2(k) <= Pow2(w)
    ensures And(x, Not(w, Pow2(k) - 1)) == x - x % Pow2(k)
    decreases k
  {
    hide And, Pow2;
    Pow2Monotone(k, w);
    if k == 0 {
      LowMask(x, w);
      DivModUnique(x, Pow2(w), 0, x);
      assert Pow2(0) == 1 by { Pow2Zero(); }
    } else {
      Pow2Step(k);
      Pow2Step(w);
      var m, h := Pow2(k - 1), x / 2;
      HighMask(w - 1, h, k - 1);
      AndDouble(x, Not(w - 1, m - 1));
      HalfMod(x, m);
      assert x == 2 * h + x % 2;
    }
  }

  lemma Pow2Zero()
    ensures Pow2(0) == 1
  {
  }

  /** Or of words without common bits is their sum. */
  lemma {:induction false} OrDisjoint(x: nat, y: nat, k: nat)
    requires x < Pow2(k)
    ensures Or(x, y * Pow2(k)) == x + y * Pow2(k)
    decreases k
  {
    if k > 0 && x > 0 {
      var m := Pow2(k - 1);
      assert y * (2 * m) == 2 * (y * m);
      OrDisjoint(x / 2, y, k - 1);
    }
  }

  // ---------------------------------------------------------------- rounding

  function Floor(x: nat, a: nat): nat
    requires a > 0
  {
    x - x % a
  }

  function Ceil(x: nat, a: nat): nat
    requires a > 0
  {
    Floor(x + a - 1, a)
  }

  /** m is the least multiple of a that is at least x. */
  ghost predicate LeastMultiple(x: int, a: nat, m: int)
    requires a > 0
  {
    m % a == 0 && x <= m && forall n :: n % a == 0 && x <= n ==> m <= n
  }

  /** Two multiples of a that are less than a apart are equal. */
  lemma MultiplesApart(m: int, n: int, a: nat)
    requires a > 0 && m % a == 0 && n % a == 0 && m < n
    ensures m + a <= n
  {
    DivMod(m, a);
    DivMod(n, a);
    MulStep(n / a, m / a, a);
    MulStep(m / a, n / a, a);
  }

  lemma FloorFacts(x: nat, a: nat)
    requires a > 0
    ensures Floor(x, a) % a == 0 && Floor(x, a) <= x < Floor(x, a) + a
  {
    DivMod(x, a);
    DivModUnique(Floor(x, a), a, x / a, 0);
  }

  lemma CeilIsLeast(x: nat, a: nat)
    requires a > 0
    ensures LeastMultiple(x, a, Ceil(x, a)) && Ceil(x, a) < x + a
  {
    FloorFacts(x + a - 1, a);
    forall n | n % a == 0 && x <= n ensures Ceil(x, a) <= n {
      if n < Ceil(x, a) { MultiplesApart(n, Ceil(x, a), a); }
    }
  }

  lemma AddMultiple(m: int, n: int, a: nat)
    requires a > 0 && m % a == 0
    ensures (m + n) % a == n % a
  {
    DivMod(m, a);
    DivMod(n, a);
    assert (m / a + n / a) * a == (m / a) * a + (n / a) * a;
    DivModUnique(m + n, a, m / a + n / a, n % a);
  }

  /** Rounding up commutes with adding a base exactly when the base is a multiple of the alignment. */
  lemma CeilShift(b: nat, x: nat, a: nat)
    requires a > 0
    ensures Ceil(b + x, a) == b + Ceil(x, a) <==> b % a == 0
  {
    CeilIsLeast(x, a);
    CeilIsLeast(b + x, a);
    if b % a == 0 {
      AddMultiple(b, Ceil(x, a), a);
      if Ceil(b + x, a) < b + Ceil(x, a) {
        MultiplesApart(Ceil(b + x, a), b + Ceil(x, a), a);
      }
    } else if Ceil(b + x, a) == b + Ceil(x, a) {
      AddMultiple(Ceil(x, a), b, a);
    }
  }

  // ---------------------------------------------------------------- rounding by mask

  /** Rounding up in a w-bit word: add a - 1 and clear the low bits. */
  function MaskUp(w: nat, x: nat, a: nat): nat
    requires 0 < a <= Pow2(w)
  {
    And((x + a - 1) % Pow2(w), Not(w, a - 1))
  }

  lemma WordMod(x: nat, w: nat)
    requires x < Pow2(w)
    ensures x % Pow2(w) == x
  {
    DivModUnique(x, Pow2(w), 0, x);
  }

  /** A power of two divides the larger ones. */
  lemma PowDivides(k: nat, w: nat)
    requires k <= w
    ensures Pow2(w) % Pow2(k) == 0
  {
    Pow2Add(w - k, k);
    DivModUnique(Pow2(w), Pow2(k), Pow2(w - k), 0);
  }

  lemma MulMultiple(q: int, m: int, a: nat)
    requires a > 0 && m % a == 0
    ensures (q * m) % a == 0
  {
    DivMod(m, a);
    assert q * m == (q * (m / a)) * a;
    DivModUnique(q * m, a, q * (m / a), 0);
  }

  /** Rounding down commutes with cutting to a multiple of the alignment. */
  lemma FloorMod(x: nat, a: nat, n: nat)
    requires a > 0 && n > 0 && n % a == 0
    ensures Floor(x % n, a) == Floor(x, a) % n
  {
    var q, r := x / n, x % n;
    DivMod(x, n);
    MulMultiple(q, n, a);
    AddMultiple(q * n, r, a);
    FloorFacts(r, a);
    DivModUnique(Floor(x, a), n, q, Floor(r, a));
  }

  /** Rounding up by mask is rounding up, cut to the word. */
  lemma MaskUpMod(w: nat, x: nat, k: nat)
    requires k <= w
    ensures Pow2(k) <= Pow2(w)
    ensures MaskUp(w, x, Pow2(k)) == Ceil(x, Pow2(k)) % Pow2(w)
  {
    hide And, Pow2;
    Pow2Monotone(k, w);
    PowDivides(k, w);
    var r := (x + Pow2(k) - 1) % Pow2(w);
    HighMask(w, r, k);
    FloorMod(x + Pow2(k) - 1, Pow2(k), Pow2(w));
    assert MaskUp(w, x, Pow2(k)) == Floor(r, Pow2(k));
  }

  /** Below a multiple n of a, rounding up stays below n unless adding a - 1 reaches n, and then it gives n. */
  lemma CeilBelow(x: nat, a: nat, n: nat)
    requires a > 0 && n % a == 0 && x < n
    ensures if x + a - 1 < n then Ceil(x, a) < n else Ceil(x, a) == n
  {
    FloorFacts(x + a - 1, a);
    if Ceil(x, a) < n { MultiplesApart(Ceil(x, a), n, a); }
    if n < Ceil(x, a) { MultiplesApart(n, Ceil(x, a), a); }
  }

  /** Rounding up is exact just when the sum does not wrap; when it wraps the result is zero. */
  lemma MaskUpIsCeil(w: nat, x: nat, k: nat)
    requires k <= w && x < Pow2(w)
    ensures Pow2(k) <= Pow2(w)
    ensures LeastMultiple(x, Pow2(k), MaskUp(w, x, Pow2(k))) <==> x + Pow2(k) - 1 < Pow2(w)
    ensures x + Pow2(k) - 1 >= Pow2(w) ==> MaskUp(w, x, Pow2(k)) == 0
  {
    hide MaskUp, Ceil;
    MaskUpMod(w, x, k);
    PowDivides(k, w);
    CeilIsLeast(x, Pow2(k));
    CeilBelow(x, Pow2(k), Pow2(w));
    if Ceil(x, Pow2(k)) < Pow2(w) {
      WordMod(Ceil(x, Pow2(k)), w);
    } else {
      DivModUnique(Pow2(w), Pow2(w), 1, 0);
    }
  }
}
