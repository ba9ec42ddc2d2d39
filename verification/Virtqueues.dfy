/** The memory layout of a legacy virtqueue: descriptor table, available ring, padding, used ring. */
module Virtqueues {
  import opened Bits

  const DESC_SIZE := 16
  const USED_ELEM_SIZE := 8
  const U16 := 2

  /** Bytes from the start of the descriptors to the end of the available ring. */
  function Front(num: nat): nat {
    DESC_SIZE * num + U16 * (2 + num)
  }

  function UsedBytes(num: nat): nat {
    U16 * 2 + USED_ELEM_SIZE * num
  }

  /** The bytes the rings really take, padding included. */
  function Span(num: nat, align: nat): nat
    requires align > 0
  {
    Ceil(Front(num), align) + UsedBytes(num)
  }

  /** What Init stores. */
  ghost predicate Initialised(w: nat, num: nat, p: nat, align: nat, avail: nat, used: nat)
    requires 0 < align <= Pow2(w)
  {
    && avail == (p + DESC_SIZE * num) % Pow2(w)
    && used == MaskUp(w, avail + U16 * (2 + num), align)
  }

  class Vring {
    var num: nat
    /** Addresses. */
    var desc: nat
    var avail: nat
    var used: nat

    constructor ()
      ensures num == 0 && desc == 0 && avail == 0 && used == 0
    {
      num, desc, avail, used := 0, 0, 0, 0;
    }

    /** Lays the rings out from address p; addresses and unsigned long have w bits. */
    method Init(w: nat, num: nat, p: nat, align: nat)
      requires num < 0x1_0000_0000 && p < Pow2(w) && 0 < align <= Pow2(w)
      modifies this
      ensures this.num == num && desc == p
      ensures Initialised(w, num, p, align, avail, used)
      ensures forall k :: align == Pow2(k) && Addressable(w, num, p, k) ==> LaidOut(num, align, p, avail, used)
    {
      this.num := num;
      desc := p;
      avail := (p + num * DESC_SIZE) % Pow2(w);
      var ringEnd := avail + U16 + U16 + num * U16;
      used := MaskUp(w, ringEnd, align);
      forall k | align == Pow2(k) && Addressable(w, num, p, k) ensures LaidOut(num, align, p, avail, used) {
        Layout(w, num, p, k, avail, used);
      }
    }
  }

  /** The size the driver allocates. */
  function Size(w: nat, num: nat, align: nat): nat
    requires 0 < align <= Pow2(w)
  {
    var front := DESC_SIZE * num + U16 * U32(2 + num);
    U32((MaskUp(w, front, align) + U16 * 2 + USED_ELEM_SIZE * num) % Pow2(w))
  }

  /** The three areas lie in order without overlap, the used ring is aligned, and less than one alignment is lost to padding. */
  ghost predicate LaidOut(num: nat, align: nat, desc: nat, avail: nat, used: nat)
    requires align > 0
  {
    && desc + DESC_SIZE * num == avail
    && avail + U16 * (2 + num) <= used < avail + U16 * (2 + num) + align
    && used % align == 0
  }

  /** The rings from base p, with their padding, end within the w-bit address space. */
  ghost predicate Addressable(w: nat, num: nat, p: nat, k: nat) {
    && num < 0x1_0000_0000 && k <= w
    && Ceil(p + Front(num), Pow2(k)) + UsedBytes(num) <= Pow2(w)
  }

  /** For every ring size, every power-of-two alignment and every base whose rings are addressable, the areas are in order. */
  lemma Layout(w: nat, num: nat, p: nat, k: nat, avail: nat, used: nat)
    requires Addressable(w, num, p, k) && Pow2(k) <= Pow2(w) && Initialised(w, num, p, Pow2(k), avail, used)
    ensures used == Ceil(p + Front(num), Pow2(k))
    ensures LaidOut(num, Pow2(k), p, avail, used)
  {
    hide MaskUp, Ceil;
    CeilIsLeast(p + Front(num), Pow2(k));
    WordMod(p + DESC_SIZE * num, w);
    assert avail + U16 * (2 + num) == p + Front(num);
    MaskUpMod(w, p + Front(num), k);
    WordMod(Ceil(p + Front(num), Pow2(k)), w);
  }

  // ---------------------------------------------------------------- the size that is allocated

  /** Cutting to a word of at least 32 bits before cutting to 32 bits makes no difference. */
  lemma CutTwice(w: nat, x: nat, y: nat)
    requires w >= 32
    ensures U32((x % Pow2(w) + y) % Pow2(w)) == U32(x + y)
  {
    var n, m := Pow2(w), 0x1_0000_0000;
    Pow2Words();
    PowDivides(32, w);
    var z := x % n + y;
    DivMod(x, n);
    DivMod(z, n);
    MulMultiple(x / n, n, m);
    MulMultiple(z / n, n, m);
    AddMultiple((z / n) * n, z % n, m);
    AddMultiple((x / n) * n, z, m);
  }

  /** Unless 2 + num wraps, the size is the span of the rings cut to an unsigned int. */
  lemma SizeIsSpan(w: nat, num: nat, k: nat)
    requires w >= 32 && k <= w && num < 0xFFFF_FFFE
    ensures Pow2(k) <= Pow2(w)
    ensures Size(w, num, Pow2(k)) == U32(Span(num, Pow2(k)))
  {
    hide MaskUp, Ceil, Pow2;
    assert U32(2 + num) == 2 + num;
    MaskUpMod(w, Front(num), k);
    CutTwice(w, Ceil(Front(num), Pow2(k)), UsedBytes(num));
  }

  lemma SizeIsWord(w: nat, num: nat, align: nat)
    requires 0 < align <= Pow2(w)
    ensures Size(w, num, align) < 0x1_0000_0000
  {
  }

  /** A span of 2^32 or more is cut to less than the rings take without their padding. */
  lemma SizeTooSmall(w: nat, num: nat, k: nat)
    requires w >= 32 && k <= w && Pow2(k) <= Pow2(w) && Span(num, Pow2(k)) >= 0x1_0000_0000
    ensures Size(w, num, Pow2(k)) < Front(num) + UsedBytes(num)
  {
    hide Size, Ceil, Pow2;
    SizeIsWord(w, num, Pow2(k));
    if Front(num) + UsedBytes(num) < 0x1_0000_0000 {
      SizeIsSpan(w, num, k);
      CeilIsLeast(Front(num), Pow2(k));
      if Pow2(k) > 0x1_0000_0000 {
        PadOnly(num, k);
      }
    }
  }

  /** With an alignment above 2^32 the span is that alignment and the used ring. */
  lemma PadOnly(num: nat, k: nat)
    requires Pow2(k) > 0x1_0000_0000 && Front(num) + UsedBytes(num) < 0x1_0000_0000
    ensures U32(Span(num, Pow2(k))) == UsedBytes(num)
  {
    hide Pow2;
    var a := Pow2(k);
    Pow2Words();
    if k < 32 { Pow2Monotone(k, 32); }
    PowDivides(32, k);
    DivModUnique(Front(num) + a - 1, a, 1, Front(num) - 1);
    AddMultiple(a, UsedBytes(num), 0x1_0000_0000);
  }

  /** The size is exact just when the rings take less than 2^32 bytes, for every ring size and alignment. */
  lemma SizeExact(w: nat, num: nat, k: nat)
    requires w >= 32 && k <= w
    ensures Pow2(k) <= Pow2(w)
    ensures Size(w, num, Pow2(k)) == Span(num, Pow2(k)) <==> Span(num, Pow2(k)) < 0x1_0000_0000
  {
    hide Size, Pow2, Ceil;
    Pow2Monotone(k, w);
    SizeIsWord(w, num, Pow2(k));
    if Span(num, Pow2(k)) < 0x1_0000_0000 {
      SizeIsSpan(w, num, k);
    }
  }

  /** The rings end at base plus span just when the base is aligned, and exactly Size bytes after the base just when
      moreover the span is less than 2^32. */
  lemma LayoutEnd(w: nat, num: nat, p: nat, k: nat, avail: nat, used: nat)
    requires w >= 32 && Pow2(k) <= Pow2(w)
    requires Addressable(w, num, p, k) && Initialised(w, num, p, Pow2(k), avail, used)
    ensures used + UsedBytes(num) == p + Span(num, Pow2(k)) <==> p % Pow2(k) == 0
    ensures used + UsedBytes(num) == p + Size(w, num, Pow2(k)) <==>
            p % Pow2(k) == 0 && Span(num, Pow2(k)) < 0x1_0000_0000
  {
    hide MaskUp, Ceil, Size, LaidOut, Initialised, Pow2;
    Layout(w, num, p, k, avail, used);
    CeilShift(p, Front(num), Pow2(k));
    CeilIsLeast(p + Front(num), Pow2(k));
    SizeExact(w, num, k);
    if Span(num, Pow2(k)) >= 0x1_0000_0000 {
      SizeTooSmall(w, num, k);
    }
  }

  /** A ring of 2^28 entries at address 0 of a 64-bit machine, with page alignment: the size is short by 2^32 bytes. */
  lemma SizeCut(avail: nat, used: nat)
    requires Pow2(12) <= Pow2(64) && Initialised(64, 0x1000_0000, 0, Pow2(12), avail, used)
    ensures used + UsedBytes(0x1000_0000) == Size(64, 0x1000_0000, Pow2(12)) + 0x1_0000_0000
  {
    hide MaskUp, Size, Initialised, LaidOut;
    var num: nat := 0x1000_0000;
    assert Pow2(12) == 4096;
    Pow2Words();
    Pow2Add(32, 32);
    Layout(64, num, 0, 12, avail, used);
    SizeIsSpan(64, num, 12);
  }

  lemma PageNumbers()
    ensures Front(256) == 4612 && UsedBytes(256) == 2052 && Pow2(12) == 4096 && Ceil(4612, 4096) == 8192
  {
    DivModUnique(8707, 4096, 2, 515);
  }

  /** An ordinary ring in numbers: 256 entries with page alignment, from a page boundary on. */
  lemma PageRing(w: nat, p: nat, avail: nat, used: nat)
    requires w >= 32 && p % 4096 == 0 && Addressable(w, 256, p, 12) && Pow2(12) <= Pow2(w)
    requires Initialised(w, 256, p, Pow2(12), avail, used)
    ensures avail == p + 4096 && used == p + 8192 && Size(w, 256, Pow2(12)) == 10244
  {
    hide MaskUp, Size, Initialised, Pow2, Ceil;
    PageNumbers();
    Layout(w, 256, p, 12, avail, used);
    CeilShift(p, 4612, 4096);
    SizeIsSpan(w, 256, 12);
  }
}
