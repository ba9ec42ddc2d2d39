/** First-level encoding of NetBIOS names, section 14.1 of RFC 1001. */
module NetbiosNames {

  /** A character of a C string: any byte but the terminating zero. */
  type NameChar = b: int | 1 <= b <= 255 witness 32

  const SPACE: NameChar := 32
  const LETTER_A := 65
  const MAX_NAME := 15
  const NAME_BYTES := 16
  const ENCODED_BYTES := 33

  datatype Encoding = TooLong | Encoded(bytes: seq<int>)

  /** The unsigned value a signed char is passed as. */
  function Promoted(b: NameChar): nat {
    if b > 127 then 0x1_0000_0000 - 256 + b else b
  }

  /** toupper of the promoted character, stored into a byte. */
  function StoredUpper(b: NameChar): int {
    var c := Promoted(b);
    (c - 0x20 * (if 97 <= c <= 122 then 1 else 0)) % 256
  }

  /** ASCII upper case; other bytes stay. */
  function Upper(b: NameChar): NameChar {
    if 97 <= b <= 122 then b - 32 else b
  }

  lemma UpperStored(b: NameChar)
    ensures StoredUpper(b) == Upper(b)
  {
  }

  function UpperAll(name: seq<NameChar>): (r: seq<NameChar>)
    ensures |r| == |name|
  {
    seq(|name|, i requires 0 <= i < |name| => Upper(name[i]))
  }

  function Spaces(n: nat): (r: seq<NameChar>)
    ensures |r| == n
  {
    seq(n, _ => SPACE)
  }

  /** The sixteen bytes that are encoded: the name in upper case, padded with spaces, and a zero suffix. */
  function Padded(name: seq<NameChar>): (r: seq<int>)
    requires |name| <= MAX_NAME
    ensures |r| == NAME_BYTES
  {
    var shown: seq<int> := UpperAll(name) + Spaces(MAX_NAME - |name|);
    shown + [0]
  }

  predicate IsByte(b: int) {
    0 <= b <= 255
  }

  function HighLetter(b: int): int {
    b / 16 + LETTER_A
  }

  function LowLetter(b: int): int {
    b % 16 + LETTER_A
  }

  function FromLetters(high: int, low: int): int {
    (high - LETTER_A) * 16 + (low - LETTER_A)
  }

  predicate IsLetter(l: int) {
    'A' as int <= l <= 'P' as int
  }

  lemma Halves(b: int)
    requires IsByte(b)
    ensures IsLetter(HighLetter(b)) && IsLetter(LowLetter(b)) && FromLetters(HighLetter(b), LowLetter(b)) == b
  {
  }

  /** Each byte becomes two letters, high half first. */
  function Spelled(bytes: seq<int>): (r: seq<int>)
    ensures |r| == 2 * |bytes|
  {
    if bytes == [] then []
    else
      var n := |bytes| - 1;
      Spelled(bytes[..n]) + [HighLetter(bytes[n]), LowLetter(bytes[n])]
  }

  /** The bytes spelled by pairs of letters. */
  function Read(letters: seq<int>): (r: seq<int>)
    requires |letters| % 2 == 0
    ensures |r| == |letters| / 2
    decreases |letters|
  {
    if letters == [] then []
    else
      var n := |letters| - 2;
      Read(letters[..n]) + [FromLetters(letters[n], letters[n+1])]
  }

  lemma ReadPair(letters: seq<int>, high: int, low: int)
    requires |letters| % 2 == 0
    ensures Read(letters + [high, low]) == Read(letters) + [FromLetters(high, low)]
  {
    assert (letters + [high, low])[..|letters|] == letters;
  }

  /** Reading undoes spelling. */
  lemma {:induction false} ReadSpelled(bytes: seq<int>)
    requires forall i :: 0 <= i < |bytes| ==> IsByte(bytes[i])
    ensures Read(Spelled(bytes)) == bytes
  {
    hide HighLetter, LowLetter, FromLetters;
    if bytes != [] {
      var n := |bytes| - 1;
      ReadSpelled(bytes[..n]);
      Halves(bytes[n]);
      ReadPair(Spelled(bytes[..n]), HighLetter(bytes[n]), LowLetter(bytes[n]));
      assert bytes == bytes[..n] + [bytes[n]];
    }
  }

  /** Only the letters A to P are used. */
  lemma {:induction false} SpelledLetters(bytes: seq<int>)
    requires forall i :: 0 <= i < |bytes| ==> IsByte(bytes[i])
    ensures forall i :: 0 <= i < |Spelled(bytes)| ==> IsLetter(Spelled(bytes)[i])
  {
    hide HighLetter, LowLetter;
    if bytes != [] {
      SpelledLetters(bytes[..|bytes| - 1]);
      Halves(bytes[|bytes| - 1]);
    }
  }

  function EncodedName(name: seq<NameChar>): seq<int>
    requires |name| <= MAX_NAME
  {
    Spelled(Padded(name)) + [0]
  }

  lemma PaddedAt(name: seq<NameChar>, i: nat)
    requires |name| <= MAX_NAME && i < NAME_BYTES
    ensures Padded(name)[i] == if i == MAX_NAME then 0 else StoredUpper(if i < |name| then name[i] else SPACE)
  {
    UpperStored(if i < |name| then name[i] else SPACE);
  }

  lemma SpelledNext(p: seq<int>, i: nat)
    requires i < |p|
    ensures Spelled(p[..i+1]) == Spelled(p[..i]) + [HighLetter(p[i]), LowLetter(p[i])]
  {
    assert p[..i+1][..i] == p[..i];
  }

  /** Stores the two letters of a byte. */
  method StoreByte(encoded: array<int>, j: nat, car: int)
    requires j + 1 < encoded.Length
    modifies encoded
    ensures encoded[..j+2] == old(encoded[..j]) + [HighLetter(car), LowLetter(car)]
  {
    encoded[j] := HighLetter(car);
    encoded[j+1] := LowLetter(car);
  }

  /** The label loop: fills the zeroed buffer two letters at a time. */
  method EncodeLabel(name: seq<NameChar>) returns (r: Encoding)
    ensures r == if |name| > MAX_NAME then TooLong else Encoded(EncodedName(name))
  {
    if |name| > MAX_NAME {
      return TooLong;
    }
    var encoded := new int[ENCODED_BYTES](_ => 0);
    var len := |name|;
    ghost var p := Padded(name);
    var i, j := 0, 0;
    hide HighLetter, LowLetter, StoredUpper, Padded, Spelled;
    assert p[..0] == [] && Spelled([]) == [];
    while i < NAME_BYTES
      invariant 0 <= i <= NAME_BYTES && j == 2 * i
      invariant encoded[..j] == Spelled(p[..i])
    {
      var car := StoredUpper(if i < len then name[i] else SPACE);
      PaddedAt(name, i);
      if i == 15 {
        car := 0;
      }
      SpelledNext(p, i);
      StoreByte(encoded, j, car);
      i := i + 1;
      j := j + 2;
    }
    encoded[j] := 0;
    assert p[..i] == p;
    assert encoded[..] == encoded[..j] + [0];
    r := Encoded(encoded[..]);
  }

  // ---------------------------------------------------------------- which names are told apart

  /** The name without trailing spaces. */
  function Trimmed(s: seq<NameChar>): (r: seq<NameChar>)
    ensures |r| <= |s|
  {
    if s != [] && s[|s| - 1] == SPACE then Trimmed(s[..|s| - 1]) else s
  }

  lemma {:induction false} TrimmedPad(s: seq<NameChar>, n: nat)
    ensures Trimmed(s + Spaces(n)) == Trimmed(s)
    decreases n
  {
    if n == 0 {
      assert s + Spaces(0) == s;
    } else {
      assert (s + Spaces(n))[..|s| + n - 1] == s + Spaces(n - 1);
      TrimmedPad(s, n - 1);
    }
  }

  lemma {:induction false} PadTrimmed(s: seq<NameChar>, n: nat)
    requires |s| <= n
    ensures s + Spaces(n - |s|) == Trimmed(s) + Spaces(n - |Trimmed(s)|)
    decreases |s|
  {
    if s != [] && s[|s| - 1] == SPACE {
      var t := s[..|s| - 1];
      PadTrimmed(t, n);
      assert s + Spaces(n - |s|) == t + Spaces(n - |t|);
    }
  }

  /** Two names are the same up to ASCII case and trailing spaces. */
  predicate SameName(a: seq<NameChar>, b: seq<NameChar>) {
    Trimmed(UpperAll(a)) == Trimmed(UpperAll(b))
  }

  lemma PaddedBytes(name: seq<NameChar>)
    requires |name| <= MAX_NAME
    ensures forall i :: 0 <= i < NAME_BYTES ==> IsByte(Padded(name)[i])
  {
  }

  lemma PaddedSame(a: seq<NameChar>, b: seq<NameChar>)
    requires |a| <= MAX_NAME && |b| <= MAX_NAME
    ensures Padded(a) == Padded(b) <==> SameName(a, b)
  {
    var ua, ub := UpperAll(a), UpperAll(b);
    PadTrimmed(ua, MAX_NAME);
    PadTrimmed(ub, MAX_NAME);
    TrimmedPad(ua, MAX_NAME - |a|);
    TrimmedPad(ub, MAX_NAME - |b|);
    var pa, pb := ua + Spaces(MAX_NAME - |a|), ub + Spaces(MAX_NAME - |b|);
    if Padded(a) == Padded(b) {
      assert pa == Padded(a)[..MAX_NAME] && pb == Padded(b)[..MAX_NAME];
    }
  }

  /** Decoding gives back the padded upper-case name; names encode alike exactly when they are the same name. */
  lemma EncodingFaithful(a: seq<NameChar>, b: seq<NameChar>)
    requires |a| <= MAX_NAME && |b| <= MAX_NAME
    ensures |EncodedName(a)| == ENCODED_BYTES && EncodedName(a)[32] == 0
    ensures forall i :: 0 <= i < 32 ==> IsLetter(EncodedName(a)[i])
    ensures Read(EncodedName(a)[..32]) == Padded(a)
    ensures EncodedName(a) == EncodedName(b) <==> SameName(a, b)
  {
    PaddedBytes(a);
    PaddedBytes(b);
    ReadSpelled(Padded(a));
    SpelledLetters(Padded(a));
    ReadSpelled(Padded(b));
    PaddedSame(a, b);
    assert EncodedName(a)[..32] == Spelled(Padded(a));
    assert EncodedName(b)[..32] == Spelled(Padded(b));
  }

  lemma {:induction false} SpelledAt(bytes: seq<int>, k: nat)
    requires k < |bytes|
    ensures Spelled(bytes)[2 * k] == HighLetter(bytes[k]) && Spelled(bytes)[2 * k + 1] == LowLetter(bytes[k])
  {
    hide HighLetter, LowLetter;
    if k < |bytes| - 1 { SpelledAt(bytes[..|bytes| - 1], k); }
  }

  /** The sixteen bytes that the letters spell, one by one: the name with its ASCII letters in upper case, then spaces,
      and a zero, whose letters are both A. Each byte's letters are its halves, the high one first. */
  lemma EncodedBytes(name: seq<NameChar>, k: nat)
    requires |name| <= 15 && k < 16
    ensures |EncodedName(name)| == 33 && EncodedName(name)[32] == 0
    ensures var b := Read(EncodedName(name)[..32])[k];
            && (k < |name| && 97 <= name[k] <= 122 ==> b == name[k] - 32)
            && (k < |name| && !(97 <= name[k] <= 122) ==> b == name[k])
            && (|name| <= k < 15 ==> b == 32)
            && (k == 15 ==> b == 0)
            && EncodedName(name)[2 * k] == 65 + b / 16 && EncodedName(name)[2 * k + 1] == 65 + b % 16
    ensures EncodedName(name)[30] == EncodedName(name)[31] == 'A' as int
  {
    var p := Padded(name);
    hide Read, Spelled, FromLetters;
    EncodingFaithful(name, name);
    SpelledAt(p, k);
    SpelledAt(p, 15);
    assert p[15] == 0;
  }
}
