/** Byte strings: big-endian integers, hexadecimal text and the lexicographic order. */
module Bytes {

  type Byte = b: int | 0 <= b < 0x100
  type Bytes = seq<Byte>

  function Zeros(n: nat): (r: Bytes)
    ensures |r| == n
  {
    seq(n, i => 0)
  }

  /** 20 ms of silence: mono 16-bit samples at 48 kHz. */
  const SILENCE: Bytes := Zeros(960 * 1 * 2)

  ghost predicate AllZero(b: Bytes) {
    forall i :: 0 <= i < |b| ==> b[i] == 0
  }

  predicate IsAscii(s: string) {
    forall i :: 0 <= i < |s| ==> s[i] < 128 as char
  }

  /** The bytes of an ASCII literal. */
  function Ascii(s: string): (r: Bytes)
    requires IsAscii(s)
    ensures |r| == |s|
  {
    seq(|s|, i requires 0 <= i < |s| => s[i] as int)
  }

  // ---------------------------------------------------------------------------
  // Big-endian integers (the ">H", ">I" and ">Q" fields of struct.pack)
  // ---------------------------------------------------------------------------

  function Pow256(width: nat): (r: nat)
    ensures r > 0
  {
    if width == 0 then 1 else 0x100 * Pow256(width - 1)
  }

  function BigEndian(n: nat, width: nat): (r: Bytes)
    ensures |r| == width
  {
    if width == 0 then [] else BigEndian(n / 0x100, width - 1) + [n % 0x100]
  }

  function ReadBigEndian(b: Bytes): (n: nat)
  {
    if b == [] then 0 else ReadBigEndian(b[..|b| - 1]) * 0x100 + b[|b| - 1]
  }

  lemma {:induction false} ReadBigEndianBound(b: Bytes)
    ensures ReadBigEndian(b) < Pow256(|b|)
  {
    if b != [] {
      ReadBigEndianBound(b[..|b| - 1]);
    }
  }

  /** Packing then unpacking gives back every integer that fits the field. */
  lemma {:induction false} ReadAfterPack(n: nat, width: nat)
    requires n < Pow256(width)
    ensures ReadBigEndian(BigEndian(n, width)) == n
  {
    if width > 0 {
      ReadAfterPack(n / 0x100, width - 1);
      var b := BigEndian(n, width);
      assert b[..|b| - 1] == BigEndian(n / 0x100, width - 1);
    }
  }

  /** Unpacking then packing gives back every field. */
  lemma {:induction false} PackAfterRead(b: Bytes)
    ensures BigEndian(ReadBigEndian(b), |b|) == b
  {
    if b != [] {
      var init := b[..|b| - 1];
      PackAfterRead(init);
      assert ReadBigEndian(b) / 0x100 == ReadBigEndian(init);
      assert b == init + [b[|b| - 1]];
    }
  }

  /** The most significant byte comes first. */
  lemma {:induction false} MostSignificantFirst(b: Bytes)
    requires b != []
    ensures ReadBigEndian(b) == b[0] * Pow256(|b| - 1) + ReadBigEndian(b[1..])
  {
    if |b| > 1 {
      var init := b[..|b| - 1];
      MostSignificantFirst(init);
      assert init[1..] == b[1..][..|b| - 2];
      assert b[0] * (0x100 * Pow256(|b| - 2)) == 0x100 * (b[0] * Pow256(|b| - 2));
    }
  }

  /** Zeros in front do not change the number. */
  lemma {:induction false} LeadingZeros(n: nat, b: Bytes)
    ensures ReadBigEndian(Zeros(n) + b) == ReadBigEndian(b)
    decreases n + |b|
  {
    if b != [] {
      assert (Zeros(n) + b)[..n + |b| - 1] == Zeros(n) + b[..|b| - 1];
      LeadingZeros(n, b[..|b| - 1]);
    } else if n > 0 {
      assert Zeros(n) + b == Zeros(n) && Zeros(n)[..n - 1] == Zeros(n - 1) + [];
      LeadingZeros(n - 1, []);
    }
  }

  lemma FieldSizes()
    ensures Pow256(2) == 0x1_0000
    ensures Pow256(4) == 0x1_0000_0000
    ensures Pow256(8) == 0x1_0000_0000_0000_0000
  {
    assert Pow256(0) == 1;
    assert Pow256(1) == 0x100;
    assert Pow256(2) == 0x1_0000;
    assert Pow256(3) == 0x100_0000;
    assert Pow256(4) == 0x1_0000_0000;
    assert Pow256(5) == 0x100_0000_0000;
    assert Pow256(6) == 0x1_0000_0000_0000;
  }

  // ---------------------------------------------------------------------------
  // Hexadecimal text (bytes.hex)
  // ---------------------------------------------------------------------------

  const HEX_DIGITS := "0123456789abcdef"

  function Hex(b: Bytes): (s: string)
    ensures |s| == 2 * |b|
  {
    if b == [] then "" else [HEX_DIGITS[b[0] / 16], HEX_DIGITS[b[0] % 16]] + Hex(b[1..])
  }

  /** Two digits for each byte, the greater one first. */
  lemma {:induction false} HexAt(b: Bytes, i: nat)
    requires i < |b|
    ensures Hex(b)[2 * i] == HEX_DIGITS[b[i] / 16] && Hex(b)[2 * i + 1] == HEX_DIGITS[b[i] % 16]
  {
    if i > 0 {
      HexAt(b[1..], i - 1);
    }
  }

  lemma HexDigitsDiffer(i: nat, j: nat)
    requires i < 16 && j < 16 && HEX_DIGITS[i] == HEX_DIGITS[j]
    ensures i == j
  {
  }

  lemma {:induction false} HexInjective(a: Bytes, b: Bytes)
    requires Hex(a) == Hex(b)
    ensures a == b
  {
    if a != [] {
      var s, t := Hex(a), Hex(b);
      assert s[0] == t[0] && s[1] == t[1];
      HexDigitsDiffer(a[0] / 16, b[0] / 16);
      HexDigitsDiffer(a[0] % 16, b[0] % 16);
      assert s[2..] == Hex(a[1..]) && t[2..] == Hex(b[1..]);
      HexInjective(a[1..], b[1..]);
      assert a == [a[0]] + a[1..] && b == [b[0]] + b[1..];
    }
  }

  // ---------------------------------------------------------------------------
  // Lexicographic order (comparison of Python byte strings)
  // ---------------------------------------------------------------------------

  predicate LexLess(a: Bytes, b: Bytes) {
    if b == [] then false
    else if a == [] then true
    else if a[0] != b[0] then a[0] < b[0]
    else LexLess(a[1..], b[1..])
  }

  /** The order is total and antisymmetric: exactly one of less, equal, greater holds. */
  lemma {:induction false} LexTrichotomy(a: Bytes, b: Bytes)
    ensures !(LexLess(a, b) && LexLess(b, a))
    ensures !LexLess(a, b) && !LexLess(b, a) <==> a == b
  {
    if a != [] && b != [] && a[0] == b[0] {
      LexTrichotomy(a[1..], b[1..]);
      assert a == [a[0]] + a[1..] && b == [b[0]] + b[1..];
    }
  }

  /** One string is before another when it is a proper beginning of it, or smaller where they first differ. */
  lemma {:induction false} LexLessMeans(a: Bytes, b: Bytes)
    ensures LexLess(a, b) <==>
              exists k :: 0 <= k <= |a| && k < |b| && a[..k] == b[..k] && (k == |a| || a[k] < b[k])
  {
    if a == [] && b != [] {
      assert a[..0] == b[..0];
    } else if a != [] && b != [] {
      if a[0] != b[0] {
        if a[0] < b[0] {
          assert a[..0] == b[..0];
        }
        forall k | 0 < k <= |a| && k < |b| ensures a[..k] != b[..k] {
          assert a[..k][0] != b[..k][0];
        }
      } else {
        LexLessMeans(a[1..], b[1..]);
        LexLessTail(a, b);
      }
    }
  }

  lemma LexLessTail(a: Bytes, b: Bytes)
    requires a != [] && b != [] && a[0] == b[0]
    ensures (exists k :: 0 <= k <= |a| && k < |b| && a[..k] == b[..k] && (k == |a| || a[k] < b[k]))
       <==> (exists k :: 0 <= k <= |a[1..]| && k < |b[1..]| && a[1..][..k] == b[1..][..k]
                         && (k == |a[1..]| || a[1..][k] < b[1..][k]))
  {
    if k :| 0 <= k <= |a| && k < |b| && a[..k] == b[..k] && (k == |a| || a[k] < b[k]) {
      assert k > 0;
      assert a[1..][..k - 1] == a[..k][1..] && b[1..][..k - 1] == b[..k][1..];
    }
    if k :| 0 <= k <= |a[1..]| && k < |b[1..]| && a[1..][..k] == b[1..][..k]
            && (k == |a[1..]| || a[1..][k] < b[1..][k])
    {
      assert a[..k + 1] == [a[0]] + a[1..][..k] && b[..k + 1] == [b[0]] + b[1..][..k];
    }
  }

  /** sorted((a, b)) */
  function SortedPair(a: Bytes, b: Bytes): (Bytes, Bytes) {
    if LexLess(b, a) then (b, a) else (a, b)
  }

  lemma SortedPairSymmetric(a: Bytes, b: Bytes)
    ensures SortedPair(a, b) == SortedPair(b, a)
  {
    LexTrichotomy(a, b);
  }
}
