/**
 What pins the CRC: its polynomial by exponents, two values that fix where the register starts and ends,
 and the residue by which a receiver checks a message with its checksum behind it.
 */
module CrcLaws {
  import opened Common
  import opened Crc32

  // ----- the polynomial

  /** The exponents below 32 of the polynomial of section 5.5 of the PNG Specification. */
  const EXPONENTS := {0, 1, 2, 4, 5, 7, 8, 10, 11, 12, 16, 22, 23, 26}

  lemma Halve(m: nat, k: nat)
    ensures BitsOf(m, k + 1) == [m % 2 == 1] + BitsOf(m / 2, k)
  {
  }

  lemma Quarters(n: nat, d: nat)
    requires d < 16
    ensures var m := 16 * n + d;
            m % 2 == d % 2 && m / 2 % 2 == d / 2 % 2 && m / 2 / 2 % 2 == d / 4 % 2 && m / 2 / 2 / 2 % 2 == d / 8 % 2
            && m / 2 / 2 / 2 / 2 == n
  {
    var m := 16 * n + d;
    assert m / 2 == 8 * n + d / 2;
    assert m / 2 / 2 == 4 * n + d / 4;
    assert m / 2 / 2 / 2 == 2 * n + d / 8;
  }

  /** The four low bits of a number, and the others. */
  lemma Nibble(n: nat, d: nat, k: nat)
    requires d < 16
    ensures var c := BitsOf(16 * n + d, k + 4);
            && c[0] == (d % 2 == 1) && c[1] == (d / 2 % 2 == 1) && c[2] == (d / 4 % 2 == 1) && c[3] == (d / 8 % 2 == 1)
            && c[4..] == BitsOf(n, k)
  {
    var m := 16 * n + d;
    Quarters(n, d);
    Halve(m, k + 3);
    Halve(m / 2, k + 2);
    Halve(m / 2 / 2, k + 1);
    Halve(m / 2 / 2 / 2, k);
  }

  /** Bit `i` of eight hexadecimal digits, the lowest first, is a bit of digit `i / 4`. */
  lemma {:induction false} DigitBits(n: nat, ds: seq<nat>, i: nat)
    requires n == FromDigits(ds) && (forall j :: 0 <= j < |ds| ==> ds[j] < 16) && i < 4 * |ds|
    ensures BitsOf(n, 4 * |ds|)[i] == Bit(ds[i / 4], i % 4)
    decreases |ds|
  {
    var rest, k := ds[1..], 4 * (|ds| - 1);
    Nibble(FromDigits(rest), ds[0], k);
    if i >= 4 {
      DigitBits(FromDigits(rest), rest, i - 4);
      assert BitsOf(n, k + 4)[4..][i - 4] == BitsOf(n, k + 4)[i];
      assert rest[(i - 4) / 4] == ds[i / 4] && (i - 4) % 4 == i % 4;
    }
  }

  function FromDigits(ds: seq<nat>): nat {
    if ds == [] then 0 else 16 * FromDigits(ds[1..]) + ds[0]
  }

  function Bit(d: nat, r: nat): bool {
    if r == 0 then d % 2 == 1 else if r == 1 then d / 2 % 2 == 1 else if r == 2 then d / 4 % 2 == 1 else d / 8 % 2 == 1
  }

  const DIGITS: seq<nat> := [0, 2, 3, 8, 8, 11, 13, 14]

  lemma FromCons(d: nat, ds: seq<nat>)
    ensures FromDigits([d] + ds) == 16 * FromDigits(ds) + d
  {
    assert ([d] + ds)[1..] == ds;
  }

  lemma DigitsValue()
    ensures FromDigits(DIGITS) == 0xedb8_8320
  {
    var a := [14];
    FromCons(14, []);
    assert [14] + [] == a;
    var b := [13] + a;
    FromCons(13, a);
    var c := [11] + b;
    FromCons(11, b);
    var d := [8] + c;
    FromCons(8, c);
    var e := [8] + d;
    FromCons(8, d);
    var f := [3] + e;
    FromCons(3, e);
    var g := [2] + f;
    FromCons(2, f);
    FromCons(0, g);
    assert [0] + g == DIGITS;
  }

  /** Bit 31 - e of the constant is the coefficient of the power e. */
  lemma PolynomialIs(i: nat)
    requires i < 32
    ensures POLYNOMIAL[i] <==> 31 - i in EXPONENTS
  {
    DigitsValue();
    DigitBits(0xedb8_8320, DIGITS, i);
    DigitExponents(i);
  }

  lemma DigitExponents(i: nat)
    requires i < 32
    ensures Bit(DIGITS[i / 4], i % 4) <==> 31 - i in EXPONENTS
  {
  }

  // ----- where the register starts and ends

  /** Nothing sums to zero. */
  lemma EmptySum(p: Word, w: nat)
    ensures Checksum(p, [], w) == Zeros(32)
  {
  }

  lemma {:induction false} OnesBits(d: nat, k: nat)
    requires d == Pow2(k) - 1
    ensures BitsOf(d, k) == Repeat(true, k)
    decreases k
  {
    if k > 0 {
      OnesBits(d / 2, k - 1);
    }
  }

  lemma {:induction false} OnesMessage(s: Bytes)
    requires forall i :: 0 <= i < |s| ==> s[i] == 255
    ensures |MessageBits(s, 8)| == 8 * |s| && forall i :: 0 <= i < 8 * |s| ==> MessageBits(s, 8)[i]
    decreases |s|
  {
    if s != [] {
      OnesMessage(s[..|s| - 1]);
      assert Pow2(8) == 256;
      OnesBits(s[|s| - 1], 8);
    }
  }

  lemma ZeroShifts(p: Word, none: Word, n: nat)
    requires n <= 32 && forall i :: 0 <= i < 32 ==> !none[i]
    ensures Shifts(p, none, n) == none
  {
    ShiftsMove(p, none, n);
    assert Shr(none, n) == none;
  }

  /** A register fed its own bits is emptied. */
  lemma Emptied(p: Word, c: Word)
    ensures forall i :: 0 <= i < 32 ==> !FeedAll(p, c, c)[i]
  {
    FeedTogether(p, c, c);
    assert Widen(c) == c;
    ZeroShifts(p, Xor(c, c), |c|);
  }

  lemma CancelsStart(p: Word, t: Bytes)
    requires MessageBits(t, 8) == ONES
    ensures Checksum(p, t, 8) == ONES
  {
    Emptied(p, ONES);
  }

  /** The register starts at what four bytes of ones cancel, and ends in its complement. */
  lemma OnesSum(p: Word, s: Bytes)
    requires |s| == 4 && forall i :: 0 <= i < 4 ==> s[i] == 255
    ensures Checksum(p, s, 8) == ONES
  {
    OnesMessage(s);
    CancelsStart(p, s);
  }

  // ----- the residue

  /** A word as four bytes, the lowest first. */
  function WordBytes(c: Word): Bytes {
    [Octet(c, 0), Octet(c, 1), Octet(c, 2), Octet(c, 3)]
  }

  function Octet(c: Word, i: nat): Byte
    requires i < 4
  {
    OctetBound(c, i);
    ToNat(c[8 * i..8 * i + 8])
  }

  lemma OctetBound(c: Word, i: nat)
    requires i < 4
    ensures ToNat(c[8 * i..8 * i + 8]) < 256
    ensures BitsOf(ToNat(c[8 * i..8 * i + 8]), 8) == c[8 * i..8 * i + 8]
  {
    BitsRoundTrip(c[8 * i..8 * i + 8]);
    assert Pow2(8) == 256;
  }

  lemma FourBytes(a: Byte, b: Byte, c: Byte, d: Byte, w: nat)
    ensures MessageBits([a, b, c, d], w) == BitsOf(a, w) + BitsOf(b, w) + BitsOf(c, w) + BitsOf(d, w)
  {
    assert [a, b, c, d][..3] == [a, b, c] && [a, b, c][..2] == [a, b] && [a, b][..1] == [a] && [a][..0] == [];
    assert MessageBits([a], w) == BitsOf(a, w);
    assert MessageBits([a, b], w) == BitsOf(a, w) + BitsOf(b, w);
    assert MessageBits([a, b, c], w) == BitsOf(a, w) + BitsOf(b, w) + BitsOf(c, w);
  }

  lemma Joined(c: Bits, w: Bits, x: Bits, y: Bits, z: Bits)
    requires |c| == 32 && w == c[..8] && x == c[8..16] && y == c[16..24] && z == c[24..]
    ensures w + x + y + z == c
  {
  }

  lemma FourOctets(c: Word, a: Byte, b: Byte, d: Byte, e: Byte)
    requires BitsOf(a, 8) == c[..8] && BitsOf(b, 8) == c[8..16] && BitsOf(d, 8) == c[16..24] && BitsOf(e, 8) == c[24..]
    ensures MessageBits([a, b, d, e], 8) == c
  {
    FourBytes(a, b, d, e, 8);
    Joined(c, BitsOf(a, 8), BitsOf(b, 8), BitsOf(d, 8), BitsOf(e, 8));
  }

  lemma WordBytesBits(c: Word)
    ensures MessageBits(WordBytes(c), 8) == c
  {
    OctetBound(c, 0);
    OctetBound(c, 1);
    OctetBound(c, 2);
    OctetBound(c, 3);
    FourOctets(c, Octet(c, 0), Octet(c, 1), Octet(c, 2), Octet(c, 3));
  }

  /** What every message with its checksum behind it sums to. */
  function Residue(p: Word): Word {
    Xor(Shifts(p, ONES, 32), ONES)
  }

  lemma CancelsTo(c: Word, t: Word)
    ensures Xor(c, t) == ONES <==> t == Xor(c, ONES)
  {
    CancelsBack(c, ONES);
    if Xor(c, t) == ONES {
      CancelsBack(c, t);
    }
  }

  lemma CancelsBack(c: Word, t: Word)
    ensures Xor(c, Xor(c, t)) == t
  {
  }

  lemma FourMore(p: Word, s: Bytes, t: Bytes)
    requires |t| == 4
    ensures |MessageBits(t, 8)| == 32
    ensures var c := FeedAll(p, ONES, MessageBits(s, 8));
            Checksum(p, s + t, 8) == Xor(Shifts(p, Xor(c, MessageBits(t, 8)), 32), ONES)
  {
    var c, bits := FeedAll(p, ONES, MessageBits(s, 8)), MessageBits(t, 8);
    MessageLength(t, 8);
    MessageConcat(s, t, 8);
    FeedConcat(p, ONES, MessageBits(s, 8), bits);
    FeedTogether(p, c, bits);
    assert Widen(bits) == bits;
  }

  lemma SameSum(p: Word, x: Word, y: Word)
    requires p[31] && Xor(Shifts(p, x, 32), ONES) == Xor(Shifts(p, y, 32), ONES)
    ensures x == y
  {
    var u, v := Shifts(p, x, 32), Shifts(p, y, 32);
    XorCommutes(u, ONES);
    XorCommutes(v, ONES);
    XorCancels(ONES, u, v);
    ShiftsInjective(p, x, y, 32);
  }

  lemma TrailerChecked(p: Word, s: Bytes, t: Bytes, sum: Word)
    requires p[31] && |t| == 4 && sum == Checksum(p, s, 8)
    ensures Checksum(p, s + t, 8) == Residue(p) <==> t == WordBytes(sum)
  {
    var c, bits := FeedAll(p, ONES, MessageBits(s, 8)), MessageBits(t, 8);
    FourMore(p, s, t);
    CancelsTo(c, bits);
    WordBytesBits(sum);
    if Checksum(p, s + t, 8) == Residue(p) {
      SameSum(p, Xor(c, bits), ONES);
      assert Pow2(8) == 256;
      MessageInjective(t, WordBytes(sum), 8);
    }
  }

  /**
   Four bytes behind a message bring the sum to the residue if and only if they are the message's
   checksum, so a receiver can check them without separating them.
   */
  lemma TrailerIff(s: Bytes, t: Bytes)
    requires |t| == 4
    ensures Checksum(POLYNOMIAL, s + t, 8) == Residue(POLYNOMIAL) <==> t == WordBytes(Checksum(POLYNOMIAL, s, 8))
  {
    PolynomialTop();
    TrailerChecked(POLYNOMIAL, s, t, Checksum(POLYNOMIAL, s, 8));
  }

  lemma XorCommutes(a: Word, b: Word)
    ensures Xor(a, b) == Xor(b, a)
  {
  }
}
