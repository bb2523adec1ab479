/**
 The table-driven CRC-32 used to write PNG chunks, against the shift register it speeds up.

 Words are sequences of bits, least significant first. The lemmas hold for any polynomial `p` and any
 number `w` of bits entered per lookup; the CRC is the case of eight.
 */
module Crc32 {
  import opened Common

  type Bits = seq<bool>

  function Repeat(bit: bool, n: nat): (c: Bits)
    ensures |c| == n && forall i :: 0 <= i < n ==> c[i] == bit
  {
    if n == 0 then [] else [bit] + Repeat(bit, n - 1)
  }

  function Zeros(n: nat): Bits {
    Repeat(false, n)
  }

  function Xor(a: Bits, b: Bits): (c: Bits)
    requires |a| == |b|
    ensures |c| == |a| && forall i :: 0 <= i < |a| ==> c[i] == (a[i] != b[i])
  {
    if a == [] then [] else [a[0] != b[0]] + Xor(a[1..], b[1..])
  }

  function Shr(c: Bits, n: nat): (d: Bits)
    requires n <= |c|
    ensures |d| == |c|
  {
    c[n..] + Zeros(n)
  }

  function BitsOf(n: nat, k: nat): (c: Bits)
    ensures |c| == k
  {
    if k == 0 then [] else [n % 2 == 1] + BitsOf(n / 2, k - 1)
  }

  function ToNat(c: Bits): nat {
    if c == [] then 0 else (if c[0] then 1 else 0) + 2 * ToNat(c[1..])
  }

  function Pow2(n: nat): nat {
    if n == 0 then 1 else 2 * Pow2(n - 1)
  }

  type Word = c: Bits | |c| == 32 witness Zeros(32)

  const POLYNOMIAL: Word := BitsOf(0xedb8_8320, 32)
  const ONES: Word := Repeat(true, 32)

  /** A few bits in the low places of a word. */
  function Widen(c: Bits): Word
    requires |c| <= 32
  {
    c + Zeros(32 - |c|)
  }

  /** The register shifts one place; the bit that falls out decides whether the polynomial is added. */
  function Shift(p: Word, c: Word): Word {
    if c[0] then Xor(p, Shr(c, 1)) else Shr(c, 1)
  }

  function Shifts(p: Word, c: Word, n: nat): Word
    decreases n
  {
    if n == 0 then c else Shifts(p, Shift(p, c), n - 1)
  }

  // ----- the reference: message bits enter the register one at a time

  function Feed(p: Word, c: Word, bit: bool): Word {
    Shift(p, c[0 := c[0] != bit])
  }

  function FeedAll(p: Word, c: Word, bits: Bits): Word
    decreases |bits|
  {
    if bits == [] then c else FeedAll(p, Feed(p, c, bits[0]), bits[1..])
  }

  /** All bits of a message, each byte least significant bit first. */
  function MessageBits(s: Bytes, w: nat): Bits {
    if s == [] then [] else MessageBits(s[..|s| - 1], w) + BitsOf(s[|s| - 1], w)
  }

  function Checksum(p: Word, s: Bytes, w: nat): Word {
    Xor(FeedAll(p, ONES, MessageBits(s, w)), ONES)
  }

  // ----- the register is linear

  lemma ShrXor(x: Word, y: Word)
    ensures Shr(Xor(x, y), 1) == Xor(Shr(x, 1), Shr(y, 1))
  {
  }

  lemma ShiftXor(p: Word, x: Word, y: Word)
    ensures Shift(p, Xor(x, y)) == Xor(Shift(p, x), Shift(p, y))
  {
    ShrXor(x, y);
  }

  lemma {:induction false} ShiftsXor(p: Word, x: Word, y: Word, n: nat)
    ensures Shifts(p, Xor(x, y), n) == Xor(Shifts(p, x, n), Shifts(p, y, n))
    decreases n
  {
    if n > 0 {
      ShiftXor(p, x, y);
      ShiftsXor(p, Shift(p, x), Shift(p, y), n - 1);
    }
  }

  /** While only zeros fall out, the register just moves. */
  lemma {:induction false} ShiftsMove(p: Word, c: Word, n: nat)
    requires n <= 32 && forall i :: 0 <= i < n ==> !c[i]
    ensures Shifts(p, c, n) == Shr(c, n)
    decreases n
  {
    if n > 0 {
      ShiftsMove(p, Shift(p, c), n - 1);
      assert Shr(Shr(c, 1), n - 1) == Shr(c, n);
    } else {
      assert Shr(c, 0) == c;
    }
  }

  /** The first bit can be added in place and the later ones wait. */
  lemma FirstAndLate(c: Word, bits: Bits)
    requires 0 < |bits| <= 32
    ensures Xor(c, Widen(bits)) == Xor(c[0 := c[0] != bits[0]], Widen([false] + bits[1..]))
  {
  }

  lemma LateMoves(p: Word, rest: Bits)
    requires |rest| < 32
    ensures Shift(p, Widen([false] + rest)) == Widen(rest)
  {
  }

  /** Bits may enter all at once: those not yet shifted in wait in the low places. */
  lemma {:induction false} FeedTogether(p: Word, c: Word, bits: Bits)
    requires |bits| <= 32
    ensures FeedAll(p, c, bits) == Shifts(p, Xor(c, Widen(bits)), |bits|)
    decreases |bits|
  {
    if bits == [] {
      assert Xor(c, Widen([])) == c;
    } else {
      FeedTogether(p, Feed(p, c, bits[0]), bits[1..]);
      FirstAndLate(c, bits);
      ShiftXor(p, c[0 := c[0] != bits[0]], Widen([false] + bits[1..]));
      LateMoves(p, bits[1..]);
    }
  }

  lemma LowAndHigh(x: Word, w: nat)
    requires w <= 32
    ensures x == Xor(Widen(x[..w]), Zeros(w) + x[w..]) && Shr(Zeros(w) + x[w..], w) == Shr(x, w)
  {
  }

  /** The heart of the table: one lookup and one shift by `w` places do the work of `w` steps. */
  lemma Lookup(p: Word, x: Word, w: nat)
    requires w <= 32
    ensures Shifts(p, x, w) == Xor(Shifts(p, Widen(x[..w]), w), Shr(x, w))
  {
    LowAndHigh(x, w);
    ShiftsXor(p, Widen(x[..w]), Zeros(w) + x[w..], w);
    ShiftsMove(p, Zeros(w) + x[w..], w);
  }

  lemma {:induction false} BitsRoundTrip(c: Bits)
    ensures BitsOf(ToNat(c), |c|) == c && ToNat(c) < Pow2(|c|)
    decreases |c|
  {
    if c != [] {
      BitsRoundTrip(c[1..]);
      assert ToNat(c) / 2 == ToNat(c[1..]);
    }
  }

  // ----- the table and the fast form

  function Entry(p: Word, n: nat, w: nat): Word
    requires w <= 32
  {
    Shifts(p, Widen(BitsOf(n, w)), w)
  }

  predicate IsTable(p: Word, table: seq<Word>, w: nat)
    requires w <= 32
  {
    |table| == Pow2(w) && forall n :: 0 <= n < |table| ==> table[n] == Entry(p, n, w)
  }

  method BuildEntry(p: Word, n: nat, w: nat) returns (c: Word)
    requires w <= 32
    ensures c == Entry(p, n, w)
  {
    c := Widen(BitsOf(n, w));
    for k := 0 to w
      invariant Shifts(p, c, w - k) == Entry(p, n, w)
    {
      c := if c[0] then Xor(p, Shr(c, 1)) else Shr(c, 1);
    }
  }

  method BuildTable(p: Word, w: nat) returns (table: array<Word>)
    requires w <= 32
    ensures fresh(table) && IsTable(p, table[..], w)
  {
    table := new Word[Pow2(w)](_ => p);
    for n := 0 to table.Length
      invariant forall m :: 0 <= m < n ==> table[m] == Entry(p, m, w)
    {
      var c := BuildEntry(p, n, w);
      table[n] := c;
    }
  }

  function Index(c: Word, b: Byte, w: nat): nat
    requires w <= 32
  {
    ToNat(Xor(c, Widen(BitsOf(b, w)))[..w])
  }

  lemma HighUntouched(c: Word, bits: Bits)
    requires |bits| <= 32
    ensures Shr(Xor(c, Widen(bits)), |bits|) == Shr(c, |bits|)
  {
  }

  lemma TableStep(p: Word, table: seq<Word>, c: Word, b: Byte, w: nat)
    requires w <= 32 && IsTable(p, table, w)
    ensures Index(c, b, w) < |table| && Xor(table[Index(c, b, w)], Shr(c, w)) == FeedAll(p, c, BitsOf(b, w))
  {
    var bits := BitsOf(b, w);
    var x := Xor(c, Widen(bits));
    BitsRoundTrip(x[..w]);
    FeedTogether(p, c, bits);
    Lookup(p, x, w);
    HighUntouched(c, bits);
  }

  lemma {:induction false} FeedConcat(p: Word, c: Word, a: Bits, b: Bits)
    ensures FeedAll(p, c, a + b) == FeedAll(p, FeedAll(p, c, a), b)
    decreases |a|
  {
    if a == [] {
      assert a + b == b;
    } else {
      FeedConcat(p, Feed(p, c, a[0]), a[1..], b);
      assert (a + b)[1..] == a[1..] + b;
    }
  }

  /** One more byte of the message. */
  lemma NextByte(p: Word, table: seq<Word>, s: Bytes, i: nat, w: nat)
    requires w <= 32 && IsTable(p, table, w) && i < |s|
    ensures var c := FeedAll(p, ONES, MessageBits(s[..i], w));
            Index(c, s[i], w) < |table|
            && FeedAll(p, ONES, MessageBits(s[..i + 1], w)) == Xor(table[Index(c, s[i], w)], Shr(c, w))
  {
    var c := FeedAll(p, ONES, MessageBits(s[..i], w));
    TableStep(p, table, c, s[i], w);
    FeedConcat(p, ONES, MessageBits(s[..i], w), BitsOf(s[i], w));
    assert s[..i + 1][..i] == s[..i];
  }

  /** The table-driven loop computes what the shift register does. */
  method Compute(p: Word, table: array<Word>, s: Bytes, w: nat) returns (sum: Word)
    requires w <= 32 && IsTable(p, table[..], w)
    ensures sum == Checksum(p, s, w)
  {
    var c: Word := ONES;
    assert s[..0] == [];
    for i := 0 to |s|
      invariant c == FeedAll(p, ONES, MessageBits(s[..i], w))
    {
      NextByte(p, table[..], s, i, w);
      c := Xor(table[Index(c, s[i], w)], Shr(c, w));
    }
    assert s[..|s|] == s;
    sum := Xor(c, ONES);
  }

  /** The CRC-32 of a chunk: a byte per lookup, equal to the bit-serial register over all bits. */
  method Crc32(s: Bytes) returns (crc: Word)
    ensures crc == Checksum(POLYNOMIAL, s, 8)
  {
    var table := BuildTable(POLYNOMIAL, 8);
    crc := Compute(POLYNOMIAL, table, s, 8);
  }

  // ----- errors it detects

  lemma XorCancels(a: Bits, b: Bits, c: Bits)
    requires |a| == |b| == |c| && Xor(a, b) == Xor(a, c)
    ensures b == c
  {
    forall i | 0 <= i < |a|
      ensures b[i] == c[i]
    {
      assert Xor(a, b)[i] == Xor(a, c)[i];
    }
  }

  lemma ShrCancels(x: Word, y: Word)
    requires Shr(x, 1) == Shr(y, 1) && x[0] == y[0]
    ensures x == y
  {
    forall i | 0 < i < 32
      ensures x[i] == y[i]
    {
      assert Shr(x, 1)[i - 1] == x[i] && Shr(y, 1)[i - 1] == y[i];
    }
  }

  /** With the polynomial's top bit set, no two states merge. */
  lemma ShiftInjective(p: Word, x: Word, y: Word)
    requires p[31] && Shift(p, x) == Shift(p, y)
    ensures x == y
  {
    assert Shift(p, x)[31] == x[0] && Shift(p, y)[31] == y[0];
    if x[0] {
      XorCancels(p, Shr(x, 1), Shr(y, 1));
    }
    ShrCancels(x, y);
  }

  lemma {:induction false} ShiftsInjective(p: Word, x: Word, y: Word, n: nat)
    requires p[31] && Shifts(p, x, n) == Shifts(p, y, n)
    ensures x == y
    decreases n
  {
    if n > 0 {
      var u, v := Shift(p, x), Shift(p, y);
      assert Shifts(p, u, n - 1) == Shifts(p, v, n - 1);
      ShiftsInjective(p, u, v, n - 1);
      ShiftInjective(p, x, y);
    }
  }

  lemma {:induction false} FeedInjective(p: Word, x: Word, y: Word, bits: Bits)
    requires p[31] && FeedAll(p, x, bits) == FeedAll(p, y, bits)
    ensures x == y
    decreases |bits|
  {
    if bits != [] {
      var u, v := x[0 := x[0] != bits[0]], y[0 := y[0] != bits[0]];
      FeedInjective(p, Feed(p, x, bits[0]), Feed(p, y, bits[0]), bits[1..]);
      ShiftInjective(p, u, v);
      assert u[0] == v[0] && forall i :: 0 < i < 32 ==> x[i] == u[i] && y[i] == v[i];
    }
  }

  lemma {:induction false} TopBit(n: nat, k: nat)
    requires k > 0 && Pow2(k - 1) <= n < Pow2(k)
    ensures BitsOf(n, k)[k - 1]
    decreases k
  {
    if k > 1 {
      TopBit(n / 2, k - 1);
    }
  }

  lemma PolynomialTop()
    ensures POLYNOMIAL[31]
  {
    assert Pow2(8) == 0x100;
    assert Pow2(16) == 0x1_0000;
    assert Pow2(24) == 0x100_0000;
    assert Pow2(31) == 0x8000_0000;
    TopBit(0xedb8_8320, 32);
  }

  lemma {:induction false} MessageConcat(s: Bytes, t: Bytes, w: nat)
    ensures MessageBits(s + t, w) == MessageBits(s, w) + MessageBits(t, w)
    decreases |t|
  {
    if t == [] {
      assert s + t == s;
    } else {
      var n := |t| - 1;
      MessageConcat(s, t[..n], w);
      assert (s + t)[..|s + t| - 1] == s + t[..n];
      Associative(MessageBits(s, w), MessageBits(t[..n], w), BitsOf(t[n], w));
    }
  }

  lemma Associative(a: Bits, b: Bits, c: Bits)
    ensures a + b + c == a + (b + c)
  {
  }

  lemma {:induction false} NatRoundTrip(n: nat, k: nat)
    requires n < Pow2(k)
    ensures ToNat(BitsOf(n, k)) == n
    decreases k
  {
    if k > 0 {
      NatRoundTrip(n / 2, k - 1);
    }
  }

  lemma {:induction false} MessageInjective(s: Bytes, t: Bytes, w: nat)
    requires |s| == |t| && Pow2(w) >= 256 && MessageBits(s, w) == MessageBits(t, w)
    ensures s == t && |MessageBits(s, w)| == w * |s|
    decreases |s|
  {
    if s != [] {
      var n := |s| - 1;
      MessageLength(s[..n], w);
      MessageLength(t[..n], w);
      var a, b := MessageBits(s, w), MessageBits(t, w);
      assert a[..w * n] == MessageBits(s[..n], w) && a[w * n..] == BitsOf(s[n], w);
      assert b[..w * n] == MessageBits(t[..n], w) && b[w * n..] == BitsOf(t[n], w);
      MessageInjective(s[..n], t[..n], w);
      NatRoundTrip(s[n], w);
      NatRoundTrip(t[n], w);
      assert s == s[..n] + [s[n]] && t == t[..n] + [t[n]];
    }
    MessageLength(s, w);
  }

  lemma {:induction false} MessageLength(s: Bytes, w: nat)
    ensures |MessageBits(s, w)| == w * |s|
    decreases |s|
  {
    if s != [] {
      MessageLength(s[..|s| - 1], w);
      assert w * |s| == w * (|s| - 1) + w;
    }
  }

  /** Any error confined to four consecutive bytes, whatever surrounds them, changes the checksum. */
  lemma BurstDetected(before: Bytes, a: Bytes, b: Bytes, after: Bytes)
    requires |a| == |b| <= 4 && a != b
    ensures Checksum(POLYNOMIAL, before + (a + after), 8) != Checksum(POLYNOMIAL, before + (b + after), 8)
  {
    PolynomialTop();
    assert Pow2(8) == 256;
    BurstChanges(POLYNOMIAL, before, a, b, after, 8);
  }

  lemma BurstChanges(p: Word, before: Bytes, a: Bytes, b: Bytes, after: Bytes, w: nat)
    requires p[31] && Pow2(w) >= 256 && |a| == |b| && w * |a| <= 32 && a != b
    ensures Checksum(p, before + (a + after), w) != Checksum(p, before + (b + after), w)
  {
    var u, x, y, v := MessageBits(before, w), MessageBits(a, w), MessageBits(b, w), MessageBits(after, w);
    MessageLength(a, w);
    MessageLength(b, w);
    if x == y {
      MessageInjective(a, b, w);
    }
    MessageConcat(before, a + after, w);
    MessageConcat(before, b + after, w);
    MessageConcat(a, after, w);
    MessageConcat(b, after, w);
    FeedConcat(p, ONES, u, x + v);
    FeedConcat(p, ONES, u, y + v);
    BurstSeparates(p, FeedAll(p, ONES, u), x, y, v);
    XorSeparates(FeedAll(p, ONES, u + (x + v)), FeedAll(p, ONES, u + (y + v)), ONES);
  }

  lemma XorSeparates(a: Word, b: Word, c: Word)
    requires a != b
    ensures Xor(a, c) != Xor(b, c)
  {
    var i :| 0 <= i < 32 && a[i] != b[i];
    assert Xor(a, c)[i] != Xor(b, c)[i];
  }

  lemma BurstSeparates(p: Word, c: Word, a: Bits, b: Bits, after: Bits)
    requires p[31] && |a| == |b| <= 32 && a != b
    ensures FeedAll(p, c, a + after) != FeedAll(p, c, b + after)
  {
    assert Widen(a)[..|a|] == a && Widen(b)[..|b|] == b;
    FeedConcat(p, c, a, after);
    FeedConcat(p, c, b, after);
    if FeedAll(p, c, a + after) == FeedAll(p, c, b + after) {
      FeedInjective(p, FeedAll(p, c, a), FeedAll(p, c, b), after);
      FeedTogether(p, c, a);
      FeedTogether(p, c, b);
      ShiftsInjective(p, Xor(c, Widen(a)), Xor(c, Widen(b)), |a|);
      XorCancels(c, Widen(a), Widen(b));
    }
  }
}
