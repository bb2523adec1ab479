/**
 FNV-1a 64 and its sixteen-digit hexadecimal form, the hash behind action fingerprints.
 */
module Fnv {
  import opened Common

  const MODULUS := 0x1_0000_0000_0000_0000
  const OFFSET := 0xcbf29ce484222325
  const PRIME := 0x100000001b3
  /** The inverse of PRIME modulo 2^64. */
  const INVERSE := 0xce965057aff6957b

  type Word = x: int | 0 <= x < MODULUS

  function Pow2(n: nat): nat {
    if n == 0 then 1 else 2 * Pow2(n - 1)
  }

  function Pow16(n: nat): nat {
    if n == 0 then 1 else 16 * Pow16(n - 1)
  }

  lemma Pow16Sixteen()
    ensures Pow16(16) == MODULUS
  {
    assert Pow16(8) == 0x1_0000_0000;
  }

  lemma {:induction false} Pow2Nibbles(n: nat)
    ensures Pow2(4 * n) == Pow16(n)
  {
    if n > 0 {
      Pow2Nibbles(n - 1);
      var m := 4 * (n - 1);
      assert Pow2(m + 1) == 2 * Pow2(m) && Pow2(m + 2) == 2 * Pow2(m + 1) && Pow2(m + 3) == 2 * Pow2(m + 2);
    }
  }

  /** Bitwise exclusive or. */
  function Xor(x: nat, y: nat): nat
    decreases x + y
  {
    if x == 0 && y == 0 then 0 else (x + y) % 2 + 2 * Xor(x / 2, y / 2)
  }

  lemma {:induction false} XorBound(x: nat, y: nat, n: nat)
    requires x < Pow2(n) && y < Pow2(n)
    ensures Xor(x, y) < Pow2(n)
    decreases n
  {
    if n > 0 {
      XorBound(x / 2, y / 2, n - 1);
    }
  }

  lemma XorUnfold(x: nat, y: nat)
    ensures Xor(x, y) / 2 == Xor(x / 2, y / 2) && Xor(x, y) % 2 == (x + y) % 2
  {
  }

  lemma Parity(x: nat, y: nat, z: nat)
    requires z % 2 == (x + y) % 2
    ensures (z + y) % 2 == x % 2
  {
  }

  lemma Halves(x: nat, y: nat)
    requires x / 2 == y / 2 && x % 2 == y % 2
    ensures x == y
  {
  }

  lemma {:induction false} XorTwice(x: nat, y: nat)
    ensures Xor(Xor(x, y), y) == x
    decreases x + y
  {
    if x != 0 || y != 0 {
      var z := Xor(x, y);
      XorUnfold(x, y);
      XorUnfold(z, y);
      XorTwice(x / 2, y / 2);
      Parity(x, y, z);
      Halves(Xor(z, y), x);
    }
  }

  lemma {:induction false} XorCommutes(x: nat, y: nat)
    ensures Xor(x, y) == Xor(y, x)
    decreases x + y
  {
    if x != 0 || y != 0 {
      XorCommutes(x / 2, y / 2);
    }
  }

  function Mask(x: nat): Word {
    x % MODULUS
  }

  /** The cofactor in PRIME * INVERSE == 1 + COFACTOR * MODULUS. */
  const COFACTOR := 0xce9650590f

  lemma MulInverse(x: Word)
    ensures Mask(Mask(x * PRIME) * INVERSE) == x
  {
    var q, r := x * PRIME / MODULUS, Mask(x * PRIME);
    Remainder(x, q, r);
    ModUnique(r * INVERSE, x * COFACTOR - q * INVERSE, x);
  }

  lemma Remainder(x: int, q: int, r: int)
    requires x * PRIME == q * MODULUS + r
    ensures r * INVERSE == (x * COFACTOR - q * INVERSE) * MODULUS + x
  {
  }

  lemma ModUnique(n: nat, q: int, r: Word)
    requires n == q * MODULUS + r
    ensures Mask(n) == r
  {
  }

  // ----- one byte at a time

  function Step(h: Word, b: Byte): Word {
    Mask(Xor(h, b) * PRIME)
  }

  function Unstep(h: Word, b: Byte): nat {
    Xor(Mask(h * INVERSE), b)
  }

  lemma XorWord(h: Word, b: Byte)
    ensures Xor(h, b) < MODULUS
  {
    Pow2Nibbles(16);
    Pow16Sixteen();
    XorBound(h, b, 64);
  }

  lemma StepUnstep(h: Word, b: Byte)
    ensures Unstep(Step(h, b), b) == h
  {
    XorWord(h, b);
    MulInverse(Xor(h, b));
    XorTwice(h, b);
  }

  lemma MulInverseBack(x: Word)
    ensures Mask(Mask(x * INVERSE) * PRIME) == x
  {
    var q, r := x * INVERSE / MODULUS, Mask(x * INVERSE);
    RemainderBack(x, q, r);
    ModUnique(r * PRIME, x * COFACTOR - q * PRIME, x);
  }

  lemma RemainderBack(x: int, q: int, r: int)
    requires x * INVERSE == q * MODULUS + r
    ensures r * PRIME == (x * COFACTOR - q * PRIME) * MODULUS + x
  {
  }

  /** Every state is reached: undoing a step and taking it again gives the state back. */
  lemma UnstepStep(h: Word, b: Byte)
    ensures Unstep(h, b) < MODULUS && Step(Unstep(h, b), b) == h
  {
    var x := Mask(h * INVERSE);
    XorWord(x, b);
    XorTwice(x, b);
    MulInverseBack(h);
  }

  lemma StepByte(h: Word, a: Byte, b: Byte)
    requires Step(h, a) == Step(h, b)
    ensures a == b
  {
    XorWord(h, a);
    XorWord(h, b);
    MulInverse(Xor(h, a));
    MulInverse(Xor(h, b));
    XorCommutes(h, a);
    XorCommutes(h, b);
    XorTwice(a, h);
    XorTwice(b, h);
  }

  // ----- whole inputs

  function Run(h: Word, s: Bytes): Word {
    if s == [] then h else Step(Run(h, s[..|s| - 1]), s[|s| - 1])
  }

  function Hash(s: Bytes): Word {
    Run(OFFSET, s)
  }

  lemma {:induction false} RunConcat(h: Word, a: Bytes, b: Bytes)
    ensures Run(h, a + b) == Run(Run(h, a), b)
    decreases |b|
  {
    if b == [] {
      assert a + b == a;
    } else {
      var n := |b| - 1;
      RunConcat(h, a, b[..n]);
      assert (a + b)[..|a + b| - 1] == a + b[..n];
    }
  }

  /** Hashing the same bytes never merges two states. */
  lemma {:induction false} RunInjective(g: Word, h: Word, s: Bytes)
    ensures Run(g, s) == Run(h, s) <==> g == h
    decreases |s|
  {
    if s != [] {
      var n := |s| - 1;
      RunInjective(g, h, s[..n]);
      StepUnstep(Run(g, s[..n]), s[n]);
      StepUnstep(Run(h, s[..n]), s[n]);
    }
  }

  /** Appending a common suffix neither makes nor hides a collision. */
  lemma SuffixCollision(a: Bytes, b: Bytes, s: Bytes)
    ensures Hash(a + s) == Hash(b + s) <==> Hash(a) == Hash(b)
  {
    RunConcat(OFFSET, a, s);
    RunConcat(OFFSET, b, s);
    RunInjective(Hash(a), Hash(b), s);
  }

  /** Inputs that differ in exactly one byte never collide. */
  lemma OneByteApart(p: Bytes, x: Byte, y: Byte, s: Bytes)
    requires x != y
    ensures Hash(p + [x] + s) != Hash(p + [y] + s)
  {
    SuffixCollision(p + [x], p + [y], s);
    if Hash(p + [x]) == Hash(p + [y]) {
      assert (p + [x])[..|p|] == p && (p + [y])[..|p|] == p;
      StepByte(Hash(p), x, y);
    }
  }

  // ----- sixteen hexadecimal digits

  const DIGITS := "0123456789abcdef"

  /** Hexadecimal without leading zeros. */
  function ToString16(n: nat): string {
    if n < 16 then [DIGITS[n]] else ToString16(n / 16) + [DIGITS[n % 16]]
  }

  function PadStart(s: string, n: nat): string
    decreases n - |s|
  {
    if |s| >= n then s else PadStart("0" + s, n)
  }

  function DigitValue(c: char): int {
    if '0' <= c <= '9' then c as int - '0' as int
    else if 'a' <= c <= 'f' then c as int - 'a' as int + 10
    else -1
  }

  predicate IsHex(s: string) {
    forall i :: 0 <= i < |s| ==> DigitValue(s[i]) >= 0
  }

  function Value(s: string): int {
    if s == [] then 0 else 16 * Value(s[..|s| - 1]) + DigitValue(s[|s| - 1])
  }

  lemma DigitsAre(d: nat)
    requires d < 16
    ensures DigitValue(DIGITS[d]) == d
  {
  }

  lemma {:induction false} ToString16Value(n: nat, k: nat)
    requires k > 0 && n < Pow16(k)
    ensures IsHex(ToString16(n)) && Value(ToString16(n)) == n && 0 < |ToString16(n)| <= k
    decreases k
  {
    var s := ToString16(n);
    if n < 16 {
      DigitsAre(n);
    } else {
      DigitsAre(n % 16);
      assert k > 1;
      ToString16Value(n / 16, k - 1);
      assert s[..|s| - 1] == ToString16(n / 16);
    }
  }

  lemma {:induction false} LeadingZero(s: string)
    ensures Value("0" + s) == Value(s)
    decreases |s|
  {
    var t := "0" + s;
    if s == [] {
      assert t[..0] == [];
    } else {
      LeadingZero(s[..|s| - 1]);
      assert t[..|t| - 1] == "0" + s[..|s| - 1];
    }
  }

  lemma {:induction false} PadStartValue(s: string, n: nat)
    requires IsHex(s) && |s| <= n
    ensures |PadStart(s, n)| == n && IsHex(PadStart(s, n)) && Value(PadStart(s, n)) == Value(s)
    decreases n - |s|
  {
    if |s| < n {
      LeadingZero(s);
      PadStartValue("0" + s, n);
    }
  }

  function Hex(h: Word): string {
    PadStart(ToString16(h), 16)
  }

  /** Always sixteen lower-case hexadecimal digits, and the word can be read back. */
  lemma HexRoundTrip(h: Word)
    ensures |Hex(h)| == 16 && IsHex(Hex(h)) && Value(Hex(h)) == h
  {
    Pow16Sixteen();
    ToString16Value(h, 16);
    PadStartValue(ToString16(h), 16);
  }

  /** The fingerprint of a byte string; two fingerprints are equal exactly when the hashes are. */
  method Fnv1a64(bytes: Bytes) returns (hex: string)
    ensures |hex| == 16 && IsHex(hex) && Value(hex) == Hash(bytes)
  {
    var h: Word := OFFSET;
    for i := 0 to |bytes|
      invariant h == Run(OFFSET, bytes[..i])
    {
      assert bytes[..i + 1][..i] == bytes[..i];
      h := Mask(Xor(h, bytes[i]) * PRIME);
    }
    assert bytes[..|bytes|] == bytes;
    HexRoundTrip(h);
    hex := Hex(h);
  }
}
