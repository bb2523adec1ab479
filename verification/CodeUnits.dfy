/**
 The decoded text without the decoder: UTF-16 read back by the pairs of section 3.9 of the Unicode
 Standard, and the bytes read by whole encodings and maximal subparts.  Together they say what every
 byte string decodes to.
 */
module CodeUnits {
  import opened Common
  import opened Utf8

  // ----- reading code units

  predicate High(u: int) {
    0xD800 <= u <= 0xDBFF
  }

  predicate Low(u: int) {
    0xDC00 <= u <= 0xDFFF
  }

  /** A high unit followed by a low one denotes a supplementary character; any other denotes itself. */
  function ReadUnits(us: Text): seq<int>
    decreases |us|
  {
    if us == [] then []
    else if |us| >= 2 && High(us[0]) && Low(us[1])
    then [0x10000 + (us[0] - 0xD800) * 0x400 + (us[1] - 0xDC00)] + ReadUnits(us[2..])
    else [us[0]] + ReadUnits(us[1..])
  }

  lemma ReadOne(c: Scalar, rest: Text)
    ensures ReadUnits(Units(c) + rest) == [c] + ReadUnits(rest)
    ensures forall u :: u in Units(c) ==> 0 <= u < 0x10000
  {
    var us := Units(c) + rest;
    if c < 0x10000 {
      assert us[1..] == rest;
    } else {
      assert us[2..] == rest;
      assert c - 0x10000 == (c - 0x10000) / 0x400 * 0x400 + (c - 0x10000) % 0x400;
    }
  }

  /** The code units of any text are read back as that text, and are units. */
  lemma {:induction false} ReadUtf16(cs: seq<Scalar>)
    ensures ReadUnits(Utf16(cs)) == cs && forall u :: u in Utf16(cs) ==> 0 <= u < 0x10000
    decreases |cs|
  {
    if cs != [] {
      var rest := cs[1..];
      assert cs == [cs[0]] + rest;
      Utf16Concat([cs[0]], rest);
      OneUnit(cs[0]);
      ReadUtf16(rest);
      ReadOne(cs[0], Utf16(rest));
    }
  }

  lemma OneUnit(c: int)
    ensures Utf16([c]) == Units(c)
  {
    assert Utf16([c][..0]) == [];
  }

  // ----- the decoder only yields scalar values

  /** Whatever completes the sequence in progress is a scalar value of its length. */
  predicate Promising(d: Dec) {
    match d
    case Idle => true
    case Need(k, lo, hi, cp) =>
      var a, b := cp * 64 + lo - 0x80, cp * 64 + hi - 0x80;
      if k == 1 then lo == 0x80 && hi == 0xBF && (2 <= cp < 0x360 || 0x380 <= cp < 0x4400)
      else if k == 2 then 0x80 <= lo && hi <= 0xBF && ((2 <= a && b < 0x360) || (0x380 <= a && b < 0x4400))
      else k == 3 && 0x80 <= lo && hi <= 0xBF && 0x10 <= a && b < 0x110
  }

  predicate IsScalar(c: int) {
    0 <= c < 0xD800 || 0xE000 <= c < 0x110000
  }

  lemma FeedScalars(d: Dec, b: Byte)
    requires Promising(d)
    ensures Promising(Feed(d, b).0) && forall c :: c in Feed(d, b).1 ==> IsScalar(c)
  {
  }

  lemma {:induction false} OutScalars(d: Dec, bs: Bytes)
    requires Promising(d)
    ensures forall c :: c in Out(d, bs) ==> IsScalar(c)
    decreases |bs|
  {
    if bs != [] {
      FeedScalars(d, bs[0]);
      OutScalars(Feed(d, bs[0]).0, bs[1..]);
    }
  }

  lemma AllScalars(bs: Bytes)
    ensures forall c :: c in Scalars(bs) ==> IsScalar(c)
  {
    OutScalars(Idle, bs);
  }

  /** The text decoded from any bytes denotes the scalar values decoded from them. */
  lemma DecodeRead(bs: Bytes)
    ensures ReadUnits(Decode(bs)) == Scalars(bs) && forall u :: u in Decode(bs) ==> 0 <= u < 0x10000
  {
    AllScalars(bs);
    var cs := AsScalars(Scalars(bs));
    ReadUtf16(cs);
  }

  lemma AsScalars(s: seq<int>) returns (cs: seq<Scalar>)
    requires forall c :: c in s ==> IsScalar(c)
    ensures cs == s
    decreases |s|
  {
    if s == [] {
      cs := [];
    } else {
      assert s[0] in s;
      assert forall c :: c in s[1..] ==> c in s;
      var rest := AsScalars(s[1..]);
      cs := [s[0]] + rest;
    }
  }

  /** Well-formed text survives encoding and decoding, whatever it is. */
  lemma RoundTrip(cs: seq<Scalar>)
    ensures ReadUnits(Decode(Encode(cs))) == cs
  {
    DecodeEncode(cs);
    ReadUtf16(cs);
  }

  // ----- reading bytes

  /** A proper part of some character's encoding. */
  ghost predicate Partial(p: Bytes) {
    p != [] && exists c: Scalar :: PartOf(p, c)
  }

  predicate PartOf(p: Bytes, c: Scalar) {
    |p| < |EncodeOne(c)| && p == EncodeOne(c)[..|p|]
  }

  ghost predicate Complete(p: Bytes) {
    exists c: Scalar :: EncodeOne(c) == p
  }

  /** The decoder's state part way through a character. */
  function Midway(c: Scalar, j: nat): Dec
    requires 0 < j < |EncodeOne(c)|
  {
    var left := |EncodeOne(c)| - j;
    if j == 1 then FeedIdle(EncodeOne(c)[0]).0
    else Need(left, 0x80, 0xBF, if left == 1 then c / 64 else c / 4096)
  }

  lemma MidwayIs(c: Scalar, j: nat)
    requires 0 < j < |EncodeOne(c)|
    ensures Midway(c, j).Need? && Midway(c, j).k == |EncodeOne(c)| - j
    ensures Midway(c, j).cp == if |EncodeOne(c)| - j == 1 then c / 64
                               else if |EncodeOne(c)| - j == 2 then c / 4096 else c / 262144
  {
  }

  lemma MidwayStep(c: Scalar, j: nat)
    requires 0 < j && j + 1 < |EncodeOne(c)|
    ensures Feed(Midway(c, j), EncodeOne(c)[j]) == (Midway(c, j + 1), [])
  {
    if |EncodeOne(c)| == 4 {
      FourDigits(c);
    }
  }

  lemma {:induction false} MidwayRun(c: Scalar, j: nat)
    requires 0 < j < |EncodeOne(c)|
    ensures After(Idle, EncodeOne(c)[..j]) == Midway(c, j) && Out(Idle, EncodeOne(c)[..j]) == []
    decreases j
  {
    var e := EncodeOne(c);
    if j == 1 {
      assert e[..1] == [e[0]] + [];
      RunOne(Idle, e[0], Midway(c, 1), []);
    } else {
      MidwayRun(c, j - 1);
      MidwayStep(c, j - 1);
      assert e[..j] == e[..j - 1] + ([e[j - 1]] + []);
      RunConcat(Idle, e[..j - 1], [e[j - 1]] + []);
      RunOne(Midway(c, j - 1), e[j - 1], Midway(c, j), []);
    }
  }

  /** A byte the decoder accepts completes a character or makes a longer part of one. */
  lemma AcceptedExtends(p: Bytes, c: Scalar, b: Byte)
    requires p != [] && PartOf(p, c)
    requires var d := Midway(c, |p|); d.Need? && d.lo <= b <= d.hi
    ensures Complete(p + [b]) || Partial(p + [b])
  {
    var j, e := |p|, EncodeOne(c);
    MidwayIs(c, j);
    if j + 1 == |e| {
      LastByte(c, b);
    } else if j + 2 == |e| {
      NextToLast(c, b);
    } else {
      SecondOfFour(c, b);
    }
  }

  lemma LastByte(c: Scalar, b: Byte)
    requires 0x80 <= b <= 0xBF && |EncodeOne(c)| > 1
    ensures var e := EncodeOne(c); Complete(e[..|e| - 1] + [b])
  {
    var e, c' := EncodeOne(c), c / 64 * 64 + (b - 0x80);
    SameTop(c, c', 64);
    assert EncodeOne(c') == e[..|e| - 1] + [b];
  }

  /** Scalar values with one quotient encode alike up to it. */
  lemma SameTop(c: int, c': int, m: int)
    requires IsScalar(c) && c >= 0x80 && m == 64 && c' / m == c / m
    ensures IsScalar(c') && |EncodeOne(c')| == |EncodeOne(c)|
    ensures c' / 64 == c / 64 && c' / 4096 == c / 4096 && c' / 262144 == c / 262144
  {
    assert c' / 4096 == c' / 64 / 64 && c / 4096 == c / 64 / 64;
    assert c' / 262144 == c' / 64 / 4096 && c / 262144 == c / 64 / 4096;
  }

  lemma NextToLast(c: Scalar, b: Byte)
    requires |EncodeOne(c)| >= 3
    requires var d := Midway(c, |EncodeOne(c)| - 2); d.Need? && d.lo <= b <= d.hi
    ensures var e := EncodeOne(c); Partial(e[..|e| - 2] + [b])
  {
    if |EncodeOne(c)| == 3 {
      SecondOfThree(c, b);
    } else {
      ThirdOfFour(c, b);
    }
  }

  lemma Digits(q: int, r: int)
    requires 0 <= q && 0 <= r < 64
    ensures var c := q * 4096 + r * 64; c / 4096 == q && c / 64 % 64 == r
  {
    assert (q * 4096 + r * 64) / 64 == q * 64 + r;
  }

  lemma TopDigit(c: int)
    requires c >= 0
    ensures c / 262144 == c / 4096 / 64
  {
  }

  lemma SecondOfThree(c: Scalar, b: Byte)
    requires |EncodeOne(c)| == 3
    requires var d := Midway(c, 1); d.Need? && d.lo <= b <= d.hi
    ensures Partial(EncodeOne(c)[..1] + [b])
  {
    var q, r := c / 4096, b - 0x80;
    var c' := q * 4096 + r * 64;
    Digits(q, r);
    assert IsScalar(c') && 0x800 <= c' < 0x10000;
    assert EncodeOne(c')[..2] == [0xE0 + q, 0x80 + r] == EncodeOne(c)[..1] + [b];
    assert PartOf(EncodeOne(c)[..1] + [b], c');
  }

  lemma ThirdOfFour(c: Scalar, b: Byte)
    requires |EncodeOne(c)| == 4 && 0x80 <= b <= 0xBF
    ensures Partial(EncodeOne(c)[..2] + [b])
  {
    var q, r := c / 4096, b - 0x80;
    var c' := q * 4096 + r * 64;
    Digits(q, r);
    TopDigit(c);
    TopDigit(c');
    assert IsScalar(c') && 0x10000 <= c';
    assert EncodeOne(c')[..3] == [0xF0 + q / 64, 0x80 + q % 64, 0x80 + r] == EncodeOne(c)[..2] + [b];
    assert PartOf(EncodeOne(c)[..2] + [b], c');
  }

  lemma SecondOfFour(c: Scalar, b: Byte)
    requires |EncodeOne(c)| == 4
    requires var d := Midway(c, 1); d.Need? && d.lo <= b <= d.hi
    ensures var e := EncodeOne(c); Partial(e[..1] + [b])
  {
    var e := EncodeOne(c);
    var q := c / 262144 * 64 + (b - 0x80);
    var c' := q * 4096;
    assert c' / 4096 == q && c' / 262144 == c / 262144;
    assert IsScalar(c') && |EncodeOne(c')| == 4;
    assert EncodeOne(c')[..2] == e[..1] + [b];
    assert PartOf(e[..1] + [b], c');
  }

  lemma OneByte(b: Byte)
    requires b <= 0x7F
    ensures Complete([b])
  {
    assert EncodeOne(b) == [b];
  }

  lemma LeadByte(b: Byte)
    requires 0xC2 <= b <= 0xF4
    ensures Partial([b])
  {
    var c := if b <= 0xDF then (b - 0xC0) * 64
             else if b <= 0xEF then (if b == 0xE0 then 0x800 else (b - 0xE0) * 4096)
             else if b == 0xF0 then 0x10000 else (b - 0xF0) * 262144;
    assert IsScalar(c) && EncodeOne(c)[0] == b && |EncodeOne(c)| > 1;
    assert PartOf([b], c);
  }

  /** A byte that begins no character is replaced alone. */
  lemma NoStart(b: Byte)
    requires !Complete([b]) && !Partial([b])
    ensures FeedIdle(b) == (Idle, [REPLACEMENT])
  {
    if b <= 0x7F {
      OneByte(b);
    } else if 0xC2 <= b <= 0xF4 {
      LeadByte(b);
    }
  }

  /** Bytes that begin with a character's encoding decode to that character and then the rest. */
  lemma WellFormedStep(c: Scalar, rest: Bytes)
    ensures Scalars(EncodeOne(c) + rest) == [c] + Scalars(rest)
  {
    DecodeEncodeOne(c);
    RunConcat(Idle, EncodeOne(c), rest);
  }

  /** The longest beginning of the bytes that is part of a character has length `n`. */
  ghost predicate MaximalPart(bs: Bytes, n: nat) {
    n <= |bs| && (n > 0 ==> Partial(bs[..n])) && (n < |bs| ==> !Partial(bs[..n + 1]))
  }

  lemma Rejected(d: Dec, b: Byte, rest: Bytes)
    requires d.Need? && !(d.lo <= b <= d.hi)
    ensures Out(d, [b] + rest) == [REPLACEMENT] + Out(Idle, [b] + rest)
    ensures After(d, [b] + rest) == After(Idle, [b] + rest)
  {
    var bs := [b] + rest;
    assert bs[0] == b && bs[1..] == rest;
    var (d', out) := FeedIdle(b);
    assert Feed(d, b) == (d', [REPLACEMENT] + out);
    assert ([REPLACEMENT] + out) + Out(d', rest) == [REPLACEMENT] + (out + Out(d', rest));
  }

  lemma PartState(p: Bytes, c: Scalar)
    requires p != [] && PartOf(p, c)
    ensures Out(Idle, p) == [] && After(Idle, p) == Midway(c, |p|) && Midway(c, |p|).Need?
  {
    MidwayRun(c, |p|);
    MidwayIs(c, |p|);
  }

  lemma PartThenEnd(p: Bytes, c: Scalar)
    requires p != [] && PartOf(p, c)
    ensures Scalars(p) == [REPLACEMENT]
  {
    PartState(p, c);
  }

  lemma RejectedAfter(p: Bytes, d: Dec, b: Byte, rest: Bytes)
    requires Out(Idle, p) == [] && After(Idle, p) == d && d.Need? && !(d.lo <= b <= d.hi)
    ensures Scalars(p + ([b] + rest)) == [REPLACEMENT] + Scalars([b] + rest)
  {
    var more := [b] + rest;
    RunConcat(Idle, p, more);
    Rejected(d, b, rest);
    assert ([REPLACEMENT] + Out(Idle, more)) + Flush(After(Idle, more)) == [REPLACEMENT] + Scalars(more);
  }

  lemma PartThenOther(p: Bytes, c: Scalar, b: Byte, rest: Bytes)
    requires p != [] && PartOf(p, c) && !Complete(p + [b]) && !Partial(p + [b])
    ensures Scalars(p + ([b] + rest)) == [REPLACEMENT] + Scalars([b] + rest)
  {
    var d := Midway(c, |p|);
    PartState(p, c);
    if d.lo <= b <= d.hi {
      AcceptedExtends(p, c, b);
    }
    RejectedAfter(p, d, b, rest);
  }

  lemma NoneThenOther(b: Byte, rest: Bytes)
    requires !Complete([b]) && !Partial([b])
    ensures Scalars([b] + rest) == [REPLACEMENT] + Scalars(rest)
  {
    NoStart(b);
    assert ([b] + rest)[1..] == rest;
  }

  /**
   Bytes that begin with no whole encoding lose their maximal subpart, or their first byte if there is
   none, to one replacement character.
   */
  lemma MalformedStep(bs: Bytes, n: nat)
    requires bs != [] && MaximalPart(bs, n) && forall m :: 0 < m <= |bs| ==> !Complete(bs[..m])
    ensures Max(n, 1) <= |bs| && Scalars(bs) == [REPLACEMENT] + Scalars(bs[Max(n, 1)..])
  {
    if n == 0 {
      assert !Complete(bs[..1]);
      assert bs[..1] == [bs[0]] && bs == [bs[0]] + bs[1..];
      NoneThenOther(bs[0], bs[1..]);
    } else if n == |bs| {
      assert bs[..n] == bs && bs[n..] == [];
      var c: Scalar :| PartOf(bs, c);
      PartThenEnd(bs, c);
    } else {
      assert !Complete(bs[..n + 1]);
      PartBroken(bs, n);
    }
  }

  lemma SplitAt<T>(s: seq<T>, n: nat)
    requires n < |s|
    ensures s[..n + 1] == s[..n] + [s[n]] && s[n..] == [s[n]] + s[n + 1..] && s == s[..n] + ([s[n]] + s[n + 1..])
  {
  }

  lemma PartBroken(bs: Bytes, n: nat)
    requires 0 < n < |bs| && Partial(bs[..n]) && !Partial(bs[..n + 1]) && !Complete(bs[..n + 1])
    ensures Scalars(bs) == [REPLACEMENT] + Scalars(bs[n..])
  {
    var c: Scalar :| PartOf(bs[..n], c);
    SplitAt(bs, n);
    PartThenOther(bs[..n], c, bs[n], bs[n + 1..]);
  }

  /** One of the two steps always applies, so between them they decode every byte string. */
  lemma EveryStep(bs: Bytes) returns (n: nat)
    requires bs != []
    ensures 0 < n <= |bs|
    ensures Scalars(bs) != [] && Scalars(bs[n..]) == Scalars(bs)[1..]
    ensures (exists c: Scalar :: bs[..n] == EncodeOne(c) && Scalars(bs)[0] == c)
            || (Scalars(bs)[0] == REPLACEMENT && forall m :: 0 < m <= |bs| ==> !Complete(bs[..m]))
  {
    if m :| 0 < m <= |bs| && Complete(bs[..m]) {
      var c: Scalar :| EncodeOne(c) == bs[..m];
      n := m;
      assert bs == EncodeOne(c) + bs[m..];
      WellFormedStep(c, bs[m..]);
    } else {
      var k := FindPart(bs, 0);
      MalformedStep(bs, k);
      n := Max(k, 1);
    }
  }

  lemma FindPart(bs: Bytes, n: nat) returns (k: nat)
    requires n <= |bs| && (n > 0 ==> Partial(bs[..n]))
    ensures MaximalPart(bs, k)
    decreases |bs| - n
  {
    if n < |bs| && Partial(bs[..n + 1]) {
      k := FindPart(bs, n + 1);
    } else {
      k := n;
    }
  }
}
