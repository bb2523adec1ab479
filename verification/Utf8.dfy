/**
 The UTF-8 decoder of section 8.1.1 of the WHATWG Encoding Standard, producing UTF-16
 code units, and the cut points the paged reader uses between separately decoded chunks.
 */
module Utf8 {
  import opened Common

  /** UTF-16 code units, the characters of a JavaScript string. */
  type Text = seq<int>

  const REPLACEMENT := 0xFFFD

  /** Decoder state: `k` more bytes are needed, the next one within [lo, hi]. */
  datatype Dec = Idle | Need(k: nat, lo: int, hi: int, cp: int)

  function FeedIdle(b: Byte): (Dec, seq<int>) {
    if b <= 0x7F then (Idle, [b])
    else if 0xC2 <= b <= 0xDF then (Need(1, 0x80, 0xBF, b - 0xC0), [])
    else if 0xE0 <= b <= 0xEF then
      (Need(2, if b == 0xE0 then 0xA0 else 0x80, if b == 0xED then 0x9F else 0xBF, b - 0xE0), [])
    else if 0xF0 <= b <= 0xF4 then
      (Need(3, if b == 0xF0 then 0x90 else 0x80, if b == 0xF4 then 0x8F else 0xBF, b - 0xF0), [])
    else (Idle, [REPLACEMENT])
  }

  /** A byte outside the expected range ends the sequence and is decoded afresh. */
  function Feed(d: Dec, b: Byte): (Dec, seq<int>) {
    match d
    case Idle => FeedIdle(b)
    case Need(k, lo, hi, cp) =>
      if lo <= b <= hi then
        var cp' := cp * 64 + (b - 0x80);
        if k <= 1 then (Idle, [cp']) else (Need(k - 1, 0x80, 0xBF, cp'), [])
      else
        var (d', out) := FeedIdle(b);
        (d', [REPLACEMENT] + out)
  }

  function After(d: Dec, bs: Bytes): Dec
    decreases |bs|
  {
    if bs == [] then d else After(Feed(d, bs[0]).0, bs[1..])
  }

  function Out(d: Dec, bs: Bytes): seq<int>
    decreases |bs|
  {
    if bs == [] then [] else Feed(d, bs[0]).1 + Out(Feed(d, bs[0]).0, bs[1..])
  }

  function Flush(d: Dec): seq<int> {
    if d.Idle? then [] else [REPLACEMENT]
  }

  /** The scalar values in the bytes. */
  function Scalars(bs: Bytes): seq<int> {
    Out(Idle, bs) + Flush(After(Idle, bs))
  }

  function Units(cp: int): Text {
    if cp < 0x10000 then [cp]
    else [0xD800 + (cp - 0x10000) / 0x400, 0xDC00 + (cp - 0x10000) % 0x400]
  }

  function Utf16(cps: seq<int>): Text {
    if cps == [] then [] else Utf16(cps[..|cps| - 1]) + Units(cps[|cps| - 1])
  }

  /** `Buffer.toString("utf8")`. */
  function Decode(bs: Bytes): Text {
    Utf16(Scalars(bs))
  }

  lemma {:induction false} Utf16Concat(a: seq<int>, b: seq<int>)
    ensures Utf16(a + b) == Utf16(a) + Utf16(b)
    decreases |b|
  {
    if b == [] {
      assert a + b == a;
    } else {
      var n := |b| - 1;
      assert (a + b)[..|a + b| - 1] == a + b[..n];
      Utf16Concat(a, b[..n]);
    }
  }

  predicate Continuation(b: Byte) {
    0x80 <= b <= 0xBF
  }

  predicate WellState(d: Dec) {
    d.Need? ==> 1 <= d.k <= 3 && 0x80 <= d.lo && d.hi <= 0xBF
  }

  function Left(d: Dec): nat {
    if d.Idle? then 0 else d.k
  }

  lemma FeedWell(d: Dec, b: Byte)
    requires WellState(d)
    ensures WellState(Feed(d, b).0)
    ensures Continuation(b) ==> Left(Feed(d, b).0) <= Max(0, Left(d) - 1)
    ensures !Continuation(b) ==> Feed(d, b).0 == FeedIdle(b).0 && Feed(d, b).1 == Flush(d) + FeedIdle(b).1
  {
  }

  lemma {:induction false} AfterWell(d: Dec, bs: Bytes)
    requires WellState(d)
    ensures WellState(After(d, bs))
    decreases |bs|
  {
    if bs != [] {
      FeedWell(d, bs[0]);
      AfterWell(Feed(d, bs[0]).0, bs[1..]);
    }
  }

  lemma {:induction false} RunConcat(d: Dec, a: Bytes, b: Bytes)
    ensures After(d, a + b) == After(After(d, a), b)
    ensures Out(d, a + b) == Out(d, a) + Out(After(d, a), b)
    decreases |a|
  {
    if a == [] {
      assert a + b == b;
    } else {
      var d', out := Feed(d, a[0]).0, Feed(d, a[0]).1;
      RunConcat(d', a[1..], b);
      var x, y := Out(d', a[1..]), Out(After(d', a[1..]), b);
      assert (a + b)[0] == a[0] && (a + b)[1..] == a[1..] + b;
      assert out + (x + y) == (out + x) + y;
    }
  }

  /** Continuation bytes finish any sequence in progress, well formed or not. */
  lemma {:induction false} Drain(d: Dec, cs: Bytes)
    requires WellState(d) && forall i :: 0 <= i < |cs| ==> Continuation(cs[i])
    ensures Left(After(d, cs)) <= Max(0, Left(d) - |cs|)
    decreases |cs|
  {
    if cs != [] {
      FeedWell(d, cs[0]);
      Drain(Feed(d, cs[0]).0, cs[1..]);
    }
  }

  lemma Grouped(x: seq<int>, y: seq<int>, z: seq<int>)
    ensures (x + y) + z == x + (y + z)
  {
  }

  /** A byte that continues nothing ends the sequence in progress. */
  lemma ResetRun(d: Dec, b: Bytes)
    requires WellState(d) && b != [] && !Continuation(b[0])
    ensures After(d, b) == After(Idle, b) && Out(d, b) == Flush(d) + Out(Idle, b)
  {
    FeedWell(d, b[0]);
    var d', out := FeedIdle(b[0]).0, FeedIdle(b[0]).1;
    assert Feed(Idle, b[0]) == (d', out) && Feed(d, b[0]).0 == d';
    Grouped(Flush(d), out, Out(d', b[1..]));
  }

  /** A place between `a` and `b` where no sequence can be under way. */
  predicate CleanCut(a: Bytes, b: Bytes) {
    After(Idle, a).Idle? || b == [] || !Continuation(b[0])
  }

  /** Decoding distributes over concatenation at every clean cut, for malformed input too. */
  lemma DecodeDistributes(a: Bytes, b: Bytes)
    requires CleanCut(a, b)
    ensures Decode(a + b) == Decode(a) + Decode(b)
  {
    ScalarsDistribute(a, b);
    Utf16Concat(Scalars(a), Scalars(b));
  }

  lemma ScalarsDistribute(a: Bytes, b: Bytes)
    requires CleanCut(a, b)
    ensures Scalars(a + b) == Scalars(a) + Scalars(b)
  {
    if b == [] {
      assert a + b == a && Scalars(b) == [];
    } else {
      var d, out, flush := After(Idle, a), Out(Idle, b), Flush(After(Idle, b));
      CutRun(a, b);
      RunConcat(Idle, a, b);
      calc {
        Scalars(a + b);
        (Out(Idle, a) + (Flush(d) + out)) + flush;
        { Regroup(Out(Idle, a), Flush(d), out, flush); }
        Scalars(a) + Scalars(b);
      }
    }
  }

  lemma CutRun(a: Bytes, b: Bytes)
    requires CleanCut(a, b) && b != []
    ensures var d := After(Idle, a); After(d, b) == After(Idle, b) && Out(d, b) == Flush(d) + Out(Idle, b)
  {
    var d := After(Idle, a);
    if !d.Idle? {
      AfterWell(Idle, a);
      ResetRun(d, b);
    }
  }

  lemma Regroup(w: seq<int>, x: seq<int>, y: seq<int>, z: seq<int>)
    ensures (w + (x + y)) + z == (w + x) + (y + z)
  {
  }

  /** Whatever bytes follow, none of them belongs to a sequence begun before `complete`. */
  predicate SafeSplit(bytes: Bytes, complete: nat) {
    && complete <= |bytes|
    && if complete < |bytes| then !Continuation(bytes[complete]) else After(Idle, bytes[..complete]).Idle?
  }

  lemma SafeSplitIsClean(bytes: Bytes, complete: nat, more: Bytes)
    requires SafeSplit(bytes, complete)
    ensures CleanCut(bytes[..complete], bytes[complete..] + more)
  {
    if complete < |bytes| {
      assert (bytes[complete..] + more)[0] == bytes[complete];
    }
  }

  /** The byte at `k` announces more continuation bytes than the ones behind it, which is all there is. */
  predicate Unfinished(bytes: Bytes, k: nat) {
    && k < |bytes| && |bytes| - k <= Announced(bytes[k])
    && forall i :: k < i < |bytes| ==> Continuation(bytes[i])
  }

  /**
   How many of the bytes may be decoded now: everything, unless a sequence begun by the
   last lead byte may still be completed by bytes to come.
   */
  method CompleteUtf8Prefix(bytes: Bytes) returns (complete: nat)
    ensures SafeSplit(bytes, complete) && |bytes| <= complete + 3
    ensures complete < |bytes| ==> Unfinished(bytes, complete)
    ensures (exists k: nat :: Unfinished(bytes, k)) ==> complete < |bytes|
  {
    var lead := |bytes| - 1;
    while lead >= Max(0, |bytes| - 4) && Continuation(bytes[lead])
      invariant Max(0, |bytes| - 4) - 1 <= lead < |bytes|
      invariant forall i :: lead < i < |bytes| ==> Continuation(bytes[i])
      invariant forall i: nat :: lead < i < |bytes| ==> !Unfinished(bytes, i)
    {
      lead := lead - 1;
    }
    if lead < 0 {
      TrailingDrained(bytes, 0);
      return |bytes|;
    }
    var byte := bytes[lead];
    var length :=
      if 0xC2 <= byte <= 0xDF then 2
      else if 0xE0 <= byte <= 0xEF then 3
      else if 0xF0 <= byte <= 0xF4 then 4
      else 1;
    assert length == Announced(byte) + 1 || Continuation(byte);
    if |bytes| - lead < length {
      return lead;
    }
    TrailingDrained(bytes, lead);
    return |bytes|;
  }

  /** The bytes a lead byte announces. */
  function Announced(b: Byte): nat {
    Left(FeedIdle(b).0)
  }

  lemma TrailingDrained(bytes: Bytes, lead: nat)
    requires lead < |bytes| || bytes == []
    requires forall i :: lead < i < |bytes| ==> Continuation(bytes[i])
    requires lead < |bytes| ==>
               (lead == 0 && Continuation(bytes[0]))
               || (!Continuation(bytes[lead]) && |bytes| - lead > Announced(bytes[lead]))
               || |bytes| - lead > 4
    ensures bytes[..|bytes|] == bytes && After(Idle, bytes).Idle?
  {
    if lead < |bytes| {
      var d, cs := After(Idle, bytes[..lead]), bytes[lead + 1..];
      AfterWell(Idle, bytes[..lead]);
      FeedWell(d, bytes[lead]);
      var d' := Feed(d, bytes[lead]).0;
      assert Left(d') <= |cs|;
      Drain(d', cs);
      AfterWell(d', cs);
      AfterAt(bytes, lead);
    }
  }

  lemma AfterAt(bytes: Bytes, i: nat)
    requires i < |bytes|
    ensures After(Idle, bytes) == After(Feed(After(Idle, bytes[..i]), bytes[i]).0, bytes[i + 1..])
  {
    assert bytes == bytes[..i] + bytes[i..] && bytes[i..][1..] == bytes[i + 1..];
    RunConcat(Idle, bytes[..i], bytes[i..]);
  }

  // ----- the decoder inverts the encoding of section 3 of RFC 3629

  type Scalar = c: int | 0 <= c < 0xD800 || 0xE000 <= c < 0x110000

  function EncodeOne(c: Scalar): Bytes {
    if c < 0x80 then [c]
    else if c < 0x800 then [0xC0 + c / 64, 0x80 + c % 64]
    else if c < 0x10000 then [0xE0 + c / 4096, 0x80 + c / 64 % 64, 0x80 + c % 64]
    else [0xF0 + c / 262144, 0x80 + c / 4096 % 64, 0x80 + c / 64 % 64, 0x80 + c % 64]
  }

  function Encode(cs: seq<Scalar>): Bytes {
    if cs == [] then [] else Encode(cs[..|cs| - 1]) + EncodeOne(cs[|cs| - 1])
  }

  /** One byte that emits nothing, and the last byte of a sequence. */
  lemma RunOne(d: Dec, b: Byte, d': Dec, rest: Bytes)
    requires Feed(d, b) == (d', [])
    ensures After(d, [b] + rest) == After(d', rest) && Out(d, [b] + rest) == Out(d', rest)
  {
    assert ([b] + rest)[0] == b && ([b] + rest)[1..] == rest;
  }

  lemma RunLast(d: Dec, b: Byte, c: int)
    requires Feed(d, b) == (Idle, [c])
    ensures After(d, [b]) == Idle && Out(d, [b]) == [c]
  {
    assert [b][1..] == [] && After(Idle, []) == Idle && Out(Idle, []) == [];
  }

  lemma EncodeTwo(c: Scalar)
    requires 0x80 <= c < 0x800
    ensures After(Idle, EncodeOne(c)) == Idle && Out(Idle, EncodeOne(c)) == [c]
  {
    var e, d1 := EncodeOne(c), Need(1, 0x80, 0xBF, c / 64);
    assert e == [e[0]] + [e[1]];
    RunOne(Idle, e[0], d1, [e[1]]);
    RunLast(d1, e[1], c);
  }

  lemma EncodeThree(c: Scalar)
    requires 0x800 <= c < 0x10000
    ensures After(Idle, EncodeOne(c)) == Idle && Out(Idle, EncodeOne(c)) == [c]
  {
    var e, d1, d2 := EncodeOne(c), FeedIdle(EncodeOne(c)[0]).0, Need(1, 0x80, 0xBF, c / 64);
    assert e == [e[0]] + ([e[1]] + [e[2]]);
    RunOne(Idle, e[0], d1, [e[1]] + [e[2]]);
    RunOne(d1, e[1], d2, [e[2]]);
    RunLast(d2, e[2], c);
  }

  lemma FourDigits(c: Scalar)
    requires 0x10000 <= c
    ensures var e := EncodeOne(c); var d := FeedIdle(e[0]).0;
            && FeedIdle(e[0]) == (d, []) && Feed(d, e[1]) == (Need(2, 0x80, 0xBF, c / 4096), [])
            && Feed(Need(2, 0x80, 0xBF, c / 4096), e[2]) == (Need(1, 0x80, 0xBF, c / 64), [])
            && Feed(Need(1, 0x80, 0xBF, c / 64), e[3]) == (Idle, [c])
  {
    assert 0 <= c / 262144 <= 4;
    assert c / 4096 == c / 262144 * 64 + c / 4096 % 64;
    assert c / 64 == c / 4096 * 64 + c / 64 % 64;
    assert c == c / 64 * 64 + c % 64;
  }

  lemma EncodeFour(c: Scalar)
    requires 0x10000 <= c
    ensures After(Idle, EncodeOne(c)) == Idle && Out(Idle, EncodeOne(c)) == [c]
  {
    var e, d1 := EncodeOne(c), FeedIdle(EncodeOne(c)[0]).0;
    var d2, d3 := Need(2, 0x80, 0xBF, c / 4096), Need(1, 0x80, 0xBF, c / 64);
    FourDigits(c);
    assert e == [e[0]] + ([e[1]] + ([e[2]] + [e[3]]));
    RunOne(Idle, e[0], d1, [e[1]] + ([e[2]] + [e[3]]));
    RunOne(d1, e[1], d2, [e[2]] + [e[3]]);
    RunOne(d2, e[2], d3, [e[3]]);
    RunLast(d3, e[3], c);
  }

  lemma DecodeEncodeOne(c: Scalar)
    ensures After(Idle, EncodeOne(c)) == Idle && Out(Idle, EncodeOne(c)) == [c]
  {
    if c < 0x80 {
      RunLast(Idle, c, c);
    } else if c < 0x800 {
      EncodeTwo(c);
    } else if c < 0x10000 {
      EncodeThree(c);
    } else {
      EncodeFour(c);
    }
  }

  lemma AppendOne(a: Bytes, e: Bytes, c: int)
    requires After(Idle, a) == Idle && After(Idle, e) == Idle && Out(Idle, e) == [c]
    ensures After(Idle, a + e) == Idle && Out(Idle, a + e) == Out(Idle, a) + [c]
  {
    RunConcat(Idle, a, e);
  }

  lemma {:induction false} RunEncode(cs: seq<Scalar>)
    ensures After(Idle, Encode(cs)) == Idle && Out(Idle, Encode(cs)) == cs
    decreases |cs|
  {
    if cs != [] {
      var n := |cs| - 1;
      RunEncode(cs[..n]);
      DecodeEncodeOne(cs[n]);
      AppendOne(Encode(cs[..n]), EncodeOne(cs[n]), cs[n]);
      assert cs == cs[..n] + [cs[n]];
    }
  }

  /** What was written as well-formed text is read back as that text. */
  lemma DecodeEncode(cs: seq<Scalar>)
    ensures After(Idle, Encode(cs)) == Idle && Scalars(Encode(cs)) == cs && Decode(Encode(cs)) == Utf16(cs)
  {
    RunEncode(cs);
  }
}
