/**
 Paged reading of artifact text: the checkpoint index, the indexed slice, and the
 bounded cache of verified indexes.  A read may return fewer bytes than asked for, at
 any offset; `avail(o)` is how many it returns at offset o.
 */
module Paging {
  import opened Common
  import opened Utf8

  const PAGE_BUFFER_BYTES := 65536
  const MAX_PAGE_INDEXES := 16
  const MAX_PAGE_CHECKPOINTS := 1024

  datatype Checkpoint = Checkpoint(byteOffset: nat, charOffset: nat)

  /** `String.prototype.slice` for non-negative bounds. */
  function Slice(t: Text, from: nat, to: nat): Text
    requires from <= to
  {
    t[Min(from, |t|)..Min(to, |t|)]
  }

  lemma SliceConcat(t: Text, u: Text, from: nat, to: nat)
    requires from <= to
    ensures Slice(t + u, from, to) == Slice(t, from, to) + Slice(u, Max(0, from - |t|), Max(0, to - |t|))
  {
  }

  /** All the paged reader needs of the decoder: it may be run piecewise between clean cuts. */
  ghost predicate Piecewise(dec: Bytes -> Text) {
    && dec([]) == []
    && forall a, b {:trigger CleanCut(a, b)} :: CleanCut(a, b) ==> dec(a + b) == dec(a) + dec(b)
  }

  lemma DecodePiecewise()
    ensures Piecewise(Decode)
  {
    assert Scalars([]) == [];
    forall a, b | CleanCut(a, b)
      ensures Decode(a + b) == Decode(a) + Decode(b)
    {
      DecodeDistributes(a, b);
    }
  }

  /** An offset at which decoding the content may be split, whatever follows. */
  ghost predicate Cut(dec: Bytes -> Text, content: Bytes, k: nat) {
    && k <= |content|
    && forall j {:trigger dec(content[k..j])} ::
      k <= j <= |content| ==> dec(content[..j]) == dec(content[..k]) + dec(content[k..j])
  }

  lemma CutZero(dec: Bytes -> Text, content: Bytes)
    requires Piecewise(dec)
    ensures Cut(dec, content, 0) && dec(content[..0]) == []
  {
    assert content[..0] == [];
    forall j | 0 <= j <= |content|
      ensures dec(content[..j]) == dec(content[..0]) + dec(content[0..j])
    {
      assert content[..j] == content[0..j];
    }
  }

  /** Bytes read after a cut at k, of which `complete` may be decoded: what is known afterwards. */
  lemma CutAdvance(dec: Bytes -> Text, content: Bytes, k: nat, bytes: Bytes, complete: nat)
    requires Piecewise(dec) && Cut(dec, content, k) && k + |bytes| <= |content| && bytes == content[k..k + |bytes|]
    requires SafeSplit(bytes, complete)
    ensures Cut(dec, content, k + complete)
    ensures dec(content[..k + complete]) == dec(content[..k]) + dec(bytes[..complete])
  {
    var a := bytes[..complete];
    assert a == content[k..k + complete];
    assert dec(content[k..k + complete]) == dec(a);
    forall i | k + complete <= i <= |content|
      ensures dec(content[..i]) == dec(content[..k + complete]) + dec(content[k + complete..i])
    {
      var b := content[k + complete..i];
      CutFirst(content, k, bytes, complete, i);
      assert content[k..i] == a + b;
      calc {
        dec(content[..i]);
        dec(content[..k]) + dec(content[k..i]);
        dec(content[..k]) + dec(a + b);
        dec(content[..k]) + (dec(a) + dec(b));
        (dec(content[..k]) + dec(a)) + dec(b);
        dec(content[..k + complete]) + dec(b);
      }
    }
  }

  lemma CutFirst(content: Bytes, k: nat, bytes: Bytes, complete: nat, i: nat)
    requires k + |bytes| <= |content| && bytes == content[k..k + |bytes|]
    requires SafeSplit(bytes, complete) && k + complete <= i <= |content|
    ensures CleanCut(bytes[..complete], content[k + complete..i])
  {
    SafeSplitIsClean(bytes, complete, content[k + |bytes|..]);
    var b := content[k + complete..i];
    assert bytes[complete..] + content[k + |bytes|..] == content[k + complete..];
    if b != [] {
      assert b[0] == content[k + complete..][0];
    }
  }

  /** At the end of the content everything left is decoded. */
  lemma CutEnd(dec: Bytes -> Text, content: Bytes, k: nat, bytes: Bytes)
    requires Piecewise(dec) && Cut(dec, content, k) && bytes == content[k..]
    ensures Cut(dec, content, |content|)
    ensures dec(content[..|content|]) == dec(content[..k]) + dec(bytes[..|bytes|])
  {
    assert content[k..|content|] == bytes == bytes[..|bytes|];
    assert dec(content[k..|content|]) == dec(bytes);
    assert content[|content|..|content|] == [];
  }

  ghost predicate CheckpointOk(dec: Bytes -> Text, content: Bytes, c: Checkpoint) {
    Cut(dec, content, c.byteOffset) && c.charOffset == |dec(content[..c.byteOffset])|
  }

  ghost predicate IndexOk(dec: Bytes -> Text, content: Bytes, cs: seq<Checkpoint>) {
    && cs != [] && cs[0] == Checkpoint(0, 0)
    && forall i :: 0 <= i < |cs| ==> CheckpointOk(dec, content, cs[i])
  }

  function Stride(size: nat): nat {
    Max(PAGE_BUFFER_BYTES, (size + MAX_PAGE_CHECKPOINTS - 1) / MAX_PAGE_CHECKPOINTS)
  }

  lemma MulLess(a: nat, b: nat, s: nat)
    requires a < b && s > 0
    ensures a * s < b * s
  {
  }

  lemma CheckpointBound(count: nat, size: nat)
    requires count * Stride(size) <= size
    ensures count <= MAX_PAGE_CHECKPOINTS
  {
    var stride := Stride(size);
    assert size <= MAX_PAGE_CHECKPOINTS * stride;
    if count > MAX_PAGE_CHECKPOINTS {
      MulLess(MAX_PAGE_CHECKPOINTS, count, stride);
      assert false;
    }
  }

  /** What a read at `offset` returns: at most a buffer, at most what is left. */
  function BytesRead(avail: nat -> nat, size: nat, offset: nat): nat
    requires offset <= size
  {
    Min(avail(offset), Min(PAGE_BUFFER_BYTES, size - offset))
  }

  ghost predicate NeverEmpty(avail: nat -> nat) {
    forall o: nat :: avail(o) > 0
  }

  /** Where a read loop stands: decoded up to `decoded`, read up to `byteOffset`, the rest pending. */
  ghost predicate Reading(dec: Bytes -> Text, content: Bytes, decoded: nat, charOffset: nat, byteOffset: nat,
                          pending: Bytes) {
    && decoded <= byteOffset <= |content| && pending == content[decoded..byteOffset]
    && CheckpointOk(dec, content, Checkpoint(decoded, charOffset))
  }

  /** One read and the bytes not yet decoded; `next == byteOffset` when the read came back empty. */
  method ReadChunk(content: Bytes, avail: nat -> nat, byteOffset: nat, pending: Bytes, ghost decoded: nat)
      returns (bytes: Bytes, next: nat)
    requires decoded <= byteOffset < |content| && pending == content[decoded..byteOffset]
    ensures byteOffset <= next <= |content| && bytes == content[decoded..next]
    ensures next <= byteOffset + PAGE_BUFFER_BYTES && (NeverEmpty(avail) ==> byteOffset < next)
  {
    next := byteOffset + BytesRead(avail, |content|, byteOffset);
    bytes := pending + content[byteOffset..next];
  }

  lemma Advance(dec: Bytes -> Text, content: Bytes, decoded: nat, charOffset: nat, bytes: Bytes, complete: nat)
    requires Piecewise(dec) && CheckpointOk(dec, content, Checkpoint(decoded, charOffset))
    requires decoded + |bytes| <= |content| && bytes == content[decoded..decoded + |bytes|]
    requires SafeSplit(bytes, complete) || (complete == |bytes| && decoded + |bytes| == |content|)
    ensures Reading(dec, content, decoded + complete, charOffset + |dec(bytes[..complete])|, decoded + |bytes|,
                    bytes[complete..])
    ensures dec(content[..decoded + complete]) == dec(content[..decoded]) + dec(bytes[..complete])
  {
    if SafeSplit(bytes, complete) {
      CutAdvance(dec, content, decoded, bytes, complete);
    } else {
      assert bytes == content[decoded..];
      CutEnd(dec, content, decoded, bytes);
    }
  }

  /**
   One round of a read loop: a read, and the text of what may be decoded of it.  The
   slice reader decodes everything once it reaches the end; the indexer never does.
   */
  method DecodeChunk(dec: Bytes -> Text, content: Bytes, avail: nat -> nat, byteOffset: nat, pending: Bytes,
                     final: bool, ghost decoded: nat, ghost charOffset: nat)
      returns (text: Text, pending': Bytes, next: nat, ghost decoded': nat)
    requires Piecewise(dec) && Reading(dec, content, decoded, charOffset, byteOffset, pending) && byteOffset < |content|
    ensures byteOffset <= next <= |content| && (NeverEmpty(avail) ==> byteOffset < next)
    ensures Reading(dec, content, decoded', charOffset + |text|, next, pending')
    ensures dec(content[..decoded']) == dec(content[..decoded]) + text && decoded <= decoded'
    ensures final && next == |content| ==> decoded' == next
    ensures next <= byteOffset + PAGE_BUFFER_BYTES && |pending'| <= 3
  {
    var bytes;
    bytes, next := ReadChunk(content, avail, byteOffset, pending, decoded);
    var complete := |bytes|;
    if !final || next != |content| {
      complete := CompleteUtf8Prefix(bytes);
    }
    text := dec(bytes[..complete]);
    pending' := bytes[complete..];
    decoded' := decoded + complete;
    Advance(dec, content, decoded, charOffset, bytes, complete);
  }

  /**
   Builds the index of the content, checking its digest.  Every checkpoint is a cut with
   its exact character offset, and there are never more than 1025 of them.
   */
  method PageIndex(dec: Bytes -> Text, content: Bytes, sha256: Digest, avail: nat -> nat)
      returns (r: Option<seq<Checkpoint>>)
    requires Piecewise(dec)
    ensures r.Some? ==> IndexOk(dec, content, r.value) && |r.value| <= MAX_PAGE_CHECKPOINTS + 1
    ensures r.Some? ==> Dense(r.value, Stride(|content|), |content| - 3)
    ensures r.Some? ==> Sha256(content) == sha256
    ensures NeverEmpty(avail) && Sha256(content) == sha256 ==> r.Some?
  {
    var size := |content|;
    var stride := Stride(size);
    var checkpoints := [Checkpoint(0, 0)];
    var byteOffset: nat, charOffset: nat := 0, 0;
    var pending: Bytes, hashed: Bytes := [], [];
    CutZero(dec, content);
    ghost var decoded: nat := 0;
    while byteOffset < size
      invariant Reading(dec, content, decoded, charOffset, byteOffset, pending) && hashed == content[..byteOffset]
      invariant Spaced(dec, content, checkpoints, stride, decoded) && |pending| <= 3
      invariant Dense(checkpoints, stride, decoded)
      decreases size - byteOffset
    {
      var text, rest, next, decoded' :=
        DecodeChunk(dec, content, avail, byteOffset, pending, false, decoded, charOffset);
      if next == byteOffset {
        return None;
      }
      ghost var before := decoded;
      hashed := hashed + content[byteOffset..next];
      byteOffset, charOffset, pending, decoded := next, charOffset + |text|, rest, decoded';
      checkpoints := Extend(dec, content, checkpoints, Checkpoint(byteOffset - |pending|, charOffset), stride, before);
    }
    assert hashed == content;
    if Sha256(hashed) != sha256 {
      return None;
    }
    CheckpointBound(|checkpoints| - 1, size);
    return Some(checkpoints);
  }

  /** Checkpoints are a stride apart, less than one read further, and reach to within a stride of `upto`. */
  ghost predicate Dense(cs: seq<Checkpoint>, stride: nat, upto: int) {
    && cs != [] && upto < cs[|cs| - 1].byteOffset + stride
    && forall i, j :: 0 <= i < j < |cs| && j == i + 1 ==>
      cs[i].byteOffset + stride <= cs[j].byteOffset < cs[i].byteOffset + stride + PAGE_BUFFER_BYTES + 3
  }

  /** The checkpoints so far are a stride apart and none is past what is decoded. */
  ghost predicate Spaced(dec: Bytes -> Text, content: Bytes, cs: seq<Checkpoint>, stride: nat, decoded: nat) {
    && IndexOk(dec, content, cs)
    && (|cs| - 1) * stride <= cs[|cs| - 1].byteOffset <= decoded
  }

  /** A checkpoint is added once a stride has been decoded since the last one. */
  method Extend(ghost dec: Bytes -> Text, ghost content: Bytes, cs: seq<Checkpoint>, c: Checkpoint, stride: nat,
                ghost before: nat)
      returns (r: seq<Checkpoint>)
    requires Spaced(dec, content, cs, stride, before) && Dense(cs, stride, before) && CheckpointOk(dec, content, c)
    requires before <= c.byteOffset <= before + PAGE_BUFFER_BYTES + 3 && stride > 0
    ensures Spaced(dec, content, r, stride, c.byteOffset) && Dense(r, stride, c.byteOffset)
  {
    if c.byteOffset - cs[|cs| - 1].byteOffset < stride {
      return cs;
    }
    assert |cs| * stride == (|cs| - 1) * stride + stride;
    r := cs + [c];
  }

  /** The last checkpoint not past `start`. */
  method FindCheckpoint(ghost dec: Bytes -> Text, ghost content: Bytes, cs: seq<Checkpoint>, start: nat)
      returns (c: Checkpoint)
    requires IndexOk(dec, content, cs)
    ensures CheckpointOk(dec, content, c)
    ensures exists n :: 0 <= n < |cs| && c == cs[n] && LastUpTo(cs, start, n)
  {
    c := cs[0];
    assert LastSoFar(cs, start, 0, 0);
    for i := 0 to |cs|
      invariant CheckpointOk(dec, content, c)
      invariant exists n :: 0 <= n < |cs| && c == cs[n] && LastSoFar(cs, start, n, i)
    {
      if cs[i].charOffset > start {
        break;
      }
      c := cs[i];
      assert LastSoFar(cs, start, i, i + 1);
    }
  }

  /** Checkpoint `n` and all before it are not past `start`; the next one, if any, is. */
  predicate LastUpTo(cs: seq<Checkpoint>, start: nat, n: nat)
    requires n < |cs|
  {
    (forall j :: 0 <= j <= n ==> cs[j].charOffset <= start) && (n + 1 < |cs| ==> cs[n + 1].charOffset > start)
  }

  predicate LastSoFar(cs: seq<Checkpoint>, start: nat, n: nat, i: nat)
    requires n < |cs|
  {
    n == Max(0, i - 1) && forall j :: 0 <= j <= n ==> cs[j].charOffset <= start
  }

  /**
   Paging refines slicing: for every content, well formed or not, every index of it,
   every chunking of the reads, every start and every limit, the indexed slice is the
   slice of the fully decoded text.
   */
  method ReadIndexedSlice(dec: Bytes -> Text, content: Bytes, cs: seq<Checkpoint>, start: nat, limit: nat,
                          avail: nat -> nat)
      returns (r: Option<Text>)
    requires Piecewise(dec) && IndexOk(dec, content, cs)
    ensures r.Some? ==> r.value == Slice(dec(content), start, start + limit)
    ensures NeverEmpty(avail) ==> r.Some?
  {
    var size := |content|;
    var checkpoint := FindCheckpoint(dec, content, cs, start);
    var byteOffset: nat, charOffset: nat := checkpoint.byteOffset, checkpoint.charOffset;
    var pending: Bytes, result: Text := [], [];
    ghost var decoded: nat := byteOffset;
    while byteOffset < size && charOffset < start + limit
      invariant Reading(dec, content, decoded, charOffset, byteOffset, pending)
      invariant byteOffset == size ==> decoded == size
      invariant result == Slice(dec(content[..decoded]), start, start + limit)
      decreases size - byteOffset
    {
      var text, rest, next, decoded' :=
        DecodeChunk(dec, content, avail, byteOffset, pending, true, decoded, charOffset);
      if next == byteOffset {
        return None;
      }
      SliceConcat(dec(content[..decoded]), text, start, start + limit);
      result := result + Slice(text, Max(0, start - charOffset), Max(0, start + limit - charOffset));
      byteOffset, charOffset, pending, decoded := next, charOffset + |text|, rest, decoded';
    }
    SliceDone(dec, content, decoded, charOffset, start, limit);
    return Some(result);
  }

  /** Nothing after the loop belongs to the slice. */
  lemma SliceDone(dec: Bytes -> Text, content: Bytes, decoded: nat, charOffset: nat, start: nat, limit: nat)
    requires CheckpointOk(dec, content, Checkpoint(decoded, charOffset))
    requires decoded == |content| || charOffset >= start + limit
    ensures Slice(dec(content), start, start + limit) == Slice(dec(content[..decoded]), start, start + limit)
  {
    assert content[..|content|] == content;
    SliceConcat(dec(content[..decoded]), dec(content[decoded..|content|]), start, start + limit);
  }
}
