/** What pins the hash: the exclusive or bit by bit, and the hashes of nothing and of every single byte. */
module FnvLaws {
  import opened Common
  import opened Fnv

  /** One more low bit on either side. */
  lemma XorCons(x: nat, y: nat, p: nat, q: nat)
    requires p < 2 && q < 2
    ensures Xor(2 * x + p, 2 * y + q) == 2 * Xor(x, y) + if p == q then 0 else 1
  {
    var u, v := 2 * x + p, 2 * y + q;
    assert u / 2 == x && v / 2 == y && u % 2 == p && v % 2 == q;
    XorUnfold(u, v);
  }

  /** A number from its bits, the lowest first. */
  function FromBits(q: seq<nat>): nat {
    if q == [] then 0 else 2 * FromBits(q[1..]) + q[0]
  }

  predicate IsBits(q: seq<nat>) {
    forall i :: 0 <= i < |q| ==> q[i] < 2
  }

  /** The places in which two sequences of bits differ. */
  function Differ(p: seq<nat>, q: seq<nat>): (r: seq<nat>)
    requires |p| == |q|
    ensures |r| == |p| && forall i :: 0 <= i < |p| ==> r[i] == if p[i] == q[i] then 0 else 1
  {
    if p == [] then [] else [if p[0] == q[0] then 0 else 1] + Differ(p[1..], q[1..])
  }

  /** The exclusive or of two numbers has a one exactly where their bits differ. */
  lemma {:induction false} XorBits(p: seq<nat>, q: seq<nat>)
    requires |p| == |q| && IsBits(p) && IsBits(q)
    ensures Xor(FromBits(p), FromBits(q)) == FromBits(Differ(p, q))
    decreases |p|
  {
    if p != [] {
      XorBits(p[1..], q[1..]);
      XorCons(FromBits(p[1..]), FromBits(q[1..]), p[0], q[0]);
      assert Differ(p, q)[1..] == Differ(p[1..], q[1..]);
    }
  }

  lemma OneStep(h: Word, s: Bytes)
    requires |s| == 1
    ensures Run(h, s) == Mask(Xor(h, s[0]) * PRIME)
  {
    assert s[..0] == [];
  }

  /** Nothing hashes to the offset, and one byte to the offset differing in its bits, times the prime, in 64 bits. */
  lemma SmallHashes(s: Bytes)
    ensures |s| == 0 ==> Hash(s) == 0xcbf29ce484222325
    ensures |s| == 1 ==>
              Hash(s) == Xor(0xcbf29ce484222325, s[0]) * 0x100000001b3 % 0x1_0000_0000_0000_0000
  {
    if |s| == 1 {
      OneStep(OFFSET, s);
    }
  }

  /** And every further byte does to the hash so far what the first does to the offset. */
  lemma NextByte(s: Bytes, b: Byte)
    ensures Hash(s + [b]) == Xor(Hash(s), b) * 0x100000001b3 % 0x1_0000_0000_0000_0000
  {
    RunConcat(OFFSET, s, [b]);
    OneStep(Hash(s), [b]);
  }
}
