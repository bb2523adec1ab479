/**
 Exactly which reachable states of the bootstrap a system crash can turn into a root nobody can open.
 */
module LockCrash {
  import opened Common
  import opened LockBootstrap
  import opened LockRecovery
  import opened LockDurability

  // ----- what a crash can leave of each name

  lemma {:induction false} KeptRecords(fs: Fs, ops: seq<NameOp>, keep: seq<bool>)
    requires |keep| == |ops|
    ensures var f := Kept(fs, ops, keep);
            && (f.domain == fs.domain || (f.domain.Some? && SetDomain(f.domain.value) in ops))
            && (f.marker == fs.marker || SetMarker(f.marker) in ops)
    decreases |ops|
  {
    if ops != [] {
      var n := |ops| - 1;
      KeptRecords(fs, ops[..n], keep[..n]);
      assert ops[n] in ops;
      assert forall op :: op in ops[..n] ==> op in ops;
    }
  }

  /** Every directory put in place is `inode`, staged under `t`, and nothing else touches that name. */
  ghost predicate OnlyMoves(ops: seq<NameOp>, t: nat, inode: nat) {
    forall op :: op in ops ==>
      && (op.MoveStage? ==> op == MoveStage(t, inode))
      && (op.AddStage? ==> op.t != t) && (op.RemoveStage? ==> op.t != t)
  }

  /** The rename is kept whole or lost whole. */
  lemma {:induction false} KeptPlace(fs: Fs, ops: seq<NameOp>, keep: seq<bool>, t: nat, inode: nat)
    requires |keep| == |ops| && OnlyMoves(ops, t, inode)
    ensures var f := Kept(fs, ops, keep);
            || (f.locks == Some(inode) && t !in f.stage)
            || (f.locks == fs.locks && (t in f.stage <==> t in fs.stage)
                && (t in f.stage ==> f.stage[t] == fs.stage[t]))
    decreases |ops|
  {
    if ops != [] {
      var n := |ops| - 1;
      assert ops[n] in ops;
      assert forall op :: op in ops[..n] ==> op in ops;
      KeptPlace(fs, ops[..n], keep[..n], t, inode);
    }
  }

  lemma {:induction false} KeptNoMove(fs: Fs, ops: seq<NameOp>, keep: seq<bool>)
    requires |keep| == |ops| && forall op :: op in ops && op.MoveStage? ==> fs.locks == Some(op.inode)
    ensures Kept(fs, ops, keep).locks == fs.locks
    decreases |ops|
  {
    if ops != [] {
      var n := |ops| - 1;
      assert ops[n] in ops;
      assert forall op :: op in ops[..n] ==> op in ops;
      KeptNoMove(fs, ops[..n], keep[..n]);
    }
  }

  // ----- losing everything but one change

  lemma {:induction false} KeptNone(fs: Fs, ops: seq<NameOp>, keep: seq<bool>)
    requires |keep| == |ops| && forall i :: 0 <= i < |keep| ==> !keep[i]
    ensures Kept(fs, ops, keep) == fs
    decreases |ops|
  {
    if ops != [] {
      KeptNone(fs, ops[..|ops| - 1], keep[..|ops| - 1]);
    }
  }

  lemma {:induction false} KeptOne(fs: Fs, ops: seq<NameOp>, keep: seq<bool>, j: nat)
    requires |keep| == |ops| && j < |ops| && forall i :: 0 <= i < |keep| ==> (keep[i] <==> i == j)
    ensures Kept(fs, ops, keep) == Apply(fs, ops[j])
    decreases |ops|
  {
    var n := |ops| - 1;
    if j == n {
      KeptNone(fs, ops[..n], keep[..n]);
    } else {
      KeptOne(fs, ops[..n], keep[..n], j);
    }
  }

  lemma OneSurvives(s: Root, op: NameOp) returns (f: Fs)
    requires RootInv(s) && op in s.pending
    ensures CrashRoot(s, f) && SameNames(f, Apply(s.synced, op)) && f.tokens == s.base.fs.tokens
  {
    var j :| 0 <= j < |s.pending| && s.pending[j] == op;
    var keep := seq(|s.pending|, i => i == j);
    KeptOne(s.synced, s.pending, keep, j);
    f := Apply(s.synced, op).(tokens := s.base.fs.tokens);
    assert SameNames(f, Kept(s.synced, s.pending, keep));
  }

  // ----- exactly when

  /** The record is durable, or no marker changed since the last sync and a record found a durable directory. */
  predicate Recoverable(s: Root) {
    || s.synced.domain.Some?
    || (!MarkerPending(s.pending) && (s.base.fs.domain.Some? ==> s.synced.locks.Some?))
  }

  lemma UnrecoverableImage(s: Root) returns (f: Fs)
    requires RootInv(s) && !Recoverable(s)
    ensures CrashRoot(s, f) && !Openable(f)
  {
    var a, fs := s.synced, s.base.fs;
    if fs.domain.Some? && a.locks.None? {
      f := OneSurvives(s, SetDomain(fs.domain.value));
    } else if a.marker.Some? {
      f := OneSurvives(s, SetMarker(None));
      MarkedPlaced(s);
    } else {
      var op :| op in s.pending && op.SetMarker?;
      assert OpInv(s, op);
      f := OneSurvives(s, op);
      UnmarkedEmpty(a);
    }
  }

  /** A root synced without either record is still empty. */
  lemma UnmarkedEmpty(a: Fs)
    requires Snapshot(a) && a.domain.None? && a.marker.None?
    ensures a.locks.None? && a.stage == map[]
  {
  }

  /** A marker can only have been removed once its directory was in place. */
  lemma MarkedPlaced(s: Root)
    requires RootInv(s) && s.synced.domain.None? && s.synced.marker.Some? && SetMarker(None) in s.pending
    requires s.base.fs.domain.Some? ==> s.synced.locks.Some?
    ensures s.synced.locks.Some?
  {
    assert OpInv(s, SetMarker(None));
  }

  lemma NamedSurvives(s: Root, f: Fs, e: Rec)
    requires RootInv(s) && Tokens(s, f.tokens) && s.base.fs.domain == Some(e)
    requires f.locks == s.base.fs.locks
    ensures Named(f, e)
  {
  }

  /** With the directory durably in place, nothing can be lost of it. */
  lemma PlaceSurvives(s: Root, keep: seq<bool>)
    requires RootInv(s) && |keep| == |s.pending| && s.synced.locks.Some?
    ensures Kept(s.synced, s.pending, keep).locks == s.base.fs.locks == s.synced.locks
  {
    forall op | op in s.pending && op.MoveStage?
      ensures s.synced.locks == Some(op.inode)
    {
      assert OpInv(s, op);
    }
    KeptNoMove(s.synced, s.pending, keep);
  }

  lemma DomainSurvives(s: Root, f: Fs, keep: seq<bool>)
    requires RootInv(s) && |keep| == |s.pending| && SameNames(f, Kept(s.synced, s.pending, keep)) && Tokens(s, f.tokens)
    requires s.synced.locks.Some? && f.domain.Some?
    ensures Openable(f)
  {
    KeptRecords(s.synced, s.pending, keep);
    PlaceSurvives(s, keep);
    if f.domain != s.synced.domain {
      assert OpInv(s, SetDomain(f.domain.value));
    }
    NamedSurvives(s, f, f.domain.value);
  }

  lemma DurableDomain(s: Root)
    requires RootInv(s) && s.synced.domain.Some?
    ensures s.synced.locks.Some?
  {
  }

  lemma NoDomainLost(s: Root, keep: seq<bool>)
    requires RootInv(s) && |keep| == |s.pending| && s.synced.domain.Some?
    ensures Kept(s.synced, s.pending, keep).domain.Some?
  {
    KeptRecords(s.synced, s.pending, keep);
  }

  /** The durable marker's directory is found staged or in place, whatever was lost. */
  lemma MarkerSurvives(s: Root, f: Fs, keep: seq<bool>, b: Rec)
    requires RootInv(s) && |keep| == |s.pending| && SameNames(f, Kept(s.synced, s.pending, keep)) && Tokens(s, f.tokens)
    requires s.synced.domain.None? && s.synced.marker == Some(b)
    requires s.base.fs.domain.Some? ==> s.synced.locks.Some?
    ensures Completable(f, b)
  {
    var a, fs := s.synced, s.base.fs;
    assert FsInv(a) && Ready(a, b) && Claimed(a, b) && Claimed(fs, b);
    MarkerToken(s, b);
    if a.locks.Some? {
      PlaceSurvives(s, keep);
      StageStaysGone(a, s.pending, keep, b.token) by {
        forall op | op in s.pending && op.AddStage?
          ensures op.t != b.token
        {
          assert OpInv(s, op);
        }
      }
    } else {
      MovesOnly(s, b);
      KeptPlace(a, s.pending, keep, b.token, b.inode);
    }
  }

  lemma MarkerToken(s: Root, b: Rec)
    requires RootInv(s) && s.synced.domain.None? && s.synced.marker == Some(b)
    requires s.base.fs.domain.Some? ==> s.synced.locks.Some?
    ensures TokenIs(s.base.fs, b.inode, b.token)
  {
    assert Ready(s.synced, b);
    if s.synced.locks.None? {
      assert Claimed(s.base.fs, b);
      assert s.base.fs.marker == Some(b);
    }
  }

  lemma MovesOnly(s: Root, b: Rec)
    requires RootInv(s) && s.base.fs.domain.None? && s.synced.marker == Some(b) && Claimed(s.synced, b)
    ensures OnlyMoves(s.pending, b.token, b.inode)
  {
    var fs := s.base.fs;
    assert fs.marker == Some(b);
    forall op | op in s.pending
      ensures (op.MoveStage? ==> op == MoveStage(b.token, b.inode))
              && (op.AddStage? ==> op.t != b.token) && (op.RemoveStage? ==> op.t != b.token)
    {
      assert OpInv(s, op);
    }
  }

  lemma {:induction false} StageStaysGone(fs: Fs, ops: seq<NameOp>, keep: seq<bool>, t: nat)
    requires |keep| == |ops| && t !in fs.stage && forall op :: op in ops && op.AddStage? ==> op.t != t
    ensures t !in Kept(fs, ops, keep).stage
    decreases |ops|
  {
    if ops != [] {
      var n := |ops| - 1;
      assert ops[n] in ops;
      assert forall op :: op in ops[..n] ==> op in ops;
      StageStaysGone(fs, ops[..n], keep[..n], t);
    }
  }

  lemma NothingSurvives(s: Root, f: Fs, keep: seq<bool>)
    requires RootInv(s) && |keep| == |s.pending| && SameNames(f, Kept(s.synced, s.pending, keep))
    requires s.synced.domain.None? && s.synced.marker.None? && s.base.fs.domain.None? && s.base.fs.marker.None?
    ensures f.locks.None?
  {
    UnmarkedEmpty(s.synced);
    forall op | op in s.pending
      ensures !op.MoveStage?
    {
      assert OpInv(s, op);
    }
    KeptNoMove(s.synced, s.pending, keep);
  }

  lemma RecoverableImages(s: Root, f: Fs)
    requires RootInv(s) && Recoverable(s) && CrashRoot(s, f)
    ensures Openable(f)
  {
    var keep :| |keep| == |s.pending| && SameNames(f, Kept(s.synced, s.pending, keep));
    KeptRecords(s.synced, s.pending, keep);
    if f.domain.Some? {
      if s.synced.domain.Some? {
        DurableDomain(s);
      } else {
        assert OpInv(s, SetDomain(f.domain.value));
      }
      DomainSurvives(s, f, keep);
    } else {
      if s.synced.domain.Some? {
        NoDomainLost(s, keep);
        assert false;
      }
      assert f.marker == s.synced.marker;
      if f.marker.Some? {
        MarkerSurvives(s, f, keep, f.marker.value);
      } else if s.base.fs.domain.None? {
        NothingSurvives(s, f, keep);
      } else {
        UnmarkedEmpty(s.synced);
      }
    }
  }

  /**
   A reachable state leaves, whatever a crash loses, a root that can be opened if and only if it is
   recoverable.
   */
  lemma CrashOpensIff(ss: seq<Root>, es: seq<Action>, n: nat)
    requires RootRun(ss, es) && n <= |es|
    ensures (forall f :: CrashRoot(ss[n], f) ==> Openable(f)) <==> Recoverable(ss[n])
  {
    RootRunInv(ss, es, n);
    if Recoverable(ss[n]) {
      forall f | CrashRoot(ss[n], f)
        ensures Openable(f)
      {
        RecoverableImages(ss[n], f);
      }
    } else {
      var f := UnrecoverableImage(ss[n]);
    }
  }

  // ----- openers whose syncs are not overtaken

  /** No record is waiting for a sync, and while there is no record no marker is. */
  predicate Quiet(s: Root) {
    s.base.fs.domain == s.synced.domain && (s.base.fs.domain.None? ==> !MarkerPending(s.pending))
  }

  lemma QuietMove(s: Root, i: nat)
    requires RootInv(s) && Allowed(s, Move(i)) && Quiet(s) && !Syncs(s.base.fs, s.base.openers[i])
    ensures Quiet(Follow(s, Move(i)))
  {
    var fs, pc, s' := s.base.fs, s.base.openers[i], Follow(s, Move(i));
    var ops := Issued(fs, i, pc);
    assert PcInv(fs, i, pc);
    IssuedIs(fs, i, pc);
    assert forall op :: op in s'.pending <==> op in s.pending || op in ops;
  }

  /** While a sync is outstanding, nobody moves. */
  ghost predicate Prompt(ss: seq<Root>, es: seq<Action>) {
    |ss| == |es| + 1 && forall n {:trigger es[n]} :: 0 <= n < |es| && es[n].Move? ==> ss[n].syncing == {}
  }

  lemma QuietStep(s: Root, a: Action)
    requires RootInv(s) && Allowed(s, a) && (s.syncing == {} ==> Quiet(s)) && (a.Move? ==> s.syncing == {})
    ensures Follow(s, a).syncing == {} ==> Quiet(Follow(s, a))
  {
    if a.Move? && !Syncs(s.base.fs, s.base.openers[a.i]) {
      QuietMove(s, a.i);
    } else if a.Move? {
      assert a.i in Follow(s, a).syncing;
    }
  }

  lemma PromptNext(ss: seq<Root>, es: seq<Action>, n: nat)
    requires RootRun(ss, es) && Prompt(ss, es) && n < |es| && (ss[n].syncing == {} ==> Quiet(ss[n]))
    ensures ss[n + 1].syncing == {} ==> Quiet(ss[n + 1])
  {
    RootRunInv(ss, es, n);
    QuietStep(ss[n], es[n]);
  }

  /** When no opener overtakes another's sync, every state without one outstanding is recoverable. */
  lemma {:induction false} PromptRecoverable(ss: seq<Root>, es: seq<Action>, n: nat)
    requires RootRun(ss, es) && Prompt(ss, es) && n <= |es|
    ensures ss[n].syncing == {} ==> Quiet(ss[n]) && Recoverable(ss[n])
  {
    if n > 0 {
      PromptRecoverable(ss, es, n - 1);
      PromptNext(ss, es, n - 1);
    }
  }
}
