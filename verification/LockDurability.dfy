/**
 The lock bootstrap on a root directory whose names survive a system crash only once the root is synced.
 Openers sync it after linking a record, after putting the directory in place and after removing a
 marker, so others may act on names that are not durable yet.
 */
module LockDurability {
  import opened Common
  import opened LockBootstrap
  import opened LockRecovery

  /** A change to the names in the root. */
  datatype NameOp =
    | SetDomain(rec: Rec)
    | SetMarker(m: Option<Rec>)
    | MoveStage(t: nat, inode: nat)
    | AddStage(t: nat, inode: nat)
    | RemoveStage(t: nat)

  function Apply(fs: Fs, op: NameOp): Fs {
    match op
    case SetDomain(rec) => fs.(domain := Some(rec))
    case SetMarker(m) => fs.(marker := m)
    case MoveStage(t, inode) => fs.(locks := Some(inode), stage := fs.stage - {t})
    case AddStage(t, inode) => fs.(stage := fs.stage[t := inode])
    case RemoveStage(t) => fs.(stage := fs.stage - {t})
  }

  /** The root is changed by the next call of opener `i`. */
  function Issued(fs: Fs, i: nat, pc: Pc): seq<NameOp> {
    match pc
    case MakeStage => [AddStage(i, fs.nextInode)]
    case Claim(ino) => if fs.marker.None? then [SetMarker(Some(Rec(i, ino)))] else []
    case CleanDir(_) => [RemoveStage(i)]
    case DropDir(_) => [RemoveStage(i)]
    case Quarantine(_, _) => if fs.marker.Some? then [SetMarker(None)] else []
    case Relink(moved, _) => if fs.marker.None? then [SetMarker(Some(moved))] else []
    case RenameStage(b, _) => if Renames(fs, b) then [MoveStage(b.token, fs.stage[b.token])] else []
    case PublishDomain(b, ino) => if fs.domain.None? then [SetDomain(Rec(b.token, ino))] else []
    case _ => []
  }

  predicate Renames(fs: Fs, b: Rec) {
    b.token in fs.stage && !(fs.locks.Some? && fs.locks.value in fs.tokens)
  }

  /** The call is one the source follows with a sync of the root. */
  predicate Syncs(fs: Fs, pc: Pc) {
    match pc
    case Claim(_) => fs.marker.None?
    case Quarantine(b, _) => fs.marker == Some(b)
    case RenameStage(b, _) => Renames(fs, b)
    case PublishDomain(_, _) => fs.domain.None?
    case _ => false
  }

  predicate SameNames(a: Fs, b: Fs) {
    a.domain == b.domain && a.marker == b.marker && a.locks == b.locks && a.stage == b.stage
  }

  function ApplyIssued(fs: Fs, ops: seq<NameOp>): Fs {
    if ops == [] then fs else Apply(fs, ops[0])
  }

  ghost predicate Recorded(fs: Fs, i: nat, pc: Pc)
    requires !Halted(pc)
  {
    |Issued(fs, i, pc)| <= 1 && SameNames(Step(fs, i, pc).0, ApplyIssued(fs, Issued(fs, i, pc)))
  }

  lemma EarlyReadRecorded(fs: Fs, i: nat, pc: Pc)
    requires EarlyRead(pc)
    ensures Recorded(fs, i, pc)
  {
  }

  lemma LateReadRecorded(fs: Fs, i: nat, pc: Pc)
    requires LateRead(pc) || NamedRead(pc)
    ensures Recorded(fs, i, pc)
  {
  }

  lemma FinalReadRecorded(fs: Fs, i: nat, pc: Pc)
    requires FinalRead(pc)
    ensures Recorded(fs, i, pc)
  {
  }

  lemma StagingRecorded(fs: Fs, i: nat, pc: Pc)
    requires pc.MakeStage? || pc.CleanDir? || pc.DropDir? || pc.RenameStage?
    ensures Recorded(fs, i, pc)
  {
  }

  lemma MarkingRecorded(fs: Fs, i: nat, pc: Pc)
    requires pc.Claim? || pc.Quarantine? || pc.Relink? || pc.PublishDomain?
    ensures Recorded(fs, i, pc)
  {
  }

  /** The recorded operation is exactly what the call does to the names. */
  lemma IssuedIs(fs: Fs, i: nat, pc: Pc)
    requires !Halted(pc)
    ensures Recorded(fs, i, pc)
  {
    if EarlyRead(pc) {
      EarlyReadRecorded(fs, i, pc);
    } else if LateRead(pc) || NamedRead(pc) {
      LateReadRecorded(fs, i, pc);
    } else if FinalRead(pc) {
      FinalReadRecorded(fs, i, pc);
    } else if pc.MakeStage? || pc.CleanDir? || pc.DropDir? || pc.RenameStage? {
      StagingRecorded(fs, i, pc);
    } else if pc.Claim? || pc.Quarantine? || pc.Relink? || pc.PublishDomain? {
      MarkingRecorded(fs, i, pc);
    }
  }

  /**
   `base` is what every process sees; `synced` is the root at its last sync and `pending` what changed
   since.  The openers in `syncing` are about to sync.  `written` are all tokens ever written.
   */
  datatype Root = Root(
    base: State, synced: Fs, pending: seq<NameOp>, syncing: set<nat>, written: map<nat, nat>)

  datatype Action = Begin(i: nat) | Move(i: nat) | SyncRoot(i: nat)

  predicate Allowed(s: Root, a: Action) {
    match a
    case Begin(i) => Enabled(s.base, Start(i))
    case Move(i) => Enabled(s.base, Take(i)) && i !in s.syncing
    case SyncRoot(i) => i in s.syncing
  }

  function Follow(s: Root, a: Action): Root
    requires Allowed(s, a)
  {
    match a
    case Begin(i) => s.(base := Next(s.base, Start(i)))
    case Move(i) =>
      var fs, pc := s.base.fs, s.base.openers[i];
      var base := Next(s.base, Take(i));
      Root(base, s.synced, s.pending + Issued(fs, i, pc), if Syncs(fs, pc) then s.syncing + {i} else s.syncing,
           s.written + base.fs.tokens)
    case SyncRoot(i) => Root(s.base, s.base.fs, [], s.syncing - {i}, s.written)
  }

  const NEW_ROOT := Root(State(EMPTY_ROOT, map[]), EMPTY_ROOT, [], {}, map[])

  ghost predicate RootRun(ss: seq<Root>, es: seq<Action>) {
    && |ss| == |es| + 1 && ss[0] == NEW_ROOT
    && forall n {:trigger es[n]} :: 0 <= n < |es| ==> Allowed(ss[n], es[n]) && ss[n + 1] == Follow(ss[n], es[n])
  }

  // ----- crash images

  function Kept(fs: Fs, ops: seq<NameOp>, keep: seq<bool>): Fs
    requires |keep| == |ops|
  {
    if ops == [] then fs
    else
      var n := |ops| - 1;
      var before := Kept(fs, ops[..n], keep[..n]);
      if keep[n] then Apply(before, ops[n]) else before
  }

  /** Tokens are written and synced at once; removed ones may come back. */
  ghost predicate Tokens(s: Root, tokens: map<nat, nat>) {
    && (forall x :: x in s.base.fs.tokens ==> x in tokens && tokens[x] == s.base.fs.tokens[x])
    && (forall x :: x in tokens ==> x in s.written && tokens[x] == s.written[x])
  }

  /** A root a system crash may leave: any of the changes since the last sync may be lost. */
  ghost predicate CrashRoot(s: Root, f: Fs) {
    && Tokens(s, f.tokens)
    && exists keep :: |keep| == |s.pending| && SameNames(f, Kept(s.synced, s.pending, keep))
  }

  // ----- invariant

  /** What stays since the last sync. */
  ghost predicate Since(a: Fs, b: Fs) {
    && (a.domain.Some? ==> b.domain == a.domain)
    && (a.locks.Some? ==>
          && b.locks == a.locks
          && (a.locks.value in a.tokens ==>
                a.locks.value in b.tokens && b.tokens[a.locks.value] == a.tokens[a.locks.value]))
    && (forall t :: t in a.claims ==> t in b.claims && b.claims[t] == a.claims[t])
  }

  /** The opener will not claim a marker any more. */
  predicate Late(pc: Pc) {
    !(pc.ReadDomain? || pc.ReadMarker? || pc.LstatLocks? || pc.ReReadMarker? || pc.ReReadDomain?
      || pc.MakeStage? || pc.WriteToken? || pc.Claim?)
  }

  predicate OpInv(s: Root, op: NameOp) {
    var fs := s.base.fs;
    match op
    case SetDomain(rec) => fs.domain == Some(rec)
    case SetMarker(None) => fs.domain.Some?
    case SetMarker(Some(m)) => Claimed(fs, m)
    case MoveStage(t, inode) => fs.locks == Some(inode) && Claimed(fs, Rec(t, inode))
    case AddStage(t, _) => t !in s.synced.claims
    case RemoveStage(t) => t in s.base.openers && Late(s.base.openers[t]) && (fs.domain.Some? || t !in fs.claims)
  }

  ghost predicate Snapshot(fs: Fs) {
    fs == EMPTY_ROOT || (FsInv(fs) && fs.claims != map[])
  }

  predicate MarkerPending(ops: seq<NameOp>) {
    exists op :: op in ops && op.SetMarker?
  }

  ghost predicate RecordsInv(s: Root) {
    var fs := s.base.fs;
    && (fs.domain != s.synced.domain ==> fs.domain.Some? && SetDomain(fs.domain.value) in s.pending)
    && (!MarkerPending(s.pending) ==> fs.marker == s.synced.marker)
    && (MarkerPending(s.pending) && s.synced.marker.Some? ==> SetMarker(None) in s.pending)
  }

  ghost predicate RootInv(s: Root) {
    && Inv(s.base) && Snapshot(s.synced) && Since(s.synced, s.base.fs) && RecordsInv(s)
    && (forall op :: op in s.pending ==> OpInv(s, op))
    && (s.syncing != {} ==> s.base.fs.claims != map[])
    && (forall x :: x in s.base.fs.tokens ==> x in s.written && s.written[x] == s.base.fs.tokens[x])
  }

  lemma SinceStep(a: Fs, fs: Fs, i: nat, fs': Fs)
    requires Since(a, fs) && Evolves(fs, i, fs')
    ensures Since(a, fs')
  {
  }

  lemma LateStays(fs: Fs, i: nat, pc: Pc)
    requires !Halted(pc)
    ensures Late(pc) ==> Late(Step(fs, i, pc).1)
    ensures Step(fs, i, pc).0.claims != fs.claims ==> pc.Claim? && fs.marker.None?
  {
  }

  /** A pending operation stays explained when an opener moves. */
  lemma OpStays(s: Root, i: nat, op: NameOp)
    requires Allowed(s, Move(i)) && OpInv(s, op) && Evolves(s.base.fs, i, Next(s.base, Take(i)).fs)
    ensures OpInv(Follow(s, Move(i)), op)
  {
    LateStays(s.base.fs, i, s.base.openers[i]);
  }

  lemma RenamedClaimed(fs: Fs, b: Rec)
    requires FsInv(fs) && Claimed(fs, b) && Renames(fs, b)
    ensures fs.stage[b.token] == b.inode
  {
    RenameFs(fs, b);
  }

  /** The operation an opener issues is explained at once. */
  lemma OpIssued(s: Root, i: nat, op: NameOp)
    requires RootInv(s) && Allowed(s, Move(i)) && op in Issued(s.base.fs, i, s.base.openers[i])
    ensures OpInv(Follow(s, Move(i)), op)
  {
    var fs, pc := s.base.fs, s.base.openers[i];
    assert PcInv(fs, i, pc);
    if pc.RenameStage? {
      RenamedClaimed(fs, pc.b);
    }
  }

  lemma RecordsStay(s: Root, i: nat)
    requires RootInv(s) && Allowed(s, Move(i))
    ensures RecordsInv(Follow(s, Move(i)))
  {
    var fs, pc, s' := s.base.fs, s.base.openers[i], Follow(s, Move(i));
    var ops := Issued(fs, i, pc);
    IssuedIs(fs, i, pc);
    assert forall op :: op in s'.pending <==> op in s.pending || op in ops;
    assert ops != [] ==> ops[0] in ops;
    assert SameNames(s'.base.fs, ApplyIssued(fs, ops));
    RecordsKept(s, s', ops);
  }

  lemma RecordsKept(s: Root, s': Root, ops: seq<NameOp>)
    requires RecordsInv(s) && |ops| <= 1 && s'.synced == s.synced
    requires forall op :: op in s'.pending <==> op in s.pending || op in ops
    requires SameNames(s'.base.fs, ApplyIssued(s.base.fs, ops))
    requires ops != [] && ops[0].SetMarker? && ops[0].m.Some? ==> s.base.fs.marker.None?
    ensures RecordsInv(s')
  {
    if ops != [] {
      assert ops[0] in ops;
    }
  }

  lemma MoveInv(s: Root, i: nat)
    requires RootInv(s) && Allowed(s, Move(i))
    ensures RootInv(Follow(s, Move(i)))
  {
    var s' := Follow(s, Move(i));
    StepInv(s.base, Take(i));
    SinceStep(s.synced, s.base.fs, i, s'.base.fs);
    forall op | op in s'.pending
      ensures OpInv(s', op)
    {
      if op in s.pending {
        OpStays(s, i, op);
      } else {
        OpIssued(s, i, op);
      }
    }
    RecordsStay(s, i);
    SyncingClaims(s, i);
  }

  lemma SyncingClaims(s: Root, i: nat)
    requires RootInv(s) && Allowed(s, Move(i)) && Evolves(s.base.fs, i, Next(s.base, Take(i)).fs)
    ensures Follow(s, Move(i)).syncing != {} ==> Follow(s, Move(i)).base.fs.claims != map[]
  {
    var fs, pc := s.base.fs, s.base.openers[i];
    assert PcInv(fs, i, pc);
    if s.syncing != {} {
      var t :| t in fs.claims;
    } else if Syncs(fs, pc) && !pc.Claim? {
      var b := if pc.Quarantine? then fs.marker.value else pc.b;
      assert Claimed(fs, b);
    }
  }

  lemma SyncInv(s: Root, i: nat)
    requires RootInv(s) && Allowed(s, SyncRoot(i))
    ensures RootInv(Follow(s, SyncRoot(i)))
  {
  }

  lemma BeginInv(s: Root, i: nat)
    requires RootInv(s) && Allowed(s, Begin(i))
    ensures RootInv(Follow(s, Begin(i)))
  {
    var s' := Follow(s, Begin(i));
    StepInv(s.base, Start(i));
    forall op | op in s'.pending
      ensures OpInv(s', op)
    {
      assert OpInv(s, op);
    }
  }

  lemma RootStepInv(s: Root, a: Action)
    requires RootInv(s) && Allowed(s, a)
    ensures RootInv(Follow(s, a))
  {
    match a {
      case Begin(i) => BeginInv(s, i);
      case Move(i) => MoveInv(s, i);
      case SyncRoot(i) => SyncInv(s, i);
    }
  }

  lemma NewRootInv()
    ensures RootInv(NEW_ROOT)
  {
    EmptyInv();
  }

  lemma NextInv(s: Root, a: Action, s': Root)
    requires RootInv(s) && Allowed(s, a) && s' == Follow(s, a)
    ensures RootInv(s')
  {
    RootStepInv(s, a);
  }

  lemma {:induction false} RootRunInv(ss: seq<Root>, es: seq<Action>, n: nat)
    requires RootRun(ss, es) && n <= |es|
    ensures RootInv(ss[n])
  {
    if n == 0 {
      NewRootInv();
    } else {
      RootRunInv(ss, es, n - 1);
      NextInv(ss[n - 1], es[n - 1], ss[n]);
    }
  }
}
