/**
 The multi-process bootstrap that agrees on one lock directory.  Any number of openers
 run it at once over shared names, one file-system call at a time, and any of them may
 stop for good at any point.
 */
module LockBootstrap {
  import opened Common

  /** A bound marker or a domain record; a token names the one opener that generated it. */
  datatype Rec = Rec(token: nat, inode: nat)

  /**
   The artifact root: the domain record, the bootstrap marker, the inode named
   `.artifact-locks`, the staging directories by token, and the token file inside each
   directory inode.  `claims` remembers every marker ever linked.
   */
  datatype Fs = Fs(
    domain: Option<Rec>, marker: Option<Rec>, locks: Option<nat>,
    stage: map<nat, nat>, tokens: map<nat, nat>, nextInode: nat, claims: map<nat, nat>)

  datatype Error =
    | Unproven | Disappeared | RecordDisappeared
    | Substituted | IdentityChanged | TokenChanged | LockRootMissing | RenameRefused

  /** Where an opener goes after removing a marker. */
  datatype After = ToOpen(e: Rec) | ToDrop(e: Rec) | ToFinal(e: Rec)

  /** Why an opener holds a handle on a directory: a durable record or a marker to complete. */
  datatype Goal = Existing(e: Rec) | Fresh(b: Rec)

  datatype Pc =
    | ReadDomain
    | ReadMarker(found: Option<Rec>)
    | LstatLocks
    | ReReadMarker
    | ReReadDomain(m: Option<Rec>)
    | MakeStage
    | WriteToken(ino: nat)
    | Claim(ino: nat)
    | LostReadMarker
    | LostReadDomain
    | CleanToken(b: Rec)
    | CleanDir(b: Rec)
    | CheckDomain(b: Rec, claimed: bool)
    | RemoveMarker(b: Rec, after: After)
    | Quarantine(b: Rec, after: After)
    | Relink(moved: Rec, after: After)
    | DropToken(rec: Rec)
    | DropDir(rec: Rec)
    | OpenStage(b: Rec)
    | CheckToken(b: Rec, ino: nat)
    | LstatPath(b: Rec, ino: nat)
    | RenameStage(b: Rec, ino: nat)
    | RecheckPath(b: Rec, ino: nat)
    | OpenPath(goal: Goal)
    | CheckNamed(ino: nat, goal: Goal)
    | EnsureToken(b: Rec, ino: nat)
    | PublishDomain(b: Rec, ino: nat)
    | PublishLost(b: Rec, ino: nat)
    | Validate(rec: Rec, completing: Option<Rec>, ino: nat)
    | FinalStat(rec: Rec)
    | Done(rec: Rec)
    | Failed(error: Error)

  predicate Halted(pc: Pc) {
    pc.Done? || pc.Failed?
  }

  function Proceed(after: After): Pc {
    match after
    case ToOpen(e) => OpenPath(Existing(e))
    case ToDrop(e) => DropToken(e)
    case ToFinal(e) => FinalStat(e)
  }

  /** The next file-system call of opener `i`. */
  function Step(fs: Fs, i: nat, pc: Pc): (Fs, Pc)
    requires !Halted(pc)
  {
    match pc
    case ReadDomain => (fs, ReadMarker(fs.domain))
    case ReadMarker(e) =>
      (fs, if e.Some? then
         (if fs.marker.Some? then RemoveMarker(fs.marker.value, ToOpen(e.value)) else OpenPath(Existing(e.value)))
       else if fs.marker.Some? then OpenStage(fs.marker.value)
       else LstatLocks)
    case LstatLocks => (fs, if fs.locks.None? then MakeStage else ReReadMarker)
    case ReReadMarker => (fs, ReReadDomain(fs.marker))
    case ReReadDomain(m) =>
      (fs, if fs.domain.Some? then OpenPath(Existing(fs.domain.value))
       else if m.Some? then MakeStage
       else Failed(Unproven))
    case MakeStage =>
      (fs.(stage := fs.stage[i := fs.nextInode], nextInode := fs.nextInode + 1), WriteToken(fs.nextInode))
    case WriteToken(ino) => (fs.(tokens := fs.tokens[ino := i]), Claim(ino))
    case Claim(ino) =>
      if fs.marker.None?
      then (fs.(marker := Some(Rec(i, ino)), claims := fs.claims[i := ino]), CheckDomain(Rec(i, ino), true))
      else (fs, LostReadMarker)
    case LostReadMarker => (fs, if fs.marker.Some? then CleanToken(fs.marker.value) else LostReadDomain)
    case LostReadDomain => (fs, if fs.domain.Some? then CleanToken(fs.domain.value) else Failed(Disappeared))
    case CleanToken(b) => (RemoveStagedToken(fs, i), CleanDir(b))
    case CleanDir(b) => (fs.(stage := fs.stage - {i}), CheckDomain(b, false))
    case CheckDomain(b, claimed) =>
      (fs, if fs.domain.Some?
       then RemoveMarker(b, if claimed then ToDrop(fs.domain.value) else ToOpen(fs.domain.value))
       else if claimed then CheckToken(b, b.inode)
       else OpenStage(b))
    case RemoveMarker(b, after) => (fs, if fs.marker == Some(b) then Quarantine(b, after) else Proceed(after))
    case Quarantine(b, after) =>
      if fs.marker.None? then (fs, Proceed(after))
      else (fs.(marker := None), if fs.marker.value == b then Proceed(after) else Relink(fs.marker.value, after))
    case Relink(moved, after) => (if fs.marker.None? then fs.(marker := Some(moved)) else fs, Proceed(after))
    case DropToken(e) => (RemoveStagedToken(fs, i), DropDir(e))
    case DropDir(e) => (fs.(stage := fs.stage - {i}), OpenPath(Existing(e)))
    case OpenStage(b) =>
      (fs, if b.token in fs.stage then CheckToken(b, fs.stage[b.token]) else OpenPath(Fresh(b)))
    case CheckToken(b, ino) =>
      (fs, if ino != b.inode then Failed(IdentityChanged)
       else if ino in fs.tokens && fs.tokens[ino] == b.token then LstatPath(b, ino)
       else Failed(TokenChanged))
    case LstatPath(b, ino) =>
      (fs, if fs.locks.None? then RenameStage(b, ino)
       else if fs.locks.value == ino then CheckNamed(ino, Fresh(b))
       else Failed(Substituted))
    case RenameStage(b, ino) =>
      if b.token !in fs.stage then (fs, RecheckPath(b, ino))
      else if fs.locks.Some? && fs.locks.value in fs.tokens then (fs, Failed(RenameRefused))
      else (fs.(locks := Some(fs.stage[b.token]), stage := fs.stage - {b.token}), CheckNamed(ino, Fresh(b)))
    case RecheckPath(b, ino) => (fs, if fs.locks == Some(ino) then CheckNamed(ino, Fresh(b)) else Failed(Substituted))
    case OpenPath(goal) => (fs, if fs.locks.Some? then CheckNamed(fs.locks.value, goal) else Failed(LockRootMissing))
    case CheckNamed(ino, goal) =>
      (fs, if fs.locks != Some(ino) then Failed(IdentityChanged)
       else match goal
         case Existing(e) => Validate(e, None, ino)
         case Fresh(b) => if b.inode == ino then EnsureToken(b, ino) else Failed(IdentityChanged))
    case EnsureToken(b, ino) =>
      if ino !in fs.tokens then (fs.(tokens := fs.tokens[ino := b.token]), PublishDomain(b, ino))
      else (fs, if fs.tokens[ino] == b.token then PublishDomain(b, ino) else Failed(TokenChanged))
    case PublishDomain(b, ino) =>
      if fs.domain.None?
      then (fs.(domain := Some(Rec(b.token, ino))), Validate(Rec(b.token, ino), Some(b), ino))
      else (fs, PublishLost(b, ino))
    case PublishLost(b, ino) =>
      (fs, if fs.domain.Some? then Validate(fs.domain.value, Some(b), ino) else Failed(RecordDisappeared))
    case Validate(rec, b, ino) =>
      (fs, if ino !in fs.tokens || fs.tokens[ino] != rec.token || ino != rec.inode then Failed(IdentityChanged)
       else if b.None? then FinalStat(rec)
       else if b.value != rec && fs.domain != Some(rec) then Failed(IdentityChanged)
       else RemoveMarker(b.value, ToFinal(rec)))
    case FinalStat(rec) => (fs, if fs.locks == Some(rec.inode) then Done(rec) else Failed(IdentityChanged))
  }

  /** Removing a staging directory first removes the token inside it, both by name. */
  function RemoveStagedToken(fs: Fs, i: nat): Fs {
    if i in fs.stage then fs.(tokens := fs.tokens - {fs.stage[i]}) else fs
  }

  // ----- runs

  datatype State = State(fs: Fs, openers: map<nat, Pc>)

  datatype Event = Start(i: nat) | Take(i: nat)

  predicate Enabled(s: State, e: Event) {
    match e
    case Start(i) => i !in s.openers
    case Take(i) => i in s.openers && !Halted(s.openers[i])
  }

  function Next(s: State, e: Event): State
    requires Enabled(s, e)
  {
    match e
    case Start(i) => s.(openers := s.openers[i := ReadDomain])
    case Take(i) =>
      var (fs, pc) := Step(s.fs, i, s.openers[i]);
      State(fs, s.openers[i := pc])
  }

  const EMPTY_ROOT := Fs(None, None, None, map[], map[], 0, map[])

  ghost predicate Run(ss: seq<State>, es: seq<Event>) {
    && |ss| == |es| + 1 && ss[0] == State(EMPTY_ROOT, map[])
    && forall n {:trigger es[n]} :: 0 <= n < |es| ==> Enabled(ss[n], es[n]) && ss[n + 1] == Next(ss[n], es[n])
  }

  // ----- invariant

  predicate Claimed(fs: Fs, b: Rec) {
    b.token in fs.claims && fs.claims[b.token] == b.inode
  }

  /** The marker's directory is waiting under its staging name or already in place. */
  predicate Ready(fs: Fs, m: Rec) {
    && m.inode in fs.tokens && fs.tokens[m.inode] == m.token
    && if fs.locks.Some? then fs.locks.value == m.inode && m.token !in fs.stage
       else m.token in fs.stage && fs.stage[m.token] == m.inode
  }

  ghost predicate FsInv(fs: Fs) {
    && (fs.domain.Some? ==>
          var d := fs.domain.value;
          fs.locks == Some(d.inode) && d.inode in fs.tokens && fs.tokens[d.inode] == d.token)
    && (fs.locks.Some? ==>
          var x := fs.locks.value;
          x in fs.tokens && Claimed(fs, Rec(fs.tokens[x], x)) && x < fs.nextInode)
    && (fs.claims != map[] ==> fs.marker.Some? || fs.domain.Some?)
    && (fs.marker.Some? ==> Claimed(fs, fs.marker.value))
    && (fs.domain.None? ==> forall t :: t in fs.claims ==> fs.marker == Some(Rec(t, fs.claims[t])))
    && (fs.domain.None? && fs.marker.Some? ==> Ready(fs, fs.marker.value))
    && (forall t :: t in fs.stage ==> fs.stage[t] < fs.nextInode && fs.locks != Some(fs.stage[t]))
    && (forall t, u :: t in fs.stage && u in fs.stage && t != u ==> fs.stage[t] != fs.stage[u])
  }

  ghost predicate PcInv(fs: Fs, i: nat, pc: Pc) {
    match pc
    case ReadDomain => i !in fs.stage && i !in fs.claims
    case ReadMarker(e) => i !in fs.stage && i !in fs.claims && (e.Some? ==> fs.domain == e)
    case LstatLocks => i !in fs.stage && i !in fs.claims
    case ReReadMarker => i !in fs.stage && i !in fs.claims && fs.locks.Some?
    case ReReadDomain(m) => i !in fs.stage && i !in fs.claims && (m.None? ==> fs.domain.Some?)
    case MakeStage => i !in fs.stage && i !in fs.claims
    case WriteToken(ino) => i !in fs.claims && i in fs.stage && fs.stage[i] == ino
    case Claim(ino) =>
      i !in fs.claims && i in fs.stage && fs.stage[i] == ino && ino in fs.tokens && fs.tokens[ino] == i
    case LostReadMarker => i !in fs.claims && fs.claims != map[]
    case LostReadDomain => i !in fs.claims && fs.domain.Some?
    case CleanToken(b) => i !in fs.claims && Claimed(fs, b)
    case CleanDir(b) => i !in fs.claims && Claimed(fs, b)
    case CheckDomain(b, claimed) => Claimed(fs, b)
    case RemoveMarker(b, after) => fs.domain == Some(after.e)
    case Quarantine(b, after) => fs.domain == Some(after.e)
    case Relink(moved, after) => fs.domain == Some(after.e) && Claimed(fs, moved)
    case DropToken(e) => fs.domain == Some(e)
    case DropDir(e) => fs.domain == Some(e)
    case OpenStage(b) => Claimed(fs, b)
    case CheckToken(b, ino) => Claimed(fs, b) && (fs.domain.Some? || ino == b.inode)
    case LstatPath(b, ino) => Claimed(fs, b) && ino == b.inode
    case RenameStage(b, ino) => Claimed(fs, b) && ino == b.inode
    case RecheckPath(b, ino) => Claimed(fs, b) && ino == b.inode && (fs.domain.Some? || fs.locks == Some(ino))
    case OpenPath(goal) =>
      (match goal
       case Existing(e) => fs.domain == Some(e)
       case Fresh(b) => Claimed(fs, b) && (fs.domain.Some? || fs.locks == Some(b.inode)))
    case CheckNamed(ino, goal) =>
      (match goal
       case Existing(e) => fs.domain == Some(e)
       case Fresh(b) => Claimed(fs, b) && (fs.domain.Some? || (fs.locks == Some(ino) && ino == b.inode)))
    case EnsureToken(b, ino) => Claimed(fs, b) && fs.locks == Some(ino) && ino == b.inode
    case PublishDomain(b, ino) =>
      Claimed(fs, b) && fs.locks == Some(ino) && ino == b.inode && ino in fs.tokens && fs.tokens[ino] == b.token
    case PublishLost(b, ino) => fs.domain.Some?
    case Validate(rec, b, ino) => fs.domain == Some(rec)
    case FinalStat(rec) => fs.domain == Some(rec)
    case Done(rec) => fs.domain == Some(rec)
    case Failed(error) => fs.domain.Some? && error !in {Unproven, Disappeared, RecordDisappeared}
  }

  ghost predicate Inv(s: State) {
    && FsInv(s.fs)
    && (forall i :: i in s.openers ==> PcInv(s.fs, i, s.openers[i]))
    && (forall i :: i in s.fs.stage || i in s.fs.claims ==> i in s.openers)
  }

  /** What the other openers may rely on when opener `i` takes a step. */
  ghost predicate Evolves(fs: Fs, i: nat, fs': Fs) {
    && (fs.domain.Some? ==> fs'.domain == fs.domain)
    && (fs.locks.Some? ==>
          fs'.locks == fs.locks
          && (fs.locks.value in fs.tokens ==>
                fs.locks.value in fs'.tokens && fs'.tokens[fs.locks.value] == fs.tokens[fs.locks.value]))
    && (forall t :: t in fs.claims ==> t in fs'.claims && fs'.claims[t] == fs.claims[t])
    && (forall t :: t in fs'.claims && t !in fs.claims ==> t == i)
    && (forall j :: j != i && j !in fs.claims ==> (j in fs.stage <==> j in fs'.stage))
    && (forall j :: j != i && j !in fs.claims && j in fs.stage ==>
          && fs'.stage[j] == fs.stage[j]
          && (fs.stage[j] in fs.tokens ==>
                fs.stage[j] in fs'.tokens && fs'.tokens[fs.stage[j]] == fs.tokens[fs.stage[j]]))
  }

  /** A step of opener `i` keeps the shared invariant, its own, and what the others rely on. */
  ghost predicate Keeps(fs: Fs, i: nat, pc: Pc)
    requires !Halted(pc)
  {
    var r := Step(fs, i, pc);
    FsInv(r.0) && PcInv(r.0, i, r.1) && Evolves(fs, i, r.0)
  }

  predicate EarlyRead(pc: Pc) {
    pc.ReadDomain? || pc.ReadMarker? || pc.LstatLocks? || pc.ReReadMarker? || pc.ReReadDomain? || pc.LostReadMarker?
    || pc.LostReadDomain? || pc.CheckDomain?
  }

  predicate LateRead(pc: Pc) {
    pc.OpenStage? || pc.CheckToken? || pc.LstatPath?
  }

  predicate NamedRead(pc: Pc) {
    pc.RecheckPath? || pc.OpenPath? || pc.CheckNamed?
  }

  predicate FinalRead(pc: Pc) {
    pc.RemoveMarker? || pc.PublishLost? || pc.Validate? || pc.FinalStat?
  }

  lemma EarlyReadStep(fs: Fs, i: nat, pc: Pc)
    requires FsInv(fs) && PcInv(fs, i, pc) && EarlyRead(pc)
    ensures Step(fs, i, pc).0 == fs && PcInv(fs, i, Step(fs, i, pc).1)
  {
  }

  lemma LateReadStep(fs: Fs, i: nat, pc: Pc)
    requires FsInv(fs) && PcInv(fs, i, pc) && LateRead(pc)
    ensures Step(fs, i, pc).0 == fs && PcInv(fs, i, Step(fs, i, pc).1)
  {
  }

  lemma NamedReadStep(fs: Fs, i: nat, pc: Pc)
    requires FsInv(fs) && PcInv(fs, i, pc) && NamedRead(pc)
    ensures Step(fs, i, pc).0 == fs && PcInv(fs, i, Step(fs, i, pc).1)
  {
  }

  lemma FinalReadStep(fs: Fs, i: nat, pc: Pc)
    requires FsInv(fs) && PcInv(fs, i, pc) && FinalRead(pc)
    ensures Step(fs, i, pc).0 == fs && PcInv(fs, i, Step(fs, i, pc).1)
  {
  }

  lemma MakeStageStep(fs: Fs, i: nat, pc: Pc)
    requires FsInv(fs) && PcInv(fs, i, pc) && (pc.MakeStage?)
    ensures Keeps(fs, i, pc)
  {
  }

  lemma WriteTokenStep(fs: Fs, i: nat, pc: Pc)
    requires FsInv(fs) && PcInv(fs, i, pc) && (pc.WriteToken?)
    ensures Keeps(fs, i, pc)
  {
  }

  lemma ClaimStep(fs: Fs, i: nat, pc: Pc)
    requires FsInv(fs) && PcInv(fs, i, pc) && (pc.Claim?)
    ensures Keeps(fs, i, pc)
  {
  }

  lemma RemoveTokenStep(fs: Fs, i: nat, pc: Pc)
    requires FsInv(fs) && PcInv(fs, i, pc) && (pc.CleanToken? || pc.DropToken?)
    ensures Keeps(fs, i, pc)
  {
  }

  lemma RemoveDirStep(fs: Fs, i: nat, pc: Pc)
    requires FsInv(fs) && PcInv(fs, i, pc) && (pc.CleanDir? || pc.DropDir?)
    ensures Keeps(fs, i, pc)
  {
  }

  lemma QuarantineStep(fs: Fs, i: nat, pc: Pc)
    requires FsInv(fs) && PcInv(fs, i, pc) && (pc.Quarantine?)
    ensures Keeps(fs, i, pc)
  {
  }

  lemma RelinkStep(fs: Fs, i: nat, pc: Pc)
    requires FsInv(fs) && PcInv(fs, i, pc) && (pc.Relink?)
    ensures Keeps(fs, i, pc)
  {
  }

  /** Without a domain record the one marker's directory is staged under its token. */
  lemma RenameFs(fs: Fs, b: Rec)
    requires FsInv(fs) && Claimed(fs, b) && b.token in fs.stage
    requires fs.locks.None? || fs.locks.value !in fs.tokens
    ensures fs.stage[b.token] == b.inode && fs.locks.None?
    ensures FsInv(fs.(locks := Some(fs.stage[b.token]), stage := fs.stage - {b.token}))
  {
    assert fs.domain.None?;
    assert fs.marker == Some(b);
  }

  lemma RenameStep(fs: Fs, i: nat, pc: Pc)
    requires FsInv(fs) && PcInv(fs, i, pc) && pc.RenameStage?
    ensures Keeps(fs, i, pc)
  {
    var b := pc.b;
    if b.token in fs.stage && (fs.locks.None? || fs.locks.value !in fs.tokens) {
      RenameFs(fs, b);
    }
  }

  lemma EnsureTokenStep(fs: Fs, i: nat, pc: Pc)
    requires FsInv(fs) && PcInv(fs, i, pc) && pc.EnsureToken?
    ensures Step(fs, i, pc).0 == fs && PcInv(fs, i, Step(fs, i, pc).1)
  {
  }

  lemma PublishStep(fs: Fs, i: nat, pc: Pc)
    requires FsInv(fs) && PcInv(fs, i, pc) && pc.PublishDomain?
    ensures Keeps(fs, i, pc)
  {
  }

  lemma OwnStep(fs: Fs, i: nat, pc: Pc)
    requires FsInv(fs) && PcInv(fs, i, pc) && !Halted(pc)
    ensures Keeps(fs, i, pc)
  {
    if EarlyRead(pc) {
      EarlyReadStep(fs, i, pc);
    } else if LateRead(pc) {
      LateReadStep(fs, i, pc);
    } else if NamedRead(pc) {
      NamedReadStep(fs, i, pc);
    } else if FinalRead(pc) {
      FinalReadStep(fs, i, pc);
    } else if pc.MakeStage? {
      MakeStageStep(fs, i, pc);
    } else if pc.WriteToken? {
      WriteTokenStep(fs, i, pc);
    } else if pc.Claim? {
      ClaimStep(fs, i, pc);
    } else if pc.CleanToken? || pc.DropToken? {
      RemoveTokenStep(fs, i, pc);
    } else if pc.CleanDir? || pc.DropDir? {
      RemoveDirStep(fs, i, pc);
    } else if pc.Quarantine? {
      QuarantineStep(fs, i, pc);
    } else if pc.Relink? {
      RelinkStep(fs, i, pc);
    } else if pc.RenameStage? {
      RenameStep(fs, i, pc);
    } else if pc.EnsureToken? {
      EnsureTokenStep(fs, i, pc);
    } else {
      PublishStep(fs, i, pc);
    }
  }

  lemma Stable(fs: Fs, i: nat, fs': Fs, j: nat, pc: Pc)
    requires FsInv(fs) && FsInv(fs') && Evolves(fs, i, fs') && i != j && PcInv(fs, j, pc)
    ensures PcInv(fs', j, pc)
  {
  }

  lemma StepInv(s: State, e: Event)
    requires Inv(s) && Enabled(s, e)
    ensures Inv(Next(s, e))
    ensures e.Take? ==> Evolves(s.fs, e.i, Next(s, e).fs)
  {
    if e.Take? {
      OwnStep(s.fs, e.i, s.openers[e.i]);
      var fs' := Next(s, e).fs;
      forall j | j in s.openers && j != e.i
        ensures PcInv(fs', j, s.openers[j])
      {
        Stable(s.fs, e.i, fs', j, s.openers[j]);
      }
      StagesOwned(s.fs, e.i, s.openers[e.i]);
    }
  }

  lemma StagesOwned(fs: Fs, i: nat, pc: Pc)
    requires !Halted(pc)
    ensures var fs' := Step(fs, i, pc).0;
            forall t :: t in fs'.stage || t in fs'.claims ==> t in fs.stage || t in fs.claims || t == i
  {
  }

  lemma NextInv(s: State, e: Event, s': State)
    requires Inv(s) && Enabled(s, e) && s' == Next(s, e)
    ensures Inv(s')
  {
    StepInv(s, e);
  }

  lemma EmptyInv()
    ensures Inv(State(EMPTY_ROOT, map[]))
  {
  }

  lemma {:induction false} RunInv(ss: seq<State>, es: seq<Event>, n: nat)
    requires Run(ss, es) && n <= |es|
    ensures Inv(ss[n])
  {
    if n == 0 {
      EmptyInv();
    } else {
      RunInv(ss, es, n - 1);
      NextInv(ss[n - 1], es[n - 1], ss[n]);
    }
  }

  // ----- main results

  lemma HaltedFacts(s: State, i: nat)
    requires Inv(s) && i in s.openers
    ensures s.openers[i].Done? ==>
              s.fs.domain == Some(s.openers[i].rec) && s.fs.locks == Some(s.openers[i].rec.inode)
    ensures s.openers[i].Failed? ==>
              s.fs.domain.Some? && s.openers[i].error !in {Unproven, Disappeared, RecordDisappeared}
  {
    var pc := s.openers[i];
    assert PcInv(s.fs, i, pc);
  }

  lemma FsStep(s: State, e: Event)
    requires Inv(s) && Enabled(s, e)
    ensures var fs, fs' := s.fs, Next(s, e).fs;
            && (fs.domain.Some? ==> fs'.domain == fs.domain) && (fs.locks.Some? ==> fs'.locks == fs.locks)
            && (fs.marker.Some? && fs'.marker != fs.marker ==> fs.domain.Some?)
  {
    if e.Take? {
      OwnStep(s.fs, e.i, s.openers[e.i]);
      MarkerHeld(s.fs, Next(s, e).fs, e.i);
      OneRecord(s.fs, e.i, s.openers[e.i]);
    }
  }

  lemma MarkerHeld(fs: Fs, fs': Fs, i: nat)
    requires FsInv(fs) && FsInv(fs') && Evolves(fs, i, fs')
    ensures fs.marker.Some? && fs'.marker != fs.marker && fs.domain.None? ==> fs'.domain.Some?
  {
  }

  /** No call changes both records. */
  lemma OneRecord(fs: Fs, i: nat, pc: Pc)
    requires !Halted(pc)
    ensures var fs' := Step(fs, i, pc).0; fs'.domain == fs.domain || fs'.marker == fs.marker
  {
  }

  lemma RunStep(ss: seq<State>, es: seq<Event>, n: nat)
    requires Run(ss, es) && n < |es|
    ensures var fs, fs' := ss[n].fs, ss[n + 1].fs;
            && (fs.domain.Some? ==> fs'.domain == fs.domain) && (fs.locks.Some? ==> fs'.locks == fs.locks)
            && (fs.marker.Some? && fs'.marker != fs.marker ==> fs.domain.Some?)
  {
    RunInv(ss, es, n);
    FsStep(ss[n], es[n]);
  }

  /** A published domain record, and the inode named `.artifact-locks`, never change again. */
  lemma {:induction false} DomainPermanent(ss: seq<State>, es: seq<Event>, n: nat, m: nat)
    requires Run(ss, es) && n <= m <= |es|
    ensures ss[n].fs.domain.Some? ==> ss[m].fs.domain == ss[n].fs.domain
    ensures ss[n].fs.locks.Some? ==> ss[m].fs.locks == ss[n].fs.locks
    decreases m
  {
    if n < m {
      DomainPermanent(ss, es, n, m - 1);
      RunStep(ss, es, m - 1);
    }
  }

  /**
   Agreement: any two openers that return, at any two points of the run, hold the same
   token and the same inode, and that inode is and stays the one named `.artifact-locks`.
   */
  lemma Agreement(ss: seq<State>, es: seq<Event>, n: nat, m: nat, i: nat, j: nat)
    requires Run(ss, es) && n <= m <= |es| && i in ss[n].openers && j in ss[m].openers
    requires ss[n].openers[i].Done? && ss[m].openers[j].Done?
    ensures ss[n].openers[i].rec == ss[m].openers[j].rec
    ensures ss[m].fs.domain == Some(ss[n].openers[i].rec) && ss[m].fs.locks == Some(ss[n].openers[i].rec.inode)
  {
    RunInv(ss, es, n);
    HaltedFacts(ss[n], i);
    RunInv(ss, es, m);
    HaltedFacts(ss[m], j);
    DomainPermanent(ss, es, n, m);
  }

  /** A marker vanishes only while the domain record is there to take its place. */
  lemma MarkerOnlyAfterDomain(ss: seq<State>, es: seq<Event>, n: nat)
    requires Run(ss, es) && n < |es| && ss[n].fs.marker.Some? && ss[n + 1].fs.marker != ss[n].fs.marker
    ensures ss[n].fs.domain.Some?
  {
    RunStep(ss, es, n);
  }

  /**
   The errors "unproven without a durable bootstrap marker", "disappeared during
   arbitration" and "disappeared during publication" never happen, and any other failure
   happens only after some opener has already published the domain.
   */
  lemma FailureOnlyAfterSuccess(ss: seq<State>, es: seq<Event>, n: nat, i: nat)
    requires Run(ss, es) && n <= |es| && i in ss[n].openers && ss[n].openers[i].Failed?
    ensures ss[n].openers[i].error !in {Unproven, Disappeared, RecordDisappeared}
    ensures ss[n].fs.domain.Some?
  {
    RunInv(ss, es, n);
    HaltedFacts(ss[n], i);
  }

  // ----- a lone opener

  /** Opener `i` takes up to n steps while nobody else moves. */
  function Alone(fs: Fs, i: nat, pc: Pc, n: nat): (Fs, Pc)
    decreases n
  {
    if n == 0 || Halted(pc) then (fs, pc)
    else
      var (fs', pc') := Step(fs, i, pc);
      Alone(fs', i, pc', n - 1)
  }

  ghost predicate Pending(fs: Fs, b: Rec) {
    fs.domain.None? && fs.marker == Some(b)
  }

  ghost predicate Settled(fs: Fs, e: Rec) {
    fs.domain == Some(e) && fs.marker.None?
  }

  ghost predicate SoloInv(fs: Fs, i: nat, pc: Pc) {
    match pc
    case ReadDomain => i !in fs.stage && i !in fs.claims
    case ReadMarker(e) => i !in fs.stage && i !in fs.claims && e == fs.domain
    case LstatLocks => i !in fs.stage && i !in fs.claims && fs.domain.None? && fs.marker.None?
    case MakeStage => i !in fs.stage && i !in fs.claims && fs.domain.None? && fs.marker.None?
    case WriteToken(ino) => PcInv(fs, i, pc) && fs.domain.None? && fs.marker.None?
    case Claim(ino) => PcInv(fs, i, pc) && fs.domain.None? && fs.marker.None?
    case CheckDomain(b, claimed) => claimed && Pending(fs, b)
    case OpenStage(b) => Pending(fs, b)
    case CheckToken(b, ino) => Pending(fs, b) && ino == b.inode
    case LstatPath(b, ino) => Pending(fs, b) && ino == b.inode
    case RenameStage(b, ino) => Pending(fs, b) && ino == b.inode && fs.locks.None?
    case OpenPath(Existing(e)) => Settled(fs, e)
    case OpenPath(Fresh(b)) => Pending(fs, b) && fs.locks == Some(b.inode)
    case CheckNamed(ino, Existing(e)) => Settled(fs, e) && fs.locks == Some(ino)
    case CheckNamed(ino, Fresh(b)) => Pending(fs, b) && fs.locks == Some(ino) && ino == b.inode
    case EnsureToken(b, ino) => Pending(fs, b) && fs.locks == Some(ino) && ino == b.inode
    case PublishDomain(b, ino) => PcInv(fs, i, pc) && Pending(fs, b)
    case Validate(rec, c, ino) =>
      fs.domain == Some(rec) && ino == rec.inode && fs.marker == c && (c.Some? ==> c.value == rec)
    case RemoveMarker(b, after) => fs.domain == Some(after.e) && fs.marker == Some(b) && !after.ToDrop?
    case Quarantine(b, after) => fs.domain == Some(after.e) && fs.marker == Some(b) && !after.ToDrop?
    case FinalStat(rec) => Settled(fs, rec)
    case Done(rec) => Settled(fs, rec)
    case _ => false
  }

  /** Steps left to a lone opener. */
  function Rank(pc: Pc): nat {
    match pc
    case ReadDomain => 24
    case ReadMarker(_) => 23
    case LstatLocks => 22
    case MakeStage => 21
    case WriteToken(_) => 20
    case Claim(_) => 19
    case CheckDomain(_, _) => 18
    case OpenStage(_) => 17
    case CheckToken(_, _) => 16
    case LstatPath(_, _) => 15
    case RenameStage(_, _) => 14
    case OpenPath(Fresh(_)) => 14
    case CheckNamed(_, Fresh(_)) => 13
    case EnsureToken(_, _) => 12
    case PublishDomain(_, _) => 11
    case Validate(_, Some(_), _) => 10
    case RemoveMarker(_, ToOpen(_)) => 9
    case Quarantine(_, ToOpen(_)) => 8
    case OpenPath(Existing(_)) => 7
    case CheckNamed(_, Existing(_)) => 6
    case Validate(_, None, _) => 5
    case RemoveMarker(_, _) => 4
    case Quarantine(_, _) => 3
    case FinalStat(_) => 2
    case _ => 0
  }

  /** A lone opener's step keeps its invariant and brings it closer to the end. */
  ghost predicate Advances(fs: Fs, i: nat, pc: Pc)
    requires !Halted(pc)
  {
    var r := Step(fs, i, pc);
    SoloInv(r.0, i, r.1) && Rank(r.1) < Rank(pc)
  }

  lemma SoloStart(fs: Fs, i: nat, pc: Pc)
    requires FsInv(fs) && SoloInv(fs, i, pc) && (pc.ReadDomain? || pc.ReadMarker? || pc.LstatLocks? || pc.MakeStage?)
    ensures Advances(fs, i, pc)
  {
  }

  lemma SoloClaim(fs: Fs, i: nat, pc: Pc)
    requires FsInv(fs) && SoloInv(fs, i, pc) && (pc.WriteToken? || pc.Claim? || pc.CheckDomain?)
    ensures Advances(fs, i, pc)
  {
  }

  lemma SoloStage(fs: Fs, i: nat, pc: Pc)
    requires FsInv(fs) && SoloInv(fs, i, pc) && (pc.OpenStage? || pc.CheckToken? || pc.LstatPath? || pc.RenameStage?)
    ensures Advances(fs, i, pc)
  {
  }

  lemma SoloOpen(fs: Fs, i: nat, pc: Pc)
    requires FsInv(fs) && SoloInv(fs, i, pc) && (pc.OpenPath? || pc.CheckNamed?)
    ensures Advances(fs, i, pc)
  {
  }

  lemma SoloPublish(fs: Fs, i: nat, pc: Pc)
    requires FsInv(fs) && SoloInv(fs, i, pc) && (pc.EnsureToken? || pc.PublishDomain?)
    ensures Advances(fs, i, pc)
  {
  }

  lemma SoloUnmark(fs: Fs, i: nat, pc: Pc)
    requires FsInv(fs) && SoloInv(fs, i, pc) && (pc.RemoveMarker? || pc.Quarantine?)
    ensures Advances(fs, i, pc)
  {
  }

  lemma SoloFinish(fs: Fs, i: nat, pc: Pc)
    requires FsInv(fs) && SoloInv(fs, i, pc) && (pc.Validate? || pc.FinalStat?)
    ensures Advances(fs, i, pc)
  {
  }

  lemma SoloStep(fs: Fs, i: nat, pc: Pc)
    requires FsInv(fs) && SoloInv(fs, i, pc) && !Halted(pc)
    ensures Advances(fs, i, pc)
  {
    if pc.ReadDomain? || pc.ReadMarker? || pc.LstatLocks? || pc.MakeStage? {
      SoloStart(fs, i, pc);
    } else if pc.WriteToken? || pc.Claim? || pc.CheckDomain? {
      SoloClaim(fs, i, pc);
    } else if pc.OpenStage? || pc.CheckToken? || pc.LstatPath? || pc.RenameStage? {
      SoloStage(fs, i, pc);
    } else if pc.OpenPath? || pc.CheckNamed? {
      SoloOpen(fs, i, pc);
    } else if pc.EnsureToken? || pc.PublishDomain? {
      SoloPublish(fs, i, pc);
    } else if pc.RemoveMarker? || pc.Quarantine? {
      SoloUnmark(fs, i, pc);
    } else {
      SoloFinish(fs, i, pc);
    }
  }

  lemma {:induction false} AloneSucceeds(fs: Fs, i: nat, pc: Pc, n: nat)
    requires FsInv(fs) && SoloInv(fs, i, pc) && PcInv(fs, i, pc) && Rank(pc) <= n
    ensures var (fs', pc') := Alone(fs, i, pc, n);
            FsInv(fs') && pc'.Done? && Settled(fs', pc'.rec)
    decreases n
  {
    if !Halted(pc) {
      SoloStep(fs, i, pc);
      OwnStep(fs, i, pc);
      var (fs', pc') := Step(fs, i, pc);
      AloneSucceeds(fs', i, pc', n - 1);
    }
  }

  /**
   Recovery: from every state any interleaving of openers can stop in, a new opener that
   runs alone succeeds within 24 file-system calls, leaves the record of an earlier
   success unchanged, and leaves no marker behind.
   */
  lemma LoneOpenerSucceeds(ss: seq<State>, es: seq<Event>, n: nat, i: nat)
    requires Run(ss, es) && n <= |es| && i !in ss[n].openers
    ensures var (fs, pc) := Alone(ss[n].fs, i, ReadDomain, 24);
            && pc.Done? && fs.domain == Some(pc.rec) && fs.locks == Some(pc.rec.inode) && fs.marker.None?
            && (ss[n].fs.domain.Some? ==> ss[n].fs.domain == Some(pc.rec))
  {
    RunInv(ss, es, n);
    AloneSucceeds(ss[n].fs, i, ReadDomain, 24);
    AloneKeepsDomain(ss[n].fs, i, ReadDomain, 24);
  }

  lemma {:induction false} AloneKeepsDomain(fs: Fs, i: nat, pc: Pc, n: nat)
    requires FsInv(fs) && PcInv(fs, i, pc)
    ensures fs.domain.Some? ==> Alone(fs, i, pc, n).0.domain == fs.domain
    decreases n
  {
    if n > 0 && !Halted(pc) {
      OwnStep(fs, i, pc);
      var (fs', pc') := Step(fs, i, pc);
      AloneKeepsDomain(fs', i, pc', n - 1);
    }
  }
}
