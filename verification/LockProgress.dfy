/**
 Whether an opener of the lock root gets through: how many accesses it needs, exactly when it
 fails, and that an opener which returns leaves nothing of its own behind.
 */
module LockProgress {
  import opened Common
  import opened LockBootstrap

  // ----- accesses left

  function LeftAfter(after: After): nat {
    match after
    case ToFinal(_) => 1
    case ToOpen(_) => 4
    case ToDrop(_) => 6
  }

  /** The most accesses an opener at `pc` can still make. */
  function Left(pc: Pc): nat {
    match pc
    case ReadDomain => 27
    case ReadMarker(_) => 26
    case LstatLocks => 25
    case ReReadMarker => 24
    case ReReadDomain(_) => 23
    case MakeStage => 22
    case WriteToken(_) => 21
    case Claim(_) => 20
    case LostReadMarker => 19
    case LostReadDomain => 18
    case CleanToken(_) => 17
    case CleanDir(_) => 16
    case CheckDomain(_, _) => 15
    case OpenStage(_) => 14
    case CheckToken(_, _) => 13
    case LstatPath(_, _) => 12
    case RenameStage(_, _) => 11
    case RecheckPath(_, _) => 10
    case OpenPath(Fresh(_)) => 10
    case CheckNamed(_, Fresh(_)) => 9
    case EnsureToken(_, _) => 8
    case PublishDomain(_, _) => 7
    case PublishLost(_, _) => 6
    case Validate(_, Some(_), _) => 5
    case RemoveMarker(_, after) => LeftAfter(after) + 3
    case Quarantine(_, after) => LeftAfter(after) + 2
    case Relink(_, after) => LeftAfter(after) + 1
    case DropToken(_) => 6
    case DropDir(_) => 5
    case OpenPath(Existing(_)) => 4
    case CheckNamed(_, Existing(_)) => 3
    case Validate(_, None, _) => 2
    case FinalStat(_) => 1
    case Done(_) => 0
    case Failed(_) => 0
  }

  predicate Reads(pc: Pc) {
    EarlyRead(pc) || LateRead(pc) || NamedRead(pc) || FinalRead(pc)
  }

  lemma EarlyShortens(fs: Fs, i: nat, pc: Pc)
    requires EarlyRead(pc)
    ensures Left(Step(fs, i, pc).1) < Left(pc)
  {
  }

  lemma LateShortens(fs: Fs, i: nat, pc: Pc)
    requires LateRead(pc) || NamedRead(pc)
    ensures Left(Step(fs, i, pc).1) < Left(pc)
  {
  }

  lemma FinalShortens(fs: Fs, i: nat, pc: Pc)
    requires FinalRead(pc)
    ensures Left(Step(fs, i, pc).1) < Left(pc)
  {
  }

  lemma ChangeShortens(fs: Fs, i: nat, pc: Pc)
    requires !Halted(pc) && !Reads(pc)
    ensures Left(Step(fs, i, pc).1) < Left(pc)
  {
  }

  /** Whatever the others have done to the files, one access brings an opener nearer its end. */
  lemma Shortens(fs: Fs, i: nat, pc: Pc)
    requires !Halted(pc)
    ensures Left(Step(fs, i, pc).1) < Left(pc)
  {
    if EarlyRead(pc) {
      EarlyShortens(fs, i, pc);
    } else if FinalRead(pc) {
      FinalShortens(fs, i, pc);
    } else if Reads(pc) {
      LateShortens(fs, i, pc);
    } else {
      ChangeShortens(fs, i, pc);
    }
  }

  function Taken(es: seq<Event>, i: nat, n: nat): nat
    requires n <= |es|
  {
    if n == 0 then 0 else Taken(es, i, n - 1) + if es[n - 1] == Take(i) then 1 else 0
  }

  lemma TakeNext(ss: seq<State>, es: seq<Event>, n: nat, i: nat)
    requires Run(ss, es) && n < |es| && i in ss[n + 1].openers
    ensures i !in ss[n].openers ==> es[n] == Start(i) && ss[n + 1].openers[i] == ReadDomain
    ensures i in ss[n].openers && es[n] != Take(i) ==> ss[n + 1].openers[i] == ss[n].openers[i]
    ensures es[n] == Take(i) ==> i in ss[n].openers && !Halted(ss[n].openers[i])
                                 && (ss[n + 1].fs, ss[n + 1].openers[i]) == Step(ss[n].fs, i, ss[n].openers[i])
  {
    assert Enabled(ss[n], es[n]) && ss[n + 1] == Next(ss[n], es[n]);
  }

  lemma TakePrev(ss: seq<State>, es: seq<Event>, n: nat, i: nat)
    requires Run(ss, es) && n < |es| && i in ss[n].openers
    ensures i in ss[n + 1].openers
  {
    assert Enabled(ss[n], es[n]) && ss[n + 1] == Next(ss[n], es[n]);
  }

  lemma {:induction false} NoneTaken(ss: seq<State>, es: seq<Event>, n: nat, i: nat)
    requires Run(ss, es) && n <= |es| && i !in ss[n].openers
    ensures Taken(es, i, n) == 0
  {
    if n > 0 {
      if i in ss[n - 1].openers {
        TakePrev(ss, es, n - 1, i);
      }
      assert Enabled(ss[n - 1], es[n - 1]);
      NoneTaken(ss, es, n - 1, i);
    }
  }

  /** However the openers interleave, an opener that has made 27 accesses has returned or failed. */
  lemma {:induction false} WaitFree(ss: seq<State>, es: seq<Event>, n: nat, i: nat)
    requires Run(ss, es) && n <= |es| && i in ss[n].openers
    ensures Taken(es, i, n) + Left(ss[n].openers[i]) <= 27
    ensures Taken(es, i, n) >= 27 ==> Halted(ss[n].openers[i])
  {
    if n > 0 {
      TakeNext(ss, es, n - 1, i);
      if i in ss[n - 1].openers {
        WaitFree(ss, es, n - 1, i);
        if es[n - 1] == Take(i) {
          Shortens(ss[n - 1].fs, i, ss[n - 1].openers[i]);
        }
      } else {
        NoneTaken(ss, es, n - 1, i);
      }
    }
  }

  // ----- what the claims and the staged directories say of each other

  ghost predicate Housed(fs: Fs, x: nat) {
    fs.locks == Some(x) || exists t :: t in fs.stage && fs.stage[t] == x
  }

  ghost predicate MoreInv(fs: Fs) {
    && (forall t :: t in fs.claims ==> fs.claims[t] < fs.nextInode)
    && (forall t, u :: t in fs.claims && u in fs.claims && t != u ==> fs.claims[t] != fs.claims[u])
    && (forall t, u :: t in fs.stage && u in fs.claims ==> (fs.stage[t] == fs.claims[u] <==> t == u))
    && (forall x :: x in fs.tokens ==> Housed(fs, x))
  }

  ghost predicate OwnInv(fs: Fs, i: nat, pc: Pc) {
    match pc
    case CheckDomain(b, claimed) => if claimed then b.token == i else i !in fs.stage
    case CleanDir(_) => i in fs.stage ==> fs.stage[i] !in fs.tokens
    case DropDir(_) => i in fs.stage ==> fs.stage[i] !in fs.tokens
    case RemoveMarker(_, after) => after.ToDrop? || i !in fs.stage
    case Quarantine(_, after) => after.ToDrop? || i !in fs.stage
    case Relink(_, after) => after.ToDrop? || i !in fs.stage
    case OpenStage(_) => i !in fs.stage
    case CheckToken(b, ino) => ino == b.inode && (i in fs.stage ==> b.token == i)
    case LstatPath(b, _) => i in fs.stage ==> b.token == i
    case RenameStage(b, _) => i in fs.stage ==> b.token == i
    case RecheckPath(_, _) => i !in fs.stage
    case OpenPath(_) => i !in fs.stage
    case CheckNamed(ino, _) => i !in fs.stage && fs.locks == Some(ino)
    case EnsureToken(_, _) => i !in fs.stage
    case PublishDomain(_, _) => i !in fs.stage
    case PublishLost(b, ino) => i !in fs.stage && fs.locks == Some(ino)
    case Validate(_, _, ino) => i !in fs.stage && fs.locks == Some(ino)
    case FinalStat(_) => i !in fs.stage
    case Done(_) => i !in fs.stage
    case _ => true
  }

  ghost predicate AllInv(s: State) {
    Inv(s) && MoreInv(s.fs) && forall i :: i in s.openers ==> OwnInv(s.fs, i, s.openers[i])
  }

  /** The claimed directory under `.artifact-locks` is the domain's, so its claim is the domain record. */
  lemma NamedClaim(fs: Fs, b: Rec)
    requires FsInv(fs) && MoreInv(fs) && Claimed(fs, b) && fs.locks == Some(b.inode) && fs.domain.Some?
    ensures fs.domain == Some(b)
  {
    var d := fs.domain.value;
    assert Claimed(fs, d);
  }

  /** Before the domain record there is one claim. */
  lemma OneClaim(fs: Fs, b: Rec)
    requires FsInv(fs) && Claimed(fs, b) && fs.domain.None?
    ensures fs.marker == Some(b) && Ready(fs, b)
  {
  }

  lemma EarlyOwn(fs: Fs, i: nat, pc: Pc)
    requires FsInv(fs) && MoreInv(fs) && PcInv(fs, i, pc) && OwnInv(fs, i, pc) && EarlyRead(pc)
    ensures OwnInv(fs, i, Step(fs, i, pc).1)
  {
  }

  lemma LateOwn(fs: Fs, i: nat, pc: Pc)
    requires FsInv(fs) && MoreInv(fs) && PcInv(fs, i, pc) && OwnInv(fs, i, pc) && LateRead(pc)
    ensures OwnInv(fs, i, Step(fs, i, pc).1)
  {
  }

  lemma NamedOwn(fs: Fs, i: nat, pc: Pc)
    requires FsInv(fs) && MoreInv(fs) && PcInv(fs, i, pc) && OwnInv(fs, i, pc) && NamedRead(pc)
    ensures OwnInv(fs, i, Step(fs, i, pc).1)
  {
  }

  lemma FinalOwn(fs: Fs, i: nat, pc: Pc)
    requires FsInv(fs) && MoreInv(fs) && PcInv(fs, i, pc) && OwnInv(fs, i, pc) && FinalRead(pc)
    ensures OwnInv(fs, i, Step(fs, i, pc).1)
  {
  }

  ghost predicate KeepsMore(fs: Fs, i: nat, pc: Pc)
    requires !Halted(pc)
  {
    var r := Step(fs, i, pc);
    MoreInv(r.0) && OwnInv(r.0, i, r.1)
  }

  lemma StillHoused(fs: Fs, fs': Fs)
    requires forall x :: x in fs.tokens ==> Housed(fs, x)
    requires fs'.stage == fs.stage && fs'.locks == fs.locks && fs'.tokens.Keys <= fs.tokens.Keys
    ensures forall x :: x in fs'.tokens ==> Housed(fs', x)
  {
    forall x | x in fs'.tokens
      ensures Housed(fs', x)
    {
      assert Housed(fs, x);
    }
  }

  lemma StagedMore(fs: Fs, i: nat)
    requires MoreInv(fs) && i !in fs.stage && i !in fs.claims
    ensures MoreInv(fs.(stage := fs.stage[i := fs.nextInode], nextInode := fs.nextInode + 1))
  {
    var fs' := fs.(stage := fs.stage[i := fs.nextInode], nextInode := fs.nextInode + 1);
    forall x | x in fs'.tokens
      ensures Housed(fs', x)
    {
      assert Housed(fs, x);
      if fs.locks != Some(x) {
        var t :| t in fs.stage && fs.stage[t] == x;
        assert t in fs'.stage && fs'.stage[t] == x;
      }
    }
  }

  lemma MakeOwn(fs: Fs, i: nat, pc: Pc)
    requires MoreInv(fs) && i !in fs.stage && i !in fs.claims && pc.MakeStage?
    ensures KeepsMore(fs, i, pc)
  {
    StagedMore(fs, i);
  }

  lemma WriteOwn(fs: Fs, i: nat, pc: Pc)
    requires FsInv(fs) && MoreInv(fs) && PcInv(fs, i, pc) && pc.WriteToken?
    ensures KeepsMore(fs, i, pc)
  {
    var fs' := Step(fs, i, pc).0;
    forall x | x in fs'.tokens
      ensures Housed(fs', x)
    {
      if x == pc.ino {
        assert fs'.stage[i] == x;
      } else {
        assert Housed(fs, x);
      }
    }
  }

  lemma ClaimOwn(fs: Fs, i: nat, pc: Pc)
    requires FsInv(fs) && MoreInv(fs) && PcInv(fs, i, pc) && pc.Claim?
    ensures KeepsMore(fs, i, pc)
  {
    StillHoused(fs, Step(fs, i, pc).0);
  }

  lemma MarkerOwn(fs: Fs, i: nat, pc: Pc)
    requires MoreInv(fs) && OwnInv(fs, i, pc) && (pc.Quarantine? || pc.Relink?)
    ensures KeepsMore(fs, i, pc)
  {
    var fs' := Step(fs, i, pc).0;
    StillHoused(fs, fs');
    assert fs' == fs.(marker := fs'.marker);
  }

  lemma EnsureOwn(fs: Fs, i: nat, pc: Pc)
    requires FsInv(fs) && MoreInv(fs) && PcInv(fs, i, pc) && OwnInv(fs, i, pc) && pc.EnsureToken?
    ensures KeepsMore(fs, i, pc)
  {
    EnsureTokenStep(fs, i, pc);
  }

  lemma PublishOwn(fs: Fs, i: nat, pc: Pc)
    requires FsInv(fs) && MoreInv(fs) && PcInv(fs, i, pc) && OwnInv(fs, i, pc) && pc.PublishDomain?
    ensures KeepsMore(fs, i, pc)
  {
    var fs' := Step(fs, i, pc).0;
    StillHoused(fs, fs');
    assert fs' == fs.(domain := fs'.domain);
  }

  lemma RemoveTokenOwn(fs: Fs, i: nat, pc: Pc)
    requires MoreInv(fs) && (pc.CleanToken? || pc.DropToken?)
    ensures KeepsMore(fs, i, pc)
  {
    var fs' := RemoveStagedToken(fs, i);
    assert fs' == fs.(tokens := fs'.tokens);
    StillHoused(fs, fs');
  }

  lemma UnstagedMore(fs: Fs, i: nat)
    requires MoreInv(fs) && (i in fs.stage ==> fs.stage[i] !in fs.tokens)
    ensures MoreInv(fs.(stage := fs.stage - {i}))
  {
    var fs' := fs.(stage := fs.stage - {i});
    forall x | x in fs'.tokens
      ensures Housed(fs', x)
    {
      assert Housed(fs, x);
      if fs.locks != Some(x) {
        var t :| t in fs.stage && fs.stage[t] == x;
        assert t in fs'.stage && fs'.stage[t] == x;
      }
    }
  }

  lemma RemoveDirOwn(fs: Fs, i: nat, pc: Pc)
    requires MoreInv(fs) && OwnInv(fs, i, pc) && (pc.CleanDir? || pc.DropDir?)
    ensures KeepsMore(fs, i, pc)
  {
    UnstagedMore(fs, i);
  }

  lemma RenameHoused(fs: Fs, t: nat)
    requires MoreInv(fs) && t in fs.stage && fs.locks.None?
    ensures MoreInv(fs.(locks := Some(fs.stage[t]), stage := fs.stage - {t}))
  {
    var fs' := fs.(locks := Some(fs.stage[t]), stage := fs.stage - {t});
    forall x | x in fs'.tokens
      ensures Housed(fs', x)
    {
      assert Housed(fs, x);
      if fs.stage[t] != x {
        var u :| u in fs.stage && fs.stage[u] == x;
        assert u in fs'.stage && fs'.stage[u] == x;
      }
    }
  }

  lemma RenameOwn(fs: Fs, i: nat, pc: Pc)
    requires FsInv(fs) && MoreInv(fs) && PcInv(fs, i, pc) && OwnInv(fs, i, pc) && pc.RenameStage?
    ensures KeepsMore(fs, i, pc)
  {
    var b := pc.b;
    if b.token in fs.stage && (fs.locks.None? || fs.locks.value !in fs.tokens) {
      RenameFs(fs, b);
      RenameHoused(fs, b.token);
    }
  }

  lemma OwnMore(fs: Fs, i: nat, pc: Pc)
    requires FsInv(fs) && MoreInv(fs) && PcInv(fs, i, pc) && OwnInv(fs, i, pc) && !Halted(pc)
    ensures KeepsMore(fs, i, pc)
  {
    if EarlyRead(pc) {
      EarlyOwn(fs, i, pc);
      EarlyReadStep(fs, i, pc);
    } else if LateRead(pc) {
      LateOwn(fs, i, pc);
      LateReadStep(fs, i, pc);
    } else if NamedRead(pc) {
      NamedOwn(fs, i, pc);
      NamedReadStep(fs, i, pc);
    } else if FinalRead(pc) {
      FinalOwn(fs, i, pc);
      FinalReadStep(fs, i, pc);
    } else if pc.MakeStage? {
      MakeOwn(fs, i, pc);
    } else if pc.WriteToken? {
      WriteOwn(fs, i, pc);
    } else if pc.Claim? {
      ClaimOwn(fs, i, pc);
    } else if pc.CleanToken? || pc.DropToken? {
      RemoveTokenOwn(fs, i, pc);
    } else if pc.CleanDir? || pc.DropDir? {
      RemoveDirOwn(fs, i, pc);
    } else if pc.RenameStage? {
      RenameOwn(fs, i, pc);
    } else if pc.Quarantine? || pc.Relink? {
      MarkerOwn(fs, i, pc);
    } else if pc.EnsureToken? {
      EnsureOwn(fs, i, pc);
    } else {
      PublishOwn(fs, i, pc);
    }
  }

  /** Nobody stages a directory, or writes a token, under another opener's name. */
  ghost predicate Apart(fs: Fs, i: nat, fs': Fs) {
    && (forall t :: t in fs'.stage && t != i ==> t in fs.stage && fs'.stage[t] == fs.stage[t])
    && (forall t :: t in fs'.stage && t != i && fs.stage[t] !in fs.tokens ==> fs.stage[t] !in fs'.tokens)
  }

  lemma RecordsApart(fs: Fs, i: nat, pc: Pc)
    requires Reads(pc) || pc.Claim? || pc.Quarantine? || pc.Relink? || pc.PublishDomain?
    ensures Step(fs, i, pc).0.stage == fs.stage && Step(fs, i, pc).0.tokens == fs.tokens
  {
  }

  lemma StepApart(fs: Fs, i: nat, pc: Pc)
    requires FsInv(fs) && PcInv(fs, i, pc) && !Halted(pc)
    ensures Apart(fs, i, Step(fs, i, pc).0)
  {
    if Reads(pc) || pc.Claim? || pc.Quarantine? || pc.Relink? || pc.PublishDomain? {
      RecordsApart(fs, i, pc);
    }
  }

  lemma StableOwn(fs: Fs, i: nat, fs': Fs, j: nat, pc: Pc)
    requires Evolves(fs, i, fs') && Apart(fs, i, fs') && i != j && OwnInv(fs, j, pc)
    ensures OwnInv(fs', j, pc)
  {
  }

  lemma NextAll(s: State, e: Event)
    requires AllInv(s) && Enabled(s, e)
    ensures AllInv(Next(s, e))
  {
    StepInv(s, e);
    if e.Take? {
      OwnMore(s.fs, e.i, s.openers[e.i]);
      StepApart(s.fs, e.i, s.openers[e.i]);
      var fs' := Next(s, e).fs;
      forall j | j in s.openers && j != e.i
        ensures OwnInv(fs', j, s.openers[j])
      {
        StableOwn(s.fs, e.i, fs', j, s.openers[j]);
      }
    }
  }

  lemma NextAllOf(s: State, e: Event, s': State)
    requires AllInv(s) && Enabled(s, e) && s' == Next(s, e)
    ensures AllInv(s')
  {
    NextAll(s, e);
  }

  lemma {:induction false} RunAll(ss: seq<State>, es: seq<Event>, n: nat)
    requires Run(ss, es) && n <= |es|
    ensures AllInv(ss[n])
  {
    if n == 0 {
      EmptyInv();
    } else {
      RunAll(ss, es, n - 1);
      NextAllOf(ss[n - 1], es[n - 1], ss[n]);
    }
  }

  /**
   An opener that returned has no staging directory left, and at every moment each token file lies in
   the lock directory or in a directory still staged.
   */
  lemma NothingLeft(ss: seq<State>, es: seq<Event>, n: nat)
    requires Run(ss, es) && n <= |es|
    ensures forall i :: i in ss[n].openers && ss[n].openers[i].Done? ==> i !in ss[n].fs.stage
    ensures forall x :: x in ss[n].fs.tokens ==>
              ss[n].fs.locks == Some(x) || exists t :: t in ss[n].fs.stage && ss[n].fs.stage[t] == x
  {
    RunAll(ss, es, n);
    forall i | i in ss[n].openers && ss[n].openers[i].Done?
      ensures i !in ss[n].fs.stage
    {
      assert OwnInv(ss[n].fs, i, ss[n].openers[i]);
    }
    forall x | x in ss[n].fs.tokens
      ensures ss[n].fs.locks == Some(x) || exists t :: t in ss[n].fs.stage && ss[n].fs.stage[t] == x
    {
      assert Housed(ss[n].fs, x);
    }
  }

  // ----- when an opener fails

  /** The claim an opener is completing while another may already have completed a different one. */
  function Follows(pc: Pc): Option<Rec> {
    match pc
    case OpenStage(b) => Some(b)
    case CheckToken(b, _) => Some(b)
    case LstatPath(b, _) => Some(b)
    case RenameStage(b, _) => Some(b)
    case RecheckPath(b, _) => Some(b)
    case OpenPath(Fresh(b)) => Some(b)
    case CheckNamed(_, Fresh(b)) => Some(b)
    case _ => None
  }

  /** The claim it is completing has lost: the domain record names another. */
  predicate Lost(fs: Fs, pc: Pc) {
    Follows(pc).Some? && fs.domain.Some? && fs.domain != Follows(pc)
  }

  /** It found no domain record, and now finds the marker of a claim that came after one was published. */
  predicate MeetsLateClaim(fs: Fs, pc: Pc) {
    pc == ReadMarker(None) && fs.domain.Some? && fs.marker.Some? && fs.marker != fs.domain
  }

  /** What a step of the opener itself makes of its prospects. */
  ghost predicate Decides(fs: Fs, i: nat, pc: Pc)
    requires !Halted(pc)
  {
    var (fs', pc') := Step(fs, i, pc);
    && (Lost(fs, pc) ==> Lost(fs', pc') || pc'.Failed?)
    && (!Lost(fs, pc) ==> !pc'.Failed? && (Lost(fs', pc') <==> MeetsLateClaim(fs, pc)))
  }

  lemma EarlyFate(fs: Fs, i: nat, pc: Pc)
    requires FsInv(fs) && PcInv(fs, i, pc) && OwnInv(fs, i, pc) && EarlyRead(pc)
    ensures Decides(fs, i, pc)
  {
    if pc.CheckDomain? && fs.domain.None? {
      OneClaim(fs, pc.b);
    }
  }

  /** What the files show of a claim that has not lost, and of one that has. */
  predicate ClaimShows(fs: Fs, b: Rec) {
    && (b.token in fs.stage ==> fs.stage[b.token] == b.inode && fs.locks != Some(b.inode))
    && if fs.domain.None? || fs.domain == Some(b) then
         && b.inode in fs.tokens && fs.tokens[b.inode] == b.token
         && if b.token in fs.stage then fs.locks.None? && fs.domain.None? else fs.locks == Some(b.inode)
       else
         fs.locks.Some? && fs.locks != Some(b.inode) && fs.locks.value in fs.tokens
  }

  lemma ClaimFacts(fs: Fs, b: Rec)
    requires FsInv(fs) && MoreInv(fs) && Claimed(fs, b)
    ensures ClaimShows(fs, b)
  {
    if fs.domain.None? {
      OneClaim(fs, b);
    } else if fs.locks == Some(b.inode) {
      NamedClaim(fs, b);
    }
  }

  lemma LateFate(fs: Fs, i: nat, pc: Pc)
    requires LateRead(pc) && ClaimShows(fs, pc.b) && OwnInv(fs, i, pc) && (pc.LstatPath? ==> pc.ino == pc.b.inode)
    ensures Decides(fs, i, pc)
  {
  }

  lemma RenameFate(fs: Fs, i: nat, pc: Pc)
    requires pc.RenameStage? && ClaimShows(fs, pc.b) && OwnInv(fs, i, pc)
    ensures Decides(fs, i, pc)
  {
  }

  lemma NamedFate(fs: Fs, i: nat, pc: Pc, b: Rec)
    requires NamedRead(pc) && Follows(pc) == Some(b) && ClaimShows(fs, b) && OwnInv(fs, i, pc)
    requires pc.RecheckPath? ==> pc.ino == b.inode && (fs.domain.None? ==> fs.locks == Some(b.inode))
    requires pc.CheckNamed? && fs.domain.None? ==> pc.ino == b.inode
    requires pc.OpenPath? && fs.domain.None? ==> fs.locks == Some(b.inode)
    ensures Decides(fs, i, pc)
  {
  }

  lemma ExistingFate(fs: Fs, i: nat, pc: Pc)
    requires FsInv(fs) && PcInv(fs, i, pc) && OwnInv(fs, i, pc) && NamedRead(pc) && Follows(pc).None?
    ensures Decides(fs, i, pc)
  {
  }

  lemma EnsureFate(fs: Fs, i: nat, pc: Pc)
    requires pc.EnsureToken? && ClaimShows(fs, pc.b) && fs.locks == Some(pc.ino) && pc.ino == pc.b.inode
    ensures Decides(fs, i, pc)
  {
  }

  lemma FinalFate(fs: Fs, i: nat, pc: Pc)
    requires FsInv(fs) && PcInv(fs, i, pc) && OwnInv(fs, i, pc) && FinalRead(pc)
    ensures Decides(fs, i, pc)
  {
  }

  lemma RestFate(fs: Fs, i: nat, pc: Pc)
    requires !Halted(pc) && !Reads(pc) && !pc.RenameStage? && !pc.EnsureToken?
    ensures Decides(fs, i, pc)
  {
  }

  lemma OwnFate(fs: Fs, i: nat, pc: Pc)
    requires FsInv(fs) && MoreInv(fs) && PcInv(fs, i, pc) && OwnInv(fs, i, pc) && !Halted(pc)
    ensures Decides(fs, i, pc)
  {
    if EarlyRead(pc) {
      EarlyFate(fs, i, pc);
    } else if LateRead(pc) {
      ClaimFacts(fs, pc.b);
      LateFate(fs, i, pc);
    } else if NamedRead(pc) && Follows(pc).Some? {
      ClaimFacts(fs, Follows(pc).value);
      NamedFate(fs, i, pc, Follows(pc).value);
    } else if NamedRead(pc) {
      ExistingFate(fs, i, pc);
    } else if pc.RenameStage? {
      ClaimFacts(fs, pc.b);
      RenameFate(fs, i, pc);
    } else if pc.EnsureToken? {
      ClaimFacts(fs, pc.b);
      EnsureFate(fs, i, pc);
    } else if FinalRead(pc) {
      FinalFate(fs, i, pc);
    } else {
      RestFate(fs, i, pc);
    }
  }

  /** Only publishing a claim writes the domain record. */
  lemma DomainStep(fs: Fs, j: nat, pc: Pc)
    requires !Halted(pc) && (pc.PublishDomain? ==> pc.ino == pc.b.inode)
    ensures var fs' := Step(fs, j, pc).0;
            if pc.PublishDomain? && fs.domain.None? then fs'.domain == Some(pc.b) else fs'.domain == fs.domain
  {
  }

  /** A step of another opener changes nothing about it. */
  lemma OthersFate(fs: Fs, i: nat, pc: Pc, j: nat, other: Pc)
    requires FsInv(fs) && PcInv(fs, i, pc) && PcInv(fs, j, other) && !Halted(other)
    ensures Lost(Step(fs, j, other).0, pc) <==> Lost(fs, pc)
  {
    DomainStep(fs, j, other);
    if Follows(pc).Some? && fs.domain.None? && other.PublishDomain? {
      assert Claimed(fs, Follows(pc).value);
      OneClaim(fs, Follows(pc).value);
      OneClaim(fs, other.b);
    }
  }

  ghost predicate LostAt(ss: seq<State>, n: nat, i: nat) {
    n < |ss| && i in ss[n].openers && Lost(ss[n].fs, ss[n].openers[i])
  }

  /** Event n is the access at which opener i meets a late claim. */
  ghost predicate MeetsAt(ss: seq<State>, es: seq<Event>, n: nat, i: nat) {
    n < |es| && n < |ss| && es[n] == Take(i) && i in ss[n].openers && MeetsLateClaim(ss[n].fs, ss[n].openers[i])
  }

  lemma StartStep(ss: seq<State>, es: seq<Event>, n: nat)
    requires Run(ss, es) && n < |es| && es[n].Start?
    ensures ss[n + 1].fs == ss[n].fs
  {
    assert Enabled(ss[n], es[n]) && ss[n + 1] == Next(ss[n], es[n]);
  }

  lemma OthersStep(ss: seq<State>, es: seq<Event>, n: nat, i: nat, j: nat)
    requires Run(ss, es) && n < |es| && es[n] == Take(j) && i != j && Inv(ss[n]) && i in ss[n].openers
    ensures Lost(ss[n + 1].fs, ss[n].openers[i]) <==> Lost(ss[n].fs, ss[n].openers[i])
  {
    assert Enabled(ss[n], es[n]) && ss[n + 1] == Next(ss[n], es[n]);
    OthersFate(ss[n].fs, i, ss[n].openers[i], j, ss[n].openers[j]);
  }

  lemma FateStep(ss: seq<State>, es: seq<Event>, n: nat, i: nat)
    requires Run(ss, es) && n < |es| && i in ss[n].openers
    ensures i in ss[n + 1].openers
    ensures LostAt(ss, n, i) ==> LostAt(ss, n + 1, i) || ss[n + 1].openers[i].Failed?
    ensures ss[n].openers[i].Failed? ==> ss[n + 1].openers[i].Failed?
    ensures !LostAt(ss, n, i) && LostAt(ss, n + 1, i) ==> MeetsAt(ss, es, n, i)
    ensures ss[n + 1].openers[i].Failed? ==> ss[n].openers[i].Failed? || LostAt(ss, n, i)
    ensures MeetsAt(ss, es, n, i) ==> LostAt(ss, n + 1, i)
  {
    RunAll(ss, es, n);
    TakePrev(ss, es, n, i);
    TakeNext(ss, es, n, i);
    var s := ss[n];
    assert PcInv(s.fs, i, s.openers[i]) && OwnInv(s.fs, i, s.openers[i]);
    if es[n] == Take(i) {
      OwnFate(s.fs, i, s.openers[i]);
    } else if es[n].Take? {
      OthersStep(ss, es, n, i, es[n].i);
    } else {
      StartStep(ss, es, n);
    }
  }

  lemma {:induction false} StaysLost(ss: seq<State>, es: seq<Event>, n: nat, m: nat, i: nat)
    requires Run(ss, es) && n <= m <= |es| && LostAt(ss, n, i)
    ensures i in ss[m].openers && (LostAt(ss, m, i) || ss[m].openers[i].Failed?)
    decreases m
  {
    if n < m {
      StaysLost(ss, es, n, m - 1, i);
      FateStep(ss, es, m - 1, i);
    }
  }

  lemma {:induction false} WhenMet(ss: seq<State>, es: seq<Event>, m: nat, i: nat)
    requires Run(ss, es) && m <= |es| && i in ss[m].openers && (LostAt(ss, m, i) || ss[m].openers[i].Failed?)
    ensures exists n: nat :: n < m && MeetsAt(ss, es, n, i)
  {
    if m > 0 {
      TakeNext(ss, es, m - 1, i);
      assert i in ss[m - 1].openers;
      FateStep(ss, es, m - 1, i);
      if LostAt(ss, m - 1, i) || ss[m - 1].openers[i].Failed? {
        WhenMet(ss, es, m - 1, i);
      }
    }
  }

  /**
   An opener that has come to its end failed if and only if, having found no domain record, it found at its next
   access the marker of a claim although a domain record for another claim was there by then.
   */
  lemma FailsIff(ss: seq<State>, es: seq<Event>, m: nat, i: nat)
    requires Run(ss, es) && m <= |es| && i in ss[m].openers && Halted(ss[m].openers[i])
    ensures ss[m].openers[i].Failed? <==> exists n: nat :: n < m && MeetsAt(ss, es, n, i)
  {
    if ss[m].openers[i].Failed? {
      WhenMet(ss, es, m, i);
    }
    if n: nat :| n < m && MeetsAt(ss, es, n, i) {
      FateStep(ss, es, n, i);
      StaysLost(ss, es, n + 1, m, i);
    }
  }

  /** An opener that has made 27 accesses without meeting a late claim has returned. */
  lemma Returns(ss: seq<State>, es: seq<Event>, m: nat, i: nat)
    requires Run(ss, es) && m <= |es| && i in ss[m].openers && Taken(es, i, m) >= 27
    requires forall n: nat :: n < m ==> !MeetsAt(ss, es, n, i)
    ensures ss[m].openers[i].Done?
  {
    WaitFree(ss, es, m, i);
    FailsIff(ss, es, m, i);
  }

  /** Another opener's marker, moved away by mistake, is put back by the next access. */
  lemma ForeignMarkerBack(fs: Fs, i: nat, b: Rec, after: After)
    requires fs.marker.Some? && fs.marker != Some(b)
    ensures Alone(fs, i, Quarantine(b, after), 2) == (fs, Proceed(after))
  {
    var (fs', pc') := Step(fs, i, Quarantine(b, after));
    assert Alone(fs', i, pc', 1) == Step(fs', i, pc');
  }

  // ----- such a failure happens

  lemma RunExtends(ss: seq<State>, es: seq<Event>, e: Event)
    requires Run(ss, es) && Enabled(ss[|es|], e)
    ensures Run(ss + [Next(ss[|es|], e)], es + [e])
  {
    var ss', es' := ss + [Next(ss[|es|], e)], es + [e];
    forall n {:trigger es'[n]} | 0 <= n < |es'|
      ensures Enabled(ss'[n], es'[n]) && ss'[n + 1] == Next(ss'[n], es'[n])
    {
      assert n < |es| ==> ss'[n] == ss[n] && ss'[n + 1] == ss[n + 1] && es'[n] == es[n];
    }
  }

  lemma Goes(ss: seq<State>, es: seq<Event>, i: nat, fs: Fs, pc: Pc) returns (ss': seq<State>, es': seq<Event>)
    requires Run(ss, es) && Enabled(ss[|es|], Take(i)) && Step(ss[|es|].fs, i, ss[|es|].openers[i]) == (fs, pc)
    ensures Run(ss', es') && ss'[|es'|] == State(fs, ss[|es|].openers[i := pc])
  {
    RunExtends(ss, es, Take(i));
    ss', es' := ss + [Next(ss[|es|], Take(i))], es + [Take(i)];
  }

  const RECORD := Rec(0, 0)
  const STAGED := EMPTY_ROOT.(stage := map[0 := 0], tokens := map[0 := 0], nextInode := 1)
  const CLAIMED := STAGED.(marker := Some(RECORD), claims := map[0 := 0])
  const NAMED := CLAIMED.(locks := Some(0), stage := map[])
  const PUBLISHED := NAMED.(domain := Some(RECORD), marker := None)
  const LATE := PUBLISHED.(stage := map[1 := 1], tokens := map[0 := 0, 1 := 1], nextInode := 2,
                           marker := Some(Rec(1, 1)), claims := map[0 := 0, 1 := 1])

  /** Opener 0 stages a directory and claims it. */
  lemma FirstClaims(ss: seq<State>, es: seq<Event>) returns (ss': seq<State>, es': seq<Event>)
    requires Run(ss, es) && ss[|es|].fs == EMPTY_ROOT && 0 in ss[|es|].openers && ss[|es|].openers[0] == ReadDomain
    ensures Run(ss', es') && ss'[|es'|] == State(CLAIMED, ss[|es|].openers[0 := CheckDomain(RECORD, true)])
  {
    var staging := EMPTY_ROOT.(stage := map[0 := 0], nextInode := 1);
    ss', es' := Goes(ss, es, 0, EMPTY_ROOT, ReadMarker(None));
    ss', es' := Goes(ss', es', 0, EMPTY_ROOT, LstatLocks);
    ss', es' := Goes(ss', es', 0, EMPTY_ROOT, MakeStage);
    ss', es' := Goes(ss', es', 0, staging, WriteToken(0));
    ss', es' := Goes(ss', es', 0, STAGED, Claim(0));
    ss', es' := Goes(ss', es', 0, CLAIMED, CheckDomain(RECORD, true));
  }

  /** It gives the directory its name. */
  lemma FirstNames(ss: seq<State>, es: seq<Event>) returns (ss': seq<State>, es': seq<Event>)
    requires Run(ss, es) && ss[|es|].fs == CLAIMED && 0 in ss[|es|].openers
    requires ss[|es|].openers[0] == CheckDomain(RECORD, true)
    ensures Run(ss', es') && ss'[|es'|] == State(NAMED, ss[|es|].openers[0 := PublishDomain(RECORD, 0)])
  {
    ss', es' := Goes(ss, es, 0, CLAIMED, CheckToken(RECORD, 0));
    ss', es' := Goes(ss', es', 0, CLAIMED, LstatPath(RECORD, 0));
    ss', es' := Goes(ss', es', 0, CLAIMED, RenameStage(RECORD, 0));
    ss', es' := Goes(ss', es', 0, NAMED, CheckNamed(0, Fresh(RECORD)));
    ss', es' := Goes(ss', es', 0, NAMED, EnsureToken(RECORD, 0));
    ss', es' := Goes(ss', es', 0, NAMED, PublishDomain(RECORD, 0));
  }

  /** It publishes the domain record and removes its marker. */
  lemma FirstPublishes(ss: seq<State>, es: seq<Event>) returns (ss': seq<State>, es': seq<Event>)
    requires Run(ss, es) && ss[|es|].fs == NAMED && 0 in ss[|es|].openers
    requires ss[|es|].openers[0] == PublishDomain(RECORD, 0)
    ensures Run(ss', es') && ss'[|es'|] == State(PUBLISHED, ss[|es|].openers[0 := FinalStat(RECORD)])
  {
    var both := NAMED.(domain := Some(RECORD));
    ss', es' := Goes(ss, es, 0, both, Validate(RECORD, Some(RECORD), 0));
    ss', es' := Goes(ss', es', 0, both, RemoveMarker(RECORD, ToFinal(RECORD)));
    ss', es' := Goes(ss', es', 0, both, Quarantine(RECORD, ToFinal(RECORD)));
    ss', es' := Goes(ss', es', 0, PUBLISHED, FinalStat(RECORD));
  }

  /** Opener 1, which had found the root empty, now claims a directory of its own. */
  lemma SecondClaims(ss: seq<State>, es: seq<Event>) returns (ss': seq<State>, es': seq<Event>)
    requires Run(ss, es) && ss[|es|].fs == PUBLISHED && 1 in ss[|es|].openers && ss[|es|].openers[1] == MakeStage
    ensures Run(ss', es') && ss'[|es'|] == State(LATE, ss[|es|].openers[1 := CheckDomain(Rec(1, 1), true)])
  {
    var made := PUBLISHED.(stage := map[1 := 1], nextInode := 2);
    var written := made.(tokens := map[0 := 0, 1 := 1]);
    ss', es' := Goes(ss, es, 1, made, WriteToken(1));
    ss', es' := Goes(ss', es', 1, written, Claim(1));
    ss', es' := Goes(ss', es', 1, LATE, CheckDomain(Rec(1, 1), true));
  }

  /** Opener 2 takes that claim up. */
  lemma ThirdFails(ss: seq<State>, es: seq<Event>) returns (ss': seq<State>, es': seq<Event>)
    requires Run(ss, es) && ss[|es|].fs == LATE && 2 in ss[|es|].openers && ss[|es|].openers[2] == ReadMarker(None)
    ensures Run(ss', es') && ss'[|es'|] == State(LATE, ss[|es|].openers[2 := Failed(Substituted)])
  {
    ss', es' := Goes(ss, es, 2, LATE, OpenStage(Rec(1, 1)));
    ss', es' := Goes(ss', es', 2, LATE, CheckToken(Rec(1, 1), 1));
    ss', es' := Goes(ss', es', 2, LATE, LstatPath(Rec(1, 1), 1));
    ss', es' := Goes(ss', es', 2, LATE, Failed(Substituted));
  }

  /** Three openers of an empty root: opener 0 will publish, 1 has seen no lock directory, 2 no domain record. */
  lemma ThreeStart() returns (ss: seq<State>, es: seq<Event>)
    ensures Run(ss, es)
    ensures ss[|es|] == State(EMPTY_ROOT, map[0 := ReadDomain, 1 := MakeStage, 2 := ReadMarker(None)])
  {
    var started := State(EMPTY_ROOT, map[0 := ReadDomain, 1 := ReadDomain, 2 := ReadDomain]);
    ss, es := [State(EMPTY_ROOT, map[])], [];
    RunExtends(ss, es, Start(0));
    ss, es := ss + [State(EMPTY_ROOT, map[0 := ReadDomain])], es + [Start(0)];
    RunExtends(ss, es, Start(1));
    ss, es := ss + [State(EMPTY_ROOT, map[0 := ReadDomain, 1 := ReadDomain])], es + [Start(1)];
    RunExtends(ss, es, Start(2));
    ss, es := ss + [started], es + [Start(2)];
    ss, es := Goes(ss, es, 1, EMPTY_ROOT, ReadMarker(None));
    ss, es := Goes(ss, es, 1, EMPTY_ROOT, LstatLocks);
    ss, es := Goes(ss, es, 1, EMPTY_ROOT, MakeStage);
    ss, es := Goes(ss, es, 2, EMPTY_ROOT, ReadMarker(None));
  }

  /** A late claim is met, and the opener that meets it throws although the lock domain is published and sound. */
  lemma LateClaimFails() returns (ss: seq<State>, es: seq<Event>)
    ensures Run(ss, es) && 2 in ss[|es|].openers && ss[|es|].openers[2] == Failed(Substituted)
    ensures ss[|es|].fs.domain == Some(RECORD) && ss[|es|].fs.locks == Some(RECORD.inode)
  {
    ss, es := ThreeStart();
    ss, es := FirstClaims(ss, es);
    ss, es := FirstNames(ss, es);
    ss, es := FirstPublishes(ss, es);
    ss, es := SecondClaims(ss, es);
    ss, es := ThirdFails(ss, es);
  }
}
