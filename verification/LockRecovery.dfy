/**
 What a lone opener makes of any root it may find, also one that no run of openers leaves but a
 system crash that loses unsynced names does: exactly which roots it can open.
 */
module LockRecovery {
  import opened Common
  import opened LockBootstrap

  predicate TokenIs(fs: Fs, inode: nat, token: nat) {
    inode in fs.tokens && fs.tokens[inode] == token
  }

  /** The directory in place is the record's, with the record's token inside. */
  predicate Named(fs: Fs, e: Rec) {
    fs.locks == Some(e.inode) && TokenIs(fs, e.inode, e.token)
  }

  /** The marker's directory is in place, its token present or still to be written. */
  predicate Placed(fs: Fs, b: Rec) {
    fs.locks == Some(b.inode) && (b.inode in fs.tokens ==> fs.tokens[b.inode] == b.token)
  }

  /** The marker's directory is staged with its token, and no other directory is in its place. */
  predicate Staged(fs: Fs, b: Rec, inode: nat) {
    inode == b.inode && TokenIs(fs, inode, b.token) && (fs.locks.None? || fs.locks == Some(inode))
  }

  predicate Completable(fs: Fs, b: Rec) {
    if b.token in fs.stage then Staged(fs, b, fs.stage[b.token]) else Placed(fs, b)
  }

  /** A root that can be opened: by its domain record, by its marker, or because nothing is there. */
  predicate Openable(fs: Fs) {
    if fs.domain.Some? then Named(fs, fs.domain.value)
    else if fs.marker.Some? then Completable(fs, fs.marker.value)
    else fs.locks.None?
  }

  // ----- where a lone opener can be, and whether it will return

  predicate Lone(fs: Fs, i: nat, pc: Pc) {
    match pc
    case ReadDomain => i !in fs.stage
    case ReadMarker(e) => i !in fs.stage && e == fs.domain
    case LstatLocks => i !in fs.stage && fs.domain.None? && fs.marker.None?
    case ReReadMarker => fs.domain.None? && fs.marker.None?
    case ReReadDomain(m) => fs.domain.None? && m.None?
    case MakeStage => Empty(fs) && i !in fs.stage
    case WriteToken(ino) => Empty(fs) && i in fs.stage && fs.stage[i] == ino
    case Claim(ino) => Empty(fs) && i in fs.stage && fs.stage[i] == ino && TokenIs(fs, ino, i)
    case CheckDomain(b, claimed) =>
      claimed && Marked(fs, b) && b.token in fs.stage && fs.stage[b.token] == b.inode && Staged(fs, b, b.inode)
    case OpenStage(b) => Marked(fs, b)
    case CheckToken(b, ino) => Marked(fs, b) && b.token in fs.stage && fs.stage[b.token] == ino
    case LstatPath(b, ino) =>
      Marked(fs, b) && b.token in fs.stage && fs.stage[b.token] == ino == b.inode && TokenIs(fs, ino, b.token)
    case RenameStage(b, ino) =>
      && Marked(fs, b) && b.token in fs.stage && fs.stage[b.token] == ino == b.inode && TokenIs(fs, ino, b.token)
      && fs.locks.None?
    case OpenPath(Existing(e)) => fs.domain == Some(e)
    case OpenPath(Fresh(b)) => Marked(fs, b)
    case CheckNamed(ino, Existing(e)) => fs.domain == Some(e) && fs.locks == Some(ino)
    case CheckNamed(ino, Fresh(b)) => Marked(fs, b) && fs.locks == Some(ino)
    case EnsureToken(b, ino) => Marked(fs, b) && fs.locks == Some(ino) && ino == b.inode
    case PublishDomain(b, ino) => Marked(fs, b) && ino == b.inode && Named(fs, b)
    case Validate(rec, None, ino) => fs.domain == Some(rec) && fs.locks == Some(ino)
    case Validate(rec, Some(b), ino) =>
      fs.domain == Some(rec) && fs.marker == Some(b) && rec == b && ino == b.inode && Named(fs, b)
    case RemoveMarker(b, ToDrop(_)) => false
    case RemoveMarker(b, after) =>
      fs.domain == Some(after.e) && fs.marker == Some(b) && (after.ToFinal? ==> Named(fs, after.e))
    case Quarantine(b, ToDrop(_)) => false
    case Quarantine(b, after) =>
      fs.domain == Some(after.e) && fs.marker == Some(b) && (after.ToFinal? ==> Named(fs, after.e))
    case FinalStat(rec) => fs.domain == Some(rec) && TokenIs(fs, rec.inode, rec.token)
    case Done(rec) => fs.domain == Some(rec) && Named(fs, rec)
    case Failed(_) => true
    case _ => false
  }

  predicate Empty(fs: Fs) {
    fs.domain.None? && fs.marker.None? && fs.locks.None?
  }

  predicate Marked(fs: Fs, b: Rec) {
    fs.domain.None? && fs.marker == Some(b)
  }

  predicate Hopeful(fs: Fs, pc: Pc) {
    match pc
    case ReadDomain => Openable(fs)
    case ReadMarker(_) => Openable(fs)
    case LstatLocks => fs.locks.None?
    case ReReadMarker => false
    case ReReadDomain(_) => false
    case OpenStage(b) => Completable(fs, b)
    case CheckToken(b, ino) => Staged(fs, b, ino)
    case LstatPath(b, ino) => Staged(fs, b, ino)
    case OpenPath(Existing(e)) => Named(fs, e)
    case OpenPath(Fresh(b)) => Placed(fs, b)
    case CheckNamed(ino, Existing(e)) => Named(fs, e)
    case CheckNamed(ino, Fresh(b)) => Placed(fs, b)
    case EnsureToken(b, _) => Placed(fs, b)
    case Validate(rec, None, _) => Named(fs, rec)
    case RemoveMarker(_, after) => Named(fs, after.e)
    case Quarantine(_, after) => Named(fs, after.e)
    case FinalStat(rec) => Named(fs, rec)
    case Failed(_) => false
    case _ => true
  }

  /** File-system calls left at most. */
  function Left(pc: Pc): nat {
    match pc
    case ReReadMarker => 2
    case ReReadDomain(_) => 1
    case _ => Rank(pc)
  }

  /** A step of a lone opener neither gains nor loses hope, and there is an end to them. */
  ghost predicate Decided(fs: Fs, i: nat, pc: Pc)
    requires !Halted(pc)
  {
    var (fs', pc') := Step(fs, i, pc);
    Lone(fs', i, pc') && (Hopeful(fs', pc') <==> Hopeful(fs, pc)) && Left(pc') < Left(pc)
  }

  lemma StartDecided(fs: Fs, i: nat, pc: Pc)
    requires Lone(fs, i, pc) && !Halted(pc)
    requires pc.ReadDomain? || pc.ReadMarker? || pc.LstatLocks? || pc.ReReadMarker? || pc.ReReadDomain?
    ensures Decided(fs, i, pc)
  {
  }

  lemma ClaimDecided(fs: Fs, i: nat, pc: Pc)
    requires Lone(fs, i, pc) && (pc.MakeStage? || pc.WriteToken? || pc.Claim? || pc.CheckDomain?)
    ensures Decided(fs, i, pc)
  {
  }

  lemma StageDecided(fs: Fs, i: nat, pc: Pc)
    requires Lone(fs, i, pc) && (pc.OpenStage? || pc.CheckToken?)
    ensures Decided(fs, i, pc)
  {
  }

  lemma PlaceDecided(fs: Fs, i: nat, pc: Pc)
    requires Lone(fs, i, pc) && (pc.LstatPath? || pc.RenameStage?)
    ensures Decided(fs, i, pc)
  {
  }

  lemma NamedDecided(fs: Fs, i: nat, pc: Pc)
    requires Lone(fs, i, pc) && (pc.OpenPath? || pc.CheckNamed?)
    ensures Decided(fs, i, pc)
  {
  }

  lemma PublishDecided(fs: Fs, i: nat, pc: Pc)
    requires Lone(fs, i, pc) && (pc.EnsureToken? || pc.PublishDomain?)
    ensures Decided(fs, i, pc)
  {
  }

  lemma MarkerDecided(fs: Fs, i: nat, pc: Pc)
    requires Lone(fs, i, pc) && (pc.RemoveMarker? || pc.Quarantine?)
    ensures Decided(fs, i, pc)
  {
  }

  lemma EndDecided(fs: Fs, i: nat, pc: Pc)
    requires Lone(fs, i, pc) && (pc.Validate? || pc.FinalStat?)
    ensures Decided(fs, i, pc)
  {
  }

  lemma StepDecided(fs: Fs, i: nat, pc: Pc)
    requires Lone(fs, i, pc) && !Halted(pc)
    ensures Decided(fs, i, pc)
  {
    if pc.OpenPath? || pc.CheckNamed? {
      NamedDecided(fs, i, pc);
    } else if pc.EnsureToken? || pc.PublishDomain? {
      PublishDecided(fs, i, pc);
    } else if pc.RemoveMarker? || pc.Quarantine? {
      MarkerDecided(fs, i, pc);
    } else if pc.Validate? || pc.FinalStat? {
      EndDecided(fs, i, pc);
    } else if pc.OpenStage? || pc.CheckToken? {
      StageDecided(fs, i, pc);
    } else if pc.LstatPath? || pc.RenameStage? {
      PlaceDecided(fs, i, pc);
    } else if pc.MakeStage? || pc.WriteToken? || pc.Claim? || pc.CheckDomain? {
      ClaimDecided(fs, i, pc);
    } else {
      StartDecided(fs, i, pc);
    }
  }

  lemma {:induction false} AloneDecided(fs: Fs, i: nat, pc: Pc, n: nat)
    requires Lone(fs, i, pc) && Left(pc) <= n
    ensures var (fs', pc') := Alone(fs, i, pc, n);
            if Hopeful(fs, pc) then pc'.Done? && fs'.domain == Some(pc'.rec) && Named(fs', pc'.rec) else pc'.Failed?
    decreases n
  {
    if !Halted(pc) {
      StepDecided(fs, i, pc);
      var (fs', pc') := Step(fs, i, pc);
      AloneDecided(fs', i, pc', n - 1);
    }
  }

  /**
   Over any root whatever, within 24 file-system calls, a lone opener returns the domain if and
   only if the root is openable, and throws otherwise.
   */
  lemma OpensIff(fs: Fs, i: nat)
    requires i !in fs.stage
    ensures var (fs', pc') := Alone(fs, i, ReadDomain, 24);
            && Halted(pc') && (pc'.Done? <==> Openable(fs))
            && (pc'.Done? ==> fs'.domain == Some(pc'.rec) && Named(fs', pc'.rec))
  {
    AloneDecided(fs, i, ReadDomain, 24);
  }

  /**
   A crash may keep the removal of the marker and lose the domain record that justified it.  In
   every reachable state with a record and no marker, the root without its record refuses every
   later opener, because the directory is there and neither record is.
   */
  lemma LostRecord(ss: seq<State>, es: seq<Event>, n: nat, j: nat)
    requires Run(ss, es) && n <= |es| && ss[n].fs.domain.Some? && ss[n].fs.marker.None?
    ensures var lost := ss[n].fs.(domain := None);
            !Openable(lost) && Alone(lost, j, ReadDomain, 24) == (lost, Failed(Unproven))
  {
    RunInv(ss, es, n);
    Refused(ss[n].fs.(domain := None), j);
  }

  lemma Refused(fs: Fs, j: nat)
    requires fs.domain.None? && fs.marker.None? && fs.locks.Some?
    ensures Alone(fs, j, ReadDomain, 24) == (fs, Failed(Unproven))
  {
    assert Alone(fs, j, ReReadDomain(None), 20) == (fs, Failed(Unproven));
    assert Alone(fs, j, ReReadMarker, 21) == Alone(fs, j, ReReadDomain(None), 20);
    assert Alone(fs, j, LstatLocks, 22) == Alone(fs, j, ReReadMarker, 21);
    assert Alone(fs, j, ReadMarker(None), 23) == Alone(fs, j, LstatLocks, 22);
  }
}
