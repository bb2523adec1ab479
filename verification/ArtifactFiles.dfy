/**
 The store's own operations on one artifact, written as it runs them.  Each method
 records the protocol steps it takes, so every state it passes through is a state of
 the journal protocol and inherits its guarantees.
 */
module ArtifactFiles {
  import opened Common
  import opened JournalDisk
  import opened Journal
  import opened JournalFragile
  import opened JournalProtocol
  import opened StoreScan

  class ArtifactFiles {
    const key: Key
    var disk: Disk
    var knownImmutable: bool          // immutableKeys holds this key
    ghost var now: State
    ghost var states: seq<State>
    ghost var events: seq<Event>

    ghost predicate Valid()
      reads this
    {
      && Run(key, states, events) && states[|events|] == now && now.disk == disk
      && (knownImmutable ==> Secured(now))
    }

    ghost predicate Idle()
      reads this
    {
      Valid() && now.writer.Free?
    }

    constructor (key: Key, found: Files)
      requires Sound(key, found) || Torn(key, found)
      ensures Idle() && this.key == key && Visible(disk) == found && !knownImmutable
    {
      this.key := key;
      disk := Disk(found, []);
      knownImmutable := false;
      now := State(Disk(found, []), Free, map[]);
      states := [State(Disk(found, []), Free, map[])];
      events := [];
    }

    /** Records one protocol step that leaves the disk alone. */
    ghost method Take(e: Event)
      requires Valid() && Enabled(key, now, e) && Disciplined(key, e)
      requires Next(key, now, e).disk == disk
      modifies this`now, this`states, this`events
      ensures Valid() && now == Next(key, old(now), e)
      ensures states == old(states) + [now]
    {
      RunExtends(key, states, events, e);
      now := Next(key, now, e);
      states := states + [now];
      events := events + [e];
    }

    /** One rename, unlink or sync of the lock holder. */
    method Issue(p: Prim)
      requires Valid() && now.writer.Busy? && now.writer.plan != [] && now.writer.plan[0] == p
      modifies this`disk, this`now, this`states, this`events
      ensures Valid() && disk == Exec(old(disk), p) && now == Next(key, old(now), Primitive)
      ensures states == old(states) + [now]
    {
      RunExtends(key, states, events, Primitive);
      RunInv(key, states, events, |events|);
      if knownImmutable {
        SecuredStep(key, now, Primitive);
      }
      disk := Exec(disk, p);
      now := Next(key, now, Primitive);
      states := states + [now];
      events := events + [Primitive];
    }

    /** A synced temporary file is renamed into place and the directory is synced. */
    method WriteAtomic(p: Prim)
      requires Valid() && now.writer.Busy? && !p.Sync?
      requires |now.writer.plan| >= 2 && now.writer.plan[0] == p && now.writer.plan[1] == Sync
      modifies this`disk, this`now, this`states, this`events
      ensures Valid() && now.writer == old(now.writer).(plan := old(now.writer).plan[2..])
      ensures Visible(disk) == Apply(Visible(old(disk)), p) && disk.pending == []
      ensures old(states) <= states
    {
      ExecVisible(disk, p);
      Issue(p);
      Issue(Sync);
    }

    method ReplayPut(m: Meta, c: Bytes)
      requires Valid() && now.writer.Busy? && now.writer.plan == Replay(PutTxn(m, c))
      modifies this`disk, this`now, this`states, this`events
      ensures Valid() && now.writer == old(now.writer).(plan := [UnlinkTxn, Sync])
      ensures Visible(disk) == Visible(old(disk)).(txt := Some(c), json := Some(m))
      ensures old(states) <= states
    {
      WriteAtomic(SetTxt(c));
      WriteAtomic(SetJson(m));
    }

    method ReplayDelete()
      requires Valid() && now.writer.Busy? && now.writer.plan == Replay(DeleteTxn)
      modifies this`disk, this`now, this`states, this`events
      ensures Valid() && now.writer == old(now.writer).(plan := [UnlinkTxn, Sync])
      ensures Visible(disk) == Visible(old(disk)).(txt := None, json := None)
      ensures old(states) <= states
    {
      ExecVisible(disk, UnlinkTxt);
      Issue(UnlinkTxt);
      ExecVisible(disk, UnlinkJson);
      Issue(UnlinkJson);
      Issue(Sync);
    }

    method RemoveJournal()
      requires Valid() && now.writer.Busy? && now.writer.plan == [UnlinkTxn, Sync]
      modifies this`disk, this`now, this`states, this`events
      ensures Valid() && now.writer == old(now.writer).(plan := [])
      ensures Visible(disk) == Visible(old(disk)).(txn := None)
      ensures old(states) <= states
    {
      ExecVisible(disk, UnlinkTxn);
      Issue(UnlinkTxn);
      Issue(Sync);
    }

    /** Replays the journal, if there is one; the value held does not change, and torn files stay as they are. */
    method RecoverTransaction()
      requires Valid() && now.writer.Busy? && now.writer.plan == []
      requires now.writer.stage.Locked? || now.writer.stage.Publishing?
      modifies this`disk, this`now, this`states, this`events
      ensures Valid() && now.writer.Busy?
      ensures now.writer == old(now.writer).(stage := now.writer.stage, plan := [])
      ensures now.writer.stage ==
              if old(now.writer).stage.Publishing? then Replaying
              else if Visible(old(disk)).txn.None? then Checking else Recovering
      ensures Held(now) == old(Held(now)) && Visible(disk).txn.None?
      ensures if Torn(key, Visible(old(disk))) then disk == old(disk) else PairConsistent(key, Visible(disk))
      ensures old(states) <= states
    {
      RunInv(key, states, events, |events|);
      Settled(key, disk, now.writer);
      var f := Visible(disk);
      Take(Continue);
      if f.txn.Some? {
        match f.txn.value {
          case PutTxn(m, c) => ReplayPut(m, c);
          case DeleteTxn => ReplayDelete();
        }
        RemoveJournal();
      }
    }

    /** Publishes the journal and replays it. */
    method CommitTransaction(t: Txn)
      requires Valid() && now.writer.Busy? && now.writer.stage.Publishing? && now.writer.plan == Publish(t)
      modifies this`disk, this`now, this`states, this`events
      ensures Valid() && now.writer.Busy? && now.writer.stage.Replaying? && now.writer.plan == []
      ensures Held(now) == TxnValue(t) && Visible(disk).txn.None? && PairConsistent(key, Visible(disk))
      ensures old(states) <= states
    {
      WriteAtomic(SetTxn(t));
      RecoverTransaction();
    }

    /** Takes the lock and recovers; the lock holder then looks at the durable artifact. */
    method LockAndRecover(op: Op) returns (durable: Lookup)
      requires Idle() && OpFor(key, op) && PutAllowed(key, op)
      modifies this`disk, this`now, this`states, this`events
      ensures Valid() && now.writer == Busy(op, Checking, [], None)
      ensures Held(now) == old(Held(now)) && durable == ReadDurable(key, Visible(disk))
      ensures durable == if Torn(key, Visible(old(disk))) then Threw
                         else if Held(now).Some? then Found(Held(now).value) else Absent
      ensures old(states) <= states
    {
      ghost var clean := Visible(disk).txn.None?;
      Take(Begin(op));
      RecoverTransaction();
      if !clean {
        Take(Continue);
      }
      durable := ReadDurable(key, Visible(disk));
    }

    /** Commits when allowed; the key then holds the new artifact, and otherwise still the old one. */
    method Finish(op: Op, durable: Lookup) returns (done: bool)
      requires Valid() && now.writer == Busy(op, Checking, [], None)
      requires durable == ReadDurable(key, Visible(disk))
      modifies this`disk, this`now, this`states, this`events
      ensures Idle()
      ensures done <==> !knownImmutable && Decide(op, durable).Commit?
      ensures Held(now) == if done then TxnValue(Decide(op, durable).t) else old(Held(now))
      ensures done ==> Visible(disk).txn.None? && PairConsistent(key, Visible(disk))
      ensures old(states) <= states
    {
      if knownImmutable {
        Take(Die);
        return false;
      }
      var decision := Decide(op, durable);
      Take(Continue);
      match decision {
        case Stop =>
          done := false;
        case Commit(t) =>
          CommitTransaction(t);
          Take(Continue);
          done := true;
      }
    }

    /** A mutable put stores exactly its content, or throws and changes nothing on an immutable key. */
    method Put(content: Bytes, summary: string) returns (stored: bool)
      requires Idle() && key.embedded.None?
      modifies this`disk, this`now, this`states, this`events
      ensures Idle() && old(states) <= states
      ensures stored <==> Mutable(old(Held(now))) && !Torn(key, Visible(old(disk)))
      ensures Held(now) ==
              if stored then Some(Artifact(StoredMeta(content, summary, false), content)) else old(Held(now))
    {
      var durable := LockAndRecover(Op.Put(content, summary));
      stored := Finish(Op.Put(content, summary), durable);
    }

    /** An immutable put stores exactly its content under an id nobody holds, or throws. */
    method PutImmutable(content: Bytes, summary: string) returns (stored: bool)
      requires Idle() && key.embedded == Some(Sha256(content))
      modifies this
      ensures Idle() && old(states) <= states
      ensures stored <==> old(Held(now)).None? && !Torn(key, Visible(old(disk)))
      ensures Held(now) ==
              if stored then Some(Artifact(StoredMeta(content, summary, true), content)) else old(Held(now))
      ensures stored ==> knownImmutable
    {
      var durable := LockAndRecover(Op.PutImmutable(content, summary));
      stored := Finish(Op.PutImmutable(content, summary), durable);
      if stored {
        knownImmutable := true;
      }
    }

    /** Deletes a mutable artifact; an absent one is left absent and an immutable one is kept. */
    method Delete() returns (deleted: bool)
      requires Idle()
      modifies this`disk, this`now, this`states, this`events
      ensures Idle() && old(states) <= states
      ensures deleted <==> old(Held(now)).Some? && Mutable(old(Held(now))) && !Torn(key, Visible(old(disk)))
      ensures Held(now) == if deleted then None else old(Held(now))
    {
      var durable := LockAndRecover(Op.Delete);
      deleted := Finish(Op.Delete, durable);
    }

    /**
     Opening the store, as far as this key goes: a journal found is replayed, and the key is then known
     immutable exactly when it holds an immutable artifact.  Only torn files whose content has not even
     the recorded size stop the opening.
     */
    method Open() returns (ok: bool)
      requires Idle()
      modifies this
      ensures Idle() && old(states) <= states && Held(now) == old(Held(now))
      ensures ok <==> Opens(key, Visible(old(disk)))
      ensures ok ==> Visible(disk).txn.None?
      ensures ok ==> (knownImmutable <==> Held(now).Some? && Held(now).value.meta.immutable)
      ensures !ok ==> Torn(key, Visible(old(disk))) && disk == old(disk)
    {
      if Visible(disk).txn.Some? {
        Take(Begin(Scan));
        RecoverTransaction();
        Take(Continue);
        Take(Continue);
      }
      ok := ScanPair();
    }

    /** The look at one key's pair once no journal is left; content is checked by its size only. */
    method ScanPair() returns (ok: bool)
      requires Idle() && Visible(disk).txn.None?
      modifies this`knownImmutable
      ensures Idle() && (ok <==> LooksWhole(key, Visible(disk)))
      ensures ok ==> (knownImmutable <==> Held(now).Some? && Held(now).value.meta.immutable)
      ensures !ok ==> Torn(key, Visible(disk))
    {
      RunInv(key, states, events, |events|);
      VisibleShape(key, disk);
      if Visible(disk).json.None? {
        return Visible(disk).txt.None?;
      }
      var m := Visible(disk).json.value;
      if !MetaValid(key, m) || Visible(disk).txt.None? || |Visible(disk).txt.value| != m.size {
        return false;
      }
      if m.immutable {
        VisibleImmutable(key, disk);
        knownImmutable := true;
      }
      ok := true;
    }
  }

  /** With the lock held and no plan left, a visible journal is valid, and without one the pair is whole or torn. */
  lemma Settled(k: Key, d: Disk, w: Writer)
    requires WriterInv(k, d, w) && w.Busy? && w.plan == [] && (w.stage.Locked? || w.stage.Publishing?)
    ensures var f := Visible(d);
            if f.txn.Some? then TxnValid(k, f.txn.value) else w.stage.Locked? && (PairConsistent(k, f) || Torn(k, f))
  {
    InvDisk(k, d, w);
    VisibleShape(k, d);
    VisibleOf(d);
  }

  // ----- verifyAndDispatch

  /** One reference: its key and the files found under it, if the category exists. */
  datatype Ref = Ref(key: Key, found: Option<Files>)

  /** What has to be true of a reference before a dispatch may rely on it. */
  predicate Dispatchable(r: Ref, hash: Digest) {
    && r.found.Some? && ReadDurable(r.key, r.found.value).Found?
    && var a := ReadDurable(r.key, r.found.value).artifact;
       a.meta.immutable && r.key.embedded == Some(Sha256(a.content)) && Sha256(a.content) == hash
  }

  predicate Accepts(r: Ref, hash: Digest) {
    if r.found.None? then false
    else
      var f := r.found.value;
      if f.txn.Some? || f.json.None? then false
      else if !MetaValid(r.key, f.json.value) then false
      else if !f.json.value.immutable || r.key.embedded.None? || r.key.embedded.value != f.json.value.sha256 then false
      else if f.txt.None? || !ContentValid(f.json.value, f.txt.value) then false
      else Sha256(f.txt.value) == hash
  }

  /** `dispatch` runs exactly when every reference is an immutable artifact with the given hash. */
  method VerifyAndDispatch(refs: seq<Ref>, hashes: seq<Digest>) returns (dispatched: bool)
    ensures dispatched <==>
              |refs| == |hashes| && forall i :: 0 <= i < |refs| ==> Dispatchable(refs[i], hashes[i])
  {
    if |refs| != |hashes| {
      return false;
    }
    for i := 0 to |refs|
      invariant forall j :: 0 <= j < i ==> Dispatchable(refs[j], hashes[j])
    {
      if !Accepts(refs[i], hashes[i]) {
        assert !Dispatchable(refs[i], hashes[i]);
        return false;
      }
    }
    return true;
  }
}
