/**
 When a store still opens after a system crash, for one key and for any number of keys whose file names
 are disjoint.
 */
module StoreCrash {
  import opened Common
  import opened JournalDisk
  import opened Journal
  import opened JournalFragile
  import opened JournalProtocol
  import opened StoreScan

  lemma SoundOpens(k: Key, f: Files)
    requires Sound(k, f)
    ensures Opens(k, f)
  {
  }

  /** A pair no read accepts, though its content has the recorded size. */
  predicate SizeFits(k: Key, f: Files) {
    && f.json.Some? && MetaValid(k, f.json.value) && f.txt.Some?
    && |f.txt.value| == f.json.value.size && Sha256(f.txt.value) != f.json.value.sha256
  }

  lemma TornOpensIff(k: Key, f: Files)
    requires Torn(k, f)
    ensures Opens(k, f) <==> SizeFits(k, f)
  {
  }

  /** The journal replaces content by other content of the same size. */
  predicate SameSize(before: Option<Artifact>, t: Txn) {
    t.PutTxn? && before.Some? && |before.value.content| == |t.content|
  }

  /** What a crash mixes from a replay over an undurable journal opens exactly when only bytes changed. */
  lemma FragileTornOpensIff(k: Key, d: Disk, i: nat, f: Files)
    requires Fragile(k, d, i) && CrashImage(d, f) && Torn(k, f)
    ensures Opens(k, f) <==> SameSize(Value(Visible(Under(d, i))), d.pending[i].t)
  {
    FragileMixed(k, d, i, f);
    MixedOpensIff(k, d.pending[i].t, Visible(Under(d, i)), f);
  }

  lemma MixedOpensIff(k: Key, t: Txn, before: Files, f: Files)
    requires before.txn.None? && PairConsistent(k, before) && Torn(k, f)
    requires f.txt == before.txt || f.txt == if t.PutTxn? then Some(t.content) else None
    requires f.json == before.json || (t.DeleteTxn? && f.json.None?)
    ensures Opens(k, f) <==> SameSize(Value(before), t)
  {
  }

  /** A replay that changes the size, or deletes, is pending over a journal that is not durable. */
  ghost predicate Closable(k: Key, d: Disk) {
    exists i: nat :: ClosableAt(k, d, i)
  }

  ghost predicate ClosableAt(k: Key, d: Disk, i: nat) {
    Fragile(k, d, i) && i + 1 < |d.pending| && !SameSize(Value(Visible(Under(d, i))), d.pending[i].t)
  }

  /** The key lets the store open, whatever a crash loses of its directory. */
  ghost predicate AlwaysOpens(k: Key, d: Disk) {
    forall f :: CrashImage(d, f) ==> Opens(k, f)
  }

  /** What can be seen before the crash. */
  ghost predicate Survives(k: Key, d: Disk) {
    if Torn(k, Visible(d)) then SizeFits(k, Visible(d)) else !Closable(k, d)
  }

  lemma TornDiskOpensIff(k: Key, d: Disk)
    requires TornDisk(k, d)
    ensures AlwaysOpens(k, d) <==> SizeFits(k, Visible(d))
  {
    var f := d.synced;
    assert Visible(d) == f;
    TornOpensIff(k, f);
    assert CrashImage(d, f) by {
      VisibleOf(d);
    }
    forall g | CrashImage(d, g)
      ensures g == f
    {
    }
  }

  lemma ClosableCloses(k: Key, d: Disk, i: nat)
    requires ClosableAt(k, d, i)
    ensures !AlwaysOpens(k, d)
  {
    var f := Tears(k, d, i);
    FragileTornOpensIff(k, d, i, f);
  }

  lemma NotClosableOpens(k: Key, d: Disk, f: Files)
    requires DiskInv(k, d) && !TornDisk(k, d) && !Closable(k, d) && CrashImage(d, f)
    ensures Opens(k, f)
  {
    CrashImages(k, d, f);
    if Torn(k, f) {
      var i: nat :| Fragile(k, d, i) && i + 1 < |d.pending|;
      assert !ClosableAt(k, d, i);
      FragileTornOpensIff(k, d, i, f);
    } else {
      SoundOpens(k, f);
    }
  }

  lemma DiskOpensIff(k: Key, d: Disk)
    requires DiskInv(k, d)
    ensures AlwaysOpens(k, d) <==> Survives(k, d)
  {
    VisibleShape(k, d);
    if TornDisk(k, d) {
      TornDiskOpensIff(k, d);
    } else if i: nat :| ClosableAt(k, d, i) {
      ClosableCloses(k, d, i);
    } else {
      forall f | CrashImage(d, f)
        ensures Opens(k, f)
      {
        NotClosableOpens(k, d, f);
      }
    }
  }

  /** In every reachable state, every crash leaves files over which the store opens exactly when the key survives. */
  lemma KeyOpensIff(k: Key, ss: seq<State>, es: seq<Event>, n: nat)
    requires Run(k, ss, es) && n <= |es|
    ensures AlwaysOpens(k, ss[n].disk) <==> Survives(k, ss[n].disk)
  {
    RunInv(k, ss, es, n);
    InvDisk(k, ss[n].disk, ss[n].writer);
    DiskOpensIff(k, ss[n].disk);
  }

  // ----- any number of keys

  /** One key's run, observed after its first `n` steps. */
  datatype History = History(states: seq<State>, events: seq<Event>, n: nat)

  ghost predicate Reached(k: Key, h: History) {
    Run(k, h.states, h.events) && h.n <= |h.events|
  }

  function Disks(histories: map<Id, History>): map<Id, Disk>
    requires forall id :: id in histories ==> histories[id].n < |histories[id].states|
  {
    map id | id in histories :: histories[id].states[histories[id].n].disk
  }

  /** A crash of the whole system leaves each key one of its own images. */
  ghost predicate Leaves(disks: map<Id, Disk>, files: map<Id, Files>) {
    files.Keys == disks.Keys && forall id :: id in disks ==> CrashImage(disks[id], files[id])
  }

  ghost predicate StoreOpens(key: Id -> Key, files: map<Id, Files>) {
    forall id :: id in files ==> Opens(key(id), files[id])
  }

  lemma OthersUntouched(disks: map<Id, Disk>, id: Id, f: Files) returns (files: map<Id, Files>)
    requires id in disks && CrashImage(disks[id], f)
    ensures Leaves(disks, files) && files[id] == f
  {
    files := map x | x in disks :: if x == id then f else Visible(disks[x]);
    forall x | x in disks
      ensures CrashImage(disks[x], files[x])
    {
      VisibleOf(disks[x]);
    }
  }

  /**
   However many keys are at whatever points of their protocols, the store opens after every crash if and
   only if every key survives: one that does not closes the store to all of them.
   */
  lemma StoreOpensIff(key: Id -> Key, histories: map<Id, History>)
    requires forall id :: id in histories ==>
               Reached(key(id), histories[id]) && histories[id].n < |histories[id].states|
    ensures var disks := Disks(histories);
            (forall files :: Leaves(disks, files) ==> StoreOpens(key, files))
            <==> forall id :: id in disks ==> Survives(key(id), disks[id])
  {
    var disks := Disks(histories);
    forall id | id in disks
      ensures AlwaysOpens(key(id), disks[id]) <==> Survives(key(id), disks[id])
    {
      assert Reached(key(id), histories[id]);
      KeyOpensIff(key(id), histories[id].states, histories[id].events, histories[id].n);
    }
    EachOpensIff(key, disks);
  }

  lemma EachOpensIff(key: Id -> Key, disks: map<Id, Disk>)
    ensures (forall files :: Leaves(disks, files) ==> StoreOpens(key, files))
            <==> forall id :: id in disks ==> AlwaysOpens(key(id), disks[id])
  {
    if forall files :: Leaves(disks, files) ==> StoreOpens(key, files) {
      forall id, f | id in disks && CrashImage(disks[id], f)
        ensures Opens(key(id), f)
      {
        var files := OthersUntouched(disks, id, f);
        assert StoreOpens(key, files);
      }
    }
  }

  /** Without a death between a journal's rename and its sync, the store opens after every crash. */
  lemma OrderlyOpens(k: Key, ss: seq<State>, es: seq<Event>, n: nat)
    requires Run(k, ss, es) && n <= |es| && Sound(k, ss[0].disk.synced)
    requires forall i :: 0 <= i < n && es[i].Die? ==> !Window(ss[i].writer)
    ensures AlwaysOpens(k, ss[n].disk)
  {
    OrderlyRuns(k, ss, es, n);
    KeyOpensIff(k, ss, es, n);
    ClosableExposed(k, ss[n].disk);
  }

  lemma ClosableExposed(k: Key, d: Disk)
    ensures Closable(k, d) ==> Exposed(k, d)
  {
    if i: nat :| ClosableAt(k, d, i) {
      assert !SameContent(Value(Visible(Under(d, i))), d.pending[i].t);
    }
  }

  /** Replaying a journal that was found is what recovery in the protocol does. */
  lemma RecoveredByReplay(k: Key, f: Files)
    requires Sound(k, f) && f.txn.Some?
    ensures Visible(ExecAll(Disk(f, []), Replay(f.txn.value))) == Recovered(f)
  {
    var t := f.txn.value;
    ReplayToEnd(k, Disk(f, []), t, Replay(t));
    RecoveryCompletes(k, f);
  }
}
