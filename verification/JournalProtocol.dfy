/**
 One artifact key under any interleaving of a lock-holding writer, lock-free
 readers, processes that die and system crashes.  Every rename, unlink and sync of
 a writer and every file access of a reader is a separate step.
 */
module JournalProtocol {
  import opened Common
  import opened JournalDisk
  import opened Journal
  import opened JournalFragile

  datatype Stage = Locked | Recovering | Checking | Publishing | Replaying

  /** The holder of the key lock; `plan` are the directory operations left in its stage. */
  datatype Writer =
    | Free
    | Busy(op: Op, stage: Stage, plan: seq<Prim>, before: Option<Artifact>)

  datatype Outcome = Failed | Returned(value: Option<Artifact>)

  datatype ReaderPc =
    | Started
    | JournalAbsent
    | MetaStated(present: bool)
    | BothPresent
    | MetaRead(meta: Meta)
    | Finished(outcome: Outcome)

  /** `seen` are the values the key held at some instant since the read began. */
  datatype Reader = Reader(pc: ReaderPc, seen: set<Option<Artifact>>)

  datatype State = State(disk: Disk, writer: Writer, readers: map<nat, Reader>)

  datatype Event =
    | Begin(op: Op)                 // a writer acquires the key lock
    | Primitive                     // its next rename, unlink or sync
    | Continue                      // it moves to its next stage
    | Die                           // it dies or throws; the lock is recovered, the disk stays
    | Crash(keep: seq<bool>)        // the system stops, losing unsynced operations
    | StartRead(r: nat)
    | ReadStep(r: nat)              // one file access of readContent
    | VerifyStep(r: nat)            // verifyAndDispatch opens the metadata without the two lstats

  function Held(s: State): Option<Artifact> {
    Value(Visible(s.disk))
  }

  /** The writer has renamed its journal into place and not yet synced the directory. */
  predicate Window(w: Writer) {
    w.Busy? && w.stage == Publishing && w.plan == [Sync]
  }

  /** No crash can take away the journal that is visible. */
  ghost predicate JournalDurable(d: Disk) {
    Visible(d).txn.None? || OnlyTxn(d, Visible(d).txn)
  }

  ghost predicate Init(k: Key, s: State) {
    && (Sound(k, s.disk.synced) || Torn(k, s.disk.synced)) && s.disk.pending == []
    && s.writer == Free && s.readers == map[]
  }

  predicate Enabled(k: Key, s: State, e: Event) {
    match e
    case Begin(op) => s.writer.Free? && OpFor(k, op)
    case Primitive => s.writer.Busy? && s.writer.plan != []
    case Continue => s.writer.Busy? && s.writer.plan == []
    case Die => s.writer.Busy?
    case Crash(keep) => |keep| == |s.disk.pending|
    case StartRead(r) => r !in s.readers
    case ReadStep(r) => r in s.readers && !s.readers[r].pc.Finished?
    case VerifyStep(r) => r in s.readers && s.readers[r].pc.JournalAbsent?
  }

  function RecoverFrom(k: Key, f: Files, w: Writer, replay: Stage, none: Stage): Writer
    requires w.Busy?
  {
    if f.txn.None? then w.(stage := none)
    else if TxnValid(k, f.txn.value) then w.(stage := replay, plan := Replay(f.txn.value))
    else Free
  }

  function ContinueWriter(k: Key, f: Files, w: Writer): Writer
    requires w.Busy? && w.plan == []
  {
    match w.stage
    case Locked => RecoverFrom(k, f, w, Recovering, Checking)
    case Recovering => w.(stage := Checking)
    case Checking =>
      (match Decide(w.op, ReadDurable(k, f))
       case Stop => Free
       case Commit(t) => w.(stage := Publishing, plan := Publish(t), before := Value(f)))
    case Publishing => RecoverFrom(k, f, w, Replaying, Replaying)
    case Replaying => Free
  }

  function ReadNext(k: Key, f: Files, pc: ReaderPc): ReaderPc
    requires !pc.Finished?
  {
    match pc
    case Started => if f.txn.Some? then Finished(Failed) else JournalAbsent
    case JournalAbsent => MetaStated(f.json.Some?)
    case MetaStated(present) =>
      if present then (if f.txt.Some? then BothPresent else Finished(Failed))
      else Finished(if f.txt.Some? then Failed else Returned(None))
    case BothPresent =>
      if f.json.Some? && MetaValid(k, f.json.value) then MetaRead(f.json.value) else Finished(Failed)
    case MetaRead(m) =>
      Finished(if f.txt.Some? && ContentValid(m, f.txt.value) then Returned(Some(Artifact(m, f.txt.value))) else Failed)
  }

  function Observe(readers: map<nat, Reader>, v: Option<Artifact>): map<nat, Reader> {
    map r | r in readers :: readers[r].(seen := readers[r].seen + {v})
  }

  function Next(k: Key, s: State, e: Event): State
    requires Enabled(k, s, e)
  {
    var f := Visible(s.disk);
    match e
    case Begin(op) => s.(writer := Busy(op, Locked, [], None))
    case Primitive =>
      var d := Exec(s.disk, s.writer.plan[0]);
      State(d, s.writer.(plan := s.writer.plan[1..]), Observe(s.readers, Value(Visible(d))))
    case Continue => s.(writer := ContinueWriter(k, f, s.writer))
    case Die => s.(writer := Free)
    case Crash(keep) => State(Disk(Survivors(s.disk.synced, s.disk.pending, keep), []), Free, map[])
    case StartRead(r) => s.(readers := s.readers[r := Reader(Started, {Value(f)})])
    case ReadStep(r) => s.(readers := s.readers[r := s.readers[r].(pc := ReadNext(k, f, s.readers[r].pc))])
    case VerifyStep(r) => s.(readers := s.readers[r := s.readers[r].(pc := BothPresent)])
  }

  /** What the store relies on and does not enforce. */
  predicate Disciplined(k: Key, e: Event) {
    e.Begin? ==> PutAllowed(k, e.op)
  }

  ghost predicate Run(k: Key, ss: seq<State>, es: seq<Event>) {
    && |ss| == |es| + 1 && Init(k, ss[0])
    && forall i {:trigger es[i]} :: 0 <= i < |es| ==>
      Enabled(k, ss[i], es[i]) && Disciplined(k, es[i]) && ss[i + 1] == Next(k, ss[i], es[i])
  }

  lemma RunExtends(k: Key, ss: seq<State>, es: seq<Event>, e: Event)
    requires Run(k, ss, es) && Enabled(k, ss[|es|], e) && Disciplined(k, e)
    ensures Run(k, ss + [Next(k, ss[|es|], e)], es + [e])
  {
    var ss', es' := ss + [Next(k, ss[|es|], e)], es + [e];
    forall i {:trigger es'[i]} | 0 <= i < |es'|
      ensures Enabled(k, ss'[i], es'[i]) && Disciplined(k, es'[i]) && ss'[i + 1] == Next(k, ss'[i], es'[i])
    {
      assert i < |es| ==> ss'[i] == ss[i] && ss'[i + 1] == ss[i + 1] && es'[i] == es[i];
    }
  }

  // ----- invariant

  ghost predicate TornDisk(k: Key, d: Disk) {
    d.pending == [] && Torn(k, d.synced)
  }

  ghost predicate DiskInv(k: Key, d: Disk) {
    Rest(k, d) || (exists t :: Journaled(k, d, t)) || (exists i: nat :: Fragile(k, d, i)) || TornDisk(k, d)
  }

  /** A replay, over a durable journal or over one no sync has reached. */
  ghost predicate Replays(k: Key, d: Disk, plan: seq<Prim>) {
    (exists t :: ReplayPoint(k, d, t, plan)) || exists i: nat :: EarlyPoint(k, d, i, plan)
  }

  ghost predicate Publishes(k: Key, d: Disk, plan: seq<Prim>, before: Option<Artifact>) {
    || (|plan| == 2 && plan[0].SetTxn? && plan[1] == Sync && Rest(k, d)
        && before == Value(Visible(d)) && Publishable(k, plan[0].t, before))
    || (plan == [Sync] && d.pending != [] && Fragile(k, d, |d.pending| - 1)
        && before == Value(Visible(Under(d, |d.pending| - 1))))
    || (plan == [] && exists t :: Journaled(k, d, t))
  }

  ghost predicate WriterInv(k: Key, d: Disk, w: Writer) {
    match w
    case Free => DiskInv(k, d)
    case Busy(op, stage, plan, before) =>
      && OpFor(k, op) && PutAllowed(k, op)
      && match stage
         case Locked => plan == [] && DiskInv(k, d)
         case Checking => plan == [] && (Rest(k, d) || TornDisk(k, d))
         case Publishing => Publishes(k, d, plan, before)
         case _ => Replays(k, d, plan)
  }

  /** The metadata on disk, and the journal, were the key's value while the reader was reading. */
  ghost predicate PairSeen(k: Key, f: Files, seen: set<Option<Artifact>>) {
    && (f.json.None? ==> None in seen)
    && (f.json.Some? ==> Some(Artifact(f.json.value, f.json.value.sha256.bytes)) in seen)
  }

  ghost predicate ReaderInv(k: Key, f: Files, r: Reader) {
    && Value(f) in r.seen
    && match r.pc
       case Started => true
       case Finished(o) => o.Returned? ==> o.value in r.seen
       case JournalAbsent => PairSeen(k, f, r.seen)
       case BothPresent => PairSeen(k, f, r.seen)
       case MetaStated(present) => PairSeen(k, f, r.seen) && (!present ==> None in r.seen)
       case MetaRead(m) => Some(Artifact(m, m.sha256.bytes)) in r.seen
  }

  /** Over torn files a reader only ever finds what makes it fail. */
  predicate TornReader(k: Key, f: Files, pc: ReaderPc) {
    match pc
    case MetaStated(present) => present == f.json.Some?
    case MetaRead(m) => f.json == Some(m) && MetaValid(k, m)
    case Finished(o) => o.Failed?
    case _ => true
  }

  ghost predicate ReaderOk(k: Key, f: Files, r: Reader) {
    if Torn(k, f) then TornReader(k, f, r.pc) else ReaderInv(k, f, r)
  }

  ghost predicate Inv(k: Key, s: State) {
    && WriterInv(k, s.disk, s.writer)
    && forall r :: r in s.readers ==> ReaderOk(k, Visible(s.disk), s.readers[r])
  }

  // ----- the invariant is inductive

  lemma SoundDisk(k: Key, f: Files)
    requires Sound(k, f) || Torn(k, f)
    ensures DiskInv(k, Disk(f, []))
  {
    var d := Disk(f, []);
    if Torn(k, f) {
      assert TornDisk(k, d);
    } else if f.txn.Some? {
      assert Journaled(k, d, f.txn.value);
    } else {
      assert Rest(k, d);
    }
  }

  lemma InitInv(k: Key, s: State)
    requires Init(k, s)
    ensures Inv(k, s)
  {
    SoundDisk(k, s.disk.synced);
  }

  lemma ReplayDisk(k: Key, d: Disk, plan: seq<Prim>)
    requires Replays(k, d, plan)
    ensures DiskInv(k, d)
  {
    if t :| ReplayPoint(k, d, t, plan) {
      ReplayPointValue(k, d, t, plan);
    }
  }

  lemma InvDisk(k: Key, d: Disk, w: Writer)
    requires WriterInv(k, d, w)
    ensures DiskInv(k, d)
  {
    if w.Busy? && (w.stage.Recovering? || w.stage.Replaying?) {
      ReplayDisk(k, d, w.plan);
    }
  }

  /** What is visible tells the shape. */
  lemma VisibleShape(k: Key, d: Disk)
    requires DiskInv(k, d)
    ensures Torn(k, Visible(d)) <==> TornDisk(k, d)
    ensures Visible(d).txn.None? <==> Rest(k, d) || TornDisk(k, d)
    ensures Visible(d).txn.Some? ==> TxnValid(k, Visible(d).txn.value)
    ensures Visible(d).txn.Some? && JournalDurable(d) ==> Journaled(k, d, Visible(d).txn.value)
  {
    VisibleOf(d);
    if i: nat :| Fragile(k, d, i) {
      FragileVisible(k, d, i);
      FragileNotDurable(k, d, i);
    }
  }

  lemma FragileNotDurable(k: Key, d: Disk, i: nat)
    requires Fragile(k, d, i)
    ensures !JournalDurable(d)
  {
    FragileVisible(k, d, i);
    VisibleOf(Under(d, i));
    if OnlyTxn(d, Some(d.pending[i].t)) {
      assert forall p :: p in d.pending[..i] ==> p in d.pending;
      assert OnlyTxn(Under(d, i), Some(d.pending[i].t));
      assert false;
    }
  }

  lemma RenameFragile(k: Key, d: Disk, t: Txn)
    requires Rest(k, d) && Publishable(k, t, Value(Visible(d)))
    ensures var n := |d.pending|; Fragile(k, Exec(d, SetTxn(t)), n) && Under(Exec(d, SetTxn(t)), n) == d
  {
    assert (d.pending + [SetTxn(t)])[..|d.pending|] == d.pending;
  }

  lemma PublishPrimitive(k: Key, d: Disk, plan: seq<Prim>, before: Option<Artifact>)
    requires Publishes(k, d, plan, before) && plan != []
    ensures Publishes(k, Exec(d, plan[0]), plan[1..], before)
  {
    if |plan| == 2 {
      RenameFragile(k, d, plan[0].t);
      assert plan[1..] == [Sync];
    } else {
      var t := d.pending[|d.pending| - 1].t;
      assert Journaled(k, Exec(d, Sync), t) by {
        FragileSync(k, d, |d.pending| - 1);
      }
    }
  }

  lemma ReplayPrimitive(k: Key, d: Disk, plan: seq<Prim>)
    requires Replays(k, d, plan) && plan != []
    ensures Replays(k, Exec(d, plan[0]), plan[1..])
  {
    if t :| ReplayPoint(k, d, t, plan) {
      ReplayStep(k, d, t, plan);
    } else {
      var i: nat :| EarlyPoint(k, d, i, plan);
      EarlyStep(k, d, i, plan);
    }
  }

  lemma PrimitiveWriter(k: Key, d: Disk, w: Writer)
    requires WriterInv(k, d, w) && w.Busy? && w.plan != []
    ensures WriterInv(k, Exec(d, w.plan[0]), w.(plan := w.plan[1..]))
  {
    if w.stage.Publishing? {
      PublishPrimitive(k, d, w.plan, w.before);
    } else {
      ReplayPrimitive(k, d, w.plan);
    }
  }

  /** A visible journal can be replayed from its start. */
  lemma ReplayStarts(k: Key, d: Disk)
    requires DiskInv(k, d) && Visible(d).txn.Some?
    ensures TxnValid(k, Visible(d).txn.value) && Replays(k, d, Replay(Visible(d).txn.value))
  {
    VisibleShape(k, d);
    VisibleOf(d);
    if t :| Journaled(k, d, t) {
      assert ReplayPoint(k, d, t, Replay(t));
    } else {
      var i: nat :| Fragile(k, d, i);
      FragileVisible(k, d, i);
      assert EarlyPoint(k, d, i, Replay(d.pending[i].t));
    }
  }

  lemma ReplayEnds(k: Key, d: Disk)
    requires Replays(k, d, [])
    ensures Rest(k, d)
  {
    if i: nat :| EarlyPoint(k, d, i, []) {
      EarlyStep(k, d, i, []);
      assert false;
    }
  }

  lemma CheckingInv(k: Key, d: Disk, w: Writer)
    requires WriterInv(k, d, w) && w.Busy? && w.stage.Checking?
    ensures WriterInv(k, d, ContinueWriter(k, Visible(d), w))
  {
    var f := Visible(d);
    var c := Decide(w.op, ReadDurable(k, f));
    if c.Commit? {
      DecideValid(k, w.op, ReadDurable(k, f));
      assert Publishable(k, c.t, Value(f));
    }
  }

  lemma ContinueInv(k: Key, d: Disk, w: Writer)
    requires WriterInv(k, d, w) && w.Busy? && w.plan == []
    ensures WriterInv(k, d, ContinueWriter(k, Visible(d), w))
  {
    InvDisk(k, d, w);
    VisibleShape(k, d);
    if w.stage.Checking? {
      CheckingInv(k, d, w);
    } else if w.stage.Recovering? || w.stage.Replaying? {
      ReplayEnds(k, d);
    } else if Visible(d).txn.Some? {
      ReplayStarts(k, d);
    } else if w.stage.Publishing? {
      var t :| Journaled(k, d, t);
      VisibleOf(d);
      assert false;
    }
  }

  /**
   Every crash image is whole, unless a replay was under way over a journal no sync had
   reached, or the files were torn before.
   */
  lemma CrashImages(k: Key, d: Disk, f: Files)
    requires DiskInv(k, d) && CrashImage(d, f)
    ensures Whole(k, d, f) || (Torn(k, f) && (Exposed(k, d) || TornDisk(k, d)))
    ensures Rest(k, d) || (exists t :: Journaled(k, d, t)) ==> Value(f) == Value(Visible(d))
  {
    if Rest(k, d) {
      RestImages(k, d, f);
    } else if t :| Journaled(k, d, t) {
      JournaledImages(k, d, t, f);
    } else if i: nat :| Fragile(k, d, i) {
      FragileImages(k, d, i, f);
      FragileVisible(k, d, i);
    }
  }

  lemma PlanNotTorn(k: Key, d: Disk, w: Writer)
    requires WriterInv(k, d, w) && w.Busy? && !w.stage.Locked? && !w.stage.Checking?
    ensures !Torn(k, Visible(d))
  {
    InvDisk(k, d, w);
    VisibleShape(k, d);
    VisibleOf(d);
    if w.stage.Publishing? {
      if w.plan == [] {
        var t :| Journaled(k, d, t);
      }
    } else if t :| ReplayPoint(k, d, t, w.plan) {
      ReplayPointValue(k, d, t, w.plan);
    }
  }

  /** New metadata appears only while the key already holds the artifact it describes. */
  predicate MetaExplained(f: Files, json: Option<Meta>) {
    || json == f.json
    || (json.None? && Value(f).None?)
    || (json.Some? && Value(f) == Some(Artifact(json.value, json.value.sha256.bytes)))
  }

  lemma OpExplained(k: Key, f: Files, t: Txn, p: Prim)
    requires Value(f) == TxnValue(t)
    requires p.SetJson? ==> TxnValid(k, t) && t.PutTxn? && p.m == t.meta
    requires p.UnlinkJson? ==> t.DeleteTxn?
    ensures MetaExplained(f, Apply(f, p).json)
  {
  }

  lemma DurableMeta(k: Key, d: Disk, t: Txn, plan: seq<Prim>)
    requires ReplayPoint(k, d, t, plan) && plan != []
    ensures MetaExplained(Visible(d), Visible(Exec(d, plan[0])).json)
  {
    var p := plan[0];
    assert (p.SetJson? ==> TxnValid(k, t) && t.PutTxn? && p.m == t.meta) && (p.UnlinkJson? ==> t.DeleteTxn?) by {
      ReplayPrim(k, d, t, plan);
    }
    assert Value(Visible(d)) == TxnValue(t) by {
      ReplayPointValue(k, d, t, plan);
    }
    OpExplained(k, Visible(d), t, p);
    ExecVisible(d, plan[0]);
  }

  lemma EarlyPrim(k: Key, d: Disk, i: nat, plan: seq<Prim>)
    requires EarlyPoint(k, d, i, plan)
    ensures plan != [] && !plan[0].SetTxn?
    ensures Value(Visible(Exec(d, plan[0]))) == Value(Visible(d))
    ensures MetaExplained(Visible(d), Visible(Exec(d, plan[0])).json)
  {
    var t := d.pending[i].t;
    UnsyncedHead(t, plan);
    assert Visible(d).txn == Some(t) by {
      FragileVisible(k, d, i);
    }
    OpVisible(d, t, plan[0]);
  }

  lemma OpUnderJournal(f: Files, t: Txn, p: Prim)
    requires f.txn == Some(t) && (p == Sync || ReplayOp(t, p))
    ensures !p.SetTxn? && Value(Apply(f, p)) == Value(f) && MetaExplained(f, Apply(f, p).json)
  {
  }

  lemma OpVisible(d: Disk, t: Txn, p: Prim)
    requires Visible(d).txn == Some(t) && (p == Sync || ReplayOp(t, p))
    ensures !p.SetTxn? && Value(Visible(Exec(d, p))) == Value(Visible(d))
    ensures MetaExplained(Visible(d), Visible(Exec(d, p)).json)
  {
    ExecVisible(d, p);
    OpUnderJournal(Visible(d), t, p);
  }

  lemma PrimitiveMeta(k: Key, d: Disk, w: Writer)
    requires WriterInv(k, d, w) && w.Busy? && w.plan != []
    ensures MetaExplained(Visible(d), Visible(Exec(d, w.plan[0])).json)
  {
    if w.stage.Publishing? {
      ExecVisible(d, w.plan[0]);
    } else if t :| ReplayPoint(k, d, t, w.plan) {
      DurableMeta(k, d, t, w.plan);
    } else {
      var i: nat :| EarlyPoint(k, d, i, w.plan);
      EarlyPrim(k, d, i, w.plan);
    }
  }

  /** A directory operation never shows metadata the reader has not seen as a value. */
  lemma PrimitiveReader(k: Key, d: Disk, w: Writer, r: Reader)
    requires WriterInv(k, d, w) && w.Busy? && w.plan != []
    requires ReaderOk(k, Visible(d), r)
    ensures var f := Visible(Exec(d, w.plan[0]));
            ReaderOk(k, f, r.(seen := r.seen + {Value(f)}))
  {
    PlanNotTorn(k, d, w);
    PrimitiveWriter(k, d, w);
    PlanNotTorn(k, Exec(d, w.plan[0]), w.(plan := w.plan[1..]));
    PrimitiveMeta(k, d, w);
  }

  lemma ReadStepInv(k: Key, d: Disk, r: Reader)
    requires DiskInv(k, d) && ReaderOk(k, Visible(d), r) && !r.pc.Finished?
    ensures ReaderOk(k, Visible(d), r.(pc := ReadNext(k, Visible(d), r.pc)))
  {
    var f := Visible(d);
    VisibleShape(k, d);
    if r.pc.Started? && f.txn.None? && !Torn(k, f) {
      assert PairConsistent(k, f);
    }
  }

  lemma CrashInv(k: Key, s: State, keep: seq<bool>)
    requires Inv(k, s) && |keep| == |s.disk.pending|
    ensures Inv(k, Next(k, s, Crash(keep)))
  {
    var f := Survivors(s.disk.synced, s.disk.pending, keep);
    assert CrashImage(s.disk, f);
    InvDisk(k, s.disk, s.writer);
    CrashImages(k, s.disk, f);
    InitInv(k, Next(k, s, Crash(keep)));
  }

  lemma StepInv(k: Key, s: State, e: Event)
    requires Inv(k, s) && Enabled(k, s, e) && Disciplined(k, e)
    ensures Inv(k, Next(k, s, e))
  {
    InvDisk(k, s.disk, s.writer);
    match e {
      case Primitive =>
        PrimitiveWriter(k, s.disk, s.writer);
        forall r | r in s.readers {
          PrimitiveReader(k, s.disk, s.writer, s.readers[r]);
        }
      case Continue =>
        ContinueInv(k, s.disk, s.writer);
      case Crash(keep) =>
        CrashInv(k, s, keep);
      case ReadStep(r) =>
        ReadStepInv(k, s.disk, s.readers[r]);
      case _ =>
    }
  }

  lemma {:induction false} RunInv(k: Key, ss: seq<State>, es: seq<Event>, n: nat)
    requires Run(k, ss, es) && n <= |es|
    ensures Inv(k, ss[n])
  {
    if n == 0 {
      InitInv(k, ss[0]);
    } else {
      RunInv(k, ss, es, n - 1);
      StepInv(k, ss[n - 1], es[n - 1]);
    }
  }

  // ----- main results

  /**
   Crash atomicity: in every reachable state, whatever a system crash loses, the surviving
   files recover to exactly the pair the key holds or exactly the pair it held under a
   journal not yet durable.  The one exception is a replay over such a journal.
   */
  lemma CrashAtomicity(k: Key, ss: seq<State>, es: seq<Event>, n: nat, f: Files)
    requires Run(k, ss, es) && n <= |es| && CrashImage(ss[n].disk, f)
    ensures Whole(k, ss[n].disk, f)
            || (Torn(k, f) && (Exposed(k, ss[n].disk) || Torn(k, Visible(ss[n].disk))))
    ensures Sound(k, f) ==>
              var g := Visible(ExecAll(Disk(f, []), if f.txn.Some? then Replay(f.txn.value) else []));
              g.txn.None? && PairConsistent(k, g) && Value(g) == Value(f)
  {
    RunInv(k, ss, es, n);
    InvDisk(k, ss[n].disk, ss[n].writer);
    CrashImages(k, ss[n].disk, f);
    if Sound(k, f) {
      RecoveryCompletes(k, f);
    }
  }

  lemma DiskAtomicIff(k: Key, d: Disk)
    requires DiskInv(k, d) && !TornDisk(k, d)
    ensures (forall f :: CrashImage(d, f) ==> Whole(k, d, f)) <==> !Exposed(k, d)
  {
    if Exposed(k, d) {
      var i: nat :| Fragile(k, d, i) && i + 1 < |d.pending|
                    && !SameContent(Value(Visible(Under(d, i))), d.pending[i].t);
      var f := Tears(k, d, i);
      assert !Whole(k, d, f);
    } else {
      forall f | CrashImage(d, f)
        ensures Whole(k, d, f)
      {
        CrashImages(k, d, f);
      }
    }
  }

  /** Exactly when: a reachable state survives every crash whole if and only if it is not exposed. */
  lemma AtomicIff(k: Key, ss: seq<State>, es: seq<Event>, n: nat)
    requires Run(k, ss, es) && n <= |es| && !Torn(k, Visible(ss[n].disk))
    ensures (forall f :: CrashImage(ss[n].disk, f) ==> Whole(k, ss[n].disk, f)) <==> !Exposed(k, ss[n].disk)
  {
    RunInv(k, ss, es, n);
    InvDisk(k, ss[n].disk, ss[n].writer);
    VisibleShape(k, ss[n].disk);
    DiskAtomicIff(k, ss[n].disk);
  }

  /** Nothing is torn, and a journal that is not durable is still in its own writer's hands. */
  ghost predicate Orderly(k: Key, s: State) {
    !Torn(k, Visible(s.disk)) && forall i: nat :: Fragile(k, s.disk, i) ==> Window(s.writer)
  }

  lemma OrderlyStep(k: Key, s: State, e: Event)
    requires Inv(k, s) && Enabled(k, s, e) && Disciplined(k, e) && Orderly(k, s)
    requires e.Die? ==> !Window(s.writer)
    ensures Orderly(k, Next(k, s, e))
  {
    var s' := Next(k, s, e);
    InvDisk(k, s.disk, s.writer);
    StepInv(k, s, e);
    InvDisk(k, s'.disk, s'.writer);
    if e.Primitive? {
      OrderlyPrimitive(k, s.disk, s.writer);
    } else if e.Crash? {
      assert CrashImage(s.disk, s'.disk.synced);
      CrashImages(k, s.disk, s'.disk.synced);
      OrderlyNotExposed(k, s);
    }
  }

  lemma OrderlyNotExposed(k: Key, s: State)
    requires Inv(k, s) && Orderly(k, s)
    ensures !Exposed(k, s.disk)
  {
    if i: nat :| Fragile(k, s.disk, i) && i + 1 < |s.disk.pending| {
      FragileUnique(k, s.disk, i, |s.disk.pending| - 1);
    }
  }

  lemma FragileUnique(k: Key, d: Disk, i: nat, j: nat)
    requires Fragile(k, d, i) && Fragile(k, d, j)
    ensures i == j
  {
  }

  lemma OrderlyPrimitive(k: Key, d: Disk, w: Writer)
    requires WriterInv(k, d, w) && w.Busy? && w.plan != [] && forall i: nat :: Fragile(k, d, i) ==> Window(w)
    ensures var d' := Exec(d, w.plan[0]);
            !Torn(k, Visible(d')) && forall i: nat :: Fragile(k, d', i) ==> Window(w.(plan := w.plan[1..]))
  {
    var d', w' := Exec(d, w.plan[0]), w.(plan := w.plan[1..]);
    PrimitiveWriter(k, d, w);
    PlanNotTorn(k, d', w');
    forall i: nat | Fragile(k, d', i)
      ensures Window(w')
    {
      FragileVisible(k, d', i);
      FragileNotDurable(k, d', i);
      if !w.stage.Publishing? {
        var t :| ReplayPoint(k, d, t, w.plan);
        ReplayStep(k, d, t, w.plan);
        ReplayPointValue(k, d', t, w'.plan);
        VisibleOf(d');
        assert false;
      }
    }
  }

  /**
   A process that never stops between renaming its journal and syncing the directory keeps
   every key whole: over such runs no state is exposed and nothing is ever torn.
   */
  lemma {:induction false} OrderlyRuns(k: Key, ss: seq<State>, es: seq<Event>, n: nat)
    requires Run(k, ss, es) && n <= |es| && Sound(k, ss[0].disk.synced)
    requires forall i :: 0 <= i < n && es[i].Die? ==> !Window(ss[i].writer)
    ensures !Exposed(k, ss[n].disk) && !Torn(k, Visible(ss[n].disk))
    ensures Orderly(k, ss[n])
  {
    if n > 0 {
      OrderlyRuns(k, ss, es, n - 1);
      RunInv(k, ss, es, n - 1);
      OrderlyStep(k, ss[n - 1], es[n - 1]);
    }
    RunInv(k, ss, es, n);
    OrderlyNotExposed(k, ss[n]);
  }

  /** Only publishing a journal, or a crash over one that is not durable, changes the value held. */
  lemma HeldChanges(k: Key, s: State, e: Event)
    requires Inv(k, s) && Enabled(k, s, e) && Disciplined(k, e)
    ensures var s' := Next(k, s, e);
            || Held(s') == Held(s)
            || (e.Primitive? && s.writer.plan[0].SetTxn? && Held(s) == s.writer.before
                && Held(s') == TxnValue(s.writer.plan[0].t))
            || (e.Crash? && HeldUnder(k, s.disk, Held(s')))
            || (e.Crash? && Exposed(k, s.disk) && Torn(k, Visible(s'.disk)))
  {
    match e {
      case Primitive =>
        ExecVisible(s.disk, s.writer.plan[0]);
        if !s.writer.stage.Publishing? {
          ReplayKeepsValue(k, s.disk, s.writer.plan);
        }
      case Crash(keep) =>
        var f' := Survivors(s.disk.synced, s.disk.pending, keep);
        assert CrashImage(s.disk, f');
        InvDisk(k, s.disk, s.writer);
        CrashImages(k, s.disk, f');
      case _ =>
    }
  }

  lemma ReplayKeepsValue(k: Key, d: Disk, plan: seq<Prim>)
    requires Replays(k, d, plan) && plan != []
    ensures Value(Visible(Exec(d, plan[0]))) == Value(Visible(d)) && !plan[0].SetTxn?
  {
    if t :| ReplayPoint(k, d, t, plan) {
      ReplayPrim(k, d, t, plan);
    } else {
      var i: nat :| EarlyPoint(k, d, i, plan);
      EarlyPrim(k, d, i, plan);
    }
  }

  // ----- crashes during recovery

  /** The step renames a new journal into place. */
  predicate RenamesJournal(s: State, e: Event) {
    e.Primitive? && s.writer.Busy? && s.writer.plan != [] && s.writer.plan[0].SetTxn?
  }

  ghost predicate NoneFragile(k: Key, d: Disk) {
    forall i: nat :: !Fragile(k, d, i)
  }

  lemma StayNoneFragile(k: Key, d: Disk, p: Prim)
    requires NoneFragile(k, d) && !p.SetTxn?
    ensures NoneFragile(k, Exec(d, p))
  {
    var d' := Exec(d, p);
    assert !p.Sync? ==> Under(d', |d.pending|) == d;
    forall i: nat | Fragile(k, d', i)
      ensures false
    {
      FragileLess(k, d', i);
    }
  }

  lemma RecoveryPrimitive(k: Key, d: Disk, w: Writer)
    requires WriterInv(k, d, w) && w.Busy? && w.plan != [] && !w.plan[0].SetTxn?
    ensures Value(Visible(Exec(d, w.plan[0]))) == Value(Visible(d))
  {
    ExecVisible(d, w.plan[0]);
    if !w.stage.Publishing? {
      ReplayKeepsValue(k, d, w.plan);
    }
  }

  lemma RecoveryCrash(k: Key, d: Disk, f: Files)
    requires DiskInv(k, d) && NoneFragile(k, d) && CrashImage(d, f)
    ensures Value(f) == Value(Visible(d))
  {
    CrashImages(k, d, f);
    if TornDisk(k, d) {
      assert f == d.synced;
    }
  }

  lemma RecoveryStep(k: Key, s: State, e: Event)
    requires Inv(k, s) && Enabled(k, s, e) && NoneFragile(k, s.disk) && !RenamesJournal(s, e)
    ensures NoneFragile(k, Next(k, s, e).disk) && Held(Next(k, s, e)) == Held(s)
  {
    if e.Primitive? {
      StayNoneFragile(k, s.disk, s.writer.plan[0]);
      RecoveryPrimitive(k, s.disk, s.writer);
    } else if e.Crash? {
      var f := Survivors(s.disk.synced, s.disk.pending, e.keep);
      assert CrashImage(s.disk, f);
      InvDisk(k, s.disk, s.writer);
      RecoveryCrash(k, s.disk, f);
      assert Visible(Disk(f, [])) == f;
    }
  }

  /**
   Recovery under fire: from the first crash on, whatever dies or crashes again and however
   often, the key holds what that crash left it until a new journal is published.
   */
  lemma {:induction false} CrashesKeepValue(k: Key, ss: seq<State>, es: seq<Event>, i: nat, j: nat)
    requires Run(k, ss, es) && i < j <= |es| && es[i].Crash?
    requires forall n {:trigger es[n]} :: i < n < j ==> !RenamesJournal(ss[n], es[n])
    ensures Held(ss[j]) == Held(ss[i + 1]) && NoneFragile(k, ss[j].disk)
    decreases j
  {
    var s, e := ss[j - 1], es[j - 1];
    assert ss[j] == Next(k, s, e);
    if i < j - 1 {
      CrashesKeepValue(k, ss, es, i, j - 1);
      RunInv(k, ss, es, j - 1);
      RecoveryStep(k, s, e);
    }
  }

  /** An immutable artifact is held, and no crash can take its journal away. */
  ghost predicate Secured(s: State) {
    Held(s).Some? && Held(s).value.meta.immutable && JournalDurable(s.disk)
  }

  lemma SecuredPrimitive(k: Key, d: Disk, w: Writer)
    requires WriterInv(k, d, w) && w.Busy? && w.plan != [] && JournalDurable(d)
    requires Value(Visible(d)).Some? && Value(Visible(d)).value.meta.immutable
    ensures Value(Visible(Exec(d, w.plan[0]))) == Value(Visible(d)) && JournalDurable(Exec(d, w.plan[0]))
  {
    if w.stage.Publishing? {
      PublishingOpen(k, d, w);
    } else if t :| ReplayPoint(k, d, t, w.plan) {
      ReplayPrim(k, d, t, w.plan);
      ReplayStep(k, d, t, w.plan);
      ReplayPointValue(k, Exec(d, w.plan[0]), t, w.plan[1..]);
      VisibleOf(Exec(d, w.plan[0]));
    } else {
      var i: nat :| EarlyPoint(k, d, i, w.plan);
      FragileNotDurable(k, d, i);
    }
  }

  lemma PublishingOpen(k: Key, d: Disk, w: Writer)
    requires WriterInv(k, d, w) && w.Busy? && w.stage.Publishing? && w.plan != []
    ensures Mutable(Value(Visible(d))) || !JournalDurable(d)
  {
    if w.plan == [Sync] {
      FragileNotDurable(k, d, |d.pending| - 1);
    }
  }

  lemma SecuredStep(k: Key, s: State, e: Event)
    requires Inv(k, s) && Enabled(k, s, e) && Disciplined(k, e) && Secured(s)
    ensures Secured(Next(k, s, e)) && Held(Next(k, s, e)) == Held(s)
  {
    if e.Primitive? {
      SecuredPrimitive(k, s.disk, s.writer);
    } else if e.Crash? {
      var f' := Survivors(s.disk.synced, s.disk.pending, e.keep);
      assert CrashImage(s.disk, f');
      InvDisk(k, s.disk, s.writer);
      VisibleShape(k, s.disk);
      CrashImages(k, s.disk, f');
    }
  }

  lemma SeenStep(k: Key, s: State, e: Event, r: nat, v: Option<Artifact>)
    requires Enabled(k, s, e) && r in Next(k, s, e).readers && v in Next(k, s, e).readers[r].seen
    ensures (r in s.readers && v in s.readers[r].seen) || Held(Next(k, s, e)) == v
  {
  }

  lemma {:induction false} SeenWasHeld(k: Key, ss: seq<State>, es: seq<Event>, n: nat, r: nat, v: Option<Artifact>)
      returns (i: nat)
    requires Run(k, ss, es) && n <= |es| && r in ss[n].readers && v in ss[n].readers[r].seen
    ensures i <= n && Held(ss[i]) == v
    ensures forall j :: i <= j <= n ==> r in ss[j].readers
  {
    i := n;
    if n > 0 {
      SeenStep(k, ss[n - 1], es[n - 1], r, v);
      if r in ss[n - 1].readers && v in ss[n - 1].readers[r].seen {
        i := SeenWasHeld(k, ss, es, n - 1, r, v);
      }
    }
  }

  /**
   Linearizable lock-free reads: a read that does not throw returns an artifact, or
   its absence, that the key held at an instant at which this read was under way.
   */
  lemma LinearizableRead(k: Key, ss: seq<State>, es: seq<Event>, n: nat, r: nat) returns (i: nat)
    requires Run(k, ss, es) && n <= |es| && r in ss[n].readers
    requires ss[n].readers[r].pc.Finished? && ss[n].readers[r].pc.outcome.Returned?
    ensures i <= n && Held(ss[i]) == ss[n].readers[r].pc.outcome.value
    ensures forall j :: i <= j <= n ==> r in ss[j].readers
  {
    RunInv(k, ss, es, n);
    i := SeenWasHeld(k, ss, es, n, r, ss[n].readers[r].pc.outcome.value);
  }

  lemma SecuredNext(k: Key, ss: seq<State>, es: seq<Event>, n: nat)
    requires Run(k, ss, es) && n < |es| && Secured(ss[n])
    ensures Secured(ss[n + 1]) && Held(ss[n + 1]) == Held(ss[n])
  {
    RunInv(k, ss, es, n);
    SecuredStep(k, ss[n], es[n]);
  }

  /**
   Immutability over whole runs: once an immutable artifact is held and its journal is
   durable, the key holds that artifact, metadata and content, in every later state.
   */
  lemma {:induction false} Immutability(k: Key, ss: seq<State>, es: seq<Event>, i: nat, j: nat)
    requires Run(k, ss, es) && i <= j <= |es| && Secured(ss[i])
    ensures Secured(ss[j]) && Held(ss[j]) == Held(ss[i])
    decreases j
  {
    if i < j {
      Immutability(k, ss, es, i, j - 1);
      SecuredNext(k, ss, es, j - 1);
    }
  }

  // ----- dispatching on verified artifacts

  /** The metadata a reader has already read, if any. */
  function MetaKnown(pc: ReaderPc): Option<Meta> {
    match pc
    case MetaRead(m) => Some(m)
    case Finished(Returned(Some(a))) => Some(a.meta)
    case _ => None
  }

  lemma VisibleImmutable(k: Key, d: Disk)
    requires DiskInv(k, d) && Visible(d).json.Some? && Visible(d).json.value.immutable
    ensures var m := Visible(d).json.value;
            Value(Visible(d)) == Some(Artifact(m, m.sha256.bytes)) && JournalDurable(d)
  {
    VisibleOf(d);
    if t :| Journaled(k, d, t) {
      VisibleSpared(d, t);
    } else if i: nat :| Fragile(k, d, i) {
      FragileMutable(k, d, i);
    }
  }

  /** The reader knows no immutable metadata, or exactly what the key now durably holds. */
  ghost predicate KnownHolds(s: State, r: nat) {
    r in s.readers ==>
      var m := MetaKnown(s.readers[r].pc);
      m.Some? && m.value.immutable ==>
        Secured(s) && Held(s) == Some(Artifact(m.value, m.value.sha256.bytes))
  }

  lemma SameMetaKnown(k: Key, s: State, e: Event, r: nat)
    requires Enabled(k, s, e) && r in Next(k, s, e).readers && MetaKnown(Next(k, s, e).readers[r].pc).Some?
    requires e == ReadStep(r) ==> !s.readers[r].pc.BothPresent?
    ensures r in s.readers && MetaKnown(s.readers[r].pc) == MetaKnown(Next(k, s, e).readers[r].pc)
  {
  }

  lemma KnownHoldsStep(k: Key, s: State, e: Event, r: nat)
    requires Inv(k, s) && Enabled(k, s, e) && Disciplined(k, e) && KnownHolds(s, r)
    ensures KnownHolds(Next(k, s, e), r)
  {
    var s' := Next(k, s, e);
    if r in s'.readers && MetaKnown(s'.readers[r].pc).Some? && MetaKnown(s'.readers[r].pc).value.immutable {
      if e == ReadStep(r) && s.readers[r].pc.BothPresent? {
        InvDisk(k, s.disk, s.writer);
        VisibleImmutable(k, s.disk);
      } else {
        SameMetaKnown(k, s, e, r);
        SecuredStep(k, s, e);
      }
    }
  }

  lemma {:induction false} KnownMetaHolds(k: Key, ss: seq<State>, es: seq<Event>, n: nat, r: nat)
    requires Run(k, ss, es) && n <= |es|
    ensures KnownHolds(ss[n], r)
  {
    if n > 0 {
      KnownMetaHolds(k, ss, es, n - 1, r);
      RunInv(k, ss, es, n - 1);
      KnownHoldsStep(k, ss[n - 1], es[n - 1], r);
    }
  }

  /**
   What a verification read accepted is still held whenever the caller dispatches: an
   immutable artifact it returned is the key's value in that state and every later one.
   */
  lemma VerifiedAtDispatch(k: Key, ss: seq<State>, es: seq<Event>, n: nat, r: nat, j: nat)
    requires Run(k, ss, es) && n <= j <= |es| && r in ss[n].readers
    requires ss[n].readers[r].pc.Finished? && ss[n].readers[r].pc.outcome.Returned?
    requires ss[n].readers[r].pc.outcome.value.Some? && ss[n].readers[r].pc.outcome.value.value.meta.immutable
    ensures Held(ss[j]) == ss[n].readers[r].pc.outcome.value
  {
    KnownMetaHolds(k, ss, es, n, r);
    ReturnedValid(k, ss, es, n, r);
    Immutability(k, ss, es, n, j);
  }

  /** A returned pair passed the digest check. */
  lemma {:induction false} ReturnedValid(k: Key, ss: seq<State>, es: seq<Event>, n: nat, r: nat)
    requires Run(k, ss, es) && n <= |es| && r in ss[n].readers
    requires ss[n].readers[r].pc.Finished? && ss[n].readers[r].pc.outcome.Returned?
    requires ss[n].readers[r].pc.outcome.value.Some?
    ensures var a := ss[n].readers[r].pc.outcome.value.value; ContentValid(a.meta, a.content)
  {
    var s, e := ss[n - 1], es[n - 1];
    if s.readers[r].pc.Finished? {
      ReturnedValid(k, ss, es, n - 1, r);
    }
  }
}
