/**
 Where the store's guarantees stop: what goes wrong without each side condition the
 code relies on, and exactly when.
 */
module JournalLimits {
  import opened Common
  import opened JournalDisk
  import opened Journal
  import opened JournalFragile
  import opened JournalProtocol

  // ----- a journal replayed before its directory entry is durable

  /** The disk after the first `n` operations of `plan`. */
  function Ahead(d: Disk, plan: seq<Prim>, n: nat): Disk
    requires n <= |plan|
    decreases n
  {
    if n == 0 then d else Ahead(Exec(d, plan[0]), plan[1..], n - 1)
  }

  ghost predicate CrashDuring(d: Disk, plan: seq<Prim>, n: nat, f: Files) {
    n <= |plan| && CrashImage(Ahead(d, plan, n), f)
  }

  /** Whatever a system crash loses at any point of replaying t, the pair stays whole. */
  ghost predicate ReplayAtomic(k: Key, d: Disk, t: Txn, before: Option<Artifact>) {
    forall n: nat, f: Files :: CrashDuring(d, Replay(t), n, f) ==>
      Sound(k, f) && (Value(f) == before || Value(f) == TxnValue(t))
  }

  lemma PointImages(k: Key, d: Disk, t: Txn, plan: seq<Prim>, f: Files)
    requires ReplayPoint(k, d, t, plan) && CrashImage(d, f)
    ensures Sound(k, f) && Value(f) == TxnValue(t)
  {
    ReplayPointValue(k, d, t, plan);
    if Rest(k, d) {
      RestImages(k, d, f);
    } else {
      JournaledImages(k, d, t, f);
    }
  }

  lemma {:induction false} ReplayAhead(k: Key, d: Disk, t: Txn, plan: seq<Prim>, n: nat)
    requires ReplayPoint(k, d, t, plan) && n <= |plan|
    ensures ReplayPoint(k, Ahead(d, plan, n), t, plan[n..])
    decreases n
  {
    if n > 0 {
      ReplayStep(k, d, t, plan);
      ReplayAhead(k, Exec(d, plan[0]), t, plan[1..], n - 1);
      assert plan[1..][n - 1..] == plan[n..];
    }
  }

  /** Over a durable journal, every crash during replay leaves the new value. */
  lemma DurableReplayAtomic(k: Key, d: Disk, t: Txn, before: Option<Artifact>)
    requires Journaled(k, d, t)
    ensures ReplayAtomic(k, d, t, before)
  {
    var plan := Replay(t);
    assert ReplayPoint(k, d, t, plan);
    forall n: nat, f: Files | CrashDuring(d, plan, n, f)
      ensures Sound(k, f) && Value(f) == TxnValue(t)
    {
      ReplayAhead(k, d, t, plan, n);
      PointImages(k, Ahead(d, plan, n), t, plan[n..], f);
    }
  }

  /** A replay of `t` that no sync has reached, over a pair whose content `t` writes again. */
  ghost predicate Rewriting(k: Key, d: Disk, i: nat, t: Txn, before: Option<Artifact>, plan: seq<Prim>) {
    EarlyPoint(k, d, i, plan) && d.pending[i].t == t && Value(Visible(Under(d, i))) == before && SameContent(before, t)
  }

  lemma RewritingImages(k: Key, d: Disk, i: nat, t: Txn, before: Option<Artifact>, plan: seq<Prim>, f: Files)
    requires Rewriting(k, d, i, t, before, plan) && CrashImage(d, f)
    ensures Sound(k, f) && (Value(f) == before || Value(f) == TxnValue(t))
  {
    FragileImages(k, d, i, f);
  }

  lemma RewritingStep(k: Key, d: Disk, i: nat, t: Txn, before: Option<Artifact>, plan: seq<Prim>)
    requires Rewriting(k, d, i, t, before, plan)
    ensures plan != []
    ensures if plan[0] == Sync then ReplayPoint(k, Exec(d, Sync), t, plan[1..])
            else Rewriting(k, Exec(d, plan[0]), i, t, before, plan[1..])
  {
    EarlyStep(k, d, i, plan);
  }

  lemma {:induction false} RewritingAhead(k: Key, d: Disk, i: nat, t: Txn, before: Option<Artifact>,
                                          plan: seq<Prim>, n: nat)
    requires Rewriting(k, d, i, t, before, plan) && n <= |plan|
    ensures var d', rest := Ahead(d, plan, n), plan[n..];
            Rewriting(k, d', i, t, before, rest) || ReplayPoint(k, d', t, rest)
    decreases n
  {
    if n == 0 {
      assert plan[0..] == plan;
    } else {
      RewritingStep(k, d, i, t, before, plan);
      if plan[0] == Sync {
        ReplayAhead(k, Exec(d, Sync), t, plan[1..], n - 1);
      } else {
        RewritingAhead(k, Exec(d, plan[0]), i, t, before, plan[1..], n - 1);
      }
      assert plan[1..][n - 1..] == plan[n..];
    }
  }

  /** Rewriting the content that is there leaves the old or the new value, wherever a crash falls. */
  lemma SameContentReplay(k: Key, d: Disk, i: nat, t: Txn, before: Option<Artifact>, n: nat, f: Files)
    requires Rewriting(k, d, i, t, before, Replay(t)) && CrashDuring(d, Replay(t), n, f)
    ensures Sound(k, f) && (Value(f) == before || Value(f) == TxnValue(t))
  {
    var d', rest := Ahead(d, Replay(t), n), Replay(t)[n..];
    RewritingAhead(k, d, i, t, before, Replay(t), n);
    if ReplayPoint(k, d', t, rest) {
      PointImages(k, d', t, rest, f);
    } else {
      RewritingImages(k, d', i, t, before, rest, f);
    }
  }

  lemma JustPublished(k: Key, d0: Disk, t: Txn)
    requires Rest(k, d0) && Publishable(k, t, Value(Visible(d0)))
    ensures var d, i := Exec(d0, SetTxn(t)), |d0.pending|;
            Fragile(k, d, i) && d.pending[i] == SetTxn(t) && Under(d, i) == d0 && EarlyPoint(k, d, i, Replay(t))
  {
    var d := Exec(d0, SetTxn(t));
    assert d.pending[..|d0.pending|] == d0.pending;
  }

  lemma SameContentAtomic(k: Key, d: Disk, i: nat, t: Txn)
    requires EarlyPoint(k, d, i, Replay(t)) && d.pending[i].t == t
    requires SameContent(Value(Visible(Under(d, i))), t)
    ensures ReplayAtomic(k, d, t, Value(Visible(Under(d, i))))
  {
    forall n: nat, f: Files | CrashDuring(d, Replay(t), n, f)
      ensures Sound(k, f) && (Value(f) == Value(Visible(Under(d, i))) || Value(f) == TxnValue(t))
    {
      SameContentReplay(k, d, i, t, Value(Visible(Under(d, i))), n, f);
    }
  }

  lemma OtherContentTears(k: Key, d: Disk, i: nat, t: Txn) returns (f: Files)
    requires Fragile(k, d, i) && d.pending[i].t == t && !SameContent(Value(Visible(Under(d, i))), t)
    ensures CrashDuring(d, Replay(t), 1, f) && !Sound(k, f)
  {
    var p := Replay(t)[0];
    FragileExec(k, d, i, p);
    f := Tears(k, Exec(d, p), i);
    assert Ahead(d, Replay(t), 1) == Ahead(Exec(d, p), Replay(t)[1..], 0);
  }

  /**
   Replaying a journal before its own directory sync survives every crash whole if and only
   if it rewrites the content already there.
   */
  lemma UnsyncedReplayAtomicIff(k: Key, d0: Disk, t: Txn)
    requires Rest(k, d0) && Publishable(k, t, Value(Visible(d0)))
    ensures ReplayAtomic(k, Exec(d0, SetTxn(t)), t, Value(Visible(d0))) <==> SameContent(Value(Visible(d0)), t)
  {
    var d, i := Exec(d0, SetTxn(t)), |d0.pending|;
    JustPublished(k, d0, t);
    if SameContent(Value(Visible(d0)), t) {
      SameContentAtomic(k, d, i, t);
    } else {
      var f := OtherContentTears(k, d, i, t);
    }
  }

  // ----- torn files

  /** The files are torn and no writer is past its look at them. */
  ghost predicate Damaged(k: Key, s: State, f: Files) {
    && Torn(k, f) && s.disk == Disk(f, [])
    && (s.writer.Busy? ==> s.writer.plan == [] && (s.writer.stage.Locked? || s.writer.stage.Checking?))
    && forall r :: r in s.readers ==> TornReader(k, f, s.readers[r].pc)
  }

  lemma DamagedStep(k: Key, s: State, f: Files, e: Event)
    requires Damaged(k, s, f) && Enabled(k, s, e)
    ensures Damaged(k, Next(k, s, e), f)
  {
    assert Visible(s.disk) == f;
    if e.Crash? {
      assert Survivors(f, [], e.keep) == f;
    }
  }

  /**
   Torn files stay as they are: whatever any process does and whatever crashes, no write of
   the key commits, no read of it returns, and nothing on disk changes.
   */
  lemma {:induction false} TornForever(k: Key, ss: seq<State>, es: seq<Event>, f: Files, n: nat)
    requires |ss| == |es| + 1 && n <= |es| && Damaged(k, ss[0], f)
    requires forall i {:trigger es[i]} :: 0 <= i < |es| ==>
               Enabled(k, ss[i], es[i]) && ss[i + 1] == Next(k, ss[i], es[i])
    ensures Damaged(k, ss[n], f) && Visible(ss[n].disk) == f
    ensures forall op :: Decide(op, ReadDurable(k, Visible(ss[n].disk))) == Stop
    ensures forall r :: r in ss[n].readers && ss[n].readers[r].pc.Finished? ==> ss[n].readers[r].pc.outcome == Failed
  {
    if n > 0 {
      TornForever(k, ss, es, f, n - 1);
      DamagedStep(k, ss[n - 1], f, es[n - 1]);
    }
  }

  /** A reachable torn state is damaged, so it stays so. */
  lemma TornIsDamaged(k: Key, ss: seq<State>, es: seq<Event>, n: nat)
    requires Run(k, ss, es) && n <= |es| && Torn(k, Visible(ss[n].disk))
    ensures Damaged(k, ss[n], Visible(ss[n].disk))
  {
    var s := ss[n];
    RunInv(k, ss, es, n);
    InvDisk(k, s.disk, s.writer);
    VisibleShape(k, s.disk);
    if s.writer.Busy? && !s.writer.stage.Locked? && !s.writer.stage.Checking? {
      PlanNotTorn(k, s.disk, s.writer);
    }
  }

  lemma PutStarts(d: Disk, c: Bytes, summary: string) returns (ss: seq<State>, es: seq<Event>)
    requires d == Disk(Files(None, None, None), [])
    ensures var t := PutTxn(StoredMeta(c, summary, false), c);
            && Run(Key(None), ss, es) && ss[0].disk == d
            && ss[|es|] == State(d, Busy(Put(c, summary), Publishing, Publish(t), None), map[])
  {
    var k, op, s0 := Key(None), Put(c, summary), State(d, Free, map[]);
    assert Visible(d) == d.synced;
    var s1 := Next(k, s0, Begin(op));
    var s2 := Next(k, s1, Continue);
    ss, es := [s0, s1, s2, Next(k, s2, Continue)], [Begin(op), Continue, Continue];
  }

  /** A first put of `c` dies after renaming its journal. */
  lemma PublisherDies(c: Bytes, summary: string) returns (ss: seq<State>, es: seq<Event>)
    ensures var none, t := Files(None, None, None), PutTxn(StoredMeta(c, summary, false), c);
            && Run(Key(None), ss, es) && ss[0].disk.synced == none
            && ss[|es|] == State(Disk(none, [SetTxn(t)]), Free, map[])
  {
    var k := Key(None);
    ss, es := PutStarts(Disk(Files(None, None, None), []), c, summary);
    var s4 := Next(k, ss[|es|], Primitive);
    RunExtends(k, ss, es, Primitive);
    ss, es := ss + [s4], es + [Primitive];
    RunExtends(k, ss, es, Die);
    ss, es := ss + [Next(k, s4, Die)], es + [Die];
  }

  /** The next process finds the journal and replays the content. */
  lemma ReplayBegins(k: Key, s: State, op: Op, t: Txn, ss: seq<State>, es: seq<Event>)
      returns (ss': seq<State>, es': seq<Event>)
    requires Run(k, ss, es) && ss[|es|] == s && s == State(s.disk, Free, map[])
    requires OpFor(k, op) && PutAllowed(k, op) && Visible(s.disk).txn == Some(t) && TxnValid(k, t)
    ensures Run(k, ss', es') && ss'[0] == ss[0] && |es'| == |es| + 3
    ensures ss'[|es'|].disk == Exec(s.disk, Replay(t)[0])
  {
    var s1 := Next(k, s, Begin(op));
    RunExtends(k, ss, es, Begin(op));
    ss', es' := ss + [s1], es + [Begin(op)];
    var s2 := Next(k, s1, Continue);
    RunExtends(k, ss', es', Continue);
    ss', es' := ss' + [s2], es' + [Continue];
    RunExtends(k, ss', es', Primitive);
    ss', es' := ss' + [Next(k, s2, Primitive)], es' + [Primitive];
  }

  /**
   It happens: a first put of `c` dies after renaming its journal, the next process replays
   the content, and the system crashes keeping the content and losing the journal.
   */
  lemma TearingRun(c: Bytes, summary: string) returns (ss: seq<State>, es: seq<Event>)
    ensures Run(Key(None), ss, es) && Sound(Key(None), ss[0].disk.synced) && Torn(Key(None), Visible(ss[|es|].disk))
  {
    var k, t := Key(None), PutTxn(StoredMeta(c, summary, false), c);
    ss, es := PublisherDies(c, summary);
    TearingDisks(t, c);
    ss, es := ReplayBegins(k, ss[|es|], Put(c, summary), t, ss, es);
    var e := Crash([false, true]);
    var s := Next(k, ss[|es|], e);
    RunExtends(k, ss, es, e);
    ss, es := ss + [s], es + [e];
    assert Visible(s.disk) == s.disk.synced;
  }

  lemma TearingDisks(t: Txn, c: Bytes)
    ensures var none := Files(None, None, None);
            && Exec(Disk(none, [SetTxn(t)]), SetTxt(c)) == Disk(none, [SetTxn(t), SetTxt(c)])
            && Visible(Disk(none, [SetTxn(t)])) == none.(txn := Some(t))
            && Survivors(none, [SetTxn(t), SetTxt(c)], [false, true]) == none.(txt := Some(c))
  {
    var none, ps := Files(None, None, None), [SetTxn(t), SetTxt(c)];
    assert [SetTxn(t)][..0] == [] && ps[..1] == [SetTxn(t)];
    assert [false, true][..1] == [false] && [false][..0] == [];
    assert Survivors(none, [SetTxn(t)], [false]) == none;
    assert ApplyAll(none, [SetTxn(t)][..0]) == none;
  }

  // ----- put on an id of the reserved immutable shape

  /** A durable journal that validation rejects, and no writer past recovery. */
  ghost predicate Wedged(k: Key, s: State, t: Txn) {
    && OnlyTxn(s.disk, Some(t)) && !TxnValid(k, t)
    && (s.writer.Busy? ==> s.writer.plan == [] && (s.writer.stage.Locked? || s.writer.stage.Publishing?))
  }

  lemma WedgedStep(k: Key, s: State, t: Txn, e: Event)
    requires Wedged(k, s, t) && Enabled(k, s, e)
    ensures Wedged(k, Next(k, s, e), t) && Next(k, s, e).disk.synced.txn == Some(t)
  {
    VisibleOf(s.disk);
    if e.Crash? {
      SurvivorsOf(s.disk, e.keep, iset{});
    }
  }

  /**
   Once wedged, always wedged: whatever any process does and whatever crashes, the
   rejected journal stays in place, so every later read and write of the key throws.
   */
  lemma {:induction false} WedgedForever(k: Key, ss: seq<State>, es: seq<Event>, t: Txn, n: nat)
    requires |ss| == |es| + 1 && n <= |es| && Wedged(k, ss[0], t)
    requires forall i {:trigger es[i]} :: 0 <= i < |es| ==>
               Enabled(k, ss[i], es[i]) && ss[i + 1] == Next(k, ss[i], es[i])
    ensures Wedged(k, ss[n], t) && Visible(ss[n].disk).txn == Some(t)
    ensures ReadDurable(k, Visible(ss[n].disk)) == Threw
    ensures ReadNext(k, Visible(ss[n].disk), Started) == Finished(Failed)
  {
    if n > 0 {
      WedgedForever(k, ss, es, t, n - 1);
      WedgedStep(k, ss[n - 1], t, es[n - 1]);
    }
    VisibleOf(ss[n].disk);
  }

  /**
   A `put` that reaches its commit either publishes a journal its own replay accepts or
   wedges the key, and it wedges it exactly when the id has the reserved shape.
   */
  lemma ReservedPutWedges(k: Key, d: Disk, content: Bytes, summary: string)
    requires Rest(k, d)
    requires Decide(Put(content, summary), ReadDurable(k, Visible(d))).Commit?
    ensures var t := Decide(Put(content, summary), ReadDurable(k, Visible(d))).t;
            var s := State(ExecAll(d, Publish(t)), Busy(Put(content, summary), Publishing, [], None), map[]);
            && (Wedged(k, s, t) <==> k.embedded.Some?)
            && (Journaled(k, s.disk, t) <==> k.embedded.None?)
  {
    var t := Decide(Put(content, summary), ReadDurable(k, Visible(d))).t;
    Published(d, t);
    assert TxnValid(k, t) <==> k.embedded.None?;
    assert Mutable(Value(Visible(d)));
  }

  lemma Published(d: Disk, t: Txn)
    ensures ExecAll(d, Publish(t)) == Disk(Visible(d).(txn := Some(t)), [])
  {
    ExecVisible(d, SetTxn(t));
    ExecOneTwo(d, SetTxn(t), Sync);
  }

  // ----- ids that share file names

  function FileNames(id: string): set<string> {
    {id + ".json", id + ".txt", id + ".txn.json"}
  }

  lemma SameSuffix(a: string, b: string, s: string)
    requires a + s == b + s
    ensures a == b
  {
    assert |a| == |b|;
    assert a == (a + s)[..|a|] && b == (b + s)[..|b|];
  }

  lemma DifferentLast(a: string, s: string, b: string, t: string)
    requires |s| > 0 && |t| > 0 && s[|s| - 1] != t[|t| - 1]
    ensures a + s != b + t
  {
    assert (a + s)[|a + s| - 1] == s[|s| - 1] && (b + t)[|b + t| - 1] == t[|t| - 1];
  }

  /**
   The files of two different ids are disjoint, so the protocol of one key says all
   there is to say, except exactly when one id is the other followed by ".txn".
   */
  lemma FileNamesDisjointIff(a: string, b: string)
    requires a != b
    ensures FileNames(a) !! FileNames(b) <==> a != b + ".txn" && b != a + ".txn"
  {
    assert forall x: string :: x + ".txn.json" == (x + ".txn") + ".json";
    if a == b + ".txn" {
      assert a + ".json" == b + ".txn.json";
      assert a + ".json" in FileNames(a) && a + ".json" in FileNames(b);
    } else if b == a + ".txn" {
      assert b + ".json" == a + ".txn.json";
      assert b + ".json" in FileNames(a) && b + ".json" in FileNames(b);
    } else {
      forall n | n in FileNames(a) && n in FileNames(b)
        ensures false
      {
        NamesApart(a, b);
        NamesApart(b, a);
      }
    }
  }

  lemma NamesApart(a: string, b: string)
    requires a != b && a != b + ".txn"
    ensures a + ".json" != b + ".json" && a + ".txt" != b + ".txt" && a + ".txn.json" != b + ".txn.json"
    ensures a + ".json" != b + ".txt" && a + ".txn.json" != b + ".txt" && a + ".json" != b + ".txn.json"
  {
    DifferentLast(a, ".json", b, ".txt");
    DifferentLast(a, ".txn.json", b, ".txt");
    if a + ".json" == b + ".json" { SameSuffix(a, b, ".json"); }
    if a + ".txt" == b + ".txt" { SameSuffix(a, b, ".txt"); }
    if a + ".txn.json" == b + ".txn.json" { SameSuffix(a, b, ".txn.json"); }
    assert b + ".txn.json" == (b + ".txn") + ".json";
    if a + ".json" == b + ".txn.json" { SameSuffix(a, b + ".txn", ".json"); }
  }
}
