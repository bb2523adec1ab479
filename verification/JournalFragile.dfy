/**
 A journal whose rename is not durable yet.  Its writer may have died before the
 directory sync, and other processes may already be replaying it, so a system crash can
 keep replayed operations and lose the journal under them.
 */
module JournalFragile {
  import opened Common
  import opened JournalDisk
  import opened Journal

  /** The disk before its pending operation `i`. */
  function Under(d: Disk, i: nat): Disk
    requires i <= |d.pending|
  {
    Disk(d.synced, d.pending[..i])
  }

  /** The operations a replay of `t` issues before its first sync. */
  predicate ReplayOp(t: Txn, p: Prim) {
    match t
    case PutTxn(_, c) => p == SetTxt(c)
    case DeleteTxn => p == UnlinkTxt || p == UnlinkJson
  }

  /** The content a replay would write is the content already there. */
  predicate SameContent(before: Option<Artifact>, t: Txn) {
    t.PutTxn? && before.Some? && before.value.content == t.content
  }

  /** Pending operation `i` published a journal over a resting pair; only its replay came after. */
  ghost predicate Fragile(k: Key, d: Disk, i: nat) {
    && i < |d.pending| && d.pending[i].SetTxn? && Rest(k, Under(d, i))
    && Publishable(k, d.pending[i].t, Value(Visible(Under(d, i))))
    && forall j :: i < j < |d.pending| ==> ReplayOp(d.pending[i].t, d.pending[j])
  }

  /** What the store commits: a valid journal over a mutable value, a delete only over a present one. */
  predicate Publishable(k: Key, t: Txn, before: Option<Artifact>) {
    TxnValid(k, t) && Mutable(before) && (t.DeleteTxn? ==> before.Some?)
  }

  /** Files no recovery can repair: no journal, and a pair every access rejects. */
  predicate Torn(k: Key, f: Files) {
    f.txn.None? && ReadDurable(k, f).Threw? && (f.json.Some? ==> !f.json.value.immutable)
  }

  // ----- what is visible

  lemma UnderLast(d: Disk)
    requires d.pending != []
    ensures var n := |d.pending| - 1; d == Exec(Under(d, n), d.pending[n]) || d.pending[n].Sync?
  {
    var n := |d.pending| - 1;
    assert d.pending == d.pending[..n] + [d.pending[n]];
  }

  lemma FragileLess(k: Key, d: Disk, i: nat)
    requires Fragile(k, d, i) && i + 1 < |d.pending|
    ensures Fragile(k, Under(d, |d.pending| - 1), i)
    ensures Under(Under(d, |d.pending| - 1), i) == Under(d, i)
  {
    var n := |d.pending| - 1;
    assert d.pending[..n][..i] == d.pending[..i];
  }

  lemma {:induction false} FragileVisible(k: Key, d: Disk, i: nat)
    requires Fragile(k, d, i)
    ensures var t, f, g := d.pending[i].t, Visible(Under(d, i)), Visible(d);
            && g.txn == Some(t)
            && (g.txt == f.txt || (t.PutTxn? && g.txt == Some(t.content)) || (t.DeleteTxn? && g.txt.None?))
            && (g.json == f.json || (t.DeleteTxn? && g.json.None?))
    decreases |d.pending|
  {
    var n := |d.pending| - 1;
    UnderLast(d);
    ExecVisible(Under(d, n), d.pending[n]);
    if i < n {
      FragileLess(k, d, i);
      FragileVisible(k, Under(d, n), i);
    }
  }

  lemma FragileMutable(k: Key, d: Disk, i: nat)
    requires Fragile(k, d, i)
    ensures Visible(d).json.Some? ==> !Visible(d).json.value.immutable
  {
    FragileVisible(k, d, i);
    RestSpared(k, Under(d, i), DeleteTxn);
  }

  // ----- replaying it

  /** How many operations a replay issues before its first sync. */
  function Lead(t: Txn): nat {
    if t.PutTxn? then 1 else 2
  }

  /** `plan` is what remains of a replay that has not synced yet. */
  predicate Unsynced(t: Txn, plan: seq<Prim>) {
    Remains(t, plan) && Issued(t, plan) <= Lead(t)
  }

  predicate Shows(t: Txn, m: int, f: Files) {
    && (t.PutTxn? && m == 1 ==> f.txt == Some(t.content))
    && (t.DeleteTxn? && m >= 1 ==> f.txt.None?)
    && (t.DeleteTxn? && m == 2 ==> f.json.None?)
  }

  /** Where the disk stands when `plan` remains of replaying the fragile journal and nothing was synced. */
  ghost predicate EarlyPoint(k: Key, d: Disk, i: nat, plan: seq<Prim>) {
    && Fragile(k, d, i) && Unsynced(d.pending[i].t, plan)
    && Shows(d.pending[i].t, Issued(d.pending[i].t, plan), Visible(d))
  }

  lemma FragileExec(k: Key, d: Disk, i: nat, p: Prim)
    requires Fragile(k, d, i) && ReplayOp(d.pending[i].t, p)
    ensures Fragile(k, Exec(d, p), i) && Exec(d, p).pending[i] == d.pending[i]
    ensures Under(Exec(d, p), i) == Under(d, i)
  {
    assert (d.pending + [p])[..i] == d.pending[..i];
  }

  lemma RestSpared(k: Key, d: Disk, t: Txn)
    requires Rest(k, d) && Mutable(Value(Visible(d)))
    ensures Visible(d).json.Some? ==> Spares(t, Visible(d).json.value)
  {
  }

  lemma SyncedJournal(k: Key, f: Files, t: Txn)
    requires TxnValid(k, t) && f.txn == Some(t) && (f.json.Some? ==> Spares(t, f.json.value))
    ensures Journaled(k, Disk(f, []), t)
  {
  }

  /** Any sync makes the journal durable. */
  lemma FragileSync(k: Key, d: Disk, i: nat)
    requires Fragile(k, d, i)
    ensures Journaled(k, Exec(d, Sync), d.pending[i].t)
  {
    FragileVisible(k, d, i);
    RestSpared(k, Under(d, i), d.pending[i].t);
    SyncedJournal(k, Visible(d), d.pending[i].t);
  }

  lemma UnsyncedHead(t: Txn, plan: seq<Prim>)
    requires Unsynced(t, plan)
    ensures var m := Issued(t, plan);
            && plan != [] && Issued(t, plan[1..]) == m + 1 && Remains(t, plan[1..])
            && (plan[0] == Sync <==> m == Lead(t))
            && (plan[0] != Sync ==> ReplayOp(t, plan[0]) && Unsynced(t, plan[1..]))
            && (t.DeleteTxn? && m < 2 ==> plan[0] == if m == 0 then UnlinkTxt else UnlinkJson)
  {
    ReplayPlan(t, plan);
  }

  lemma ShowsNext(t: Txn, plan: seq<Prim>, f: Files)
    requires Unsynced(t, plan) && Shows(t, Issued(t, plan), f) && plan != [] && plan[0] != Sync
    ensures Shows(t, Issued(t, plan[1..]), Apply(f, plan[0]))
  {
    UnsyncedHead(t, plan);
  }

  lemma EarlySync(k: Key, d: Disk, i: nat, plan: seq<Prim>)
    requires EarlyPoint(k, d, i, plan) && plan != [] && plan[0] == Sync
    ensures ReplayPoint(k, Exec(d, Sync), d.pending[i].t, plan[1..])
  {
    var t := d.pending[i].t;
    FragileSync(k, d, i);
    UnsyncedHead(t, plan);
    var m := Issued(t, plan);
    if t.PutTxn? {
      assert m == 1 && OnlyTxt(Exec(d, Sync), Some(t.content));
    } else {
      assert m == 2 && OnlyTxt(Exec(d, Sync), None) && OnlyJson(Exec(d, Sync), None);
    }
  }

  /** Each operation of the replay keeps the journal fragile until the first sync makes it durable. */
  lemma EarlyStep(k: Key, d: Disk, i: nat, plan: seq<Prim>)
    requires EarlyPoint(k, d, i, plan)
    ensures plan != []
    ensures plan[0] == Sync ==> ReplayPoint(k, Exec(d, Sync), d.pending[i].t, plan[1..])
    ensures plan[0] != Sync ==> EarlyPoint(k, Exec(d, plan[0]), i, plan[1..])
    ensures plan[0] != Sync ==> Exec(d, plan[0]).pending[i] == d.pending[i] && Under(Exec(d, plan[0]), i) == Under(d, i)
  {
    var t := d.pending[i].t;
    UnsyncedHead(t, plan);
    if plan[0] == Sync {
      EarlySync(k, d, i, plan);
    } else {
      FragileExec(k, d, i, plan[0]);
      ExecVisible(d, plan[0]);
      ShowsNext(t, plan, Visible(d));
    }
  }

  // ----- what a crash leaves of it

  /** Old and new pieces that a crash may mix; new ones only once a replay has begun. */
  ghost predicate Mixed(k: Key, d: Disk, i: nat, f: Files)
    requires i < |d.pending| && d.pending[i].SetTxn?
  {
    var t, old_, begun := d.pending[i].t, Visible(Under(d, i)), i + 1 < |d.pending|;
    && (f.txn.Some? ==> f.txn.value == t || (TxnValid(k, f.txn.value) && TxnValue(f.txn.value) == Value(old_)))
    && (f.txt == old_.txt || (begun && f.txt == if t.PutTxn? then Some(t.content) else None))
    && (f.json == old_.json || (begun && t.DeleteTxn? && f.json.None?))
  }

  lemma {:induction false} FragileMixed(k: Key, d: Disk, i: nat, f: Files)
    requires Fragile(k, d, i) && CrashImage(d, f)
    ensures Mixed(k, d, i, f)
    decreases |d.pending|
  {
    var n := |d.pending| - 1;
    UnderLast(d);
    var g := CrashAfter(Under(d, n), d.pending[n], f);
    if i < n {
      FragileLess(k, d, i);
      FragileMixed(k, Under(d, n), i, g);
    } else {
      RestImages(k, Under(d, i), g);
    }
  }

  /** A replay operation is pending over a journal that is not durable, and it changes something. */
  ghost predicate Exposed(k: Key, d: Disk) {
    exists i: nat :: Fragile(k, d, i) && i + 1 < |d.pending|
                && !SameContent(Value(Visible(Under(d, i))), d.pending[i].t)
  }

  /** A crash over a fragile journal leaves the old value, the new one, or an unrepairable mixture. */
  lemma FragileImages(k: Key, d: Disk, i: nat, f: Files)
    requires Fragile(k, d, i) && CrashImage(d, f)
    ensures var old_, new_ := Value(Visible(Under(d, i))), TxnValue(d.pending[i].t);
            || (Sound(k, f) && (Value(f) == old_ || Value(f) == new_))
            || (Torn(k, f) && i + 1 < |d.pending| && !SameContent(old_, d.pending[i].t))
  {
    FragileMixed(k, d, i, f);
    RestSpared(k, Under(d, i), d.pending[i].t);
    if f.txn.Some? {
      assert f.json.Some? ==> Spares(f.txn.value, f.json.value);
    }
  }

  lemma {:induction false} LoseRest(d: Disk, i: nat, f: Files)
    requires i <= |d.pending| && CrashImage(Under(d, i), f) && forall j :: i <= j < |d.pending| ==> !d.pending[j].Sync?
    ensures CrashImage(d, f)
    decreases |d.pending|
  {
    if i == |d.pending| {
      assert Under(d, i) == d;
    } else {
      var n := |d.pending| - 1;
      assert Under(Under(d, n), i) == Under(d, i);
      LoseRest(Under(d, n), i, f);
      UnderLast(d);
      CrashKeeps(Under(d, n), d.pending[n], f);
    }
  }

  /** Keeping the first replayed operation and losing the journal under it tears the pair. */
  lemma Tears(k: Key, d: Disk, i: nat) returns (f: Files)
    requires Fragile(k, d, i) && i + 1 < |d.pending| && !SameContent(Value(Visible(Under(d, i))), d.pending[i].t)
    ensures CrashImage(d, f) && Torn(k, f)
  {
    var d0, g, p := Under(d, i), Visible(Under(d, i)), d.pending[i + 1];
    VisibleOf(d0);
    assert Exec(d0, d.pending[i]) == Under(d, i + 1);
    CrashKeeps(d0, d.pending[i], g);
    assert Exec(Under(d, i + 1), p) == Under(d, i + 2);
    CrashKeeps(Under(d, i + 1), p, g);
    f := Apply(g, p);
    LoseRest(d, i + 2, f);
  }

  /** The files are recoverable, to what the key holds or to what it held under the fragile journal. */
  ghost predicate Whole(k: Key, d: Disk, f: Files) {
    Sound(k, f) && (Value(f) == Value(Visible(d)) || HeldUnder(k, d, Value(f)))
  }

  ghost predicate HeldUnder(k: Key, d: Disk, v: Option<Artifact>) {
    exists i: nat :: Fragile(k, d, i) && v == Value(Visible(Under(d, i)))
  }
}
