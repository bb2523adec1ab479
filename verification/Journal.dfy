/**
 What the three files of an artifact mean, which journals the store accepts, and
 the directory operations that replay a journal.
 */
module Journal {
  import opened Common
  import opened JournalDisk

  /** An artifact id; `embedded` is the digest inside an id of the reserved immutable shape. */
  datatype Key = Key(embedded: Option<Digest>)

  predicate MetaValid(k: Key, m: Meta) {
    k.embedded.Some? ==> m.immutable && k.embedded.value == m.sha256
  }

  predicate ContentValid(m: Meta, c: Bytes) {
    |c| == m.size && Sha256(c) == m.sha256
  }

  predicate TxnValid(k: Key, t: Txn) {
    t.PutTxn? ==> MetaValid(k, t.meta) && ContentValid(t.meta, t.content)
  }

  function TxnValue(t: Txn): Option<Artifact> {
    match t
    case PutTxn(m, c) => Some(Artifact(m, c))
    case DeleteTxn => None
  }

  /** The value the key logically holds: a published journal already counts. */
  function Value(f: Files): Option<Artifact> {
    if f.txn.Some? then TxnValue(f.txn.value)
    else if f.txt.Some? && f.json.Some? then Some(Artifact(f.json.value, f.txt.value))
    else None
  }

  /** Content and metadata are both absent, or both present and matching. */
  predicate PairConsistent(k: Key, f: Files) {
    || (f.txt.None? && f.json.None?)
    || (f.txt.Some? && f.json.Some? && MetaValid(k, f.json.value) && ContentValid(f.json.value, f.txt.value))
  }

  /** Journals only ever replace metadata that is not immutable, or rewrite it unchanged. */
  predicate Spares(t: Txn, m: Meta) {
    m.immutable ==> t.PutTxn? && t.meta == m
  }

  /** Files from which recovery can reach the value they stand for. */
  predicate Sound(k: Key, f: Files) {
    if f.txn.Some?
    then TxnValid(k, f.txn.value) && (f.json.Some? ==> Spares(f.txn.value, f.json.value))
    else PairConsistent(k, f)
  }

  predicate Mutable(v: Option<Artifact>) {
    v.Some? ==> !v.value.meta.immutable
  }

  function Replay(t: Txn): seq<Prim> {
    match t
    case PutTxn(m, c) => [SetTxt(c), Sync, SetJson(m), Sync, UnlinkTxn, Sync]
    case DeleteTxn => [UnlinkTxt, UnlinkJson, Sync, UnlinkTxn, Sync]
  }

  /** Publishing a journal: one atomic, synced rename. */
  function Publish(t: Txn): seq<Prim> {
    [SetTxn(t), Sync]
  }

  datatype Lookup = Threw | Absent | Found(artifact: Artifact)

  /** `readDurableFromCategory` on files nobody changes meanwhile. */
  function ReadDurable(k: Key, f: Files): Lookup {
    if f.txn.Some? then Threw
    else if f.json.None? then (if f.txt.Some? then Threw else Absent)
    else if f.txt.None? then Threw
    else if MetaValid(k, f.json.value) && ContentValid(f.json.value, f.txt.value)
    then Found(Artifact(f.json.value, f.txt.value))
    else Threw
  }

  datatype Op =
    | Put(content: Bytes, summary: string)
    | PutImmutable(content: Bytes, summary: string)
    | Delete
    | Scan

  /** `putImmutable` builds the id from the content's own digest. */
  predicate OpFor(k: Key, op: Op) {
    op.PutImmutable? ==> k.embedded == Some(Sha256(op.content))
  }

  /** The side condition `put` needs and does not check: the id is not of the reserved shape. */
  predicate PutAllowed(k: Key, op: Op) {
    op.Put? ==> k.embedded.None?
  }

  function StoredMeta(content: Bytes, summary: string, immutable: bool): Meta {
    Meta(|content|, Sha256(content), immutable, summary)
  }

  datatype Decision = Stop | Commit(t: Txn)

  /** What `put`, `putImmutable` and `delete` do after recovery, given the durable artifact. */
  function Decide(op: Op, durable: Lookup): Decision {
    match durable
    case Threw => Stop
    case Absent =>
      (match op
       case Put(c, s) => Commit(PutTxn(StoredMeta(c, s, false), c))
       case PutImmutable(c, s) => Commit(PutTxn(StoredMeta(c, s, true), c))
       case Delete => Stop
       case Scan => Stop)
    case Found(a) =>
      if a.meta.immutable then Stop
      else
        match op
        case Put(c, s) => Commit(PutTxn(StoredMeta(c, s, false), c))
        case PutImmutable(c, s) => Stop
        case Delete => Commit(DeleteTxn)
        case Scan => Stop
  }

  lemma DecideValid(k: Key, op: Op, durable: Lookup)
    requires OpFor(k, op) && PutAllowed(k, op) && Decide(op, durable).Commit?
    ensures TxnValid(k, Decide(op, durable).t)
  {
  }

  // ----- the shapes the disk goes through

  /** No journal is visible and a crash can only bring back journals that say what the pair says. */
  ghost predicate Rest(k: Key, d: Disk) {
    var f := Visible(d);
    && f.txn.None? && PairConsistent(k, f)
    && OnlyTxt(d, f.txt) && OnlyJson(d, f.json)
    && TxnAmong(d, iset t: Txn | TxnValid(k, t) && TxnValue(t) == Value(f))
  }

  /** A valid journal is durable; the pair may be anything it spares. */
  ghost predicate Journaled(k: Key, d: Disk, t: Txn) {
    && TxnValid(k, t) && OnlyTxn(d, Some(t))
    && (d.synced.json.Some? ==> Spares(t, d.synced.json.value))
    && forall p :: p in d.pending && p.SetJson? ==> Spares(t, p.m)
  }

  /** Where the disk stands after the first i operations of replaying `t`. */
  ghost predicate PointAt(k: Key, d: Disk, t: Txn, i: nat) {
    match t
    case PutTxn(m, c) =>
      if i >= 5 then Rest(k, d) && Value(Visible(d)) == TxnValue(t)
      else
        && Journaled(k, d, t)
        && (i == 1 ==> Visible(d).txt == Some(c)) && (i >= 2 ==> OnlyTxt(d, Some(c)))
        && (i == 3 ==> Visible(d).json == Some(m)) && (i >= 4 ==> OnlyJson(d, Some(m)))
    case DeleteTxn =>
      if i >= 4 then Rest(k, d) && Value(Visible(d)) == TxnValue(t)
      else
        && Journaled(k, d, t)
        && (i >= 1 ==> Visible(d).txt == None) && (i >= 2 ==> Visible(d).json == None)
        && (i >= 3 ==> OnlyTxt(d, None) && OnlyJson(d, None))
  }

  /** How many operations of replaying `t` are done when `plan` remains. */
  function Issued(t: Txn, plan: seq<Prim>): int {
    |Replay(t)| - |plan|
  }

  predicate Remains(t: Txn, plan: seq<Prim>) {
    Issued(t, plan) >= 0 && plan == Replay(t)[Issued(t, plan)..]
  }

  /** Where the disk stands when `plan` is what remains of replaying `t`. */
  ghost predicate ReplayPoint(k: Key, d: Disk, t: Txn, plan: seq<Prim>) {
    Remains(t, plan) && PointAt(k, d, t, Issued(t, plan))
  }

  lemma VisibleSpared(d: Disk, t: Txn)
    requires d.synced.json.Some? ==> Spares(t, d.synced.json.value)
    requires forall p :: p in d.pending && p.SetJson? ==> Spares(t, p.m)
    ensures Visible(d).json.Some? ==> Spares(t, Visible(d).json.value)
  {
    var keep := seq(|d.pending|, i => true);
    VisibleIsImage(d.synced, d.pending, keep);
    SurvivorsSpared(d, keep, t);
  }

  lemma UnlinkJournal(k: Key, d: Disk, t: Txn)
    requires Journaled(k, d, t)
    requires t.PutTxn? ==> OnlyTxt(d, Some(t.content)) && OnlyJson(d, Some(t.meta))
    requires t.DeleteTxn? ==> OnlyTxt(d, None) && OnlyJson(d, None)
    ensures Rest(k, Exec(d, UnlinkTxn)) && Value(Visible(Exec(d, UnlinkTxn))) == TxnValue(t)
  {
    VisibleOf(d);
    ExecVisible(d, UnlinkTxn);
  }

  lemma SyncRest(k: Key, d: Disk)
    requires Rest(k, d)
    ensures Rest(k, Exec(d, Sync)) && Visible(Exec(d, Sync)) == Visible(d)
  {
  }

  lemma StayJournaled(k: Key, d: Disk, t: Txn, p: Prim)
    requires Journaled(k, d, t) && !p.SetTxn? && !p.UnlinkTxn? && (p.SetJson? ==> Spares(t, p.m))
    ensures Journaled(k, Exec(d, p), t)
  {
    VisibleOf(d);
    if p.Sync? {
      VisibleSpared(d, t);
    }
  }

  lemma PutPointStep(k: Key, d: Disk, t: Txn, i: nat)
    requires t.PutTxn? && PointAt(k, d, t, i) && i < 6
    ensures PointAt(k, Exec(d, Replay(t)[i]), t, i + 1)
  {
    var p := Replay(t)[i];
    VisibleOf(d);
    ExecVisible(d, p);
    if i < 4 {
      StayJournaled(k, d, t, p);
    } else if i == 4 {
      UnlinkJournal(k, d, t);
    } else {
      SyncRest(k, d);
    }
  }

  lemma DeletePointStep(k: Key, d: Disk, t: Txn, i: nat)
    requires t.DeleteTxn? && PointAt(k, d, t, i) && i < 5
    ensures PointAt(k, Exec(d, Replay(t)[i]), t, i + 1)
  {
    var p := Replay(t)[i];
    VisibleOf(d);
    ExecVisible(d, p);
    if i < 3 {
      StayJournaled(k, d, t, p);
    } else if i == 3 {
      UnlinkJournal(k, d, t);
    } else {
      SyncRest(k, d);
    }
  }

  /** Each operation of a replay moves the disk to the next replay point. */
  lemma ReplayStep(k: Key, d: Disk, t: Txn, plan: seq<Prim>)
    requires ReplayPoint(k, d, t, plan) && plan != []
    ensures ReplayPoint(k, Exec(d, plan[0]), t, plan[1..])
  {
    var i := Issued(t, plan);
    ReplayPlan(t, plan);
    if t.PutTxn? {
      PutPointStep(k, d, t, i);
    } else {
      DeletePointStep(k, d, t, i);
    }
  }

  lemma ReplayPointValue(k: Key, d: Disk, t: Txn, plan: seq<Prim>)
    requires ReplayPoint(k, d, t, plan)
    ensures Value(Visible(d)) == TxnValue(t)
    ensures Rest(k, d) || Journaled(k, d, t)
    ensures TxnValid(k, t) || t.DeleteTxn? || |plan| <= 1
  {
    VisibleOf(d);
  }

  lemma ReplayPlan(t: Txn, plan: seq<Prim>)
    requires Remains(t, plan) && plan != []
    ensures plan[0] == Replay(t)[Issued(t, plan)] && !plan[0].SetTxn?
    ensures Remains(t, plan[1..]) && Issued(t, plan[1..]) == Issued(t, plan) + 1
    ensures plan[0].SetJson? ==> t.PutTxn? && plan[0].m == t.meta
    ensures plan[0].UnlinkJson? ==> t.DeleteTxn?
  {
    var i := Issued(t, plan);
    assert Replay(t)[i..][0] == Replay(t)[i];
    assert plan[1..] == Replay(t)[i + 1..];
  }

  /** A replay keeps the value, and touches the metadata only to say what its journal says. */
  lemma ReplayPrim(k: Key, d: Disk, t: Txn, plan: seq<Prim>)
    requires ReplayPoint(k, d, t, plan) && plan != []
    ensures !plan[0].SetTxn?
    ensures Value(Visible(Exec(d, plan[0]))) == Value(Visible(d))
    ensures plan[0].SetJson? ==> TxnValid(k, t) && t.PutTxn? && plan[0].m == t.meta
    ensures plan[0].UnlinkJson? ==> t.DeleteTxn?
  {
    ReplayPlan(t, plan);
    ReplayStep(k, d, t, plan);
    ReplayPointValue(k, d, t, plan);
    ReplayPointValue(k, Exec(d, plan[0]), t, plan[1..]);
  }

  /** A replay that is not interrupted ends at rest, holding what the journal says. */
  lemma {:induction false} ReplayToEnd(k: Key, d: Disk, t: Txn, plan: seq<Prim>)
    requires ReplayPoint(k, d, t, plan)
    ensures ReplayPoint(k, ExecAll(d, plan), t, [])
    decreases |plan|
  {
    if plan != [] {
      ReplayStep(k, d, t, plan);
      ReplayToEnd(k, Exec(d, plan[0]), t, plan[1..]);
      ExecHead(d, plan);
    }
  }

  // ----- crash images of each shape

  lemma RestImages(k: Key, d: Disk, f: Files)
    requires Rest(k, d) && CrashImage(d, f)
    ensures Sound(k, f) && Value(f) == Value(Visible(d)) && f.txt == Visible(d).txt && f.json == Visible(d).json
  {
    var keep :| |keep| == |d.pending| && f == Survivors(d.synced, d.pending, keep);
    SurvivorsOf(d, keep, iset t: Txn | TxnValid(k, t) && TxnValue(t) == Value(Visible(d)));
  }

  lemma {:induction false} SurvivorsSpared(d: Disk, keep: seq<bool>, t: Txn)
    requires |keep| == |d.pending|
    requires d.synced.json.Some? ==> Spares(t, d.synced.json.value)
    requires forall p :: p in d.pending && p.SetJson? ==> Spares(t, p.m)
    ensures var m := Survivors(d.synced, d.pending, keep).json; m.Some? ==> Spares(t, m.value)
    decreases |d.pending|
  {
    if d.pending != [] {
      var n := |d.pending| - 1;
      assert d.pending[n] in d.pending;
      SurvivorsSpared(Disk(d.synced, d.pending[..n]), keep[..n], t);
    }
  }

  lemma JournaledImages(k: Key, d: Disk, t: Txn, f: Files)
    requires Journaled(k, d, t) && CrashImage(d, f)
    ensures Sound(k, f) && Value(f) == TxnValue(t) == Value(Visible(d))
  {
    var keep :| |keep| == |d.pending| && f == Survivors(d.synced, d.pending, keep);
    SurvivorsOf(d, keep, iset{});
    SurvivorsSpared(d, keep, t);
    VisibleOf(d);
  }

  /**
   Recovery is complete and idempotent: replaying the journal found in any sound
   directory ends with no journal and a consistent pair holding the same value.
   */
  lemma RecoveryCompletes(k: Key, f: Files)
    requires Sound(k, f)
    ensures var plan := if f.txn.Some? then Replay(f.txn.value) else [];
            var g := Visible(ExecAll(Disk(f, []), plan));
            g.txn.None? && PairConsistent(k, g) && Value(g) == Value(f)
  {
    if f.txn.Some? {
      ReplayToEnd(k, Disk(f, []), f.txn.value, Replay(f.txn.value));
    }
  }
}
