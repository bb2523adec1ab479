/**
 The files one artifact owns inside its category directory, and the three
 directory operations the store uses on them.  A renamed or unlinked entry is
 visible at once but survives a system crash only after the directory is synced;
 a crash may lose any subset of the operations issued since the last sync.
 */
module JournalDisk {
  import opened Common

  /** Stored metadata; `summary` stands for all fields no check depends on. */
  datatype Meta = Meta(size: nat, sha256: Digest, immutable: bool, summary: string)

  datatype Artifact = Artifact(meta: Meta, content: Bytes)

  datatype Txn = PutTxn(meta: Meta, content: Bytes) | DeleteTxn

  /** `id.txn.json`, `id.txt` and `id.json`. */
  datatype Files = Files(txn: Option<Txn>, txt: Option<Bytes>, json: Option<Meta>)

  /** Each `Set` is the rename of an already synced temporary file onto its final name. */
  datatype Prim =
    | SetTxn(t: Txn) | SetTxt(c: Bytes) | SetJson(m: Meta)
    | UnlinkTxn | UnlinkTxt | UnlinkJson
    | Sync

  /** `pending` are the directory operations issued since the last sync, oldest first. */
  datatype Disk = Disk(synced: Files, pending: seq<Prim>)

  function Apply(f: Files, p: Prim): Files {
    match p
    case SetTxn(t) => f.(txn := Some(t))
    case SetTxt(c) => f.(txt := Some(c))
    case SetJson(m) => f.(json := Some(m))
    case UnlinkTxn => f.(txn := None)
    case UnlinkTxt => f.(txt := None)
    case UnlinkJson => f.(json := None)
    case Sync => f
  }

  function ApplyAll(f: Files, ps: seq<Prim>): Files {
    if ps == [] then f else Apply(ApplyAll(f, ps[..|ps| - 1]), ps[|ps| - 1])
  }

  /** What every process sees now. */
  function Visible(d: Disk): Files {
    ApplyAll(d.synced, d.pending)
  }

  function Exec(d: Disk, p: Prim): Disk {
    if p.Sync? then Disk(Visible(d), []) else Disk(d.synced, d.pending + [p])
  }

  function ExecAll(d: Disk, ps: seq<Prim>): Disk {
    if ps == [] then d else Exec(ExecAll(d, ps[..|ps| - 1]), ps[|ps| - 1])
  }

  /** The directory found after a system crash that kept operation i exactly when keep[i]. */
  function Survivors(f: Files, ps: seq<Prim>, keep: seq<bool>): Files
    requires |keep| == |ps|
  {
    if ps == [] then f
    else
      var before := Survivors(f, ps[..|ps| - 1], keep[..|ps| - 1]);
      if keep[|ps| - 1] then Apply(before, ps[|ps| - 1]) else before
  }

  lemma SurvivorsSnoc(f: Files, ps: seq<Prim>, p: Prim, keep: seq<bool>, last: bool)
    requires |keep| == |ps|
    ensures var g := Survivors(f, ps, keep);
            Survivors(f, ps + [p], keep + [last]) == if last then Apply(g, p) else g
  {
    assert (ps + [p])[..|ps|] == ps && (keep + [last])[..|ps|] == keep;
  }

  ghost predicate CrashImage(d: Disk, f: Files) {
    exists keep: seq<bool> :: |keep| == |d.pending| && f == Survivors(d.synced, d.pending, keep)
  }

  /** A crash right after operation p keeps it or loses it. */
  lemma CrashAfter(d: Disk, p: Prim, f: Files) returns (g: Files)
    requires !p.Sync? && CrashImage(Exec(d, p), f)
    ensures CrashImage(d, g) && (f == g || f == Apply(g, p))
  {
    var keep :| |keep| == |d.pending| + 1 && f == Survivors(d.synced, d.pending + [p], keep);
    var n := |d.pending|;
    assert keep == keep[..n] + [keep[n]];
    g := Survivors(d.synced, d.pending, keep[..n]);
    SurvivorsSnoc(d.synced, d.pending, p, keep[..n], keep[n]);
  }

  lemma CrashKeeps(d: Disk, p: Prim, g: Files)
    requires !p.Sync? && CrashImage(d, g)
    ensures CrashImage(Exec(d, p), g) && CrashImage(Exec(d, p), Apply(g, p))
  {
    var keep :| |keep| == |d.pending| && g == Survivors(d.synced, d.pending, keep);
    SurvivorsSnoc(d.synced, d.pending, p, keep, false);
    SurvivorsSnoc(d.synced, d.pending, p, keep, true);
    assert |keep + [false]| == |Exec(d, p).pending| && |keep + [true]| == |Exec(d, p).pending|;
  }

  // ----- which values each name can show after a crash

  ghost predicate OnlyTxt(d: Disk, c: Option<Bytes>) {
    && d.synced.txt == c
    && forall p :: p in d.pending ==> (p.SetTxt? ==> c == Some(p.c)) && (p.UnlinkTxt? ==> c == None)
  }

  ghost predicate OnlyJson(d: Disk, m: Option<Meta>) {
    && d.synced.json == m
    && forall p :: p in d.pending ==> (p.SetJson? ==> m == Some(p.m)) && (p.UnlinkJson? ==> m == None)
  }

  ghost predicate OnlyTxn(d: Disk, t: Option<Txn>) {
    && d.synced.txn == t
    && forall p :: p in d.pending ==> (p.SetTxn? ==> t == Some(p.t)) && (p.UnlinkTxn? ==> t == None)
  }

  /** Every journal a crash may bring back is one of `ts`. */
  ghost predicate TxnAmong(d: Disk, ts: iset<Txn>) {
    && (d.synced.txn.Some? ==> d.synced.txn.value in ts)
    && forall p :: p in d.pending ==> p.SetTxn? ==> p.t in ts
  }

  lemma {:induction false} SurvivorsOf(d: Disk, keep: seq<bool>, ts: iset<Txn>)
    requires |keep| == |d.pending|
    ensures forall c :: OnlyTxt(d, c) ==> Survivors(d.synced, d.pending, keep).txt == c
    ensures forall m :: OnlyJson(d, m) ==> Survivors(d.synced, d.pending, keep).json == m
    ensures forall t :: OnlyTxn(d, t) ==> Survivors(d.synced, d.pending, keep).txn == t
    ensures TxnAmong(d, ts) ==>
              var t := Survivors(d.synced, d.pending, keep).txn; t.Some? ==> t.value in ts
    decreases |d.pending|
  {
    if d.pending != [] {
      var n := |d.pending| - 1;
      var rest := Disk(d.synced, d.pending[..n]);
      assert forall p :: p in rest.pending ==> p in d.pending;
      assert d.pending[n] in d.pending;
      SurvivorsOf(rest, keep[..n], ts);
      assert forall c :: OnlyTxt(d, c) ==> OnlyTxt(rest, c);
      assert forall m :: OnlyJson(d, m) ==> OnlyJson(rest, m);
      assert forall t :: OnlyTxn(d, t) ==> OnlyTxn(rest, t);
      assert TxnAmong(d, ts) ==> TxnAmong(rest, ts);
    }
  }

  /** Nothing lost is one of the possible crashes. */
  lemma {:induction false} VisibleIsImage(f: Files, ps: seq<Prim>, keep: seq<bool>)
    requires |keep| == |ps| && forall i :: 0 <= i < |keep| ==> keep[i]
    ensures Survivors(f, ps, keep) == ApplyAll(f, ps)
    decreases |ps|
  {
    if ps != [] {
      VisibleIsImage(f, ps[..|ps| - 1], keep[..|ps| - 1]);
    }
  }

  lemma VisibleOf(d: Disk)
    ensures forall c :: OnlyTxt(d, c) ==> Visible(d).txt == c
    ensures forall m :: OnlyJson(d, m) ==> Visible(d).json == m
    ensures forall t :: OnlyTxn(d, t) ==> Visible(d).txn == t
    ensures CrashImage(d, Visible(d))
  {
    var keep := seq(|d.pending|, i => true);
    VisibleIsImage(d.synced, d.pending, keep);
    SurvivorsOf(d, keep, iset{});
  }

  lemma ExecVisible(d: Disk, p: Prim)
    ensures Visible(Exec(d, p)) == Apply(Visible(d), p)
  {
    if !p.Sync? {
      assert Exec(d, p).pending[..|d.pending|] == d.pending;
    }
  }

  lemma {:induction false} ExecAllConcat(d: Disk, ps: seq<Prim>, qs: seq<Prim>)
    ensures ExecAll(d, ps + qs) == ExecAll(ExecAll(d, ps), qs)
    decreases |qs|
  {
    if qs == [] {
      assert ps + qs == ps;
    } else {
      var n := |qs| - 1;
      assert (ps + qs)[..|ps + qs| - 1] == ps + qs[..n];
      ExecAllConcat(d, ps, qs[..n]);
    }
  }

  lemma ExecHead(d: Disk, ps: seq<Prim>)
    requires ps != []
    ensures ExecAll(d, ps) == ExecAll(Exec(d, ps[0]), ps[1..])
  {
    assert [ps[0]] + ps[1..] == ps && [ps[0]][..0] == [];
    ExecAllConcat(d, [ps[0]], ps[1..]);
  }

  lemma ExecOneTwo(d: Disk, p: Prim, q: Prim)
    ensures ExecAll(d, [p]) == Exec(d, p) && ExecAll(d, [p, q]) == Exec(Exec(d, p), q)
  {
    assert [p][..0] == [] && [p, q][..1] == [p];
  }
}
