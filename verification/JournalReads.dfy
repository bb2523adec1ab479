/**
 What a lock-free read does when nothing changes under it: it ends within five file accesses, with the
 value the key holds, and fails only over a journal or torn files.
 */
module JournalReads {
  import opened Common
  import opened JournalDisk
  import opened Journal
  import opened JournalFragile
  import opened JournalProtocol

  /** Files a read has no reason to reject. */
  predicate Readable(k: Key, f: Files) {
    f.txn.None? && !Torn(k, f)
  }

  /** An access of reader `r`; `verifying` reads open the metadata without the two looks. */
  predicate Accesses(e: Event, r: nat) {
    e == ReadStep(r) || e == VerifyStep(r)
  }

  /** No directory operation and no crash, and reader `r` keeps to its kind. */
  predicate Still(s: State, e: Event, r: nat, verifying: bool) {
    && !e.Primitive? && !e.Crash? && (e == VerifyStep(r) ==> verifying)
    && (e == ReadStep(r) && r in s.readers && s.readers[r].pc.JournalAbsent? ==> !verifying)
  }

  ghost predicate Undisturbed(ss: seq<State>, es: seq<Event>, i: nat, n: nat, r: nat, verifying: bool)
    requires |ss| == |es| + 1 && n <= |es|
  {
    forall j {:trigger es[j]} :: i < j < n ==> Still(ss[j], es[j], r, verifying)
  }

  function AccessCount(es: seq<Event>, i: nat, n: nat, r: nat): nat
    requires n <= |es|
    decreases n
  {
    if n <= i then 0 else AccessCount(es, i, n - 1, r) + if Accesses(es[n - 1], r) then 1 else 0
  }

  /** What an undisturbed read answers; a verification demands an artifact. */
  function Answer(k: Key, f: Files, verifying: bool): Outcome {
    if !Readable(k, f) || (verifying && Value(f).None?) then Failed else Returned(Value(f))
  }

  /** Accesses left at most. */
  function Left(pc: ReaderPc): nat {
    match pc
    case Started => 5
    case JournalAbsent => 4
    case MetaStated(_) => 3
    case BothPresent => 2
    case MetaRead(_) => 1
    case Finished(_) => 0
  }

  /** Where an undisturbed reader of `f` can be. */
  predicate OnCourse(k: Key, f: Files, verifying: bool, pc: ReaderPc) {
    match pc
    case Started => true
    case JournalAbsent => f.txn.None?
    case MetaStated(present) => f.txn.None? && !verifying && present == f.json.Some?
    case BothPresent => f.txn.None? && (verifying || (f.json.Some? && f.txt.Some?))
    case MetaRead(m) => f.txn.None? && f.json == Some(m) && MetaValid(k, m)
    case Finished(o) => o == Answer(k, f, verifying)
  }

  /** Without a journal the files are whole or torn. */
  predicate Plain(k: Key, f: Files) {
    f.txn.None? ==> PairConsistent(k, f) || Torn(k, f)
  }

  lemma CourseStep(k: Key, f: Files, verifying: bool, pc: ReaderPc)
    requires Plain(k, f) && OnCourse(k, f, verifying, pc) && !pc.Finished? && (pc.JournalAbsent? ==> !verifying)
    ensures OnCourse(k, f, verifying, ReadNext(k, f, pc)) && Left(ReadNext(k, f, pc)) < Left(pc)
  {
  }

  ghost predicate Reading(k: Key, s: State, f: Files, r: nat, verifying: bool, accesses: nat) {
    && Visible(s.disk) == f && r in s.readers
    && OnCourse(k, f, verifying, s.readers[r].pc) && Left(s.readers[r].pc) + accesses <= 5
  }

  lemma StillStep(k: Key, s: State, e: Event, f: Files, r: nat, verifying: bool, accesses: nat)
    requires Reading(k, s, f, r, verifying, accesses) && Plain(k, f)
    requires Enabled(k, s, e) && Still(s, e, r, verifying)
    ensures Reading(k, Next(k, s, e), f, r, verifying, accesses + if Accesses(e, r) then 1 else 0)
  {
    if e == ReadStep(r) {
      CourseStep(k, f, verifying, s.readers[r].pc);
    }
  }

  lemma VisiblePlain(k: Key, ss: seq<State>, es: seq<Event>, n: nat)
    requires Run(k, ss, es) && n <= |es|
    ensures Plain(k, Visible(ss[n].disk))
  {
    RunInv(k, ss, es, n);
    InvDisk(k, ss[n].disk, ss[n].writer);
    VisibleShape(k, ss[n].disk);
  }

  lemma {:induction false} ReadingRun(k: Key, ss: seq<State>, es: seq<Event>, i: nat, n: nat, r: nat, verifying: bool)
    requires Run(k, ss, es) && i < n <= |es| && es[i] == StartRead(r) && Undisturbed(ss, es, i, n, r, verifying)
    ensures Reading(k, ss[n], Visible(ss[i].disk), r, verifying, AccessCount(es, i + 1, n, r))
    decreases n
  {
    var f, s, e := Visible(ss[i].disk), ss[n - 1], es[n - 1];
    assert ss[n] == Next(k, s, e);
    if i < n - 1 {
      ReadingRun(k, ss, es, i, n - 1, r, verifying);
      VisiblePlain(k, ss, es, i);
      StillStep(k, s, e, f, r, verifying, AccessCount(es, i + 1, n - 1, r));
    }
  }

  /**
   In every run, a read under which no directory operation and no crash falls is done after five accesses
   at most.  It returns what the key holds exactly when no journal is visible and the files are not torn;
   a verification read also wants an artifact there.
   */
  lemma UndisturbedRead(k: Key, ss: seq<State>, es: seq<Event>, i: nat, n: nat, r: nat, verifying: bool)
    requires Run(k, ss, es) && i < n <= |es| && es[i] == StartRead(r) && Undisturbed(ss, es, i, n, r, verifying)
    ensures r in ss[n].readers && AccessCount(es, i + 1, n, r) <= 5
    ensures AccessCount(es, i + 1, n, r) == 5 ==> ss[n].readers[r].pc.Finished?
    ensures ss[n].readers[r].pc.Finished? ==>
              ss[n].readers[r].pc.outcome ==
              if Readable(k, Visible(ss[n].disk)) && (verifying ==> Held(ss[n]).Some?)
              then Returned(Held(ss[n])) else Failed
  {
    ReadingRun(k, ss, es, i, n, r, verifying);
  }

  /** A read fails only over a journal, over torn files, or over a change of the directory while it ran. */
  lemma FailedOnlyIf(k: Key, ss: seq<State>, es: seq<Event>, i: nat, n: nat, r: nat)
    requires Run(k, ss, es) && i < n <= |es| && es[i] == StartRead(r)
    requires forall j {:trigger es[j]} :: i < j < n ==> es[j] != VerifyStep(r)
    requires r in ss[n].readers && ss[n].readers[r].pc == Finished(Failed)
    ensures (exists j :: i < j < n && (es[j].Primitive? || es[j].Crash?)) || !Readable(k, Visible(ss[i].disk))
  {
    if forall j :: i < j < n ==> !es[j].Primitive? && !es[j].Crash? {
      UndisturbedRead(k, ss, es, i, n, r, false);
      ReadingRun(k, ss, es, i, n, r, false);
    }
  }
}
