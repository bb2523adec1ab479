/**
 When a caller of the runtime cache must be served: it is turned away only by a shutdown, by a failed
 open, or by a runtime that an earlier shutdown failed to close.
 */
module RuntimeServe {
  import opened Common
  import opened RuntimeCache

  /** The open a caller waits for. */
  function Awaited(pc: Pc): Option<nat> {
    match pc
    case Joining(p) => Some(p)
    case Opens(p) => Some(p)
    case _ => None
  }

  // ----- one step

  /** A caller whose open succeeded in the current generation gets its runtime, and no other does. */
  lemma AwaitedServed(s: State, c: nat, p: nat)
    requires Inv(s) && c in s.callers && CanResume(s, s.callers[c].pc) && Awaited(s.callers[c].pc) == Some(p)
    ensures p in s.promises && s.promises[p].key == s.callers[c].key
    ensures ResumeCaller(s, c).callers[c].pc ==
            if s.promises[p].status.Fulfilled? && s.promises[p].generation == s.generation then Returned(p) else Threw
  {
    assert CallerInv(s, s.callers[c]);
  }

  /** The caller has read a generation and is about to look into the maps. */
  predicate Deciding(s: State, c: nat) {
    c in s.callers && CanResume(s, s.callers[c].pc)
    && (s.callers[c].pc.AwaitSecond? || (s.callers[c].pc.Keying? && s.flight.None?))
  }

  /** In its own generation a caller gets the cached runtime, joins the open there is, or starts one. */
  lemma DecidedServed(s: State, c: nat)
    requires Deciding(s, c)
    ensures var key, pc := s.callers[c].key, ResumeCaller(s, c).callers[c].pc;
            if s.callers[c].pc.gen != s.generation then pc == Threw
            else if key in s.runtimes then pc == Returned(s.runtimes[key])
            else if key in s.opens then pc == Joining(s.opens[key])
            else
              && pc == Opens(s.next)
              && ResumeCaller(s, c).promises == s.promises[s.next := Opening(key, s.generation, Running)]
  {
  }

  // ----- generations over a run

  predicate ShutdownIn(es: seq<Event>, i: nat, n: nat)
    requires n <= |es|
  {
    exists m :: i <= m < n && es[m].StartShutdown?
  }

  lemma GenerationStep(s: State, e: Event)
    requires Enabled(s, e) && !e.StartShutdown?
    ensures Next(s, e).generation == s.generation
  {
  }

  lemma {:induction false} GenerationSince(ss: seq<State>, es: seq<Event>, i: nat, n: nat)
    requires Run(ss, es) && i <= n <= |es| && !ShutdownIn(es, i, n)
    ensures ss[n].generation == ss[i].generation
    decreases n
  {
    if i < n {
      GenerationSince(ss, es, i, n - 1);
      GenerationStep(ss[n - 1], es[n - 1]);
    }
  }

  // ----- opens that an earlier shutdown left behind

  predicate CloseFailed(es: seq<Event>, n: nat, p: nat)
    requires n <= |es|
  {
    exists m :: 0 <= m < n && es[m] == Close(p, false)
  }

  /** A close that is on record as failed did fail, and so did that of every older open still there. */
  predicate FailuresKnown(s: State, es: seq<Event>, n: nat)
    requires n <= |es|
  {
    && (s.flight.Some? && s.flight.value.phase.Closing? ==>
          forall p :: p in s.flight.value.phase.outcome && !s.flight.value.phase.outcome[p] ==> CloseFailed(es, n, p))
    && (s.flight.None? ==>
          forall k :: k in s.opens && s.opens[k] in s.promises && s.promises[s.opens[k]].generation < s.generation ==>
            CloseFailed(es, n, s.opens[k]))
  }

  lemma FailedStays(es: seq<Event>, n: nat, p: nat)
    requires n < |es|
    ensures CloseFailed(es, n, p) ==> CloseFailed(es, n + 1, p)
    ensures es[n] == Close(p, false) ==> CloseFailed(es, n + 1, p)
  {
  }

  /** An open that survives a shutdown was a target, and its close is on record as failed. */
  lemma FinishLeaves(s: State, k: nat)
    requires MapsInv(s) && FlightInv(s) && Enabled(s, Finish) && k in Finished(s).opens
    ensures var p := s.opens[k];
            k in s.opens && Finished(s).opens[k] == p
            && p in s.flight.value.phase.outcome && !s.flight.value.phase.outcome[p]
  {
    var p := s.opens[k];
    assert Tracked(s, p) && Settled(s.promises[p]);
    assert !Refused(s, p);
    assert Live(s, p);
  }

  lemma FinishKnown(s: State, es: seq<Event>, n: nat)
    requires Inv(s) && n < |es| && es[n] == Finish && Enabled(s, Finish) && FailuresKnown(s, es, n)
    ensures FailuresKnown(Next(s, Finish), es, n + 1)
  {
    forall k | k in Finished(s).opens
      ensures CloseFailed(es, n + 1, Finished(s).opens[k])
    {
      FinishLeaves(s, k);
      FailedStays(es, n, s.opens[k]);
    }
  }

  lemma CloseKnown(s: State, es: seq<Event>, n: nat)
    requires n < |es| && es[n].Close? && Enabled(s, es[n]) && FailuresKnown(s, es, n)
    ensures FailuresKnown(Next(s, es[n]), es, n + 1)
  {
    var s' := Next(s, es[n]);
    forall p | p in s'.flight.value.phase.outcome && !s'.flight.value.phase.outcome[p]
      ensures CloseFailed(es, n + 1, p)
    {
      FailedStays(es, n, p);
    }
  }

  /** A caller publishes only opens of the current generation. */
  lemma ResumeOpens(s: State, c: nat, k: nat)
    requires MapsInv(s) && c in s.callers && CanResume(s, s.callers[c].pc) && k in ResumeCaller(s, c).opens
    ensures (k in s.opens && s.opens[k] == ResumeCaller(s, c).opens[k])
            || (ResumeCaller(s, c).opens[k] in ResumeCaller(s, c).promises
                && ResumeCaller(s, c).promises[ResumeCaller(s, c).opens[k]].generation == s.generation)
  {
  }

  lemma ResumePromises(s: State, c: nat, p: nat)
    requires MapsInv(s) && c in s.callers && CanResume(s, s.callers[c].pc) && p in s.promises
    ensures p in ResumeCaller(s, c).promises && ResumeCaller(s, c).promises[p] == s.promises[p]
  {
  }

  /** No other step leaves an older open in the map or a failed close on record. */
  lemma OldOpensStay(s: State, e: Event, k: nat)
    requires Inv(s) && Enabled(s, e) && !e.StartShutdown? && !e.Finish? && s.flight.None? && k in Next(s, e).opens
    requires var p := Next(s, e).opens[k]; p in Next(s, e).promises && Next(s, e).promises[p].generation < s.generation
    ensures k in s.opens && s.opens[k] == Next(s, e).opens[k] && s.opens[k] in s.promises
    ensures s.promises[s.opens[k]].generation < s.generation
  {
    if e.Resume? {
      ResumeOpens(s, e.c, k);
      if k in s.opens && s.opens[k] in s.promises {
        ResumePromises(s, e.c, s.opens[k]);
      }
    }
  }

  lemma ResumeFlight(s: State, c: nat)
    requires c in s.callers && CanResume(s, s.callers[c].pc)
    ensures ResumeCaller(s, c).flight == s.flight && ResumeCaller(s, c).generation == s.generation
  {
  }

  lemma FlightOpens(s: State, e: Event)
    requires Enabled(s, e) && !e.StartShutdown? && !e.Finish? && !e.Close? && !e.OpensSettled?
    ensures Next(s, e).flight == s.flight && Next(s, e).generation == s.generation
  {
    if e.Resume? {
      ResumeFlight(s, e.c);
    }
  }

  lemma OtherKnown(s: State, es: seq<Event>, n: nat)
    requires Inv(s) && n < |es| && Enabled(s, es[n]) && FailuresKnown(s, es, n)
    requires !es[n].Finish? && !es[n].Close?
    ensures FailuresKnown(Next(s, es[n]), es, n + 1)
  {
    var e, s' := es[n], Next(s, es[n]);
    if !e.StartShutdown? && !e.OpensSettled? {
      FlightOpens(s, e);
      forall p
        ensures CloseFailed(es, n, p) ==> CloseFailed(es, n + 1, p)
      {
        FailedStays(es, n, p);
      }
      if s.flight.None? {
        forall k | k in s'.opens && s'.opens[k] in s'.promises && s'.promises[s'.opens[k]].generation < s'.generation
          ensures CloseFailed(es, n + 1, s'.opens[k])
        {
          OldOpensStay(s, e, k);
        }
      }
    }
  }

  lemma {:induction false} FailuresKnownRun(ss: seq<State>, es: seq<Event>, n: nat)
    requires Run(ss, es) && n <= |es|
    ensures FailuresKnown(ss[n], es, n)
  {
    if n > 0 {
      FailuresKnownRun(ss, es, n - 1);
      KnownNext(ss, es, n - 1);
    }
  }

  lemma KnownNext(ss: seq<State>, es: seq<Event>, n: nat)
    requires Run(ss, es) && n < |es| && FailuresKnown(ss[n], es, n)
    ensures FailuresKnown(ss[n + 1], es, n + 1)
  {
    RunInv(ss, es, n);
    if es[n].Finish? {
      FinishKnown(ss[n], es, n);
    } else if es[n].Close? {
      CloseKnown(ss[n], es, n);
    } else {
      OtherKnown(ss[n], es, n);
    }
  }

  // ----- one caller over a run

  /** At step `i` the caller reads the generation it will answer for. */
  predicate ReadsGeneration(ss: seq<State>, es: seq<Event>, i: nat, c: nat)
    requires |ss| == |es| + 1
  {
    i < |es| && es[i] == Resume(c) && c in ss[i + 1].callers && ss[i + 1].callers[c].pc.Keying?
  }

  /** The caller still answers for generation `g`, or waits for an open of it or one left behind. */
  predicate AnswersFor(s: State, es: seq<Event>, n: nat, c: nat, g: nat)
    requires n <= |es|
  {
    && c in s.callers
    && match s.callers[c].pc
       case Keying(gen) => gen == g
       case AwaitSecond(gen, _) => gen == g
       case Joining(p) => p in s.promises && (s.promises[p].generation == g || CloseFailed(es, n, p))
       case Opens(p) => p in s.promises && s.promises[p].generation == g
       case Returned(_) => true
       case Threw => true
       case _ => false
  }

  lemma PromisesStay(s: State, e: Event, p: nat)
    requires Inv(s) && Enabled(s, e) && p in s.promises
    ensures p in Next(s, e).promises && Next(s, e).promises[p].generation == s.promises[p].generation
  {
    if e.Resume? {
      ResumePromises(s, e.c, p);
    }
  }

  lemma ResumeOthers(s: State, d: nat, c: nat)
    requires d in s.callers && CanResume(s, s.callers[d].pc) && c in s.callers && c != d
    ensures c in ResumeCaller(s, d).callers && ResumeCaller(s, d).callers[c] == s.callers[c]
  {
  }

  lemma OthersStay(s: State, e: Event, c: nat)
    requires Enabled(s, e) && c in s.callers && e != Resume(c) && e != Fail(c)
    ensures c in Next(s, e).callers && Next(s, e).callers[c] == s.callers[c]
  {
    if e.Resume? {
      ResumeOthers(s, e.c, c);
    }
  }

  lemma AnswersStep(s: State, es: seq<Event>, n: nat, c: nat, g: nat)
    requires Inv(s) && n < |es| && Enabled(s, es[n]) && FailuresKnown(s, es, n) && AnswersFor(s, es, n, c, g)
    ensures AnswersFor(Next(s, es[n]), es, n + 1, c, g)
  {
    var e, pc := es[n], s.callers[c].pc;
    if e == Resume(c) {
      if Deciding(s, c) {
        DecidedStep(s, es, n, c, g);
      } else if Awaited(pc).Some? {
        AwaitedServed(s, c, Awaited(pc).value);
      }
    } else if e != Fail(c) {
      OthersStay(s, e, c);
      if Awaited(pc).Some? {
        PromisesStay(s, e, Awaited(pc).value);
        FailedStays(es, n, Awaited(pc).value);
      }
    }
  }

  lemma DecidedStep(s: State, es: seq<Event>, n: nat, c: nat, g: nat)
    requires Inv(s) && n < |es| && es[n] == Resume(c) && FailuresKnown(s, es, n)
    requires Deciding(s, c) && s.callers[c].pc.gen == g
    ensures AnswersFor(Next(s, es[n]), es, n + 1, c, g)
  {
    var key := s.callers[c].key;
    DecidedServed(s, c);
    if g == s.generation {
      DecideNoFlight(s, c);
      if key !in s.runtimes && key in s.opens {
        FailedStays(es, n, s.opens[key]);
      }
    }
  }

  lemma {:induction false} AnswersRun(ss: seq<State>, es: seq<Event>, i: nat, n: nat, c: nat)
    requires Run(ss, es) && i < n <= |es| && ReadsGeneration(ss, es, i, c)
    ensures AnswersFor(ss[n], es, n, c, ss[i].generation)
    decreases n
  {
    if i + 1 == n {
      ReadsCurrent(ss[i], c);
    } else {
      AnswersRun(ss, es, i, n - 1, c);
      AnswersNext(ss, es, n - 1, c, ss[i].generation);
    }
  }

  lemma ReadsCurrent(s: State, c: nat)
    requires c in s.callers && CanResume(s, s.callers[c].pc) && ResumeCaller(s, c).callers[c].pc.Keying?
    ensures ResumeCaller(s, c).callers[c].pc == Keying(s.generation)
  {
  }

  lemma AnswersNext(ss: seq<State>, es: seq<Event>, n: nat, c: nat, g: nat)
    requires Run(ss, es) && n < |es| && AnswersFor(ss[n], es, n, c, g)
    ensures AnswersFor(ss[n + 1], es, n + 1, c, g)
  {
    RunInv(ss, es, n);
    FailuresKnownRun(ss, es, n);
    AnswersStep(ss[n], es, n, c, g);
  }

  // ----- main results

  /** The open the caller waits for failed. */
  predicate OpenRejected(s: State, pc: Pc) {
    Awaited(pc).Some? && Refused(s, Awaited(pc).value)
  }

  /** The caller joined an open whose runtime an earlier shutdown failed to close. */
  predicate JoinedUnclosed(es: seq<Event>, n: nat, pc: Pc)
    requires n <= |es|
  {
    pc.Joining? && CloseFailed(es, n, pc.p)
  }

  /**
   In every run, a caller that resumes and throws was overtaken by a shutdown since it read its
   generation, or waited for an open that failed, or joined one that an earlier shutdown failed to close.
   */
  lemma ThrewOnlyIf(ss: seq<State>, es: seq<Event>, i: nat, n: nat, c: nat)
    requires Run(ss, es) && i < n < |es| && ReadsGeneration(ss, es, i, c) && es[n] == Resume(c)
    requires c in ss[n].callers && c in ss[n + 1].callers && ss[n + 1].callers[c].pc.Threw?
    ensures ShutdownIn(es, i, n) || OpenRejected(ss[n], ss[n].callers[c].pc)
            || JoinedUnclosed(es, n, ss[n].callers[c].pc)
  {
    if !ShutdownIn(es, i, n) {
      GenerationSince(ss, es, i, n);
      AnswersRun(ss, es, i, n, c);
      ThrewStep(ss, es, n, c, ss[i].generation);
    }
  }

  lemma ThrewStep(ss: seq<State>, es: seq<Event>, n: nat, c: nat, g: nat)
    requires Run(ss, es) && n < |es| && es[n] == Resume(c) && AnswersFor(ss[n], es, n, c, g) && g == ss[n].generation
    requires c in ss[n + 1].callers && ss[n + 1].callers[c].pc.Threw?
    ensures OpenRejected(ss[n], ss[n].callers[c].pc) || JoinedUnclosed(es, n, ss[n].callers[c].pc)
  {
    var s := ss[n];
    RunInv(ss, es, n);
    if Deciding(s, c) {
      DecidedServed(s, c);
    } else if Awaited(s.callers[c].pc).Some? {
      AwaitedServed(s, c, Awaited(s.callers[c].pc).value);
    }
  }

  /**
   Without any of the three, a caller that waited for an open gets that open's runtime, and one that
   finds a cached runtime gets it; either is of the caller's repository and open.
   */
  lemma Served(ss: seq<State>, es: seq<Event>, i: nat, n: nat, c: nat)
    requires Run(ss, es) && i < n < |es| && ReadsGeneration(ss, es, i, c) && es[n] == Resume(c)
    requires c in ss[n].callers && !ShutdownIn(es, i, n)
    requires !OpenRejected(ss[n], ss[n].callers[c].pc) && !JoinedUnclosed(es, n, ss[n].callers[c].pc)
    requires Awaited(ss[n].callers[c].pc).Some? || (Deciding(ss[n], c) && ss[n].callers[c].key in ss[n].runtimes)
    ensures var s, pc := ss[n], ss[n + 1].callers[c].pc;
            && c in ss[n + 1].callers
            && pc == Returned(if Awaited(s.callers[c].pc).Some? then Awaited(s.callers[c].pc).value
                              else s.runtimes[s.callers[c].key])
            && pc.p in ss[n + 1].unclosed
            && pc.p in ss[n + 1].promises && ss[n + 1].promises[pc.p].key == s.callers[c].key
  {
    var s := ss[n];
    RunInv(ss, es, n);
    AnswersRun(ss, es, i, n, c);
    GenerationSince(ss, es, i, n);
    if Awaited(s.callers[c].pc).Some? {
      AwaitedServed(s, c, Awaited(s.callers[c].pc).value);
    } else {
      DecidedServed(s, c);
    }
    ReturnedRuntimeIsOpen(ss, es, n, c);
  }

  // ----- the third reason happens

  lemma RunExtends(ss: seq<State>, es: seq<Event>, e: Event)
    requires Run(ss, es) && Enabled(ss[|es|], e)
    ensures Run(ss + [Next(ss[|es|], e)], es + [e])
  {
    var ss', es' := ss + [Next(ss[|es|], e)], es + [e];
    forall n {:trigger es'[n]} | 0 <= n < |es'|
      ensures Enabled(ss'[n], es'[n]) && ss'[n + 1] == Next(ss'[n], es'[n])
    {
      assert n < |es| ==> ss'[n] == ss[n] && ss'[n + 1] == ss[n + 1] && es'[n] == es[n];
    }
  }

  const OPENED := State(map[], map[0 := 0], map[0 := Opening(0, 0, Fulfilled)], 1, 0, None,
                        map[0 := Caller(0, Opens(0))], {0})
  const LEFT := OPENED.(generation := 1)
  const JOINED := LEFT.(callers := map[0 := Caller(0, Opens(0)), 1 := Caller(0, Joining(0))])

  /** A first caller opens the runtime. */
  lemma FirstOpens() returns (ss: seq<State>, es: seq<Event>)
    ensures Run(ss, es) && es == [Call(0, 0), Resume(0), Resume(0), Create(0), Seed(0)] && ss[5] == OPENED
  {
    es := [Call(0, 0), Resume(0), Resume(0), Create(0), Seed(0)];
    var s1 := Next(EMPTY, Call(0, 0));
    var s2 := Next(s1, Resume(0));
    var s3 := Next(s2, Resume(0));
    var s4 := Next(s3, Create(0));
    ss := [EMPTY, s1, s2, s3, s4, Next(s4, Seed(0))];
    assert ss[5] == OPENED;
  }

  /** A shutdown fails to close it and leaves it in the map. */
  lemma CloseFails() returns (ss: seq<State>, es: seq<Event>)
    ensures Run(ss, es) && |es| == 9 && ss[9] == LEFT && es[7] == Close(0, false)
  {
    ss, es := FirstOpens();
    var s6 := OPENED.(generation := 1, flight := Some(Flight(map[], map[0 := 0], AwaitingOpens)));
    RunExtends(ss, es, StartShutdown);
    ss, es := ss + [s6], es + [StartShutdown];
    var s7 := s6.(flight := Some(Flight(map[], map[0 := 0], Closing({0}, map[]))));
    SettledTargets(s6, s7);
    RunExtends(ss, es, OpensSettled);
    ss, es := ss + [s7], es + [OpensSettled];
    var s8 := s6.(flight := Some(Flight(map[], map[0 := 0], Closing({0}, map[0 := false]))));
    RunExtends(ss, es, Close(0, false));
    ss, es := ss + [s8], es + [Close(0, false)];
    FinishedLeft(s8);
    RunExtends(ss, es, Finish);
    ss, es := ss + [LEFT], es + [Finish];
  }

  lemma SettledTargets(s6: State, s7: State)
    requires s6 == OPENED.(generation := 1, flight := Some(Flight(map[], map[0 := 0], AwaitingOpens)))
    requires s7 == s6.(flight := Some(Flight(map[], map[0 := 0], Closing({0}, map[]))))
    ensures Enabled(s6, OpensSettled) && Next(s6, OpensSettled) == s7
  {
    var f := s6.flight.value;
    assert 0 in f.pending && f.pending[0] == 0;
    assert f.pending.Values == {0} && f.live.Values == {};
    assert Next(s6, OpensSettled).flight.value.phase.targets == {0};
  }

  lemma FinishedLeft(s8: State)
    requires s8 == LEFT.(flight := Some(Flight(map[], map[0 := 0], Closing({0}, map[0 := false]))))
    ensures Enabled(s8, Finish) && Next(s8, Finish) == LEFT
  {
    assert map[0 := false].Keys == {0};
  }

  /**
   A caller that comes after the shutdown joins the open left behind and is turned away, though no
   shutdown starts while it waits and the open it joined had succeeded.
   */
  lemma JoinsUnclosed() returns (ss: seq<State>, es: seq<Event>)
    ensures Run(ss, es) && |es| == 13 && ReadsGeneration(ss, es, 10, 1) && es[12] == Resume(1)
    ensures !ShutdownIn(es, 10, 12) && 1 in ss[12].callers && !OpenRejected(ss[12], ss[12].callers[1].pc)
    ensures 1 in ss[13].callers && ss[13].callers[1].pc.Threw?
  {
    ss, es := CloseFails();
    RunExtends(ss, es, Call(1, 0));
    ss, es := ss + [Next(LEFT, Call(1, 0))], es + [Call(1, 0)];
    RunExtends(ss, es, Resume(1));
    ss, es := ss + [Next(ss[10], Resume(1))], es + [Resume(1)];
    RunExtends(ss, es, Resume(1));
    assert Next(ss[11], Resume(1)) == JOINED;
    ss, es := ss + [JOINED], es + [Resume(1)];
    RunExtends(ss, es, Resume(1));
    ss, es := ss + [Next(JOINED, Resume(1))], es + [Resume(1)];
  }

  /** From event n to state m one shutdown is in flight. */
  ghost predicate ShuttingDown(ss: seq<State>, n: nat, m: nat) {
    n <= m < |ss| && forall k :: n <= k <= m ==> ss[k].flight.Some?
  }

  /** A caller that arrives during a shutdown starts nothing before that shutdown is over. */
  lemma {:induction false} WaitsForShutdown(ss: seq<State>, es: seq<Event>, n: nat, m: nat, c: nat)
    requires Run(ss, es) && n < m <= |es| && es[n].Call? && es[n].c == c && ShuttingDown(ss, n, m)
    ensures c in ss[m].callers && ss[m].generation == ss[n].generation
    ensures var pc := ss[m].callers[c].pc; pc.Entering? || pc == AwaitFirst(ss[n].generation) || pc.Threw?
    decreases m
  {
    assert Enabled(ss[m - 1], es[m - 1]) && ss[m] == Next(ss[m - 1], es[m - 1]);
    assert ss[m - 1].flight.Some? && ss[m].flight.Some?;
    if n + 1 < m {
      WaitsForShutdown(ss, es, n, m - 1, c);
    }
  }
}
