/**
 The extension's runtime cache: callers that look up, join or start the open of a
 repository's runtime, and shutdowns that fence them off by generation.  Every
 synchronous stretch between two awaits is one step; callers, opens and shutdowns
 interleave freely.  A runtime is named by the open that created it.
 */
module RuntimeCache {
  import opened Common

  datatype Status = Running | Created | Fulfilled | Rejected

  /** An open: `Created` once the runtime exists, `Fulfilled` after seeding, which does not throw. */
  datatype Opening = Opening(key: nat, generation: nat, status: Status)

  datatype Phase = AwaitingOpens | Closing(targets: set<nat>, outcome: map<nat, bool>)

  /** A running shutdown with the snapshots it took. */
  datatype Flight = Flight(live: map<nat, nat>, pending: map<nat, nat>, phase: Phase)

  datatype Pc =
    | Entering
    | AwaitFirst(flight: nat)
    | Keying(gen: nat)
    | AwaitSecond(gen: nat, flight: nat)
    | Joining(p: nat)
    | Opens(p: nat)
    | Returned(p: nat)
    | Threw

  datatype Caller = Caller(key: nat, pc: Pc)

  datatype State = State(
    runtimes: map<nat, nat>, opens: map<nat, nat>, promises: map<nat, Opening>,
    next: nat, generation: nat, flight: Option<Flight>, callers: map<nat, Caller>, unclosed: set<nat>)

  datatype Event =
    | Call(c: nat, key: nat)
    | Resume(c: nat)                  // the caller's await settles and it runs to its next await
    | Fail(c: nat)                    // the caller's await rejects
    | Create(p: nat) | Seed(p: nat) | Reject(p: nat)
    | StartShutdown
    | OpensSettled
    | Close(p: nat, ok: bool)
    | Finish

  predicate Settled(o: Opening) {
    o.status.Fulfilled? || o.status.Rejected?
  }

  /** Shutdowns are numbered by the generation they start. */
  predicate InFlight(s: State, n: nat) {
    s.flight.Some? && s.generation == n
  }

  predicate CanResume(s: State, pc: Pc) {
    match pc
    case Entering => true
    case Keying(_) => true
    case AwaitFirst(n) => !InFlight(s, n)
    case AwaitSecond(_, n) => !InFlight(s, n)
    case Joining(p) => p in s.promises && Settled(s.promises[p])
    case Opens(p) => p in s.promises && Settled(s.promises[p])
    case _ => false
  }

  predicate Enabled(s: State, e: Event) {
    match e
    case Call(c, key) => c !in s.callers
    case Resume(c) => c in s.callers && CanResume(s, s.callers[c].pc)
    case Fail(c) =>
      c in s.callers && (s.callers[c].pc.AwaitFirst? || s.callers[c].pc.AwaitSecond? || s.callers[c].pc.Keying?)
    case Create(p) => p in s.promises && s.promises[p].status.Running?
    case Seed(p) => p in s.promises && s.promises[p].status.Created?
    case Reject(p) => p in s.promises && s.promises[p].status.Running?
    case StartShutdown => s.flight.None?
    case OpensSettled =>
      && s.flight.Some? && s.flight.value.phase.AwaitingOpens?
      && forall k :: k in s.flight.value.pending ==>
        s.flight.value.pending[k] in s.promises && Settled(s.promises[s.flight.value.pending[k]])
    case Close(p, ok) =>
      && s.flight.Some? && s.flight.value.phase.Closing?
      && p in s.flight.value.phase.targets && p !in s.flight.value.phase.outcome
    case Finish =>
      && s.flight.Some? && s.flight.value.phase.Closing?
      && s.flight.value.phase.outcome.Keys == s.flight.value.phase.targets
  }

  function Publish(s: State, c: nat, key: nat, gen: nat): State {
    var p := s.next;
    s.(promises := s.promises[p := Opening(key, gen, Running)], next := p + 1,
       opens := s.opens[key := p], callers := s.callers[c := Caller(key, Opens(p))])
  }

  /** The synchronous stretch after both waits: generation check, lookup, join or publish. */
  function Decide(s: State, c: nat, key: nat, gen: nat): State {
    if gen != s.generation then s.(callers := s.callers[c := Caller(key, Threw)])
    else if key in s.runtimes then s.(callers := s.callers[c := Caller(key, Returned(s.runtimes[key]))])
    else if key in s.opens then s.(callers := s.callers[c := Caller(key, Joining(s.opens[key]))])
    else Publish(s, c, key, gen)
  }

  /** The opener's continuation: publish the runtime, or give way to a newer generation. */
  function Opened(s: State, c: nat, key: nat, p: nat): State
    requires p in s.promises
  {
    var o := s.promises[p];
    var current := o.generation == s.generation;
    var mine := key in s.opens && s.opens[key] == p;
    var opens := if mine && current then s.opens - {key} else s.opens;
    if o.status.Fulfilled? && current
    then s.(runtimes := s.runtimes[key := p], opens := opens, callers := s.callers[c := Caller(key, Returned(p))])
    else s.(opens := opens, callers := s.callers[c := Caller(key, Threw)])
  }

  function ResumeCaller(s: State, c: nat): State
    requires c in s.callers && CanResume(s, s.callers[c].pc)
  {
    var key := s.callers[c].key;
    match s.callers[c].pc
    case Entering =>
      var pc := if s.flight.Some? then AwaitFirst(s.generation) else Keying(s.generation);
      s.(callers := s.callers[c := Caller(key, pc)])
    case AwaitFirst(_) => s.(callers := s.callers[c := Caller(key, Keying(s.generation))])
    case Keying(gen) =>
      if s.flight.Some? then s.(callers := s.callers[c := Caller(key, AwaitSecond(gen, s.generation))])
      else Decide(s, c, key, gen)
    case AwaitSecond(gen, _) => Decide(s, c, key, gen)
    case Joining(p) =>
      var ok := s.promises[p].status.Fulfilled? && s.promises[p].generation == s.generation;
      s.(callers := s.callers[c := Caller(key, if ok then Returned(p) else Threw)])
    case Opens(p) => Opened(s, c, key, p)
  }

  function Finished(s: State): State
    requires s.flight.Some? && s.flight.value.phase.Closing?
  {
    var f := s.flight.value;
    var closed := set p | p in f.phase.outcome && f.phase.outcome[p];
    s.(flight := None,
       runtimes := map k | k in s.runtimes
                           && !(k in f.live && f.live[k] == s.runtimes[k] && s.runtimes[k] in closed) :: s.runtimes[k],
       opens := map k | k in s.opens && !(k in f.pending && f.pending[k] == s.opens[k]
                                          && (s.opens[k] in closed || Refused(s, s.opens[k]))) :: s.opens[k])
  }

  predicate Refused(s: State, p: nat) {
    p in s.promises && s.promises[p].status.Rejected?
  }

  function WithStatus(s: State, p: nat, status: Status): State
    requires p in s.promises
  {
    s.(promises := s.promises[p := s.promises[p].(status := status)])
  }

  function Next(s: State, e: Event): State
    requires Enabled(s, e)
  {
    match e
    case Call(c, key) => s.(callers := s.callers[c := Caller(key, Entering)])
    case Resume(c) => ResumeCaller(s, c)
    case Fail(c) => s.(callers := s.callers[c := Caller(s.callers[c].key, Threw)])
    case Create(p) => WithStatus(s, p, Created).(unclosed := s.unclosed + {p})
    case Seed(p) => WithStatus(s, p, Fulfilled)
    case Reject(p) => WithStatus(s, p, Rejected)
    case StartShutdown =>
      s.(generation := s.generation + 1, flight := Some(Flight(s.runtimes, s.opens, AwaitingOpens)))
    case OpensSettled =>
      var f := s.flight.value;
      var fulfilled := set p | p in f.pending.Values && !Refused(s, p);
      s.(flight := Some(f.(phase := Closing(f.live.Values + fulfilled, map[]))))
    case Close(p, ok) =>
      var f := s.flight.value;
      s.(flight := Some(f.(phase := f.phase.(outcome := f.phase.outcome[p := ok]))),
         unclosed := if ok then s.unclosed - {p} else s.unclosed)
    case Finish => Finished(s)
  }

  /** The shutdown promise resolves: every open it waited for succeeded and every close did. */
  predicate Resolves(s: State) {
    && s.flight.Some? && s.flight.value.phase.Closing?
    && (forall k :: k in s.flight.value.pending ==> !Refused(s, s.flight.value.pending[k]))
    && (forall p :: p in s.flight.value.phase.outcome ==> s.flight.value.phase.outcome[p])
  }

  const EMPTY := State(map[], map[], map[], 0, 0, None, map[], {})

  ghost predicate Run(ss: seq<State>, es: seq<Event>) {
    && |ss| == |es| + 1 && ss[0] == EMPTY
    && forall n {:trigger es[n]} :: 0 <= n < |es| ==> Enabled(ss[n], es[n]) && ss[n + 1] == Next(ss[n], es[n])
  }

  // ----- invariant

  predicate Tracked(s: State, p: nat) {
    && p in s.promises
    && var k := s.promises[p].key;
       (k in s.runtimes && s.runtimes[k] == p) || (k in s.opens && s.opens[k] == p)
  }

  predicate Live(s: State, p: nat) {
    p in s.promises && (s.promises[p].status.Created? || s.promises[p].status.Fulfilled?)
  }

  ghost predicate MapsInv(s: State) {
    && (forall k :: k in s.runtimes ==>
          s.runtimes[k] in s.promises && s.promises[s.runtimes[k]].key == k
          && s.promises[s.runtimes[k]].status.Fulfilled? && k !in s.opens)
    && (forall k :: k in s.opens ==> s.opens[k] in s.promises && s.promises[s.opens[k]].key == k)
    && (forall p :: p in s.promises ==> p < s.next && s.promises[p].generation <= s.generation)
    && (forall p :: p in s.unclosed ==> Live(s, p) && Tracked(s, p))
    && (forall p :: p in s.promises && (s.promises[p].generation == s.generation || !Settled(s.promises[p])) ==>
          Tracked(s, p) || s.promises[p].status.Rejected?)
  }

  /** Outside the closing phase, what the maps hold is exactly what is not closed. */
  ghost predicate FlightInv(s: State) {
    match s.flight
    case None => forall p :: Live(s, p) && Tracked(s, p) ==> p in s.unclosed
    case Some(f) =>
      && f.live == s.runtimes && f.pending == s.opens
      && (forall p :: p in s.promises ==> s.promises[p].generation < s.generation)
      && match f.phase
         case AwaitingOpens => forall p :: Live(s, p) && Tracked(s, p) ==> p in s.unclosed
         case Closing(targets, outcome) =>
           && outcome.Keys <= targets
           && (forall k :: k in s.opens ==> s.opens[k] in s.promises && Settled(s.promises[s.opens[k]]))
           && (forall p :: p in targets <==> Live(s, p) && Tracked(s, p))
           && (forall p :: p in targets ==> (p in s.unclosed <==> !(p in outcome && outcome[p])))
  }

  ghost predicate CallerInv(s: State, c: Caller) {
    match c.pc
    case AwaitFirst(n) => n <= s.generation
    case Keying(gen) => gen <= s.generation
    case AwaitSecond(gen, n) => gen <= n <= s.generation
    case Joining(p) => p in s.promises && s.promises[p].key == c.key
    case Opens(p) =>
      && p in s.promises && s.promises[p].key == c.key
      && (s.promises[p].generation == s.generation ==> c.key in s.opens && s.opens[c.key] == p)
    case _ => true
  }

  ghost predicate CallersInv(s: State) {
    && (forall c :: c in s.callers ==> CallerInv(s, s.callers[c]))
    && (forall c, d :: c in s.callers && d in s.callers && c != d
                       && s.callers[c].pc.Opens? && s.callers[d].pc.Opens? ==>
          s.callers[c].pc.p != s.callers[d].pc.p)
  }

  ghost predicate Inv(s: State) {
    MapsInv(s) && FlightInv(s) && CallersInv(s)
  }

  predicate StatusChange(s: State, p: nat, status: Status) {
    && p in s.promises
    && match status
       case Created => s.promises[p].status.Running?
       case Rejected => s.promises[p].status.Running?
       case Fulfilled => s.promises[p].status.Created?
       case Running => false
  }

  function Changed(s: State, p: nat, status: Status): State
    requires p in s.promises
  {
    WithStatus(s, p, status).(unclosed := if status.Created? then s.unclosed + {p} else s.unclosed)
  }

  lemma StatusMaps(s: State, p: nat, status: Status)
    requires MapsInv(s) && StatusChange(s, p, status)
    ensures MapsInv(Changed(s, p, status))
  {
    var s' := Changed(s, p, status);
    forall q
      ensures Tracked(s', q) <==> Tracked(s, q)
    {
    }
  }

  lemma StatusFlight(s: State, p: nat, status: Status)
    requires MapsInv(s) && FlightInv(s) && StatusChange(s, p, status)
    ensures FlightInv(Changed(s, p, status))
  {
    var s' := Changed(s, p, status);
    forall q
      ensures Tracked(s', q) <==> Tracked(s, q)
    {
    }
  }

  lemma StatusCallers(s: State, p: nat, status: Status)
    requires CallersInv(s) && StatusChange(s, p, status)
    ensures CallersInv(Changed(s, p, status))
  {
    var s' := Changed(s, p, status);
    forall c | c in s'.callers
      ensures CallerInv(s', s'.callers[c])
    {
      assert CallerInv(s, s.callers[c]);
    }
  }

  lemma StartFlight(s: State)
    requires MapsInv(s) && FlightInv(s) && Enabled(s, StartShutdown)
    ensures MapsInv(Next(s, StartShutdown)) && FlightInv(Next(s, StartShutdown))
  {
  }

  lemma StartCallers(s: State)
    requires MapsInv(s) && CallersInv(s) && Enabled(s, StartShutdown)
    ensures CallersInv(Next(s, StartShutdown))
  {
  }

  /** The invariants of the maps and the callers do not mention the shutdown's own progress. */
  lemma OnlyFlight(s: State, f: Option<Flight>, unclosed: set<nat>)
    requires MapsInv(s) && CallersInv(s) && unclosed <= s.unclosed
    ensures MapsInv(s.(flight := f, unclosed := unclosed)) && CallersInv(s.(flight := f, unclosed := unclosed))
  {
    var s' := s.(flight := f, unclosed := unclosed);
    assert forall p :: Tracked(s, p) == Tracked(s', p);
    assert forall c :: c in s.callers ==> CallerInv(s, s.callers[c]) == CallerInv(s', s.callers[c]);
  }

  lemma OpensFlight(s: State)
    requires MapsInv(s) && FlightInv(s) && Enabled(s, OpensSettled)
    ensures FlightInv(Next(s, OpensSettled))
  {
    var s' := Next(s, OpensSettled);
    var f := s.flight.value;
    forall p
      ensures p in s'.flight.value.phase.targets <==> Live(s', p) && Tracked(s', p)
    {
      if Live(s, p) && Tracked(s, p) {
        var k := s.promises[p].key;
        assert (k in f.live && f.live[k] == p) || (k in f.pending && f.pending[k] == p);
      }
    }
  }

  lemma CloseFlight(s: State, p: nat, ok: bool)
    requires FlightInv(s) && Enabled(s, Close(p, ok))
    ensures FlightInv(Next(s, Close(p, ok)))
  {
    var s' := Next(s, Close(p, ok));
    assert forall q :: Tracked(s, q) == Tracked(s', q) && Live(s, q) == Live(s', q);
  }

  lemma FinishMaps(s: State)
    requires MapsInv(s) && FlightInv(s) && Enabled(s, Finish)
    ensures MapsInv(Next(s, Finish))
  {
  }

  lemma FinishFlight(s: State)
    requires MapsInv(s) && FlightInv(s) && Enabled(s, Finish)
    ensures FlightInv(Next(s, Finish))
  {
  }

  lemma FinishCallers(s: State)
    requires FlightInv(s) && CallersInv(s) && Enabled(s, Finish)
    ensures CallersInv(Next(s, Finish))
  {
  }

  lemma PublishMaps(s: State, c: nat, key: nat)
    requires MapsInv(s) && key !in s.runtimes && key !in s.opens
    ensures MapsInv(Publish(s, c, key, s.generation))
  {
  }

  lemma PublishFlight(s: State, c: nat, key: nat)
    requires MapsInv(s) && FlightInv(s) && s.flight.None? && key !in s.runtimes && key !in s.opens
    ensures FlightInv(Publish(s, c, key, s.generation))
  {
  }

  lemma PublishCallers(s: State, c: nat, key: nat)
    requires MapsInv(s) && CallersInv(s) && c in s.callers && !s.callers[c].pc.Opens? && key !in s.opens
    ensures CallersInv(Publish(s, c, key, s.generation))
  {
    var s' := Publish(s, c, key, s.generation);
    forall d | d in s'.callers
      ensures CallerInv(s', s'.callers[d])
    {
      assert d != c ==> CallerInv(s, s.callers[d]);
    }
    forall d | d in s.callers && s.callers[d].pc.Opens?
      ensures s.callers[d].pc.p in s.promises
    {
      assert CallerInv(s, s.callers[d]);
    }
  }

  lemma OpenedMaps(s: State, c: nat)
    requires MapsInv(s) && c in s.callers && CallerInv(s, s.callers[c])
    requires s.callers[c].pc.Opens? && CanResume(s, s.callers[c].pc)
    ensures MapsInv(Opened(s, c, s.callers[c].key, s.callers[c].pc.p))
  {
  }

  lemma OpenedFlight(s: State, c: nat)
    requires MapsInv(s) && FlightInv(s) && c in s.callers && CallerInv(s, s.callers[c])
    requires s.callers[c].pc.Opens? && CanResume(s, s.callers[c].pc)
    ensures FlightInv(Opened(s, c, s.callers[c].key, s.callers[c].pc.p))
  {
  }

  lemma OpenedCallers(s: State, c: nat)
    requires CallersInv(s) && c in s.callers && s.callers[c].pc.Opens? && CanResume(s, s.callers[c].pc)
    ensures CallersInv(Opened(s, c, s.callers[c].key, s.callers[c].pc.p))
  {
    var s' := Opened(s, c, s.callers[c].key, s.callers[c].pc.p);
    assert CallerInv(s, s.callers[c]);
    forall d | d in s'.callers
      ensures CallerInv(s', s'.callers[d])
    {
      assert d != c ==> CallerInv(s, s.callers[d]);
    }
  }

  /** Past the generation check, no shutdown is in flight. */
  lemma DecideNoFlight(s: State, c: nat)
    requires Inv(s) && c in s.callers && CanResume(s, s.callers[c].pc)
    requires s.callers[c].pc.AwaitSecond? || (s.callers[c].pc.Keying? && s.flight.None?)
    requires s.callers[c].pc.gen == s.generation
    ensures s.flight.None?
  {
  }

  lemma MoveStep(s: State, c: nat, key: nat, pc: Pc)
    requires Inv(s) && !pc.Opens? && CallerInv(s, Caller(key, pc))
    ensures Inv(s.(callers := s.callers[c := Caller(key, pc)]))
  {
  }

  lemma DecideStep(s: State, c: nat)
    requires Inv(s) && c in s.callers && CanResume(s, s.callers[c].pc)
    requires s.callers[c].pc.AwaitSecond? || (s.callers[c].pc.Keying? && s.flight.None?)
    ensures Inv(Decide(s, c, s.callers[c].key, s.callers[c].pc.gen))
  {
    var key, gen := s.callers[c].key, s.callers[c].pc.gen;
    if gen == s.generation {
      DecideNoFlight(s, c);
      if key !in s.runtimes && key !in s.opens {
        PublishMaps(s, c, key);
        PublishFlight(s, c, key);
        PublishCallers(s, c, key);
      } else if key in s.runtimes {
        MoveStep(s, c, key, Returned(s.runtimes[key]));
      } else {
        MoveStep(s, c, key, Joining(s.opens[key]));
      }
    } else {
      MoveStep(s, c, key, Threw);
    }
  }

  lemma ResumeStep(s: State, c: nat)
    requires Inv(s) && c in s.callers && CanResume(s, s.callers[c].pc)
    ensures Inv(ResumeCaller(s, c))
  {
    var key := s.callers[c].key;
    match s.callers[c].pc {
      case Entering =>
        MoveStep(s, c, key, if s.flight.Some? then AwaitFirst(s.generation) else Keying(s.generation));
      case AwaitFirst(_) =>
        MoveStep(s, c, key, Keying(s.generation));
      case Keying(gen) =>
        if s.flight.Some? {
          MoveStep(s, c, key, AwaitSecond(gen, s.generation));
        } else {
          DecideStep(s, c);
        }
      case AwaitSecond(_, _) =>
        DecideStep(s, c);
      case Joining(p) =>
        MoveStep(s, c, key, Returned(p));
        MoveStep(s, c, key, Threw);
      case Opens(_) =>
        OpenedMaps(s, c);
        OpenedFlight(s, c);
        OpenedCallers(s, c);
    }
  }

  lemma StatusStep(s: State, p: nat, status: Status)
    requires Inv(s) && StatusChange(s, p, status)
    ensures Inv(Changed(s, p, status))
  {
    StatusMaps(s, p, status);
    StatusFlight(s, p, status);
    StatusCallers(s, p, status);
  }

  lemma StepInv(s: State, e: Event)
    requires Inv(s) && Enabled(s, e)
    ensures Inv(Next(s, e))
  {
    match e {
      case Call(c, key) => MoveStep(s, c, key, Entering);
      case Resume(c) => ResumeStep(s, c);
      case Fail(c) => MoveStep(s, c, s.callers[c].key, Threw);
      case StartShutdown =>
        StartFlight(s);
        StartCallers(s);
      case OpensSettled =>
        OpensFlight(s);
        OnlyFlight(s, Next(s, e).flight, s.unclosed);
      case Close(p, ok) =>
        CloseFlight(s, p, ok);
        OnlyFlight(s, Next(s, e).flight, Next(s, e).unclosed);
      case Finish =>
        FinishMaps(s);
        FinishFlight(s);
        FinishCallers(s);
      case Create(p) => StatusStep(s, p, Created);
      case Seed(p) => StatusStep(s, p, Fulfilled);
      case Reject(p) => StatusStep(s, p, Rejected);
    }
  }

  lemma EmptyInv()
    ensures Inv(EMPTY)
  {
  }

  lemma {:induction false} RunInv(ss: seq<State>, es: seq<Event>, n: nat)
    requires Run(ss, es) && n <= |es|
    ensures Inv(ss[n])
  {
    if n == 0 {
      EmptyInv();
    } else {
      RunInv(ss, es, n - 1);
      var s, e := ss[n - 1], es[n - 1];
      StepInv(s, e);
      assert ss[n] == Next(s, e);
    }
  }

  // ----- main results

  /** In no interleaving does a repository have two runtimes that are not closed. */
  lemma OneRuntimePerRepository(ss: seq<State>, es: seq<Event>, n: nat, p: nat, q: nat)
    requires Run(ss, es) && n <= |es| && p in ss[n].unclosed && q in ss[n].unclosed
    ensures p in ss[n].promises && q in ss[n].promises
    ensures ss[n].promises[p].key == ss[n].promises[q].key ==> p == q
  {
    RunInv(ss, es, n);
    assert Live(ss[n], p) && Live(ss[n], q);
  }

  /** No runtime leaks: each one not closed is in a map, or in the running shutdown's snapshots too. */
  lemma UnclosedReachable(ss: seq<State>, es: seq<Event>, n: nat, p: nat)
    requires Run(ss, es) && n <= |es| && p in ss[n].unclosed
    ensures Tracked(ss[n], p)
    ensures ss[n].flight.Some? ==>
              var f, k := ss[n].flight.value, ss[n].promises[p].key;
              (k in f.live && f.live[k] == p) || (k in f.pending && f.pending[k] == p)
  {
    RunInv(ss, es, n);
  }

  lemma FlightStep(s: State, e: Event, k: nat)
    requires Inv(s) && Enabled(s, e) && s.flight.Some?
    ensures var s' := Next(s, e);
            && (k in s'.opens ==> k in s.opens && s'.opens[k] == s.opens[k])
            && (k in s'.runtimes ==> k in s.runtimes && s'.runtimes[k] == s.runtimes[k])
  {
    if e.Resume? {
      ResumeInFlight(s, e.c);
    }
  }

  /** Nothing is added to either map while a shutdown is in flight. */
  lemma NothingPublishedInFlight(ss: seq<State>, es: seq<Event>, n: nat, k: nat)
    requires Run(ss, es) && n < |es| && ss[n].flight.Some?
    ensures k in ss[n + 1].opens ==> k in ss[n].opens && ss[n + 1].opens[k] == ss[n].opens[k]
    ensures k in ss[n + 1].runtimes ==> k in ss[n].runtimes && ss[n + 1].runtimes[k] == ss[n].runtimes[k]
  {
    RunInv(ss, es, n);
    FlightStep(ss[n], es[n], k);
  }

  lemma ResumeInFlight(s: State, c: nat)
    requires Inv(s) && s.flight.Some? && c in s.callers && CanResume(s, s.callers[c].pc)
    ensures ResumeCaller(s, c).opens == s.opens && ResumeCaller(s, c).runtimes == s.runtimes
  {
    if s.callers[c].pc.AwaitSecond? && s.callers[c].pc.gen == s.generation {
      DecideNoFlight(s, c);
    }
  }

  /** A shutdown that resolves leaves both maps empty and every runtime closed. */
  lemma ResolvedShutdownClosesAll(ss: seq<State>, es: seq<Event>, n: nat)
    requires Run(ss, es) && n < |es| && es[n] == Finish && Resolves(ss[n])
    ensures ss[n + 1].runtimes == map[] && ss[n + 1].opens == map[] && ss[n + 1].unclosed == {}
  {
    RunInv(ss, es, n);
    RunInv(ss, es, n + 1);
    var s, f := ss[n], ss[n].flight.value;
    forall k | k in s.runtimes
      ensures k !in ss[n + 1].runtimes
    {
      assert Live(s, s.runtimes[k]) && Tracked(s, s.runtimes[k]);
    }
    forall k | k in s.opens
      ensures k !in ss[n + 1].opens
    {
      assert !Refused(s, f.pending[k]);
      assert Live(s, s.opens[k]) && Tracked(s, s.opens[k]);
    }
  }

  /** A runtime handed to a caller belongs to that caller's repository and is not closed. */
  lemma ReturnedRuntimeIsOpen(ss: seq<State>, es: seq<Event>, n: nat, c: nat)
    requires Run(ss, es) && n < |es| && es[n] == Resume(c) && ss[n + 1].callers[c].pc.Returned?
    ensures ss[n + 1].callers[c].pc.p in ss[n + 1].unclosed && ss[n + 1].callers[c].pc.p in ss[n + 1].promises
    ensures ss[n + 1].promises[ss[n + 1].callers[c].pc.p].key == ss[n].callers[c].key
  {
    RunInv(ss, es, n);
    RunInv(ss, es, n + 1);
    ReturnedServed(ss[n], c);
  }

  /** The caller got an open runtime of its repository. */
  predicate Served(s: State, c: nat, key: nat) {
    && c in s.callers && s.callers[c].pc.Returned? && s.flight.None?
    && var p := s.callers[c].pc.p;
       Live(s, p) && Tracked(s, p) && s.promises[p].key == key
  }

  lemma DecideServes(s: State, c: nat, key: nat, gen: nat)
    requires MapsInv(s) && (gen == s.generation ==> s.flight.None?) && Decide(s, c, key, gen).callers[c].pc.Returned?
    ensures Served(Decide(s, c, key, gen), c, key)
  {
  }

  lemma OpenedServes(s: State, c: nat)
    requires FlightInv(s) && c in s.callers && CallerInv(s, s.callers[c]) && s.callers[c].pc.Opens?
    requires Opened(s, c, s.callers[c].key, s.callers[c].pc.p).callers[c].pc.Returned?
    ensures Served(Opened(s, c, s.callers[c].key, s.callers[c].pc.p), c, s.callers[c].key)
  {
  }

  lemma JoinedServes(s: State, c: nat, p: nat)
    requires MapsInv(s) && FlightInv(s) && c in s.callers && CallerInv(s, s.callers[c]) && s.callers[c].pc == Joining(p)
    requires s.promises[p].status.Fulfilled? && s.promises[p].generation == s.generation
    ensures Served(s.(callers := s.callers[c := Caller(s.callers[c].key, Returned(p))]), c, s.callers[c].key)
  {
    assert Tracked(s, p);
  }

  lemma ReturnedServed(s: State, c: nat)
    requires Inv(s) && c in s.callers && CanResume(s, s.callers[c].pc) && ResumeCaller(s, c).callers[c].pc.Returned?
    ensures Served(ResumeCaller(s, c), c, s.callers[c].key)
  {
    var key := s.callers[c].key;
    assert CallerInv(s, s.callers[c]);
    match s.callers[c].pc {
      case Keying(gen) =>
        DecideServes(s, c, key, gen);
      case AwaitSecond(gen, _) =>
        if gen == s.generation {
          DecideNoFlight(s, c);
        }
        DecideServes(s, c, key, gen);
      case Joining(p) =>
        JoinedServes(s, c, p);
      case Opens(_) =>
        OpenedServes(s, c);
      case _ =>
    }
  }
}
