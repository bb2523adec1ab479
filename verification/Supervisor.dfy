/**
 The progress supervisor: one report per loop, and one prevention per run.

 `After` is the state after a whole run of observed actions; the class refines it action by action.
 */
module Supervisor {
  import opened Common
  import opened Progress

  /** A threshold of zero or less switches the stall, or its diversity requirement, off. */
  datatype Prevention = Prevention(
    enabled: bool, noProgressTurns: int, noMutationStall: int, noMutationStallDiversity: int)

  datatype Config = Config(historySize: int, detection: Thresholds, prevention: Prevention)

  datatype Event =
    | Candidate(session: string, fingerprint: string, reason: Reason)
    | Prevented(session: string, fingerprint: string, reason: Reason)

  datatype State = State(reported: map<string, string>, events: seq<Event>, fired: bool)

  const DEFAULT_CONFIG := Config(50, Thresholds(3, 3, 3), Prevention(true, 4, 40, 6))

  function Last(h: seq<Action>): Action
    requires h != []
  {
    h[|h| - 1]
  }

  function Window(c: Config, run: seq<Action>): seq<Action> {
    LastN(run, Max(2, c.historySize))
  }

  predicate StallExceeded(p: Prevention, v: Vector) {
    p.noMutationStall > 0 && v.noMutationStall >= p.noMutationStall
    && (p.noMutationStallDiversity <= 0 || v.noMutationStallDistinct <= p.noMutationStallDiversity)
  }

  predicate Excessive(p: Prevention, v: Vector) {
    p.enabled && (v.noProgressTurns >= p.noProgressTurns || StallExceeded(p, v))
  }

  /** The loop verdict on the latest action, and why it should be prevented if it should. */
  datatype Judgement = Judgement(verdict: Option<Reason>, excess: Option<Reason>)

  /** A judge of runs by their latest action. */
  type Judging = seq<Action> -> Judgement

  /** What one action looks like to the supervisor. */
  datatype Sight = Sight(session: string, fingerprint: string, judgement: Judgement)

  function Excess(p: Prevention, v: Vector): Option<Reason> {
    if !Excessive(p, v) then None
    else if StallExceeded(p, v) then Some(NoMutationStall)
    else Some(NoProgressTurns)
  }

  function Judge(c: Config): Judging {
    (run: seq<Action>) => JudgeRun(c, run)
  }

  function JudgeRun(c: Config, run: seq<Action>): Judgement {
    if run == [] then Judgement(None, None)
    else Judgement(Verdict(c.detection, Window(c, run)), Excess(c.prevention, Metrics(Window(c, run))))
  }

  function Sights(judge: Judging, run: seq<Action>): (os: seq<Sight>)
    ensures |os| == |run|
  {
    if run == [] then []
    else Sights(judge, run[..|run| - 1]) + [Sight(Last(run).session, Last(run).fingerprint, judge(run))]
  }

  function Step(s: State, o: Sight): State {
    var Judgement(verdict, excess) := o.judgement;
    if excess.Some? && !s.fired then
      s.(fired := true, events := s.events + [Prevented(o.session, o.fingerprint, excess.value)])
    else if verdict == None then
      s.(reported := s.reported - {o.session})
    else if o.session in s.reported && s.reported[o.session] == o.fingerprint then
      s
    else
      s.(reported := s.reported[o.session := o.fingerprint],
         events := s.events + [Candidate(o.session, o.fingerprint, verdict.value)])
  }

  function Fold(os: seq<Sight>): State {
    if os == [] then State(map[], [], false) else Step(Fold(os[..|os| - 1]), os[|os| - 1])
  }

  function After(c: Config, run: seq<Action>): State {
    Fold(Sights(Judge(c), run))
  }

  class AgentProgressSupervisor {
    const config: Config
    const evaluator: ProgressEvaluator
    var reportedLoops: map<string, string>
    var events: seq<Event>
    var preventionFired: bool

    ghost predicate Valid()
      reads this, evaluator
    {
      evaluator.Valid() && evaluator.historySize == Max(2, config.historySize)
      && evaluator.thresholds == config.detection
      && State(reportedLoops, events, preventionFired) == After(config, evaluator.all)
    }

    constructor (config: Config)
      ensures Valid() && fresh(evaluator) && evaluator.all == [] && this.config == config
    {
      this.config := config;
      evaluator := new ProgressEvaluator(config.historySize, config.detection);
      reportedLoops, events, preventionFired := map[], [], false;
    }

    /** The new state is that of the run with this action appended; the answers say which event was added. */
    method Observe(a: Action) returns (emitted: bool, prevented: bool)
      requires Valid()
      modifies this, evaluator
      ensures Valid() && evaluator.all == old(evaluator.all) + [a]
      ensures emitted <==> events != old(events)
      ensures prevented <==> preventionFired && !old(preventionFired)
    {
      var verdict := evaluator.Classify(a);
      var v := evaluator.ComputeVector();
      AfterNext(config, old(evaluator.all), a);
      if Excessive(config.prevention, v) && !preventionFired {
        preventionFired := true;
        var reason := if StallExceeded(config.prevention, v) then NoMutationStall else NoProgressTurns;
        events := events + [Prevented(a.session, a.fingerprint, reason)];
        return true, true;
      }
      if verdict == None {
        reportedLoops := reportedLoops - {a.session};
        return false, false;
      }
      if a.session in reportedLoops && reportedLoops[a.session] == a.fingerprint {
        return false, false;
      }
      reportedLoops := reportedLoops[a.session := a.fingerprint];
      events := events + [Candidate(a.session, a.fingerprint, verdict.value)];
      return true, false;
    }
  }

  lemma SightsNext(judge: Judging, run: seq<Action>, a: Action)
    ensures Fold(Sights(judge, run + [a]))
            == Step(Fold(Sights(judge, run)), Sight(a.session, a.fingerprint, judge(run + [a])))
  {
    assert (run + [a])[..|run|] == run;
    var os := Sights(judge, run + [a]);
    assert os[..|run|] == Sights(judge, run);
  }

  lemma AfterNext(c: Config, run: seq<Action>, a: Action)
    ensures var h := Window(c, run + [a]);
            After(c, run + [a])
            == Step(After(c, run), Sight(a.session, a.fingerprint,
                                         Judgement(Verdict(c.detection, h), Excess(c.prevention, Metrics(h)))))
  {
    var judge := Judge(c);
    SightsNext(judge, run, a);
    assert judge(run + [a]) == JudgeRun(c, run + [a]);
  }

  lemma {:induction false} SightAt(judge: Judging, run: seq<Action>, k: nat)
    requires k < |run|
    ensures Sights(judge, run)[k] == Sight(run[k].session, run[k].fingerprint, judge(run[..k + 1]))
    decreases |run|
  {
    var n := |run| - 1;
    if k < n {
      SightAt(judge, run[..n], k);
      assert run[..n][..k + 1] == run[..k + 1];
    } else {
      assert run[..k + 1] == run;
    }
  }

  // ----- the trigger, stated on the whole run instead of the window

  /** The longest stalled tail the window can see. */
  function StalledTail(c: Config, run: seq<Action>): seq<Action> {
    LastN(run, Min(StallRun(run), Max(2, c.historySize)))
  }

  predicate Repeating(c: Config, run: seq<Action>)
    requires run != []
  {
    var p := Max(0, c.prevention.noProgressTurns);
    p < Max(2, c.historySize) && EndsIn(run, p + 1, Last(run).fingerprint)
  }

  predicate Stalling(c: Config, run: seq<Action>) {
    var p := c.prevention;
    0 < p.noMutationStall <= Max(2, c.historySize) && EndsStalled(run, p.noMutationStall)
    && (p.noMutationStallDiversity <= 0 || |Calls(StalledTail(c, run))| <= p.noMutationStallDiversity)
  }

  lemma {:induction false} WindowStall(run: seq<Action>, size: nat)
    ensures StallRun(LastN(run, size)) == Min(StallRun(run), size)
  {
    var w, n := LastN(run, size), StallRun(run);
    StallIff(run, n);
    StallIff(run, n + 1);
    StallIff(w, Min(n, size));
    if size > n {
      StallIff(w, n + 1);
    }
  }

  lemma RepeatingExact(c: Config, run: seq<Action>)
    requires run != []
    ensures Repeats(Window(c, run)) >= c.prevention.noProgressTurns <==> Repeating(c, run)
  {
    RepeatsIff(Window(c, run), Max(0, c.prevention.noProgressTurns));
  }

  lemma LastOfLast(run: seq<Action>, size: nat, n: nat)
    requires n <= size
    ensures LastN(LastN(run, size), n) == LastN(run, n)
  {
  }

  /** The stall the window measures is the visible part of the run's. */
  lemma StallSeen(c: Config, run: seq<Action>)
    ensures var v := Metrics(Window(c, run));
            v.noMutationStall == Min(StallRun(run), Max(2, c.historySize))
            && v.noMutationStallDistinct == |Calls(StalledTail(c, run))|
  {
    var size := Max(2, c.historySize);
    WindowStall(run, size);
    LastOfLast(run, size, Min(StallRun(run), size));
  }

  lemma StallingExact(c: Config, run: seq<Action>)
    ensures StallExceeded(c.prevention, Metrics(Window(c, run))) <==> Stalling(c, run)
  {
    StallSeen(c, run);
    if c.prevention.noMutationStall > 0 {
      StallIff(run, c.prevention.noMutationStall);
    }
  }

  /** The windowed counters decide exactly these properties of the whole run. */
  lemma TriggerExact(c: Config, run: seq<Action>)
    requires run != []
    ensures Judge(c)(run).excess ==
            if !c.prevention.enabled then None
            else if Stalling(c, run) then Some(NoMutationStall)
            else if Repeating(c, run) then Some(NoProgressTurns)
            else None
  {
    RepeatingExact(c, run);
    StallingExact(c, run);
  }

  // ----- events, for any sequence of sights

  lemma {:induction false} FoldFired(os: seq<Sight>)
    ensures Fold(os).fired <==> exists k :: 0 <= k < |os| && os[k].judgement.excess.Some?
    decreases |os|
  {
    if os != [] {
      var n := |os| - 1;
      FoldFired(os[..n]);
      assert os[..n] + [os[n]] == os;
    }
  }

  function Preventions(events: seq<Event>): nat {
    if events == [] then 0
    else Preventions(events[..|events| - 1]) + if events[|events| - 1].Prevented? then 1 else 0
  }

  lemma {:induction false} FoldPrevents(os: seq<Sight>)
    ensures Preventions(Fold(os).events) == if Fold(os).fired then 1 else 0
    decreases |os|
  {
    if os != [] {
      var s, t := Fold(os[..|os| - 1]), Fold(os);
      FoldPrevents(os[..|os| - 1]);
      if t.events != s.events {
        assert t.events[..|t.events| - 1] == s.events;
      }
    }
  }

  predicate EmittedBy(e: Event, s: State, o: Sight) {
    e.session == o.session && e.fingerprint == o.fingerprint
    && match e
       case Prevented(_, _, reason) => o.judgement.excess == Some(reason) && !s.fired
       case Candidate(_, _, reason) => o.judgement.verdict == Some(reason) && !Marked(s, e.session, e.fingerprint)
                                       && Marked(Step(s, o), e.session, e.fingerprint)
                                       && Step(s, o).events != s.events
  }

  /** The sight that emitted event `i`. */
  lemma {:induction false} Emission(os: seq<Sight>, i: nat) returns (k: nat)
    requires i < |Fold(os).events|
    ensures k < |os| && |Fold(os[..k]).events| == i && Fold(os[..k]).events <= Fold(os).events
    ensures EmittedBy(Fold(os).events[i], Fold(os[..k]), os[k])
    decreases |os|
  {
    var n := |os| - 1;
    if i < |Fold(os[..n]).events| {
      k := Emission(os[..n], i);
      assert os[..n][..k] == os[..k];
    } else {
      k := n;
    }
  }

  predicate Reported(events: seq<Event>, session: string, fp: string) {
    exists i :: 0 <= i < |events| && events[i].Candidate? && events[i].session == session && events[i].fingerprint == fp
  }

  lemma ReportedKept(s: seq<Event>, t: seq<Event>, session: string, fp: string)
    requires Reported(s, session, fp) && s <= t
    ensures Reported(t, session, fp)
  {
    var i :| 0 <= i < |s| && s[i].Candidate? && s[i].session == session && s[i].fingerprint == fp;
    assert t[i] == s[i];
  }

  /** A marker stands for an event that was emitted. */
  lemma {:induction false} MarkerReported(os: seq<Sight>, session: string)
    requires session in Fold(os).reported
    ensures Reported(Fold(os).events, session, Fold(os).reported[session])
    decreases |os|
  {
    var s, t := Fold(os[..|os| - 1]), Fold(os);
    if session in s.reported && s.reported[session] == t.reported[session] {
      MarkerReported(os[..|os| - 1], session);
      ReportedKept(s.events, t.events, session, t.reported[session]);
    } else {
      var e := t.events[|t.events| - 1];
      assert e.Candidate? && e.session == session && e.fingerprint == t.reported[session];
    }
  }

  /** The session made progress: its marker is dropped. */
  predicate Clears(o: Sight, session: string) {
    o.session == session && o.judgement.verdict == None
  }

  predicate Reports(e: Event, session: string) {
    e.Candidate? && e.session == session
  }

  predicate Marked(s: State, session: string, fp: string) {
    session in s.reported && s.reported[session] == fp
  }

  /** A marker stays while its session neither progresses nor gets another report. */
  lemma {:induction false} MarkerStays(os: seq<Sight>, k: nat, session: string, fp: string)
    requires k <= |os| && Marked(Fold(os[..k]), session, fp)
    requires forall m :: k <= m < |os| ==> !Clears(os[m], session)
    requires forall i :: |Fold(os[..k]).events| <= i < |Fold(os).events| ==> !Reports(Fold(os).events[i], session)
    ensures Marked(Fold(os), session, fp)
    decreases |os|
  {
    if k == |os| {
      assert os[..k] == os;
    } else {
      var n := |os| - 1;
      var s, t := Fold(os[..n]), Fold(os);
      assert os[..n][..k] == os[..k];
      EventsGrow(os[..n], k);
      assert forall i :: 0 <= i < |s.events| ==> s.events[i] == t.events[i];
      MarkerStays(os[..n], k, session, fp);
      StepKeepsMarker(s, os[n], session, fp);
    }
  }

  lemma StepKeepsMarker(s: State, o: Sight, session: string, fp: string)
    requires Marked(s, session, fp) && !Clears(o, session)
    requires var es := Step(s, o).events; |es| > |s.events| ==> !Reports(es[|s.events|], session)
    ensures Marked(Step(s, o), session, fp)
  {
  }

  lemma {:induction false} EventsGrow(os: seq<Sight>, k: nat)
    requires k <= |os|
    ensures Fold(os[..k]).events <= Fold(os).events
    decreases |os|
  {
    if k == |os| {
      assert os[..k] == os;
    } else {
      EventsGrow(os[..|os| - 1], k);
      assert os[..|os| - 1][..k] == os[..k];
    }
  }

  // ----- over whole runs

  predicate Triggered(c: Config, run: seq<Action>, k: nat) {
    0 < k <= |run| && (Repeating(c, run[..k]) || Stalling(c, run[..k]))
  }

  predicate Fires(judge: Judging, run: seq<Action>, k: nat) {
    0 < k <= |run| && judge(run[..k]).excess.Some?
  }

  lemma FiresIffTriggered(c: Config, run: seq<Action>, k: nat)
    ensures Fires(Judge(c), run, k) <==> c.prevention.enabled && Triggered(c, run, k)
  {
    if 0 < k <= |run| {
      TriggerExact(c, run[..k]);
    }
  }

  lemma FiredAt(judge: Judging, run: seq<Action>)
    ensures Fold(Sights(judge, run)).fired <==> exists k: nat :: Fires(judge, run, k)
  {
    var os := Sights(judge, run);
    FoldFired(os);
    if k :| 0 <= k < |os| && os[k].judgement.excess.Some? {
      SightAt(judge, run, k);
      assert Fires(judge, run, k + 1);
    }
    if k: nat :| Fires(judge, run, k) {
      SightAt(judge, run, k - 1);
      assert os[k - 1].judgement.excess.Some?;
    }
  }

  /** Prevention fires in a run exactly when some prefix of it is repeating or stalling. */
  lemma FiredIff(c: Config, run: seq<Action>)
    ensures After(c, run).fired <==> c.prevention.enabled && exists k: nat :: Triggered(c, run, k)
  {
    FiredAt(Judge(c), run);
    forall k: nat
      ensures Fires(Judge(c), run, k) <==> c.prevention.enabled && Triggered(c, run, k)
    {
      FiresIffTriggered(c, run, k);
    }
  }

  /** At most one prevention per supervisor. */
  lemma PreventedOnce(c: Config, run: seq<Action>)
    ensures Preventions(After(c, run).events) == if After(c, run).fired then 1 else 0
  {
    FoldPrevents(Sights(Judge(c), run));
  }

  /** The action at `k` can have emitted the event. */
  predicate EmittedAt(judge: Judging, run: seq<Action>, e: Event, k: nat) {
    k < |run| && e.session == run[k].session && e.fingerprint == run[k].fingerprint
    && (e.Prevented? ==> judge(run[..k + 1]).excess == Some(e.reason))
  }

  lemma EmissionOf(judge: Judging, run: seq<Action>, i: nat)
    requires i < |Fold(Sights(judge, run)).events|
    ensures exists k: nat :: EmittedAt(judge, run, Fold(Sights(judge, run)).events[i], k)
  {
    var k := Emission(Sights(judge, run), i);
    SightAt(judge, run, k);
    assert EmittedAt(judge, run, Fold(Sights(judge, run)).events[i], k);
  }

  /**
   A prevention is justified by the run: repetition of one fingerprint, or a stall in which some call
   recurs (with the defaults, one call makes up at least a sixth of forty or more).
   */
  lemma PreventionJustified(c: Config, run: seq<Action>, i: nat) returns (k: nat, call: string)
    requires i < |After(c, run).events| && After(c, run).events[i].Prevented?
    ensures k < |run|
    ensures var e := After(c, run).events[i];
            e.session == run[k].session && e.fingerprint == run[k].fingerprint
            && Justified(c, run[..k + 1], e.reason, call)
  {
    EmissionOf(Judge(c), run, i);
    k :| EmittedAt(Judge(c), run, After(c, run).events[i], k);
    TriggerExact(c, run[..k + 1]);
    call := "";
    if Stalling(c, run[..k + 1]) {
      call := StallRecurs(c, run[..k + 1]);
    }
  }

  predicate Justified(c: Config, run: seq<Action>, reason: Reason, call: string)
    requires run != []
  {
    match reason
    case NoProgressTurns => EndsIn(run, Max(0, c.prevention.noProgressTurns) + 1, Last(run).fingerprint)
    case NoMutationStall => Recurs(c, run, call)
    case _ => false
  }

  predicate Recurs(c: Config, run: seq<Action>, call: string) {
    var tail, d := StalledTail(c, run), c.prevention.noMutationStallDiversity;
    EndsStalled(run, |tail|) && |tail| >= c.prevention.noMutationStall > 0
    && (d > 0 ==> CallCount(tail, call) * d >= |tail|)
  }

  lemma StallRecurs(c: Config, run: seq<Action>) returns (call: string)
    requires Stalling(c, run)
    ensures Recurs(c, run, call)
  {
    var tail := StalledTail(c, run);
    StallIff(run, c.prevention.noMutationStall);
    StallIff(run, |tail|);
    call := "";
    if c.prevention.noMutationStallDiversity > 0 {
      call := Pigeonhole(tail, c.prevention.noMutationStallDiversity);
    }
  }

  /** No loop goes unreported: unless the action is the prevented one, a loop verdict means the loop is on record. */
  lemma LoopReported(os: seq<Sight>, k: nat)
    requires k < |os| && os[k].judgement.verdict.Some?
    requires Fold(os[..k + 1]).fired ==> Fold(os[..k]).fired
    ensures Reported(Fold(os[..k + 1]).events, os[k].session, os[k].fingerprint)
  {
    var now := os[..k + 1];
    assert now[..k] == os[..k];
    MarkerReported(now, os[k].session);
  }

  lemma {:induction false} RepeatsOfSuffix(h: seq<Action>, k: nat)
    requires k < |h|
    ensures Repeats(h[k..]) <= Repeats(h)
  {
    var n := Repeats(h[k..]);
    RepeatsIff(h[k..], n);
    RepeatsIff(h, n);
  }

  /** One action can lengthen the run of repeats the window sees by at most one. */
  lemma RepeatsGrow(c: Config, run: seq<Action>)
    requires |run| > 1 && Repeats(Window(c, run)) > 0
    ensures Repeats(Window(c, run)) <= Repeats(Window(c, run[..|run| - 1])) + 1
    ensures Last(run).fingerprint == run[|run| - 2].fingerprint
  {
    var w, v := Window(c, run), Window(c, run[..|run| - 1]);
    var init := w[..|w| - 1];
    assert init == v[|v| - |init|..];
    RepeatsOfSuffix(v, |v| - |init|);
  }

  /** One action fewer than prevention needs is enough for the no-progress or the repeated-call rule. */
  predicate Warns(c: Config) {
    var p := c.prevention.noProgressTurns;
    p >= 1 && (c.detection.noProgressTurns < p || (p >= 2 && c.detection.repeatedCalls <= p))
  }

  lemma {:induction false} RepeatsCounted(h: seq<Action>)
    requires h != []
    ensures Count(h, Last(h).fingerprint) > Repeats(h)
    decreases |h|
  {
    if |h| > 1 {
      RepeatsCounted(h[..|h| - 1]);
    }
  }

  /** Before an action that repeats enough to be prevented, the previous one already looks like the same loop. */
  lemma LoopPersists(c: Config, run: seq<Action>)
    requires run != [] && Repeating(c, run) && Warns(c)
    ensures |run| > 1 && Last(run).fingerprint == run[|run| - 2].fingerprint
    ensures Verdict(c.detection, Window(c, run[..|run| - 1])).Some?
  {
    RepeatsIff(Window(c, run), c.prevention.noProgressTurns);
    RepeatsGrow(c, run);
    RepeatsCounted(Window(c, run[..|run| - 1]));
  }

  /** A judge that lets no loop become excessive by repetition before it has called the loop one. */
  ghost predicate Forewarns(judge: Judging) {
    forall run: seq<Action> {:trigger judge(run)} :: run != [] && judge(run).excess == Some(NoProgressTurns) ==>
      |run| > 1 && Last(run).fingerprint == run[|run| - 2].fingerprint && judge(run[..|run| - 1]).verdict.Some?
  }

  lemma ForewarnedEvents(judge: Judging, run: seq<Action>, i: nat)
    requires Forewarns(judge) && i < |Fold(Sights(judge, run)).events|
    requires var e := Fold(Sights(judge, run)).events[i]; e.Prevented? && e.reason == NoProgressTurns
    ensures var es := Fold(Sights(judge, run)).events;
            exists j :: 0 <= j < i && es[j].Candidate? && es[j].fingerprint == es[i].fingerprint
  {
    var os := Sights(judge, run);
    var events := Fold(os).events;
    var k := Emission(os, i);
    SightAt(judge, run, k);
    assert run[..k + 1][..k] == run[..k];
    SightAt(judge, run, k - 1);
    LoopReported(os, k - 1);
    var before := Fold(os[..k]).events;
    var j :| 0 <= j < |before| && before[j].Candidate? && before[j].session == os[k - 1].session
             && before[j].fingerprint == os[k - 1].fingerprint;
    assert events[j] == before[j];
  }

  /** Under thresholds that warn, a run is never prevented for repetition unless the loop was reported first. */
  lemma WarningFirst(c: Config, run: seq<Action>, i: nat)
    requires Warns(c) && i < |After(c, run).events|
    requires After(c, run).events[i].Prevented? && After(c, run).events[i].reason == NoProgressTurns
    ensures exists j :: 0 <= j < i && After(c, run).events[j].Candidate?
                        && After(c, run).events[j].fingerprint == After(c, run).events[i].fingerprint
  {
    JudgeForewarns(c);
    ForewarnedEvents(Judge(c), run, i);
  }

  lemma JudgeForewarns(c: Config)
    requires Warns(c)
    ensures Forewarns(Judge(c))
  {
    forall run: seq<Action> {:trigger Judge(c)(run)} | run != [] && Judge(c)(run).excess == Some(NoProgressTurns)
      ensures |run| > 1 && Last(run).fingerprint == run[|run| - 2].fingerprint
              && Judge(c)(run[..|run| - 1]).verdict.Some?
    {
      TriggerExact(c, run);
      LoopPersists(c, run);
    }
  }

  /** The default thresholds warn. */
  lemma DefaultsForewarn()
    ensures Forewarns(Judge(DEFAULT_CONFIG))
  {
    JudgeForewarns(DEFAULT_CONFIG);
  }

  /**
   Two consecutive reports about one session name the same loop only if, between the two reporting actions,
   the session did something that is not a loop.
   */
  lemma NoDuplicateReport(judge: Judging, run: seq<Action>, i: nat, j: nat)
    requires i < j < |Fold(Sights(judge, run)).events|
    requires var es := Fold(Sights(judge, run)).events;
             Reports(es[i], es[i].session) && Reports(es[j], es[i].session) && es[i].fingerprint == es[j].fingerprint
             && forall h :: i < h < j ==> !Reports(es[h], es[i].session)
    ensures exists k: nat, m: nat, l: nat ::
              ProgressBetween(judge, run, Fold(Sights(judge, run)).events[i], k, m, l)
  {
    var os := Sights(judge, run);
    var es := Fold(os).events;
    var e := es[i];
    var l := Emission(os, j);
    var k := Emission(os[..l], i);
    assert os[..l][..k] == os[..k];
    assert forall h :: 0 <= h < j ==> Fold(os[..l]).events[h] == es[h];
    var m := MarkerCleared(os, k, l, i, e.session, e.fingerprint);
    SightAt(judge, run, k);
    SightAt(judge, run, m);
    SightAt(judge, run, l);
    assert ProgressBetween(judge, run, e, k, m, l);
  }

  /** Actions `k` and `l` repeat the reported call, and at `m` between them the session did something else. */
  predicate ProgressBetween(judge: Judging, run: seq<Action>, e: Event, k: nat, m: nat, l: nat) {
    k < m < l < |run| && run[k].session == run[m].session == run[l].session == e.session
    && run[k].fingerprint == run[l].fingerprint == e.fingerprint && judge(run[..m + 1]).verdict == None
  }

  lemma MarkerCleared(os: seq<Sight>, k: nat, l: nat, i: nat, session: string, fp: string) returns (m: nat)
    requires k < l < |os| && |Fold(os[..k]).events| == i
    requires Marked(Step(Fold(os[..k]), os[k]), session, fp) && !Marked(Fold(os[..l]), session, fp)
    requires Step(Fold(os[..k]), os[k]).events != Fold(os[..k]).events
    requires forall h :: i < h < |Fold(os[..l]).events| ==> !Reports(Fold(os[..l]).events[h], session)
    ensures k < m < l && Clears(os[m], session)
  {
    var now := os[..l];
    assert now[..k + 1][..k] == os[..k];
    if forall m :: k < m < l ==> !Clears(now[m], session) {
      MarkerStays(now, k + 1, session, fp);
    }
    m :| k < m < l && Clears(now[m], session);
  }
}
