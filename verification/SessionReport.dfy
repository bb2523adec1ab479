/**
 The weekly report on how sessions survive inference failures.
 */
module SessionReport {
  import opened Common
  import opened Ledger

  const DAY_MS := 86_400_000
  const STALL_GAP_MS := 600_000
  const EXHAUSTED_RUN := 4
  const IDLE_BOUND_MIN_MS := 25_000
  const IDLE_BOUND_MAX_MS := 70_000
  const SLOW_RECOVERY_MS := 1_800_000

  datatype Role = User | Assistant | Other

  /** A message; the text classifiers' answers about it are part of it. */
  datatype Event = Event(
    at: int, role: Role, failed: bool, provider: Option<string>,
    visibleOutput: bool, recoverable: bool, streamCut: bool, recoveryMarker: bool, asksRetry: bool)

  // The counters of one week, in the groups in which they are counted

  datatype Failures = Failures(
    errors: nat, recoverableBeforeOutput: nat, afterOutput: nat, final: nat, exhaustedRuns: nat)

  datatype Stalls = Stalls(all: nat, resumedByPerson: nat, resumedAutomatically: nat, unresumed: nat)

  datatype Traffic = Traffic(sessions: nat, humanRetryMessages: nat, automaticRecoveryPrompts: nat)

  datatype Cuts = Cuts(all: nat, beforeOutput: nat, nearIdleBound: nat, slowRecovery: nat, byProvider: multiset<string>)

  datatype Stats = Stats(traffic: Traffic, failures: Failures, stalls: Stalls, cuts: Cuts)

  const NO_FAILURES := Failures(0, 0, 0, 0, 0)
  const NO_STALLS := Stalls(0, 0, 0, 0)
  const NO_TRAFFIC := Traffic(0, 0, 0)
  const NO_CUTS := Cuts(0, 0, 0, 0, multiset{})
  const BLANK := Stats(NO_TRAFFIC, NO_FAILURES, NO_STALLS, NO_CUTS)

  /** Days since the epoch of the Monday of the week; day 0 was a Thursday. */
  function MondayOf(at: int): (monday: int)
    ensures (monday + 3) % 7 == 0 && monday * DAY_MS <= at < (monday + 7) * DAY_MS
  {
    var day := at / DAY_MS;
    day - (day + 3) % 7
  }

  predicate IsAutomaticPrompt(e: Event) {
    e.role == User && e.recoveryMarker
  }

  // ----- what one event contributes

  /** Consecutive failures up to and including the first `n` events. */
  function Streak(events: seq<Event>, n: nat): nat
    requires n <= |events|
  {
    if n == 0 then 0
    else
      var e := events[n - 1];
      if e.role == User then 0
      else if e.role == Other then Streak(events, n - 1)
      else if !e.failed then 0
      else if n > 1 && e.at - events[n - 2].at >= STALL_GAP_MS then 1
      else Streak(events, n - 1) + 1
  }

  /** The first good answer at or after `i`. */
  function NextGood(events: seq<Event>, i: nat): (good: Option<Event>)
    decreases |events| - i
  {
    if i >= |events| then None
    else if events[i].role == Assistant && !events[i].failed then Some(events[i])
    else NextGood(events, i + 1)
  }

  function One(b: bool): nat {
    if b then 1 else 0
  }

  predicate Fails(events: seq<Event>, i: nat) {
    i < |events| && events[i].role == Assistant && events[i].failed
  }

  predicate CutAt(events: seq<Event>, i: nat) {
    Fails(events, i) && events[i].streamCut
  }

  predicate NearIdleBound(events: seq<Event>, i: nat) {
    0 < i < |events| && IDLE_BOUND_MIN_MS <= events[i].at - events[i - 1].at <= IDLE_BOUND_MAX_MS
  }

  predicate SlowRecovery(events: seq<Event>, i: nat)
    requires i < |events|
  {
    var good := NextGood(events, i + 1);
    good == None || good.value.at - events[i].at > SLOW_RECOVERY_MS
  }

  predicate IsFinal(e: Event) {
    !e.visibleOutput && !e.recoverable
  }

  predicate StallsAt(events: seq<Event>, now: int, i: nat) {
    Fails(events, i) && !IsFinal(events[i])
    && (if i + 1 < |events| then events[i + 1].at else now) - events[i].at >= STALL_GAP_MS
  }

  predicate PersonAt(events: seq<Event>, i: nat) {
    i < |events| && events[i].role == User && !IsAutomaticPrompt(events[i])
  }

  function Provider(e: Event): string {
    if e.provider.Some? then e.provider.value else "unknown"
  }

  function CutsOf(events: seq<Event>, i: nat): Cuts
    requires i < |events|
  {
    if !CutAt(events, i) then NO_CUTS
    else
      var early := !events[i].visibleOutput;
      Cuts(1, One(early), One(early && NearIdleBound(events, i)), One(SlowRecovery(events, i)),
           multiset{Provider(events[i])})
  }

  function FailuresOf(events: seq<Event>, i: nat): Failures
    requires i < |events|
  {
    if !Fails(events, i) then NO_FAILURES
    else
      var e := events[i];
      Failures(1, One(!e.visibleOutput && e.recoverable), One(e.visibleOutput), One(IsFinal(e)),
               One(Streak(events, i + 1) == EXHAUSTED_RUN))
  }

  function StallsOf(events: seq<Event>, now: int, i: nat): Stalls {
    if !StallsAt(events, now, i) then NO_STALLS
    else if i + 1 == |events| then Stalls(1, 0, 0, 1)
    else if PersonAt(events, i + 1) then Stalls(1, 1, 0, 0)
    else Stalls(1, 0, 1, 0)
  }

  function TrafficOf(e: Event): Traffic {
    Traffic(0, One(e.role == User && !IsAutomaticPrompt(e) && e.asksRetry), One(IsAutomaticPrompt(e)))
  }

  function Contribution(events: seq<Event>, now: int, i: nat): Stats
    requires i < |events|
  {
    Stats(TrafficOf(events[i]), FailuresOf(events, i), StallsOf(events, now, i), CutsOf(events, i))
  }

  // ----- adding up

  function AddFailures(a: Failures, b: Failures): Failures {
    Failures(a.errors + b.errors, a.recoverableBeforeOutput + b.recoverableBeforeOutput, a.afterOutput + b.afterOutput,
             a.final + b.final, a.exhaustedRuns + b.exhaustedRuns)
  }

  function AddStalls(a: Stalls, b: Stalls): Stalls {
    Stalls(a.all + b.all, a.resumedByPerson + b.resumedByPerson, a.resumedAutomatically + b.resumedAutomatically,
           a.unresumed + b.unresumed)
  }

  function AddTraffic(a: Traffic, b: Traffic): Traffic {
    Traffic(a.sessions + b.sessions, a.humanRetryMessages + b.humanRetryMessages,
            a.automaticRecoveryPrompts + b.automaticRecoveryPrompts)
  }

  function AddCuts(a: Cuts, b: Cuts): Cuts {
    Cuts(a.all + b.all, a.beforeOutput + b.beforeOutput, a.nearIdleBound + b.nearIdleBound,
         a.slowRecovery + b.slowRecovery, a.byProvider + b.byProvider)
  }

  function Add(a: Stats, b: Stats): Stats {
    Stats(AddTraffic(a.traffic, b.traffic), AddFailures(a.failures, b.failures), AddStalls(a.stalls, b.stalls),
          AddCuts(a.cuts, b.cuts))
  }

  lemma AddLaws(a: Stats, b: Stats, c: Stats)
    ensures Add(a, b) == Add(b, a) && Add(Add(a, b), c) == Add(a, Add(b, c)) && Add(a, BLANK) == a
  {
  }

  lemma StatsAdd()
    ensures Adds(Add, BLANK)
  {
    forall a, b, c {:trigger Add(Add(a, b), c)}
      ensures Add(Add(a, b), c) == Add(a, Add(b, c))
    {
      AddLaws(a, b, c);
    }
    forall a, b
      ensures Add(a, b) == Add(b, a)
    {
      AddLaws(a, b, BLANK);
    }
  }

  function AddSession(w: Stats): Stats {
    w.(traffic := w.traffic.(sessions := w.traffic.sessions + 1))
  }

  lemma SessionBumps()
    ensures Bumps(AddSession, Add)
  {
    forall a, b {:trigger AddSession(Add(a, b))}
      ensures AddSession(Add(a, b)) == Add(AddSession(a), b)
    {
    }
  }

  /** A session as entries of counters, each in the week of its message. */
  function BookOf(events: seq<Event>, now: int): Book<int, Stats> {
    Book((i: nat) => if i < |events| then MondayOf(events[i].at) else 0,
         (i: nat) => if i < |events| then Contribution(events, now, i) else BLANK)
  }

  function Accumulated(weeks: map<int, Stats>, events: seq<Event>, now: int): map<int, Stats> {
    Entered(weeks, BookOf(events, now), |events|, AddSession, Add, BLANK)
  }

  // ----- the accumulator

  class Report {
    var weeks: map<int, Stats>

    constructor ()
      ensures weeks == map[]
    {
      weeks := map[];
    }

    method CountCut(w: Cuts, events: seq<Event>, i: nat) returns (r: Cuts)
      requires CutAt(events, i)
      ensures r == AddCuts(w, CutsOf(events, i))
    {
      var e := events[i];
      var provider := if e.provider.Some? then e.provider.value else "unknown";
      r := w.(all := w.all + 1, byProvider := w.byProvider + multiset{provider});
      if !e.visibleOutput {
        r := r.(beforeOutput := r.beforeOutput + 1);
        if i > 0 && IDLE_BOUND_MIN_MS <= e.at - events[i - 1].at <= IDLE_BOUND_MAX_MS {
          r := r.(nearIdleBound := r.nearIdleBound + 1);
        }
      }
      var j := i + 1;
      while j < |events| && (events[j].role != Assistant || events[j].failed)
        invariant i < j <= |events| && NextGood(events, i + 1) == NextGood(events, j)
      {
        j := j + 1;
      }
      if j == |events| || events[j].at - e.at > SLOW_RECOVERY_MS {
        r := r.(slowRecovery := r.slowRecovery + 1);
      }
    }

    method CountStall(w: Stalls, events: seq<Event>, now: int, i: nat) returns (r: Stalls)
      requires Fails(events, i) && !IsFinal(events[i])
      ensures r == AddStalls(w, StallsOf(events, now, i))
    {
      var until := if i + 1 < |events| then events[i + 1].at else now;
      if until - events[i].at < STALL_GAP_MS {
        return w;
      }
      r := w.(all := w.all + 1);
      if i + 1 == |events| {
        r := r.(unresumed := r.unresumed + 1);
      } else if events[i + 1].role == User && !IsAutomaticPrompt(events[i + 1]) {
        r := r.(resumedByPerson := r.resumedByPerson + 1);
      } else {
        r := r.(resumedAutomatically := r.resumedAutomatically + 1);
      }
    }

    method CountOutcome(w: Failures, events: seq<Event>, i: nat, run: nat) returns (r: Failures, final: bool)
      requires Fails(events, i) && run == Streak(events, i + 1)
      ensures r == AddFailures(w, FailuresOf(events, i)) && final == IsFinal(events[i])
    {
      var e := events[i];
      r, final := w.(errors := w.errors + 1), false;
      if run == EXHAUSTED_RUN {
        r := r.(exhaustedRuns := r.exhaustedRuns + 1);
      }
      if e.visibleOutput {
        r := r.(afterOutput := r.afterOutput + 1);
      } else if e.recoverable {
        r := r.(recoverableBeforeOutput := r.recoverableBeforeOutput + 1);
      } else {
        r := r.(final := r.final + 1);
        final := true;
      }
    }

    method CountFailure(w: Stats, events: seq<Event>, now: int, i: nat, run: nat) returns (r: Stats)
      requires Fails(events, i) && run == Streak(events, i + 1)
      ensures r == Add(w, Contribution(events, now, i))
    {
      var failures, final := CountOutcome(w.failures, events, i, run);
      var cuts, stalls := w.cuts, w.stalls;
      if events[i].streamCut {
        cuts := CountCut(cuts, events, i);
      }
      if !final {
        stalls := CountStall(stalls, events, now, i);
      }
      r := w.(failures := failures, cuts := cuts, stalls := stalls);
    }

    method CountMessage(w: Stats, events: seq<Event>, now: int, i: nat, run: nat) returns (r: Stats)
      requires i < |events| && run == Streak(events, i + 1)
      ensures r == Add(w, Contribution(events, now, i))
    {
      var e, traffic := events[i], w.traffic;
      if e.role == Assistant && e.failed {
        r := CountFailure(w, events, now, i, run);
      } else {
        if IsAutomaticPrompt(e) {
          traffic := traffic.(automaticRecoveryPrompts := traffic.automaticRecoveryPrompts + 1);
        } else if e.role == User && e.asksRetry {
          traffic := traffic.(humanRetryMessages := traffic.humanRetryMessages + 1);
        }
        r := w.(traffic := traffic);
      }
    }

    /** Each week gains exactly what the session's messages of that week contribute, and one session. */
    method Accumulate(events: seq<Event>, now: int)
      modifies this
      ensures weeks == Accumulated(old(weeks), events, now)
    {
      ghost var before, book := weeks, BookOf(events, now);
      var touched: set<int> := {};
      var run: nat := 0;
      StatsAdd();
      PlusNone(before, book, Add, BLANK);
      for i := 0 to |events|
        invariant run == Streak(events, i) && touched == Touched(book, i)
        invariant weeks == Plus(before, book, i, Add, BLANK)
      {
        PlusNext(before, book, i, Add, BLANK);
        TouchedNext(book, i);
        var e := events[i];
        var week := MondayOf(e.at);
        touched := touched + {week};
        run := NextRun(events, i, run);
        var w := CountMessage(Base(weeks, week, BLANK), events, now, i, run);
        weeks := weeks[week := w];
      }
      weeks := map week | week in weeks :: if week in touched then AddSession(weeks[week]) else weeks[week];
    }

    method NextRun(events: seq<Event>, i: nat, run: nat) returns (r: nat)
      requires i < |events| && run == Streak(events, i)
      ensures r == Streak(events, i + 1)
    {
      var e := events[i];
      r := run;
      if e.role == User || (e.role == Assistant && !e.failed) {
        r := 0;
      } else if e.role == Assistant {
        if i > 0 && e.at - events[i - 1].at >= STALL_GAP_MS {
          r := 0;
        }
        r := r + 1;
      }
    }
  }

  // ----- any report

  datatype Session = Session(events: seq<Event>, readAt: int)

  function ReportOf(sessions: seq<Session>): map<int, Stats> {
    if sessions == [] then map[]
    else
      var n := |sessions| - 1;
      Accumulated(ReportOf(sessions[..n]), sessions[n].events, sessions[n].readAt)
  }

  /** Two sessions may be read in either order. */
  lemma SessionsCommute(weeks: map<int, Stats>, a: Session, b: Session)
    ensures Accumulated(Accumulated(weeks, a.events, a.readAt), b.events, b.readAt)
            == Accumulated(Accumulated(weeks, b.events, b.readAt), a.events, a.readAt)
  {
    StatsAdd();
    SessionBumps();
    EnteredCommutes(weeks, BookOf(a.events, a.readAt), |a.events|, BookOf(b.events, b.readAt), |b.events|,
                    AddSession, Add, BLANK);
  }

  function Read(weeks: map<int, Stats>, s: Session): map<int, Stats> {
    Accumulated(weeks, s.events, s.readAt)
  }

  lemma {:induction false} ReportIsFold(sessions: seq<Session>)
    ensures ReportOf(sessions) == Fold(map[], sessions, Read)
    decreases |sessions|
  {
    if sessions != [] {
      ReportIsFold(sessions[..|sessions| - 1]);
    }
  }

  lemma ReadCommutes()
    ensures Commutes(Read)
  {
    forall weeks, a, b
      ensures Read(Read(weeks, a), b) == Read(Read(weeks, b), a)
    {
      SessionsCommute(weeks, a, b);
    }
  }

  /** The report does not depend on the order in which its sessions are read. */
  lemma ReportOrder(a: seq<Session>, b: seq<Session>)
    requires multiset(a) == multiset(b)
    ensures ReportOf(a) == ReportOf(b)
  {
    ReportIsFold(a);
    ReportIsFold(b);
    ReadCommutes();
    FoldOrder(map[], a, b, Read);
  }

  /** What every message contributes and adding keeps holds of every week. */
  lemma {:induction false} ReportKeeps(sessions: seq<Session>, p: Stats -> bool)
    requires Closed(p, Add) && KeptBy(p, AddSession)
    requires forall events, now :: Entries(BookOf(events, now), |events|, p)
    ensures All(ReportOf(sessions), p)
    decreases |sessions|
  {
    if sessions != [] {
      var n := |sessions| - 1;
      var s := sessions[n];
      ReportKeeps(sessions[..n], p);
      StatsAdd();
      EnteredKeeps(ReportOf(sessions[..n]), BookOf(s.events, s.readAt), |s.events|, AddSession, p, Add, BLANK);
    }
  }

  predicate OneOutcomeEach(f: Failures) {
    f.errors == f.recoverableBeforeOutput + f.afterOutput + f.final
  }

  predicate OneResumptionEach(t: Stalls) {
    t.all == t.resumedByPerson + t.resumedAutomatically + t.unresumed
  }

  /** Every error has one outcome. */
  predicate ErrorsBalance(s: Stats) {
    OneOutcomeEach(s.failures) && s.failures.exhaustedRuns <= s.failures.errors
  }

  /** Every stall is resumed by a person, resumed automatically or not resumed. */
  predicate StallsBalance(s: Stats) {
    OneResumptionEach(s.stalls)
  }

  /** No final error stalls. */
  predicate FinalErrorsRest(s: Stats) {
    s.stalls.all + s.failures.final <= s.failures.errors
  }

  /** Every cut is an error of one provider. */
  predicate CutsBalance(s: Stats) {
    |s.cuts.byProvider| == s.cuts.all <= s.failures.errors
    && s.cuts.nearIdleBound <= s.cuts.beforeOutput <= s.cuts.all && s.cuts.slowRecovery <= s.cuts.all
  }

  lemma ErrorsBalanceKept(sessions: seq<Session>)
    ensures All(ReportOf(sessions), ErrorsBalance)
  {
    assert Closed(ErrorsBalance, Add);
    assert KeptBy(ErrorsBalance, AddSession);
    forall events, now
      ensures Entries(BookOf(events, now), |events|, ErrorsBalance)
    {
    }
    ReportKeeps(sessions, ErrorsBalance);
  }

  lemma StallsBalanceKept(sessions: seq<Session>)
    ensures All(ReportOf(sessions), StallsBalance)
  {
    assert Closed(StallsBalance, Add);
    assert KeptBy(StallsBalance, AddSession);
    forall events, now
      ensures Entries(BookOf(events, now), |events|, StallsBalance)
    {
    }
    ReportKeeps(sessions, StallsBalance);
  }

  lemma CutsBalanceKept(sessions: seq<Session>)
    ensures All(ReportOf(sessions), CutsBalance)
  {
    assert Closed(CutsBalance, Add);
    assert KeptBy(CutsBalance, AddSession);
    forall events, now
      ensures Entries(BookOf(events, now), |events|, CutsBalance)
    {
    }
    ReportKeeps(sessions, CutsBalance);
  }

  lemma FinalErrorsRestKept(sessions: seq<Session>)
    ensures All(ReportOf(sessions), FinalErrorsRest)
  {
    assert Closed(FinalErrorsRest, Add);
    assert KeptBy(FinalErrorsRest, AddSession);
    forall events, now
      ensures Entries(BookOf(events, now), |events|, FinalErrorsRest)
    {
    }
    ReportKeeps(sessions, FinalErrorsRest);
  }

  /** Every week of every report balances: errors by outcome, stalls by who resumed them, cuts by provider. */
  lemma ReportBalanced(sessions: seq<Session>, week: int)
    requires week in ReportOf(sessions)
    ensures var s := ReportOf(sessions)[week];
            ErrorsBalance(s) && StallsBalance(s) && FinalErrorsRest(s) && CutsBalance(s)
  {
    ErrorsBalanceKept(sessions);
    StallsBalanceKept(sessions);
    FinalErrorsRestKept(sessions);
    CutsBalanceKept(sessions);
  }

  // ----- spent retry budgets

  /** A spent budget stands for four errors. */
  predicate Covered(s: Stats) {
    EXHAUSTED_RUN * s.failures.exhaustedRuns <= s.failures.errors
  }

  lemma CoveredAdds()
    ensures Closed(Covered, Add)
  {
    forall a, b | Covered(a) && Covered(b)
      ensures Covered(Add(a, b))
    {
    }
  }

  function GrandOf(events: seq<Event>, now: int, n: nat): Stats {
    Grand(BookOf(events, now), n, Add, BLANK)
  }

  /** Errors of a streak that is still short of spending its budget are not yet used up. */
  /** The errors cover the spent budgets and a streak that has not spent one yet. */
  predicate CoversStreak(f: Failures, run: nat) {
    EXHAUSTED_RUN * f.exhaustedRuns + (if run < EXHAUSTED_RUN then run else 0) <= f.errors
  }

  lemma StreakStep(events: seq<Event>, n: nat, f: Failures)
    requires n < |events| && CoversStreak(f, Streak(events, n))
    ensures CoversStreak(AddFailures(f, FailuresOf(events, n)), Streak(events, n + 1))
  {
  }

  lemma {:induction false} StreakCovered(events: seq<Event>, now: int, n: nat)
    requires n <= |events|
    ensures CoversStreak(GrandOf(events, now, n).failures, Streak(events, n))
    decreases n
  {
    if n > 0 {
      StreakCovered(events, now, n - 1);
      StreakStep(events, n - 1, GrandOf(events, now, n - 1).failures);
      GrandStep(events, now, n - 1);
    }
  }

  lemma GrandStep(events: seq<Event>, now: int, n: nat)
    requires n < |events|
    ensures GrandOf(events, now, n + 1).failures == AddFailures(GrandOf(events, now, n).failures, FailuresOf(events, n))
  {
  }

  /**
   In every report, all weeks together, each spent retry budget is four errors. A single week need not
   satisfy this: a streak may cross midnight on Sunday.
   */
  lemma {:induction false} BudgetsCovered(sessions: seq<Session>)
    ensures Covered(Overall(ReportOf(sessions), Add, BLANK))
    decreases |sessions|
  {
    StatsAdd();
    SessionBumps();
    if sessions == [] {
      SumZero(ReportOf([]).Keys, Bases(ReportOf([]), BLANK), Add, BLANK);
    } else {
      var n := |sessions| - 1;
      var s := sessions[n];
      BudgetsCovered(sessions[..n]);
      CoveredAdds();
      StreakCovered(s.events, s.readAt, |s.events|);
      OverallKeeps(ReportOf(sessions[..n]), BookOf(s.events, s.readAt), |s.events|, AddSession, Covered, Add, BLANK);
    }
  }
}
