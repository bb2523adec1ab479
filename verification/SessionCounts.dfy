/**
 What every counter of the weekly report counts, said of the messages themselves: in each week, the
 messages of all sessions that meet a condition, or the sessions with a message in that week.
 */
module SessionCounts {
  import opened Common
  import opened Ledger
  import opened SessionReport

  // ----- conditions on message `i` of a session read at `now`

  predicate Error(events: seq<Event>, i: nat) {
    i < |events| && events[i].role == Assistant && events[i].failed
  }

  predicate Good(events: seq<Event>, i: nat) {
    i < |events| && events[i].role == Assistant && !events[i].failed
  }

  /** The message starts a new streak: a request, an answer, or an error after ten minutes of silence. */
  predicate Resets(events: seq<Event>, m: nat) {
    m < |events|
    && (events[m].role == User || Good(events, m)
        || (Error(events, m) && m > 0 && events[m].at - events[m - 1].at >= 600_000))
  }

  /** The errors up to message `i` with no reset behind them. */
  function InRow(events: seq<Event>, i: nat): set<nat> {
    set k: nat | k <= i && Error(events, k) && forall m: nat :: k < m <= i ==> !Resets(events, m)
  }

  predicate FourthInRow(events: seq<Event>, i: nat) {
    Error(events, i) && |InRow(events, i)| == 4
  }

  /** Ten minutes of silence follow an error that waiting could have fixed. */
  predicate Silence(events: seq<Event>, now: int, i: nat) {
    Error(events, i) && (events[i].visibleOutput || events[i].recoverable)
    && (if i + 1 < |events| then events[i + 1].at else now) >= events[i].at + 600_000
  }

  predicate Person(events: seq<Event>, i: nat) {
    i < |events| && events[i].role == User && !events[i].recoveryMarker
  }

  predicate Cut(events: seq<Event>, i: nat) {
    Error(events, i) && events[i].streamCut
  }

  /** The first good answer behind message `i` came within half an hour. */
  predicate RecoversSoon(events: seq<Event>, i: nat) {
    exists k: nat :: i < k < |events| && Good(events, k) && events[k].at <= events[i].at + 1_800_000
                     && forall m: nat :: i < m < k ==> !Good(events, m)
  }

  // ----- the helpers of the report mean these conditions

  lemma {:induction false} StreakIs(events: seq<Event>, n: nat)
    requires 0 < n <= |events|
    ensures Streak(events, n) == |InRow(events, n - 1)|
    decreases n
  {
    var i := n - 1;
    var e := events[i];
    if n == 1 {
      assert InRow(events, 0) == if Error(events, 0) then {0} else {};
    } else {
      StreakIs(events, n - 1);
      InRowNext(events, i);
    }
  }

  lemma InRowNext(events: seq<Event>, i: nat)
    requires 0 < i < |events|
    ensures InRow(events, i) ==
            (if Resets(events, i) then {} else InRow(events, i - 1)) + if Error(events, i) then {i} else {}
    ensures i !in InRow(events, i - 1)
  {
    forall k: nat | k < i
      ensures k in InRow(events, i) <==> !Resets(events, i) && k in InRow(events, i - 1)
    {
    }
  }

  lemma {:induction false} NextGoodIs(events: seq<Event>, i: nat)
    ensures NextGood(events, i).None? <==> forall k: nat :: i <= k < |events| ==> !Good(events, k)
    ensures NextGood(events, i).Some? ==>
              exists k: nat :: FirstGood(events, i, k) && events[k] == NextGood(events, i).value
    decreases |events| - i
  {
    if i < |events| {
      if Good(events, i) {
        assert FirstGood(events, i, i);
      } else {
        NextGoodIs(events, i + 1);
        if NextGood(events, i + 1).Some? {
          var k: nat :| FirstGood(events, i + 1, k) && events[k] == NextGood(events, i + 1).value;
          assert FirstGood(events, i, k);
        }
      }
    }
  }

  predicate FirstGood(events: seq<Event>, i: nat, k: nat) {
    i <= k < |events| && Good(events, k) && forall m: nat :: i <= m < k ==> !Good(events, m)
  }

  lemma SlowIs(events: seq<Event>, i: nat)
    requires i < |events|
    ensures SlowRecovery(events, i) <==> !RecoversSoon(events, i)
  {
    NextGoodIs(events, i + 1);
    if NextGood(events, i + 1).Some? {
      var k: nat :| FirstGood(events, i + 1, k) && events[k] == NextGood(events, i + 1).value;
      forall j: nat | i < j < |events| && Good(events, j) && forall m: nat :: i < m < j ==> !Good(events, m)
        ensures j == k
      {
      }
    }
  }

  // ----- counting in general

  type Condition = (seq<Event>, int, nat) -> bool

  /** A counter adds up, a new session leaves it alone, and a message adds one exactly when it meets the condition. */
  ghost predicate Counts(measure: Stats -> nat, meets: Condition) {
    && measure(BLANK) == 0
    && (forall a, b :: measure(Add(a, b)) == measure(a) + measure(b))
    && (forall a :: measure(AddSession(a)) == measure(a))
    && (forall events, now, i: nat {:trigger meets(events, now, i)} ::
          i < |events| ==> measure(Contribution(events, now, i)) == if meets(events, now, i) then 1 else 0)
  }

  /** The messages of one session that fall into a week and meet a condition. */
  function Meeting(s: Session, week: int, n: nat, meets: Condition): set<nat>
    requires n <= |s.events|
  {
    set i: nat | i < n && MondayOf(s.events[i].at) == week && meets(s.events, s.readAt, i)
  }

  function Tally(sessions: seq<Session>, week: int, meets: Condition): nat {
    if sessions == [] then 0
    else
      var s := sessions[|sessions| - 1];
      Tally(sessions[..|sessions| - 1], week, meets) + |Meeting(s, week, |s.events|, meets)|
  }

  lemma MeetingNext(s: Session, week: int, n: nat, meets: Condition)
    requires n < |s.events|
    ensures n !in Meeting(s, week, n, meets)
    ensures Meeting(s, week, n + 1, meets) == Meeting(s, week, n, meets)
            + if MondayOf(s.events[n].at) == week && meets(s.events, s.readAt, n) then {n} else {}
  {
  }

  lemma {:induction false} SessionTally(s: Session, week: int, n: nat, measure: Stats -> nat, meets: Condition)
    requires n <= |s.events| && Counts(measure, meets)
    ensures measure(Total(BookOf(s.events, s.readAt), week, n, Add, BLANK)) == |Meeting(s, week, n, meets)|
    decreases n
  {
    var b := BookOf(s.events, s.readAt);
    if n == 0 {
      assert Meeting(s, week, 0, meets) == {};
    } else {
      SessionTally(s, week, n - 1, measure, meets);
      MeetingNext(s, week, n - 1, meets);
      assert b.week(n - 1) == MondayOf(s.events[n - 1].at) && b.entry(n - 1) == Contribution(s.events, s.readAt, n - 1);
      assert meets(s.events, s.readAt, n - 1) || !meets(s.events, s.readAt, n - 1);
    }
  }

  lemma GainTally(s: Session, week: int, measure: Stats -> nat, meets: Condition)
    requires Counts(measure, meets)
    ensures measure(Gain(BookOf(s.events, s.readAt), week, |s.events|, AddSession, Add, BLANK))
            == |Meeting(s, week, |s.events|, meets)|
  {
    var b := BookOf(s.events, s.readAt);
    SessionTally(s, week, |s.events|, measure, meets);
    if week !in Touched(b, |s.events|) {
      TotalUntouched(b, week, |s.events|, Add, BLANK);
    }
  }

  /** In every report, the counter of a week is the number of messages that meet its condition. */
  lemma {:induction false} ReportTally(sessions: seq<Session>, week: int, measure: Stats -> nat, meets: Condition)
    requires Counts(measure, meets)
    ensures measure(Base(ReportOf(sessions), week, BLANK)) == Tally(sessions, week, meets)
    decreases |sessions|
  {
    if sessions != [] {
      var n := |sessions| - 1;
      var s := sessions[n];
      ReportTally(sessions[..n], week, measure, meets);
      GainTally(s, week, measure, meets);
      StatsAdd();
      SessionBumps();
      EnteredIs(ReportOf(sessions[..n]), BookOf(s.events, s.readAt), |s.events|, AddSession, week, Add, BLANK);
    }
  }

  // ----- the counters

  datatype Counter =
    | Errors | RecoverableBeforeOutput | AfterOutput | FinalErrors | ExhaustedRuns
    | AllStalls | ResumedByPerson | ResumedAutomatically | Unresumed
    | HumanRetries | AutomaticPrompts
    | AllCuts | EarlyCuts | IdleCuts | SlowCuts

  function ValueOf(c: Counter, s: Stats): nat {
    match c
    case Errors => s.failures.errors
    case RecoverableBeforeOutput => s.failures.recoverableBeforeOutput
    case AfterOutput => s.failures.afterOutput
    case FinalErrors => s.failures.final
    case ExhaustedRuns => s.failures.exhaustedRuns
    case AllStalls => s.stalls.all
    case ResumedByPerson => s.stalls.resumedByPerson
    case ResumedAutomatically => s.stalls.resumedAutomatically
    case Unresumed => s.stalls.unresumed
    case HumanRetries => s.traffic.humanRetryMessages
    case AutomaticPrompts => s.traffic.automaticRecoveryPrompts
    case AllCuts => s.cuts.all
    case EarlyCuts => s.cuts.beforeOutput
    case IdleCuts => s.cuts.nearIdleBound
    case SlowCuts => s.cuts.slowRecovery
  }

  /** The messages a counter counts. */
  predicate MeetsAt(c: Counter, events: seq<Event>, now: int, i: nat) {
    i < |events|
    && var e := events[i];
       match c
       case Errors => Error(events, i)
       case RecoverableBeforeOutput => Error(events, i) && !e.visibleOutput && e.recoverable
       case AfterOutput => Error(events, i) && e.visibleOutput
       case FinalErrors => Error(events, i) && !e.visibleOutput && !e.recoverable
       case ExhaustedRuns => FourthInRow(events, i)
       case AllStalls => Silence(events, now, i)
       case ResumedByPerson => Silence(events, now, i) && Person(events, i + 1)
       case ResumedAutomatically => Silence(events, now, i) && i + 1 < |events| && !Person(events, i + 1)
       case Unresumed => Silence(events, now, i) && i + 1 == |events|
       case HumanRetries => e.role == User && !e.recoveryMarker && e.asksRetry
       case AutomaticPrompts => e.role == User && e.recoveryMarker
       case AllCuts => Cut(events, i)
       case EarlyCuts => Cut(events, i) && !e.visibleOutput
       case IdleCuts =>
         Cut(events, i) && !e.visibleOutput && i > 0 && 25_000 <= e.at - events[i - 1].at <= 70_000
       case SlowCuts => Cut(events, i) && !RecoversSoon(events, i)
  }

  function Measure(c: Counter): Stats -> nat {
    (s: Stats) => ValueOf(c, s)
  }

  function Meets(c: Counter): Condition {
    (events: seq<Event>, now: int, i: nat) => MeetsAt(c, events, now, i)
  }

  predicate Contributes(c: Counter, events: seq<Event>, now: int, i: nat)
    requires i < |events|
  {
    ValueOf(c, Contribution(events, now, i)) == if MeetsAt(c, events, now, i) then 1 else 0
  }

  lemma FailureContributes(c: Counter, events: seq<Event>, now: int, i: nat)
    requires i < |events|
    requires c.Errors? || c.RecoverableBeforeOutput? || c.AfterOutput? || c.FinalErrors? || c.ExhaustedRuns?
    ensures Contributes(c, events, now, i)
  {
    StreakIs(events, i + 1);
  }

  lemma StallContributes(c: Counter, events: seq<Event>, now: int, i: nat)
    requires i < |events| && (c.AllStalls? || c.ResumedByPerson? || c.ResumedAutomatically? || c.Unresumed?)
    ensures Contributes(c, events, now, i)
  {
  }

  lemma CutContributes(c: Counter, events: seq<Event>, now: int, i: nat)
    requires i < |events| && (c.AllCuts? || c.EarlyCuts? || c.IdleCuts? || c.SlowCuts?)
    ensures Contributes(c, events, now, i)
  {
    SlowIs(events, i);
  }

  lemma TrafficContributes(c: Counter, events: seq<Event>, now: int, i: nat)
    requires i < |events| && (c.HumanRetries? || c.AutomaticPrompts?)
    ensures Contributes(c, events, now, i)
  {
  }

  lemma EachContributes(c: Counter, events: seq<Event>, now: int, i: nat)
    requires i < |events|
    ensures Contributes(c, events, now, i)
  {
    match c {
      case Errors | RecoverableBeforeOutput | AfterOutput | FinalErrors | ExhaustedRuns =>
        FailureContributes(c, events, now, i);
      case AllStalls | ResumedByPerson | ResumedAutomatically | Unresumed =>
        StallContributes(c, events, now, i);
      case HumanRetries | AutomaticPrompts =>
        TrafficContributes(c, events, now, i);
      case _ =>
        CutContributes(c, events, now, i);
    }
  }

  lemma ValueAdds(c: Counter, a: Stats, b: Stats)
    ensures ValueOf(c, Add(a, b)) == ValueOf(c, a) + ValueOf(c, b) && ValueOf(c, AddSession(a)) == ValueOf(c, a)
    ensures ValueOf(c, BLANK) == 0
  {
  }

  lemma CounterCounts(c: Counter)
    ensures Counts(Measure(c), Meets(c))
  {
    var measure, meets := Measure(c), Meets(c);
    forall a, b
      ensures measure(Add(a, b)) == measure(a) + measure(b)
    {
      ValueAdds(c, a, b);
    }
    forall a
      ensures measure(AddSession(a)) == measure(a)
    {
      ValueAdds(c, a, a);
    }
    forall events, now, i: nat {:trigger meets(events, now, i)} | i < |events|
      ensures measure(Contribution(events, now, i)) == if meets(events, now, i) then 1 else 0
    {
      EachContributes(c, events, now, i);
    }
    ValueAdds(c, BLANK, BLANK);
  }

  /**
   In every week of every report, each counter is the number of messages of that week, over all sessions,
   that meet its condition.
   */
  lemma ReportCounts(sessions: seq<Session>, week: int, c: Counter)
    ensures ValueOf(c, Base(ReportOf(sessions), week, BLANK)) == Tally(sessions, week, Meets(c))
  {
    CounterCounts(c);
    ReportTally(sessions, week, Measure(c), Meets(c));
  }

  // ----- sessions

  predicate HasMessage(s: Session, week: int) {
    exists i :: 0 <= i < |s.events| && MondayOf(s.events[i].at) == week
  }

  function SessionsIn(sessions: seq<Session>, week: int): nat {
    if sessions == [] then 0
    else
      SessionsIn(sessions[..|sessions| - 1], week) + if HasMessage(sessions[|sessions| - 1], week) then 1 else 0
  }

  lemma {:induction false} NoSessionYet(b: Book<int, Stats>, week: int, n: nat)
    requires forall i: nat :: b.entry(i).traffic.sessions == 0
    ensures Total(b, week, n, Add, BLANK).traffic.sessions == 0
    decreases n
  {
    if n > 0 {
      NoSessionYet(b, week, n - 1);
    }
  }

  lemma TouchedIff(s: Session, week: int)
    ensures week in Touched(BookOf(s.events, s.readAt), |s.events|) <==> HasMessage(s, week)
  {
    var b := BookOf(s.events, s.readAt);
    assert forall i: nat :: i < |s.events| ==> b.week(i) == MondayOf(s.events[i].at);
    if HasMessage(s, week) {
      var i :| 0 <= i < |s.events| && MondayOf(s.events[i].at) == week;
      assert b.week(i) in Touched(b, |s.events|);
    }
  }

  /** A session counts once in every week it has a message in. */
  lemma {:induction false} SessionsCounted(sessions: seq<Session>, week: int)
    ensures Base(ReportOf(sessions), week, BLANK).traffic.sessions == SessionsIn(sessions, week)
    decreases |sessions|
  {
    if sessions != [] {
      var n := |sessions| - 1;
      var s := sessions[n];
      var b := BookOf(s.events, s.readAt);
      SessionsCounted(sessions[..n], week);
      NoSessionYet(b, week, |s.events|);
      TouchedIff(s, week);
      StatsAdd();
      SessionBumps();
      EnteredIs(ReportOf(sessions[..n]), b, |s.events|, AddSession, week, Add, BLANK);
    }
  }
}
