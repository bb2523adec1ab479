/**
 Exactly which thresholds make the supervisor report every loop before it prevents one.
 */
module Forewarning {
  import opened Common
  import opened Progress
  import opened Supervisor

  ghost predicate PreventedForRepetition(c: Config, run: seq<Action>, i: nat) {
    var events := After(c, run).events;
    i < |events| && events[i].Prevented? && events[i].reason == NoProgressTurns
  }

  /** An earlier event of the run reported the loop. */
  ghost predicate ReportedBefore(c: Config, run: seq<Action>, i: nat)
    requires i < |After(c, run).events|
  {
    var events := After(c, run).events;
    exists j :: 0 <= j < i && events[j].Candidate? && events[j].fingerprint == events[i].fingerprint
  }

  ghost predicate AlwaysForewarned(c: Config) {
    forall run: seq<Action>, i: nat :: PreventedForRepetition(c, run, i) ==> ReportedBefore(c, run, i)
  }

  /** Repetition can never lead to prevention: it is off, or the window is too small to show it. */
  predicate Inert(c: Config) {
    !c.prevention.enabled || c.prevention.noProgressTurns >= Max(2, c.historySize)
  }

  lemma InertNeverPrevents(c: Config, run: seq<Action>, i: nat)
    requires Inert(c)
    ensures !PreventedForRepetition(c, run, i)
  {
    if PreventedForRepetition(c, run, i) {
      EmissionOf(Judge(c), run, i);
      var k: nat :| EmittedAt(Judge(c), run, After(c, run).events[i], k);
      TriggerExact(c, run[..k + 1]);
    }
  }

  // ----- a loop no rule but the no-progress count can see

  function Args(n: nat): (s: string)
    ensures |s| == n
  {
    if n == 0 then "" else Args(n - 1) + "x"
  }

  /** One fingerprint, since all these tools are of one family, but every call different and no artifact role. */
  function Act(n: nat): Action {
    Action("session", "planner", "read" + Args(n), "", "", "loop")
  }

  function Loop(n: nat): (h: seq<Action>)
    ensures |h| == n
  {
    if n == 0 then [] else Loop(n - 1) + [Act(n)]
  }

  lemma LoopInit(n: nat)
    requires n > 0
    ensures Loop(n)[..n - 1] == Loop(n - 1) && Last(Loop(n)) == Act(n)
  {
  }

  lemma {:induction false} LoopRepeats(n: nat)
    requires n > 0
    ensures Repeats(Loop(n)) == n - 1
  {
    LoopInit(n);
    if n > 1 {
      LoopInit(n - 1);
      LoopRepeats(n - 1);
    }
  }

  lemma {:induction false} LoopCount(n: nat)
    ensures Count(Loop(n), "loop") == n
  {
    if n > 0 {
      LoopInit(n);
      LoopCount(n - 1);
    }
  }

  lemma {:induction false} LoopFresh(n: nat, m: nat)
    requires n < m
    ensures LastResult(Loop(n), Call(Act(m))) == None && LastSame(Loop(n), Act(m)) == None
    decreases n
  {
    if n > 0 {
      LoopInit(n);
      LoopFresh(n - 1, m);
      assert |Args(n)| != |Args(m)|;
      assert |Call(Act(n))| != |Call(Act(m))|;
    }
  }

  lemma LoopNotStale(n: nat)
    requires n > 0
    ensures !LastIsStale(Loop(n))
  {
    LoopInit(n);
    LoopFresh(n - 1, n);
  }

  /** A history that only repeats one fingerprint is judged by its length alone. */
  lemma RepetitionJudged(c: Config, h: seq<Action>)
    requires h != [] && Window(c, h) == h
    requires Repeats(h) == |h| - 1 && Count(h, Last(h).fingerprint) == |h| && StallRun(h) == 0 && !LastIsStale(h)
    ensures var Judgement(verdict, excess) := Judge(c)(h);
            && (verdict.Some? <==>
                |h| > c.detection.noProgressTurns || (|h| >= 2 && |h| >= c.detection.repeatedCalls))
            && excess == if c.prevention.enabled && |h| > c.prevention.noProgressTurns
                         then Some(NoProgressTurns) else None
  {
    var v := Metrics(h);
    assert v.noProgressTurns == |h| - 1 && v.noMutationStall == 0;
  }

  lemma LoopJudged(c: Config, n: nat)
    requires 0 < n <= Max(2, c.historySize)
    ensures var Judgement(verdict, excess) := Judge(c)(Loop(n));
            && (verdict.Some? <==> n > c.detection.noProgressTurns || (n >= 2 && n >= c.detection.repeatedCalls))
            && excess == if c.prevention.enabled && n > c.prevention.noProgressTurns
                         then Some(NoProgressTurns) else None
  {
    LoopRepeats(n);
    LoopCount(n);
    LoopInit(n);
    LoopNotStale(n);
    RepetitionJudged(c, Loop(n));
  }

  lemma StaysSilent(judge: Judging, run: seq<Action>, a: Action)
    requires Fold(Sights(judge, run)) == State(map[], [], false) && judge(run + [a]) == Judgement(None, None)
    ensures Fold(Sights(judge, run + [a])) == State(map[], [], false)
  {
    SightsNext(judge, run, a);
  }

  lemma {:induction false} SilentWhile(judge: Judging, n: nat)
    requires forall m :: 0 < m <= n ==> judge(Loop(m)) == Judgement(None, None)
    ensures Fold(Sights(judge, Loop(n))) == State(map[], [], false)
    decreases n
  {
    if n > 0 {
      SilentWhile(judge, n - 1);
      assert Loop(n) == Loop(n - 1) + [Act(n)];
      StaysSilent(judge, Loop(n - 1), Act(n));
    }
  }

  lemma ShortLoop(c: Config, n: nat)
    requires 0 < n <= Max(0, c.prevention.noProgressTurns) < Max(2, c.historySize) && !Warns(c)
    ensures Judge(c)(Loop(n)) == Judgement(None, None)
  {
    LoopJudged(c, n);
  }

  /** Nothing is reported while the loop is short. */
  lemma LoopSilent(c: Config, n: nat)
    requires n <= Max(0, c.prevention.noProgressTurns) < Max(2, c.historySize) && !Warns(c)
    ensures After(c, Loop(n)) == State(map[], [], false)
  {
    forall m | 0 < m <= n
      ensures Judge(c)(Loop(m)) == Judgement(None, None)
    {
      ShortLoop(c, m);
    }
    SilentWhile(Judge(c), n);
  }

  lemma FirstEvent(judge: Judging, run: seq<Action>, a: Action)
    requires Fold(Sights(judge, run)) == State(map[], [], false)
    requires judge(run + [a]).excess == Some(NoProgressTurns)
    ensures Fold(Sights(judge, run + [a])).events == [Prevented(a.session, a.fingerprint, NoProgressTurns)]
  {
    SightsNext(judge, run, a);
  }

  /** The loop that is just long enough is prevented, and nothing else is on record. */
  lemma LoopPrevented(c: Config, n: nat)
    requires n == Max(0, c.prevention.noProgressTurns) && !Inert(c) && !Warns(c)
    ensures After(c, Loop(n + 1)).events == [Prevented("session", "loop", NoProgressTurns)]
  {
    LoopSilent(c, n);
    LoopJudged(c, n + 1);
    FirstEvent(Judge(c), Loop(n), Act(n + 1));
  }

  lemma SilentPrevention(c: Config)
    requires !Inert(c) && !Warns(c)
    ensures exists run: seq<Action> :: PreventedForRepetition(c, run, 0) && !ReportedBefore(c, run, 0)
  {
    var n := Max(0, c.prevention.noProgressTurns);
    LoopPrevented(c, n);
    var run := Loop(n + 1);
    assert PreventedForRepetition(c, run, 0) && !ReportedBefore(c, run, 0);
  }

  /**
   Every prevention for repetition, in every run, is preceded by a report of that loop if and only if
   the thresholds warn, or repetition can never lead to prevention.
   */
  lemma ForewarnedIff(c: Config)
    ensures AlwaysForewarned(c) <==> Inert(c) || Warns(c)
  {
    if Inert(c) || Warns(c) {
      forall run: seq<Action>, i: nat | PreventedForRepetition(c, run, i)
        ensures ReportedBefore(c, run, i)
      {
        if Warns(c) {
          WarningFirst(c, run, i);
        } else {
          InertNeverPrevents(c, run, i);
        }
      }
    } else {
      SilentPrevention(c);
    }
  }
}
