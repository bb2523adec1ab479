/**
 Exactly which actions of a run the supervisor answers with an event, and with which, told from the judgements
 of the run's prefixes alone.
 */
module SupervisorReports {
  import opened Common
  import opened Progress
  import opened Supervisor

  predicate ExcessAt(judge: Judging, run: seq<Action>, k: nat) {
    k < |run| && judge(run[..k + 1]).excess.Some?
  }

  /** The first action judged excessive: the one that is prevented. */
  predicate FirstExcess(judge: Judging, run: seq<Action>, k: nat) {
    ExcessAt(judge, run, k) && forall j :: 0 <= j < k ==> !ExcessAt(judge, run, j)
  }

  /** An action of the session that is not prevented. */
  predicate Heard(judge: Judging, run: seq<Action>, session: string, k: nat) {
    k < |run| && run[k].session == session && !FirstExcess(judge, run, k)
  }

  /** The session's latest unprevented action before the k-th is a loop over this fingerprint. */
  predicate LoopsBefore(judge: Judging, run: seq<Action>, session: string, fp: string, k: nat) {
    exists j ::
      && 0 <= j < k && Heard(judge, run, session, j)
      && run[j].fingerprint == fp && judge(run[..j + 1]).verdict.Some?
      && forall m :: j < m < k ==> !Heard(judge, run, session, m)
  }

  /** What the k-th action is answered with. */
  function Answer(judge: Judging, run: seq<Action>, k: nat): seq<Event>
    requires k < |run|
  {
    var a, Judgement(verdict, excess) := run[k], judge(run[..k + 1]);
    if FirstExcess(judge, run, k) then [Prevented(a.session, a.fingerprint, excess.value)]
    else if verdict.None? || LoopsBefore(judge, run, a.session, a.fingerprint, k) then []
    else [Candidate(a.session, a.fingerprint, verdict.value)]
  }

  function StateAt(judge: Judging, run: seq<Action>, k: nat): State
    requires k <= |run|
  {
    Fold(Sights(judge, run[..k]))
  }

  lemma StateNext(judge: Judging, run: seq<Action>, k: nat)
    requires k < |run|
    ensures StateAt(judge, run, k + 1)
            == Step(StateAt(judge, run, k), Sight(run[k].session, run[k].fingerprint, judge(run[..k + 1])))
  {
    assert run[..k] + [run[k]] == run[..k + 1];
    SightsNext(judge, run[..k], run[k]);
  }

  lemma StateFirst(judge: Judging, run: seq<Action>)
    ensures StateAt(judge, run, 0) == State(map[], [], false)
  {
  }

  lemma FiredNext(judge: Judging, run: seq<Action>, k: nat)
    requires k < |run|
    ensures FiredAfter(judge, run, k + 1) <==> FiredAfter(judge, run, k) || ExcessAt(judge, run, k)
  {
    StateNext(judge, run, k);
  }

  predicate FiredAfter(judge: Judging, run: seq<Action>, k: nat)
    requires k <= |run|
  {
    StateAt(judge, run, k).fired
  }

  predicate ExcessBefore(judge: Judging, run: seq<Action>, k: nat) {
    exists j :: 0 <= j < k && ExcessAt(judge, run, j)
  }

  lemma ExcessNext(judge: Judging, run: seq<Action>, k: nat)
    ensures ExcessBefore(judge, run, k + 1) <==> ExcessBefore(judge, run, k) || ExcessAt(judge, run, k)
  {
  }

  lemma {:induction false} FiredBefore(judge: Judging, run: seq<Action>, k: nat)
    requires k <= |run|
    ensures FiredAfter(judge, run, k) <==> ExcessBefore(judge, run, k)
  {
    if k == 0 {
      StateFirst(judge, run);
    } else {
      FiredBefore(judge, run, k - 1);
      FiredNext(judge, run, k - 1);
      ExcessNext(judge, run, k - 1);
    }
  }

  lemma FirstIff(judge: Judging, run: seq<Action>, k: nat)
    requires k < |run|
    ensures FirstExcess(judge, run, k) <==> ExcessAt(judge, run, k) && !StateAt(judge, run, k).fired
  {
    FiredBefore(judge, run, k);
  }

  /** A loop the session was in before an action it is still in when that action is not one of the session's. */
  lemma LoopsSkip(judge: Judging, run: seq<Action>, session: string, fp: string, k: nat)
    requires k < |run| && !Heard(judge, run, session, k)
    ensures LoopsBefore(judge, run, session, fp, k + 1) <==> LoopsBefore(judge, run, session, fp, k)
  {
  }

  lemma LoopsHeard(judge: Judging, run: seq<Action>, session: string, fp: string, k: nat)
    requires k < |run| && Heard(judge, run, session, k)
    ensures LoopsBefore(judge, run, session, fp, k + 1)
            <==> run[k].fingerprint == fp && judge(run[..k + 1]).verdict.Some?
  {
  }

  lemma MarkNext(judge: Judging, run: seq<Action>, session: string, fp: string, k: nat)
    requires k < |run|
    ensures Marked(StateAt(judge, run, k + 1), session, fp)
            <==> if Heard(judge, run, session, k)
                 then run[k].fingerprint == fp && judge(run[..k + 1]).verdict.Some?
                 else Marked(StateAt(judge, run, k), session, fp)
  {
    StateNext(judge, run, k);
    FirstIff(judge, run, k);
  }

  lemma {:induction false} MarkedIff(judge: Judging, run: seq<Action>, session: string, fp: string, k: nat)
    requires k <= |run|
    ensures Marked(StateAt(judge, run, k), session, fp) <==> LoopsBefore(judge, run, session, fp, k)
  {
    if k > 0 {
      MarkedIff(judge, run, session, fp, k - 1);
      MarkNext(judge, run, session, fp, k - 1);
      if Heard(judge, run, session, k - 1) {
        LoopsHeard(judge, run, session, fp, k - 1);
      } else {
        LoopsSkip(judge, run, session, fp, k - 1);
      }
    }
  }

  lemma AnswerNext(judge: Judging, run: seq<Action>, k: nat)
    requires k < |run|
    ensures StateAt(judge, run, k + 1).events == StateAt(judge, run, k).events + Answer(judge, run, k)
  {
    StateNext(judge, run, k);
    FirstIff(judge, run, k);
    MarkedIff(judge, run, run[k].session, run[k].fingerprint, k);
  }

  function Answers(judge: Judging, run: seq<Action>, n: nat): seq<Event>
    requires n <= |run|
  {
    if n == 0 then [] else Answers(judge, run, n - 1) + Answer(judge, run, n - 1)
  }

  lemma {:induction false} AnswersTo(judge: Judging, run: seq<Action>, n: nat)
    requires n <= |run|
    ensures StateAt(judge, run, n).events == Answers(judge, run, n)
  {
    if n > 0 {
      AnswersTo(judge, run, n - 1);
      AnswerNext(judge, run, n - 1);
    }
  }

  /**
   The events of a run are the answers to its actions in order: one prevention for the first excess, and a loop
   candidate exactly when the session's latest unprevented action was not already a loop over that fingerprint. So
   a loop that returns after progress is reported again, and a lasting one is not.
   */
  lemma EventsAre(c: Config, run: seq<Action>)
    ensures After(c, run).events == Answers(Judge(c), run, |run|)
  {
    assert run[..|run|] == run;
    AnswersTo(Judge(c), run, |run|);
  }
}
