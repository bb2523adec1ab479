/**
 Where fencing stops when calls overlap: exactly when a returning write takes a mission back
 from its holder, runs in which it does, and missions that share delivery keys.
 */
module FencingLimits {
  import opened Common
  import opened Fencing

  /** The event is the return of a call that writes the mission. */
  predicate WritesMission(s: State, e: Event, m: string)
    requires Enabled(s, e)
  {
    match e
    case SubmitReturn(id, _, _) => s.calls[id].sub.missionId == m
    case CancelReturn(id, cancelled) =>
      cancelled && s.calls[id].run.Some? && s.core.records[s.calls[id].run.value].missionId == m
    case _ => false
  }

  predicate SameHolder(a: Core, b: Core, m: string) {
    (m in a.holders <==> m in b.holders) && (m in a.holders ==> a.holders[m] == b.holders[m])
  }

  lemma HolderStays(s: State, e: Event, m: string)
    requires Enabled(s, e) && !WritesMission(s, e, m)
    ensures SameHolder(s.core, Next(s, e).core, m)
  {
  }

  /** Event `w` is the last of the events from `i` up to `j` that writes the mission. */
  ghost predicate LastWrite(ss: seq<State>, es: seq<Event>, i: nat, j: nat, w: nat, m: string)
    requires IsRun(ss, es) && j <= |es|
  {
    i <= w < j && WritesMission(ss[w], es[w], m) && NoWrite(ss, es, w + 1, j, m)
  }

  ghost predicate NoWrite(ss: seq<State>, es: seq<Event>, i: nat, j: nat, m: string)
    requires IsRun(ss, es) && j <= |es|
  {
    forall n {:trigger es[n]} :: i <= n < j ==> !WritesMission(ss[n], es[n], m)
  }

  lemma {:induction false} HolderUnwritten(ss: seq<State>, es: seq<Event>, i: nat, j: nat, m: string)
    requires IsRun(ss, es) && i <= j <= |es| && NoWrite(ss, es, i, j, m)
    ensures SameHolder(ss[i].core, ss[j].core, m)
    decreases j
  {
    if i < j {
      var e := es[j - 1];
      HolderUnwritten(ss, es, i, j - 1, m);
      HolderStays(ss[j - 1], e, m);
    }
  }

  lemma {:induction false} WriteOrNone(ss: seq<State>, es: seq<Event>, i: nat, j: nat, m: string)
    requires IsRun(ss, es) && i <= j <= |es|
    ensures NoWrite(ss, es, i, j, m) || exists w: nat :: LastWrite(ss, es, i, j, w, m)
    decreases j
  {
    if i < j {
      var n := j - 1;
      var e := es[n];
      WriteOrNone(ss, es, i, n, m);
      if WritesMission(ss[n], e, m) {
        assert LastWrite(ss, es, i, j, n, m);
      } else if w: nat :| LastWrite(ss, es, i, n, w, m) {
        assert LastWrite(ss, es, i, j, w, m);
      }
    }
  }

  /** The last write between events `i` and `j` left a holder the owner is behind. */
  ghost predicate Overtaken(ss: seq<State>, es: seq<Event>, i: nat, j: nat, m: string, owner: Owner)
    requires IsRun(ss, es) && j <= |es|
  {
    exists w: nat :: LastWrite(ss, es, i, j, w, m) && Behind(ss[w + 1].core, m, owner)
  }

  /** The holder found at `j` is the one at `i`, or the one the last write between them left. */
  lemma HolderFound(ss: seq<State>, es: seq<Event>, i: nat, j: nat, m: string, owner: Owner)
    requires IsRun(ss, es) && i <= j <= |es|
    ensures Behind(ss[j].core, m, owner) <==>
            Overtaken(ss, es, i, j, m, owner) || (NoWrite(ss, es, i, j, m) && Behind(ss[i].core, m, owner))
  {
    WriteOrNone(ss, es, i, j, m);
    if NoWrite(ss, es, i, j, m) {
      HolderUnwritten(ss, es, i, j, m);
    }
    forall w: nat | LastWrite(ss, es, i, j, w, m)
      ensures SameHolder(ss[w + 1].core, ss[j].core, m)
    {
      HolderUnwritten(ss, es, w + 1, j, m);
    }
  }

  /**
   A submission asked at `i` whose receipt arrives at `j`, whatever overlaps: the receipt takes
   the mission back from the holder it finds if and only if the last write of the mission that
   returned in between left a holder the receipt is behind.
   */
  lemma SubmitGoesBackIff(ss: seq<State>, es: seq<Event>, i: nat, j: nat, token: int)
    requires IsRun(ss, es) && i < j < |es| && es[i].SubmitStart? && TriageSubmission(ss[i].core, es[i].sub).Ask?
    requires es[j].SubmitReturn? && es[j].token == token >= es[i].sub.owner.fencingToken
    requires ss[j].calls[es[j].id] == Submitting(es[i].sub)
    ensures var m, receipt := es[i].sub.missionId, Owner(es[i].sub.owner.ownerId, token);
            && m in ss[j + 1].core.holders && ss[j + 1].core.holders[m] == receipt
            && (Behind(ss[j].core, m, receipt) <==> Overtaken(ss, es, i + 1, j, m, receipt))
  {
    var e, f, m := es[i], es[j], es[i].sub.missionId;
    HolderFound(ss, es, i + 1, j, m, Owner(e.sub.owner.ownerId, token));
  }

  /** The run's record and the mission name different holders. */
  predicate Diverged(c: Core, run: nat)
    requires run < |c.records|
  {
    var m := c.records[run].missionId;
    m in c.holders && c.holders[m] != c.records[run].holder
  }

  /**
   A cancel that passed its check at `i` and succeeds at `j`, whatever overlaps: it takes the
   mission back if and only if the last write in between left a holder the caller is behind, or
   there was none and the record it was checked against had already diverged from a mission
   holder the caller is behind.
   */
  lemma CancelGoesBackIff(ss: seq<State>, es: seq<Event>, i: nat, j: nat, run: nat)
    requires IsRun(ss, es) && i < j < |es| && es[i].CancelStart? && es[j].CancelReturn? && es[j].cancelled
    requires FindRun(ss[i].core, es[i].externalId) == Some(run) && run < |ss[i].core.records|
    requires !Fenced(ss[i].core, Some(run), es[i].owner)
    requires ss[j].calls[es[j].id] == Cancelling(Some(run), es[i].owner)
    ensures var m, owner := ss[i].core.records[run].missionId, es[i].owner;
            && m in ss[j + 1].core.holders && ss[j + 1].core.holders[m] == owner
            && (Behind(ss[j].core, m, owner) <==>
                || Overtaken(ss, es, i + 1, j, m, owner)
                || (NoWrite(ss, es, i + 1, j, m) && Diverged(ss[i].core, run) && Behind(ss[i].core, m, owner)))
  {
    var e, f, m := es[i], es[j], ss[i].core.records[run].missionId;
    RecordMission(ss, es, i, j, run);
    HolderFound(ss, es, i + 1, j, m, e.owner);
  }

  lemma {:induction false} RecordMission(ss: seq<State>, es: seq<Event>, i: nat, j: nat, run: nat)
    requires IsRun(ss, es) && i <= j <= |es| && run < |ss[i].core.records|
    ensures run < |ss[j].core.records| && ss[j].core.records[run].missionId == ss[i].core.records[run].missionId
    decreases j
  {
    if i < j {
      var e := es[j - 1];
      RecordMission(ss, es, i, j - 1, run);
    }
  }

  /** The second of two overlapping submissions to one mission, by a newer owner, returns first. */
  lemma OvertakenRun(p: Submission, q: Submission, x: string) returns (ss: seq<State>, es: seq<Event>)
    requires p.missionId == q.missionId && Key(p) != Key(q)
    ensures IsRun(ss, es) && |es| == 3
    ensures ss[3].core == Registered(INITIAL.core, q, x, q.owner.fencingToken) && ss[3].calls == map[0 := Submitting(p)]
  {
    es := [SubmitStart(0, p), SubmitStart(1, q), SubmitReturn(1, x, q.owner.fencingToken)];
    var s1 := Next(INITIAL, es[0]);
    var s2 := Next(s1, es[1]);
    ss := [INITIAL, s1, s2, Next(s2, es[2])];
  }

  /** The older owner's receipt arrives last and takes the mission back from the newer owner. */
  lemma OverlapGoesBack(p: Submission, q: Submission, x: string) returns (ss: seq<State>, es: seq<Event>)
    requires p.missionId == q.missionId && Key(p) != Key(q) && p.owner.fencingToken < q.owner.fencingToken
    ensures IsRun(ss, es) && |es| == 4
    ensures var m := p.missionId;
            && m in ss[3].core.holders && ss[3].core.holders[m] == q.owner
            && m in ss[4].core.holders && ss[4].core.holders[m] == p.owner
  {
    ss, es := OvertakenRun(p, q, x);
    var e := SubmitReturn(0, x, p.owner.fencingToken);
    RunExtends(ss, es, e);
    ss, es := ss + [Next(ss[3], e)], es + [e];
  }

  /** B overtakes A, A's receipt arrives while B is cancelling, and B's cancel restores B for the mission only. */
  lemma DivergingRun(p: Submission, q: Submission, x: string) returns (ss: seq<State>, es: seq<Event>)
    requires p.missionId == q.missionId && Key(p) != Key(q) && p.owner.fencingToken < q.owner.fencingToken
    ensures IsRun(ss, es) && |es| == 6 && ss[6].calls == map[]
    ensures var c, m := ss[6].core, p.missionId;
            && x in c.runs && c.runs[x] < |c.records| && Diverged(c, c.runs[x])
            && c.records[c.runs[x]].missionId == m && c.records[c.runs[x]].holder == p.owner && c.holders[m] == q.owner
  {
    ss, es := OvertakenRun(p, q, x);
    var e3, e4, e5 := CancelStart(2, x, q.owner), SubmitReturn(0, x, p.owner.fencingToken), CancelReturn(2, true);
    var s3 := ss[3];
    var s4 := Next(s3, e3);
    assert s4.calls == map[0 := Submitting(p), 2 := Cancelling(Some(0), q.owner)] && s4.core == s3.core;
    var s5 := Next(s4, e4);
    assert s5.calls == map[2 := Cancelling(Some(0), q.owner)];
    var s6 := Next(s5, e5);
    RunExtends(ss, es, e3);
    ss, es := ss + [s4], es + [e3];
    RunExtends(ss, es, e4);
    ss, es := ss + [s5], es + [e4];
    RunExtends(ss, es, e5);
    ss, es := ss + [s6], es + [e5];
  }

  /**
   Divergence outlives its cause: with nothing else in flight, the older owner's cancel passes
   its check against the run's record and takes the mission back.
   */
  lemma DivergedGoesBack(p: Submission, q: Submission, x: string) returns (ss: seq<State>, es: seq<Event>)
    requires p.missionId == q.missionId && Key(p) != Key(q) && p.owner.fencingToken < q.owner.fencingToken
    ensures IsRun(ss, es) && |es| == 8 && ss[6].calls == map[]
    ensures es[6] == CancelStart(0, x, p.owner) && es[7] == CancelReturn(0, true)
    ensures var m := p.missionId;
            && m in ss[6].core.holders && ss[6].core.holders[m] == q.owner
            && m in ss[8].core.holders && ss[8].core.holders[m] == p.owner
  {
    ss, es := DivergingRun(p, q, x);
    var start, end := CancelStart(0, x, p.owner), CancelReturn(0, true);
    var s := ss[6];
    RunExtends(ss, es, start);
    RunExtends(ss + [Next(s, start)], es + [start], end);
    ss, es := ss + [Next(s, start)] + [Next(Next(s, start), end)], es + [start] + [end];
  }

  /** One key delivered twice at once is submitted to the backend twice. */
  lemma OverlapAsksTwice(sub: Submission) returns (ss: seq<State>, es: seq<Event>)
    ensures IsRun(ss, es) && |ss| == 3 && ss[2].log == [Asked(Key(sub)), Asked(Key(sub))]
  {
    es := [SubmitStart(0, sub), SubmitStart(1, sub)];
    var s1 := Next(INITIAL, es[0]);
    ss := [INITIAL, s1, Next(s1, es[1])];
  }

  predicate SameKey(m: string, k: string, m': string, k': string) {
    m + ":" + k == m' + ":" + k'
  }

  /** Two missions can share a delivery key exactly when one mission id extends the other past a colon. */
  lemma KeysCollideIff(m: string, m': string)
    requires m != m'
    ensures (exists k, k' :: SameKey(m, k, m', k')) <==> m + ":" <= m' || m' + ":" <= m
  {
    if k, k' :| SameKey(m, k, m', k') {
      KeyPrefix(m, k, m', k');
    }
    if m + ":" <= m' {
      var k := m'[|m| + 1..] + ":";
      assert m' == m + ":" + m'[|m| + 1..];
      assert SameKey(m, k, m', "");
    } else if m' + ":" <= m {
      var k' := m[|m'| + 1..] + ":";
      assert m == m' + ":" + m[|m'| + 1..];
      assert SameKey(m, "", m', k');
    }
  }

  lemma KeyPrefix(m: string, k: string, m': string, k': string)
    requires SameKey(m, k, m', k') && m != m'
    ensures m + ":" <= m' || m' + ":" <= m
  {
    var s, t := m + ":" + k, m' + ":" + k';
    assert s[..|m|] == m && t[..|m'|] == m';
    if |m| < |m'| {
      assert s[..|m| + 1] == m + ":";
      assert t[..|m'|][..|m| + 1] == t[..|m| + 1];
    } else if |m'| < |m| {
      assert t[..|m'| + 1] == m' + ":";
      assert s[..|m|][..|m'| + 1] == s[..|m'| + 1];
    }
  }
}
