/**
 What the metrics and the verdict count, said of tools and arguments instead of the text the code joins
 them into.  A tool name that holds no blank can be read off that text.
 */
module ProgressPairs {
  import opened Common
  import opened Progress
  import opened Supervisor

  function Pair(a: Action): (string, string) {
    (a.tool, a.arguments)
  }

  function Pairs(h: seq<Action>): set<(string, string)> {
    set a | a in h :: Pair(a)
  }

  predicate Plain(h: seq<Action>) {
    forall a :: a in h ==> ' ' !in a.tool
  }

  // ----- the joined text

  lemma SameUpTo(t: string, s: string, u: string, v: string)
    requires t + " " + s == u + " " + v && |t| <= |u|
    ensures (t == u && s == v) || t + " " <= u
  {
    var x := t + " " + s;
    assert x[..|t|] == t && x[|t|] == ' ' && x[..|u|] == u;
    if |t| == |u| {
      assert x[|t| + 1..] == s && x[|u| + 1..] == v;
    } else {
      assert u[..|t|] == t && u[|t|] == ' ';
      assert t + " " == u[..|t| + 1];
    }
  }

  /** Two tools can be confused if and only if one is the other followed by a blank and anything. */
  lemma ToolsCollideIff(t: string, u: string)
    requires t != u
    ensures (exists s, v :: t + " " + s == u + " " + v) <==> t + " " <= u || u + " " <= t
  {
    if s, v :| t + " " + s == u + " " + v {
      if |t| <= |u| {
        SameUpTo(t, s, u, v);
      } else {
        SameUpTo(u, v, t, s);
      }
    }
    if t + " " <= u {
      var rest := u[|t| + 1..];
      assert t + " " + (rest + " ") == u + " " + "";
    } else if u + " " <= t {
      var rest := t[|u| + 1..];
      assert t + " " + "" == u + " " + (rest + " ");
    }
  }

  lemma BlankWithin(t: string, u: string)
    ensures t + " " <= u ==> ' ' in u
  {
    if t + " " <= u {
      assert u[|t|] == ' ';
    }
  }

  lemma CallInjective(a: Action, b: Action)
    requires ' ' !in a.tool && ' ' !in b.tool
    ensures Call(a) == Call(b) <==> Pair(a) == Pair(b)
  {
    if Call(a) == Call(b) {
      if |a.tool| <= |b.tool| {
        SameUpTo(a.tool, a.arguments, b.tool, b.arguments);
        BlankWithin(a.tool, b.tool);
      } else {
        SameUpTo(b.tool, b.arguments, a.tool, a.arguments);
        BlankWithin(b.tool, a.tool);
      }
    }
  }

  // ----- distinct calls

  lemma PlainInit(h: seq<Action>, n: nat)
    requires Plain(h) && n <= |h|
    ensures Plain(h[..n])
  {
    assert forall a :: a in h[..n] ==> a in h;
  }

  lemma CallsSnoc(h: seq<Action>, a: Action)
    ensures Calls(h + [a]) == Calls(h) + {Call(a)} && Pairs(h + [a]) == Pairs(h) + {Pair(a)}
  {
    forall b | b in h + [a]
      ensures b in h || b == a
    {
    }
    assert a in h + [a] && forall b :: b in h ==> b in h + [a];
  }

  lemma SeenIff(h: seq<Action>, a: Action)
    requires Plain(h) && ' ' !in a.tool
    ensures Call(a) in Calls(h) <==> Pair(a) in Pairs(h)
  {
    forall b | b in h
      ensures Call(a) == Call(b) <==> Pair(a) == Pair(b)
    {
      CallInjective(a, b);
    }
  }

  lemma GrowTogether<A, B>(s: set<A>, x: A, t: set<B>, y: B)
    requires |s| == |t| && (x in s <==> y in t)
    ensures |s + {x}| == |t + {y}|
  {
    if x in s {
      assert s + {x} == s && t + {y} == t;
    }
  }

  /** As many calls as pairs of tool and arguments. */
  lemma {:induction false} DistinctPairs(h: seq<Action>)
    requires Plain(h)
    ensures |Calls(h)| == |Pairs(h)|
    decreases |h|
  {
    if h != [] {
      var n := |h| - 1;
      PlainInit(h, n);
      DistinctPairs(h[..n]);
      assert h == h[..n] + [h[n]];
      assert h[n] in h;
      CallsSnoc(h[..n], h[n]);
      SeenIff(h[..n], h[n]);
      GrowTogether(Calls(h[..n]), Call(h[n]), Pairs(h[..n]), Pair(h[n]));
    }
  }

  // ----- stale results

  /** The latest earlier action with the same tool and arguments returned the same result. */
  ghost predicate StaleAt(h: seq<Action>, i: nat)
    requires i < |h|
  {
    exists j :: 0 <= j < i && LatestBefore(h, i, j) && h[j].result == h[i].result
  }

  predicate LatestBefore(h: seq<Action>, i: nat, j: nat)
    requires j < i < |h|
  {
    Pair(h[j]) == Pair(h[i]) && forall k :: j < k < i ==> Pair(h[k]) != Pair(h[i])
  }

  ghost function StaleActions(h: seq<Action>): set<nat> {
    set i: nat | i < |h| && StaleAt(h, i)
  }

  /** The result remembered for a call is that of the latest earlier action with its tool and arguments. */
  lemma {:induction false} LastResultIs(h: seq<Action>, a: Action)
    requires Plain(h) && ' ' !in a.tool
    ensures LastResult(h, Call(a)).None? <==> forall j :: 0 <= j < |h| ==> Pair(h[j]) != Pair(a)
    ensures LastResult(h, Call(a)).Some? ==>
              exists j :: 0 <= j < |h| && LatestFor(h, a, j) && h[j].result == LastResult(h, Call(a)).value
    decreases |h|
  {
    if h != [] {
      var n := |h| - 1;
      assert h[n] in h;
      CallInjective(h[n], a);
      if Call(h[n]) == Call(a) {
        assert LatestFor(h, a, n);
      } else {
        PlainInit(h, n);
        LastResultIs(h[..n], a);
        if LastResult(h[..n], Call(a)).Some? {
          var j :| 0 <= j < n && LatestFor(h[..n], a, j) && h[..n][j].result == LastResult(h[..n], Call(a)).value;
          assert LatestFor(h, a, j);
        }
      }
    }
  }

  predicate LatestFor(h: seq<Action>, a: Action, j: nat)
    requires j < |h|
  {
    Pair(h[j]) == Pair(a) && forall k :: j < k < |h| ==> Pair(h[k]) != Pair(a)
  }

  lemma StaleLast(h: seq<Action>)
    requires h != [] && Plain(h)
    ensures var n := |h| - 1; StaleAt(h, n) <==> LastResult(h[..n], Call(h[n])) == Some(h[n].result)
  {
    var n := |h| - 1;
    PlainInit(h, n);
    assert h[n] in h;
    LastResultIs(h[..n], h[n]);
    if LastResult(h[..n], Call(h[n])).Some? {
      var j :| 0 <= j < n && LatestFor(h[..n], h[n], j) && h[..n][j].result == LastResult(h[..n], Call(h[n])).value;
      assert LatestBefore(h, n, j);
      forall i | 0 <= i < n && LatestBefore(h, n, i)
        ensures i == j
      {
      }
    }
  }

  lemma StaleEarlier(h: seq<Action>, i: nat)
    requires i + 1 < |h|
    ensures StaleAt(h, i) <==> StaleAt(h[..|h| - 1], i)
  {
    var g := h[..|h| - 1];
    forall j | 0 <= j < i
      ensures LatestBefore(h, i, j) <==> LatestBefore(g, i, j)
    {
    }
  }

  lemma StaleSet(h: seq<Action>)
    requires h != []
    ensures var n := |h| - 1;
            && n !in StaleActions(h[..n])
            && StaleActions(h) == StaleActions(h[..n]) + if StaleAt(h, n) then {n} else {}
  {
    var n := |h| - 1;
    forall i: nat | i < n
      ensures StaleAt(h, i) <==> StaleAt(h[..n], i)
    {
      StaleEarlier(h, i);
    }
  }

  /** The stale count is the number of such actions. */
  lemma {:induction false} StaleIs(h: seq<Action>)
    requires Plain(h)
    ensures Stale(h) == |StaleActions(h)|
    decreases |h|
  {
    if h != [] {
      var n := |h| - 1;
      PlainInit(h, n);
      StaleIs(h[..n]);
      StaleLast(h);
      StaleSet(h);
    } else {
      assert StaleActions(h) == {};
    }
  }

  // ----- counts of a fingerprint

  function Occurrences(h: seq<Action>, fp: string): set<nat> {
    set i: nat | i < |h| && h[i].fingerprint == fp
  }

  lemma {:induction false} CountIs(h: seq<Action>, fp: string)
    ensures Count(h, fp) == |Occurrences(h, fp)|
    decreases |h|
  {
    if h != [] {
      var n := |h| - 1;
      CountIs(h[..n], fp);
      assert Occurrences(h, fp) == Occurrences(h[..n], fp) + if h[n].fingerprint == fp then {n} else {};
    } else {
      assert Occurrences(h, fp) == {};
    }
  }

  /** The last action repeats the latest action before it with the same tool and arguments. */
  lemma {:induction false} LastSameIs(h: seq<Action>, a: Action)
    ensures LastSame(h, a).None? <==> forall j :: 0 <= j < |h| ==> Pair(h[j]) != Pair(a)
    ensures LastSame(h, a).Some? ==>
              exists j :: 0 <= j < |h| && LatestFor(h, a, j) && h[j].result == LastSame(h, a).value
    decreases |h|
  {
    if h != [] {
      var n := |h| - 1;
      if Pair(h[n]) == Pair(a) {
        assert LatestFor(h, a, n);
      } else {
        LastSameIs(h[..n], a);
        if LastSame(h[..n], a).Some? {
          var j :| 0 <= j < n && LatestFor(h[..n], a, j) && h[..n][j].result == LastSame(h[..n], a).value;
          assert LatestFor(h, a, j);
        }
      }
    }
  }

  lemma LastIsStaleIff(h: seq<Action>)
    requires h != []
    ensures LastIsStale(h) <==> StaleAt(h, |h| - 1)
  {
    var n := |h| - 1;
    LastSameIs(h[..n], h[n]);
    if LastSame(h[..n], h[n]).Some? {
      var j :| 0 <= j < n && LatestFor(h[..n], h[n], j) && h[..n][j].result == LastSame(h[..n], h[n]).value;
      assert LatestBefore(h, n, j);
      forall i | 0 <= i < n && LatestBefore(h, n, i)
        ensures i == j
      {
      }
    }
  }

  /** The verdict, by what is in the window: the three rules in their order, and nothing else. */
  lemma VerdictIs(t: Thresholds, h: seq<Action>)
    requires h != [] && Plain(h)
    ensures var fp := Last(h).fingerprint;
            Verdict(t, h) ==
            if EndsIn(h, Max(0, t.noProgressTurns) + 1, fp) then Some(NoProgressTurns)
            else if |Occurrences(h, fp)| >= Max(2, t.repeatedCalls) then Some(RepeatedCall)
            else if StaleAt(h, |h| - 1) && |StaleActions(h)| >= t.staleToolResults then Some(StaleToolResults)
            else None
  {
    RepeatsIff(h, Max(0, t.noProgressTurns));
    CountIs(h, Last(h).fingerprint);
    StaleIs(h);
    LastIsStaleIff(h);
  }

  // ----- investigation is not a stall

  /** An action by a role that produces artifacts, with a tool that changes nothing. */
  predicate Idle(a: Action) {
    && (a.role == "implementer" || a.role == "debugger" || a.role == "integrator")
    && a.tool != "write" && a.tool != "edit" && a.tool != "worker_result"
  }

  lemma PlainTail(run: seq<Action>, n: nat)
    requires Plain(run)
    ensures Plain(LastN(run, n))
  {
    assert forall a :: a in LastN(run, n) ==> a in run;
  }

  /** The stall the supervisor sees: its length, and how many different tool and argument pairs it holds. */
  lemma StallPairs(c: Config, run: seq<Action>)
    requires Plain(run)
    ensures var v := Metrics(Window(c, run));
            v.noMutationStall == |StalledTail(c, run)| && v.noMutationStallDistinct == |Pairs(StalledTail(c, run))|
  {
    StallSeen(c, run);
    PlainTail(run, Min(StallRun(run), Max(2, c.historySize)));
    DistinctPairs(StalledTail(c, run));
  }

  /** That tail is stalled throughout, and is as long as the run and the window let it be. */
  lemma StalledTailIs(c: Config, run: seq<Action>)
    ensures var n := |StalledTail(c, run)|;
            && n <= |run| && StalledTail(c, run) == run[|run| - n..]
            && (forall i :: |run| - n <= i < |run| ==> Idle(run[i]))
            && (n < Min(|run|, Max(2, c.historySize)) ==> !Idle(run[|run| - n - 1]))
  {
    var n := StallRun(run);
    StallIff(run, n);
    StallIff(run, n + 1);
  }

  /** A stall that ranges over more pairs than the diversity threshold is never prevented as a stall. */
  lemma WideStallRuns(c: Config, run: seq<Action>)
    requires run != [] && Plain(run) && 0 < c.prevention.noMutationStallDiversity < |Pairs(StalledTail(c, run))|
    ensures Judge(c)(run).excess != Some(NoMutationStall)
  {
    StallPairs(c, run);
    StallSeen(c, run);
    TriggerExact(c, run);
  }

  lemma StalledIdle(run: seq<Action>, n: nat)
    requires EndsStalled(run, n)
    ensures forall i :: |run| - n <= i < |run| ==> Idle(run[i])
  {
  }

  lemma StallingOver(c: Config, run: seq<Action>)
    requires Plain(run) && Stalling(c, run)
    ensures StalledOver(c, run)
  {
    StalledIdle(run, c.prevention.noMutationStall);
    StallPairs(c, run);
    StallSeen(c, run);
  }

  lemma ExcessOver(c: Config, run: seq<Action>)
    requires run != [] && Plain(run) && Judge(c)(run).excess == Some(NoMutationStall)
    ensures StalledOver(c, run)
  {
    TriggerExact(c, run);
    StallingOver(c, run);
  }

  /** In every run, behind a prevention for a stall is a stalled tail of few pairs at the action that caused it. */
  lemma StallJustified(c: Config, run: seq<Action>, i: nat)
    requires Plain(run) && i < |After(c, run).events|
    requires After(c, run).events[i].Prevented? && After(c, run).events[i].reason == NoMutationStall
    ensures exists k: nat :: k < |run| && run[k].session == After(c, run).events[i].session
                             && StalledOver(c, run[..k + 1])
  {
    EmissionOf(Judge(c), run, i);
    var k: nat :| EmittedAt(Judge(c), run, After(c, run).events[i], k);
    PlainInit(run, k + 1);
    ExcessOver(c, run[..k + 1]);
  }

  /** The run ends in enough stalled actions, over no more pairs than the threshold if there is one. */
  predicate StalledOver(c: Config, run: seq<Action>) {
    && 0 < c.prevention.noMutationStall <= |run|
    && (forall i :: |run| - c.prevention.noMutationStall <= i < |run| ==> Idle(run[i]))
    && (c.prevention.noMutationStallDiversity > 0 ==>
          |Pairs(StalledTail(c, run))| <= c.prevention.noMutationStallDiversity)
  }

  // ----- the default thresholds

  /** The last five actions have one fingerprint. */
  predicate FiveAlike(h: seq<Action>) {
    |h| >= 5 && forall i :: |h| - 5 <= i < |h| ==> h[i].fingerprint == h[|h| - 1].fingerprint
  }

  /** The last forty actions and more, up to fifty, change nothing and are over at most six pairs. */
  predicate FortyIdle(h: seq<Action>) {
    && |h| >= 40 && (forall i :: |h| - 40 <= i < |h| ==> Idle(h[i]))
    && |Pairs(StalledTail(DEFAULT_CONFIG, h))| <= 6
  }

  lemma DefaultTrigger(h: seq<Action>)
    requires Plain(h) && h != []
    ensures Repeating(DEFAULT_CONFIG, h) <==> FiveAlike(h)
    ensures Stalling(DEFAULT_CONFIG, h) <==> FortyIdle(h)
  {
    PlainTail(h, Min(StallRun(h), Max(2, DEFAULT_CONFIG.historySize)));
    DistinctPairs(StalledTail(DEFAULT_CONFIG, h));
  }

  predicate StoppedAt(run: seq<Action>, k: nat) {
    0 < k <= |run| && (FiveAlike(run[..k]) || FortyIdle(run[..k]))
  }

  lemma DefaultTriggered(run: seq<Action>, k: nat)
    requires Plain(run)
    ensures Triggered(DEFAULT_CONFIG, run, k) <==> StoppedAt(run, k)
  {
    if 0 < k <= |run| {
      PlainInit(run, k);
      DefaultTrigger(run[..k]);
    }
  }

  /** By default a run is stopped exactly when five actions in a row are alike, or forty idle ones over six pairs. */
  lemma DefaultStops(run: seq<Action>)
    requires Plain(run)
    ensures After(DEFAULT_CONFIG, run).fired <==> exists k: nat :: StoppedAt(run, k)
  {
    FiredIff(DEFAULT_CONFIG, run);
    forall k: nat
      ensures Triggered(DEFAULT_CONFIG, run, k) <==> StoppedAt(run, k)
    {
      DefaultTriggered(run, k);
    }
  }
}
