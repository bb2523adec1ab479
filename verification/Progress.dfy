/**
 Progress metrics over the bounded window of agent actions, and the loop verdict.
 */
module Progress {
  import opened Common

  /** An action; `arguments` and `result` are already canonical text, `fingerprint` its semantic hash. */
  datatype Action = Action(
    session: string, role: string, tool: string, arguments: string, result: string, fingerprint: string)

  datatype Thresholds = Thresholds(noProgressTurns: int, repeatedCalls: int, staleToolResults: int)

  datatype Reason = NoProgressTurns | RepeatedCall | StaleToolResults | NoMutationStall

  datatype Vector = Vector(
    noProgressTurns: nat, repeatedCalls: map<string, nat>, staleToolResults: nat,
    noMutationStall: nat, noMutationStallDistinct: nat)

  predicate IsArtifactRole(role: string) {
    role in {"implementer", "debugger", "integrator"}
  }

  predicate IsMutatingTool(tool: string) {
    tool in {"write", "edit", "worker_result"}
  }

  function Call(a: Action): string {
    a.tool + " " + a.arguments
  }

  // ----- what the metrics mean

  /** The history ends in `n` actions that all carry the fingerprint. */
  predicate EndsIn(h: seq<Action>, n: nat, fp: string) {
    n <= |h| && forall i :: |h| - n <= i < |h| ==> h[i].fingerprint == fp
  }

  /** The history ends in `n` actions by artifact roles, none of which mutates. */
  predicate EndsStalled(h: seq<Action>, n: nat) {
    n <= |h| && forall i :: |h| - n <= i < |h| ==> Stalled(h[i])
  }

  predicate Stalled(a: Action) {
    IsArtifactRole(a.role) && !IsMutatingTool(a.tool)
  }

  function LastN(h: seq<Action>, n: nat): seq<Action> {
    if n >= |h| then h else h[|h| - n..]
  }

  /** Length of the trailing run of exact repeats. */
  function Repeats(h: seq<Action>): nat {
    if |h| < 2 || h[|h| - 1].fingerprint != h[|h| - 2].fingerprint then 0 else 1 + Repeats(h[..|h| - 1])
  }

  function Count(h: seq<Action>, fp: string): nat {
    if h == [] then 0 else Count(h[..|h| - 1], fp) + if h[|h| - 1].fingerprint == fp then 1 else 0
  }

  /** The result the most recent action with this call returned. */
  function LastResult(h: seq<Action>, call: string): Option<string> {
    if h == [] then None
    else if Call(h[|h| - 1]) == call then Some(h[|h| - 1].result)
    else LastResult(h[..|h| - 1], call)
  }

  function Stale(h: seq<Action>): nat {
    if h == [] then 0
    else
      var n := |h| - 1;
      Stale(h[..n]) + if LastResult(h[..n], Call(h[n])) == Some(h[n].result) then 1 else 0
  }

  /** Length of the trailing run of non-mutating actions by artifact roles. */
  function StallRun(h: seq<Action>): nat
    ensures StallRun(h) <= |h|
  {
    if h == [] || !Stalled(h[|h| - 1]) then 0 else 1 + StallRun(h[..|h| - 1])
  }

  function Calls(h: seq<Action>): set<string> {
    set a | a in h :: Call(a)
  }

  function Metrics(h: seq<Action>): Vector {
    Vector(Repeats(h), map fp | fp in Fingerprints(h) && Count(h, fp) >= 2 :: Count(h, fp), Stale(h),
           StallRun(h), |Calls(LastN(h, StallRun(h)))|)
  }

  function Fingerprints(h: seq<Action>): set<string> {
    set a | a in h :: a.fingerprint
  }

  /** N repeats mean the history ends in N + 1 actions with one fingerprint, and conversely. */
  lemma {:induction false} RepeatsIff(h: seq<Action>, n: nat)
    requires h != []
    ensures Repeats(h) >= n <==> EndsIn(h, n + 1, h[|h| - 1].fingerprint)
    decreases n
  {
    if n > 0 && |h| >= 2 {
      RepeatsIff(h[..|h| - 1], n - 1);
    }
  }

  /** A stall of n means the last n actions are non-mutating and by artifact roles, and conversely. */
  lemma {:induction false} StallIff(h: seq<Action>, n: nat)
    ensures StallRun(h) >= n <==> EndsStalled(h, n)
    decreases n
  {
    if n > 0 && h != [] {
      StallIff(h[..|h| - 1], n - 1);
    }
  }

  // ----- pigeonhole over the calls of a stall

  function CallCount(h: seq<Action>, call: string): nat {
    if h == [] then 0 else CallCount(h[..|h| - 1], call) + if Call(h[|h| - 1]) == call then 1 else 0
  }

  function Except(h: seq<Action>, call: string): seq<Action> {
    if h == [] then []
    else if Call(h[|h| - 1]) == call then Except(h[..|h| - 1], call)
    else Except(h[..|h| - 1], call) + [h[|h| - 1]]
  }

  lemma {:induction false} ExceptCounts(h: seq<Action>, call: string, other: string)
    ensures |Except(h, call)| + CallCount(h, call) == |h|
    ensures forall a :: a in Except(h, call) ==> a in h && Call(a) != call
    ensures other != call ==> CallCount(Except(h, call), other) == CallCount(h, other)
    decreases |h|
  {
    if h != [] {
      var n := |h| - 1;
      ExceptCounts(h[..n], call, other);
      if Call(h[n]) != call {
        assert Except(h, call)[..|Except(h[..n], call)|] == Except(h[..n], call);
      }
    }
  }

  predicate AtMost(h: seq<Action>, calls: set<string>, most: nat) {
    (forall a :: a in h ==> Call(a) in calls) && forall c :: c in calls ==> CallCount(h, c) <= most
  }

  lemma ExceptAtMost(h: seq<Action>, calls: set<string>, most: nat, c: string)
    requires AtMost(h, calls, most) && c in calls
    ensures AtMost(Except(h, c), calls - {c}, most) && |h| <= |Except(h, c)| + most
  {
    ExceptCounts(h, c, c);
    forall d | d in calls - {c}
      ensures CallCount(Except(h, c), d) <= most
    {
      ExceptCounts(h, c, d);
    }
  }

  lemma {:induction false} CountBound(h: seq<Action>, calls: set<string>, most: nat)
    requires AtMost(h, calls, most)
    ensures |h| <= most * |calls|
    decreases |calls|
  {
    if h != [] {
      assert h[0] in h;
      var c := Call(h[0]);
      ExceptAtMost(h, calls, most, c);
      CountBound(Except(h, c), calls - {c}, most);
      MulNext(most, |calls - {c}|);
      assert |calls| == |calls - {c}| + 1;
    }
  }

  /** Among n actions over at most d different calls, some call occurs at least n/d times. */
  lemma Pigeonhole(h: seq<Action>, d: nat) returns (c: string)
    requires h != [] && |Calls(h)| <= d
    ensures c in Calls(h) && CallCount(h, c) * d >= |h|
  {
    var calls := Calls(h);
    assert h[0] in h && Call(h[0]) in calls;
    c := MostFrequent(h, calls);
    CountBound(h, calls, CallCount(h, c));
    MulMono(CallCount(h, c), |calls|, d);
  }

  lemma MulNext(k: nat, n: nat)
    ensures k * (n + 1) == k * n + k
  {
  }

  lemma MulMono(k: nat, a: nat, b: nat)
    requires a <= b
    ensures k * a <= k * b
  {
  }

  lemma {:induction false} MostFrequent(h: seq<Action>, calls: set<string>) returns (c: string)
    requires calls != {}
    ensures c in calls && forall d :: d in calls ==> CallCount(h, d) <= CallCount(h, c)
    decreases |calls|
  {
    c :| c in calls;
    if calls != {c} {
      var d := MostFrequent(h, calls - {c});
      if CallCount(h, d) > CallCount(h, c) {
        c := d;
      }
    }
  }

  // ----- the evaluator

  class ProgressEvaluator {
    const historySize: nat
    const thresholds: Thresholds
    var history: seq<Action>
    ghost var all: seq<Action>        // every action ever recorded

    ghost predicate Valid()
      reads this
    {
      historySize >= 2 && history == LastN(all, historySize)
    }

    constructor (size: int, thresholds: Thresholds)
      ensures Valid() && all == [] && historySize == Max(2, size) && this.thresholds == thresholds
    {
      historySize := Max(2, size);
      this.thresholds := thresholds;
      history, all := [], [];
    }

    /** The window is always the last `historySize` actions of the whole run. */
    method Record(a: Action)
      requires Valid()
      modifies this
      ensures Valid() && all == old(all) + [a]
    {
      Evict(all, a, historySize);
      history := history + [a];
      all := all + [a];
      while |history| > historySize
        invariant all == old(all) + [a] && |history| <= historySize + 1
        invariant LastN(all, historySize) == if |history| > historySize then history[1..] else history
      {
        history := history[1..];
      }
    }

    method CountRepeats() returns (n: nat)
      ensures n == Repeats(history)
    {
      n := 0;
      var i := |history| - 1;
      assert history[..i + 1] == history;
      while i > 0 && history[i].fingerprint == history[i - 1].fingerprint
        invariant -1 <= i < |history| && (history != [] ==> i >= 0)
        invariant Repeats(history) == n + Repeats(history[..i + 1])
      {
        assert history[..i + 1][..i] == history[..i];
        n := n + 1;
        i := i - 1;
      }
    }

    method CountStale() returns (counts: map<string, nat>, stale: nat)
      ensures stale == Stale(history)
      ensures counts.Keys == Fingerprints(history) && forall fp :: fp in counts ==> counts[fp] == Count(history, fp)
    {
      counts, stale := map[], 0;
      var lastResult: map<string, string> := map[];
      for i := 0 to |history|
        invariant stale == Stale(history[..i])
        invariant forall fp :: (fp in counts <==> Count(history[..i], fp) > 0)
                               && (fp in counts ==> counts[fp] == Count(history[..i], fp))
        invariant forall c :: LastResult(history[..i], c) == if c in lastResult then Some(lastResult[c]) else None
      {
        var a := history[i];
        assert history[..i + 1][..i] == history[..i];
        counts := counts[a.fingerprint := (if a.fingerprint in counts then counts[a.fingerprint] else 0) + 1];
        if Call(a) in lastResult && lastResult[Call(a)] == a.result {
          stale := stale + 1;
        }
        lastResult := lastResult[Call(a) := a.result];
      }
      assert history[..|history|] == history;
      CountPositive(history);
    }

    method MeasureStall() returns (n: nat, distinct: nat)
      ensures n == StallRun(history) && distinct == |Calls(LastN(history, n))|
    {
      var h := history;
      var targets: set<string> := {};
      var i := |h|;
      assert h[..i] == h;
      while i > 0 && Stalled(h[i - 1])
        invariant 0 <= i <= |h| && StallRun(h) == |h| - i + StallRun(h[..i])
        invariant targets == Calls(h[i..])
      {
        StallNext(h, i - 1);
        CallsNext(h, i - 1);
        targets := targets + {Call(h[i - 1])};
        i := i - 1;
      }
      n := |h| - i;
      assert LastN(h, n) == h[i..];
      distinct := |targets|;
    }

    /** The computed vector is the metrics of the window, so of the last actions of the whole run. */
    method ComputeVector() returns (v: Vector)
      requires Valid()
      ensures v == Metrics(LastN(all, historySize))
    {
      var repeats := CountRepeats();
      var counts, stale := CountStale();
      var stall, distinct := MeasureStall();
      v := Vector(repeats, map fp | fp in counts && counts[fp] >= 2 :: counts[fp], stale, stall, distinct);
    }

    method LastActionIsStale() returns (stale: bool)
      ensures stale == LastIsStale(history)
    {
      if history == [] {
        return false;
      }
      var last := history[|history| - 1];
      var i := |history| - 2;
      while i >= 0
        invariant -1 <= i <= |history| - 2
        invariant LastSame(history[..|history| - 1], last) == LastSame(history[..i + 1], last)
      {
        assert history[..i + 1][..i] == history[..i];
        if history[i].tool == last.tool && history[i].arguments == last.arguments {
          return history[i].result == last.result;
        }
        i := i - 1;
      }
      return false;
    }

    method Classify(a: Action) returns (verdict: Option<Reason>)
      requires Valid()
      modifies this
      ensures Valid() && all == old(all) + [a]
      ensures verdict == Verdict(thresholds, LastN(all, historySize))
    {
      Record(a);
      var v := ComputeVector();
      var last := history[|history| - 1];
      CountLast(history);
      if v.noProgressTurns >= thresholds.noProgressTurns {
        return Some(NoProgressTurns);
      }
      if last.fingerprint in v.repeatedCalls && v.repeatedCalls[last.fingerprint] >= thresholds.repeatedCalls {
        return Some(RepeatedCall);
      }
      var stale := LastActionIsStale();
      if v.staleToolResults >= thresholds.staleToolResults && stale {
        return Some(StaleToolResults);
      }
      return None;
    }
  }

  /** Appending to the window and dropping its oldest action gives the window of the longer run. */
  lemma Evict(all: seq<Action>, a: Action, size: nat)
    ensures var h := LastN(all, size) + [a];
            |h| <= size + 1 && LastN(all + [a], size) == if |h| > size then h[1..] else h
  {
  }

  lemma StallNext(h: seq<Action>, i: nat)
    requires i < |h| && Stalled(h[i])
    ensures StallRun(h[..i + 1]) == 1 + StallRun(h[..i])
  {
    assert h[..i + 1][..i] == h[..i];
  }

  lemma CallsNext(h: seq<Action>, i: nat)
    requires i < |h|
    ensures Calls(h[i..]) == Calls(h[i + 1..]) + {Call(h[i])}
  {
    assert h[i..] == [h[i]] + h[i + 1..];
  }

  lemma {:induction false} CountPositive(h: seq<Action>)
    ensures forall fp :: Count(h, fp) > 0 <==> fp in Fingerprints(h)
    decreases |h|
  {
    if h != [] {
      var n := |h| - 1;
      CountPositive(h[..n]);
      assert h == h[..n] + [h[n]];
      assert forall a :: a in h <==> a in h[..n] || a == h[n];
    }
  }

  lemma CountLast(h: seq<Action>)
    requires h != []
    ensures h[|h| - 1].fingerprint in Fingerprints(h)
  {
    assert h[|h| - 1] in h;
  }

  /** The result of the latest earlier action with the same tool and arguments. */
  function LastSame(h: seq<Action>, a: Action): Option<string> {
    if h == [] then None
    else if h[|h| - 1].tool == a.tool && h[|h| - 1].arguments == a.arguments then Some(h[|h| - 1].result)
    else LastSame(h[..|h| - 1], a)
  }

  predicate LastIsStale(h: seq<Action>) {
    h != [] && LastSame(h[..|h| - 1], h[|h| - 1]) == Some(h[|h| - 1].result)
  }

  function Verdict(t: Thresholds, h: seq<Action>): Option<Reason>
    requires h != []
  {
    var fp := h[|h| - 1].fingerprint;
    if Repeats(h) >= t.noProgressTurns then Some(NoProgressTurns)
    else if Count(h, fp) >= 2 && Count(h, fp) >= t.repeatedCalls then Some(RepeatedCall)
    else if Stale(h) >= t.staleToolResults && LastIsStale(h) then Some(StaleToolResults)
    else None
  }
}
