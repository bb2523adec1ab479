/**
 The adapter as it runs: one method per stretch between awaits.  Each records the step it takes,
 so whatever its callers do is a run of the fencing machine and inherits its guarantees.
 */
module AutoSpecAdapter {
  import opened Common
  import opened Fencing

  class ConcreteAutoSpecAdapter {
    var byKey: map<string, string>
    var runs: map<string, nat>
    var records: seq<Run>
    var holders: map<string, Owner>
    ghost var now: State
    ghost var states: seq<State>
    ghost var events: seq<Event>

    /** What was done so far is a run of the machine, and the fields are its state. */
    ghost predicate Valid()
      reads this
    {
      IsRun(states, events) && states[|events|] == now && now.core == Core(byKey, runs, records, holders)
    }

    constructor ()
      ensures Valid() && events == []
    {
      byKey, runs, records, holders := map[], map[], [], map[];
      now, states, events := INITIAL, [INITIAL], [];
    }

    /** Records the step the fields have just taken. */
    ghost method Take(e: Event)
      requires IsRun(states, events) && states[|events|] == now && Enabled(now, e)
      requires Next(now, e).core == Core(byKey, runs, records, holders)
      modifies this`now, this`states, this`events
      ensures Valid() && now == Next(old(now), e) && events == old(events) + [e]
    {
      RunExtends(states, events, e);
      now := Next(now, e);
      states := states + [now];
      events := events + [e];
    }

    /** A key that was ever handed out is answered from the record; otherwise a stale owner is refused. */
    method SubmitBegin(ghost id: nat, sub: Submission) returns (t: Triage)
      requires Valid() && id !in now.calls
      modifies this`now, this`states, this`events
      ensures Valid() && events == old(events) + [SubmitStart(id, sub)] && now == Next(old(now), SubmitStart(id, sub))
      ensures t.Known? <==> exists i :: 0 <= i < |old(now).log| && HandedFor(old(now).log[i], Key(sub))
      ensures t.Known? ==> HandedLast(old(now).log, Key(sub), t.externalId)
      ensures t.Known? ==> now.log == old(now).log + [Handed(Key(sub), t.externalId, false)]
      ensures !t.Known? ==> (t.Ask? <==> sub.missionId in holders ==> MayAct(holders[sub.missionId], sub.owner))
      ensures t.Refused? ==> now == old(now)
      ensures t.Ask? <==> id in now.calls
      ensures t.Ask? ==> now.calls[id] == Submitting(sub) && now.log == old(now).log + [Asked(Key(sub))]
    {
      LastHanded(states, events, |events|);
      KeysHanded(states, events, |events|);
      if Key(sub) in byKey {
        t := Known(byKey[Key(sub)]);
      } else if sub.missionId in holders && Stale(holders[sub.missionId], sub.owner) {
        t := Refused;
      } else {
        t := Ask;
      }
      Take(SubmitStart(id, sub));
    }

    /** The receipt is recorded under its key; no other key, mission or existing run record changes. */
    method SubmitEnd(ghost id: nat, sub: Submission, externalId: string, token: int)
      requires Valid() && id in now.calls && now.calls[id] == Submitting(sub)
      modifies this
      ensures Valid() && events == old(events) + [SubmitReturn(id, externalId, token)]
      ensures byKey == old(byKey)[Key(sub) := externalId]
      ensures holders == old(holders)[sub.missionId := Owner(sub.owner.ownerId, token)]
      ensures old(records) <= records && externalId in runs && old(|records|) == runs[externalId] < |records|
      ensures forall x :: x != externalId ==> (x in runs <==> x in old(runs)) && (x in runs ==> runs[x] == old(runs)[x])
      ensures var r := records[runs[externalId]]; r.holder == holders[sub.missionId] && r.missionId == sub.missionId
    {
      byKey := byKey[Key(sub) := externalId];
      runs := runs[externalId := |records|];
      records := records + [Run(externalId, sub.missionId, Owner(sub.owner.ownerId, token), 1)];
      holders := holders[sub.missionId := Owner(sub.owner.ownerId, token)];
      Take(SubmitReturn(id, externalId, token));
    }

    /** Exactly a caller behind the run's holder is refused, before anything is asked. */
    method ObserveBegin(ghost id: nat, externalId: string, owner: Owner) returns (run: Option<nat>, stale: bool)
      requires Valid() && id !in now.calls
      modifies this`now, this`states, this`events
      ensures Valid() && events == old(events) + [ObserveStart(id, externalId, owner)]
      ensures run.Some? <==> externalId in runs
      ensures run.Some? ==> run.value < |records| && run.value == runs[externalId]
      ensures run.Some? ==> (stale <==> !MayAct(records[run.value].holder, owner))
      ensures run.None? ==> !stale
      ensures !stale ==> id in now.calls && now.calls[id] == Observing(run)
    {
      run, stale := Check(externalId, owner);
      Take(ObserveStart(id, externalId, owner));
    }

    method CancelBegin(ghost id: nat, externalId: string, owner: Owner) returns (run: Option<nat>, stale: bool)
      requires Valid() && id !in now.calls
      modifies this`now, this`states, this`events
      ensures Valid() && events == old(events) + [CancelStart(id, externalId, owner)]
      ensures run.Some? <==> externalId in runs
      ensures run.Some? ==> run.value < |records| && run.value == runs[externalId]
      ensures run.Some? ==> (stale <==> !MayAct(records[run.value].holder, owner))
      ensures run.None? ==> !stale
      ensures !stale ==> id in now.calls && now.calls[id] == Cancelling(run, owner)
    {
      run, stale := Check(externalId, owner);
      Take(CancelStart(id, externalId, owner));
    }

    method Check(externalId: string, owner: Owner) returns (run: Option<nat>, stale: bool)
      requires Valid()
      ensures run == FindRun(now.core, externalId) && stale == Fenced(now.core, run, owner)
      ensures run.Some? ==> run.value < |records| && (stale <==> !MayAct(records[run.value].holder, owner))
    {
      RunSound(states, events, |events|);
      run := if externalId in runs then Some(runs[externalId]) else None;
      stale := run.Some? && Stale(records[run.value].holder, owner);
    }

    /** The sequence reported for a known run exceeds every one reported for it before; no holder moves. */
    method ObserveEnd(ghost id: nat, run: Option<nat>) returns (sequence: nat)
      requires Valid() && id in now.calls && now.calls[id] == Observing(run)
      modifies this
      ensures Valid() && events == old(events) + [ObserveReturn(id)]
      ensures byKey == old(byKey) && runs == old(runs) && holders == old(holders)
      ensures run.None? ==> sequence == 1 && records == old(records)
      ensures forall i :: 0 <= i < |old(now).log| && SightOf(old(now).log[i], run) ==>
                old(now).log[i].sequence < sequence
      ensures |records| == |old(records)|
      ensures forall n :: 0 <= n < |records| ==> records[n].(sequence := 0) == old(records)[n].(sequence := 0)
    {
      RunSound(states, events, |events|);
      if run.None? {
        sequence := 1;
      } else {
        var r := records[run.value];
        records := records[run.value := r.(sequence := r.sequence + 1)];
        sequence := records[run.value].sequence;
      }
      Take(ObserveReturn(id));
    }

    /** Only a successful cancel of a known run moves a holder: the run's and its mission's, to the caller. */
    method CancelEnd(ghost id: nat, run: Option<nat>, owner: Owner, cancelled: bool)
      requires Valid() && id in now.calls && now.calls[id] == Cancelling(run, owner)
      modifies this
      ensures Valid() && events == old(events) + [CancelReturn(id, cancelled)]
      ensures byKey == old(byKey) && runs == old(runs) && |records| == |old(records)|
      ensures !cancelled || run.None? ==> records == old(records) && holders == old(holders)
      ensures cancelled && run.Some? ==>
                && run.value < |records| && records[run.value] == old(records)[run.value].(holder := owner)
                && holders == old(holders)[records[run.value].missionId := owner]
      ensures forall n :: 0 <= n < |records| && run != Some(n) ==> records[n] == old(records)[n]
    {
      RunSound(states, events, |events|);
      if cancelled && run.Some? {
        var r := records[run.value];
        records := records[run.value := r.(holder := owner)];
        holders := holders[r.missionId := owner];
      }
      Take(CancelReturn(id, cancelled));
    }
  }

  /** A newer owner, or the holder itself. */
  predicate MayAct(holder: Owner, caller: Owner) {
    caller.fencingToken > holder.fencingToken || caller == holder
  }

  predicate SightOf(e: Entry, run: Option<nat>) {
    e.Sighted? && run == Some(e.run)
  }

  predicate HandedFor(e: Entry, key: string) {
    e.Handed? && e.key == key
  }

  /** The recorded keys are exactly those some caller was handed an id for. */
  lemma {:induction false} KeysHanded(ss: seq<State>, es: seq<Event>, n: nat)
    requires IsRun(ss, es) && n < |ss|
    ensures forall k :: k in ss[n].core.byKey <==> exists i :: 0 <= i < |ss[n].log| && HandedFor(ss[n].log[i], k)
    decreases n
  {
    if n > 0 {
      KeysHanded(ss, es, n - 1);
      var e := es[n - 1];
      StepKeysHanded(ss[n - 1], e);
    }
  }

  ghost predicate KeysAre(s: State) {
    forall k :: k in s.core.byKey <==> exists i :: 0 <= i < |s.log| && HandedFor(s.log[i], k)
  }

  lemma StepKeysHanded(s: State, e: Event)
    requires KeysAre(s) && Enabled(s, e)
    ensures KeysAre(Next(s, e))
  {
    var t := Next(s, e);
    forall k
      ensures k in t.core.byKey <==> exists i :: 0 <= i < |t.log| && HandedFor(t.log[i], k)
    {
      if i :| 0 <= i < |s.log| && HandedFor(s.log[i], k) {
        assert HandedFor(t.log[i], k);
      }
      if k in t.core.byKey && k !in s.core.byKey {
        assert HandedFor(t.log[|s.log|], k);
      }
    }
  }

  // ----- which id a key was handed

  /** The last id handed out for the key. */
  ghost predicate HandedLast(log: seq<Entry>, key: string, externalId: string) {
    exists i :: 0 <= i < |log| && HandedAt(log, i, key, externalId)
  }

  ghost predicate HandedAt(log: seq<Entry>, i: nat, key: string, externalId: string)
    requires i < |log|
  {
    && HandedFor(log[i], key) && log[i].externalId == externalId
    && forall j :: i < j < |log| ==> !HandedFor(log[j], key)
  }

  ghost predicate RecordsLast(s: State) {
    forall k :: k in s.core.byKey ==> HandedLast(s.log, k, s.core.byKey[k])
  }

  lemma HandedStays(log: seq<Entry>, e: Entry, key: string, externalId: string)
    requires if HandedFor(e, key) then e.externalId == externalId else HandedLast(log, key, externalId)
    ensures HandedLast(log + [e], key, externalId)
  {
    if HandedFor(e, key) {
      assert HandedAt(log + [e], |log|, key, externalId);
    } else {
      var i :| 0 <= i < |log| && HandedAt(log, i, key, externalId);
      assert HandedAt(log + [e], i, key, externalId);
    }
  }

  lemma StepRecordsLast(s: State, e: Event)
    requires RecordsLast(s) && Enabled(s, e)
    ensures RecordsLast(Next(s, e))
  {
    var t := Next(s, e);
    forall k | k in t.core.byKey
      ensures HandedLast(t.log, k, t.core.byKey[k])
    {
      if t.log != s.log {
        var entry := t.log[|s.log|];
        assert t.log == s.log + [entry];
        HandedStays(s.log, entry, k, t.core.byKey[k]);
      }
    }
  }

  /** The id on record for a key is the last one handed out for it. */
  lemma {:induction false} LastHanded(ss: seq<State>, es: seq<Event>, n: nat)
    requires IsRun(ss, es) && n < |ss|
    ensures RecordsLast(ss[n])
    decreases n
  {
    if n > 0 {
      LastHanded(ss, es, n - 1);
      StepRecordsLast(ss[n - 1], es[n - 1]);
    }
  }

  // ----- a newer owner takes over

  predicate Concerns(e: Event, id: nat) {
    match e
    case SubmitStart(i, _) => i == id
    case SubmitReturn(i, _, _) => i == id
    case ObserveStart(i, _, _) => i == id
    case ObserveReturn(i) => i == id
    case CancelStart(i, _, _) => i == id
    case CancelReturn(i, _) => i == id
    case BackendFailed(i) => i == id
  }

  lemma CallStays(s: State, e: Event, id: nat)
    requires Enabled(s, e) && id in s.calls && !Concerns(e, id)
    ensures id in Next(s, e).calls && Next(s, e).calls[id] == s.calls[id]
  {
  }

  lemma {:induction false} CallWaits(ss: seq<State>, es: seq<Event>, i: nat, j: nat, id: nat)
    requires IsRun(ss, es) && i <= j <= |es| && id in ss[i].calls
    requires forall n {:trigger es[n]} :: i <= n < j ==> !Concerns(es[n], id)
    ensures id in ss[j].calls && ss[j].calls[id] == ss[i].calls[id]
    decreases j
  {
    if i < j {
      CallWaits(ss, es, i, j - 1, id);
      CallStays(ss[j - 1], es[j - 1], id);
    }
  }

  /**
   In every run, a submission under an unrecorded key is asked for exactly when its mission has no holder
   or one that the owner is newer than or equal to; nothing else is refused.
   */
  lemma AskedIff(ss: seq<State>, es: seq<Event>, i: nat, id: nat, sub: Submission)
    requires IsRun(ss, es) && i < |es| && es[i] == SubmitStart(id, sub) && Key(sub) !in ss[i].core.byKey
    ensures var m, h := sub.missionId, ss[i].core.holders;
            if m in h && !MayAct(h[m], sub.owner) then ss[i + 1] == ss[i]
            else
              && id in ss[i + 1].calls && ss[i + 1].calls[id] == Submitting(sub)
              && ss[i + 1].log == ss[i].log + [Asked(Key(sub))]
  {
    if sub.missionId in ss[i].core.holders {
      FencingTotal(ss[i].core.holders[sub.missionId], sub.owner);
    }
  }

  /** When its receipt returns, a newer owner holds the mission, the run and the key. */
  lemma TakesOver(ss: seq<State>, es: seq<Event>, i: nat, j: nat, id: nat, sub: Submission, x: string, token: int)
    requires IsRun(ss, es) && i < j < |es| && es[i] == SubmitStart(id, sub) && Key(sub) !in ss[i].core.byKey
    requires sub.missionId in ss[i].core.holders
    requires ss[i].core.holders[sub.missionId].fencingToken < sub.owner.fencingToken
    requires es[j] == SubmitReturn(id, x, token) && forall n {:trigger es[n]} :: i < n < j ==> !Concerns(es[n], id)
    ensures var c, m := ss[j + 1].core, sub.missionId;
            && m in c.holders && c.holders[m] == Owner(sub.owner.ownerId, token)
            && Key(sub) in c.byKey && c.byKey[Key(sub)] == x
            && x in c.runs && c.runs[x] < |c.records| && c.records[c.runs[x]].holder == c.holders[m]
  {
    AskedIff(ss, es, i, id, sub);
    CallWaits(ss, es, i + 1, j, id);
    assert ss[j + 1] == Next(ss[j], es[j]);
  }

  /** An observation or a cancel is refused exactly when its run is known and its owner may not act on it. */
  lemma PassesIff(ss: seq<State>, es: seq<Event>, i: nat, id: nat, x: string, owner: Owner)
    requires IsRun(ss, es) && i < |es| && (es[i] == ObserveStart(id, x, owner) || es[i] == CancelStart(id, x, owner))
    ensures var c := ss[i].core;
            if x in c.runs && c.runs[x] < |c.records| && !MayAct(c.records[c.runs[x]].holder, owner)
            then ss[i + 1] == ss[i]
            else id in ss[i + 1].calls && ss[i + 1].calls == ss[i].calls[id := ss[i + 1].calls[id]]
  {
    var c := ss[i].core;
    if x in c.runs && c.runs[x] < |c.records| {
      FencingTotal(c.records[c.runs[x]].holder, owner);
    }
  }
}
