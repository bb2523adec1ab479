/**
 Fenced, idempotent dispatch to an external mission runner.

 Every call of the adapter is two atomic sections around one awaited backend call, so calls overlap:
 the machine below lets any number of them be in flight at once.
 */
module Fencing {
  import opened Common

  datatype Owner = Owner(ownerId: string, fencingToken: int)

  predicate Stale(holder: Owner, caller: Owner) {
    if caller.fencingToken != holder.fencingToken then caller.fencingToken < holder.fencingToken
    else caller.ownerId != holder.ownerId
  }

  /** Not being stale orders owners: reflexive, antisymmetric, transitive, and one owner per token. */
  lemma FencingOrder(a: Owner, b: Owner, c: Owner)
    ensures !Stale(a, a)
    ensures !Stale(a, b) && !Stale(b, a) ==> a == b
    ensures !Stale(a, b) && !Stale(b, c) ==> !Stale(a, c)
    ensures !Stale(a, b) && a.fencingToken == b.fencingToken ==> a == b
  {
  }

  /** Of two owners with different tokens exactly the lower one is stale; a newer owner never is. */
  lemma FencingTotal(a: Owner, b: Owner)
    ensures a.fencingToken != b.fencingToken ==> (Stale(a, b) <==> !Stale(b, a))
    ensures a.fencingToken < b.fencingToken ==> !Stale(a, b)
    ensures a.fencingToken == b.fencingToken ==> (Stale(a, b) <==> a.ownerId != b.ownerId)
  {
  }

  datatype Submission = Submission(missionId: string, idempotencyKey: string, owner: Owner)

  function Key(sub: Submission): string {
    sub.missionId + ":" + sub.idempotencyKey
  }

  datatype Run = Run(externalId: string, missionId: string, holder: Owner, sequence: nat)

  /** The adapter's maps; `runs` names a run record by its place in `records`, which calls in flight keep. */
  datatype Core = Core(
    byKey: map<string, string>, runs: map<string, nat>, records: seq<Run>, holders: map<string, Owner>)

  /** The mission has a holder the owner is behind. */
  predicate Behind(c: Core, m: string, owner: Owner) {
    m in c.holders && Stale(c.holders[m], owner)
  }

  datatype Triage = Known(externalId: string) | Refused | Ask

  function TriageSubmission(c: Core, sub: Submission): Triage {
    if Key(sub) in c.byKey then Known(c.byKey[Key(sub)])
    else if Behind(c, sub.missionId, sub.owner) then Refused
    else Ask
  }

  function Registered(c: Core, sub: Submission, externalId: string, token: int): Core {
    var holder := Owner(sub.owner.ownerId, token);
    Core(c.byKey[Key(sub) := externalId], c.runs[externalId := |c.records|],
         c.records + [Run(externalId, sub.missionId, holder, 1)], c.holders[sub.missionId := holder])
  }

  function FindRun(c: Core, externalId: string): Option<nat> {
    if externalId in c.runs then Some(c.runs[externalId]) else None
  }

  predicate Fenced(c: Core, run: Option<nat>, owner: Owner) {
    run.Some? && run.value < |c.records| && Stale(c.records[run.value].holder, owner)
  }

  function Observed(c: Core, run: nat): Core
    requires run < |c.records|
  {
    var r := c.records[run];
    c.(records := c.records[run := r.(sequence := r.sequence + 1)])
  }

  function Cancelled(c: Core, run: nat, owner: Owner): Core
    requires run < |c.records|
  {
    var r := c.records[run];
    c.(records := c.records[run := r.(holder := owner)], holders := c.holders[r.missionId := owner])
  }

  // ----- runs of overlapping calls

  datatype Call =
    | Submitting(sub: Submission)
    | Observing(run: Option<nat>)
    | Cancelling(run: Option<nat>, owner: Owner)

  datatype Event =
    | SubmitStart(id: nat, sub: Submission)
    | SubmitReturn(id: nat, externalId: string, token: int)
    | ObserveStart(id: nat, externalId: string, owner: Owner)
    | ObserveReturn(id: nat)
    | CancelStart(id: nat, externalId: string, owner: Owner)
    | CancelReturn(id: nat, cancelled: bool)
    | BackendFailed(id: nat)

  /** What callers and the backend have seen, in order. */
  datatype Entry =
    | Asked(key: string)                                // the backend was asked to start work
    | Handed(key: string, externalId: string, started: bool)
    | Sighted(run: nat, sequence: nat)

  datatype State = State(core: Core, calls: map<nat, Call>, log: seq<Entry>)

  const INITIAL := State(Core(map[], map[], [], map[]), map[], [])

  predicate Enabled(s: State, e: Event) {
    match e
    case SubmitStart(id, _) => id !in s.calls
    case ObserveStart(id, _, _) => id !in s.calls
    case CancelStart(id, _, _) => id !in s.calls
    case SubmitReturn(id, _, _) => id in s.calls && s.calls[id].Submitting?
    case ObserveReturn(id) => id in s.calls && s.calls[id].Observing? && Held(s, s.calls[id].run)
    case CancelReturn(id, _) => id in s.calls && s.calls[id].Cancelling? && Held(s, s.calls[id].run)
    case BackendFailed(id) => id in s.calls
  }

  predicate Held(s: State, run: Option<nat>) {
    run.Some? ==> run.value < |s.core.records|
  }

  function Next(s: State, e: Event): State
    requires Enabled(s, e)
  {
    match e
    case SubmitStart(id, sub) => StartSubmit(s, id, sub)
    case SubmitReturn(id, externalId, token) =>
      var sub := s.calls[id].sub;
      State(Registered(s.core, sub, externalId, token), s.calls - {id}, s.log + [Handed(Key(sub), externalId, true)])
    case ObserveStart(id, externalId, owner) =>
      var run := FindRun(s.core, externalId);
      if Fenced(s.core, run, owner) then s else s.(calls := s.calls[id := Observing(run)])
    case ObserveReturn(id) => EndObserve(s, id, s.calls[id].run)
    case CancelStart(id, externalId, owner) =>
      var run := FindRun(s.core, externalId);
      if Fenced(s.core, run, owner) then s else s.(calls := s.calls[id := Cancelling(run, owner)])
    case CancelReturn(id, cancelled) =>
      var call := s.calls[id];
      State(if cancelled && call.run.Some? then Cancelled(s.core, call.run.value, call.owner) else s.core,
            s.calls - {id}, s.log)
    case BackendFailed(id) => s.(calls := s.calls - {id})
  }

  function StartSubmit(s: State, id: nat, sub: Submission): State {
    match TriageSubmission(s.core, sub)
    case Known(externalId) => s.(log := s.log + [Handed(Key(sub), externalId, false)])
    case Refused => s
    case Ask => s.(calls := s.calls[id := Submitting(sub)], log := s.log + [Asked(Key(sub))])
  }

  function EndObserve(s: State, id: nat, run: Option<nat>): State
    requires Held(s, run)
  {
    if run.None? then s.(calls := s.calls - {id})
    else
      var core := Observed(s.core, run.value);
      State(core, s.calls - {id}, s.log + [Sighted(run.value, core.records[run.value].sequence)])
  }

  ghost predicate IsRun(ss: seq<State>, es: seq<Event>) {
    |ss| == |es| + 1 && ss[0] == INITIAL
    && forall i {:trigger es[i]} :: 0 <= i < |es| ==> Enabled(ss[i], es[i]) && ss[i + 1] == Next(ss[i], es[i])
  }

  // ----- what any overlap keeps

  predicate Sound(s: State) {
    (forall x :: x in s.core.runs ==> s.core.runs[x] < |s.core.records|)
    && (forall x :: x in s.calls && !s.calls[x].Submitting? ==> Held(s, s.calls[x].run))
    && (forall i :: 0 <= i < |s.log| ==> LogSound(s.core, s.log[i]))
  }

  predicate LogSound(c: Core, e: Entry) {
    match e
    case Asked(_) => true
    case Handed(key, _, _) => key in c.byKey
    case Sighted(run, sequence) => run < |c.records| && sequence <= c.records[run].sequence
  }

  /** Keys and run records are never lost, and a record's sequence never goes back. */
  predicate Grows(a: Core, b: Core) {
    a.byKey.Keys <= b.byKey.Keys && |a.records| <= |b.records|
    && forall i :: 0 <= i < |a.records| ==> a.records[i].sequence <= b.records[i].sequence
  }

  lemma StepGrows(s: State, e: Event)
    requires Enabled(s, e)
    ensures Grows(s.core, Next(s, e).core)
  {
  }

  lemma StepSound(s: State, e: Event)
    requires Sound(s) && Enabled(s, e)
    ensures Sound(Next(s, e))
  {
    StepGrows(s, e);
    var t := Next(s, e);
    forall i | 0 <= i < |t.log|
      ensures LogSound(t.core, t.log[i])
    {
      if i < |s.log| {
        assert LogSound(s.core, s.log[i]);
      }
    }
  }

  /** Observing moves no holder: not the run's, not the mission's. */
  lemma ObserveMovesNoHolder(s: State, e: Event)
    requires Enabled(s, e) && (e.ObserveStart? || e.ObserveReturn?)
    ensures var t := Next(s, e);
            t.core.holders == s.core.holders && |t.core.records| == |s.core.records|
            && forall i :: 0 <= i < |s.core.records| ==> t.core.records[i].holder == s.core.records[i].holder
  {
  }

  /** Later entries neither ask again for a key that was handed out, nor repeat a sequence number. */
  predicate Ordered(e: Entry, later: Entry) {
    match (e, later)
    case (Handed(key, _, _), Asked(again)) => key != again
    case (Sighted(run, n), Sighted(run', n')) => run == run' ==> n < n'
    case _ => true
  }

  predicate LogOrdered(log: seq<Entry>) {
    forall i, j :: 0 <= i < j < |log| ==> Ordered(log[i], log[j])
  }

  lemma StepOrdered(s: State, e: Event)
    requires Sound(s) && LogOrdered(s.log) && Enabled(s, e)
    ensures LogOrdered(Next(s, e).log)
  {
    var log := Next(s, e).log;
    forall i, j | 0 <= i < j < |log|
      ensures Ordered(log[i], log[j])
    {
      assert i < |s.log| && LogSound(s.core, s.log[i]);
    }
  }

  lemma {:induction false} RunSound(ss: seq<State>, es: seq<Event>, n: nat)
    requires IsRun(ss, es) && n < |ss|
    ensures Sound(ss[n]) && LogOrdered(ss[n].log)
    decreases n
  {
    if n > 0 {
      RunSound(ss, es, n - 1);
      var e := es[n - 1];
      StepSound(ss[n - 1], e);
      StepOrdered(ss[n - 1], e);
    }
  }

  /**
   However calls overlap: once a key has been handed out the backend is never asked for it again, and the
   observations of a registered run carry strictly increasing sequence numbers.
   */
  lemma RedeliveryAndSequence(ss: seq<State>, es: seq<Event>, n: nat, i: nat, j: nat)
    requires IsRun(ss, es) && n < |ss| && i < j < |ss[n].log|
    ensures var a, b := ss[n].log[i], ss[n].log[j];
            (a.Handed? && b.Asked? ==> a.key != b.key)
            && (a.Sighted? && b.Sighted? && a.run == b.run ==> a.sequence < b.sequence)
  {
    RunSound(ss, es, n);
    assert Ordered(ss[n].log[i], ss[n].log[j]);
  }

  // ----- when writes do not overlap on one mission

  /** The mission a call in flight is about to write. */
  function Writes(c: Core, call: Call): Option<string> {
    match call
    case Submitting(sub) => Some(sub.missionId)
    case Cancelling(Some(run), _) => if run < |c.records| then Some(c.records[run].missionId) else None
    case _ => None
  }

  /** No call in flight writes the mission or delivers the key. */
  predicate Free(s: State, mission: string, key: Option<string>) {
    forall x :: x in s.calls ==>
      Writes(s.core, s.calls[x]) != Some(mission) && (s.calls[x].Submitting? ==> Some(Key(s.calls[x].sub)) != key)
  }

  /**
   Callers write a mission one at a time, and the backend names missions injectively and issues tokens no
   lower than the submitter's.
   */
  predicate Disciplined(s: State, e: Event, name: string -> string)
    requires Enabled(s, e)
  {
    match e
    case SubmitStart(_, sub) => Free(s, sub.missionId, Some(Key(sub)))
    case CancelStart(_, externalId, _) =>
      externalId in s.core.runs && s.core.runs[externalId] < |s.core.records|
      ==> Free(s, s.core.records[s.core.runs[externalId]].missionId, None)
    case SubmitReturn(id, externalId, token) =>
      externalId == name(s.calls[id].sub.missionId) && token >= s.calls[id].sub.owner.fencingToken
    case _ => true
  }

  ghost predicate Injective(name: string -> string) {
    forall a, b :: name(a) == name(b) ==> a == b
  }

  ghost predicate IsDisciplinedRun(ss: seq<State>, es: seq<Event>, name: string -> string) {
    IsRun(ss, es) && Injective(name)
    && forall i {:trigger es[i]} :: 0 <= i < |es| ==> Disciplined(ss[i], es[i], name)
  }

  /** The record of a mission's current run. */
  predicate Current(c: Core, mission: string, name: string -> string) {
    name(mission) in c.runs && c.runs[name(mission)] < |c.records|
    && var r := c.records[c.runs[name(mission)]];
       r.missionId == mission && mission in c.holders && r.holder == c.holders[mission]
  }

  predicate RecordsNamed(c: Core, name: string -> string) {
    forall i :: 0 <= i < |c.records| ==> c.records[i].externalId == name(c.records[i].missionId)
  }

  /** The run's record is that of its mission's current run. */
  predicate RunCurrent(c: Core, x: string, name: string -> string)
    requires x in c.runs
  {
    c.runs[x] < |c.records| && c.records[c.runs[x]].externalId == x && Current(c, c.records[c.runs[x]].missionId, name)
  }

  predicate RunsCurrent(c: Core, name: string -> string) {
    (forall x :: x in c.runs ==> RunCurrent(c, x, name)) && (forall m :: m in c.holders ==> Current(c, m, name))
  }

  /** A write in flight passed its fencing check against the holder that is still there. */
  predicate CallAhead(c: Core, call: Call) {
    match call
    case Submitting(sub) =>
      Key(sub) !in c.byKey && (sub.missionId in c.holders ==> !Stale(c.holders[sub.missionId], sub.owner))
    case Cancelling(Some(run), owner) =>
      run < |c.records| && var r := c.records[run];
      !Stale(r.holder, owner) && r.externalId in c.runs && c.runs[r.externalId] == run
    case _ => true
  }

  /** Two calls in flight write different missions and deliver different keys. */
  predicate Apart(c: Core, a: Call, b: Call) {
    (Writes(c, a).Some? ==> Writes(c, a) != Writes(c, b))
    && (a.Submitting? && b.Submitting? ==> Key(a.sub) != Key(b.sub))
  }

  predicate CallsApart(s: State) {
    forall x, y :: x in s.calls && y in s.calls && x != y ==> Apart(s.core, s.calls[x], s.calls[y])
  }

  predicate CallsAhead(s: State) {
    forall x :: x in s.calls ==> CallAhead(s.core, s.calls[x])
  }

  ghost predicate Inv(s: State, name: string -> string) {
    Sound(s) && RecordsNamed(s.core, name) && RunsCurrent(s.core, name) && CallsApart(s) && CallsAhead(s)
  }

  /** No mission's holder goes back. */
  predicate HoldersAdvance(a: Core, b: Core) {
    forall m :: m in a.holders ==> m in b.holders && !Stale(a.holders[m], b.holders[m])
  }

  ghost predicate CoreInv(c: Core, name: string -> string) {
    RecordsNamed(c, name) && RunsCurrent(c, name)
  }

  // The core after each write

  lemma RegisteredCore(c: Core, sub: Submission, token: int, name: string -> string)
    requires CoreInv(c, name) && Injective(name)
    ensures CoreInv(Registered(c, sub, name(sub.missionId), token), name)
  {
    var d := Registered(c, sub, name(sub.missionId), token);
    forall m | m in d.holders
      ensures Current(d, m, name)
    {
      RegisteredCurrent(c, sub, token, m, name);
    }
    forall x | x in d.runs
      ensures RunCurrent(d, x, name)
    {
      RegisteredRun(c, sub, token, x, name);
    }
  }

  lemma RegisteredRun(c: Core, sub: Submission, token: int, x: string, name: string -> string)
    requires Injective(name) && (x == name(sub.missionId) || (x in c.runs && RunCurrent(c, x, name)))
    ensures RunCurrent(Registered(c, sub, name(sub.missionId), token), x, name)
  {
    RegisteredCurrent(c, sub, token, sub.missionId, name);
    if x != name(sub.missionId) {
      RegisteredCurrent(c, sub, token, c.records[c.runs[x]].missionId, name);
    }
  }

  lemma RegisteredCurrent(c: Core, sub: Submission, token: int, m: string, name: string -> string)
    requires Injective(name) && (m == sub.missionId || Current(c, m, name))
    ensures Current(Registered(c, sub, name(sub.missionId), token), m, name)
  {
  }

  lemma CancelledCore(c: Core, run: nat, owner: Owner, name: string -> string)
    requires CoreInv(c, name) && run < |c.records| && Current(c, c.records[run].missionId, name)
    requires c.runs[name(c.records[run].missionId)] == run
    ensures CoreInv(Cancelled(c, run, owner), name)
  {
    var d := Cancelled(c, run, owner);
    assert d.holders.Keys == c.holders.Keys;
    forall m | Current(c, m, name)
      ensures Current(d, m, name)
    {
      CancelledCurrent(c, run, owner, m, name);
    }
    RecordsKept(c, d, name);
  }

  /** Records that keep their names, and missions that stay current. */
  lemma RecordsKept(c: Core, d: Core, name: string -> string)
    requires CoreInv(c, name) && d.runs == c.runs && d.holders.Keys == c.holders.Keys && |d.records| == |c.records|
    requires forall i :: 0 <= i < |c.records| ==>
               d.records[i].externalId == c.records[i].externalId && d.records[i].missionId == c.records[i].missionId
    requires forall m :: Current(c, m, name) ==> Current(d, m, name)
    ensures CoreInv(d, name)
  {
  }

  lemma CancelledCurrent(c: Core, run: nat, owner: Owner, m: string, name: string -> string)
    requires run < |c.records| && Current(c, c.records[run].missionId, name) && Current(c, m, name)
    requires c.runs[name(c.records[run].missionId)] == run
    ensures Current(Cancelled(c, run, owner), m, name)
  {
  }

  lemma ObservedCore(c: Core, run: nat, name: string -> string)
    requires CoreInv(c, name) && run < |c.records|
    ensures CoreInv(Observed(c, run), name)
  {
    var d := Observed(c, run);
    forall m | Current(c, m, name)
      ensures Current(d, m, name)
    {
    }
    RecordsKept(c, d, name);
  }

  // The calls in flight after each write

  lemma RegisteredAhead(c: Core, sub: Submission, x: string, token: int, call: Call, name: string -> string)
    requires RecordsNamed(c, name) && Injective(name) && x == name(sub.missionId)
    requires CallAhead(c, call) && Apart(c, Submitting(sub), call)
    ensures CallAhead(Registered(c, sub, x, token), call)
    ensures Writes(Registered(c, sub, x, token), call) == Writes(c, call)
  {
  }

  lemma CancelledAhead(c: Core, run: nat, owner: Owner, call: Call)
    requires run < |c.records| && CallAhead(c, call) && Apart(c, Cancelling(Some(run), owner), call)
    ensures CallAhead(Cancelled(c, run, owner), call) && Writes(Cancelled(c, run, owner), call) == Writes(c, call)
  {
  }

  lemma ObservedAhead(c: Core, run: nat, call: Call)
    requires run < |c.records| && CallAhead(c, call)
    ensures CallAhead(Observed(c, run), call) && Writes(Observed(c, run), call) == Writes(c, call)
  {
  }

  /** Fewer calls in flight, each still ahead and writing the same mission. */
  lemma CallsRemain(s: State, t: State)
    requires CallsApart(s) && t.calls.Keys <= s.calls.Keys
    requires forall x :: x in t.calls ==>
               && t.calls[x] == s.calls[x] && CallAhead(t.core, t.calls[x])
               && Writes(t.core, t.calls[x]) == Writes(s.core, t.calls[x])
    ensures CallsApart(t) && CallsAhead(t)
  {
    forall x, y | x in t.calls && y in t.calls && x != y
      ensures Apart(t.core, t.calls[x], t.calls[y])
    {
      assert Apart(s.core, s.calls[x], s.calls[y]);
    }
  }

  lemma SubmitReturnInv(s: State, id: nat, externalId: string, token: int, name: string -> string)
    requires var e := SubmitReturn(id, externalId, token);
             Inv(s, name) && Injective(name) && Enabled(s, e) && Disciplined(s, e, name)
    ensures var t := Next(s, SubmitReturn(id, externalId, token));
            CoreInv(t.core, name) && CallsApart(t) && CallsAhead(t) && HoldersAdvance(s.core, t.core)
  {
    var t, sub := Next(s, SubmitReturn(id, externalId, token)), s.calls[id].sub;
    RegisteredCore(s.core, sub, token, name);
    forall x | x in t.calls
      ensures CallAhead(t.core, t.calls[x]) && Writes(t.core, t.calls[x]) == Writes(s.core, t.calls[x])
    {
      assert Apart(s.core, s.calls[id], s.calls[x]);
      RegisteredAhead(s.core, sub, externalId, token, s.calls[x], name);
    }
    CallsRemain(s, t);
    assert CallAhead(s.core, s.calls[id]);
  }

  lemma CancelMovesCore(c: Core, run: nat, owner: Owner, name: string -> string)
    requires CoreInv(c, name) && CallAhead(c, Cancelling(Some(run), owner))
    ensures CoreInv(Cancelled(c, run, owner), name) && HoldersAdvance(c, Cancelled(c, run, owner))
  {
    assert Current(c, c.records[run].missionId, name);
    CancelledCore(c, run, owner, name);
    CancelAdvances(c, run, owner, name);
  }

  lemma CancelAdvances(c: Core, run: nat, owner: Owner, name: string -> string)
    requires run < |c.records| && !Stale(c.records[run].holder, owner)
    requires Current(c, c.records[run].missionId, name) && c.runs[name(c.records[run].missionId)] == run
    ensures HoldersAdvance(c, Cancelled(c, run, owner))
  {
  }

  lemma CancelKeepsCalls(s: State, id: nat)
    requires CallsApart(s) && CallsAhead(s) && Enabled(s, CancelReturn(id, true)) && s.calls[id].run.Some?
    ensures var t := Next(s, CancelReturn(id, true)); CallsApart(t) && CallsAhead(t)
  {
    var t, call := Next(s, CancelReturn(id, true)), s.calls[id];
    forall x | x in t.calls
      ensures CallAhead(t.core, t.calls[x]) && Writes(t.core, t.calls[x]) == Writes(s.core, t.calls[x])
    {
      assert Apart(s.core, s.calls[id], s.calls[x]);
      CancelledAhead(s.core, call.run.value, call.owner, s.calls[x]);
    }
    CallsRemain(s, t);
  }

  lemma CancelReturnInv(s: State, id: nat, cancelled: bool, name: string -> string)
    requires Inv(s, name) && Enabled(s, CancelReturn(id, cancelled))
    ensures var t := Next(s, CancelReturn(id, cancelled));
            CoreInv(t.core, name) && CallsApart(t) && CallsAhead(t) && HoldersAdvance(s.core, t.core)
  {
    var call := s.calls[id];
    if cancelled && call.run.Some? {
      assert CallAhead(s.core, call);
      CancelMovesCore(s.core, call.run.value, call.owner, name);
      CancelKeepsCalls(s, id);
    } else {
      CallsRemain(s, Next(s, CancelReturn(id, cancelled)));
    }
  }

  lemma ObserveReturnInv(s: State, id: nat, name: string -> string)
    requires Inv(s, name) && Enabled(s, ObserveReturn(id))
    ensures var t := Next(s, ObserveReturn(id));
            CoreInv(t.core, name) && CallsApart(t) && CallsAhead(t) && HoldersAdvance(s.core, t.core)
  {
    var t, run := Next(s, ObserveReturn(id)), s.calls[id].run;
    if run.Some? {
      ObservedCore(s.core, run.value, name);
      forall x | x in t.calls
        ensures CallAhead(t.core, t.calls[x]) && Writes(t.core, t.calls[x]) == Writes(s.core, t.calls[x])
      {
        ObservedAhead(s.core, run.value, s.calls[x]);
      }
    }
    CallsRemain(s, t);
  }

  /** A new call that is ahead and whose mission and key are free. */
  lemma CallJoins(s: State, id: nat, call: Call)
    requires CallsApart(s) && CallsAhead(s) && id !in s.calls && CallAhead(s.core, call)
    requires Writes(s.core, call).Some? ==>
               Free(s, Writes(s.core, call).value, if call.Submitting? then Some(Key(call.sub)) else None)
    ensures var t := s.(calls := s.calls[id := call]); CallsApart(t) && CallsAhead(t)
  {
  }

  lemma StartInv(s: State, e: Event, name: string -> string)
    requires Inv(s, name) && Enabled(s, e) && Disciplined(s, e, name)
    requires e.SubmitStart? || e.ObserveStart? || e.CancelStart?
    ensures var t := Next(s, e); t.core == s.core && CallsApart(t) && CallsAhead(t)
  {
    match e
    case SubmitStart(id, sub) =>
      if TriageSubmission(s.core, sub) == Ask {
        CallJoins(s, id, Submitting(sub));
      }
    case ObserveStart(id, externalId, owner) =>
      CallJoins(s, id, Observing(FindRun(s.core, externalId)));
    case CancelStart(id, externalId, owner) =>
      if !Fenced(s.core, FindRun(s.core, externalId), owner) {
        CallJoins(s, id, Cancelling(FindRun(s.core, externalId), owner));
      }
  }

  lemma StepInv(s: State, e: Event, name: string -> string)
    requires Inv(s, name) && Injective(name) && Enabled(s, e) && Disciplined(s, e, name)
    ensures Inv(Next(s, e), name) && HoldersAdvance(s.core, Next(s, e).core)
  {
    StepSound(s, e);
    match e
    case SubmitReturn(id, externalId, token) => SubmitReturnInv(s, id, externalId, token, name);
    case CancelReturn(id, cancelled) => CancelReturnInv(s, id, cancelled, name);
    case ObserveReturn(id) => ObserveReturnInv(s, id, name);
    case BackendFailed(id) => CallsRemain(s, Next(s, e));
    case _ => StartInv(s, e, name);
  }

  lemma {:induction false} RunInv(ss: seq<State>, es: seq<Event>, name: string -> string, n: nat)
    requires IsDisciplinedRun(ss, es, name) && n < |ss|
    ensures Inv(ss[n], name)
    decreases n
  {
    if n > 0 {
      RunInv(ss, es, name, n - 1);
      var e := es[n - 1];
      StepInv(ss[n - 1], e, name);
    }
  }

  /**
   Over a disciplined run a mission's holder never goes back: its token never decreases, and two owners
   never hold the mission with one token.
   */
  lemma {:induction false} HolderNeverGoesBack(ss: seq<State>, es: seq<Event>, name: string -> string,
                                               i: nat, j: nat, m: string)
    requires IsDisciplinedRun(ss, es, name) && i <= j < |ss| && m in ss[i].core.holders
    ensures m in ss[j].core.holders
    ensures var a, b := ss[i].core.holders[m], ss[j].core.holders[m];
            a.fencingToken <= b.fencingToken && (a.fencingToken == b.fencingToken ==> a.ownerId == b.ownerId)
    decreases j
  {
    if i < j {
      HolderNeverGoesBack(ss, es, name, i, j - 1, m);
      RunInv(ss, es, name, j - 1);
      var e := es[j - 1];
      StepInv(ss[j - 1], e, name);
      assert HoldersAdvance(ss[j - 1].core, ss[j].core);
    }
  }

  // ----- one run per key

  /** Every handle given out for a key is the recorded one, and only the first was a start. */
  predicate Agrees(c: Core, e: Entry) {
    e.Handed? ==> e.key in c.byKey && c.byKey[e.key] == e.externalId
  }

  predicate StartsOnce(log: seq<Entry>) {
    forall i, j :: 0 <= i < j < |log| && log[i].Handed? && log[j].Handed? && log[i].key == log[j].key ==>
      !log[j].started
  }

  predicate OneRunPerKey(s: State) {
    StartsOnce(s.log) && forall i :: 0 <= i < |s.log| ==> Agrees(s.core, s.log[i])
  }

  lemma StepOneRun(s: State, e: Event)
    requires OneRunPerKey(s) && CallsAhead(s) && Enabled(s, e)
    ensures OneRunPerKey(Next(s, e))
  {
    var t := Next(s, e);
    if e.SubmitReturn? {
      assert CallAhead(s.core, s.calls[e.id]);
    }
    forall i | 0 <= i < |t.log|
      ensures Agrees(t.core, t.log[i])
    {
      assert i < |s.log| ==> Agrees(s.core, s.log[i]);
    }
    forall i, j | 0 <= i < j < |t.log| && t.log[i].Handed? && t.log[j].Handed? && t.log[i].key == t.log[j].key
      ensures !t.log[j].started
    {
      assert Agrees(s.core, s.log[i]);
    }
  }

  lemma {:induction false} RunOneRun(ss: seq<State>, es: seq<Event>, name: string -> string, n: nat)
    requires IsDisciplinedRun(ss, es, name) && n < |ss|
    ensures OneRunPerKey(ss[n])
    decreases n
  {
    if n > 0 {
      RunOneRun(ss, es, name, n - 1);
      RunInv(ss, es, name, n - 1);
      var e := es[n - 1];
      StepOneRun(ss[n - 1], e);
    }
  }

  /** Over a disciplined run, all handles given out for a key are equal and at most the first one started work. */
  lemma SameHandle(ss: seq<State>, es: seq<Event>, name: string -> string, n: nat, i: nat, j: nat)
    requires IsDisciplinedRun(ss, es, name) && n < |ss| && i < j < |ss[n].log|
    requires var a, b := ss[n].log[i], ss[n].log[j]; a.Handed? && b.Handed? && a.key == b.key
    ensures var a, b := ss[n].log[i], ss[n].log[j]; a.externalId == b.externalId && !b.started
  {
    RunOneRun(ss, es, name, n);
    assert Agrees(ss[n].core, ss[n].log[i]) && Agrees(ss[n].core, ss[n].log[j]);
  }

  lemma RunExtends(ss: seq<State>, es: seq<Event>, e: Event)
    requires IsRun(ss, es) && Enabled(ss[|es|], e)
    ensures IsRun(ss + [Next(ss[|es|], e)], es + [e])
  {
    var ss', es' := ss + [Next(ss[|es|], e)], es + [e];
    forall i {:trigger es'[i]} | 0 <= i < |es'|
      ensures Enabled(ss'[i], es'[i]) && ss'[i + 1] == Next(ss'[i], es'[i])
    {
      assert i < |es| ==> ss'[i] == ss[i] && ss'[i + 1] == ss[i + 1] && es'[i] == es[i];
    }
  }
}
