/**
 The report counts a week's cuts per provider in a plain object, on which some names are taken: exactly
 when the object says what the report means.
 */
module ProviderTable {
  import opened Common
  import opened Ledger
  import opened SessionReport

  /** The members of `Object.prototype` in ECMA-262, its annex B included. */
  const INHERITED := {
    "constructor", "hasOwnProperty", "isPrototypeOf", "propertyIsEnumerable", "toLocaleString", "toString", "valueOf",
    "__proto__", "__defineGetter__", "__defineSetter__", "__lookupGetter__", "__lookupSetter__"}

  /** An own property: a number, or the text that adding one to an inherited member gives. */
  datatype Property = Number(n: nat) | Text

  /** `table[p] = (table[p] ?? 0) + 1`; assigning text to `__proto__` creates nothing. */
  function Bump(table: map<string, Property>, p: string): map<string, Property> {
    if p in table then table[p := if table[p].Number? then Number(table[p].n + 1) else Text]
    else if p == "__proto__" then table
    else table[p := if p in INHERITED then Text else Number(1)]
  }

  function Table(providers: seq<string>): map<string, Property> {
    if providers == [] then map[] else Bump(Table(providers[..|providers| - 1]), providers[|providers| - 1])
  }

  lemma {:induction false} TableIs(providers: seq<string>)
    ensures var t := Table(providers);
            && (forall p :: p in t <==> p in providers && p != "__proto__")
            && forall p :: p in t ==> t[p] == if p in INHERITED then Text else Number(multiset(providers)[p])
    decreases |providers|
  {
    if providers != [] {
      var n := |providers| - 1;
      TableIs(providers[..n]);
      assert providers == providers[..n] + [providers[n]];
    }
  }

  // ----- the cuts of one week in the order in which they are counted

  function CutsIn(events: seq<Event>, week: int, n: nat): seq<string>
    requires n <= |events|
  {
    if n == 0 then []
    else if MondayOf(events[n - 1].at) == week && CutAt(events, n - 1)
    then CutsIn(events, week, n - 1) + [Provider(events[n - 1])]
    else CutsIn(events, week, n - 1)
  }

  function WeekCuts(sessions: seq<Session>, week: int): seq<string> {
    if sessions == [] then []
    else
      var n := |sessions| - 1;
      WeekCuts(sessions[..n], week) + CutsIn(sessions[n].events, week, |sessions[n].events|)
  }

  /** The providers in the first `n` entries of a book that belong to a week. */
  function Gathered(b: Book<int, Stats>, week: int, n: nat): multiset<string> {
    if n == 0 then multiset{}
    else if b.week(n - 1) == week then Gathered(b, week, n - 1) + b.entry(n - 1).cuts.byProvider
    else Gathered(b, week, n - 1)
  }

  lemma {:induction false} TotalGathers(b: Book<int, Stats>, week: int, n: nat)
    ensures Total(b, week, n, Add, BLANK).cuts.byProvider == Gathered(b, week, n)
    decreases n
  {
    if n > 0 {
      TotalGathers(b, week, n - 1);
    }
  }

  /** The book enters each cut's provider in the week of its message, and no other. */
  ghost predicate Records(b: Book<int, Stats>, events: seq<Event>, i: nat) {
    i < |events| ==>
      && b.week(i) == MondayOf(events[i].at)
      && b.entry(i).cuts.byProvider == if CutAt(events, i) then multiset{Provider(events[i])} else multiset{}
  }

  lemma BookRecords(events: seq<Event>, now: int, i: nat)
    ensures Records(BookOf(events, now), events, i)
  {
  }

  lemma {:induction false} CutsGathered(b: Book<int, Stats>, events: seq<Event>, week: int, n: nat)
    requires n <= |events| && forall i: nat :: Records(b, events, i)
    ensures Gathered(b, week, n) == multiset(CutsIn(events, week, n))
    decreases n
  {
    if n > 0 {
      CutsGathered(b, events, week, n - 1);
      assert Records(b, events, n - 1);
    }
  }

  lemma {:induction false} CutsUntouched(events: seq<Event>, now: int, week: int, n: nat)
    requires n <= |events| && week !in Touched(BookOf(events, now), n)
    ensures CutsIn(events, week, n) == []
    decreases n
  {
    if n > 0 {
      TouchedNext(BookOf(events, now), n - 1);
      CutsUntouched(events, now, week, n - 1);
    }
  }

  lemma CutsGained(s: Session, week: int)
    ensures Gain(BookOf(s.events, s.readAt), week, |s.events|, AddSession, Add, BLANK).cuts.byProvider
            == multiset(CutsIn(s.events, week, |s.events|))
  {
    TotalGathers(BookOf(s.events, s.readAt), week, |s.events|);
    forall i: nat
      ensures Records(BookOf(s.events, s.readAt), s.events, i)
    {
      BookRecords(s.events, s.readAt, i);
    }
    CutsGathered(BookOf(s.events, s.readAt), s.events, week, |s.events|);
    if week !in Touched(BookOf(s.events, s.readAt), |s.events|) {
      CutsUntouched(s.events, s.readAt, week, |s.events|);
    }
  }

  /** What the report holds for a week is what was counted into the object, whatever the order. */
  lemma {:induction false} WeekCutsAre(sessions: seq<Session>, week: int)
    ensures Base(ReportOf(sessions), week, BLANK).cuts.byProvider == multiset(WeekCuts(sessions, week))
    decreases |sessions|
  {
    if sessions != [] {
      var n := |sessions| - 1;
      var s := sessions[n];
      WeekCutsAre(sessions[..n], week);
      CutsGained(s, week);
      StatsAdd();
      SessionBumps();
      EnteredIs(ReportOf(sessions[..n]), BookOf(s.events, s.readAt), |s.events|, AddSession, week, Add, BLANK);
    }
  }

  /** The object holds exactly the providers with their numbers of cuts. */
  ghost predicate Says(table: map<string, Property>, counts: multiset<string>) {
    (forall p :: p in table <==> p in counts) && forall p :: p in table ==> table[p] == Number(counts[p])
  }

  /**
   In every week of every report, the object says how many cuts each provider had if and only if no
   provider cut in that week is named like a member every object inherits.
   */
  lemma ProvidersCountedIff(sessions: seq<Session>, week: int)
    ensures var counts := Base(ReportOf(sessions), week, BLANK).cuts.byProvider;
            Says(Table(WeekCuts(sessions, week)), counts) <==> forall p :: p in counts ==> p !in INHERITED
  {
    var providers := WeekCuts(sessions, week);
    WeekCutsAre(sessions, week);
    TableIs(providers);
    SaysIff(Table(providers), multiset(providers));
  }

  lemma SaysIff(t: map<string, Property>, counts: multiset<string>)
    requires forall p :: p in t <==> p in counts && p != "__proto__"
    requires forall p :: p in t ==> t[p] == if p in INHERITED then Text else Number(counts[p])
    ensures Says(t, counts) <==> forall p :: p in counts ==> p !in INHERITED
  {
    if Says(t, counts) {
      forall p | p in counts
        ensures p !in INHERITED
      {
        assert p in t;
      }
    } else if p :| p in counts && p !in t {
      assert p in INHERITED;
    }
  }
}
