/**
 Keeping accounts by week, for any commutative way of adding: what the weekly report's maps of counters
 have in common whatever is counted.
 */
module Ledger {

  ghost predicate Adds<T(!new)>(add: (T, T) -> T, zero: T) {
    (forall a, b {:trigger add(a, b), add(b, a)} :: add(a, b) == add(b, a)) && (forall a :: add(a, zero) == a)
    && (forall a, b, c {:trigger add(add(a, b), c), add(a, add(b, c))} :: add(add(a, b), c) == add(a, add(b, c)))
  }

  /** Bumping is adding something fixed. */
  ghost predicate Bumps<T(!new)>(bump: T -> T, add: (T, T) -> T) {
    forall a, b {:trigger bump(add(a, b))} :: bump(add(a, b)) == add(bump(a), b)
  }

  /** Entries in order, each with its week. */
  datatype Book<K, T> = Book(week: nat -> K, entry: nat -> T)

  function Touched<K(!new), T>(b: Book<K, T>, n: nat): set<K> {
    set i | 0 <= i < n :: b.week(i)
  }

  /** The first `n` entries' contributions to one week. */
  function Total<K(==), T>(b: Book<K, T>, w: K, n: nat, add: (T, T) -> T, zero: T): T {
    if n == 0 then zero
    else if b.week(n - 1) == w then add(Total(b, w, n - 1, add, zero), b.entry(n - 1))
    else Total(b, w, n - 1, add, zero)
  }

  function Base<K, T>(weeks: map<K, T>, week: K, zero: T): T {
    if week in weeks then weeks[week] else zero
  }

  /** The weeks after the first `n` entries were added to them. */
  function Plus<K(!new, ==), T>(weeks: map<K, T>, b: Book<K, T>, n: nat, add: (T, T) -> T, zero: T): map<K, T> {
    map w | w in weeks.Keys + Touched(b, n) :: add(Base(weeks, w, zero), Total(b, w, n, add, zero))
  }

  /** Every week in the set is bumped. */
  function Bumped<K, T>(weeks: map<K, T>, touched: set<K>, bump: T -> T): map<K, T> {
    map w | w in weeks :: if w in touched then bump(weeks[w]) else weeks[w]
  }

  /** A whole book entered: its entries go into their weeks, and every week it touches is bumped. */
  function Entered<K(!new, ==), T>(weeks: map<K, T>, b: Book<K, T>, n: nat, bump: T -> T,
                                   add: (T, T) -> T, zero: T): map<K, T> {
    Bumped(Plus(weeks, b, n, add, zero), Touched(b, n), bump)
  }

  lemma TouchedNext<K(!new), T>(b: Book<K, T>, n: nat)
    ensures Touched(b, n + 1) == Touched(b, n) + {b.week(n)}
  {
  }

  lemma {:induction false} TotalUntouched<K(!new), T>(b: Book<K, T>, w: K, n: nat, add: (T, T) -> T, zero: T)
    requires w !in Touched(b, n)
    ensures Total(b, w, n, add, zero) == zero
    decreases n
  {
    if n > 0 {
      TouchedNext(b, n - 1);
      TotalUntouched(b, w, n - 1, add, zero);
    }
  }

  lemma ZeroAdds<T(!new)>(a: T, add: (T, T) -> T, zero: T)
    requires Adds(add, zero)
    ensures add(zero, a) == a && add(a, zero) == a
  {
    assert add(zero, a) == add(a, zero);
  }

  lemma Regroup<T(!new)>(a: T, b: T, c: T, add: (T, T) -> T, zero: T)
    requires Adds(add, zero)
    ensures add(add(a, b), c) == add(a, add(b, c)) && add(add(a, b), c) == add(add(a, c), b)
  {
    assert add(add(a, c), b) == add(a, add(c, b)) == add(a, add(b, c)) == add(add(a, b), c);
  }

  lemma PlusNone<K(!new), T(!new)>(weeks: map<K, T>, b: Book<K, T>, add: (T, T) -> T, zero: T)
    requires Adds(add, zero)
    ensures Plus(weeks, b, 0, add, zero) == weeks
  {
  }

  /** One more entry goes into its week. */
  lemma PlusNext<K(!new), T(!new)>(weeks: map<K, T>, b: Book<K, T>, n: nat, add: (T, T) -> T, zero: T)
    requires Adds(add, zero)
    ensures var now := Plus(weeks, b, n, add, zero);
            Plus(weeks, b, n + 1, add, zero) == now[b.week(n) := add(Base(now, b.week(n), zero), b.entry(n))]
  {
    var w, now := b.week(n), Plus(weeks, b, n, add, zero);
    TouchedNext(b, n);
    Regroup(Base(weeks, w, zero), Total(b, w, n, add, zero), b.entry(n), add, zero);
    if w !in now {
      TotalUntouched(b, w, n, add, zero);
      ZeroAdds(zero, add, zero);
    }
  }

  // ----- what a book adds to a week

  function Gain<K(!new, ==), T>(b: Book<K, T>, w: K, n: nat, bump: T -> T, add: (T, T) -> T, zero: T): T {
    if w in Touched(b, n) then bump(Total(b, w, n, add, zero)) else zero
  }

  lemma BumpInside<T(!new)>(a: T, b: T, bump: T -> T, add: (T, T) -> T, zero: T)
    requires Adds(add, zero) && Bumps(bump, add)
    ensures bump(add(a, b)) == add(a, bump(b))
  {
    assert bump(add(a, b)) == bump(add(b, a)) == add(bump(b), a) == add(a, bump(b));
  }

  /** Entering a book adds its gain to every week, also to those it does not touch. */
  lemma EnteredIs<K(!new), T(!new)>(weeks: map<K, T>, b: Book<K, T>, n: nat, bump: T -> T, w: K,
                                    add: (T, T) -> T, zero: T)
    requires Adds(add, zero) && Bumps(bump, add)
    ensures Base(Entered(weeks, b, n, bump, add, zero), w, zero)
            == add(Base(weeks, w, zero), Gain(b, w, n, bump, add, zero))
    ensures Entered(weeks, b, n, bump, add, zero).Keys == weeks.Keys + Touched(b, n)
  {
    var base, total := Base(weeks, w, zero), Total(b, w, n, add, zero);
    BumpInside(base, total, bump, add, zero);
    ZeroAdds(base, add, zero);
    if w !in Touched(b, n) {
      TotalUntouched(b, w, n, add, zero);
    }
  }

  /** The order in which two books are entered does not matter. */
  lemma EnteredCommutes<K(!new), T(!new)>(weeks: map<K, T>, b: Book<K, T>, n: nat, c: Book<K, T>, m: nat, bump: T -> T,
                                          add: (T, T) -> T, zero: T)
    requires Adds(add, zero) && Bumps(bump, add)
    ensures Entered(Entered(weeks, b, n, bump, add, zero), c, m, bump, add, zero)
            == Entered(Entered(weeks, c, m, bump, add, zero), b, n, bump, add, zero)
  {
    var p, q := Entered(weeks, b, n, bump, add, zero), Entered(weeks, c, m, bump, add, zero);
    var x, y := Entered(p, c, m, bump, add, zero), Entered(q, b, n, bump, add, zero);
    forall w
      ensures Base(x, w, zero) == Base(y, w, zero)
      ensures w in x.Keys <==> w in y.Keys
    {
      EnteredIs(weeks, b, n, bump, w, add, zero);
      EnteredIs(weeks, c, m, bump, w, add, zero);
      EnteredIs(p, c, m, bump, w, add, zero);
      EnteredIs(q, b, n, bump, w, add, zero);
      Regroup(Base(weeks, w, zero), Gain(b, w, n, bump, add, zero), Gain(c, w, m, bump, add, zero), add, zero);
    }
    SameMap(x, y, zero);
  }

  lemma SameMap<K(!new), T>(x: map<K, T>, y: map<K, T>, zero: T)
    requires forall w :: Base(x, w, zero) == Base(y, w, zero) && (w in x.Keys <==> w in y.Keys)
    ensures x == y
  {
    forall w | w in x
      ensures w in y && x[w] == y[w]
    {
      assert Base(x, w, zero) == Base(y, w, zero);
    }
    assert x.Keys == y.Keys;
  }

  // ----- what holds of every entry holds of every week

  ghost predicate Closed<T(!new)>(p: T -> bool, add: (T, T) -> T) {
    forall a, b {:trigger add(a, b)} :: p(a) && p(b) ==> p(add(a, b))
  }

  lemma {:induction false} TotalKeeps<K(!new), T(!new)>(b: Book<K, T>, w: K, n: nat, p: T -> bool,
                                                        add: (T, T) -> T, zero: T)
    requires Adds(add, zero) && Closed(p, add) && Entries(b, n, p) && w in Touched(b, n)
    ensures p(Total(b, w, n, add, zero))
    decreases n
  {
    TouchedNext(b, n - 1);
    if w in Touched(b, n - 1) {
      TotalKeeps(b, w, n - 1, p, add, zero);
    } else {
      TotalUntouched(b, w, n - 1, add, zero);
      ZeroAdds(b.entry(n - 1), add, zero);
    }
  }

  ghost predicate KeptBy<T(!new)>(p: T -> bool, bump: T -> T) {
    forall a {:trigger bump(a)} :: p(a) ==> p(bump(a))
  }

  ghost predicate All<K(!new), T>(weeks: map<K, T>, p: T -> bool) {
    forall w :: w in weeks ==> p(weeks[w])
  }

  ghost predicate Entries<K, T>(b: Book<K, T>, n: nat, p: T -> bool) {
    forall i :: 0 <= i < n ==> p(b.entry(i))
  }

  lemma EnteredKeeps<K(!new), T(!new)>(weeks: map<K, T>, b: Book<K, T>, n: nat, bump: T -> T, p: T -> bool,
                                       add: (T, T) -> T, zero: T)
    requires Adds(add, zero) && Closed(p, add) && KeptBy(p, bump) && Entries(b, n, p) && All(weeks, p)
    ensures All(Entered(weeks, b, n, bump, add, zero), p)
  {
    forall w | w in weeks.Keys + Touched(b, n)
      ensures p(add(Base(weeks, w, zero), Total(b, w, n, add, zero)))
    {
      if w in Touched(b, n) {
        TotalKeeps(b, w, n, p, add, zero);
        ZeroAdds(Total(b, w, n, add, zero), add, zero);
      } else {
        TotalUntouched(b, w, n, add, zero);
      }
    }
  }

  // ----- sums over weeks

  ghost function Sum<K(!new), T(!new)>(weeks: set<K>, f: K -> T, add: (T, T) -> T, zero: T): T
    decreases |weeks|
  {
    if weeks == {} then zero
    else var w :| w in weeks; add(f(w), Sum(weeks - {w}, f, add, zero))
  }

  lemma Swap<T(!new)>(a: T, b: T, c: T, add: (T, T) -> T, zero: T)
    requires Adds(add, zero)
    ensures add(a, add(b, c)) == add(b, add(a, c))
  {
    assert add(a, add(b, c)) == add(add(a, b), c) == add(add(b, a), c) == add(b, add(a, c));
  }

  /** Any week may be taken out first. */
  lemma {:induction false} SumPick<K(!new), T(!new)>(weeks: set<K>, w: K, f: K -> T, add: (T, T) -> T, zero: T)
    requires Adds(add, zero) && w in weeks
    ensures Sum(weeks, f, add, zero) == add(f(w), Sum(weeks - {w}, f, add, zero))
    decreases |weeks|
  {
    var v :| v in weeks && Sum(weeks, f, add, zero) == add(f(v), Sum(weeks - {v}, f, add, zero));
    if v != w {
      var rest := weeks - {v} - {w};
      assert rest == weeks - {w} - {v};
      SumPick(weeks - {v}, w, f, add, zero);
      SumPick(weeks - {w}, v, f, add, zero);
      Swap(f(v), f(w), Sum(rest, f, add, zero), add, zero);
    }
  }

  lemma {:induction false} SumAdd<K(!new), T(!new)>(weeks: set<K>, f: K -> T, g: K -> T, h: K -> T,
                                                    add: (T, T) -> T, zero: T)
    requires Adds(add, zero) && forall w :: w in weeks ==> h(w) == add(f(w), g(w))
    ensures Sum(weeks, h, add, zero) == add(Sum(weeks, f, add, zero), Sum(weeks, g, add, zero))
    decreases |weeks|
  {
    if weeks == {} {
      assert add(zero, zero) == zero;
    } else {
      var w :| w in weeks;
      var rest := weeks - {w};
      SumAdd(rest, f, g, h, add, zero);
      SumPick(weeks, w, f, add, zero);
      SumPick(weeks, w, g, add, zero);
      SumPick(weeks, w, h, add, zero);
      Shuffle(f(w), g(w), Sum(rest, f, add, zero), Sum(rest, g, add, zero), add, zero);
    }
  }

  lemma Shuffle<T(!new)>(a: T, b: T, c: T, d: T, add: (T, T) -> T, zero: T)
    requires Adds(add, zero)
    ensures add(add(a, b), add(c, d)) == add(add(a, c), add(b, d))
  {
    Swap(b, c, d, add, zero);
    assert add(add(a, b), add(c, d)) == add(a, add(b, add(c, d)));
    assert add(add(a, c), add(b, d)) == add(a, add(c, add(b, d)));
  }

  lemma SumSkip<K(!new), T(!new)>(weeks: set<K>, w: K, f: K -> T, add: (T, T) -> T, zero: T)
    requires Adds(add, zero) && w !in weeks && f(w) == zero
    ensures Sum(weeks + {w}, f, add, zero) == Sum(weeks, f, add, zero)
  {
    SumPick(weeks + {w}, w, f, add, zero);
    assert weeks + {w} - {w} == weeks;
    ZeroAdds(Sum(weeks, f, add, zero), add, zero);
  }

  /** Weeks whose value is zero do not count. */
  lemma {:induction false} SumExtend<K(!new), T(!new)>(weeks: set<K>, more: set<K>, f: K -> T,
                                                       add: (T, T) -> T, zero: T)
    requires Adds(add, zero) && forall w :: w in more - weeks ==> f(w) == zero
    ensures Sum(weeks + more, f, add, zero) == Sum(weeks, f, add, zero)
    decreases |more|
  {
    if more == {} {
      assert weeks + more == weeks;
    } else {
      var w :| w in more;
      var most := weeks + (more - {w});
      SumExtend(weeks, more - {w}, f, add, zero);
      if w in weeks {
        assert weeks + more == most;
      } else {
        assert weeks + more == most + {w};
        SumSkip(most, w, f, add, zero);
      }
    }
  }

  lemma {:induction false} SumZero<K(!new), T(!new)>(weeks: set<K>, f: K -> T, add: (T, T) -> T, zero: T)
    requires Adds(add, zero) && forall w :: w in weeks ==> f(w) == zero
    ensures Sum(weeks, f, add, zero) == zero
    decreases |weeks|
  {
    if weeks != {} {
      var w :| w in weeks;
      SumPick(weeks, w, f, add, zero);
      SumZero(weeks - {w}, f, add, zero);
      ZeroAdds(zero, add, zero);
    }
  }

  /** A value in one week only. */
  lemma SumPoint<K(!new), T(!new)>(weeks: set<K>, week: K, f: K -> T, add: (T, T) -> T, zero: T)
    requires Adds(add, zero) && week in weeks && forall w :: w in weeks && w != week ==> f(w) == zero
    ensures Sum(weeks, f, add, zero) == f(week)
  {
    SumPick(weeks, week, f, add, zero);
    SumZero(weeks - {week}, f, add, zero);
    ZeroAdds(f(week), add, zero);
  }

  // ----- nothing is lost between weeks

  /** All entries, whatever their week. */
  function Grand<K, T>(b: Book<K, T>, n: nat, add: (T, T) -> T, zero: T): T {
    if n == 0 then zero else add(Grand(b, n - 1, add, zero), b.entry(n - 1))
  }

  ghost function Totals<K(!new), T>(b: Book<K, T>, n: nat, add: (T, T) -> T, zero: T): K -> T {
    w => Total(b, w, n, add, zero)
  }

  ghost function At<K(!new), T>(week: K, x: T, zero: T): K -> T {
    w => if w == week then x else zero
  }

  ghost function Bases<K(!new), T>(weeks: map<K, T>, zero: T): K -> T {
    w => Base(weeks, w, zero)
  }

  ghost function BumpOf<K(!new), T>(touched: set<K>, bump: T -> T, zero: T): K -> T {
    w => if w in touched then bump(zero) else zero
  }

  ghost function Gains<K(!new), T>(b: Book<K, T>, n: nat, bump: T -> T, add: (T, T) -> T, zero: T): K -> T {
    w => Gain(b, w, n, bump, add, zero)
  }

  /** The weeks' totals add up to the grand total. */
  lemma {:induction false} GrandIs<K(!new), T(!new)>(b: Book<K, T>, n: nat, weeks: set<K>, add: (T, T) -> T, zero: T)
    requires Adds(add, zero) && Touched(b, n) <= weeks
    ensures Sum(weeks, Totals(b, n, add, zero), add, zero) == Grand(b, n, add, zero)
    decreases n
  {
    if n == 0 {
      SumZero(weeks, Totals(b, 0, add, zero), add, zero);
    } else {
      var week, x := b.week(n - 1), b.entry(n - 1);
      TouchedNext(b, n - 1);
      GrandIs(b, n - 1, weeks, add, zero);
      forall w
        ensures Totals(b, n, add, zero)(w) == add(Totals(b, n - 1, add, zero)(w), At(week, x, zero)(w))
      {
        ZeroAdds(Total(b, w, n - 1, add, zero), add, zero);
      }
      SumAdd(weeks, Totals(b, n - 1, add, zero), At(week, x, zero), Totals(b, n, add, zero), add, zero);
      SumPoint(weeks, week, At(week, x, zero), add, zero);
    }
  }

  /** All weeks together. */
  ghost function Overall<K(!new), T(!new)>(weeks: map<K, T>, add: (T, T) -> T, zero: T): T {
    Sum(weeks.Keys, Bases(weeks, zero), add, zero)
  }

  lemma GainsSum<K(!new), T(!new)>(b: Book<K, T>, n: nat, bump: T -> T, weeks: set<K>, add: (T, T) -> T, zero: T)
    requires Adds(add, zero) && Bumps(bump, add) && Touched(b, n) <= weeks
    ensures Sum(weeks, Gains(b, n, bump, add, zero), add, zero)
            == add(Grand(b, n, add, zero), Sum(weeks, BumpOf(Touched(b, n), bump, zero), add, zero))
  {
    var totals, bumps := Totals(b, n, add, zero), BumpOf(Touched(b, n), bump, zero);
    forall w
      ensures Gains(b, n, bump, add, zero)(w) == add(totals(w), bumps(w))
    {
      ZeroAdds(totals(w), add, zero);
      BumpInside(totals(w), zero, bump, add, zero);
      if w !in Touched(b, n) {
        TotalUntouched(b, w, n, add, zero);
      }
    }
    SumAdd(weeks, totals, bumps, Gains(b, n, bump, add, zero), add, zero);
    GrandIs(b, n, weeks, add, zero);
  }

  /** Entering a book adds its grand total to all weeks together, and one bump for every week it touches. */
  lemma OverallEntered<K(!new), T(!new)>(weeks: map<K, T>, b: Book<K, T>, n: nat, bump: T -> T,
                                         add: (T, T) -> T, zero: T)
    requires Adds(add, zero) && Bumps(bump, add)
    ensures var after := Entered(weeks, b, n, bump, add, zero);
            Overall(after, add, zero)
            == add(Overall(weeks, add, zero),
                   add(Grand(b, n, add, zero), Sum(after.Keys, BumpOf(Touched(b, n), bump, zero), add, zero)))
  {
    var after := Entered(weeks, b, n, bump, add, zero);
    var keys, gains := weeks.Keys + Touched(b, n), Gains(b, n, bump, add, zero);
    forall w
      ensures Bases(after, zero)(w) == add(Bases(weeks, zero)(w), gains(w))
    {
      EnteredIs(weeks, b, n, bump, w, add, zero);
    }
    assert after.Keys == keys;
    SumAdd(keys, Bases(weeks, zero), gains, Bases(after, zero), add, zero);
    SumExtend(weeks.Keys, Touched(b, n), Bases(weeks, zero), add, zero);
    GainsSum(b, n, bump, keys, add, zero);
  }

  lemma {:induction false} SumKeeps<K(!new), T(!new)>(weeks: set<K>, f: K -> T, p: T -> bool, add: (T, T) -> T, zero: T)
    requires Adds(add, zero) && Closed(p, add) && p(zero) && forall w :: w in weeks ==> p(f(w))
    ensures p(Sum(weeks, f, add, zero))
    decreases |weeks|
  {
    if weeks != {} {
      var w :| w in weeks;
      SumPick(weeks, w, f, add, zero);
      SumKeeps(weeks - {w}, f, p, add, zero);
    }
  }

  /** What holds of a book's grand total is kept by the weeks together, although not by each week. */
  lemma OverallKeeps<K(!new), T(!new)>(weeks: map<K, T>, b: Book<K, T>, n: nat, bump: T -> T, p: T -> bool,
                                       add: (T, T) -> T, zero: T)
    requires Adds(add, zero) && Bumps(bump, add) && Closed(p, add) && KeptBy(p, bump) && p(zero)
    requires p(Overall(weeks, add, zero)) && p(Grand(b, n, add, zero))
    ensures p(Overall(Entered(weeks, b, n, bump, add, zero), add, zero))
  {
    OverallEntered(weeks, b, n, bump, add, zero);
    SumKeeps(Entered(weeks, b, n, bump, add, zero).Keys, BumpOf(Touched(b, n), bump, zero), p, add, zero);
  }

  // ----- steps that commute

  function Fold<S, T>(zero: T, ss: seq<S>, step: (T, S) -> T): T {
    if ss == [] then zero else step(Fold(zero, ss[..|ss| - 1], step), ss[|ss| - 1])
  }

  ghost predicate Commutes<S(!new), T(!new)>(step: (T, S) -> T) {
    forall t, a, b {:trigger step(step(t, a), b)} :: step(step(t, a), b) == step(step(t, b), a)
  }

  lemma FoldSnoc<S, T>(zero: T, ss: seq<S>, s: S, step: (T, S) -> T)
    ensures Fold(zero, ss + [s], step) == step(Fold(zero, ss, step), s)
  {
    assert (ss + [s])[..|ss|] == ss;
  }

  /** An element may be taken last instead of where it stands. */
  lemma {:induction false} FoldLast<S(!new), T(!new)>(zero: T, ss: seq<S>, j: nat, step: (T, S) -> T)
    requires Commutes(step) && j < |ss|
    ensures Fold(zero, ss, step) == step(Fold(zero, ss[..j] + ss[j + 1..], step), ss[j])
    decreases |ss|
  {
    var n := |ss| - 1;
    if j == n {
      assert ss[..j] + ss[j + 1..] == ss[..n];
    } else {
      var init := ss[..n];
      var rest := init[..j] + init[j + 1..];
      FoldLast(zero, init, j, step);
      FoldSnoc(zero, rest, ss[n], step);
      assert ss[..j] + ss[j + 1..] == rest + [ss[n]];
      var x := Fold(zero, rest, step);
      assert step(step(x, ss[j]), ss[n]) == step(step(x, ss[n]), ss[j]);
    }
  }

  lemma Without<S>(ss: seq<S>, j: nat)
    requires j < |ss|
    ensures multiset(ss[..j] + ss[j + 1..]) == multiset(ss) - multiset{ss[j]}
  {
    assert ss == ss[..j] + [ss[j]] + ss[j + 1..];
  }

  /** The result depends on which elements there are, not on their order. */
  lemma {:induction false} FoldOrder<S(!new), T(!new)>(zero: T, a: seq<S>, b: seq<S>, step: (T, S) -> T)
    requires Commutes(step) && multiset(a) == multiset(b)
    ensures Fold(zero, a, step) == Fold(zero, b, step)
    decreases |a|
  {
    assert |a| == |multiset(a)| == |multiset(b)| == |b|;
    if a != [] {
      var n := |a| - 1;
      assert a[n] in multiset(a);
      assert a[n] in b;
      var j :| 0 <= j < |b| && b[j] == a[n];
      Without(a, n);
      Without(b, j);
      assert a[..n] + a[n + 1..] == a[..n];
      FoldOrder(zero, a[..n], b[..j] + b[j + 1..], step);
      FoldLast(zero, b, j, step);
    }
  }
}
