/**
  The day-streak badge (components/streak-counter.tsx): how many calendar days in
  a row, ending at the most recent day with spending, have at least one expense,
  provided that day is today or yesterday.
*/
module StreakCounter {
  import opened Optional
  import opened Expenses

  /** Every element is larger than every later one (so there are no repeats). */
  predicate StrictlyDescending(u: seq<int>) {
    forall a, b :: 0 <= a < b < |u| ==> u[a] > u[b]
  }

  /** Putting a larger element in front keeps the order strict. */
  lemma {:induction false} PrependLarger(h: int, rest: seq<int>)
    requires StrictlyDescending(rest)
    requires forall y :: y in rest ==> y < h
    ensures StrictlyDescending([h] + rest)
    ensures forall y :: y in [h] + rest <==> y == h || y in rest
  {
    var r := [h] + rest;
    forall a, b | 0 <= a < b < |r| ensures r[a] > r[b] {
      assert r[b] == rest[b - 1] && rest[b - 1] in rest;
      if a > 0 {
        assert r[a] == rest[a - 1];
      }
    }
  }

  /** Inserts `x` at its place in a strictly descending sequence, unless it is already there. */
  function InsertDescending(x: int, u: seq<int>): (r: seq<int>)
    requires StrictlyDescending(u)
    ensures StrictlyDescending(r)
    ensures forall y :: y in r <==> y == x || y in u
  {
    if u == [] then [x]
    else if x > u[0] then
      assert forall y :: y in u ==> y < x by {
        forall y | y in u ensures y < x {
          var i :| 0 <= i < |u| && u[i] == y;
          assert i > 0 ==> u[0] > u[i];
        }
      }
      PrependLarger(x, u);
      [x] + u
    else if x == u[0] then u
    else
      var rest := InsertDescending(x, u[1..]);
      assert u == [u[0]] + u[1..];
      assert forall y :: y in rest ==> y < u[0] by {
        forall y | y in u[1..] ensures y < u[0] {
          var i :| 0 <= i < |u[1..]| && u[1..][i] == y;
          assert u[i + 1] == y;
        }
      }
      PrependLarger(u[0], rest);
      [u[0]] + rest
  }

  /**
    `Array.from(new Set(dates)).sort((a, b) => b.localeCompare(a))`: the distinct
    dates, latest first (ISO dates compare as text in calendar order).
  */
  function UniqueDescending(ds: seq<int>): (u: seq<int>)
    ensures StrictlyDescending(u)
    ensures forall y :: y in u <==> y in ds
  {
    if ds == [] then []
    else
      var init := UniqueDescending(ds[..|ds| - 1]);
      assert ds == ds[..|ds| - 1] + [ds[|ds| - 1]];
      InsertDescending(ds[|ds| - 1], init)
  }

  /** The most recent day with spending. */
  function Latest(es: seq<Expense>): (d: int)
    requires es != []
    ensures d in Days(es)
    ensures forall x :: x in Days(es) ==> x <= d
  {
    if |es| == 1 then es[0].date
    else
      var rest := Latest(es[1..]);
      assert es == [es[0]] + es[1..];
      DaysConcat([es[0]], es[1..]);
      if es[0].date >= rest then es[0].date else rest
  }

  /** The earliest day with spending. */
  function Earliest(es: seq<Expense>): (d: int)
    requires es != []
    ensures d in Days(es)
    ensures forall x :: x in Days(es) ==> d <= x
  {
    if |es| == 1 then es[0].date
    else
      var rest := Earliest(es[1..]);
      assert es == [es[0]] + es[1..];
      DaysConcat([es[0]], es[1..]);
      if es[0].date <= rest then es[0].date else rest
  }

  /** How many days in a row, counting back from `d`, have spending: they all do, the next one back does not. */
  function Run(es: seq<Expense>, d: int): (n: nat)
    requires es != []
    decreases d - Earliest(es)
    ensures forall x :: d - n < x <= d ==> x in Days(es)
    ensures d - n !in Days(es)
  {
    if d in Days(es) then 1 + Run(es, d - 1) else 0
  }

  /** The two facts in `Run`'s contract pin its value down. */
  lemma {:induction false} RunUnique(es: seq<Expense>, d: int, n: nat)
    requires es != []
    requires forall x :: d - n < x <= d ==> x in Days(es)
    requires d - n !in Days(es)
    ensures Run(es, d) == n
  {
  }

  /**
    The streak the badge shows: 0 for no expenses or when the latest day with
    spending is more than one calendar day before `today`; otherwise the run of
    consecutive days ending at that latest day.
  */
  function Streak(es: seq<Expense>, today: int): (n: nat)
    ensures n == 0 <==> es == [] || today - Latest(es) > 1
  {
    if es == [] then 0
    else if today - Latest(es) > 1 then 0
    else Run(es, Latest(es))
  }

  /** `calculateStreak`: de-duplicate and sort the dates, then count the leading one-day steps. */
  method CalculateStreak(expenses: seq<Expense>, today: int) returns (streak: nat)
    ensures streak == Streak(expenses, today)
  {
    if |expenses| == 0 {
      return 0;
    }
    var uniqueDates := UniqueDescending(Dates(expenses));
    SortedHead(expenses, uniqueDates);
    var latest := uniqueDates[0];
    var diff := today - latest;
    if diff > 1 {
      return 0;
    }
    streak := 1;
    var i := 0;
    while i < |uniqueDates| - 1
      invariant 0 <= i <= |uniqueDates| - 1
      invariant streak == i + 1
      invariant forall j :: 0 <= j <= i ==> uniqueDates[j] == latest - j
    {
      if uniqueDates[i] - uniqueDates[i + 1] == 1 {
        streak := streak + 1;
      } else {
        break;
      }
      i := i + 1;
    }
    SortedRun(expenses, uniqueDates, i);
  }

  /** The first of the sorted distinct dates is the latest day with spending. */
  lemma {:induction false} SortedHead(es: seq<Expense>, u: seq<int>)
    requires es != []
    requires StrictlyDescending(u)
    requires forall y :: y in u <==> y in Dates(es)
    ensures |u| > 0 && u[0] == Latest(es)
  {
    DatesAreDays(es);
    assert es[0].date in Dates(es);
    var d := Latest(es);
    assert d in u;
    var k :| 0 <= k < |u| && u[k] == d;
    assert u[0] in Dates(es);
  }

  /**
    If the first `i + 1` sorted distinct dates are consecutive days and the loop
    stopped there (last date, or a gap of more than one day), the run from the
    latest day is `i + 1` long.
  */
  lemma {:induction false} SortedRun(es: seq<Expense>, u: seq<int>, i: nat)
    requires es != []
    requires StrictlyDescending(u)
    requires forall y :: y in u <==> y in Dates(es)
    requires i < |u|
    requires forall j :: 0 <= j <= i ==> u[j] == u[0] - j
    requires i == |u| - 1 || u[i] - u[i + 1] != 1
    ensures Run(es, u[0]) == i + 1
  {
    DatesAreDays(es);
    var d := u[0];
    forall x | d - (i + 1) < x <= d ensures x in Days(es) {
      assert u[d - x] == x;
    }
    forall j | 0 <= j < |u| ensures u[j] != d - (i + 1) {
      if j > i {
        assert u[j] <= u[i + 1];
      }
    }
    RunUnique(es, d, i + 1);
  }

  /** The component renders the badge only for a non-zero streak; the badge shows the streak. */
  method StreakBadge(expenses: seq<Expense>, today: int) returns (badge: Option<nat>)
    ensures badge.None? <==> expenses == [] || today - Latest(expenses) > 1
    ensures badge.Some? ==> badge.value == Streak(expenses, today) && badge.value >= 1
  {
    var streak := CalculateStreak(expenses, today);
    if streak == 0 {
      return None;
    }
    return Some(streak);
  }

  /** The days `d - n + 1 .. d`, as a set. */
  function DaysEndingAt(d: int, n: nat): (s: set<int>)
    decreases n
    ensures |s| == n
    ensures forall x :: x in s <==> d - n < x <= d
  {
    if n == 0 then {} else DaysEndingAt(d - 1, n - 1) + {d}
  }

  /** A live streak is at least 1 and at most the number of distinct days with spending. */
  lemma {:induction false} StreakBounds(es: seq<Expense>, today: int)
    requires es != [] && today - Latest(es) <= 1
    ensures 1 <= Streak(es, today) <= |Days(es)|
  {
    var n := Streak(es, today);
    var run := DaysEndingAt(Latest(es), n);
    assert run <= Days(es);
    SubsetSize(run, Days(es));
  }

  /** A subset is no larger than its superset. */
  lemma {:induction false} SubsetSize(a: set<int>, b: set<int>)
    requires a <= b
    ensures |a| <= |b|
  {
    assert b == a + (b - a);
  }

  /** The streak depends only on the set of days, so duplicate dates never change it. */
  lemma {:induction false} StreakOnlyDays(a: seq<Expense>, b: seq<Expense>, today: int)
    requires Days(a) == Days(b)
    ensures Streak(a, today) == Streak(b, today)
  {
    if a != [] && b != [] {
      assert Latest(a) == Latest(b) by {
        assert Latest(a) <= Latest(b) && Latest(b) <= Latest(a);
      }
      var d := Latest(a);
      if today - d <= 1 {
        RunUnique(b, d, Run(a, d));
      }
    }
  }

  /** Another expense on a day that already has one leaves the streak unchanged. */
  lemma {:induction false} StreakDuplicateDay(es: seq<Expense>, e: Expense, today: int)
    requires e.date in Days(es)
    ensures Streak(es + [e], today) == Streak(es, today)
  {
    DaysConcat(es, [e]);
    assert Days([e]) == {e.date} by { assert [e][0] == e; }
    StreakOnlyDays(es + [e], es, today);
  }

  /** A latest day after `today` gives a negative difference, so the streak is still alive. */
  lemma {:induction false} StreakFutureAlive(es: seq<Expense>, today: int)
    requires es != [] && Latest(es) > today
    ensures Streak(es, today) >= 1
  {
  }

  /** Spending today and yesterday gives 2; today and three days ago gives 1. */
  lemma {:induction false} StreakExamples(a: Expense, b: Expense, today: int)
    ensures a.date == today && b.date == today - 1 ==> Streak([a, b], today) == 2
    ensures a.date == today && b.date == today - 3 ==> Streak([a, b], today) == 1
  {
    var es := [a, b];
    assert Days(es) == {a.date, b.date} by { assert es[0] == a && es[1] == b; }
    if a.date == today && b.date == today - 1 {
      RunUnique(es, today, 2);
    }
    if a.date == today && b.date == today - 3 {
      RunUnique(es, today, 1);
    }
  }
}
