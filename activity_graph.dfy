/**
  The 28-day activity grid (components/activity-graph.tsx): one cell per calendar
  day, from 27 days before `today` up to `today`, lit when at least one expense
  falls on that day.
*/
module ActivityGraph {
  import opened Expenses

  /** How many days the grid shows. */
  const WindowLength := 28

  /** `Array.from({ length: 28 }, (_, i) => subDays(today, 27 - i))`: oldest day first. */
  function Window(today: int): (days: seq<int>)
    ensures |days| == WindowLength
    ensures forall i :: 0 <= i < |days| ==> days[i] == today - (27 - i)
  {
    seq(WindowLength, i => today - (27 - i))
  }

  /** The window holds each of the last 28 days, today included, exactly once and in order. */
  lemma {:induction false} WindowCovers(today: int)
    ensures forall d :: d in Window(today) <==> today - 27 <= d <= today
    ensures forall i, j :: 0 <= i < j < WindowLength ==> Window(today)[i] < Window(today)[j]
    ensures Window(today)[0] == today - 27 && Window(today)[27] == today
  {
    var w := Window(today);
    forall d | today - 27 <= d <= today ensures d in w {
      assert w[d - (today - 27)] == d;
    }
  }

  /** `expenses.filter(e => isSameDay(parseISO(e.date), date))`. */
  function OnDay(es: seq<Expense>, day: int): (r: seq<Expense>)
    ensures |r| <= |es|
    ensures forall e :: e in r <==> e in es && e.date == day
  {
    if es == [] then []
    else
      assert es == [es[0]] + es[1..];
      (if es[0].date == day then [es[0]] else []) + OnDay(es[1..], day)
  }

  /** `getIntensity`: 1 when some expense falls on the day, else 0; never more. */
  function Intensity(es: seq<Expense>, day: int): (n: nat)
    ensures n <= 1
    ensures n == 1 <==> day in Days(es)
  {
    var f := OnDay(es, day);
    if |f| == 0 then 0
    else
      assert day in Days(es) by {
        assert f[0] in es;
        var i :| 0 <= i < |es| && es[i] == f[0];
      }
      1
  }

  /** The cells, oldest first: a cell is active when its day's intensity is positive. */
  function Grid(es: seq<Expense>, today: int): (cells: seq<bool>)
    ensures |cells| == WindowLength
    ensures forall i :: 0 <= i < WindowLength ==> (cells[i] <==> today - (27 - i) in Days(es))
  {
    var days := Window(today);
    seq(WindowLength, i requires 0 <= i < WindowLength => Intensity(es, days[i]) > 0)
  }

  /** The grid depends only on which days have spending: a second expense on a day changes nothing. */
  lemma {:induction false} GridOnlyDays(a: seq<Expense>, b: seq<Expense>, today: int)
    requires Days(a) == Days(b)
    ensures Grid(a, today) == Grid(b, today)
  {
    assert forall i :: 0 <= i < WindowLength ==> Grid(a, today)[i] == Grid(b, today)[i];
  }

  /** An expense dated before the window or after today lights no cell. */
  lemma {:induction false} GridIgnoresOutside(es: seq<Expense>, e: Expense, today: int)
    requires e.date < today - 27 || e.date > today
    ensures Grid(es + [e], today) == Grid(es, today)
  {
    DaysConcat(es, [e]);
    assert Days([e]) == {e.date} by { assert [e][0] == e; }
    assert forall i :: 0 <= i < WindowLength ==> Grid(es + [e], today)[i] == Grid(es, today)[i];
  }

  /** Adding expenses, before or after, never turns an active cell off. */
  lemma {:induction false} GridGrows(es: seq<Expense>, more: seq<Expense>, today: int, i: nat)
    requires i < WindowLength && Grid(es, today)[i]
    ensures Grid(es + more, today)[i] && Grid(more + es, today)[i]
  {
    DaysConcat(es, more);
    DaysConcat(more, es);
  }

  /** A single expense dated ten days ago lights exactly cell 17. */
  lemma {:induction false} GridTenDaysAgo(e: Expense, today: int)
    requires e.date == today - 10
    ensures forall i :: 0 <= i < WindowLength ==> (Grid([e], today)[i] <==> i == 17)
  {
    assert Days([e]) == {e.date} by { assert [e][0] == e; }
  }
}
