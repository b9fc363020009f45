/**
  The `Expense` record every component shares (components/expense-table.tsx).
  Calendar dates are day numbers: consecutive days differ by one.
*/
module Expenses {
  import opened Optional

  /** A store-assigned row id: `string | number`. A number and a string are never equal. */
  datatype Id = NumberId(n: int) | TextId(t: string)

  datatype Kind = Need | Want

  datatype Expense = Expense(
    id: Option<Id>,
    item: string,
    amount: real,
    category: string,
    kind: Kind,
    date: int)

  /** `expenses.map(e => e.date)`. */
  function Dates(es: seq<Expense>): (ds: seq<int>)
    ensures |ds| == |es|
    ensures forall i :: 0 <= i < |es| ==> ds[i] == es[i].date
  {
    seq(|es|, i requires 0 <= i < |es| => es[i].date)
  }

  /** The calendar days on which at least one expense was recorded. */
  function Days(es: seq<Expense>): set<int> {
    set i | 0 <= i < |es| :: es[i].date
  }

  /** A day is in `Days` exactly when it is in `Dates`. */
  lemma {:induction false} DatesAreDays(es: seq<Expense>)
    ensures forall d :: d in Dates(es) <==> d in Days(es)
  {
    var ds := Dates(es);
    forall d | d in ds ensures d in Days(es) {
      var i :| 0 <= i < |ds| && ds[i] == d;
      assert es[i].date == d;
    }
    forall d | d in Days(es) ensures d in ds {
      var i :| 0 <= i < |es| && es[i].date == d;
      assert ds[i] == d;
    }
  }

  /** The days of a concatenation are the days of its parts. */
  lemma {:induction false} DaysConcat(a: seq<Expense>, b: seq<Expense>)
    ensures Days(a + b) == Days(a) + Days(b)
  {
    var ab := a + b;
    forall d | d in Days(ab) ensures d in Days(a) + Days(b) {
      var i :| 0 <= i < |ab| && ab[i].date == d;
      if i < |a| { assert a[i] == ab[i]; } else { assert b[i - |a|] == ab[i]; }
    }
    forall d | d in Days(a) ensures d in Days(ab) {
      var i :| 0 <= i < |a| && a[i].date == d;
      assert ab[i] == a[i];
    }
    forall d | d in Days(b) ensures d in Days(ab) {
      var i :| 0 <= i < |b| && b[i].date == d;
      assert ab[|a| + i] == b[i];
    }
  }
}
