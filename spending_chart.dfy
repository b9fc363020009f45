/**
  The Need/Want pie chart data (components/spending-chart.tsx): the amounts of the
  Need and of the Want expenses, or a single grey "No Data" slice when both are 0.
*/
module SpendingChart {
  import opened Expenses

  /** One pie slice; its colour is left out. */
  datatype Bucket = Bucket(name: string, value: real)

  /** The slice shown when both sums are zero. */
  const NoData := Bucket("No Data", 1.0)

  /** `expenses.filter((e) => e.type === kind)`, in the original order. */
  function OfKind(es: seq<Expense>, kind: Kind): (r: seq<Expense>)
    ensures |r| <= |es|
    ensures forall e :: e in r <==> e in es && e.kind == kind
  {
    if es == [] then []
    else
      assert es == [es[0]] + es[1..];
      (if es[0].kind == kind then [es[0]] else []) + OfKind(es[1..], kind)
  }

  /** `.reduce((sum, e) => sum + e.amount, 0)`: adds the amounts from the left. */
  function Sum(es: seq<Expense>): (r: real)
    ensures |es| == 1 ==> r == es[0].amount
    ensures (forall i :: 0 <= i < |es| ==> es[i].amount >= 0.0) ==> r >= 0.0
  {
    if es == [] then 0.0 else Sum(es[..|es| - 1]) + es[|es| - 1].amount
  }

  /** The value of the `kind` slice. */
  function Total(es: seq<Expense>, kind: Kind): (r: real)
    ensures (forall i :: 0 <= i < |es| ==> es[i].kind != kind) ==> r == 0.0
    ensures (forall i :: 0 <= i < |es| ==> es[i].amount >= 0.0) ==> r >= 0.0
  {
    var f := OfKind(es, kind);
    assert (forall i :: 0 <= i < |es| ==> es[i].amount >= 0.0) ==>
           (forall j :: 0 <= j < |f| ==> f[j].amount >= 0.0) by {
      if forall i :: 0 <= i < |es| ==> es[i].amount >= 0.0 {
        forall j | 0 <= j < |f| ensures f[j].amount >= 0.0 {
          assert f[j] in f;
          var i :| 0 <= i < |es| && es[i] == f[j];
        }
      }
    }
    assert (forall i :: 0 <= i < |es| ==> es[i].kind != kind) ==> f == [] by {
      if |f| > 0 {
        assert f[0] in f;
        var i :| 0 <= i < |es| && es[i] == f[0];
      }
    }
    Sum(f)
  }

  /** The sum of a concatenation is the sum of the sums. */
  lemma {:induction false} SumConcat(a: seq<Expense>, b: seq<Expense>)
    ensures Sum(a + b) == Sum(a) + Sum(b)
    decreases |b|
  {
    if b != [] {
      assert (a + b)[..|a + b| - 1] == a + b[..|b| - 1];
      SumConcat(a, b[..|b| - 1]);
    } else {
      assert a + b == a;
    }
  }

  /** Filtering a concatenation filters each part. */
  lemma {:induction false} OfKindConcat(a: seq<Expense>, b: seq<Expense>, kind: Kind)
    ensures OfKind(a + b, kind) == OfKind(a, kind) + OfKind(b, kind)
  {
    if a == [] {
      assert a + b == b;
    } else {
      assert (a + b)[1..] == a[1..] + b;
      OfKindConcat(a[1..], b, kind);
    }
  }

  /** A slice's value over a concatenation is the sum of its values over the parts. */
  lemma {:induction false} TotalConcat(a: seq<Expense>, b: seq<Expense>, kind: Kind)
    ensures Total(a + b, kind) == Total(a, kind) + Total(b, kind)
  {
    OfKindConcat(a, b, kind);
    SumConcat(OfKind(a, kind), OfKind(b, kind));
  }

  /** Taking out the element at `j` takes one copy of it out of the multiset. */
  lemma {:induction false} RemoveAt(b: seq<Expense>, j: nat)
    requires j < |b|
    ensures b == b[..j] + [b[j]] + b[j + 1..]
    ensures multiset(b[..j] + b[j + 1..]) == multiset(b) - multiset{b[j]}
  {
    assert b == b[..j] + [b[j]] + b[j + 1..];
    assert multiset(b) == multiset(b[..j]) + multiset{b[j]} + multiset(b[j + 1..]);
  }

  /** A slice's value is the taken-out element's share plus the value over the rest. */
  lemma {:induction false} TotalRemoveAt(b: seq<Expense>, j: nat, kind: Kind)
    requires j < |b|
    ensures Total(b, kind) == Total([b[j]], kind) + Total(b[..j] + b[j + 1..], kind)
  {
    RemoveAt(b, j);
    TotalConcat(b[..j] + [b[j]], b[j + 1..], kind);
    TotalConcat(b[..j], [b[j]], kind);
    TotalConcat(b[..j], b[j + 1..], kind);
  }

  /** Matching up the first element of `a` with one in `b` leaves two permutations of the rest. */
  lemma {:induction false} PermutationRest(a: seq<Expense>, b: seq<Expense>) returns (j: nat)
    requires multiset(a) == multiset(b) && a != []
    ensures j < |b| && b[j] == a[0]
    ensures multiset(a[1..]) == multiset(b[..j] + b[j + 1..])
  {
    assert a[0] in multiset(b);
    j :| 0 <= j < |b| && b[j] == a[0];
    RemoveAt(b, j);
    assert a == [a[0]] + a[1..];
    assert multiset(a[1..]) == multiset(a) - multiset{a[0]};
  }

  /** Reordering the expenses does not change either sum. */
  lemma {:induction false} TotalPermutation(a: seq<Expense>, b: seq<Expense>, kind: Kind)
    requires multiset(a) == multiset(b)
    ensures Total(a, kind) == Total(b, kind)
    decreases |a|
  {
    if a != [] {
      var x := a[0];
      var j := PermutationRest(a, b);
      TotalPermutation(a[1..], b[..j] + b[j + 1..], kind);
      TotalRemoveAt(b, j, kind);
      assert a == [x] + a[1..];
      TotalConcat([x], a[1..], kind);
    } else {
      assert |b| == |multiset(b)|;
    }
  }

  /** Every expense is a Need or a Want, so the two slices together hold all the spending. */
  lemma {:induction false} TotalsSplitSum(es: seq<Expense>)
    ensures Total(es, Need) + Total(es, Want) == Sum(es)
    decreases |es|
  {
    if es != [] {
      var init, last := es[..|es| - 1], es[|es| - 1];
      assert es == init + [last];
      TotalsSplitSum(init);
      TotalConcat(init, [last], Need);
      TotalConcat(init, [last], Want);
      assert OfKind([last], last.kind) == [last];
    }
  }

  /**
    The `data` memo: the No Data slice when both sums are 0, otherwise a Need slice
    then a Want slice (either may be 0), whose values add up to all the spending.
  */
  function Distribution(es: seq<Expense>): (r: seq<Bucket>)
    ensures r == [NoData] <==> Total(es, Need) == 0.0 && Total(es, Want) == 0.0
    ensures r != [NoData] ==> r == [Bucket("Need", Total(es, Need)), Bucket("Want", Total(es, Want))]
    ensures r != [NoData] ==> r[0].value + r[1].value == Sum(es)
  {
    var needs := Total(es, Need);
    var wants := Total(es, Want);
    TotalsSplitSum(es);
    if needs == 0.0 && wants == 0.0 then [NoData]
    else [Bucket("Need", needs), Bucket("Want", wants)]
  }

  /** Reordering the expenses does not change the chart. */
  lemma {:induction false} DistributionPermutation(a: seq<Expense>, b: seq<Expense>)
    requires multiset(a) == multiset(b)
    ensures Distribution(a) == Distribution(b)
  {
    TotalPermutation(a, b, Need);
    TotalPermutation(a, b, Want);
  }

  /** `hasData`: the list is not empty, whatever the amounts. */
  function HasData(es: seq<Expense>): (b: bool)
    ensures b <==> Days(es) != {}
  {
    assert es != [] ==> es[0].date in Days(es);
    |es| > 0
  }

  /** Expenses that all have amount 0 make a zero sum. */
  lemma {:induction false} ZeroAmountsSum(es: seq<Expense>)
    requires forall i :: 0 <= i < |es| ==> es[i].amount == 0.0
    ensures Sum(es) == 0.0
    decreases |es|
  {
    if es != [] {
      ZeroAmountsSum(es[..|es| - 1]);
    }
  }

  /** A non-empty list of zero amounts has data, yet its chart is the No Data slice. */
  lemma {:induction false} ZeroAmountsNoData(es: seq<Expense>)
    requires es != []
    requires forall i :: 0 <= i < |es| ==> es[i].amount == 0.0
    ensures HasData(es) && Distribution(es) == [NoData]
  {
    forall kind: Kind ensures Total(es, kind) == 0.0 {
      var f := OfKind(es, kind);
      forall i | 0 <= i < |f| ensures f[i].amount == 0.0 {
        assert f[i] in es;
      }
      ZeroAmountsSum(f);
    }
  }
}
