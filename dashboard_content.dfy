/**
  The dashboard's expense list (components/dashboard-content.tsx): loaded once
  from the store, prepended to when the form adds a batch, filtered when an
  entry is deleted.
*/
module DashboardContent {
  import opened Optional
  import opened Text
  import opened Expenses
  import opened ExpenseForm

  /** `prev.filter((e) => e.id !== id)`: entries without an id are always kept. */
  function WithoutId(es: seq<Expense>, id: Id): (r: seq<Expense>)
    ensures |r| <= |es|
    ensures forall e :: e in r <==> e in es && e.id != Some(id)
  {
    if es == [] then []
    else
      assert es == [es[0]] + es[1..];
      (if es[0].id == Some(id) then [] else [es[0]]) + WithoutId(es[1..], id)
  }

  /** Filtering works piece by piece, so the kept entries stay in their order. */
  lemma {:induction false} WithoutIdConcat(a: seq<Expense>, b: seq<Expense>, id: Id)
    ensures WithoutId(a + b, id) == WithoutId(a, id) + WithoutId(b, id)
  {
    if a == [] {
      assert a + b == b;
    } else {
      assert (a + b)[1..] == a[1..] + b;
      WithoutIdConcat(a[1..], b, id);
    }
  }

  /** Deleting an id that no entry has leaves the list as it was. */
  lemma {:induction false} WithoutAbsentId(es: seq<Expense>, id: Id)
    requires forall i :: 0 <= i < |es| ==> es[i].id != Some(id)
    ensures WithoutId(es, id) == es
  {
    if es != [] {
      WithoutAbsentId(es[1..], id);
    }
  }

  /** Deleting the same id twice is the same as deleting it once. */
  lemma {:induction false} WithoutIdIdempotent(es: seq<Expense>, id: Id)
    ensures WithoutId(WithoutId(es, id), id) == WithoutId(es, id)
  {
    var r := WithoutId(es, id);
    forall i | 0 <= i < |r| ensures r[i].id != Some(id) {
      assert r[i] in r;
    }
    WithoutAbsentId(r, id);
  }

  /** The entries a delete of `id` removes. */
  function OnlyId(es: seq<Expense>, id: Id): seq<Expense> {
    if es == [] then []
    else (if es[0].id == Some(id) then [es[0]] else []) + OnlyId(es[1..], id)
  }

  /** A successful delete removes exactly the entries with that id; no other entry is lost. */
  lemma {:induction false} WithoutIdRemovesOnly(es: seq<Expense>, id: Id)
    ensures |WithoutId(es, id)| + |OnlyId(es, id)| == |es|
    ensures multiset(WithoutId(es, id)) + multiset(OnlyId(es, id)) == multiset(es)
  {
    if es != [] {
      WithoutIdRemovesOnly(es[1..], id);
      assert es == [es[0]] + es[1..];
    }
  }

  /** What the store query (`select('*').order('date', { ascending: false })`) gave. */
  datatype LoadResult =
    | LoadError                        // `error` is set
    | Loaded(rows: Option<seq<Expense>>) // `data`, `None` when it is null

  class Dashboard {
    var expenses: seq<Expense>

    /** `useState<Expense[]>([])`. */
    constructor ()
      ensures expenses == []
    {
      expenses := [];
    }

    /** `fetchExpenses`: the rows replace the list; an error or null data leaves it. */
    method LoadExpenses(result: LoadResult)
      modifies this
      ensures result.Loaded? && result.rows.Some? ==> expenses == result.rows.value
      ensures !(result.Loaded? && result.rows.Some?) ==> expenses == old(expenses)
    {
      match result {
        case LoadError =>
        case Loaded(rows) =>
          if rows.Some? {
            expenses := rows.value;
          }
      }
    }

    /** `handleExpenseAdded`: the new batch goes in front, both parts in their order. */
    method ExpenseAdded(newExpenses: seq<Expense>)
      modifies this
      ensures expenses == newExpenses + old(expenses)
      ensures |expenses| == |newExpenses| + |old(expenses)|
      ensures forall e :: e in old(expenses) ==> e in expenses
    {
      expenses := newExpenses + expenses;
    }

    /** `handleDeleteExpense`: filter on success; a failed store delete changes nothing. */
    method DeleteExpense(id: Id, deleteFailed: bool)
      modifies this
      ensures deleteFailed ==> expenses == old(expenses)
      ensures !deleteFailed ==> expenses == WithoutId(old(expenses), id)
      ensures forall e :: e in expenses ==> e in old(expenses)
    {
      if !deleteFailed {
        expenses := WithoutId(expenses, id);
      }
    }
  }

  /**
    The form wired to the dashboard (`onExpenseAdded={handleExpenseAdded}`): one
    submission from the click to the list update.
  */
  method AddFromForm(form: Form, dashboard: Dashboard, reply: ParseReply)
    modifies form, dashboard
    ensures AllSpace(old(form.notes)) || !reply.Parsed? ==> dashboard.expenses == old(dashboard.expenses)
    ensures !AllSpace(old(form.notes)) && reply.Parsed? ==>
      dashboard.expenses == reply.data + old(dashboard.expenses) && form.notes == ""
    ensures !AllSpace(old(form.notes)) ==> !form.isLoading
  {
    var request := form.Submit();
    if request.Some? {
      var added := form.Settle(reply);
      if added.Some? {
        dashboard.ExpenseAdded(added.value);
      }
    }
  }
}
