/**
  The roast endpoint (app/api/roast/route.ts): a fixed order of guards (signed
  in, key configured, body parsed, `expenses` an array, array not empty), then a
  summary of at most 20 expenses, one `item ($amount) - type` line each, handed
  to the language model.
*/
module RoastRoute {
  import opened Optional
  import opened Text
  import opened Http

  const UnauthorizedError := "Unauthorized. Please log in."
  const MissingKeyError := "GEMINI_API_KEY is not configured."
  const InvalidExpensesError := "Invalid expenses data."
  const FailedRoastError := "Failed to generate roast."
  const GhostRoast := "You haven't spent anything. Are you a ghost? \U{1F47B}"

  /** How many expenses the summary lists at most. */
  const SummaryLimit := 20

  /** What `supabase.auth.getUser()` returned: whether it reported an error, and whether there is a user. */
  datatype Auth = Auth(failed: bool, hasUser: bool)

  /**
    One element of the posted `expenses` array, as the text each field it reads
    turns into inside a template literal (`e.item_name`, `e.amount`, `e.type`).
  */
  datatype Entry = Entry(itemName: string, amount: string, kind: string)

  /**
    An element of the posted array: a value whose fields can be read, or `null` /
    `undefined`, on which reading `e.item_name` throws.
  */
  datatype Element = Record(entry: Entry) | Nullish

  /** The `expenses` field of the parsed body: anything that is not an array, or an array. */
  datatype ExpensesField = NotAnArray | AnArray(elements: seq<Element>)

  /** `authError || !user` is false. */
  predicate SignedIn(auth: Auth) {
    !auth.failed && auth.hasUser
  }

  /** `` `${e.item_name} ($${e.amount}) - ${e.type}` ``. */
  function Line(e: Entry): (line: string)
    ensures '\n' !in e.itemName + e.amount + e.kind ==> '\n' !in line
  {
    e.itemName + " ($" + e.amount + ") - " + e.kind
  }

  /** `.map(...)` of `Line`. */
  function Lines(entries: seq<Entry>): (lines: seq<string>)
    ensures |lines| == |entries|
    ensures forall i :: 0 <= i < |entries| ==> lines[i] == Line(entries[i])
  {
    seq(|entries|, i requires 0 <= i < |entries| => Line(entries[i]))
  }

  /** `expenses.slice(0, 20)`. */
  function FirstEntries<T>(entries: seq<T>): (first: seq<T>)
    ensures |first| <= SummaryLimit && first <= entries
    ensures |entries| <= SummaryLimit ==> first == entries
    ensures |entries| > SummaryLimit ==> first == entries[..SummaryLimit]
  {
    if |entries| <= SummaryLimit then entries else entries[..SummaryLimit]
  }

  /** `expenseSummary`: the lines of the first 20 expenses, joined with newlines. */
  function Summary(entries: seq<Entry>): (summary: string)
    ensures summary == [] <==> entries == []
  {
    var lines := Lines(FirstEntries(entries));
    assert entries != [] ==> |lines[0]| > 0;
    Join(lines, '\n')
  }

  /** Every element among the first 20 can be read: none is `null` or `undefined`. */
  predicate Readable(elements: seq<Element>) {
    forall i :: 0 <= i < |elements| ==> elements[i].Record?
  }

  /** The entries of readable elements, in order. */
  function Entries(elements: seq<Element>): (entries: seq<Entry>)
    requires Readable(elements)
    ensures |entries| == |elements|
    ensures forall i :: 0 <= i < |elements| ==> elements[i] == Record(entries[i])
  {
    seq(|elements|, i requires 0 <= i < |elements| => elements[i].entry)
  }

  /** Only the first 20 expenses count: whatever follows them never reaches the summary. */
  lemma {:induction false} SummaryIgnoresTail(entries: seq<Entry>, more: seq<Entry>)
    requires |entries| >= SummaryLimit
    ensures Summary(entries + more) == Summary(entries)
  {
    assert (entries + more)[..SummaryLimit] == entries[..SummaryLimit];
    assert |entries| == SummaryLimit ==> entries[..SummaryLimit] == entries;
    assert FirstEntries(entries + more) == FirstEntries(entries);
  }

  /**
    When no field holds a newline, splitting the summary at newlines gives one
    line per listed expense, in the original order.
  */
  lemma {:induction false} SummaryLines(entries: seq<Entry>)
    requires entries != []
    requires forall i :: 0 <= i < |entries| ==>
      '\n' !in entries[i].itemName + entries[i].amount + entries[i].kind
    ensures |SplitOn(Summary(entries), '\n')| == |FirstEntries(entries)|
    ensures forall i :: 0 <= i < |FirstEntries(entries)| ==>
      SplitOn(Summary(entries), '\n')[i] == Line(entries[i])
  {
    var first := FirstEntries(entries);
    var lines := Lines(first);
    forall i | 0 <= i < |lines| ensures '\n' !in lines[i] {
      assert first[i] == entries[i];
    }
    SplitJoin(lines, '\n');
  }

  /**
    `POST`: `auth` is what `getUser` returned, `apiKey` is `GEMINI_API_KEY`,
    `body` is `req.json()` reduced to its `expenses` field, and `generate` is
    the language model, given the summary that the fixed prompt wording embeds.
  */
  function Post(auth: Auth, apiKey: Option<string>, body: Attempt<ExpensesField>,
                generate: string -> Attempt<string>): (h: Handled<()>)
    ensures !SignedIn(auth) ==> h == Handled(Response(401, ErrorPayload(UnauthorizedError)), None)
    ensures SignedIn(auth) && !KeyConfigured(apiKey) ==>
      h == Handled(Response(500, ErrorPayload(MissingKeyError)), None)
    ensures SignedIn(auth) && KeyConfigured(apiKey) && body.Threw? ==>
      h == Handled(Response(500, ErrorPayload(FailedRoastError)), None)
    ensures SignedIn(auth) && KeyConfigured(apiKey) && body == Returned(NotAnArray) ==>
      h == Handled(Response(400, ErrorPayload(InvalidExpensesError)), None)
    ensures SignedIn(auth) && KeyConfigured(apiKey) && body == Returned(AnArray([])) ==>
      h == Handled(Response(200, RoastPayload(GhostRoast)), None)
    ensures SignedIn(auth) && KeyConfigured(apiKey) && body.Returned? && body.value.AnArray? &&
            body.value.elements != [] && !Readable(FirstEntries(body.value.elements)) ==>
      h == Handled(Response(500, ErrorPayload(FailedRoastError)), None)
    ensures h.modelInput.Some? <==>
      SignedIn(auth) && KeyConfigured(apiKey) && body.Returned? && body.value.AnArray? &&
      body.value.elements != [] && Readable(FirstEntries(body.value.elements))
    ensures h.modelInput.Some? ==>
      h.modelInput.value == Summary(Entries(FirstEntries(body.value.elements)))
    ensures h.modelInput.Some? && generate(h.modelInput.value).Returned? ==>
      h.response == Response(200, RoastPayload(generate(h.modelInput.value).value))
    ensures h.modelInput.Some? && generate(h.modelInput.value).Threw? ==>
      h.response == Response(500, ErrorPayload(FailedRoastError))
  {
    if !SignedIn(auth) then
      Handled(Response(401, ErrorPayload(UnauthorizedError)), None)
    else if !KeyConfigured(apiKey) then
      Handled(Response(500, ErrorPayload(MissingKeyError)), None)
    else
      match body
      case Threw(_) => Handled(Response(500, ErrorPayload(FailedRoastError)), None)
      case Returned(NotAnArray) => Handled(Response(400, ErrorPayload(InvalidExpensesError)), None)
      case Returned(AnArray(elements)) =>
        if |elements| == 0 then
          Handled(Response(200, RoastPayload(GhostRoast)), None)
        else if !Readable(FirstEntries(elements)) then
          Handled(Response(500, ErrorPayload(FailedRoastError)), None)
        else
          var summary := Summary(Entries(FirstEntries(elements)));
          match generate(summary)
          case Returned(roast) => Handled(Response(200, RoastPayload(roast)), Some(summary))
          case Threw(_) => Handled(Response(500, ErrorPayload(FailedRoastError)), Some(summary))
  }

  /** Elements after the twentieth, even unreadable ones, never change the reply. */
  lemma {:induction false} PostIgnoresTail(auth: Auth, apiKey: Option<string>, elements: seq<Element>,
                                           more: seq<Element>, generate: string -> Attempt<string>)
    requires |elements| >= SummaryLimit
    ensures Post(auth, apiKey, Returned(AnArray(elements + more)), generate) ==
            Post(auth, apiKey, Returned(AnArray(elements)), generate)
  {
    assert FirstEntries(elements + more) == FirstEntries(elements) by {
      assert (elements + more)[..SummaryLimit] == elements[..SummaryLimit];
      assert |elements| == SummaryLimit ==> elements[..SummaryLimit] == elements;
    }
  }

  /** Every reply is one of 200, 400, 401 or 500, and a 200 always carries a roast. */
  lemma {:induction false} PostStatuses(auth: Auth, apiKey: Option<string>, body: Attempt<ExpensesField>,
                                        generate: string -> Attempt<string>)
    ensures Post(auth, apiKey, body, generate).response.status in {200, 400, 401, 500}
    ensures Post(auth, apiKey, body, generate).response.status == 200 <==>
      Post(auth, apiKey, body, generate).response.payload.RoastPayload?
  {
  }

  /** The auth check comes first: signed out, neither the key nor the body makes any difference. */
  lemma {:induction false} AuthCheckedFirst(auth: Auth, key1: Option<string>, key2: Option<string>,
                                            body1: Attempt<ExpensesField>, body2: Attempt<ExpensesField>,
                                            generate: string -> Attempt<string>)
    requires !SignedIn(auth)
    ensures Post(auth, key1, body1, generate) == Post(auth, key2, body2, generate)
  {
  }

  /** The key check comes before the body is read. */
  lemma {:induction false} KeyCheckedBeforeBody(auth: Auth, apiKey: Option<string>,
                                                body1: Attempt<ExpensesField>, body2: Attempt<ExpensesField>,
                                                generate: string -> Attempt<string>)
    requires SignedIn(auth) && !KeyConfigured(apiKey)
    ensures Post(auth, apiKey, body1, generate) == Post(auth, apiKey, body2, generate)
  {
  }
}
