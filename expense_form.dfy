/**
  The expense entry form (components/expense-form.tsx): free-text notes posted to
  the parse endpoint, with a loading flag while the request is out.
*/
module ExpenseForm {
  import opened Optional
  import opened Text
  import opened Expenses

  /** What the `fetch('/api/parse')` round trip ended in, as far as the form can tell. */
  datatype ParseReply =
    | Rejected                   // a response whose `ok` is false
    | Failed                     // `fetch` or `response.json()` threw
    | Parsed(data: seq<Expense>) // the parsed body, taken to be an array of well-formed expenses

  class Form {
    var notes: string
    var isLoading: bool

    /** `useState('')`, `useState(false)`. */
    constructor ()
      ensures notes == "" && !isLoading
    {
      notes := "";
      isLoading := false;
    }

    /** The submit button is enabled: not loading, and the notes are not all whitespace. */
    function CanSubmit(): (enabled: bool)
      reads this
      ensures enabled <==> !isLoading && !AllSpace(notes)
    {
      !(isLoading || Trim(notes) == "")
    }

    /**
      `handleSubmit` up to the request: notes that trim to nothing end it with
      no request and no change; otherwise loading starts and the notes, as typed,
      are the request body.
    */
    method Submit() returns (request: Option<string>)
      modifies this
      ensures AllSpace(old(notes)) ==> request == None && isLoading == old(isLoading)
      ensures !AllSpace(old(notes)) ==> request == Some(old(notes)) && isLoading
      ensures notes == old(notes)
    {
      if Trim(notes) == "" {
        return None;
      }
      isLoading := true;
      request := Some(notes);
    }

    /**
      `handleSubmit` after the request: on success the array goes to
      `onExpenseAdded` unchanged and the notes are cleared; otherwise the notes
      stay; in every case loading ends.
    */
    method Settle(reply: ParseReply) returns (added: Option<seq<Expense>>)
      modifies this
      ensures !isLoading
      ensures reply.Parsed? ==> added == Some(reply.data) && notes == ""
      ensures !reply.Parsed? ==> added == None && notes == old(notes)
    {
      match reply {
        case Parsed(data) =>
          added := Some(data);
          notes := "";
        case _ =>
          added := None;
      }
      isLoading := false;
    }
  }
}
