/**
  `POST /api/parse` (app/api/parse/route.ts): the API-key and empty-body
  gates, the call to the language model, and the sanitiser that takes the
  JSON text out of a fenced block in the model's reply before `JSON.parse`.
*/
module ParseRoute {
  import opened Optional
  import opened Text
  import opened Http

  const Fence := "```"
  const MissingKeyError := "GEMINI_API_KEY is not configured."
  const EmptyBodyError := "Request body must contain expense text."
  const UnknownError := "Unknown error occurred."

  /** The optional `json` tag of the fence pattern at index `q`, in any letter case. */
  predicate JsonTagAt(text: string, q: nat) {
    q + 4 <= |text| &&
    LowerChar(text[q]) == 'j' && LowerChar(text[q + 1]) == 's' &&
    LowerChar(text[q + 2]) == 'o' && LowerChar(text[q + 3]) == 'n'
  }

  /** What may follow an opening fence in the replies the prompt asks for: nothing,
      or `json` in any letter case. */
  predicate FenceTag(tag: string) {
    tag == "" || (|tag| == 4 && JsonTagAt(tag, 0))
  }

  /** A fence is three backquotes. */
  lemma {:induction false} FenceAt(s: string, k: nat)
    ensures OccursAt(s, Fence, k) <==> k + 3 <= |s| && s[k] == '`' && s[k + 1] == '`' && s[k + 2] == '`'
  {
    if k + 3 <= |s| {
      assert CharAt(s, k, 0) == s[k] && CharAt(s, k, 1) == s[k + 1] && CharAt(s, k, 2) == s[k + 2];
    }
  }

  /** No fence is followed by a second, non-overlapping fence. */
  ghost predicate NoFencePair(text: string) {
    forall k, m :: OccursAt(text, Fence, k) && OccursAt(text, Fence, m) ==> m < k + 3
  }

  /** Where the leftmost match of the fence pattern starts: the first fence, provided
      another fence starts after it. */
  function OpeningFence(text: string): (p: Option<nat>)
    ensures p.Some? ==> OccursAt(text, Fence, p.value) && IndexOf(text, Fence, p.value + 3).Some?
    ensures p.Some? ==> forall k :: 0 <= k < p.value ==> !OccursAt(text, Fence, k)
  {
    match IndexOf(text, Fence, 0)
    case None => None
    case Some(p) =>
      assert forall k :: 0 <= k < p ==> !OccursAt(text, Fence, k) by {
        forall k | 0 <= k < p ensures !OccursAt(text, Fence, k) {
          IndexOfFirst(text, Fence, 0, k);
        }
      }
      if IndexOf(text, Fence, p + 3).Some? then Some(p) else None
  }

  /** The pattern finds no match exactly when no fence is followed by a second one. */
  lemma {:induction false} OpeningFenceNone(text: string)
    ensures OpeningFence(text).None? <==> NoFencePair(text)
  {
    match IndexOf(text, Fence, 0) {
      case None =>
        forall k | 0 <= k ensures !OccursAt(text, Fence, k) {
          IndexOfFirst(text, Fence, 0, k);
        }
      case Some(p) =>
        forall k | 0 <= k < p ensures !OccursAt(text, Fence, k) {
          IndexOfFirst(text, Fence, 0, k);
        }
        if IndexOf(text, Fence, p + 3).None? {
          forall m | p + 3 <= m ensures !OccursAt(text, Fence, m) {
            IndexOfFirst(text, Fence, p + 3, m);
          }
        }
    }
  }

  /** Where the captured group starts: after the opening fence and the optional tag.
      The `\s*` that follows the tag only moves white space out of the group, and the
      final `trim` removes that white space anyway. The group ends at the first fence
      from here, and that is the fence the search after the opening fence finds. */
  function CaptureStart(text: string, p: nat): (q: nat)
    requires OpeningFence(text) == Some(p)
    ensures q == p + 3 || q == p + 7
    ensures q == p + 7 <==> JsonTagAt(text, p + 3)
    ensures IndexOf(text, Fence, q) == IndexOf(text, Fence, p + 3)
  {
    var c := IndexOf(text, Fence, p + 3).value;
    if JsonTagAt(text, p + 3) then
      FenceAt(text, c);
      assert c >= p + 7 by {
        assert text[p + 3] != '`' && text[p + 4] != '`' && text[p + 5] != '`' && text[p + 6] != '`';
      }
      IndexOfLater(text, Fence, p + 3, p + 7);
      p + 7
    else
      p + 3
  }

  /** A piece of `text` that contains no fence at all. */
  lemma {:induction false} FenceFreeSlice(text: string, q: nat, c: nat)
    requires q <= c <= |text|
    requires forall k :: q <= k < c ==> !OccursAt(text, Fence, k)
    ensures NoFencePair(text[q..c])
  {
    forall k | 0 <= k < c - q ensures !OccursAt(text[q..c], Fence, k) {
      OccursInSlice(text, q, c, Fence, k);
    }
  }

  /** Trimming cannot create a fence pair. */
  lemma {:induction false} NoFencePairTrim(x: string)
    requires NoFencePair(x)
    ensures NoFencePair(Trim(x))
  {
    var n := TrimStart(x);
    forall k | OccursAt(Trim(x), Fence, k) ensures OccursAt(x, Fence, n + k) {
      OccursInSlice(x, n, TrimEnd(x), Fence, k);
    }
  }

  /** `stripCodeFences`: the trimmed content of the first fenced block, or the
      trimmed text when there is no complete block. */
  function StripCodeFences(text: string): (r: string)
    ensures NoOuterSpace(r)
  {
    match OpeningFence(text)
    case None => Trim(text)
    case Some(p) =>
      var q := CaptureStart(text, p);
      var c := IndexOf(text, Fence, q).value;
      Trim(text[q..c])
  }

  /** A reply without a complete fenced block is only trimmed. */
  lemma {:induction false} StripCodeFencesPlain(text: string)
    requires NoFencePair(text)
    ensures StripCodeFences(text) == Trim(text)
  {
    OpeningFenceNone(text);
  }

  /** The cleaned reply never holds a complete fenced block. */
  lemma {:induction false} StripCodeFencesNoPair(text: string)
    ensures NoFencePair(StripCodeFences(text))
  {
    OpeningFenceNone(text);
    match OpeningFence(text)
    case None =>
      NoFencePairTrim(text);
    case Some(p) =>
      var q := CaptureStart(text, p);
      var c := IndexOf(text, Fence, q).value;
      forall k | q <= k < c ensures !OccursAt(text, Fence, k) {
        IndexOfFirst(text, Fence, q, k);
      }
      FenceFreeSlice(text, q, c);
      NoFencePairTrim(text[q..c]);
  }

  /** Cleaning a cleaned reply changes nothing more. */
  lemma {:induction false} StripCodeFencesIdempotent(text: string)
    ensures StripCodeFences(StripCodeFences(text)) == StripCodeFences(text)
  {
    var r := StripCodeFences(text);
    StripCodeFencesNoPair(text);
    StripCodeFencesPlain(r);
    TrimTrimmed(r);
  }

  /** A line break, then a fence. */
  lemma {:induction false} FenceAfterBreak(after: string)
    requires OccursAt(after, Fence, 0)
    ensures IndexOf("\n" + after, Fence, 0) == Some(1)
  {
    IndexOfSkipPrefix("\n", after, Fence);
  }

  /** A fence-free payload, then a line break and a fence. */
  lemma {:induction false} FenceAfterPayload(payload: string, tail: string)
    requires IndexOf(payload, Fence, 0).None?
    requires IndexOf(tail, Fence, 0) == Some(1) && |tail| > 0 && tail[0] == '\n'
    ensures IndexOf(payload + tail, Fence, 0) == Some(|payload| + 1)
  {
    IndexOfSkipClean(payload, tail, Fence);
  }

  /** A tag free of backquotes and a line break, then the rest. */
  lemma {:induction false} FenceAfterTag(tag: string, body: string, c: nat)
    requires '`' !in tag
    requires IndexOf(body, Fence, 0) == Some(c)
    ensures IndexOf(tag + "\n" + body, Fence, 0) == Some(|tag| + 1 + c)
  {
    assert '`' !in tag + "\n";
    IndexOfSkipPrefix(tag + "\n", body, Fence);
  }

  /** An empty or `json` tag holds no backquote. */
  lemma {:induction false} TagNoBackquote(tag: string)
    requires FenceTag(tag)
    ensures '`' !in tag
  {
  }

  /** Inside `tag + "\n" + payload + "\n" + after`, with a tag free of backquotes and a
      fence-free payload, the first fence is the one that starts `after`. */
  lemma {:induction false} FenceClosesBlock(tag: string, payload: string, after: string)
    requires '`' !in tag
    requires IndexOf(payload, Fence, 0).None?
    requires OccursAt(after, Fence, 0)
    ensures IndexOf(tag + ("\n" + payload + "\n") + after, Fence, 0) == Some(|tag| + |payload| + 2)
  {
    var tail := "\n" + after;
    FenceAfterBreak(after);
    FenceAfterPayload(payload, tail);
    FenceAfterTag(tag, payload + tail, |payload| + 1);
    assert tag + ("\n" + payload + "\n") + after == tag + "\n" + (payload + tail);
  }

  /** Prose without backquotes, then a fence: that fence is the first. */
  lemma {:induction false} FenceAfterProse(prose: string, x: string)
    requires '`' !in prose
    requires OccursAt(x, Fence, 0)
    ensures IndexOf(prose + x, Fence, 0) == Some(|prose|)
  {
    IndexOfSkipPrefix(prose, x, Fence);
  }

  /** After the opening fence, the search continues in the body. */
  lemma {:induction false} FenceInBody(prose: string, inner: string, c: nat)
    requires IndexOf(inner, Fence, 0) == Some(c)
    ensures IndexOf(prose + (Fence + inner), Fence, |prose| + 3) == Some(|prose| + 3 + c)
  {
    assert prose + (Fence + inner) == (prose + Fence) + inner;
    IndexOfShift(prose + Fence, inner, Fence, 0);
  }

  /** Prose without backquotes, an opening fence, then a body whose first fence is at
      `c`: the opening fence is the one after the prose and `c` closes the block. */
  lemma {:induction false} OpeningAfterProse(prose: string, inner: string, c: nat)
    requires '`' !in prose
    requires IndexOf(inner, Fence, 0) == Some(c)
    ensures OpeningFence(prose + (Fence + inner)) == Some(|prose|)
    ensures IndexOf(prose + (Fence + inner), Fence, |prose| + 3) == Some(|prose| + 3 + c)
  {
    FenceAt(Fence + inner, 0);
    FenceAfterProse(prose, Fence + inner);
    FenceInBody(prose, inner, c);
  }

  /** An empty tag or a `json` tag, followed by a line break: the capture starts right
      after the tag. */
  lemma {:induction false} TagSkipped(text: string, p: nat, tag: string)
    requires OpeningFence(text) == Some(p)
    requires FenceTag(tag)
    requires p + 3 + |tag| < |text| && text[p + 3..p + 3 + |tag|] == tag && text[p + 3 + |tag|] == '\n'
    ensures CaptureStart(text, p) == p + 3 + |tag|
  {
    if tag != "" {
      var t := text[p + 3..p + 7];
      assert t[0] == text[p + 3] && t[1] == text[p + 4] && t[2] == text[p + 5] && t[3] == text[p + 6];
    }
  }

  /** The cleaned reply is the trimmed text between the capture start and the closing fence. */
  lemma {:induction false} StripAt(text: string, p: nat, c: nat)
    requires OpeningFence(text) == Some(p)
    requires IndexOf(text, Fence, CaptureStart(text, p)) == Some(c)
    ensures StripCodeFences(text) == Trim(text[CaptureStart(text, p)..c])
  {
  }

  /** Only a `json` tag (any letter case) is dropped; any other tag stays in the capture. */
  lemma {:induction false} StripTagRule(text: string, p: nat, c: nat)
    requires OpeningFence(text) == Some(p)
    requires IndexOf(text, Fence, p + 3) == Some(c)
    ensures JsonTagAt(text, p + 3) ==> p + 7 <= c && StripCodeFences(text) == Trim(text[p + 7..c])
    ensures !JsonTagAt(text, p + 3) ==> StripCodeFences(text) == Trim(text[p + 3..c])
  {
    StripAt(text, p, c);
  }

  /** The captured group of a block whose opening fence at `p` carries an empty or
      `json` tag followed by a line break, and whose closing fence is at `c`. */
  lemma {:induction false} CaptureAfterTag(text: string, p: nat, tag: string, c: nat)
    requires OpeningFence(text) == Some(p)
    requires IndexOf(text, Fence, p + 3) == Some(c)
    requires FenceTag(tag)
    requires p + 3 + |tag| < c <= |text|
    requires text[p + 3..p + 3 + |tag|] == tag && text[p + 3 + |tag|] == '\n'
    ensures StripCodeFences(text) == Trim(text[p + 3 + |tag|..c])
  {
    TagSkipped(text, p, tag);
    StripAt(text, p, c);
  }

  /** A payload on lines of its own trims to the trimmed payload. */
  lemma {:induction false} TrimLines(x: string, payload: string)
    requires x == "\n" + payload + "\n"
    ensures Trim(x) == Trim(payload)
  {
    TrimPadded("\n", payload, "\n");
  }

  /** The same block holding `payload` between two line breaks. */
  lemma {:induction false} FencedCapture(text: string, p: nat, tag: string, payload: string, c: nat)
    requires OpeningFence(text) == Some(p)
    requires IndexOf(text, Fence, p + 3) == Some(c)
    requires FenceTag(tag)
    requires p + 3 + |tag| <= c <= |text|
    requires text[p + 3..p + 3 + |tag|] == tag
    requires text[p + 3 + |tag|..c] == "\n" + payload + "\n"
    ensures StripCodeFences(text) == Trim(payload)
  {
    var q := p + 3 + |tag|;
    assert text[q] == text[q..c][0];
    CaptureAfterTag(text, p, tag, c);
    TrimLines(text[q..c], payload);
  }

  /** The pieces of a fenced reply, read back by position. */
  lemma {:induction false} BlockSlices(prose: string, tag: string, mid: string, after: string)
    ensures (prose + (Fence + (tag + mid + after)))[|prose| + 3..|prose| + 3 + |tag|] == tag
    ensures (prose + (Fence + (tag + mid + after)))[|prose| + 3 + |tag|..|prose| + 3 + |tag| + |mid|] == mid
  {
    var text := prose + (Fence + (tag + mid + after));
    assert text[|prose| + 3..] == tag + mid + after;
  }

  /** The fences of a fenced reply: the opening one after the prose, the closing one
      after the payload. */
  lemma {:induction false} FencedReplyFences(prose: string, tag: string, payload: string, after: string)
    requires '`' !in prose
    requires FenceTag(tag)
    requires IndexOf(payload, Fence, 0).None?
    requires OccursAt(after, Fence, 0)
    ensures OpeningFence(prose + (Fence + (tag + ("\n" + payload + "\n") + after))) == Some(|prose|)
    ensures IndexOf(prose + (Fence + (tag + ("\n" + payload + "\n") + after)), Fence, |prose| + 3)
         == Some(|prose| + 3 + (|tag| + |payload| + 2))
  {
    var inner := tag + ("\n" + payload + "\n") + after;
    assert IndexOf(inner, Fence, 0) == Some(|tag| + |payload| + 2) by {
      TagNoBackquote(tag);
      FenceClosesBlock(tag, payload, after);
    }
    OpeningAfterProse(prose, inner, |tag| + |payload| + 2);
  }

  /** The fenced reply, grouped the way the proof reads it. */
  lemma {:induction false} FencedReplyGrouped(prose: string, tag: string, payload: string, after: string)
    requires '`' !in prose
    requires FenceTag(tag)
    requires IndexOf(payload, Fence, 0).None?
    requires OccursAt(after, Fence, 0)
    ensures StripCodeFences(prose + (Fence + (tag + ("\n" + payload + "\n") + after))) == Trim(payload)
  {
    var mid := "\n" + payload + "\n";
    FencedReplyFences(prose, tag, payload, after);
    BlockSlices(prose, tag, mid, after);
    FencedCapture(prose + (Fence + (tag + mid + after)), |prose|, tag, payload, |prose| + 3 + |tag| + |mid|);
  }

  /** The reply regrouped the way the proof reads it. */
  lemma {:induction false} Regroup(prose: string, tag: string, payload: string, rest: string)
    ensures prose + Fence + tag + "\n" + payload + "\n" + Fence + rest
         == prose + (Fence + (tag + ("\n" + payload + "\n") + (Fence + rest)))
  {
  }

  /** A reply that wraps `payload` in a fenced block, opened with no tag or with a
      `json` tag in any letter case and preceded by prose without backquotes, gives
      back the trimmed payload whatever follows the block. */
  lemma {:induction false} StripFencedReply(prose: string, tag: string, payload: string, rest: string)
    requires '`' !in prose
    requires FenceTag(tag)
    requires IndexOf(payload, Fence, 0).None?
    ensures StripCodeFences(prose + Fence + tag + "\n" + payload + "\n" + Fence + rest) == Trim(payload)
  {
    var after := Fence + rest;
    Regroup(prose, tag, payload, rest);
    FenceAt(after, 0);
    FencedReplyGrouped(prose, tag, payload, after);
  }

  /** The message the catch block reports for a thrown value. */
  function ErrorMessage(thrown: Thrown): (m: string)
    ensures thrown.Error? ==> m == thrown.message
    ensures thrown.NonError? ==> m == UnknownError
  {
    match thrown
    case Error(message) => message
    case NonError => UnknownError
  }

  /** `POST`: `apiKey` is `GEMINI_API_KEY`, `requestText` the request body as text,
      `generate` the language model (given the expense text the prompt embeds;
      the rest of the prompt is fixed wording) and `parseJson` is `JSON.parse`. */
  function Post<V>(apiKey: Option<string>, requestText: string,
                   generate: string -> Attempt<string>,
                   parseJson: string -> Attempt<V>): (h: Handled<V>)
    ensures !KeyConfigured(apiKey) ==>
      h == Handled(Response(500, ErrorPayload(MissingKeyError)), None)
    ensures KeyConfigured(apiKey) && AllSpace(requestText) ==>
      h == Handled(Response(400, ErrorPayload(EmptyBodyError)), None)
    ensures h.modelInput.Some? <==> KeyConfigured(apiKey) && !AllSpace(requestText)
    ensures h.modelInput.Some? ==> h.modelInput.value == Trim(requestText) && h.modelInput.value != ""
    ensures h.response.status == 200 <==> h.response.payload.DataPayload?
    ensures h.response.status == 200 ==>
      h.modelInput.Some? && generate(h.modelInput.value).Returned? &&
      parseJson(StripCodeFences(generate(h.modelInput.value).value)) == Returned(h.response.payload.data)
    ensures h.modelInput.Some? && generate(h.modelInput.value).Returned? &&
            parseJson(StripCodeFences(generate(h.modelInput.value).value)).Returned? ==>
      h.response == Response(200, DataPayload(parseJson(StripCodeFences(generate(h.modelInput.value).value)).value))
    ensures h.modelInput.Some? && generate(h.modelInput.value).Returned? &&
            parseJson(StripCodeFences(generate(h.modelInput.value).value)).Threw? ==>
      h.response == Response(500, ErrorPayload(ErrorMessage(parseJson(StripCodeFences(generate(h.modelInput.value).value)).thrown)))
    ensures h.modelInput.Some? && h.response.status != 200 ==>
      h.response.status == 500 &&
      (generate(h.modelInput.value).Threw? ==>
         h.response.payload == ErrorPayload(ErrorMessage(generate(h.modelInput.value).thrown)))
  {
    if !KeyConfigured(apiKey) then
      Handled(Response(500, ErrorPayload(MissingKeyError)), None)
    else
      var body := Trim(requestText);
      if body == "" then
        Handled(Response(400, ErrorPayload(EmptyBodyError)), None)
      else
        TrimIdempotent(requestText);
        var expenseText := Trim(body);
        var response :=
          match generate(expenseText)
          case Threw(thrown) => Response(500, ErrorPayload(ErrorMessage(thrown)))
          case Returned(raw) =>
            match parseJson(StripCodeFences(raw))
            case Threw(thrown) => Response(500, ErrorPayload(ErrorMessage(thrown)))
            case Returned(expenses) => Response(200, DataPayload(expenses));
        Handled(response, Some(expenseText))
  }

  /** The key gate comes first: without a key the body is never looked at. */
  lemma {:induction false} KeyCheckedBeforeBody<V>(apiKey: Option<string>, text1: string, text2: string,
                                generate: string -> Attempt<string>, parseJson: string -> Attempt<V>)
    requires !KeyConfigured(apiKey)
    ensures Post(apiKey, text1, generate, parseJson) == Post(apiKey, text2, generate, parseJson)
  {
  }
}
