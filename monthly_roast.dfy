/**
  The roast modal (components/monthly-roast.tsx): the open / loading / text state
  stepped by `handleRoast`, and the rendering of the roast text, which is split on
  the regular expression `/(\*[^*]+\*)/` and shows every piece that starts and ends
  with `*` in bold without its first and last character.
*/
module MonthlyRoast {
  import opened Optional
  import opened Http

  /** Text the modal shows when the request fails. */
  const StunnedText := "The AI is too stunned by your spending to speak. Try again later."

  /** A match of `\*[^*]+\*`: a star, one or more other characters, a star. */
  predicate IsEmphasis(t: string) {
    |t| >= 3 && t[0] == '*' && t[|t| - 1] == '*' && forall k :: 0 < k < |t| - 1 ==> t[k] != '*'
  }

  /** No stretch of `t` matches `\*[^*]+\*`. */
  predicate NoEmphasis(t: string) {
    forall a, b :: 0 <= a < b <= |t| ==> !IsEmphasis(t[a..b])
  }

  /** The first `*` at or after `i`. */
  function NextStar(s: string, i: nat): (q: Option<nat>)
    requires i <= |s|
    decreases |s| - i
    ensures q.Some? ==> i <= q.value < |s| && s[q.value] == '*'
    ensures q.Some? ==> forall k :: i <= k < q.value ==> s[k] != '*'
    ensures q.None? ==> forall k :: i <= k < |s| ==> s[k] != '*'
  {
    if i == |s| then None
    else if s[i] == '*' then Some(i)
    else NextStar(s, i + 1)
  }

  /**
    Trying the regular expression at `p`: `[^*]+` takes every non-star after the
    opening star, so the match succeeds exactly when the next star comes at least
    two places later; the result is the end of the match.
  */
  function EmphasisAt(s: string, p: nat): (e: Option<nat>)
    requires p < |s|
    ensures e.Some? ==> p < e.value <= |s| && IsEmphasis(s[p..e.value])
  {
    if s[p] != '*' then None
    else match NextStar(s, p + 1)
      case None => None
      case Some(q) => if q > p + 1 then Some(q + 1) else None
  }

  /** Whatever matches the regular expression at `p` is what the search finds there. */
  lemma {:induction false} EmphasisAtFinds(s: string, p: nat, e: nat)
    requires p < e <= |s| && IsEmphasis(s[p..e])
    ensures EmphasisAt(s, p) == Some(e)
  {
    var t := s[p..e];
    assert s[p] == t[0] && s[e - 1] == t[|t| - 1];
    forall k | p + 1 <= k < e - 1 ensures s[k] != '*' {
      assert s[k] == t[k - p];
    }
    var q := NextStar(s, p + 1);
    assert q.Some? && q.value == e - 1 by {
      assert s[e - 1] == '*';
    }
  }

  /**
    `s.split(/(\*[^*]+\*)/g)` from scan position `p`, with the current plain piece
    starting at `start`: plain pieces alternate with the captured matches.
  */
  function SplitFrom(s: string, start: nat, p: nat): (parts: seq<string>)
    requires start <= p <= |s|
    decreases |s| - p
    ensures |parts| % 2 == 1
    ensures forall k :: 0 <= k < |parts| && k % 2 == 1 ==> IsEmphasis(parts[k])
  {
    if p == |s| then [s[start..]]
    else match EmphasisAt(s, p)
      case Some(e) =>
        var rest := SplitFrom(s, e, e);
        var parts := [s[start..p], s[p..e]] + rest;
        assert forall k :: 2 <= k < |parts| ==> parts[k] == rest[k - 2];
        parts
      case None => SplitFrom(s, start, p + 1)
  }

  /** The pieces of the whole roast text. */
  function Segments(s: string): (parts: seq<string>)
    ensures |parts| % 2 == 1
  {
    SplitFrom(s, 0, 0)
  }

  /** The pieces joined back together. */
  function Concat(parts: seq<string>): string {
    if parts == [] then [] else parts[0] + Concat(parts[1..])
  }

  lemma {:induction false} ThreeSlices(s: string, a: nat, b: nat, c: nat)
    requires a <= b <= c <= |s|
    ensures s[a..] == s[a..b] + (s[b..c] + s[c..])
  {
    assert s[a..] == s[a..b] + s[b..];
    assert s[b..] == s[b..c] + s[c..];
  }

  lemma {:induction false} SplitFromConcat(s: string, start: nat, p: nat)
    requires start <= p <= |s|
    decreases |s| - p
    ensures Concat(SplitFrom(s, start, p)) == s[start..]
  {
    if p < |s| {
      match EmphasisAt(s, p)
      case Some(e) =>
        var rest := SplitFrom(s, e, e);
        SplitFromConcat(s, e, e);
        var parts := [s[start..p], s[p..e]] + rest;
        assert parts[1..] == [s[p..e]] + rest && parts[1..][1..] == rest;
        ThreeSlices(s, start, p, e);
      case None =>
        SplitFromConcat(s, start, p + 1);
    }
  }

  /** Joining the pieces in order gives back the roast text exactly. */
  lemma {:induction false} SegmentsConcat(s: string)
    ensures Concat(Segments(s)) == s
  {
    SplitFromConcat(s, 0, 0);
  }

  /** A stretch scanned without a match holds no emphasis anywhere inside it. */
  lemma {:induction false} ScannedPlain(s: string, start: nat, p: nat)
    requires start <= p <= |s|
    requires forall k :: start <= k < p ==> EmphasisAt(s, k).None?
    ensures NoEmphasis(s[start..p])
  {
    var t := s[start..p];
    forall a, b | 0 <= a < b <= |t| ensures !IsEmphasis(t[a..b]) {
      assert t[a..b] == s[start + a..start + b] by {
        forall i | 0 <= i < b - a ensures t[a..b][i] == s[start + a..start + b][i] {
          assert t[a..b][i] == t[a + i] == s[start + a + i];
        }
      }
      if IsEmphasis(t[a..b]) {
        EmphasisAtFinds(s, start + a, start + b);
      }
    }
  }

  /**
    The leftmost rule of the scan: with the pieces laid end to end from `start`,
    no match of the regular expression starts at any position of a plain piece.
  */
  predicate ScanSkips(s: string, start: nat, parts: seq<string>) {
    forall k :: 0 <= k < |parts| && k % 2 == 0 ==> NoMatchStarts(s, start + |Concat(parts[..k])|, |parts[k]|)
  }

  /** No match of the regular expression starts at any of the `n` positions from `o`, all inside `s`. */
  predicate NoMatchStarts(s: string, o: nat, n: nat) {
    forall j :: o <= j < o + n ==> j < |s| && EmphasisAt(s, j).None?
  }

  /** The pieces before the `k`-th of `[a, b] + rest`, for `k >= 2`, join to `a + b` and the pieces of `rest` before `k - 2`. */
  lemma {:induction false} ConcatPrefix(a: string, b: string, rest: seq<string>, k: nat)
    requires 2 <= k <= 2 + |rest|
    ensures Concat(([a, b] + rest)[..k]) == a + (b + Concat(rest[..k - 2]))
  {
    var pre := ([a, b] + rest)[..k];
    assert pre[0] == a && pre[1..] == [b] + rest[..k - 2];
    assert pre[1..][0] == b && pre[1..][1..] == rest[..k - 2];
  }

  lemma {:induction false} SplitFromPlain(s: string, start: nat, p: nat)
    requires start <= p <= |s|
    requires forall k :: start <= k < p ==> EmphasisAt(s, k).None?
    decreases |s| - p
    ensures forall k :: 0 <= k < |SplitFrom(s, start, p)| && k % 2 == 0 ==> NoEmphasis(SplitFrom(s, start, p)[k])
  {
    var parts := SplitFrom(s, start, p);
    if p == |s| {
      ScannedPlain(s, start, p);
      assert parts == [s[start..]] && s[start..] == s[start..p];
    } else {
      match EmphasisAt(s, p)
      case Some(e) =>
        ScannedPlain(s, start, p);
        SplitFromPlain(s, e, e);
        assert forall k :: 2 <= k < |parts| ==> parts[k] == SplitFrom(s, e, e)[k - 2];
      case None =>
        SplitFromPlain(s, start, p + 1);
    }
  }

  /** A scan from `p` whose plain piece began at `start` lets no match start inside a plain piece. */
  lemma {:induction false} SplitFromSkips(s: string, start: nat, p: nat)
    requires start <= p <= |s|
    requires forall k :: start <= k < p ==> EmphasisAt(s, k).None?
    decreases |s| - p
    ensures ScanSkips(s, start, SplitFrom(s, start, p))
  {
    var parts := SplitFrom(s, start, p);
    if p == |s| {
      assert parts == [s[start..]] && parts[..0] == [];
    } else {
      match EmphasisAt(s, p)
      case Some(e) =>
        var rest := SplitFrom(s, e, e);
        SplitFromSkips(s, e, e);
        assert parts == [s[start..p], s[p..e]] + rest;
        forall k | 0 <= k < |parts| && k % 2 == 0
          ensures NoMatchStarts(s, start + |Concat(parts[..k])|, |parts[k]|)
        {
          if k == 0 {
            assert parts[..0] == [] && parts[0] == s[start..p];
          } else {
            ConcatPrefix(s[start..p], s[p..e], rest, k);
            assert start + |Concat(parts[..k])| == e + |Concat(rest[..k - 2])|;
            assert parts[k] == rest[k - 2];
          }
        }
      case None =>
        SplitFromSkips(s, start, p + 1);
    }
  }

  /**
    Captured pieces are the odd ones and are emphasis; no plain piece contains any,
    and no match starts inside a plain piece, so each capture is the leftmost match
    after the previous one.
  */
  lemma {:induction false} SegmentsAlternate(s: string)
    ensures forall k :: 0 <= k < |Segments(s)| && k % 2 == 1 ==> IsEmphasis(Segments(s)[k])
    ensures forall k :: 0 <= k < |Segments(s)| && k % 2 == 0 ==> NoEmphasis(Segments(s)[k])
    ensures forall k :: 0 <= k < |Segments(s)| && k % 2 == 0 ==>
      NoMatchStarts(s, |Concat(Segments(s)[..k])|, |Segments(s)[k]|)
  {
    SplitFromPlain(s, 0, 0);
    SplitFromSkips(s, 0, 0);
    assert ScanSkips(s, 0, Segments(s));
  }

  /** Scanning past positions where no match starts leaves the pieces unchanged. */
  lemma {:induction false} SplitFromAhead(s: string, start: nat, p: nat, q: nat)
    requires start <= p <= q <= |s|
    requires forall k :: p <= k < q ==> EmphasisAt(s, k).None?
    decreases q - p
    ensures SplitFrom(s, start, p) == SplitFrom(s, start, q)
  {
    if p < q {
      SplitFromAhead(s, start, p + 1, q);
    }
  }

  /** The first two pieces and the rest, joined. */
  lemma {:induction false} ConcatTwo(parts: seq<string>)
    requires |parts| >= 2
    ensures Concat(parts) == parts[0] + (parts[1] + Concat(parts[2..]))
  {
    assert parts[1..][0] == parts[1] && parts[1..][1..] == parts[2..];
  }

  /** Reading `a`, `b` and `c` back out of a suffix of `s` that they make up. */
  lemma {:induction false} SuffixParts(s: string, start: nat, a: string, b: string, c: string)
    requires start <= |s| && s[start..] == a + (b + c)
    ensures start + |a| + |b| <= |s|
    ensures s[start..start + |a|] == a
    ensures s[start + |a|..start + |a| + |b|] == b
    ensures s[start + |a| + |b|..] == c
  {
    var t := s[start..];
    assert s[start..start + |a|] == t[..|a|];
    assert s[start + |a|..start + |a| + |b|] == t[|a|..|a| + |b|];
    assert s[start + |a| + |b|..] == t[|a| + |b|..];
  }

  /** The leftmost rule for `[a, b] + rest` from `start` is the rule for `rest` after `a` and `b`. */
  lemma {:induction false} ScanSkipsRest(s: string, start: nat, a: string, b: string, rest: seq<string>)
    requires ScanSkips(s, start, [a, b] + rest)
    ensures NoMatchStarts(s, start, |a|)
    ensures ScanSkips(s, start + |a| + |b|, rest)
  {
    var parts := [a, b] + rest;
    assert parts[..0] == [] && parts[0] == a;
    forall k | 0 <= k < |rest| && k % 2 == 0
      ensures NoMatchStarts(s, start + |a| + |b| + |Concat(rest[..k])|, |rest[k]|)
    {
      ConcatPrefix(a, b, rest, k + 2);
      assert rest[k] == parts[k + 2];
      assert NoMatchStarts(s, start + |Concat(parts[..k + 2])|, |parts[k + 2]|);
    }
  }

  /**
    Any alternation of plain pieces and matches that joins to `s[start..]` and lets
    no match start inside a plain piece is the scan from `start`.
  */
  lemma {:induction false} SplitFromUnique(s: string, start: nat, parts: seq<string>)
    requires start <= |s|
    requires Concat(parts) == s[start..] && |parts| % 2 == 1
    requires forall k :: 0 <= k < |parts| && k % 2 == 1 ==> IsEmphasis(parts[k])
    requires ScanSkips(s, start, parts)
    decreases |parts|
    ensures parts == SplitFrom(s, start, start)
  {
    var a := parts[0];
    var o := start + |a|;
    if |parts| == 1 {
      assert parts[..0] == [];
      assert NoMatchStarts(s, start, |a|);
      assert Concat(parts) == a + Concat(parts[1..]) && parts[1..] == [];
      assert a == s[start..] && o == |s|;
      SplitFromAhead(s, start, start, o);
      assert SplitFrom(s, start, o) == [s[start..]];
      assert parts == [a];
    } else {
      var b, rest := parts[1], parts[2..];
      var e := o + |b|;
      assert parts == [a, b] + rest;
      ConcatTwo(parts);
      SuffixParts(s, start, a, b, Concat(rest));
      ScanSkipsRest(s, start, a, b, rest);
      SplitFromAhead(s, start, start, o);
      EmphasisAtFinds(s, o, e);
      assert forall k :: 0 <= k < |rest| && k % 2 == 1 ==> rest[k] == parts[k + 2];
      SplitFromUnique(s, e, rest);
    }
  }

  /**
    The stated properties fix the pieces: odd count, matches at odd positions,
    joining back to the text and no match starting inside a plain piece hold of
    the scan's pieces and of nothing else.
  */
  lemma {:induction false} SegmentsUnique(s: string, parts: seq<string>)
    requires Concat(parts) == s && |parts| % 2 == 1
    requires forall k :: 0 <= k < |parts| && k % 2 == 1 ==> IsEmphasis(parts[k])
    requires forall k :: 0 <= k < |parts| && k % 2 == 0 ==>
      NoMatchStarts(s, |Concat(parts[..k])|, |parts[k]|)
    ensures parts == Segments(s)
  {
    forall k | 0 <= k < |parts| && k % 2 == 0
      ensures NoMatchStarts(s, 0 + |Concat(parts[..k])|, |parts[k]|)
    {
    }
    assert s[0..] == s;
    SplitFromUnique(s, 0, parts);
  }

  /** A rendered piece: a bold `<span>` or the text itself. */
  datatype Piece = Bold(text: string) | Plain(text: string)

  /** `part.slice(1, -1)`. */
  function Inner(part: string): string {
    if |part| >= 2 then part[1..|part| - 1] else ""
  }

  /**
    The `map` callback: bold when the piece starts and ends with `*`, showing it
    without those two characters; any other piece verbatim.
  */
  function RenderPart(part: string): (r: Piece)
    ensures r.Bold? <==> |part| > 0 && part[0] == '*' && part[|part| - 1] == '*'
    ensures r.Bold? && |part| >= 2 ==> part == "*" + r.text + "*"
    ensures r.Bold? && |part| < 2 ==> r.text == ""
    ensures r.Plain? ==> r.text == part
  {
    if |part| > 0 && part[0] == '*' && part[|part| - 1] == '*' then Bold(Inner(part)) else Plain(part)
  }

  /** `roast?.split(...).map(...)`: nothing for a null roast. */
  function Render(roast: Option<string>): (pieces: seq<Piece>)
    ensures roast.None? ==> pieces == []
    ensures roast.Some? ==> |pieces| == |Segments(roast.value)|
    ensures roast.Some? ==> forall k :: 0 <= k < |pieces| ==> pieces[k] == RenderPart(Segments(roast.value)[k])
  {
    match roast
    case None => []
    case Some(text) =>
      var parts := Segments(text);
      seq(|parts|, k requires 0 <= k < |parts| => RenderPart(parts[k]))
  }

  /** Every captured piece is shown bold, as the non-empty, star-free text between its stars. */
  lemma {:induction false} RenderEmphasis(text: string, k: nat)
    requires k < |Render(Some(text))| && k % 2 == 1
    ensures Render(Some(text))[k].Bold?
    ensures "*" + Render(Some(text))[k].text + "*" == Segments(text)[k]
    ensures |Render(Some(text))[k].text| >= 1 && '*' !in Render(Some(text))[k].text
  {
    SegmentsAlternate(text);
    var seg := Segments(text)[k];
    assert IsEmphasis(seg);
    var shown := Render(Some(text))[k].text;
    assert shown == seg[1..|seg| - 1];
    forall i | 0 <= i < |shown| ensures shown[i] != '*' {
      assert shown[i] == seg[i + 1];
    }
  }

  /**
    Markdown-style `**Warning**` splits into a lone star, the captured `*Warning*`
    and a lone star.
  */
  lemma {:induction false} SegmentsDoubleStars()
    ensures Segments("**Warning**") == ["*", "*Warning*", "*"]
  {
    var s := "**Warning**";
    assert NextStar(s, 1) == Some(1);
    assert EmphasisAt(s, 0) == None;
    assert NextStar(s, 2) == Some(9) by {
      assert NextStar(s, 9) == Some(9);
    }
    assert EmphasisAt(s, 1) == Some(10);
    assert NextStar(s, 11) == None;
    assert EmphasisAt(s, 10) == None;
    assert s[10..] == "*";
    assert SplitFrom(s, 10, 10) == ["*"] by {
      assert SplitFrom(s, 10, 11) == [s[10..]];
    }
    assert s[0..1] == "*" && s[1..10] == "*Warning*";
    assert SplitFrom(s, 0, 1) == ["*", "*Warning*", "*"];
  }

  /** In `*a*b*` the leftmost match `*a*` is captured, leaving `b*` plain. */
  lemma {:induction false} SegmentsLeftmost()
    ensures Segments("*a*b*") == ["", "*a*", "b*"]
  {
    var s := "*a*b*";
    assert NextStar(s, 1) == Some(2) by {
      assert NextStar(s, 2) == Some(2);
    }
    assert EmphasisAt(s, 0) == Some(3);
    assert NextStar(s, 5) == None;
    assert EmphasisAt(s, 3) == None;
    assert NextStar(s, 3) == Some(4) by {
      assert NextStar(s, 4) == Some(4);
    }
    assert EmphasisAt(s, 4) == None;
    assert SplitFrom(s, 3, 3) == ["b*"] by {
      assert s[3..] == "b*";
      assert SplitFrom(s, 3, 5) == [s[3..]];
      assert SplitFrom(s, 3, 4) == SplitFrom(s, 3, 5);
    }
    assert s[0..0] == "" && s[0..3] == "*a*";
  }

  /**
    Each piece of `**Warning**` starts and ends with `*`, so all three are bold
    and the outer stars vanish from the display.
  */
  lemma {:induction false} RenderDoubleStars()
    ensures Render(Some("**Warning**")) == [Bold(""), Bold("Warning"), Bold("")]
  {
    var parts := Segments("**Warning**");
    SegmentsDoubleStars();
    assert RenderPart(parts[0]) == Bold("");
    assert RenderPart(parts[1]) == Bold("Warning") by {
      assert Inner("*Warning*") == "Warning";
    }
    assert RenderPart(parts[2]) == Bold("");
    var r := Render(Some("**Warning**"));
    assert |r| == 3 && r == [r[0], r[1], r[2]];
  }

  /** What a `fetch('/api/roast')` ended in, as far as the modal can tell. */
  datatype RoastReply =
    | Rejected                       // a response whose `ok` is false
    | Failed                         // `fetch` or `response.json()` threw
    | Replied(roast: Option<string>) // `data.roast`, `None` when the field is absent

  /** The modal's reading of a roast route reply: `ok` means a 2xx status. */
  function ReplyOf<V>(outcome: Attempt<Response<V>>): (r: RoastReply)
    ensures r.Replied? <==> outcome.Returned? && 200 <= outcome.value.status < 300
    ensures r.Replied? ==> (r.roast.Some? <==> outcome.value.payload.RoastPayload?)
    ensures r.Replied? && r.roast.Some? ==> r.roast.value == outcome.value.payload.roast
  {
    match outcome
    case Threw(_) => Failed
    case Returned(response) =>
      if 200 <= response.status < 300 then
        Replied(if response.payload.RoastPayload? then Some(response.payload.roast) else None)
      else Rejected
  }

  /** What the modal shows. */
  datatype View = Closed | Thinking | Review(pieces: seq<Piece>)

  class RoastModal {
    var isOpen: bool
    var isLoading: bool
    var roast: Option<string>

    /** Lines 10-12: closed, idle, no roast. */
    constructor ()
      ensures !isOpen && !isLoading && roast == None
    {
      isOpen := false;
      isLoading := false;
      roast := None;
    }

    /** Closed, the spinner while loading, else the rendered roast. */
    function Shown(): (view: View)
      reads this
      ensures view == Closed <==> !isOpen
      ensures view == Thinking <==> isOpen && isLoading
      ensures view.Review? ==> view.pieces == Render(roast) && (roast.None? ==> view.pieces == [])
    {
      if !isOpen then Closed
      else if isLoading then Thinking
      else Review(Render(roast))
    }

    /** `handleRoast` up to its request: open, loading, no roast. */
    method StartRoast()
      modifies this
      ensures isOpen && isLoading && roast == None
      ensures Shown() == Thinking
    {
      isOpen := true;
      isLoading := true;
      roast := None;
    }

    /** `handleRoast` after its request: the roast or the fallback text, then `finally`. */
    method FinishRoast(reply: RoastReply)
      modifies this
      ensures isOpen == old(isOpen) && !isLoading
      ensures roast == if reply.Replied? then reply.roast else Some(StunnedText)
      ensures isOpen ==> Shown() == Review(Render(roast))
    {
      match reply {
        case Replied(text) =>
          roast := text;
        case _ =>
          roast := Some(StunnedText);
      }
      isLoading := false;
    }

    /** The "Okay, I'll do better" button. */
    method Close()
      modifies this
      ensures !isOpen && isLoading == old(isLoading) && roast == old(roast)
      ensures Shown() == Closed
    {
      isOpen := false;
    }
  }

  /** One click end to end: a failed request shows the fallback text, a roast is shown rendered. */
  method HandleRoast(modal: RoastModal, reply: RoastReply) returns (shown: View)
    modifies modal
    ensures !modal.isLoading && modal.isOpen
    ensures reply.Replied? ==> shown == Review(Render(reply.roast))
    ensures !reply.Replied? ==> shown == Review(Render(Some(StunnedText)))
  {
    modal.StartRoast();
    modal.FinishRoast(reply);
    shown := modal.Shown();
  }
}
