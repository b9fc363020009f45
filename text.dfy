/** The optional value used wherever the source has `null`, `undefined` or "not found". */
module Optional {
  datatype Option<+T> = None | Some(value: T)
}

/**
  The JavaScript string primitives the core relies on: `\s` and `trim`,
  `includes`, ASCII `toLowerCase` and `join`. Two operations serve the model
  only. `IndexOf`, a first-occurrence search, models the fence regex. A
  one-character split states that a joined text reads back part by part.
*/
module Text {
  import opened Optional

  /** The characters JavaScript's `\s` and `String.prototype.trim` treat as
      white space: the ECMAScript WhiteSpace and LineTerminator code points. */
  predicate IsSpace(c: char) {
    var n := c as int;
    (0x09 <= n <= 0x0D) || n == 0x20 || n == 0xA0 || n == 0x1680 ||
    (0x2000 <= n <= 0x200A) || n == 0x2028 || n == 0x2029 || n == 0x202F ||
    n == 0x205F || n == 0x3000 || n == 0xFEFF
  }

  predicate AllSpace(s: string) {
    forall k :: 0 <= k < |s| ==> IsSpace(s[k])
  }

  /** Neither the first nor the last character is white space. */
  predicate NoOuterSpace(s: string) {
    s == [] || (!IsSpace(s[0]) && !IsSpace(s[|s| - 1]))
  }

  /** The first index at or after `i` that does not hold white space, or `|s|`. */
  function SkipSpaces(s: string, i: nat): (n: nat)
    requires i <= |s|
    decreases |s| - i
    ensures i <= n <= |s|
    ensures forall k :: i <= k < n ==> IsSpace(s[k])
    ensures n < |s| ==> !IsSpace(s[n])
  {
    if i < |s| && IsSpace(s[i]) then SkipSpaces(s, i + 1) else i
  }

  /** Walking back from `j`, but not past `lo`: the end of the text before the
      trailing run of white space. */
  function BackSpaces(s: string, lo: nat, j: nat): (e: nat)
    requires lo <= j <= |s|
    decreases j
    ensures lo <= e <= j
    ensures forall k :: e <= k < j ==> IsSpace(s[k])
    ensures e > lo ==> !IsSpace(s[e - 1])
  {
    if j > lo && IsSpace(s[j - 1]) then BackSpaces(s, lo, j - 1) else j
  }

  /** Where the text kept by `trim` starts. */
  function TrimStart(s: string): nat
    ensures TrimStart(s) <= |s|
  {
    SkipSpaces(s, 0)
  }

  /** Where the text kept by `trim` ends. */
  function TrimEnd(s: string): (e: nat)
    ensures TrimStart(s) <= e <= |s|
  {
    BackSpaces(s, TrimStart(s), |s|)
  }

  /** `String.prototype.trim`: the slice of `s` left once white space is cut from both ends. */
  function Trim(s: string): (r: string)
    ensures NoOuterSpace(r)
    ensures r == [] <==> AllSpace(s)
  {
    var n := TrimStart(s);
    var e := TrimEnd(s);
    assert AllSpace(s) ==> n == |s|;
    s[n..e]
  }

  /** The white space `trim` removes. */
  lemma {:induction false} TrimCuts(s: string)
    ensures forall k :: 0 <= k < TrimStart(s) ==> IsSpace(s[k])
    ensures forall k :: TrimEnd(s) <= k < |s| ==> IsSpace(s[k])
  {
  }

  /** The white-space run at the head ends where the first other character stands. */
  lemma {:induction false} SkipSpacesAt(s: string, i: nat, n: nat)
    requires i <= n <= |s|
    requires forall k :: i <= k < n ==> IsSpace(s[k])
    requires n < |s| ==> !IsSpace(s[n])
    ensures SkipSpaces(s, i) == n
    decreases n - i
  {
    if i < n {
      SkipSpacesAt(s, i + 1, n);
    }
  }

  /** The white-space run at the tail starts right after the last other character. */
  lemma {:induction false} BackSpacesAt(s: string, lo: nat, j: nat, e: nat)
    requires lo <= e <= j <= |s|
    requires forall k :: e <= k < j ==> IsSpace(s[k])
    requires e > lo ==> !IsSpace(s[e - 1])
    ensures BackSpaces(s, lo, j) == e
    decreases j - e
  {
    if e < j {
      BackSpacesAt(s, lo, j - 1, e);
    }
  }

  /** Trimming is determined by the decomposition `spaces + r + spaces` with `r` free of outer space. */
  lemma {:induction false} TrimUnique(a: string, r: string, b: string)
    requires AllSpace(a) && AllSpace(b) && NoOuterSpace(r)
    ensures Trim(a + r + b) == r
  {
    var s := a + r + b;
    if r == [] {
      assert AllSpace(s) by {
        forall k | 0 <= k < |s| ensures IsSpace(s[k]) {
          if k < |a| { assert s[k] == a[k]; } else { assert s[k] == b[k - |a|]; }
        }
      }
    } else {
      assert s[|a|] == r[0];
      assert s[|a| + |r| - 1] == r[|r| - 1];
      forall k | 0 <= k < |a| ensures IsSpace(s[k]) {
        assert s[k] == a[k];
      }
      forall k | |a| + |r| <= k < |s| ensures IsSpace(s[k]) {
        assert s[k] == b[k - |a| - |r|];
      }
      SkipSpacesAt(s, 0, |a|);
      BackSpacesAt(s, |a|, |s|, |a| + |r|);
      assert s[|a|..|a| + |r|] == r;
    }
  }

  /** Trimming a string already free of outer white space changes nothing. */
  lemma {:induction false} TrimTrimmed(s: string)
    requires NoOuterSpace(s)
    ensures Trim(s) == s
  {
    TrimUnique([], s, []);
    assert [] + s + [] == s;
  }

  /** `trim` is idempotent. */
  lemma {:induction false} TrimIdempotent(s: string)
    ensures Trim(Trim(s)) == Trim(s)
  {
    TrimTrimmed(Trim(s));
  }

  /** White space followed by white space. */
  lemma {:induction false} AllSpaceConcat(x: string, y: string)
    requires AllSpace(x) && AllSpace(y)
    ensures AllSpace(x + y)
  {
    forall k | 0 <= k < |x + y| ensures IsSpace((x + y)[k]) {
      if k < |x| { assert (x + y)[k] == x[k]; } else { assert (x + y)[k] == y[k - |x|]; }
    }
  }

  /** The pieces `trim` cuts off are white space. */
  lemma {:induction false} TrimCutPieces(s: string)
    ensures AllSpace(s[..TrimStart(s)]) && AllSpace(s[TrimEnd(s)..])
  {
    TrimCuts(s);
    var n := TrimStart(s);
    var e := TrimEnd(s);
    forall k | 0 <= k < n ensures IsSpace(s[..n][k]) {
      assert s[..n][k] == s[k];
    }
    forall k | 0 <= k < |s| - e ensures IsSpace(s[e..][k]) {
      assert s[e..][k] == s[e + k];
    }
  }

  /** `a + s + b` cut around the part of `s` that `trim` keeps. */
  lemma {:induction false} PaddedPieces(a: string, s: string, b: string, n: nat, e: nat)
    requires n <= e <= |s|
    ensures a + s + b == (a + s[..n]) + s[n..e] + (s[e..] + b)
  {
    assert s == s[..n] + s[n..e] + s[e..];
  }

  /** White space added around a string is removed again by `trim`. */
  lemma {:induction false} TrimPadded(a: string, s: string, b: string)
    requires AllSpace(a) && AllSpace(b)
    ensures Trim(a + s + b) == Trim(s)
  {
    var n := TrimStart(s);
    var e := TrimEnd(s);
    TrimCutPieces(s);
    AllSpaceConcat(a, s[..n]);
    AllSpaceConcat(s[e..], b);
    PaddedPieces(a, s, b, n, e);
    TrimUnique(a + s[..n], Trim(s), s[e..] + b);
  }

  /** The character `i` places after index `k`. Naming it gives the quantifier in
      `OccursAt` a trigger of its own, so that it is not instantiated for every
      character of `pat` in sight. */
  function CharAt(s: string, k: int, i: int): char
    requires 0 <= k + i < |s|
  {
    s[k + i]
  }

  /** `pat` occurs in `s` starting at index `k`. */
  predicate OccursAt(s: string, pat: string, k: int) {
    0 <= k && k + |pat| <= |s| &&
    forall i {:trigger CharAt(s, k, i)} :: 0 <= i < |pat| ==> CharAt(s, k, i) == pat[i]
  }

  /** `s.indexOf(pat, from)`: the first occurrence of `pat` at or after `from`. */
  function IndexOf(s: string, pat: string, from: nat): (r: Option<nat>)
    decreases |s| - from
    ensures r.Some? ==> from <= r.value && OccursAt(s, pat, r.value)
  {
    if from + |pat| > |s| then None
    else if OccursAt(s, pat, from) then Some(from)
    else IndexOf(s, pat, from + 1)
  }

  /** Every occurrence at or after `from` is found: the search stops at it or earlier. */
  lemma {:induction false} IndexOfFinds(s: string, pat: string, from: nat, k: nat)
    requires from <= k && OccursAt(s, pat, k)
    ensures IndexOf(s, pat, from).Some? && IndexOf(s, pat, from).value <= k
    decreases k - from
  {
    if from < k && !OccursAt(s, pat, from) {
      IndexOfFinds(s, pat, from + 1, k);
    }
  }

  /** Nothing occurs between the start of the search and what it finds. */
  lemma {:induction false} IndexOfFirst(s: string, pat: string, from: nat, k: nat)
    requires from <= k
    requires IndexOf(s, pat, from).None? || k < IndexOf(s, pat, from).value
    ensures !OccursAt(s, pat, k)
  {
    if OccursAt(s, pat, k) {
      IndexOfFinds(s, pat, from, k);
    }
  }

  /** With no occurrence in `[from, c)`, searching from `from` is searching from `c`. */
  lemma {:induction false} IndexOfUpTo(s: string, pat: string, from: nat, c: nat)
    requires from <= c
    requires forall k :: from <= k < c ==> !OccursAt(s, pat, k)
    ensures IndexOf(s, pat, from) == IndexOf(s, pat, c)
    decreases c - from
  {
    if from < c {
      assert !OccursAt(s, pat, from);
      IndexOfUpTo(s, pat, from + 1, c);
    }
  }

  /** An occurrence at `c` with none in `[from, c)` is what the search finds. */
  lemma {:induction false} IndexOfExact(s: string, pat: string, from: nat, c: nat)
    requires from <= c && OccursAt(s, pat, c)
    requires forall k :: from <= k < c ==> !OccursAt(s, pat, k)
    ensures IndexOf(s, pat, from) == Some(c)
  {
    IndexOfUpTo(s, pat, from, c);
  }

  /** Searching from a later start that does not pass the first occurrence finds the same occurrence. */
  lemma {:induction false} IndexOfLater(s: string, pat: string, a: nat, b: nat)
    requires a <= b
    requires IndexOf(s, pat, a).Some? && b <= IndexOf(s, pat, a).value
    ensures IndexOf(s, pat, b) == IndexOf(s, pat, a)
  {
    var c := IndexOf(s, pat, a).value;
    forall k | b <= k < c ensures !OccursAt(s, pat, k) {
      IndexOfFirst(s, pat, a, k);
    }
    IndexOfExact(s, pat, b, c);
  }

  /** An occurrence inside a slice is an occurrence in the whole. */
  lemma {:induction false} OccursInSlice(s: string, q: nat, c: nat, pat: string, k: nat)
    requires q <= c <= |s|
    ensures OccursAt(s[q..c], pat, k) ==> OccursAt(s, pat, q + k)
  {
    if OccursAt(s[q..c], pat, k) {
      forall j | 0 <= j < |pat| ensures CharAt(s, q + k, j) == pat[j] {
        assert CharAt(s[q..c], k, j) == pat[j];
      }
    }
  }

  /** Occurrences in `a + b` from index `|a|` on are the occurrences in `b`. */
  lemma {:induction false} OccursAtShift(a: string, b: string, pat: string, k: nat)
    ensures OccursAt(a + b, pat, |a| + k) <==> OccursAt(b, pat, k)
  {
    if |a| + k + |pat| <= |a + b| {
      if OccursAt(b, pat, k) {
        forall i | 0 <= i < |pat| ensures CharAt(a + b, |a| + k, i) == pat[i] {
          assert CharAt(b, k, i) == pat[i];
        }
      }
      if OccursAt(a + b, pat, |a| + k) {
        forall i | 0 <= i < |pat| ensures CharAt(b, k, i) == pat[i] {
          assert CharAt(a + b, |a| + k, i) == pat[i];
        }
      }
    }
  }

  /** Searching `a + b` past `a` is searching `b`. */
  lemma {:induction false} IndexOfShift(a: string, b: string, pat: string, from: nat)
    ensures IndexOf(a + b, pat, |a| + from) ==
      match IndexOf(b, pat, from) case None => None case Some(k) => Some(|a| + k)
    decreases |b| - from
  {
    OccursAtShift(a, b, pat, from);
    if from + |pat| <= |b| && !OccursAt(b, pat, from) {
      IndexOfShift(a, b, pat, from + 1);
    }
  }

  /** When no occurrence starts inside `a`, searching `a + b` is searching `b`. */
  lemma {:induction false} IndexOfPastClean(a: string, b: string, pat: string)
    requires forall k :: 0 <= k < |a| ==> !OccursAt(a + b, pat, k)
    ensures IndexOf(a + b, pat, 0) ==
      match IndexOf(b, pat, 0) case None => None case Some(k) => Some(|a| + k)
  {
    IndexOfUpTo(a + b, pat, 0, |a|);
    IndexOfShift(a, b, pat, 0);
  }

  /** No occurrence of `pat` starts inside text that lacks `pat[0]`. */
  lemma {:induction false} NoOccurrenceInPrefix(a: string, b: string, pat: string)
    requires |pat| > 0 && pat[0] !in a
    ensures forall k :: 0 <= k < |a| ==> !OccursAt(a + b, pat, k)
  {
    forall k | 0 <= k < |a| ensures !OccursAt(a + b, pat, k) {
      assert CharAt(a + b, k, 0) == a[k];
    }
  }

  /** Text that cannot start `pat` is skipped by the search. */
  lemma {:induction false} IndexOfSkipPrefix(a: string, b: string, pat: string)
    requires |pat| > 0 && pat[0] !in a
    ensures IndexOf(a + b, pat, 0) ==
      match IndexOf(b, pat, 0) case None => None case Some(k) => Some(|a| + k)
  {
    NoOccurrenceInPrefix(a, b, pat);
    IndexOfPastClean(a, b, pat);
  }

  /** In `a + b`, no occurrence of `pat` starts inside a `pat`-free `a` when `b[0]` is not in `pat`. */
  lemma {:induction false} NoOccurrenceInClean(a: string, b: string, pat: string)
    requires IndexOf(a, pat, 0).None?
    requires |b| > 0 && b[0] !in pat
    ensures forall k :: 0 <= k < |a| ==> !OccursAt(a + b, pat, k)
  {
    var s := a + b;
    forall k | 0 <= k < |a| ensures !OccursAt(s, pat, k) {
      if k + |pat| <= |a| {
        IndexOfFirst(a, pat, 0, k);
        var i :| 0 <= i < |pat| && CharAt(a, k, i) != pat[i];
        assert CharAt(s, k, i) == CharAt(a, k, i);
      } else if k + |pat| <= |s| {
        assert CharAt(s, k, |a| - k) == b[0];
        assert pat[|a| - k] != b[0];
      }
    }
  }

  /** A piece free of `pat`, followed by a character that is not in `pat`, is skipped by the search. */
  lemma {:induction false} IndexOfSkipClean(a: string, b: string, pat: string)
    requires IndexOf(a, pat, 0).None?
    requires |b| > 0 && b[0] !in pat
    ensures IndexOf(a + b, pat, 0) ==
      match IndexOf(b, pat, 0) case None => None case Some(k) => Some(|a| + k)
  {
    NoOccurrenceInClean(a, b, pat);
    IndexOfPastClean(a, b, pat);
  }

  /** A character absent from `s` is never found in it. */
  lemma {:induction false} IndexOfAbsentChar(s: string, c: char)
    requires c !in s
    ensures IndexOf(s, [c], 0).None?
  {
    forall k | 0 <= k < |s| ensures !OccursAt(s, [c], k) {
      assert CharAt(s, k, 0) != [c][0];
    }
    IndexOfUpTo(s, [c], 0, |s|);
  }

  /** `s.includes(sub)`. */
  predicate Contains(s: string, sub: string) {
    IndexOf(s, sub, 0).Some?
  }

  /** Any occurrence makes `includes` true. */
  lemma {:induction false} ContainsAt(s: string, sub: string, k: nat)
    requires OccursAt(s, sub, k)
    ensures Contains(s, sub)
  {
    IndexOfFinds(s, sub, 0, k);
  }

  /** Upper-case ASCII letters to lower case; everything else unchanged. */
  function LowerChar(c: char): char {
    if 'A' <= c <= 'Z' then (c as int + 32) as char else c
  }

  /** `toLowerCase`, restricted to the ASCII letters. */
  function Lower(s: string): (r: string)
    ensures |r| == |s|
    ensures forall i :: 0 <= i < |r| ==> !('A' <= r[i] <= 'Z')
    ensures forall i :: 0 <= i < |r| ==> (r[i] == s[i] <==> !('A' <= s[i] <= 'Z'))
  {
    seq(|s|, i requires 0 <= i < |s| => LowerChar(s[i]))
  }

  /** `parts.join(sep)`. */
  function Join(parts: seq<string>, sep: char): (r: string)
    ensures parts == [] ==> r == []
    ensures |parts| >= 1 ==> parts[0] <= r
    ensures |parts| >= 1 ==> |parts[|parts| - 1]| <= |r| && r[|r| - |parts[|parts| - 1]|..] == parts[|parts| - 1]
  {
    if parts == [] then []
    else if |parts| == 1 then parts[0]
    else
      var rest := Join(parts[1..], sep);
      var last := parts[|parts| - 1];
      assert parts[1..][|parts| - 2] == last;
      var r := parts[0] + [sep] + rest;
      assert r[|r| - |last|..] == rest[|rest| - |last|..];
      r
  }

  /** `s.split(sep)` for a one-character separator. */
  function SplitOn(s: string, sep: char): (parts: seq<string>)
    decreases |s|
    ensures |parts| >= 1
  {
    match IndexOf(s, [sep], 0)
    case None => [s]
    case Some(k) => [s[..k]] + SplitOn(s[k + 1..], sep)
  }

  /** The first separator of `a + [sep] + b` is the one after `a` when `a` has none. */
  lemma {:induction false} FirstSeparator(a: string, sep: char, b: string)
    requires sep !in a
    ensures IndexOf(a + [sep] + b, [sep], 0) == Some(|a|)
  {
    var s := a + [sep] + b;
    assert OccursAt(s, [sep], |a|) by { assert CharAt(s, |a|, 0) == sep; }
    forall k | 0 <= k < |a| ensures !OccursAt(s, [sep], k) {
      assert CharAt(s, k, 0) == a[k];
      assert CharAt(s, k, 0) != [sep][0];
    }
    IndexOfExact(s, [sep], 0, |a|);
  }

  /** Splitting at the first separator. */
  lemma {:induction false} SplitOnFirst(a: string, sep: char, rest: string)
    requires sep !in a
    ensures SplitOn(a + [sep] + rest, sep) == [a] + SplitOn(rest, sep)
  {
    var s := a + [sep] + rest;
    FirstSeparator(a, sep, rest);
    assert s[..|a|] == a;
    assert s[|a| + 1..] == rest;
  }

  /** Splitting a join on a separator that occurs in no part gives the parts back. */
  lemma {:induction false} SplitJoin(parts: seq<string>, sep: char)
    requires |parts| >= 1
    requires forall i :: 0 <= i < |parts| ==> sep !in parts[i]
    ensures SplitOn(Join(parts, sep), sep) == parts
  {
    if |parts| == 1 {
      IndexOfAbsentChar(parts[0], sep);
    } else {
      SplitOnFirst(parts[0], sep, Join(parts[1..], sep));
      SplitJoin(parts[1..], sep);
      assert parts == [parts[0]] + parts[1..];
    }
  }
}
