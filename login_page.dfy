/**
  The login page's submit handler (app/login/page.tsx): the callsign becomes an
  e-mail address, sign-up is gated by an invite code, and a "name taken" error
  is replaced by one of five sarcastic messages naming the callsign.
*/
module LoginPage {
  import opened Optional
  import opened Text

  const EmailDomain := "@spendlog.app"
  const InviteCode := "GEMINI2025"
  const InvalidInviteError := "Invalid Invite Code"

  /** `replace(/\s+/g, '')`: every whitespace character goes. */
  function RemoveSpaces(s: string): (r: string)
    ensures |r| <= |s|
    ensures forall i :: 0 <= i < |r| ==> !IsSpace(r[i])
    ensures forall c :: c in r ==> c in s
  {
    if s == [] then []
    else
      assert s == [s[0]] + s[1..];
      (if IsSpace(s[0]) then [] else [s[0]]) + RemoveSpaces(s[1..])
  }

  lemma {:induction false} RemoveSpacesConcat(a: string, b: string)
    ensures RemoveSpaces(a + b) == RemoveSpaces(a) + RemoveSpaces(b)
  {
    if a == [] {
      assert a + b == b;
    } else {
      assert (a + b)[1..] == a[1..] + b;
      RemoveSpacesConcat(a[1..], b);
    }
  }

  lemma {:induction false} RemoveSpacesAllSpace(w: string)
    requires AllSpace(w)
    ensures RemoveSpaces(w) == []
  {
    if w != [] {
      RemoveSpacesAllSpace(w[1..]);
    }
  }

  lemma {:induction false} RemoveSpacesNone(s: string)
    requires forall i :: 0 <= i < |s| ==> !IsSpace(s[i])
    ensures RemoveSpaces(s) == s
  {
    if s != [] {
      RemoveSpacesNone(s[1..]);
    }
  }

  /** `callsign.toLowerCase().replace(/\s+/g, '')`. */
  function Normalize(callsign: string): (n: string)
    ensures forall i :: 0 <= i < |n| ==> !IsSpace(n[i]) && !('A' <= n[i] <= 'Z')
  {
    var lowered := Lower(callsign);
    assert forall c :: c in lowered ==> !('A' <= c <= 'Z');
    var n := RemoveSpaces(lowered);
    assert forall i :: 0 <= i < |n| ==> n[i] in n;
    n
  }

  /** The e-mail address the callsign signs in with. */
  function Email(callsign: string): (email: string)
    ensures |email| >= |EmailDomain| && email[|email| - |EmailDomain|..] == EmailDomain
    ensures forall i :: 0 <= i < |email| - |EmailDomain| ==> !IsSpace(email[i]) && !('A' <= email[i] <= 'Z')
  {
    var local := Normalize(callsign);
    var email := local + EmailDomain;
    assert email[|local|..] == EmailDomain;
    assert forall i :: 0 <= i < |local| ==> email[i] == local[i];
    email
  }

  /** Normalising distributes over concatenation. */
  lemma {:induction false} NormalizeConcat(a: string, b: string)
    ensures Normalize(a + b) == Normalize(a) + Normalize(b)
  {
    LowerConcat(a, b);
    RemoveSpacesConcat(Lower(a), Lower(b));
  }

  /** A single character: white space disappears, anything else is lower-cased. */
  lemma {:induction false} NormalizeChar(c: char)
    ensures Normalize([c]) == if IsSpace(c) then [] else [LowerChar(c)]
  {
    assert Lower([c]) == [LowerChar(c)];
    assert IsSpace(LowerChar(c)) == IsSpace(c);
    assert [LowerChar(c)][1..] == [];
  }

  /** A callsign already free of white space and upper case is its own local part. */
  lemma {:induction false} NormalizeClean(callsign: string)
    requires forall i :: 0 <= i < |callsign| ==> !IsSpace(callsign[i]) && !('A' <= callsign[i] <= 'Z')
    ensures Normalize(callsign) == callsign
    ensures Email(callsign) == callsign + EmailDomain
  {
    assert Lower(callsign) == callsign;
    RemoveSpacesNone(callsign);
  }

  /** Lower-casing distributes over concatenation. */
  lemma {:induction false} LowerConcat(a: string, b: string)
    ensures Lower(a + b) == Lower(a) + Lower(b)
  {
    assert forall i :: 0 <= i < |a + b| ==> Lower(a + b)[i] == (Lower(a) + Lower(b))[i];
  }

  /** Normalising twice is normalising once. */
  lemma {:induction false} NormalizeIdempotent(callsign: string)
    ensures Normalize(Normalize(callsign)) == Normalize(callsign)
  {
    var n := Normalize(callsign);
    assert Lower(n) == n by {
      assert forall i :: 0 <= i < |n| ==> Lower(n)[i] == n[i];
    }
    RemoveSpacesNone(n);
  }

  /** Callsigns that differ only in the case of their letters get the same address. */
  lemma {:induction false} EmailIgnoresCase(a: string, b: string)
    requires |a| == |b|
    requires forall i :: 0 <= i < |a| ==> LowerChar(a[i]) == LowerChar(b[i])
    ensures Email(a) == Email(b)
  {
    assert Lower(a) == Lower(b);
  }

  /** Whitespace anywhere in the callsign leaves the address unchanged. */
  lemma {:induction false} EmailIgnoresSpaces(a: string, w: string, b: string)
    requires AllSpace(w)
    ensures Email(a + w + b) == Email(a + b)
  {
    LowerConcat(a + w, b);
    LowerConcat(a, w);
    LowerConcat(a, b);
    RemoveSpacesConcat(Lower(a) + Lower(w), Lower(b));
    RemoveSpacesConcat(Lower(a), Lower(w));
    RemoveSpacesConcat(Lower(a), Lower(b));
    assert AllSpace(Lower(w)) by {
      forall i | 0 <= i < |w| ensures IsSpace(Lower(w)[i]) {
        assert IsSpace(w[i]);
      }
    }
    RemoveSpacesAllSpace(Lower(w));
  }

  /** `sarcasticMessages`, each naming the callsign as typed. */
  function SarcasticMessages(callsign: string): (ms: seq<string>)
    ensures |ms| == 5
  {
    [ "Bro, " + callsign + " is already famous here. Try another.",
      "Arey! " + callsign + " pehle se hai. Kuch aur soch.",
      "Our database only has budget for one " + callsign + ".",
      "Error 404: The name " + callsign + " is taken. Try " + callsign + "_pro_max.",
      "Identity theft is not a joke, " + callsign + "." ]
  }

  /** The auth error means the address is already taken. */
  predicate IsTaken(message: string) {
    Contains(message, "already registered") || Contains(message, "unique constraint")
  }

  /** `message` after the `catch` block's rewrite; `pick` is `Math.floor(Math.random() * 5)`. */
  function ShownError(message: string, callsign: string, pick: nat): (shown: string)
    requires pick < 5
    ensures !IsTaken(message) ==> shown == message
    ensures IsTaken(message) ==> shown in SarcasticMessages(callsign) && Contains(shown, callsign)
  {
    if IsTaken(message) then
      SarcasticNamesCallsign(callsign, pick);
      SarcasticMessages(callsign)[pick]
    else message
  }

  /** Every sarcastic message contains the callsign. */
  lemma {:induction false} SarcasticNamesCallsign(callsign: string, pick: nat)
    requires pick < 5
    ensures Contains(SarcasticMessages(callsign)[pick], callsign)
  {
    var m := SarcasticMessages(callsign)[pick];
    if pick == 0 {
      EmbedsCallsign("Bro, ", callsign, " is already famous here. Try another.");
    } else if pick == 1 {
      EmbedsCallsign("Arey! ", callsign, " pehle se hai. Kuch aur soch.");
    } else if pick == 2 {
      EmbedsCallsign("Our database only has budget for one ", callsign, ".");
    } else if pick == 3 {
      EmbedsCallsign("Error 404: The name ", callsign, " is taken. Try " + callsign + "_pro_max.");
      assert m == "Error 404: The name " + callsign + (" is taken. Try " + callsign + "_pro_max.");
    } else {
      EmbedsCallsign("Identity theft is not a joke, ", callsign, ".");
    }
  }

  /** A text built around the callsign contains it. */
  lemma {:induction false} EmbedsCallsign(p: string, callsign: string, q: string)
    ensures Contains(p + callsign + q, callsign)
  {
    var s := p + callsign + q;
    forall i | 0 <= i < |callsign| ensures CharAt(s, |p|, i) == callsign[i] {
      assert s[|p| + i] == callsign[i];
    }
    ContainsAt(s, callsign, |p|);
  }

  /** A text that lacks one of the pattern's characters does not contain the pattern. */
  lemma {:induction false} MissingCharNotContained(s: string, pat: string, i: nat)
    requires i < |pat| && pat[i] !in s
    ensures !Contains(s, pat)
  {
    forall k: int | 0 <= k && k + |pat| <= |s| ensures !OccursAt(s, pat, k) {
      assert CharAt(s, k, i) != pat[i] by {
        assert s[k + i] in s;
      }
    }
  }

  /** The invite-code error does not read as a taken address, so it is shown word for word. */
  lemma {:induction false} InviteErrorNotTaken()
    ensures !IsTaken(InvalidInviteError)
  {
    assert 'y' !in InvalidInviteError && 'q' !in InvalidInviteError;
    MissingCharNotContained(InvalidInviteError, "already registered", 6);
    MissingCharNotContained(InvalidInviteError, "unique constraint", 3);
  }

  /** The awaited auth call `handleSubmit` makes. */
  datatype AuthCall = SignUp(email: string, password: string) | SignIn(email: string, password: string)

  /** The call `handleSubmit` makes, if any: none when sign-up has the wrong invite code. */
  function CallFor(isSignUp: bool, callsign: string, secretCode: string, inviteCode: string): (call: Option<AuthCall>)
    ensures call.None? <==> isSignUp && inviteCode != InviteCode
    ensures call.Some? ==> call.value.email == Email(callsign) && call.value.password == secretCode
    ensures call.Some? ==> (call.value.SignUp? <==> isSignUp)
  {
    if isSignUp then
      if inviteCode != InviteCode then None else Some(SignUp(Email(callsign), secretCode))
    else Some(SignIn(Email(callsign), secretCode))
  }

  /** The error `handleSubmit` catches: the invite-code error, or the auth call's error. */
  function Failure(call: Option<AuthCall>, authError: Option<string>): Option<string> {
    if call.None? then Some(InvalidInviteError) else authError
  }

  class Login {
    var error: Option<string>
    var loading: bool
    var shake: nat
    /** `router.push('/')` has happened. */
    var navigated: bool

    constructor ()
      ensures error == None && !loading && shake == 0 && !navigated
    {
      error := None;
      loading := false;
      shake := 0;
      navigated := false;
    }

    /**
      `handleSubmit`: `authError` is what the auth call (sign-up or sign-in)
      reports, and `pick` the random choice among the five messages.
    */
    method HandleSubmit(isSignUp: bool, callsign: string, secretCode: string, inviteCode: string,
                        authError: Option<string>, pick: nat) returns (call: Option<AuthCall>)
      requires pick < 5
      modifies this
      ensures call == CallFor(isSignUp, callsign, secretCode, inviteCode)
      ensures !loading
      ensures Failure(call, authError).None? ==> error == None && navigated && shake == old(shake)
      ensures Failure(call, authError).Some? ==>
        error == Some(ShownError(Failure(call, authError).value, callsign, pick)) &&
        navigated == old(navigated) &&
        shake == old(shake) + (if IsTaken(Failure(call, authError).value) then 1 else 0)
    {
      error := None;
      loading := true;
      var email := Email(callsign);
      var failure: Option<string>;
      if isSignUp {
        if inviteCode != InviteCode {
          call := None;
          failure := Some(InvalidInviteError);
        } else {
          call := Some(SignUp(email, secretCode));
          failure := authError;
        }
      } else {
        call := Some(SignIn(email, secretCode));
        failure := authError;
      }
      if failure.None? {
        navigated := true;
      } else {
        var message := failure.value;
        if IsTaken(message) {
          shake := shake + 1;
        }
        error := Some(ShownError(message, callsign, pick));
      }
      loading := false;
    }
  }

  /** A wrong invite code on sign-up: no auth call, the invite error shown as is, no shake. */
  method WrongInvite(page: Login, callsign: string, secretCode: string, inviteCode: string,
                     authError: Option<string>, pick: nat) returns (call: Option<AuthCall>)
    requires pick < 5 && inviteCode != InviteCode
    modifies page
    ensures call == None
    ensures page.error == Some(InvalidInviteError) && page.shake == old(page.shake) && !page.loading
  {
    call := page.HandleSubmit(true, callsign, secretCode, inviteCode, authError, pick);
    InviteErrorNotTaken();
  }
}
