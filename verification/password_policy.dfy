/**
 * The password rules of the reset-confirm page: the six-point strength score,
 * its rating label, the local checks made before any request is sent, and
 * what the page shows once the confirm request has been answered.
 */
module PasswordPolicy {
  import opened Wrappers
  import opened Text
  import opened Http

  /** `[@$!%*?&]`: the only characters the symbol check accepts. */
  predicate IsSymbol(c: char) {
    c == '@' || c == '$' || c == '!' || c == '%' || c == '*' || c == '?' || c == '&'
  }

  predicate HasUpper(s: string) { exists i :: 0 <= i < |s| && IsAsciiUpper(s[i]) }
  predicate HasLower(s: string) { exists i :: 0 <= i < |s| && IsAsciiLower(s[i]) }
  predicate HasDigit(s: string) { exists i :: 0 <= i < |s| && IsAsciiDigit(s[i]) }
  predicate HasSymbol(s: string) { exists i :: 0 <= i < |s| && IsSymbol(s[i]) }

  function Point(b: bool): nat { if b then 1 else 0 }

  /** `getStrength(password)`: one point per check met. The two length checks
      read `password.length`, which counts UTF-16 code units. */
  function Strength(pw: string): (score: nat)
    ensures score <= 6
    ensures JsLength(pw) >= 12 ==> score >= 2
    ensures JsLength(pw) < 8 ==> score <= 4
    ensures |pw| >= 12 ==> score >= 2
  {
    Point(JsLength(pw) >= 8) + Point(HasUpper(pw)) + Point(HasLower(pw)) + Point(HasDigit(pw))
    + Point(HasSymbol(pw)) + Point(JsLength(pw) >= 12)
  }

  /** Every character class found in `s` is still found after appending `t`. */
  lemma ClassesPersist(s: string, t: string)
    ensures HasUpper(s) ==> HasUpper(s + t)
    ensures HasLower(s) ==> HasLower(s + t)
    ensures HasDigit(s) ==> HasDigit(s + t)
    ensures HasSymbol(s) ==> HasSymbol(s + t)
  {
    if HasUpper(s) {
      var i :| 0 <= i < |s| && IsAsciiUpper(s[i]);
      assert (s + t)[i] == s[i];
    }
    if HasLower(s) {
      var i :| 0 <= i < |s| && IsAsciiLower(s[i]);
      assert (s + t)[i] == s[i];
    }
    if HasDigit(s) {
      var i :| 0 <= i < |s| && IsAsciiDigit(s[i]);
      assert (s + t)[i] == s[i];
    }
    if HasSymbol(s) {
      var i :| 0 <= i < |s| && IsSymbol(s[i]);
      assert (s + t)[i] == s[i];
    }
  }

  /** Typing more characters never lowers the score. */
  lemma StrengthMonotone(s: string, t: string)
    ensures Strength(s) <= Strength(s + t)
  {
    ClassesPersist(s, t);
    JsLengthAppend(s, t);
  }

  /** A character outside the four classes (any punctuation but `@$!%*?&`)
      adds nothing but what the new length earns; a character outside the
      Basic Multilingual Plane adds two to the length. */
  lemma OtherCharacterAddsOnlyLength(pw: string, c: char)
    requires !IsAsciiUpper(c) && !IsAsciiLower(c) && !IsAsciiDigit(c) && !IsSymbol(c)
    ensures var n, m := JsLength(pw), JsLength(pw) + Utf16Units(c);
            Strength(pw + [c]) == Strength(pw) + Point(n < 8 <= m) + Point(n < 12 <= m)
  {
    JsLengthAppend(pw, [c]);
    assert JsLength([c]) == Utf16Units(c) by { assert [c][1..] == []; }
    OtherCharacterKeepsClasses(pw, c);
  }

  /** Appending a character outside the four classes finds no new class. */
  lemma OtherCharacterKeepsClasses(pw: string, c: char)
    requires !IsAsciiUpper(c) && !IsAsciiLower(c) && !IsAsciiDigit(c) && !IsSymbol(c)
    ensures HasUpper(pw + [c]) == HasUpper(pw) && HasLower(pw + [c]) == HasLower(pw)
    ensures HasDigit(pw + [c]) == HasDigit(pw) && HasSymbol(pw + [c]) == HasSymbol(pw)
  {
    var s := pw + [c];
    ClassesPersist(pw, [c]);
    assert forall i :: 0 <= i < |pw| ==> s[i] == pw[i];
    if HasUpper(s) {
      var i :| 0 <= i < |s| && IsAsciiUpper(s[i]);
      assert i < |pw|;
    }
    if HasLower(s) {
      var i :| 0 <= i < |s| && IsAsciiLower(s[i]);
      assert i < |pw|;
    }
    if HasDigit(s) {
      var i :| 0 <= i < |s| && IsAsciiDigit(s[i]);
      assert i < |pw|;
    }
    if HasSymbol(s) {
      var i :| 0 <= i < |s| && IsSymbol(s[i]);
      assert i < |pw|;
    }
  }

  /** A symbol from the set earns its point when the password had none. */
  lemma SymbolEarnsPoint(pw: string, c: char)
    requires IsSymbol(c) && !HasSymbol(pw)
    ensures Strength(pw + [c]) >= Strength(pw) + 1
  {
    ClassesPersist(pw, [c]);
    JsLengthAppend(pw, [c]);
    assert (pw + [c])[|pw|] == c;
  }

  datatype Label = Weak | Good | Better | Strong

  /** `passwordRating(score)`: the label (`grade`) and the colour classes of the meter. */
  datatype Rating = Rating(grade: Label, color: string, bar: string)

  function PasswordRating(score: int): (r: Rating)
    ensures r.grade == Weak <==> score <= 2
    ensures r.grade == Good <==> score == 3
    ensures r.grade == Better <==> 4 <= score <= 5
    ensures r.grade == Strong <==> score >= 6
  {
    if score <= 2 then Rating(Weak, "red-500", "bg-red-200")
    else if score == 3 then Rating(Good, "yellow-600", "bg-yellow-200")
    else if score == 4 || score == 5 then Rating(Better, "blue-600", "bg-blue-200")
    else if score >= 6 then Rating(Strong, "green-600", "bg-green-200")
    else
      // The source's final fallback: every integer met one of the tests above.
      assert false; Rating(Weak, "red-500", "bg-red-200")
  }

  function LabelRank(l: Label): nat {
    match l
    case Weak => 0
    case Good => 1
    case Better => 2
    case Strong => 3
  }

  /** A higher score never gets a lower label. */
  lemma RatingMonotone(a: int, b: int)
    requires a <= b
    ensures LabelRank(PasswordRating(a).grade) <= LabelRank(PasswordRating(b).grade)
  {
  }

  const MismatchMessage := "\U{26A0}\U{FE0F} Passwords do not match"
  const WeakMessage := "\U{26A0}\U{FE0F} Please choose a stronger password (min. 8 chars, mix of letters, numbers & a symbol)"

  /** The body of the confirm request; `email` and `otp` come from the query
      string and are `null` when absent. */
  datatype ConfirmRequest = ConfirmRequest(email: Option<string>, otp: Option<string>, newPassword: string)

  /** The local checks of `handleSubmit`: stop with a message, or send. */
  datatype Gate = Blocked(message: string) | Send(request: ConfirmRequest)

  function ConfirmGate(pw: string, confirm: string, email: Option<string>, otp: Option<string>): (r: Gate)
    ensures pw != confirm ==> r == Blocked(MismatchMessage)
    ensures pw == confirm && Strength(pw) < 3 ==> r == Blocked(WeakMessage)
    ensures r.Send? <==> pw == confirm && Strength(pw) >= 3
    ensures r.Send? ==> r.request == ConfirmRequest(email, otp, pw)
  {
    if pw != confirm then Blocked(MismatchMessage)
    else if Strength(pw) < 3 then Blocked(WeakMessage)
    else Send(ConfirmRequest(email, otp, pw))
  }

  /** With matching entries, the gate stops exactly the passwords the meter
      labels Weak. */
  lemma GateBlocksExactlyWeak(pw: string, email: Option<string>, otp: Option<string>)
    ensures ConfirmGate(pw, pw, email, otp).Blocked? <==> PasswordRating(Strength(pw)).grade == Weak
  {
  }

  /** The gate does not require eight characters: three character classes are
      enough, whatever the length. */
  lemma ShortPasswordPasses(pw: string, email: Option<string>, otp: Option<string>)
    requires HasUpper(pw) && HasLower(pw) && HasDigit(pw)
    ensures ConfirmGate(pw, pw, email, otp).Send?
  {
  }

  /** "a1" followed by three emoji: six characters, but a `.length` of eight,
      so the length point is earned and the password rates Good. */
  lemma SurrogatePairsCountTwice()
    ensures Strength("a1\U{1F600}\U{1F600}\U{1F600}") == 3
    ensures PasswordRating(Strength("a1\U{1F600}\U{1F600}\U{1F600}")).grade == Good
  {
    var e := '\U{1F600}';
    var pw := "a1\U{1F600}\U{1F600}\U{1F600}";
    assert pw == ['a', '1'] + [e, e, e];
    JsLengthAppend(['a', '1'], [e, e, e]);
    EmojiLength(e);
    AsciiLength('a', '1');
    assert JsLength(pw) == 8;
    assert HasLower(pw) by { assert IsAsciiLower(pw[0]); }
    assert HasDigit(pw) by { assert IsAsciiDigit(pw[1]); }
    assert !HasUpper(pw) && !HasSymbol(pw);
  }

  lemma EmojiLength(e: char)
    requires e as int >= 0x1_0000
    ensures JsLength([e, e, e]) == 6
  {
    assert [e][1..] == [] && JsLength([e]) == 2;
    assert [e, e][1..] == [e] && JsLength([e, e]) == 4;
    assert [e, e, e][1..] == [e, e];
  }

  lemma AsciiLength(a: char, b: char)
    requires a as int < 0x1_0000 && b as int < 0x1_0000
    ensures JsLength([a, b]) == 2
  {
    assert [a, b][1..] == [b] && [b][1..] == [];
  }

  /** The page's message area, spinner and pending navigation. */
  datatype View = View(msg: string, tone: Tone, loading: bool, redirect: Option<string>)

  /** The `try`/`catch`/`finally` after a confirm request was sent. */
  function ConfirmOutcome(reply: Reply<()>): (v: View)
    ensures !v.loading
    ensures v.redirect.Some? <==> reply.Ok?
    ensures reply.Ok? ==> v.redirect == Some("/login") && v.tone == Success
    ensures reply.NotOk? ==> v.msg == MessageOr(reply.message, "\U{274C} Reset failed.") && v.tone == Error
    ensures reply.Thrown? ==> v.msg == "\U{26A0}\U{FE0F} Server error. Try again." && v.tone == Error
  {
    match reply
    case Ok(_) => View("\U{2705} Password reset successful! Redirecting to login...", Success, false, Some("/login"))
    case NotOk(m) => View(MessageOr(m, "\U{274C} Reset failed."), Error, false, None)
    case Thrown => View("\U{26A0}\U{FE0F} Server error. Try again.", Error, false, None)
  }

  /** The whole submit: a blocked password never reaches the server, so the
      reply plays no part; otherwise the reply decides. */
  function HandleConfirm(pw: string, confirm: string, email: Option<string>, otp: Option<string>,
                         reply: Reply<()>): (r: (Option<ConfirmRequest>, View))
    ensures r.0.None? <==> pw != confirm || Strength(pw) < 3
    ensures r.0.None? ==> r.1.tone == Error && r.1.redirect.None? && !r.1.loading
    ensures r.0.Some? ==> r.0.value.newPassword == pw && r.1 == ConfirmOutcome(reply)
  {
    match ConfirmGate(pw, confirm, email, otp)
    case Blocked(m) => (None, View(m, Error, false, None))
    case Send(req) => (Some(req), ConfirmOutcome(reply))
  }
}
