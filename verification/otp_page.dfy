/**
 * The OTP entry page of the password reset: the resend cooldown, the resend
 * and verify handlers as transitions driven by the server's reply, the
 * digit filter on the code field, and the URL that carries the email and the
 * code on to the confirm page.
 */
module OtpPage {
  import opened Wrappers
  import opened Text
  import opened Http
  import opened UrlCodec

  /** Seconds before a new code may be requested. */
  const Cooldown: nat := 60

  /** The page's state between events. */
  datatype Page = Page(otp: string, msg: string, tone: Tone, timer: nat, loading: bool, resending: bool)

  function Initial(): (p: Page)
    ensures p.timer == Cooldown && p.otp == "" && !p.loading && !p.resending
  {
    Page("", "", Info, Cooldown, false, false)
  }

  /** One second of the interval: the timer counts down while it is positive
      and no interval runs once it reaches 0. */
  function Tick(timer: nat): (r: nat)
    ensures timer > 0 ==> r == timer - 1
    ensures timer == 0 ==> r == 0
  {
    if timer > 0 then timer - 1 else timer
  }

  function Ticks(timer: nat, n: nat): nat {
    if n == 0 then timer else Ticks(Tick(timer), n - 1)
  }

  /** After `n` seconds the timer reads `timer - n`, or 0 once that is used up. */
  lemma {:induction false} TicksCountDown(timer: nat, n: nat)
    ensures Ticks(timer, n) == if n >= timer then 0 else timer - n
  {
    if n > 0 {
      TicksCountDown(Tick(timer), n - 1);
    }
  }

  /** The resend button is shown only once the timer is 0 (until then the
      page shows the countdown), and it is disabled while a resend is in flight. */
  predicate ResendShown(p: Page) { p.timer == 0 }
  predicate ResendEnabled(p: Page) { ResendShown(p) && !p.resending }

  /** From the initial page, resend stays unavailable for the first 60 ticks
      and becomes available at the 60th. */
  lemma ResendLockedForCooldown(n: nat)
    ensures ResendShown(Initial().(timer := Ticks(Cooldown, n))) <==> n >= Cooldown
  {
    TicksCountDown(Cooldown, n);
  }

  /** `handleResend` once the request to re-issue a code has been answered:
      success restarts the cooldown; failure leaves the timer where it was. */
  function Resend(p: Page, reply: Reply<()>): (r: Page)
    ensures r.timer == if reply.Ok? then Cooldown else p.timer
    ensures !r.resending && r.otp == p.otp && r.loading == p.loading
    ensures reply.Ok? <==> r.tone == Success
    ensures reply.NotOk? ==> r.msg == MessageOr(reply.message, "Failed to resend OTP.")
    ensures reply.Thrown? ==> r.msg == "\U{26A0}\U{FE0F} Server error. Try again."
  {
    match reply
    case Ok(_) =>
      p.(msg := "\U{1F501} OTP resent! Please check your inbox and, if necessary, your Spam/Junk folder.",
         tone := Success, timer := Cooldown, resending := false)
    case NotOk(m) => p.(msg := MessageOr(m, "Failed to resend OTP."), tone := Error, resending := false)
    case Thrown => p.(msg := "\U{26A0}\U{FE0F} Server error. Try again.", tone := Error, resending := false)
  }

  // ---------------------------------------------------------------------------
  // The code field
  // ---------------------------------------------------------------------------

  predicate AllDigits(s: string) { forall i :: 0 <= i < |s| ==> IsAsciiDigit(s[i]) }

  /** `value.replace(/\D/, "")`: without the global flag only the first
      non-digit is deleted. */
  function FilterOtp(s: string): (r: string)
    ensures |s| - 1 <= |r| <= |s|
    ensures AllDigits(s) ==> r == s
    ensures !AllDigits(s) ==> |r| == |s| - 1
  {
    if s == [] then []
    else if !IsAsciiDigit(s[0]) then s[1..]
    else [s[0]] + FilterOtp(s[1..])
  }

  /** The filter deletes the first non-digit and keeps everything else in place. */
  lemma {:induction false} FilterDeletesFirstNonDigit(s: string, k: nat)
    requires k < |s| && !IsAsciiDigit(s[k])
    requires forall i :: 0 <= i < k ==> IsAsciiDigit(s[i])
    ensures FilterOtp(s) == s[..k] + s[k + 1..]
  {
    if k > 0 {
      FilterDeletesFirstNonDigit(s[1..], k - 1);
      assert s[1..][..k - 1] == s[1..k];
      assert s[..k] == [s[0]] + s[1..k];
    }
  }

  /** Typing one character into an all-digit field keeps it all digits: a
      digit is appended, anything else is dropped. */
  lemma TypedCharacterKeepsDigits(s: string, c: char)
    requires AllDigits(s)
    ensures FilterOtp(s + [c]) == if IsAsciiDigit(c) then s + [c] else s
    ensures AllDigits(FilterOtp(s + [c]))
  {
    if !IsAsciiDigit(c) {
      FilterDeletesFirstNonDigit(s + [c], |s|);
      assert (s + [c])[..|s|] == s;
    }
  }

  /** Pasted text with two non-digits keeps the second one. */
  lemma PasteKeepsLaterNonDigits(x: char, y: char, digits: string)
    requires !IsAsciiDigit(x) && !IsAsciiDigit(y)
    ensures FilterOtp([x, y] + digits) == [y] + digits
    ensures !AllDigits(FilterOtp([x, y] + digits))
  {
    FilterDeletesFirstNonDigit([x, y] + digits, 0);
    assert ([x, y] + digits)[1..] == [y] + digits;
    assert ([y] + digits)[0] == y;
  }

  // ---------------------------------------------------------------------------
  // Verifying the code and moving on
  // ---------------------------------------------------------------------------

  const ConfirmPath := "/reset-password/confirm"

  /** `encodeURIComponent(email)`: a missing email is the text "null". */
  function EmailText(email: Option<string>): string {
    email.GetOr("null")
  }

  /** The query string the OTP page appends to the confirm path: the email
      encoded, the code as typed. */
  function NextSearch(email: Option<string>, otp: string): string {
    "?email=" + EncodeComponent(EmailText(email)) + "&otp=" + otp
  }

  function NextUrl(email: Option<string>, otp: string): string {
    ConfirmPath + NextSearch(email, otp)
  }

  predicate PlainName(n: string) {
    |n| >= 1 && forall i :: 0 <= i < |n| ==> IsUnreserved(n[i])
  }

  /** A query of two `name=value` pairs answers each name with its own value. */
  lemma TwoParams(n1: string, v1: string, n2: string, v2: string)
    requires PlainName(n1) && PlainName(n2) && n1 != n2
    requires '&' !in v1 && '&' !in v2
    ensures SearchParamsGet("?" + n1 + "=" + v1 + "&" + n2 + "=" + v2, n1) == Some(FormDecode(v1))
    ensures SearchParamsGet("?" + n1 + "=" + v1 + "&" + n2 + "=" + v2, n2) == Some(FormDecode(v2))
  {
    var first := n1 + "=" + v1;
    var second := n2 + "=" + v2;
    var query := first + "&" + second;
    assert ("?" + n1 + "=" + v1 + "&" + n2 + "=" + v2)[1..] == query;
    assert Join([first, second], '&') == query;
    PlainHasNoSeparators(n1);
    PlainHasNoSeparators(n2);
    SplitJoin([first, second], '&');
    SplitPairAt(n1, v1);
    SplitPairAt(n2, v2);
    PlainDecodesToItself(n1);
    PlainDecodesToItself(n2);
    assert Lookup([second], n2) == Some(FormDecode(v2));
  }

  lemma PlainHasNoSeparators(n: string)
    requires PlainName(n)
    ensures '&' !in n && '=' !in n
  {
  }

  /** The confirm page reads back exactly the email and the code the OTP page
      sent it, provided the code is all digits. */
  lemma HandOffRoundTrip(email: string, otp: string)
    requires AllDigits(otp)
    ensures SearchParamsGet(NextSearch(Some(email), otp), "email") == Some(email)
    ensures SearchParamsGet(NextSearch(Some(email), otp), "otp") == Some(otp)
  {
    var e := EncodeComponent(email);
    EncodedIsQuerySafe(email);
    DigitsArePlain(otp);
    assert NextSearch(Some(email), otp) == "?" + "email" + "=" + e + "&" + "otp" + "=" + otp;
    TwoParams("email", e, "otp", otp);
    EncodeRoundTrip(email);
  }

  /** A code of digits contains no separator and decodes to itself. */
  lemma DigitsArePlain(otp: string)
    requires AllDigits(otp)
    ensures '&' !in otp && FormDecode(otp) == otp
  {
    assert forall i :: 0 <= i < |otp| ==> IsAsciiDigit(otp[i]) && IsUnreserved(otp[i]);
    PlainDecodesToItself(otp);
  }

  /** When the page was opened without an email, the confirm page receives
      the text "null" as the email. */
  lemma MissingEmailBecomesNull(otp: string)
    requires AllDigits(otp)
    ensures SearchParamsGet(NextSearch(None, otp), "email") == Some("null")
  {
    HandOffRoundTrip("null", otp);
  }

  /** What the page shows after the verify request, and where it goes next. */
  datatype VerifyView = VerifyView(msg: string, tone: Tone, loading: bool, navigate: Option<string>)

  /** `handleSubmit` once the verify request has been answered. */
  function Verify(email: Option<string>, otp: string, reply: Reply<()>): (v: VerifyView)
    ensures !v.loading
    ensures v.navigate.Some? <==> reply.Ok?
    ensures reply.Ok? ==> v.navigate == Some(ConfirmPath + NextSearch(email, otp)) && v.tone == Success
    ensures reply.NotOk? ==> v.msg == MessageOr(reply.message, "\U{274C} Invalid or expired OTP.") && v.tone == Error
    ensures reply.Thrown? ==> v.msg == "\U{26A0}\U{FE0F} Server error. Try again later." && v.tone == Error
  {
    match reply
    case Ok(_) => VerifyView("\U{2705} OTP verified! Redirecting...", Success, false, Some(NextUrl(email, otp)))
    case NotOk(m) => VerifyView(MessageOr(m, "\U{274C} Invalid or expired OTP."), Error, false, None)
    case Thrown => VerifyView("\U{26A0}\U{FE0F} Server error. Try again later.", Error, false, None)
  }
}
