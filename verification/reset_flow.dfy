/**
 * The two pages of the password reset together: the OTP page hands the email
 * and the code to the confirm page in the query string, and the confirm page
 * puts them, read back from that query string, into its request.
 */
module ResetFlow {
  import opened Wrappers
  import opened Http
  import opened UrlCodec
  import opened OtpPage
  import opened PasswordPolicy

  /** A verified all-digit code and an acceptable password lead to a confirm
      request carrying exactly the email and the code the user entered. */
  lemma ConfirmCarriesVerifiedCredentials(email: string, otp: string, pw: string, reply: Reply<()>)
    requires AllDigits(otp) && Strength(pw) >= 3
    ensures var search := NextSearch(Some(email), otp);
            HandleConfirm(pw, pw, SearchParamsGet(search, "email"), SearchParamsGet(search, "otp"), reply).0
              == Some(ConfirmRequest(Some(email), Some(otp), pw))
  {
    HandOffRoundTrip(email, otp);
  }
}
