/**
 * The login form (src/components/auth/Login.js): `validateInputs` over the
 * stored email and password, and the message shown for an authentication
 * error code.
 */
module Login {
  import opened Wrappers
  import opened Text
  import opened Sanitize

  const InvalidEmail: string := "Please enter a valid email address"
  const PasswordRequired: string := "Password is required"

  /** The `errors` record; an absent key is `None`. */
  datatype Errors = Errors(email: Option<string>, password: Option<string>)

  /** The record `validateInputs` builds: the email as stored (not trimmed), the password after `trim()`. */
  function ValidationErrors(email: string, password: string): Errors
  {
    Errors(if !IsValidEmail(Str(email)) then Some(InvalidEmail) else None,
           if Trim(password) == "" then Some(PasswordRequired) else None)
  }

  predicate ValidateInputs(email: string, password: string)
  {
    var errors := ValidationErrors(email, password);
    errors.email.None? && errors.password.None?
  }

  /** The password is refused exactly when it is empty or all white space; the form passes exactly when neither check fails. */
  lemma ValidationMeaning(email: string, password: string)
    ensures var errors := ValidationErrors(email, password);
            (errors.email.Some? <==> !IsValidEmail(Str(email)))
            && (errors.password.Some? <==> AllSpace(password))
            && (ValidateInputs(email, password) <==> IsValidEmail(Str(email)) && !AllSpace(password))
  {
    TrimEmptyIffSpace(password);
  }

  /** An address with white space around it is refused: it is checked as stored, untrimmed. */
  lemma PaddedEmailRefused(email: string)
    ensures ValidationErrors(" " + email, "secret").email.Some?
  {
  }

  /** What `handleEmailChange` stores for a typed address: its escaped form. */
  function StoredEmail(typed: string): (stored: string)
    ensures NoMarkup(stored)
    ensures Unescape(stored) == typed
  {
    UnescapeEscape(typed);
    SanitizeString(Str(typed))
  }

  /** Storing the address escaped does not change whether it is accepted. */
  lemma StoredEmailValidity(typed: string, password: string)
    ensures ValidationErrors(StoredEmail(typed), password).email.None? <==> IsValidEmail(Str(typed))
  {
    SanitizedEmailValidity(typed);
  }

  const BadCredentials: string := "Invalid email or password. Please try again."
  const TooManyAttempts: string := "Too many unsuccessful login attempts. Please try again later or reset your password."
  const LoginFailed: string := "Login failed. Please try again later."

  /** The message shown when signing in fails with `code`. */
  function ErrorMessage(code: string): (shown: string)
    ensures shown == BadCredentials <==> code == "auth/user-not-found" || code == "auth/wrong-password"
    ensures shown == TooManyAttempts <==> code == "auth/too-many-requests"
    ensures shown in {BadCredentials, TooManyAttempts, LoginFailed}
  {
    assert |BadCredentials| == 44 && |TooManyAttempts| == 84 && |LoginFailed| == 37;
    if code == "auth/user-not-found" || code == "auth/wrong-password" then BadCredentials
    else if code == "auth/too-many-requests" then TooManyAttempts
    else LoginFailed
  }
}
