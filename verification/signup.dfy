/**
 * The sign-up form (src/components/auth/SignUp.js): `validateInputs` over the
 * stored email, password and confirmation, and the message shown for an
 * authentication error code.  The typed email is stored through
 * `sanitizeString`; the password and confirmation are stored as typed.
 */
module SignUp {
  import opened Wrappers
  import opened Sanitize

  const InvalidEmail: string := "Please enter a valid email address"
  const TooShort: string := "Password must be at least 8 characters"
  const NoUppercase: string := "Password must contain at least one uppercase letter"
  const NoNumber: string := "Password must contain at least one number"
  const Mismatch: string := "Passwords do not match"

  /** `/[A-Z]/.test(s)` */
  predicate HasUppercase(s: string)
  {
    exists k :: 0 <= k < |s| && 'A' <= s[k] <= 'Z'
  }

  /** `/[0-9]/.test(s)` */
  predicate HasNumber(s: string)
  {
    exists k :: 0 <= k < |s| && '0' <= s[k] <= '9'
  }

  /** The strength rule: at least 8 characters (JavaScript `length`, for text inside the Basic Multilingual Plane), an upper-case letter and a digit. */
  predicate IsStrong(password: string)
  {
    |password| >= 8 && HasUppercase(password) && HasNumber(password)
  }

  /** The `errors` record; an absent key is `None`. */
  datatype Errors = Errors(email: Option<string>, password: Option<string>, confirmPassword: Option<string>)

  /** The password branch: the first failing check of the `if`/`else if` chain. */
  function PasswordError(password: string): Option<string>
  {
    if |password| < 8 then Some(TooShort)
    else if !HasUppercase(password) then Some(NoUppercase)
    else if !HasNumber(password) then Some(NoNumber)
    else None
  }

  /** The record `validateInputs` builds. */
  function ValidationErrors(email: string, password: string, confirmPassword: string): Errors
  {
    Errors(if !IsValidEmail(Str(email)) then Some(InvalidEmail) else None,
           PasswordError(password),
           if password != confirmPassword then Some(Mismatch) else None)
  }

  /** `validateInputs()`: true when the record has no key. */
  predicate ValidateInputs(email: string, password: string, confirmPassword: string)
  {
    var errors := ValidationErrors(email, password, confirmPassword);
    errors.email.None? && errors.password.None? && errors.confirmPassword.None?
  }

  /** Each error is present exactly when its own check fails, independently of the others; the form is accepted exactly when all three hold. */
  lemma ValidationMeaning(email: string, password: string, confirmPassword: string)
    ensures var errors := ValidationErrors(email, password, confirmPassword);
            (errors.email.Some? <==> !IsValidEmail(Str(email)))
            && (errors.password.Some? <==> !IsStrong(password))
            && (errors.confirmPassword.Some? <==> password != confirmPassword)
            && (ValidateInputs(email, password, confirmPassword) <==>
                IsValidEmail(Str(email)) && IsStrong(password) && password == confirmPassword)
  {
  }

  /** At most one password message, chosen by priority: length, then upper case, then digit. */
  lemma PasswordPriority(password: string)
    ensures PasswordError(password) == Some(TooShort) <==> |password| < 8
    ensures PasswordError(password) == Some(NoUppercase) <==> |password| >= 8 && !HasUppercase(password)
    ensures PasswordError(password) == Some(NoNumber) <==> |password| >= 8 && HasUppercase(password) && !HasNumber(password)
  {
  }

  /** A password of eight letters and digits with one capital passes; seven characters do not, whatever they are. */
  lemma PasswordExamples()
    ensures PasswordError("Abcdefg1") == None
    ensures PasswordError("Abcdef1") == Some(TooShort)
    ensures PasswordError("abcdefg1") == Some(NoUppercase)
    ensures PasswordError("Abcdefgh") == Some(NoNumber)
  {
    assert "Abcdefg1"[0] == 'A' && "Abcdefg1"[7] == '1';
    assert "abcdefg1"[7] == '1';
    assert !HasUppercase("abcdefg1") by {
      forall k | 0 <= k < 8 ensures !('A' <= "abcdefg1"[k] <= 'Z') {
      }
    }
    assert "Abcdefgh"[0] == 'A';
    assert !HasNumber("Abcdefgh") by {
      forall k | 0 <= k < 8 ensures !('0' <= "Abcdefgh"[k] <= '9') {
      }
    }
  }

  /** What `handleEmailChange` stores for a typed address. */
  function StoredEmail(typed: string): string
  {
    SanitizeString(Str(typed))
  }

  /** Storing the address escaped does not change whether it is accepted. */
  lemma StoredEmailValidity(typed: string, password: string, confirmPassword: string)
    ensures ValidationErrors(StoredEmail(typed), password, confirmPassword).email.None? <==> IsValidEmail(Str(typed))
  {
    SanitizedEmailValidity(typed);
  }

  const EmailInUseMessage: string := "Email already in use. Please use a different email or log in."
  const WeakPasswordMessage: string := "Password is too weak. Please use at least 6 characters."

  /** The message shown when account creation fails with `code` and `message`. */
  function ErrorMessage(code: string, message: string): (shown: string)
    ensures code == "auth/email-already-in-use" ==> shown == EmailInUseMessage
    ensures code == "auth/weak-password" ==> shown == WeakPasswordMessage
    ensures code != "auth/email-already-in-use" && code != "auth/weak-password" ==> shown == message
  {
    if code == "auth/email-already-in-use" then EmailInUseMessage
    else if code == "auth/weak-password" then WeakPasswordMessage
    else message
  }

  /** The two known codes give two different fixed messages, whatever the service's own text. */
  lemma KnownCodesDiffer(message1: string, message2: string)
    ensures ErrorMessage("auth/email-already-in-use", message1) != ErrorMessage("auth/weak-password", message2)
    ensures ErrorMessage("auth/email-already-in-use", message1) == ErrorMessage("auth/email-already-in-use", message2)
  {
    assert |EmailInUseMessage| == 61 && |WeakPasswordMessage| == 55;
  }
}
