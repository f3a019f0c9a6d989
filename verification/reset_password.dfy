/** The password-reset page (src/pages/ResetPassword.tsx): the form's
    validation, update call and notices. The authentication service's answers
    are inputs. */
module ResetPassword {

  import opened Wrappers

  const MinLength: nat := 6
  const MismatchMessage: string := "Passwords do not match"
  const TooShortMessage: string := "Password must be at least 6 characters"
  const UpdatedMessage: string := "Password updated successfully! Redirecting..."
  const UnexpectedMessage: string := "An unexpected error occurred"

  /** The form check: the two fields must match, then be long enough. */
  datatype Verdict = Mismatch | TooShort | Accepted

  function Validate(password: string, confirm: string): (r: Verdict)
    ensures r == Mismatch <==> password != confirm
    ensures r == TooShort <==> password == confirm && |password| < MinLength
    ensures r == Accepted <==> password == confirm && |password| >= MinLength
  {
    if password != confirm then Mismatch
    else if |password| < MinLength then TooShort
    else Accepted
  }

  /** What `updateUser` does: succeeds, answers with an error, or throws. */
  datatype UpdateAnswer = Updated | Refused(message: string) | Threw

  datatype Toast = Error(text: string) | Success(text: string)

  /** One submission: the password sent to `updateUser` (if the form got
      that far), the notice shown, the page scheduled next (if any) and the
      spinner state at the end. */
  datatype Submission = Submission(sent: Option<string>, toast: Toast, redirect: Option<string>, loading: bool)

  /** `handlePasswordReset`. */
  function HandleReset(password: string, confirm: string, answer: UpdateAnswer): (r: Submission)
    ensures r.sent.Some? <==> Validate(password, confirm) == Accepted
    ensures r.sent.Some? ==> r.sent.value == password
    ensures Validate(password, confirm) == Mismatch ==> r.toast == Error(MismatchMessage)
    ensures Validate(password, confirm) == TooShort ==> r.toast == Error(TooShortMessage)
    ensures r.redirect.Some? <==> r.sent.Some? && answer == Updated
    ensures r.redirect.Some? ==> r.redirect.value == "/dashboard" && r.toast == Success(UpdatedMessage)
    ensures r.sent.Some? && answer.Refused? ==> r.toast == Error("Error updating password: " + answer.message)
    ensures r.sent.Some? && answer.Threw? ==> r.toast == Error(UnexpectedMessage)
    ensures !r.loading
  {
    match Validate(password, confirm)
    case Mismatch => Submission(None, Error(MismatchMessage), None, false)
    case TooShort => Submission(None, Error(TooShortMessage), None, false)
    case Accepted =>
      match answer
      case Updated => Submission(Some(password), Success(UpdatedMessage), Some("/dashboard"), false)
      case Refused(message) => Submission(Some(password), Error("Error updating password: " + message), None, false)
      case Threw => Submission(Some(password), Error(UnexpectedMessage), None, false)
  }

  /** Only a confirmed password of at least six characters reaches the
      service, and every other submission is answered with an error. */
  lemma OnlyConfirmedPasswordsAreSent(password: string, confirm: string, answer: UpdateAnswer)
    ensures var r := HandleReset(password, confirm, answer);
      (r.sent.Some? ==> r.sent.value == confirm && |r.sent.value| >= MinLength)
      && (r.sent.None? ==> r.toast.Error? && r.redirect.None?)
  {
  }

  /** A short password that does not match is reported as a mismatch: the
      match check comes first. */
  lemma MismatchReportedFirst(password: string, confirm: string, answer: UpdateAnswer)
    requires password != confirm && |password| < MinLength
    ensures HandleReset(password, confirm, answer).toast == Error(MismatchMessage)
  {
  }
}
