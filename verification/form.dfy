/**
  The password-update form as a value: the two password fields, their input
  types and their error slots. The two validators, the submit handler and the
  show/hide toggle are functions from one form state to the next.
 */
module PasswordForm {
  import opened Text
  import opened PasswordRules

  /** How a password input renders its value. */
  datatype InputType = Password | PlainText

  /** What the page holds between events. */
  datatype Form = Form(
    newPassword: seq<CodeUnit>,
    confirmPassword: seq<CodeUnit>,
    newPasswordType: InputType,
    confirmPasswordType: InputType,
    newPasswordErrMsg: string,
    confirmPasswordErrMsg: string)

  /** A validator's effect: the form with its error slot rewritten, and the
      boolean it returns. */
  datatype Validated = Validated(form: Form, valid: bool)

  /** `validateNewPassword` against the page: only the new-password error
      slot changes, and it is empty exactly when the result is true. */
  function ValidateNewPassword(f: Form): (r: Validated)
    ensures r.form == f.(newPasswordErrMsg := r.form.newPasswordErrMsg)
    ensures r.valid <==> r.form.newPasswordErrMsg == ""
    ensures r.valid <==> SatisfiesAll(Trim(f.newPassword))
  {
    var check := CheckNewPassword(f.newPassword);
    Validated(f.(newPasswordErrMsg := check.message), check.valid)
  }

  /** `validateConfirmPassword` against the page: only the confirmation
      error slot changes, and it is empty exactly when the result is true. */
  function ValidateConfirmPassword(f: Form): (r: Validated)
    ensures r.form == f.(confirmPasswordErrMsg := r.form.confirmPasswordErrMsg)
    ensures r.valid <==> r.form.confirmPasswordErrMsg == ""
    ensures r.valid
        <==> Trim(f.confirmPassword) != [] && Trim(f.confirmPassword) == Trim(f.newPassword)
  {
    var check := CheckConfirmPassword(f.newPassword, f.confirmPassword);
    Validated(f.(confirmPasswordErrMsg := check.message), check.valid)
  }

  /** The error slot a validator writes depends on the field values only,
      never on what the slot held before. */
  lemma ValidatorsOverwriteSlots(f: Form, g: Form)
    requires f.newPassword == g.newPassword && f.confirmPassword == g.confirmPassword
    ensures ValidateNewPassword(f).form.newPasswordErrMsg
         == ValidateNewPassword(g).form.newPasswordErrMsg
    ensures ValidateConfirmPassword(f).form.confirmPasswordErrMsg
         == ValidateConfirmPassword(g).form.confirmPasswordErrMsg
  {
  }

  /** Running a validator a second time on the same values changes nothing. */
  lemma ValidatorsIdempotent(f: Form)
    ensures ValidateNewPassword(ValidateNewPassword(f).form) == ValidateNewPassword(f)
    ensures ValidateConfirmPassword(ValidateConfirmPassword(f).form)
         == ValidateConfirmPassword(f)
  {
  }

  /** The user-facing notification at the end of a submit. */
  datatype Notice = SuccessAlert | BlockedLog {
    function Text(): string {
      match this
      case SuccessAlert => "Password Update Successful (All Validations Passed)!"
      case BlockedLog => "Form submission blocked due to validation errors."
    }
  }

  /** The outcome of one submit event. */
  datatype Submission = Submission(
    form: Form,
    defaultPrevented: bool,
    accepted: bool,
    notice: Notice)

  /** `form.reset()`: both password values go back to their (empty) default.
      Input types and the error slots are not form values and stay. */
  function Reset(f: Form): (g: Form)
    ensures g.newPassword == [] && g.confirmPassword == []
    ensures g.(newPassword := f.newPassword, confirmPassword := f.confirmPassword) == f
  {
    f.(newPassword := [], confirmPassword := [])
  }

  /** The submit handler: default navigation is always suppressed, both
      validators always run (new password first), and the form is accepted
      exactly when both pass. On acceptance the user is alerted and the form
      reset; otherwise the values stay and a diagnostic is logged. */
  function Submit(f: Form): (s: Submission)
    ensures s.defaultPrevented
    ensures s.accepted <==> ValidateNewPassword(f).valid && ValidateConfirmPassword(f).valid
    ensures s.form.newPasswordErrMsg == CheckNewPassword(f.newPassword).message
    ensures s.form.confirmPasswordErrMsg
         == CheckConfirmPassword(f.newPassword, f.confirmPassword).message
    ensures s.form.newPasswordType == f.newPasswordType
    ensures s.form.confirmPasswordType == f.confirmPasswordType
    ensures s.accepted ==> s.form.newPassword == [] && s.form.confirmPassword == []
    ensures !s.accepted ==>
      s.form.newPassword == f.newPassword && s.form.confirmPassword == f.confirmPassword
    ensures s.notice == (if s.accepted then SuccessAlert else BlockedLog)
  {
    var first := ValidateNewPassword(f);
    var second := ValidateConfirmPassword(first.form);
    if first.valid && second.valid then
      Submission(Reset(second.form), true, true, SuccessAlert)
    else
      Submission(second.form, true, false, BlockedLog)
  }

  /** Acceptance in terms of the values alone: the trimmed new password
      passes every rule and the trimmed confirmation equals it. */
  lemma SubmitAcceptance(f: Form)
    ensures Submit(f).accepted
        <==> (SatisfiesAll(Trim(f.newPassword))
              && Trim(f.confirmPassword) == Trim(f.newPassword))
  {
    if SatisfiesAll(Trim(f.newPassword)) {
      assert Satisfies(Trim(f.newPassword), RuleOrder[0]);
    }
  }

  /** After an accepted submit both error slots are clear and both fields
      are empty. */
  lemma AcceptedSubmitLeavesCleanForm(f: Form)
    ensures Submit(f).accepted ==>
      var g := Submit(f).form;
      g.newPassword == [] && g.confirmPassword == []
      && g.newPasswordErrMsg == "" && g.confirmPasswordErrMsg == ""
  {
  }

  /** A blocked submit shows at least one error. */
  lemma BlockedSubmitShowsError(f: Form)
    ensures !Submit(f).accepted ==>
      Submit(f).form.newPasswordErrMsg != "" || Submit(f).form.confirmPasswordErrMsg != ""
  {
  }

  /** The input type the show-password checkbox selects. */
  function TypeFor(checked: bool): (t: InputType)
    ensures t == PlainText <==> checked
  {
    if checked then PlainText else Password
  }

  /** The checkbox `change` handler: both fields take the type the checkbox
      selects; nothing else changes. */
  function ToggleVisibility(f: Form, checked: bool): (g: Form)
    ensures g.newPasswordType == g.confirmPasswordType
    ensures g.newPasswordType == PlainText <==> checked
    ensures g.(newPasswordType := f.newPasswordType,
               confirmPasswordType := f.confirmPasswordType) == f
  {
    var t := TypeFor(checked);
    f.(newPasswordType := t, confirmPasswordType := t)
  }

  /** The fields always mirror the latest checkbox state, whatever came
      before it. */
  lemma ToggleLastWins(f: Form, a: bool, b: bool)
    ensures ToggleVisibility(ToggleVisibility(f, a), b) == ToggleVisibility(f, b)
  {
  }

  /** Checking and then unchecking the box restores a masked form. */
  lemma ToggleRoundTrip(f: Form)
    requires f.newPasswordType == Password && f.confirmPasswordType == Password
    ensures ToggleVisibility(ToggleVisibility(f, true), false) == f
  {
  }

  /** Toggling visibility never changes what a submit decides. */
  lemma ToggleIndependentOfSubmit(f: Form, checked: bool)
    ensures Submit(ToggleVisibility(f, checked)).accepted == Submit(f).accepted
    ensures Submit(ToggleVisibility(f, checked)).form
         == ToggleVisibility(Submit(f).form, checked)
  {
  }

  /** Scenario: "Abc123!@" typed in both fields is accepted; the user is
      alerted and both fields are cleared. */
  lemma ScenarioAccepted(f: Form)
    requires Spells(f.newPassword, "Abc123!@") && Spells(f.confirmPassword, "Abc123!@")
    ensures Submit(f).accepted && Submit(f).notice == SuccessAlert
    ensures Submit(f).form.newPassword == [] && Submit(f).form.confirmPassword == []
  {
    ScenarioStrongPassword(f.newPassword);
    ScenarioStrongPassword(f.confirmPassword);
    assert f.newPassword == f.confirmPassword;
  }

  /** Scenario: surrounding blanks are trimmed from both fields before any
      rule or comparison, so a padded password still matches. */
  lemma ScenarioPaddedAccepted(f: Form)
    requires Spells(f.newPassword, "  Abc123!@\t") && Spells(f.confirmPassword, "Abc123!@")
    ensures Submit(f).accepted
  {
    ScenarioPaddedPassword(f.newPassword, f.confirmPassword);
  }

  /** Scenario: "abc" in both fields is blocked by the length rule alone;
      the two values match, so the confirmation slot stays clear. */
  lemma ScenarioTooShort(f: Form)
    requires Spells(f.newPassword, "abc") && Spells(f.confirmPassword, "abc")
    ensures !Submit(f).accepted && Submit(f).notice == BlockedLog
    ensures Submit(f).form.newPasswordErrMsg == "Password must be at least 8 characters long."
    ensures Submit(f).form.confirmPasswordErrMsg == ""
    ensures Submit(f).form.newPassword == f.newPassword
  {
    var v := f.newPassword;
    assert v[0] == 0x61 && v[2] == 0x63;
    TrimOfTrimmed(v);
    assert f.newPassword == f.confirmPassword;
  }

  /** Scenario: "Password1" against "Password2". Both slots report an
      error: the confirmation does not match, and "Password1" has no code
      unit outside `[A-Za-z0-9]`, so the special-character rule fails. */
  lemma ScenarioMismatch(f: Form)
    requires Spells(f.newPassword, "Password1") && Spells(f.confirmPassword, "Password2")
    ensures !Submit(f).accepted
    ensures Submit(f).form.newPasswordErrMsg
         == "Password must contain at least one special character."
    ensures Submit(f).form.confirmPasswordErrMsg == "Passwords do not match."
  {
    var v := f.newPassword;
    var c := f.confirmPassword;
    ScenarioNoSpecial(v);
    assert c[0] == 0x50 && c[8] == 0x32 && v[8] == 0x31;
    TrimOfTrimmed(c);
  }
}
