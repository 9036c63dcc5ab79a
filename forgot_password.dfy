/** The forgot-password dialog: a two-step flow, first the email (which
    "sends" a fixed code), then the code and the new password. */
module ForgotPassword {
  import opened Common

  /** The code the first step stores in place of a sent one. */
  const FixedOtp: string := "123456"
  const MinPasswordLength: nat := 6

  const EnterEmail: string := "Please enter your email."
  const FillAllFields: string := "Please fill all fields."
  const InvalidOtp: string := "Invalid OTP."
  const TooShort: string := "Password must be at least 6 characters."
  const Mismatch: string := "Passwords do not match."

  /** The checks of `handleResetPassword`, in order: the message of the
      first that fails, or `None` when all pass. */
  function ResetError(enteredOtp: string, otp: string, newPassword: string, confirmPassword: string): Option<string> {
    if enteredOtp == "" || newPassword == "" || confirmPassword == "" then Some(FillAllFields)
    else if enteredOtp != otp then Some(InvalidOtp)
    else if |newPassword| < MinPasswordLength then Some(TooShort)
    else if newPassword != confirmPassword then Some(Mismatch)
    else None
  }

  /** A reset passes exactly when every field is filled, the code matches,
      the password has at least six characters and is confirmed; each
      failure is reported only when the checks before it pass. */
  lemma ResetErrorSpec(enteredOtp: string, otp: string, newPassword: string, confirmPassword: string)
    ensures ResetError(enteredOtp, otp, newPassword, confirmPassword).None? <==>
      enteredOtp != "" && enteredOtp == otp && |newPassword| >= MinPasswordLength && newPassword == confirmPassword
    ensures ResetError(enteredOtp, otp, newPassword, confirmPassword) == Some(InvalidOtp) ==>
      enteredOtp != "" && newPassword != "" && confirmPassword != "" && enteredOtp != otp
    ensures ResetError(enteredOtp, otp, newPassword, confirmPassword) == Some(TooShort) ==>
      enteredOtp == otp != "" && confirmPassword != "" && 0 < |newPassword| < MinPasswordLength
    ensures ResetError(enteredOtp, otp, newPassword, confirmPassword) == Some(Mismatch) ==>
      enteredOtp == otp && |newPassword| >= MinPasswordLength && confirmPassword != "" && newPassword != confirmPassword
  {
  }

  class ForgotFlow {
    var step: int
    var email: string
    var otpSent: bool
    var otp: string
    var enteredOtp: string
    var newPassword: string
    var confirmPassword: string
    var success: bool
    var error: string

    /** Step 1 or 2; step 2 holds the code; success only at step 2. */
    ghost predicate Valid()
      reads this
    {
      (step == 1 || step == 2) &&
      (step == 2 ==> otpSent && otp == FixedOtp) &&
      (success ==> step == 2)
    }

    /** Step 1, nothing entered, no success, no error. */
    constructor ()
      ensures Valid()
      ensures step == 1 && !success && error == "" && !otpSent && otp == ""
      ensures email == "" && enteredOtp == "" && newPassword == "" && confirmPassword == ""
    {
      step := 1;
      email := "";
      otpSent := false;
      otp := "";
      enteredOtp := "";
      newPassword := "";
      confirmPassword := "";
      success := false;
      error := "";
    }

    /** Typing into one of the inputs. */
    method Edit(newEmail: string, newEntered: string, newPw: string, newConfirm: string)
      requires Valid()
      modifies this
      ensures Valid()
      ensures email == newEmail && enteredOtp == newEntered && newPassword == newPw && confirmPassword == newConfirm
      ensures step == old(step) && otpSent == old(otpSent) && otp == old(otp)
      ensures success == old(success) && error == old(error)
    {
      email, enteredOtp, newPassword, confirmPassword := newEmail, newEntered, newPw, newConfirm;
    }

    /** `handleSendOtp`: an empty email sets the message and stays put;
        otherwise the fixed code is stored, the flow moves to step 2 and the
        error is cleared. */
    method SendOtp()
      requires Valid()
      modifies this
      ensures Valid()
      ensures old(email) == "" ==> error == EnterEmail && step == old(step) && otp == old(otp) && otpSent == old(otpSent)
      ensures old(email) != "" ==> step == 2 && otpSent && otp == FixedOtp && error == ""
      ensures success == old(success) && email == old(email)
      ensures enteredOtp == old(enteredOtp) && newPassword == old(newPassword) && confirmPassword == old(confirmPassword)
    {
      if email == "" {
        error := EnterEmail;
        return;
      }
      otpSent := true;
      otp := FixedOtp;
      step := 2;
      error := "";
    }

    /** `handleResetPassword`: the first failing check sets its message and
        leaves `success`; when all pass, `success` is set and the error
        cleared. */
    method ResetPassword()
      requires Valid() && step == 2
      modifies this
      ensures Valid()
      ensures ResetError(old(enteredOtp), old(otp), old(newPassword), old(confirmPassword)).Some? ==>
        error == ResetError(old(enteredOtp), old(otp), old(newPassword), old(confirmPassword)).value &&
        success == old(success)
      ensures ResetError(old(enteredOtp), old(otp), old(newPassword), old(confirmPassword)).None? ==>
        success && error == ""
      ensures step == old(step) && otp == old(otp) && otpSent == old(otpSent) && email == old(email)
      ensures enteredOtp == old(enteredOtp) && newPassword == old(newPassword) && confirmPassword == old(confirmPassword)
    {
      var e := ResetError(enteredOtp, otp, newPassword, confirmPassword);
      if e.Some? {
        error := e.value;
        return;
      }
      success := true;
      error := "";
    }

    /** The form's submit, dispatched on the current step. No path goes back
        to step 1 or clears `success`. */
    method Submit()
      requires Valid()
      modifies this
      ensures Valid()
      ensures old(step) == 1 ==> (old(email) != "" <==> step == 2)
      ensures old(step) == 2 ==> step == 2
      ensures old(step) == 2 ==>
        (success <==> old(success) || ResetError(old(enteredOtp), FixedOtp, old(newPassword), old(confirmPassword)).None?)
      ensures step >= old(step) && (old(success) ==> success)
    {
      if step == 1 {
        SendOtp();
      } else {
        ResetPassword();
      }
    }
  }
}
