/** The registration form's submit handler: the password checks, in their order,
    and the `signUp` call they gate. */
module Register {
  import opened Wrappers

  datatype RegisterForm = RegisterForm(
    email: string,
    password: string,
    confirmPassword: string,
    fullName: string,
    isLoading: bool)

  /** The arguments of a `signUp(email, password, fullName)` call. */
  datatype SignUpCall = SignUpCall(email: string, password: string, fullName: string)

  /** What `signUp` resolves to: success, or failure with an optional error text. */
  datatype SignUpResult = SignUpResult(success: bool, error: Option<string>)

  const MinPasswordLength: nat := 6
  const MismatchError: string := "Пароли не совпадают"
  const TooShortError: string := "Пароль должен содержать минимум 6 символов"
  const DefaultSignUpError: string := "Попробуйте еще раз"
  const LoginRoute: string := "/user-login"

  /** The toast the form shows. */
  datatype Notice = Rejected(description: string) | Registered | SignUpFailed(description: string)

  /** The form after submitting, the `signUp` call made (if any), where the page
      navigated (if anywhere) and the toast. */
  datatype SubmitOutcome = SubmitOutcome(
    form: RegisterForm,
    call: Option<SignUpCall>,
    navigateTo: Option<string>,
    notice: Notice)

  /** The checks `handleSubmit` runs before calling `signUp`: the passwords must
      match, then the password must have at least 6 characters. */
  function Validate(form: RegisterForm): (r: Option<string>)
    ensures form.password != form.confirmPassword ==> r == Some(MismatchError)
    ensures form.password == form.confirmPassword && |form.password| < MinPasswordLength ==> r == Some(TooShortError)
    ensures r.None? <==> form.password == form.confirmPassword && |form.password| >= MinPasswordLength
  {
    if form.password != form.confirmPassword then Some(MismatchError)
    else if |form.password| < MinPasswordLength then Some(TooShortError)
    else None
  }

  /** `handleSubmit`. `signUp` is the authentication call. */
  function Submit(form: RegisterForm, signUp: SignUpCall -> SignUpResult): (r: SubmitOutcome)
    ensures Validate(form).Some? ==>
      r == SubmitOutcome(form, None, None, Rejected(Validate(form).value))
    ensures r.call.Some? <==> Validate(form).None?
    ensures r.call.Some? ==>
      && r.call.value == SignUpCall(form.email, form.password, form.fullName)
      && r.form == form.(isLoading := false)
    ensures r.navigateTo.Some? <==> r.call.Some? && signUp(r.call.value).success
    ensures r.navigateTo.Some? ==> r.navigateTo.value == LoginRoute && r.notice == Registered
    ensures r.call.Some? && !signUp(r.call.value).success ==>
      r.notice == SignUpFailed(if Present(signUp(r.call.value).error) then signUp(r.call.value).error.value else DefaultSignUpError)
  {
    match Validate(form)
    case Some(e) => SubmitOutcome(form, None, None, Rejected(e))
    case None =>
      var call := SignUpCall(form.email, form.password, form.fullName);
      var result := signUp(call);
      var done := form.(isLoading := false);
      if result.success then SubmitOutcome(done, Some(call), Some(LoginRoute), Registered)
      else
        SubmitOutcome(done, Some(call), None,
          SignUpFailed(if Present(result.error) then result.error.value else DefaultSignUpError))
  }

  /** When both checks fail, the mismatch is reported. */
  lemma MismatchReportedFirst(form: RegisterForm, signUp: SignUpCall -> SignUpResult)
    requires form.password != form.confirmPassword && |form.password| < MinPasswordLength
    ensures Submit(form, signUp).notice == Rejected(MismatchError)
  {
  }

  /** Six characters is enough, five is not. */
  lemma PasswordLengthBoundary(form: RegisterForm, signUp: SignUpCall -> SignUpResult)
    requires form.password == form.confirmPassword
    ensures |form.password| == MinPasswordLength ==> Submit(form, signUp).call.Some?
    ensures |form.password| == MinPasswordLength - 1 ==> Submit(form, signUp).notice == Rejected(TooShortError)
  {
  }
}
