/** The standalone signup validator `validateSignupInput` (backend/sample.js). An absent or empty
    argument is the empty string: JavaScript treats both as falsy. */
module SignupSample {
  import opened Common
  import opened EmailFormat

  const AllFieldsRequired := "All fields are required"
  const InvalidEmail := "Please provide a valid email address"
  const PasswordTooShort := "Password must be at least 6 characters long"
  const MinPasswordLength := 6

  /** The `{ success, message }` object a failed check returns. */
  datatype Failure = Failure(success: bool, message: string)

  /** `None` is the `undefined` the function falls off the end with when every check passes. */
  function ValidateSignupInput(fullName: string, email: string, password: string): (r: Option<Failure>)
    ensures r.Some? ==> !r.value.success
    ensures (fullName == "" || email == "" || password == "") ==> r == Some(Failure(false, AllFieldsRequired))
    ensures fullName != "" && email != "" && password != "" && !MatchesEmailRegex(email)
      ==> r == Some(Failure(false, InvalidEmail))
    ensures fullName != "" && email != "" && password != "" && MatchesEmailRegex(email) && |password| < MinPasswordLength
      ==> r == Some(Failure(false, PasswordTooShort))
    ensures r.None? <==> fullName != "" && MatchesEmailRegex(email) && |password| >= MinPasswordLength
  {
    IsValidEmailIffRegex(email);
    if fullName == "" || email == "" || password == "" then
      Some(Failure(false, AllFieldsRequired))
    else if !IsValidEmail(email) then
      Some(Failure(false, InvalidEmail))
    else if |password| < MinPasswordLength then
      Some(Failure(false, PasswordTooShort))
    else
      None
  }
}
