/** The page a reset e-mail links to (src/pages/ResetPasswordPage.tsx): a
    new password typed twice, sent with the token from the route. */
module ResetPasswordPage {
  import opened Common
  import Api

  const Mismatch := "Passwords do not match"
  const ResetFailed := "Failed to reset password"
  const LoginPath := "/login"
  /** Milliseconds between the success message and the move to login. */
  const RedirectDelay := 2000

  class Page {
    /** The `:token` route parameter; "" when it is missing. */
    const token: string
    var password: string
    var confirmPassword: string
    var loading: bool
    var success: bool
    var error: string
    /** The navigation `setTimeout` has been asked for, with its delay. */
    var scheduled: Option<(string, int)>

    constructor (token: string)
      ensures this.token == token && password == "" && confirmPassword == ""
      ensures !loading && !success && error == "" && scheduled == None
    {
      this.token := token;
      password := "";
      confirmPassword := "";
      loading := false;
      success := false;
      error := "";
      scheduled := None;
    }

    /** `handleSubmit`. Mismatched passwords are refused before the token is
        looked at; a missing token sends nothing and changes nothing; else
        the reset is sent and either succeeds, scheduling the move to login,
        or shows the server's message. `loading` ends false. */
    method HandleSubmit(result: Outcome<()>) returns (calls: seq<Api.ApiCall>)
      modifies this
      ensures password == old(password) && confirmPassword == old(confirmPassword)
      ensures password != confirmPassword ==>
        calls == [] && error == Mismatch
        && loading == old(loading) && success == old(success) && scheduled == old(scheduled)
      ensures password == confirmPassword && token == "" ==>
        calls == [] && error == old(error)
        && loading == old(loading) && success == old(success) && scheduled == old(scheduled)
      ensures password == confirmPassword && token != "" ==>
        calls == [Api.ResetPassword(token, password)] && !loading
      ensures password == confirmPassword && token != "" && result.Ok? ==>
        success && error == "" && scheduled == Some((LoginPath, RedirectDelay))
      ensures password == confirmPassword && token != "" && result.Failed? ==>
        success == old(success) && scheduled == old(scheduled)
        && error == ErrorText(result.serverMessage, ResetFailed) && error != ""
    {
      calls := [];
      if password != confirmPassword {
        error := Mismatch;
        return;
      }
      if token == "" {
        return;
      }
      loading := true;
      error := "";
      calls := [Api.ResetPassword(token, password)];
      match result {
        case Ok(_) =>
          success := true;
          scheduled := Some((LoginPath, RedirectDelay));
        case Failed(message) =>
          error := ErrorText(message, ResetFailed);
      }
      loading := false;
    }
  }
}
