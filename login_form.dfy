/** The login form: a check that both fields are filled, then the login
    handler, which is still a placeholder that only announces itself. */
module LoginForm {
  import opened Common

  const MissingCredentials := "Please enter both email/username and password."
  const LoginFailed := "Login failed. Please check your credentials."

  /** The check of `handleSubmit`: both fields filled, or the error text. */
  function CheckCredentials(identifier: string, password: string): (error: Option<string>)
    ensures error.None? <==> identifier != "" && password != ""
    ensures error.Some? ==> error.value == MissingCredentials
  {
    if identifier == "" || password == "" then Some(MissingCredentials) else None
  }

  class LoginFormState {
    var identifier: string
    var password: string
    var error: string
    /** The arguments of every call of the login handler, in order. */
    var loginCalls: seq<(string, string)>

    constructor ()
      ensures identifier == "" && password == "" && error == "" && loginCalls == []
    {
      identifier, password, error := "", "", "";
      loginCalls := [];
    }

    /** `handleLogin`: the placeholder resolves without doing anything. */
    method HandleLogin(id: string, secret: string) returns (outcome: Outcome)
      modifies this`loginCalls
      ensures loginCalls == old(loginCalls) + [(id, secret)]
      ensures outcome == Done
    {
      loginCalls := loginCalls + [(id, secret)];
      outcome := Done;
    }

    /** `handleSubmit`. */
    method HandleSubmit()
      modifies this`error, this`loginCalls
      ensures CheckCredentials(identifier, password).Some? ==>
                error == MissingCredentials && loginCalls == old(loginCalls)
      ensures CheckCredentials(identifier, password).None? ==>
                error == "" && loginCalls == old(loginCalls) + [(identifier, password)]
    {
      error := "";
      if identifier == "" || password == "" {
        error := MissingCredentials;
        return;
      }
      var outcome := HandleLogin(identifier, password);
      // the catch block: a throwing handler would show the generic failure
      error := if outcome.Thrown? then LoginFailed else error;
    }
  }

  /** Whatever was typed, a submit never shows the login-failure text: the
      handler as written cannot throw. */
  method SubmitNeverFails(identifier: string, password: string) returns (error: string, calls: nat)
    ensures error != LoginFailed
    ensures error == "" <==> identifier != "" && password != ""
    ensures calls == if identifier != "" && password != "" then 1 else 0
  {
    var form := new LoginFormState();
    form.identifier, form.password := identifier, password;
    form.HandleSubmit();
    error, calls := form.error, |form.loginCalls|;
  }
}
