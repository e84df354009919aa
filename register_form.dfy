/** The registration form: field checks on submit, then the register request
    and the redirect to the login page. */
module RegisterForm {
  import opened Common

  const FillAllFields := "Please fill in all fields."
  const PasswordTooShort := "Password must be at least 6 characters long."
  const ConfigurationError := "API URL configuration error."
  const UnknownRegistrationError := "Registration failed due to an unknown error."
  const MinPasswordLength := 6

  /** How the register request ended: the request or the reading of its
      body failed with a message, or a response arrived with its `ok` flag
      and the body's `error.message`. */
  datatype RegisterReply = TransportFailure(message: string) | Response(ok: bool, errorMessage: Option<string>)

  /** The checks of `handleSubmit`, in order: every field filled, then the
      password length. `None` lets the request go ahead. */
  function CheckFields(username: string, email: string, password: string): (error: Option<string>)
    ensures error.None? <==> username != "" && email != "" && |password| >= MinPasswordLength
    ensures error == Some(FillAllFields) <==> username == "" || email == "" || password == ""
    ensures error == Some(PasswordTooShort) <==>
              username != "" && email != "" && password != "" && |password| < MinPasswordLength
  {
    if username == "" || email == "" || password == "" then Some(FillAllFields)
    else if |password| < MinPasswordLength then Some(PasswordTooShort)
    else None
  }

  /** `handleRegister`: fails before any request without a base URL, passes
      a transport failure on, and turns a non-ok response into the body's
      message or a fixed fallback. */
  function HandleRegister(strapiUrl: Option<string>, reply: RegisterReply): (outcome: Outcome)
    ensures outcome.Done? <==> Truthy(strapiUrl) && reply.Response? && reply.ok
    ensures !Truthy(strapiUrl) ==> outcome == Thrown(ConfigurationError)
    ensures Truthy(strapiUrl) && reply.TransportFailure? ==> outcome == Thrown(reply.message)
    ensures Truthy(strapiUrl) && reply.Response? && !reply.ok ==>
              outcome.Thrown? && outcome.message != ""
              && (Truthy(reply.errorMessage) ==> outcome.message == reply.errorMessage.value)
              && (!Truthy(reply.errorMessage) ==> outcome.message == UnknownRegistrationError)
  {
    if !Truthy(strapiUrl) then Thrown(ConfigurationError)
    else match reply
      case TransportFailure(message) => Thrown(message)
      case Response(ok, errorMessage) =>
        if !ok then Thrown(OrElse(errorMessage, UnknownRegistrationError)) else Done
  }

  class RegisterFormState {
    var username: string
    var email: string
    var password: string
    var error: string
    var navigation: seq<string>

    constructor ()
      ensures username == "" && email == "" && password == "" && error == "" && navigation == []
    {
      username, email, password, error := "", "", "", "";
      navigation := [];
    }

    /** `handleSubmit`; `registerCalled` says whether `handleRegister` ran. */
    method HandleSubmit(strapiUrl: Option<string>, reply: RegisterReply) returns (registerCalled: bool)
      modifies this`error, this`navigation
      ensures registerCalled <==> CheckFields(username, email, password).None?
      ensures !registerCalled ==>
                error == CheckFields(username, email, password).value && navigation == old(navigation)
      ensures registerCalled && HandleRegister(strapiUrl, reply).Done? ==>
                error == "" && navigation == old(navigation) + [LoginPath]
      ensures registerCalled && HandleRegister(strapiUrl, reply).Thrown? ==>
                error == HandleRegister(strapiUrl, reply).message && navigation == old(navigation)
    {
      error := "";
      if username == "" || email == "" || password == "" {
        error := FillAllFields;
        return false;
      }
      if |password| < MinPasswordLength {
        error := PasswordTooShort;
        return false;
      }
      registerCalled := true;
      var outcome := HandleRegister(strapiUrl, reply);
      if outcome.Done? {
        navigation := navigation + [LoginPath];
      } else {
        error := outcome.message;
      }
    }
  }

  /** A failed submit followed by a corrected one: the second clears the
      first one's error and, when the server accepts, goes to the login
      page. */
  method ResubmitAfterShortPassword(username: string, email: string, shortPassword: string,
                                    password: string, strapiUrl: string)
    returns (firstError: string, secondError: string, navigation: seq<string>)
    requires username != "" && email != "" && strapiUrl != ""
    requires 0 < |shortPassword| < MinPasswordLength <= |password|
    ensures firstError == PasswordTooShort && secondError == "" && navigation == [LoginPath]
  {
    var form := new RegisterFormState();
    form.username, form.email, form.password := username, email, shortPassword;
    var called := form.HandleSubmit(Some(strapiUrl), Response(true, None));
    firstError := form.error;
    form.password := password;
    called := form.HandleSubmit(Some(strapiUrl), Response(true, None));
    secondError, navigation := form.error, form.navigation;
  }
}
