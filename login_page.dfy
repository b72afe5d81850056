/**
 * The login/registration form (`LoginPage`): the ordered validation chain
 * that picks at most one error before any request is made, and how the
 * server's answer becomes an error message or a successful login.
 */
module Login {
  import opened Wrappers
  import JsText

  const UsernameRequired: string := "Username is required"
  const EmailRequired: string := "Email is required"
  const PasswordTooShort: string := "Password must be at least 6 characters"
  const PasswordRequired: string := "Password is required"
  const RegistrationFailed: string := "Registration failed"
  const LoginFailed: string := "Login failed"

  /** The request body sent to the server. */
  datatype Request =
    | RegisterRequest(username: string, email: string, password: string)   // POST /api/register
    | LoginRequest(username: string, password: string)                     // POST /api/login

  /** How the awaited request ended: a response whose body has an `error`
      field ("" when absent or empty), or an exception (network failure or
      a body that is not JSON) with its message. */
  datatype Outcome = Answered(ok: bool, error: string) | Threw(message: string)

  /** The validation chain of `handleSubmit`: the username first in both
      modes; when registering, the email and then the password, whose raw
      (untrimmed) length must reach 6; when logging in, only a blank
      password is refused. */
  function Validate(registering: bool, username: string, email: string, password: string): (r: Option<string>)
    ensures JsText.Blank(username) ==> r == Some(UsernameRequired)
    ensures !JsText.Blank(username) && registering && JsText.Blank(email) ==> r == Some(EmailRequired)
    ensures !JsText.Blank(username) && registering && !JsText.Blank(email) ==>
      (r == Some(PasswordTooShort) <==> JsText.Blank(password) || JsText.Utf16Length(password) < 6)
    ensures !JsText.Blank(username) && !registering ==> (r == Some(PasswordRequired) <==> JsText.Blank(password))
    ensures r == None <==>
      && !JsText.Blank(username)
      && (registering ==> !JsText.Blank(email) && !JsText.Blank(password) && JsText.Utf16Length(password) >= 6)
      && (!registering ==> !JsText.Blank(password))
  {
    if JsText.Blank(username) then Some(UsernameRequired)
    else if registering then
      if JsText.Blank(email) then Some(EmailRequired)
      else if JsText.Blank(password) || JsText.Utf16Length(password) < 6 then Some(PasswordTooShort)
      else None
    else if JsText.Blank(password) then Some(PasswordRequired)
    else None
  }

  /** The error shown after a request that did not succeed: the thrown
      message, else the body's `error` field, else the mode's default. */
  function FailureText(registering: bool, outcome: Outcome): (t: string)
    requires !(outcome.Answered? && outcome.ok)
    ensures outcome.Threw? ==> t == outcome.message
    ensures outcome.Answered? && outcome.error != "" ==> t == outcome.error
    ensures outcome.Answered? && outcome.error == "" ==> t == (if registering then RegistrationFailed else LoginFailed)
    ensures t == "" ==> outcome.Threw?
  {
    match outcome
    case Threw(message) => message
    case Answered(_, error) =>
      if error != "" then error else if registering then RegistrationFailed else LoginFailed
  }

  class LoginForm {
    var username: string
    var password: string
    var email: string
    var registering: bool
    var error: string
    var loading: bool
    /** Requests sent, oldest first. */
    var requests: seq<Request>
    /** The arguments of every `onLoginSuccess` call, oldest first. */
    var successes: seq<string>

    constructor ()
      ensures username == "" && password == "" && email == "" && !registering
      ensures error == "" && !loading && requests == [] && successes == []
    {
      username, password, email := "", "", "";
      registering := false;
      error := "";
      loading := false;
      requests, successes := [], [];
    }

    /** The inputs' `onChange` handlers and the mode toggle. */
    method Edit(username: string, email: string, password: string, registering: bool)
      modifies this
      ensures this.username == username && this.email == email && this.password == password
      ensures this.registering == registering
      ensures error == old(error) && loading == old(loading)
      ensures requests == old(requests) && successes == old(successes)
    {
      this.username, this.email, this.password := username, email, password;
      this.registering := registering;
    }

    /** `handleSubmit`, run to completion; `outcome` stands for the awaited
        `fetch` and `response.json()`. A failed validation sends nothing and
        shows its error; otherwise exactly one request with the raw fields
        is sent, and `onLoginSuccess` receives the entered username exactly
        when the response is ok. `loading` is false on every exit. */
    method Submit(outcome: Outcome)
      modifies this`error, this`loading, this`requests, this`successes
      ensures !loading
      ensures var v := Validate(registering, username, email, password);
        && (v.Some? ==> error == v.value && requests == old(requests) && successes == old(successes))
        && (v.None? ==>
              && requests == old(requests) + [if registering then RegisterRequest(username, email, password)
                                                            else LoginRequest(username, password)]
              && (outcome.Answered? && outcome.ok ==> error == "" && successes == old(successes) + [username])
              && (!(outcome.Answered? && outcome.ok) ==>
                    error == FailureText(registering, outcome) && successes == old(successes)))
    {
      error := "";
      loading := true;
      if JsText.Blank(username) {
        error := UsernameRequired;
        loading := false;
        return;
      }
      if registering {
        if JsText.Blank(email) {
          error := EmailRequired;
          loading := false;
          return;
        }
        if JsText.Blank(password) || JsText.Utf16Length(password) < 6 {
          error := PasswordTooShort;
          loading := false;
          return;
        }
        requests := requests + [RegisterRequest(username, email, password)];
      } else {
        if JsText.Blank(password) {
          error := PasswordRequired;
          loading := false;
          return;
        }
        requests := requests + [LoginRequest(username, password)];
      }
      if outcome.Answered? && outcome.ok {
        successes := successes + [username];
      } else {
        error := FailureText(registering, outcome);
      }
      loading := false;
    }
  }
}
