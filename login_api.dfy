/**
 * `POST /api/login` (LoginController.java): a fixed table of four users, all with the same
 * password, and an exact-match check that answers 200 or 401.
 */
module LoginApi {
  import opened Wrappers
  import opened Http

  /** The pre-created credentials; `Map.of` makes the table immutable. */
  const Users: map<string, string> := map[
    "Administrator" := "Pwd&1234",
    "Super admin" := "Pwd&1234",
    "User A" := "Pwd&1234",
    "User B" := "Pwd&1234"
  ]

  const SuccessBody := "Login Successful"
  const FailureBody := "Invalid credentials"

  /** Exceptions the handler can raise; Spring answers an uncaught one with status 500. */
  datatype JavaException = NullPointerException

  /** The handler's result: the response it returns, or the exception it throws. */
  datatype Outcome<T> = Returned(value: T) | Threw(exception: JavaException)

  /** The login rule: the user is in the table and the password equals the stored one, character for character. */
  predicate Authorized(username: string, password: Option<string>)
  {
    username in Users && password == Some(Users[username])
  }

  /**
   * `login` as written. `credentials.get` gives null for a missing field, and the
   * table made by `Map.of` throws `NullPointerException` when asked whether it contains null.
   */
  function LoginAsWritten(credentials: map<string, string>): (r: Outcome<HttpResponse<string>>)
    ensures r.Threw? <==> "username" !in credentials
  {
    match Get(credentials, "username")
    case None => Threw(NullPointerException)
    case Some(username) =>
      var password := Get(credentials, "password");
      if username in Users && password == Some(Users[username]) then
        Returned(HttpResponse(StatusOk, Some(SuccessBody)))
      else
        Returned(HttpResponse(StatusUnauthorized, Some(FailureBody)))
  }

  /** A request without a username makes the handler throw instead of answering 401. */
  lemma MissingUsernameThrows(password: string)
    ensures LoginAsWritten(map["password" := password]) == Threw(NullPointerException)
  {
  }

  /** `login` as intended: 200 with `Login Successful` for a matching pair, 401 with `Invalid credentials` for anything else. */
  function Login(credentials: map<string, string>): (r: HttpResponse<string>)
    ensures r.status == StatusOk || r.status == StatusUnauthorized
    ensures r.status == StatusOk <==>
      "username" in credentials && Authorized(credentials["username"], Get(credentials, "password"))
    ensures r.body == Some(if r.status == StatusOk then SuccessBody else FailureBody)
  {
    match Get(credentials, "username")
    case None => HttpResponse(StatusUnauthorized, Some(FailureBody))
    case Some(username) =>
      if Authorized(username, Get(credentials, "password")) then HttpResponse(StatusOk, Some(SuccessBody))
      else HttpResponse(StatusUnauthorized, Some(FailureBody))
  }

  /** Wherever the code as written answers, it answers as `Login` does. */
  lemma LoginAgreesWhenUsernamePresent(credentials: map<string, string>)
    requires "username" in credentials
    ensures LoginAsWritten(credentials) == Returned(Login(credentials))
  {
  }

  /** The body the page sends, `{ username, password }`. */
  function LoginBody(username: string, password: string): map<string, string>
  {
    map["username" := username, "password" := password]
  }

  /** Exactly four pairs log in: each of the four users with `Pwd&1234`. */
  lemma AcceptedPairs(username: string, password: string)
    ensures Login(LoginBody(username, password)).status == StatusOk
            <==> username in {"Administrator", "Super admin", "User A", "User B"} && password == "Pwd&1234"
  {
  }

  /** A known user with any other password is turned away with 401. */
  lemma WrongPasswordRejected(username: string, password: string)
    requires username in Users && password != Users[username]
    ensures Login(LoginBody(username, password)) == HttpResponse(StatusUnauthorized, Some(FailureBody))
  {
  }

  /** A request without a password is turned away even for a known user. */
  lemma MissingPasswordRejected(username: string)
    ensures Login(map["username" := username]).status == StatusUnauthorized
    ensures LoginAsWritten(map["username" := username]) == Returned(HttpResponse(StatusUnauthorized, Some(FailureBody)))
  {
  }

  /** The table holds four users. */
  lemma UserTableSize()
    ensures |Users| == 4 && Users.Keys == {"Administrator", "Super admin", "User A", "User B"}
  {
    assert Users.Keys == {"Administrator", "Super admin", "User A", "User B"};
  }
}
