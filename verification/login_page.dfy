/** The login page: its credential rules, and what a successful sign-in does to the
    shell's session. The sign-in call itself is done by the auth service; its answer
    is an input here. */
module LoginPage {
  import opened Wrappers
  import opened Session
  import Routes

  datatype Credentials = Credentials(username: Option<string>, password: Option<string>)

  datatype LoginField = Username | Password

  /** The page's initial values. */
  const DefaultCredentials: Credentials :=
    Credentials(Some("tungnt@softech.vn"), Some("123456789"))

  /** `string().email().required()`; the email shape is `isEmail`, a parameter. */
  predicate UsernameOk(username: Option<string>, isEmail: string -> bool) {
    username.Some? && username.value != "" && isEmail(username.value)
  }

  /** `string().min(4).required()`. */
  predicate PasswordOk(password: Option<string>) {
    password.Some? && password.value != "" && |password.value| >= 4
  }

  /** The fields whose rule fails, all reported together. */
  function LoginErrors(c: Credentials, isEmail: string -> bool): (r: set<LoginField>)
    ensures Username in r <==> !UsernameOk(c.username, isEmail)
    ensures Password in r <==> !PasswordOk(c.password)
  {
    (if UsernameOk(c.username, isEmail) then {} else {Username})
    + (if PasswordOk(c.password) then {} else {Password})
  }

  /** A password passes exactly when present with at least four characters. */
  lemma PasswordRule(password: Option<string>)
    ensures PasswordOk(password) <==> password.Some? && |password.value| >= 4
  {
  }

  /** The default password passes its rule. */
  lemma DefaultPasswordOk()
    ensures PasswordOk(DefaultCredentials.password)
  {
  }

  /** The page's initial values submit without errors exactly when the default
      username has the email shape; the password is never the obstacle. */
  lemma DefaultCredentialsErrors(isEmail: string -> bool)
    ensures LoginErrors(DefaultCredentials, isEmail) == {} <==> isEmail("tungnt@softech.vn")
    ensures LoginErrors(DefaultCredentials, isEmail) <= {Username}
  {
    DefaultPasswordOk();
  }

  /** Clearing both fields reports both fields, whatever the email shape. */
  lemma EmptyCredentialsErrors(isEmail: string -> bool)
    ensures LoginErrors(Credentials(Some(""), Some("")), isEmail) == {Username, Password}
    ensures LoginErrors(Credentials(None, None), isEmail) == {Username, Password}
  {
  }

  /** The account part of the auth service's answer. */
  datatype Account = Account(id: int, email: string)

  /** The auth service's answer: `{ loggedInUser: { id, email }, access_token }`. */
  datatype LoginResult = LoginResult(loggedInUser: Account, accessToken: string)

  /** The `authenticatedUser` object built from the answer. */
  function SessionOf(result: LoginResult): (u: User)
    ensures u.id == result.loggedInUser.id && u.email == result.loggedInUser.email
    ensures u.accessToken == result.accessToken
  {
    User(result.loggedInUser.id, result.loggedInUser.email, result.accessToken)
  }

  /** The rest of `onSubmit` after the service answers: the user is set in memory, and
      storage gets the serialised user and the bare token; no other entry changes. */
  function CompleteLogin(s: AppState, result: LoginResult): (r: AppState)
    ensures r.user == Some(SessionOf(result))
    ensures UserKey in r.storage && r.storage[UserKey] == Serialize(r.user.value)
    ensures TokenKey in r.storage && r.storage[TokenKey] == r.user.value.accessToken
    ensures forall k :: k != UserKey && k != TokenKey ==>
              (k in r.storage <==> k in s.storage)
              && (k in r.storage ==> r.storage[k] == s.storage[k])
  {
    var u := SessionOf(result);
    AppState(Some(u), s.storage[UserKey := Serialize(u)][TokenKey := result.accessToken])
  }

  /** `handleSubmit(onSubmit)`: with rule errors nothing happens; otherwise the
      service's answer completes the login. */
  function Submit(s: AppState, c: Credentials, isEmail: string -> bool,
                  result: LoginResult): (r: Result<AppState, set<LoginField>>)
    ensures r.Err? <==> LoginErrors(c, isEmail) != {}
    ensures r.Err? ==> r.error == LoginErrors(c, isEmail)
    ensures r.Ok? ==> r.value == CompleteLogin(s, result)
  {
    if LoginErrors(c, isEmail) == {} then Ok(CompleteLogin(s, result))
    else Err(LoginErrors(c, isEmail))
  }

  /** The page then loads `/tasks` afresh: the shell restores the user from storage
      and, provided `JSON.parse` reads back what `JSON.stringify` wrote, it is the same
      session, and `/tasks` shows the task list. */
  lemma LoginSurvivesReload(s: AppState, result: LoginResult, decode: string -> Option<User>)
    requires decode(Serialize(SessionOf(result))) == Some(SessionOf(result))
    ensures Restore(CompleteLogin(s, result).storage, decode).user == Some(SessionOf(result))
    ensures Routes.Resolve("/tasks", SignedIn(Restore(CompleteLogin(s, result).storage, decode)))
            == Routes.TaskList
  {
    Routes.StaticPages(true);
  }

  /** The reload's assumption is met for every answer by a reader of the stored text,
      so the session survives with that reader in place of `JSON.parse`. */
  lemma LoginSurvivesReloadWithReader(s: AppState, result: LoginResult)
    ensures Restore(CompleteLogin(s, result).storage, ParseUser).user == Some(SessionOf(result))
  {
    ParseUserInvertsSerialize(SessionOf(result));
    LoginSurvivesReload(s, result, ParseUser);
  }

  /** After the reload the shell greets the account's email and offers Logout. */
  lemma LoginGreetsAfterReload(s: AppState, result: LoginResult, decode: string -> Option<User>)
    requires decode(Serialize(SessionOf(result))) == Some(SessionOf(result))
    ensures ShellHeader(Restore(CompleteLogin(s, result).storage, decode))
            == Header(Some("Hi, " + result.loggedInUser.email), true)
  {
    LoginSurvivesReload(s, result, decode);
  }

  /** Logging out after logging in leaves storage as it was before, minus the two
      session entries. */
  lemma LogoutUndoesLogin(s: AppState, result: LoginResult)
    ensures Logout(CompleteLogin(s, result)).storage == s.storage - {UserKey, TokenKey}
    ensures !SignedIn(Logout(CompleteLogin(s, result)))
  {
  }
}
