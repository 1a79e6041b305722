/** The login dialog: its submit handler as a transition of its own state and of the browser storage. */
module LoginForm {
  import opened Wrappers
  import opened LocalStorage
  import opened ApiClient

  const LoginFallbackError := "Invalid credentials"

  /** The `data` of a successful login reply. */
  datatype LoginData = LoginData(token: string, username: string)

  /**
   * The storage once a login reply has been handled: the response interceptor runs
   * first; then a success stores the token and then the username.
   */
  function AfterLogin(items: map<string, string>, reply: Outcome<LoginData>): (r: map<string, string>)
    ensures reply.Ok? ==> TokenKey in r && r[TokenKey] == reply.data.token
    ensures reply.Ok? ==> UsernameKey in r && r[UsernameKey] == reply.data.username
    ensures forall k :: k != TokenKey && k != UsernameKey ==> (k in r <==> k in items)
    ensures forall k :: k in r && k != TokenKey && k != UsernameKey ==> r[k] == items[k]
  {
    var seen := Intercepted(items, reply);
    if reply.Ok? then seen[TokenKey := reply.data.token][UsernameKey := reply.data.username] else seen
  }

  /** A failed login writes no key: it can only remove the token and the username (on a 401). */
  lemma FailedLoginWritesNothing(items: map<string, string>, reply: Outcome<LoginData>)
    requires reply.Err?
    ensures AfterLogin(items, reply).Keys <= items.Keys
    ensures forall k :: k in AfterLogin(items, reply) ==> AfterLogin(items, reply)[k] == items[k]
    ensures reply.error.status == Some(401) ==> TokenKey !in AfterLogin(items, reply) && UsernameKey !in AfterLogin(items, reply)
    ensures reply.error.status != Some(401) ==> AfterLogin(items, reply) == items
  {
  }

  class Form {
    var username: string
    var password: string
    var error: string
    var loading: bool

    constructor ()
      ensures username == "" && password == "" && error == "" && !loading
    {
      username, password, error, loading := "", "", "", false;
    }

    /** The start of a submit: the error is cleared, loading is shown, and the login request is named. */
    method BeginSubmit() returns (call: ApiCall)
      modifies this
      ensures error == "" && loading
      ensures username == old(username) && password == old(password)
      ensures call == ApiCall.Login(username, password)
      ensures Path(call) == "/auth/login" && Verb(call) == "POST"
    {
      error := "";
      loading := true;
      call := ApiCall.Login(username, password);
    }

    /**
     * The rest of a submit once the reply has come back: the reply is seen by the
     * response interceptor; a success stores the token and the username and reports
     * the login; a failure shows the server's message or the fallback; loading ends.
     */
    method CompleteSubmit(storage: Storage, reply: Outcome<LoginData>) returns (loggedIn: bool)
      modifies this, storage
      ensures loggedIn <==> reply.Ok?
      ensures !loading
      ensures storage.items == AfterLogin(old(storage.items), reply)
      ensures reply.Ok? ==> error == old(error)
      ensures reply.Err? ==> error == ErrorText(reply.error, LoginFallbackError)
      ensures username == old(username) && password == old(password)
    {
      var seen := InterceptResponse(storage, reply);
      match seen {
        case Ok(data) =>
          storage.SetItem(TokenKey, data.token);
          storage.SetItem(UsernameKey, data.username);
          loggedIn := true;
        case Err(e) =>
          error := ErrorText(e, LoginFallbackError);
          loggedIn := false;
      }
      loading := false;
    }
  }
}
