/**
 * The HTTP client: its request interceptor attaches the stored token, its response
 * interceptor drops the stored identity on a 401, and the API helpers map calls to paths.
 */
module ApiClient {
  import opened Wrappers
  import opened LocalStorage
  import RecipeData
  import RecipeRoutes
  import AuthRoutes

  const AuthorizationHeader := "Authorization"

  /** The parts of an outgoing request the interceptor may see. */
  class RequestConfig {
    var verb: string
    var url: string
    var headers: map<string, string>

    constructor (verb: string, url: string, headers: map<string, string>)
      ensures this.verb == verb && this.url == url && this.headers == headers
    {
      this.verb, this.url, this.headers := verb, url, headers;
    }
  }

  /** The request interceptor: a truthy stored token becomes a bearer header; nothing else changes. */
  method AttachToken(config: RequestConfig, storage: Storage)
    modifies config
    ensures Has(storage.items, TokenKey) ==>
              config.headers == old(config.headers)[AuthorizationHeader := AuthRoutes.BearerPrefix + storage.items[TokenKey]]
    ensures !Has(storage.items, TokenKey) ==> config.headers == old(config.headers)
    ensures config.verb == old(config.verb) && config.url == old(config.url)
  {
    var token := storage.GetItem(TokenKey);
    if token.Some? && token.value != "" {
      config.headers := config.headers[AuthorizationHeader := AuthRoutes.BearerPrefix + token.value];
    }
  }

  /** A rejected request: the HTTP status when a response arrived, and its `message`. */
  datatype HttpError = HttpError(status: Option<int>, message: Option<string>)

  datatype Outcome<T> = Ok(data: T) | Err(error: HttpError)

  /**
   * The response interceptor: successes pass through; every error is rejected as it
   * came, and a 401 first removes the token and the username (only those two keys).
   */
  method InterceptResponse<T>(storage: Storage, outcome: Outcome<T>) returns (r: Outcome<T>)
    modifies storage
    ensures r == outcome
    ensures storage.items == Intercepted(old(storage.items), outcome)
  {
    if outcome.Err? && outcome.error.status == Some(401) {
      storage.RemoveItem(TokenKey);
      storage.RemoveItem(UsernameKey);
    }
    r := outcome;
  }

  /** The storage after the response interceptor has seen `outcome`. */
  function Intercepted<T>(items: map<string, string>, outcome: Outcome<T>): (r: map<string, string>)
    ensures TokenKey !in r <==> TokenKey !in items || (outcome.Err? && outcome.error.status == Some(401))
    ensures forall k :: k in items && k != TokenKey && k != UsernameKey ==> k in r && r[k] == items[k]
    ensures r.Keys <= items.Keys
    ensures (outcome.Ok? || outcome.error.status != Some(401)) ==> r == items
    ensures outcome.Err? && outcome.error.status == Some(401) ==> r == items - {TokenKey, UsernameKey}
  {
    if outcome.Err? && outcome.error.status == Some(401) then items - {TokenKey, UsernameKey} else items
  }

  /** `err.response?.data?.message || fallback`: the server's message when there is one. */
  function ErrorText(e: HttpError, fallback: string): (r: string)
    ensures Truthy(e.message) ==> r == e.message.value
    ensures !Truthy(e.message) ==> r == fallback
  {
    if Truthy(e.message) then e.message.value else fallback
  }

  datatype ApiCall =
    | Login(username: string, password: string)
    | VerifyToken
    | ChangePassword(currentPassword: string, newPassword: string)
    | GetAll
    | GetOne(id: string)
    | Create(data: RecipeData.Body)
    | Update(id: string, data: RecipeData.Body)
    | Delete(id: string)

  /** The HTTP verb of each helper: only the recipe writes use PUT and DELETE, and reads use GET. */
  function Verb(call: ApiCall): (v: string)
    ensures v == "GET" <==> call.VerifyToken? || call.GetAll? || call.GetOne?
    ensures v == "POST" <==> call.Login? || call.ChangePassword? || call.Create?
    ensures v == "PUT" <==> call.Update?
    ensures v == "DELETE" <==> call.Delete?
  {
    match call
    case Login(_, _) => "POST"
    case VerifyToken => "GET"
    case ChangePassword(_, _) => "POST"
    case GetAll => "GET"
    case GetOne(_) => "GET"
    case Create(_) => "POST"
    case Update(_, _) => "PUT"
    case Delete(_) => "DELETE"
  }

  /** The path of each helper, below the base URL. */
  function Path(call: ApiCall): (p: string)
    ensures call.GetOne? || call.Update? || call.Delete? ==> p == RecipeRoutes.ItemPrefix + call.id
    ensures call.GetAll? || call.Create? ==> p == RecipeRoutes.CollectionPath
  {
    match call
    case Login(_, _) => "/auth/login"
    case VerifyToken => "/auth/verify"
    case ChangePassword(_, _) => "/auth/change-password"
    case GetAll => "/recipes"
    case GetOne(id) => "/recipes/" + id
    case Create(_) => "/recipes"
    case Update(id, _) => "/recipes/" + id
    case Delete(id) => "/recipes/" + id
  }

  /** The request body each recipe helper sends. */
  function BodyOf(call: ApiCall): RecipeData.Body {
    match call
    case Create(data) => data
    case Update(_, data) => data
    case _ => RecipeData.Body(None, None, None, None)
  }

  /** The route the server's recipe router reaches for a recipe call with a one-segment id. */
  function ServerRoute(call: ApiCall): Option<RecipeRoutes.Request> {
    match call
    case GetAll => Some(RecipeRoutes.ListAll)
    case GetOne(id) => Some(RecipeRoutes.GetOne(id))
    case Create(data) => Some(RecipeRoutes.CreateOne(data))
    case Update(id, data) => Some(RecipeRoutes.UpdateOne(id, data))
    case Delete(id) => Some(RecipeRoutes.DeleteOne(id))
    case _ => None
  }

  /**
   * Every recipe helper reaches the server route meant for it: same operation,
   * same id, same body; and only the mutating ones meet the authentication gate.
   */
  lemma RecipeCallsReachTheirRoutes(call: ApiCall)
    requires ServerRoute(call).Some?
    requires call.GetOne? || call.Update? || call.Delete? ==> call.id != "" && '/' !in call.id
    ensures RecipeRoutes.ParseRoute(Verb(call), Path(call), BodyOf(call)) == ServerRoute(call)
    ensures RecipeRoutes.RequiresAuth(ServerRoute(call).value) <==> Verb(call) != "GET"
  {
    if call.GetOne? || call.Update? || call.Delete? {
      var p := Path(call);
      assert p[|RecipeRoutes.ItemPrefix|..] == call.id;
      assert p != RecipeRoutes.CollectionPath by {
        assert |p| > |RecipeRoutes.CollectionPath|;
      }
    }
  }
}
