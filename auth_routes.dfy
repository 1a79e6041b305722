/**
 * The authentication routes: `POST /auth/login` issues a signed token,
 * `GET /auth/verify` checks a bearer token. Hashing and signing are oracles.
 */
module AuthRoutes {
  import opened Wrappers
  import Text
  import opened Bootstrap

  /** Token lifetime in seconds: the `exp` claim (section 4.1.4 of RFC 7519) is `iat` plus 24 hours. */
  const TokenLifetime: nat := 24 * 60 * 60

  /** The scheme prefix of section 2.1 of RFC 6750, with its single space. */
  const BearerPrefix := "Bearer "

  const MissingFieldsMessage := "Username and password are required"
  const InvalidCredentialsMessage := "Invalid credentials"
  const LoginFailureMessage := "Server error during login"

  /** What a token carries: the user's id and name, issue time and expiry (seconds). */
  datatype Claims = Claims(userId: string, username: string, iat: nat, exp: nat)

  datatype LoginBody = LoginBody(username: Option<string>, password: Option<string>)

  datatype LoginReply =
    | LoginOk(token: string, username: string)  // 200 {token, username, message}
    | LoginError(status: int, message: string)

  /** `bcrypt.compare(password, hash)`. */
  type CompareOracle = (string, string) -> bool

  /** `jwt.sign(claims, secret)`. */
  type SignOracle = (Claims, string) -> string

  /** The claims a token carries when its signature matches `secret`, else `None`. */
  type DecodeOracle = (string, string) -> Option<Claims>

  /** The claims issued at `now` for the user filed under `key`. */
  function IssuedClaims(users: map<string, UserDoc>, key: string, now: nat): (c: Claims)
    requires key in users
    ensures c.userId == users[key].id && c.username == key
    ensures c.iat == now && c.exp == c.iat + TokenLifetime
  {
    Claims(users[key].id, key, now, now + TokenLifetime)
  }

  /**
   * The login handler. `storeUp` is false when the user lookup throws; a missing or
   * empty `secret` makes signing throw. Both end in the generic 500.
   */
  function Login(users: map<string, UserDoc>, body: LoginBody, storeUp: bool, secret: Option<string>,
                 compare: CompareOracle, sign: SignOracle, now: nat): (r: LoginReply)
    ensures !Truthy(body.username) || !Truthy(body.password) ==> r == LoginError(400, MissingFieldsMessage)
    ensures r.LoginOk? <==>
              && Truthy(body.username) && Truthy(body.password) && storeUp && Truthy(secret)
              && Text.Lower(body.username.value) in users
              && compare(body.password.value, users[Text.Lower(body.username.value)].password)
    ensures r.LoginOk? ==>
              var key := Text.Lower(body.username.value);
              r == LoginOk(sign(IssuedClaims(users, key, now), secret.value), key)
    ensures Truthy(body.username) && Truthy(body.password) && !storeUp ==>
              r == LoginError(500, LoginFailureMessage)
    ensures Truthy(body.username) && Truthy(body.password) && storeUp ==>
              var key := Text.Lower(body.username.value);
              (key !in users || !compare(body.password.value, users[key].password)) ==>
                r == LoginError(401, InvalidCredentialsMessage)
    ensures Truthy(body.username) && Truthy(body.password) && storeUp && !Truthy(secret) ==>
              var key := Text.Lower(body.username.value);
              (key in users && compare(body.password.value, users[key].password)) ==>
                r == LoginError(500, LoginFailureMessage)
    ensures r.LoginError? ==> r.status in {400, 401, 500}
  {
    if !Truthy(body.username) || !Truthy(body.password) then
      LoginError(400, MissingFieldsMessage)
    else if !storeUp then
      LoginError(500, LoginFailureMessage)
    else
      var key := Text.Lower(body.username.value);
      if key !in users then
        LoginError(401, InvalidCredentialsMessage)
      else if !compare(body.password.value, users[key].password) then
        LoginError(401, InvalidCredentialsMessage)
      else if !Truthy(secret) then
        LoginError(500, LoginFailureMessage)
      else
        LoginOk(sign(IssuedClaims(users, key, now), secret.value), key)
  }

  /** An unknown user and a known user with a wrong password get the very same reply. */
  lemma UnknownUserLikeWrongPassword(users1: map<string, UserDoc>, users2: map<string, UserDoc>, body: LoginBody,
                                     secret: Option<string>, compare: CompareOracle, sign: SignOracle, now: nat)
    requires Truthy(body.username) && Truthy(body.password)
    requires Text.Lower(body.username.value) !in users1
    requires var key := Text.Lower(body.username.value);
      key in users2 && !compare(body.password.value, users2[key].password)
    ensures Login(users1, body, true, secret, compare, sign, now) == Login(users2, body, true, secret, compare, sign, now)
    ensures Login(users1, body, true, secret, compare, sign, now) == LoginError(401, InvalidCredentialsMessage)
  {
  }

  /**
   * The first piece of `s` when split on spaces: its longest space-free prefix.
   */
  lemma {:induction false} FirstPiece(s: string)
    ensures var p := Text.Split(s, ' ')[0];
      p <= s && ' ' !in p && (|p| < |s| ==> s[|p|] == ' ')
  {
    if |s| > 0 {
      FirstPiece(s[1..]);
    }
  }

  /** `authHeader.split(" ")[1]` for a header that starts with the bearer prefix. */
  function BearerToken(header: Option<string>): (t: Option<string>)
    ensures t.Some? <==> header.Some? && BearerPrefix <= header.value
    ensures t.Some? ==>
              var rest := header.value[|BearerPrefix|..];
              t.value <= rest && ' ' !in t.value && (|t.value| < |rest| ==> rest[|t.value|] == ' ')
  {
    if header.Some? && BearerPrefix <= header.value then
      var h := header.value;
      var rest := h[|BearerPrefix|..];
      assert h == "Bearer" + [' '] + rest;
      Text.SplitAfterSeparator("Bearer", ' ', rest);
      FirstPiece(rest);
      Some(Text.Split(h, ' ')[1])
    else None
  }

  /**
   * The token is the second space-separated piece: whatever follows it after the
   * next space is ignored, so `"Bearer a b"` carries the token `"a"`.
   */
  lemma BearerTakesSecondPiece(a: string, b: string)
    requires ' ' !in a
    ensures BearerToken(Some(BearerPrefix + a + [' '] + b)) == Some(a)
  {
    var h := BearerPrefix + a + [' '] + b;
    var t := BearerToken(Some(h)).value;
    var rest := h[|BearerPrefix|..];
    assert rest == a + [' '] + b;
    assert forall i :: 0 <= i < |t| ==> rest[i] != ' ';
    assert rest[|a|] == ' ';
    assert |t| <= |a|;
    assert forall i :: 0 <= i < |a| ==> rest[i] != ' ';
    assert |t| == |a|;
    assert t == rest[..|t|] && a == rest[..|a|];
  }

  datatype VerifyReply =
    | VerifyOk(username: string)  // 200 {valid: true, username}
    | VerifyFail                  // 401 {valid: false}

  /**
   * `jwt.verify` on one token: an empty token or an empty secret throws; a token
   * whose signature does not match or whose `exp` has passed (seconds, `now >= exp`) fails.
   */
  function CheckToken(token: string, secret: Option<string>, decode: DecodeOracle, now: nat): (c: Option<Claims>)
    ensures token == "" || !Truthy(secret) ==> c == None
    ensures c.Some? <==>
              && token != "" && Truthy(secret)
              && decode(token, secret.value).Some? && now < decode(token, secret.value).value.exp
    ensures c.Some? ==> c == decode(token, secret.value)
  {
    if token == "" || !Truthy(secret) then None
    else match decode(token, secret.value)
      case None => None
      case Some(c) => if now < c.exp then Some(c) else None
  }

  /** The verify handler: every failure gives the same reply. */
  function Verify(header: Option<string>, secret: Option<string>, decode: DecodeOracle, now: nat): (r: VerifyReply)
    ensures r.VerifyOk? <==>
              && BearerToken(header).Some?
              && CheckToken(BearerToken(header).value, secret, decode, now).Some?
    ensures r.VerifyOk? ==> r.username == CheckToken(BearerToken(header).value, secret, decode, now).value.username
    ensures r.VerifyOk? ==> now < CheckToken(BearerToken(header).value, secret, decode, now).value.exp
  {
    match BearerToken(header)
    case None => VerifyFail
    case Some(token) =>
      match CheckToken(token, secret, decode, now)
      case None => VerifyFail
      case Some(c) => VerifyOk(c.username)
  }

  /** A space-free token sent behind the bearer prefix is read back unchanged. */
  lemma BearerRoundTrip(token: string)
    requires ' ' !in token
    ensures BearerToken(Some(BearerPrefix + token)) == Some(token)
  {
    var h := BearerPrefix + token;
    assert BearerPrefix <= h;
    assert h[|BearerPrefix|..] == token;
    var t := BearerToken(Some(h)).value;
    assert |t| == |token| && t == token[..|t|];
    assert t == token;
  }

  /**
   * A token from a successful login, presented as a bearer header, verifies at
   * `later` exactly while `later` is before `now + TokenLifetime`, and names the user.
   */
  lemma IssuedTokenVerifiesUntilExpiry(users: map<string, UserDoc>, body: LoginBody, secret: Option<string>,
                                       compare: CompareOracle, sign: SignOracle, decode: DecodeOracle,
                                       now: nat, later: nat)
    requires Login(users, body, true, secret, compare, sign, now).LoginOk?
    requires var r := Login(users, body, true, secret, compare, sign, now);
      && r.token != "" && ' ' !in r.token
      && decode(r.token, secret.value) == Some(IssuedClaims(users, r.username, now))
    ensures var r := Login(users, body, true, secret, compare, sign, now);
      var v := Verify(Some(BearerPrefix + r.token), secret, decode, later);
      && (v.VerifyOk? <==> later < now + TokenLifetime)
      && (v.VerifyOk? ==> v.username == r.username)
  {
    var r := Login(users, body, true, secret, compare, sign, now);
    BearerRoundTrip(r.token);
  }

  /**
   * After a reconciler run that installed a pre-hash for a lower-case admin name,
   * logging in with that name and a password matching the hash succeeds.
   */
  lemma LoginAfterBootstrap(users: map<string, UserDoc>, env: Env, hashOutput: string, newId: string,
                            password: string, secret: string, compare: CompareOracle, sign: SignOracle, now: nat)
    requires SelectCredential(env).PreHashed?
    requires Text.IsLowerCase(AdminUsername(env))
    requires password != "" && secret != ""
    requires compare(password, SelectCredential(env).hash)
    ensures var stored := Reconcile(users, env, hashOutput, newId, false).1;
      var u := AdminUsername(env);
      Login(stored, LoginBody(Some(u), Some(password)), true, Some(secret), compare, sign, now).LoginOk?
  {
    Text.LowerOfLowerCase(AdminUsername(env));
  }
}
