# NewRecipe-App admin session lifecycle, in Dafny

The NewRecipe-App is a recipe site. The public can browse it, and one administrator edits it.
This project models how that administrator's session lives and dies. It covers the server and
the browser, plus the small pieces of pure logic around them.

- **Bootstrap** (`backend/db.js`): when the server starts, it connects to the database. It then
  reconciles the single admin user with the configured credential. A pre-hashed password wins
  over a plaintext one. The reconciler either creates the user, overwrites its hash, or does
  nothing.
- **Auth routes** (`backend/routes/auth.js`):
  - `POST /auth/login` validates its input and looks the user up by the lower-cased name. An
    unknown user and a wrong password get the same reply. On success it signs a token that
    expires 24 hours after issue; the `exp` claim is described in section 4.1.4 of RFC 7519.
  - `GET /auth/verify` reads the token from an `Authorization: Bearer` header, the scheme of
    section 2.1 of RFC 6750.
- **Recipe routes** (`backend/routes/recipes.js`): list, fetch, create, update and delete over a
  record store keyed by id. The three mutating routes sit behind an authentication gate.
- **HTTP client** (`frontend/src/api/api.js`): a request interceptor attaches the stored token. A
  response interceptor drops the stored token and username on a 401. Helpers map API calls to
  paths.
- **Session monitor** (`frontend/src/App.js`):
  - The `isAuthenticated` flag is derived from the stored token.
  - Every user event stamps `lastActivityTime`.
  - A one-minute check logs out after 24 hours without activity.
  - An effect installs and removes this tracking whenever the flag changes.
- **Login dialog, admin panel and recipe card** (`frontend/src/components/`): the state
  transitions of their handlers, the two search filters, and the 80- and 100-character
  description previews.

Layout: one module per concern.

| Module | Contents |
|---|---|
| `Wrappers` | the `Option` type and JavaScript truthiness of strings |
| `Text` | ASCII `toLowerCase`, `trim`, `includes` and `split` |
| `Decimal` | `Date.now().toString()` and `parseInt` |
| `RecipeData` | the shared record types |
| `RecipeRoutes`, `Bootstrap`, `AuthRoutes` | the server |
| `LocalStorage`, `ApiClient`, `LoginForm`, `AdminPanel`, `Search`, `Preview`, `Session` | the browser |

Where the source changes state, the model is a class whose methods carry `modifies` clauses:
`RecipeStore`, `UserCollection`, `Storage`, `Form`, `Panel` and `App`. The request interceptor
changes a `RequestConfig` object through the module-level method `ApiClient.AttachToken`. Each
method's ensures gives the new state, in terms of a pure function or the class invariant where
there is one.

External services are parameters:

- bcrypt's `compare` and jsonwebtoken's `sign` and `verify` are function-typed oracles.
- The output of `bcrypt.hash` on a run is a parameter.
- The id the database assigns, a failing database call, the clock (`now`), the `window.confirm`
  answer and every HTTP reply are parameters too.

## Model

| member | source | states |
|---|---|---|
| Text.Lower | frontend/src/App.js:35 | `toLowerCase` keeps the length and lower-cases each character; its result is lower case |
| Text.Trim | backend/routes/recipes.js:49-52 | the trimmed text is empty exactly when the input is all white space, and otherwise neither starts nor ends with white space |
| Text.TrimIsSlice | backend/routes/recipes.js:49-52 | the trimmed text is a slice of the input with only white space cut from either side |
| Text.TrimIdempotent | backend/routes/recipes.js:75-78 | trimming an already trimmed value changes nothing |
| Text.Includes | frontend/src/App.js:38-40 | `includes` is true exactly when the needle occurs at some index of the text |
| Text.Split | backend/routes/auth.js:61 | `split(" ")` yields at least one piece, and no piece contains the separator |
| Text.JoinSplit | backend/routes/auth.js:61 | joining the pieces with the separator gives back the original header |
| Decimal.NatToString | frontend/src/App.js:67 | `Date.now().toString()` is a non-empty run of digits without a leading zero |
| Decimal.ParseInt | frontend/src/App.js:82 | `parseInt` of an all-digit string is its value; a string without digits is NaN (`None`) |
| Decimal.ParseNatToString | frontend/src/App.js:67-82 | a stored timestamp reads back as the same number |
| RecipeRoutes.Validate | backend/routes/recipes.js:40-53 | a body is accepted exactly when all four fields are truthy; the accepted fields are the trimmed inputs |
| RecipeRoutes.ListNewestFirst | backend/routes/recipes.js:10 | the list is sorted by creation stamp, newest first, and holds exactly the stored records |
| RecipeRoutes.InsertKeepsInvariant | backend/routes/recipes.js:48-53 | inserting a new record under a fresh valid id with the next stamp keeps the store invariant |
| RecipeRoutes.AppendKeepsOrder | backend/routes/recipes.js:48-53 | a record stamped after all others can be appended without breaking creation order |
| RecipeRoutes.ReplaceKeepsOrder | backend/routes/recipes.js:72-81 | replacing fields but not the stamp keeps creation order |
| RecipeRoutes.WithoutKeepsOrder | backend/routes/recipes.js:100 | removing one record keeps the rest in creation order |
| RecipeRoutes.ItemId | backend/routes/recipes.js:20 | the `:id` parameter is the single non-empty path segment after `/recipes/` |
| RecipeRoutes.ParseRoute | backend/routes/recipes.js:8-98 | each verb and path reach their handler; a route is gated exactly when its verb is not GET |
| RecipeRoutes.RecipeStore.GetAll | backend/routes/recipes.js:8-17 | 500 on a database fault; otherwise 200 with every stored recipe, newest first |
| RecipeRoutes.RecipeStore.GetOne | backend/routes/recipes.js:20-36 | an uncastable id gives 404 "Invalid recipe ID"; then 500 on a fault, 404 "Recipe not found", or 200 with the record |
| RecipeRoutes.RecipeStore.Create | backend/routes/recipes.js:39-60 | 400 "All fields are required" before any store access; 500 when the insert fails; otherwise 201 with one new record of trimmed fields, nothing else changed |
| RecipeRoutes.RecipeStore.Update | backend/routes/recipes.js:63-95 | validation, then a bad id gives 404, a fault 500, and a missing id 404; otherwise only that record's four fields are replaced by the trimmed values |
| RecipeRoutes.RecipeStore.Delete | backend/routes/recipes.js:98-117 | a bad id gives 404, a fault 500, and a missing id 404; otherwise exactly that record is removed and returned with the success message |
| RecipeRoutes.RecipeStore.Handle | backend/routes/recipes.js:8-117 | a mutating route that the gate rejects gets 401 with the store unchanged; the GET routes never change the store; every admitted request gets exactly its handler's reply and state change (`ListReply`, `OneReply`, `CreateReply`, `UpdateReply`, `DeleteReply`, the contracts of the five handlers) |
| Bootstrap.AdminUsername | backend/db.js:20 | the admin name is the configured one, or "admin" |
| Bootstrap.SelectCredential | backend/db.js:25-40 | a pre-hash wins over a plaintext password; with neither, the run is skipped |
| Bootstrap.TargetHash | backend/db.js:25-33 | the authoritative hash is the configured pre-hash verbatim, else the bcrypt output for the plaintext |
| Bootstrap.Reconcile | backend/db.js:18-72 | a missing credential skips and a failure writes nothing; an absent admin is created once; a differing hash overwrites only the password; an equal hash writes nothing; other users are untouched |
| Bootstrap.PreHashRerunIsNoOp | backend/db.js:45-57 | with a pre-hash configured, a second run is a no-op |
| Bootstrap.PlainRerunRewrites | backend/db.js:28-50 | with a plaintext password, a rerun whose salted hash differs rewrites the stored hash |
| Bootstrap.ChangedPreHashWrittenOnce | backend/db.js:45-57 | a changed pre-hash is written once, and the run after that is a no-op |
| Bootstrap.UserCollection.CreateOrUpdateAdminUser | backend/db.js:18-72 | the collection after the run, and the action taken, are those of `Reconcile` |
| Bootstrap.UserCollection.ConnectDB | backend/db.js:5-16 | a failed connection exits with code 1 before the reconciler runs; otherwise the reconciler runs and start-up continues whatever it does |
| AuthRoutes.Login | backend/routes/auth.js:9-50 | a missing or empty field gives 400 before any lookup; success exactly when the lower-cased name is stored, the password matches and signing can run; the token carries the user's id and name and expires 24 hours after issue; with both fields present, a failed lookup gives 500 "Server error during login", an unknown name or a wrong password gives 401 "Invalid credentials", and a valid login whose signing throws (no secret) gives 500 "Server error during login" |
| AuthRoutes.UnknownUserLikeWrongPassword | backend/routes/auth.js:23-32 | an unknown user and a wrong password get the identical 401 reply |
| AuthRoutes.FirstPiece | backend/routes/auth.js:61 | the first piece of a split is the longest space-free prefix |
| AuthRoutes.BearerToken | backend/routes/auth.js:57-61 | a token is read exactly when the header starts with "Bearer "; it is the space-free text after the prefix, up to the next space |
| AuthRoutes.BearerTakesSecondPiece | backend/routes/auth.js:61 | anything after a second space is ignored: "Bearer a b" yields "a" |
| AuthRoutes.IssuedClaims | backend/routes/auth.js:35-39 | the signed claims are the stored user's id and name, issued now, expiring `TokenLifetime` (24 hours) later |
| AuthRoutes.CheckToken | backend/routes/auth.js:62 | an empty token or a missing secret fails; otherwise the claims are returned exactly when the signature decodes under the secret and the clock is before `exp` |
| AuthRoutes.Verify | backend/routes/auth.js:53-68 | valid exactly when a bearer token is present, its signature checks and it has not expired; every failure is the same 401 |
| AuthRoutes.BearerRoundTrip | backend/routes/auth.js:57-61 | a space-free token sent behind the prefix is read back unchanged |
| AuthRoutes.IssuedTokenVerifiesUntilExpiry | backend/routes/auth.js:35-64 | a token from a successful login verifies exactly until 24 hours after issue, and names the logged-in user |
| AuthRoutes.LoginAfterBootstrap | backend/routes/auth.js:21-45 | after the reconciler installs a pre-hash for a lower-case admin name, a login with a matching password succeeds |
| ApiClient.AttachToken | frontend/src/api/api.js:16-23 | a truthy stored token becomes the header "Bearer " + token; otherwise the headers are unchanged; verb and URL never change |
| ApiClient.InterceptResponse | frontend/src/api/api.js:30-39 | every outcome is passed on unchanged; the storage becomes `Intercepted` |
| ApiClient.Intercepted | frontend/src/api/api.js:32-37 | a 401 leaves exactly the storage without the token and the username; any other outcome leaves the storage as it was |
| ApiClient.Verb | frontend/src/api/api.js:41-55 | login, changePassword and create are POST; verify, getAll and getOne are GET; update is PUT and delete is DELETE |
| ApiClient.ErrorText | frontend/src/components/Login.js:22 | the server's message when it is truthy, else the fallback |
| ApiClient.Path | frontend/src/api/api.js:49-55 | getOne, update and delete target "/recipes/" + id; getAll and create target "/recipes" |
| ApiClient.RecipeCallsReachTheirRoutes | frontend/src/api/api.js:49-55 | every recipe helper reaches the server route meant for it, with the same id and body; only the non-GET ones meet the gate |
| Preview.Substring | frontend/src/components/AdminPanel.js:288 | `substring(0, n)` is a prefix whose length is clamped to the text |
| Preview.CardPreview | frontend/src/components/RecipeCard.js:10-12 | up to 100 characters are shown unchanged; a longer text shows its first 100 characters then "..."; at most 103 characters |
| Preview.PanelPreview | frontend/src/components/AdminPanel.js:288-289 | up to 80 characters are shown unchanged; a longer text shows its first 80 characters then "..."; at most 83 characters |
| Preview.PreviewsShareOneRule | frontend/src/components/RecipeCard.js:10-12 | both previews are one shortening rule at different limits |
| Preview.ShortDescriptionsAgree | frontend/src/components/AdminPanel.js:288-289 | a description of at most 80 characters looks the same on the card and in the panel |
| Search.Filter | frontend/src/App.js:36-41 | `filter` keeps, in order and with their multiplicity, exactly the elements that pass |
| Search.HomeSearch | frontend/src/App.js:30-44 | a blank query shows everything; otherwise an order-preserving selection of exactly the recipes whose lower-cased title, description or ingredients contain the lower-cased query, each kept as often as it occurs |
| Search.PanelSearch | frontend/src/components/AdminPanel.js:23-36 | the same filter over title and description only, again keeping every occurrence of a match |
| Search.PanelFindsNoMoreThanHome | frontend/src/components/AdminPanel.js:29-33 | whatever the panel finds, the public page finds too |
| Search.IngredientsOnlyOnHome | frontend/src/App.js:36-41 | a recipe that matches only through its ingredients is found on the public page but not in the panel |
| LoginForm.AfterLogin | frontend/src/components/Login.js:16-22 | after the interceptor, a success stores the reply's token and username; keys other than those two are never changed |
| LoginForm.FailedLoginWritesNothing | frontend/src/components/Login.js:21-22 | a failed login writes no key; it can only remove the token and username, on a 401 |
| LoginForm.Form.BeginSubmit | frontend/src/components/Login.js:11-17 | the error is cleared, loading is shown, and the login request is sent to "/auth/login" |
| LoginForm.Form.CompleteSubmit | frontend/src/components/Login.js:16-25 | a login is reported exactly on success; the storage is `AfterLogin`; on failure the error is the server's message or "Invalid credentials"; loading ends false |
| AdminPanel.SubmitCall | frontend/src/components/AdminPanel.js:55-59 | update of the edited id when one is set, otherwise create, with the form as the body |
| AdminPanel.SubmitReachesItsRoute | frontend/src/components/AdminPanel.js:55-59 | a submit reaches the server's update route for the edited id (or the create route), and is gated |
| AdminPanel.EmptyFormIsRejected | frontend/src/components/AdminPanel.js:61-66 | the reset form would be refused by the server's required-field check |
| AdminPanel.ResubmitStoresSameFields | frontend/src/components/AdminPanel.js:78-86 | editing a stored recipe and saving it unchanged stores the same fields again, unless a field was trimmed to nothing |
| AdminPanel.Panel.Refresh | frontend/src/components/AdminPanel.js:38-47 | a fetched list replaces the shown recipes; a failed fetch only sets "Failed to load recipes" |
| AdminPanel.Panel.BeginSubmit | frontend/src/components/AdminPanel.js:49-59 | the error is cleared, loading is shown, and the request is `SubmitCall` of the current state |
| AdminPanel.Panel.CompleteSubmit | frontend/src/components/AdminPanel.js:54-75 | a save resets the form, leaves edit mode and refetches; a failure keeps the form and the edited id and shows the server's message or "Error saving recipe"; loading ends false |
| AdminPanel.Panel.Edit | frontend/src/components/AdminPanel.js:78-88 | the form takes the recipe's four fields, the edited id becomes its id, and the error is cleared |
| AdminPanel.Panel.Cancel | frontend/src/components/AdminPanel.js:103-112 | empty form, no edited id, no error |
| AdminPanel.Panel.Delete | frontend/src/components/AdminPanel.js:90-101 | nothing happens without confirmation; otherwise the delete is sent, a success refetches, and a failure shows "Error deleting recipe" |
| AdminPanel.Panel.Logout | frontend/src/components/AdminPanel.js:114-118 | only the token and the username leave the storage |
| Session.Decide | frontend/src/App.js:72-94 | no action when logged out; a restamp exactly when the stamp is missing; a logout only when a readable stamp is at least 24 hours old |
| Session.ExpiresIffElapsed | frontend/src/App.js:82-84 | with a stamp stored, the check logs out exactly when 24 hours or more have elapsed; otherwise it keeps the session |
| Session.StampThenCheckKeeps | frontend/src/App.js:108-121 | the check that runs right after the entry stamp cannot log out |
| Session.IdleTimeline | frontend/src/App.js:10-11 | an idle session is kept one interval and one millisecond before 24 hours, and logged out at exactly 24 hours and at the next check |
| Session.ActivityRestartsWindow | frontend/src/App.js:65-69 | after activity at time t, the logout is due exactly from t + 24 hours |
| Session.App.Mount | frontend/src/App.js:25-28 | on load the flag is whether a non-empty token is stored; a restored session gets a fresh stamp whatever its stored age, and without a session the stamp is removed |
| Session.App.UpdateActivity | frontend/src/App.js:65-69 | the stamp is written only while authenticated; otherwise storage is unchanged |
| Session.App.CheckInactivity | frontend/src/App.js:72-94 | does what `Decide` says; a logout removes the token, the username and the stamp and clears both flags, and nothing else |
| Session.App.AutoLogout | frontend/src/App.js:87-91 | exactly the three keys go; the flag and the panel flag become false |
| Session.App.TrackingEffect | frontend/src/App.js:97-133 | logged out, it removes the stamp and stops tracking; logged in, it stamps now and tracks, and its immediate check keeps the session |
| Session.App.SetAuthenticated | frontend/src/App.js:133 | the effect reruns only when the flag changes value |
| Session.App.CheckAuth | frontend/src/App.js:46-49 | the flag becomes true exactly when a non-empty token is stored |
| Session.App.Activity | frontend/src/App.js:111-115 | every event stamps the time while authenticated; there is no debouncing |
| Session.App.Tick | frontend/src/App.js:118 | the periodic check logs out exactly when the time since the last stamp reaches 24 hours; otherwise nothing changes |
| Session.App.HandleAdminClick | frontend/src/App.js:135-141 | opens the panel when authenticated, the login dialog otherwise |
| Session.App.HandleLogin | frontend/src/App.js:143-147 | authenticated, login closed, panel open; entering the state stamps now |
| Session.App.HandleAdminClose | frontend/src/App.js:149-152 | the panel closes and the flag is derived from the token again; leaving the state removes the stamp |
| Session.App.HandleLoginClose | frontend/src/App.js:154-156 | the login dialog closes |
| Session.App.ApiRejected | frontend/src/api/api.js:32-37 | a 401 removes the token and the username, but the flag and the activity stamp stay |
| Session.App.SubmitLogin | frontend/src/components/Login.js:17-20 | on success the storage is exactly the login's (`AfterLogin`) plus a fresh stamp when the shell was logged out, the form's error stays as the submit left it, and the shell is authenticated with the panel open; on failure the shell's flags are unchanged and the form shows the server's message or the fallback |
| Session.App.AdminLogout | frontend/src/components/AdminPanel.js:114-118 | logout then close: the token, the username and the stamp are gone, nothing else changes, and the session is logged out; the login dialog and the selected recipe stay as they were |
| Session.App.OpenRecipe | frontend/src/components/RecipeCard.js:6-18 | a click on the card and a click on its button both open the same recipe |

Class invariants:

- `RecipeRoutes.RecipeStore.Valid`: each record is filed under its own valid id, and its stamp
  is below the clock. `order` lists exactly the stored ids, oldest first.
- `Session.App.Valid`: tracking is on exactly while authenticated. The activity key holds the
  last stamp exactly then.

Three behaviours of the code worth knowing:

- **No debouncing.** Every activity event stamps the time (`App.js:113-115`,
  `Session.App.Activity`).
- **A restored session is never found stale.** The tracking effect first runs with the flag
  still false and removes the stored stamp. `checkAuth` then sets the flag, the entry stamps now,
  and the immediate check finds a fresh stamp (`Session.App.Mount`).
- **A 401 removes only the token and the username.** `isAuthenticated` and `lastActivityTime`
  stay until the next `checkAuth` (`api.js:33-36`, `Session.App.ApiRejected`).

## Left out

- `backend/server.js` (Express and CORS wiring), `backend/generate-password.js` (a readline tool)
  and `frontend/src/components/RecipeModal.js` (Escape key and page styling) are not part of this
  model.
- `middleware/auth`, `models/User` and `models/Recipe` are not part of this model.
  - The gate's verdict is a boolean parameter, and the body of its 401 reply is left abstract.
  - Schema validation, including `runValidators` on update, is not modelled.
  - Whether the User schema lower-cases names is unknown. So a configured admin name with
    capital letters may never match the lower-cased login lookup; `AuthRoutes.LoginAfterBootstrap`
    therefore assumes a lower-case name.
- Cryptography: bcrypt and jsonwebtoken are oracles. Signature checking is "decode gives the
  claims" plus `now < exp`. Clock skew and token formats are not modelled.
- Mongoose: ObjectId casting is "24 hexadecimal digits". `createdAt` is a logical counter, not a
  wall-clock time.
  - An insert that fails (a fault, or an id already taken) is one error path.
  - A database fault is one boolean per request, so a fault in the middle of an operation is
    not modelled.
- Express routing beyond the `:id` segment (trailing slashes, URL decoding) is not modelled.
- Request bodies: a field is a string or missing. A truthy non-string JSON value (a number, an
  array, an object) passes the `!x` check in the source and then makes `toLowerCase` or `trim`
  throw, giving 500 "Server error during login", "Error creating recipe" or "Error updating
  recipe"; `AuthRoutes.Login`, `RecipeRoutes.Validate` and the store handlers cannot produce that
  reply.
- Preview.CardPreview, Preview.PanelPreview and Preview.Substring count length in Unicode scalar values, while
  JavaScript's `length` and `substring` count UTF-16 code units. For text outside the Basic
  Multilingual Plane (emoji, say) the source truncates earlier than the model, and its
  `substring` can split a surrogate pair; the model does neither.
- Strings: `toLowerCase` and `trim` are ASCII only (no Unicode case folding, and only the ASCII
  white-space set). `parseInt` reads optional leading white space, a sign and decimal digits;
  radix prefixes such as `0x` are not modelled. Timestamps are naturals.
- Timers and concurrency:
  - `setInterval`, `addEventListener`, React's batching and re-render scheduling are replaced by
    methods called in sequence with an explicit `now`.
  - Interleavings of in-flight requests with timer callbacks are not modelled.
  - The stale-closure behaviour of callbacks captured before a flag change is not modelled: each
    method reads the current flag.
- Rendering and side channels: JSX, `alert`, `console` output and scrolling are left out.
  `window.confirm` is a boolean parameter.
- The public page's own list fetch (`App.js:51-62`) and the panel's `onUpdate` call into it are
  I/O only and are left out. The panel's fetch is modelled (`AdminPanel.Panel.Refresh`).
- `authAPI.changePassword` and `authAPI.verify` appear only as paths in `ApiClient.ApiCall`.
  The server has no change-password route in the modelled files, and the client never calls
  `verify`.
- The search query's state and the "Found N recipes" text are rendering. The filters are
  modelled as pure functions of the list and the query.
