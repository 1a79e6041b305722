/**
 * Start-up of the server's persistence: connect, then reconcile the single admin
 * user with the configured credential ("configuration is the truth").
 */
module Bootstrap {
  import opened Wrappers

  /** The environment variables the reconciler reads. */
  datatype Env = Env(
    adminUsername: Option<string>,      // ADMIN_USERNAME
    adminPasswordHash: Option<string>,  // ADMIN_PASSWORD_HASH
    adminPassword: Option<string>)      // ADMIN_PASSWORD

  /** A user document, filed in the collection under its username. */
  datatype UserDoc = UserDoc(id: string, password: string)

  const DefaultUsername := "admin"

  /** `ADMIN_USERNAME || "admin"`. */
  function AdminUsername(env: Env): (u: string)
    ensures Truthy(env.adminUsername) ==> u == env.adminUsername.value
    ensures !Truthy(env.adminUsername) ==> u == DefaultUsername
    ensures u != ""
  {
    if Truthy(env.adminUsername) then env.adminUsername.value else DefaultUsername
  }

  datatype Credential = PreHashed(hash: string) | Plain(password: string) | Missing

  /** The credential source: a pre-hashed value wins over a plaintext password. */
  function SelectCredential(env: Env): (c: Credential)
    ensures Truthy(env.adminPasswordHash) ==> c == PreHashed(env.adminPasswordHash.value)
    ensures !Truthy(env.adminPasswordHash) && Truthy(env.adminPassword) ==> c == Plain(env.adminPassword.value)
    ensures c.Missing? <==> !Truthy(env.adminPasswordHash) && !Truthy(env.adminPassword)
  {
    if Truthy(env.adminPasswordHash) then PreHashed(env.adminPasswordHash.value)
    else if Truthy(env.adminPassword) then Plain(env.adminPassword.value)
    else Missing
  }

  /**
   * The hash this run makes authoritative: the configured pre-hash verbatim, or
   * `hashOutput`, what `bcrypt.hash(password, 10)` returned on this run.
   */
  function TargetHash(c: Credential, hashOutput: string): (h: string)
    requires !c.Missing?
    ensures c.PreHashed? ==> h == c.hash
    ensures c.Plain? ==> h == hashOutput
  {
    if c.PreHashed? then c.hash else hashOutput
  }

  /** What one reconciler run did. */
  datatype Action = Skipped | Created | Updated | AlreadyCurrent | Failed

  /**
   * One reconciler run on the user collection, as a value. `storeFault` says that a
   * store call (or the hashing) throws; the error is caught and nothing is written.
   * `newId` is the id the database gives a created document.
   */
  function Reconcile(users: map<string, UserDoc>, env: Env, hashOutput: string, newId: string, storeFault: bool)
    : (out: (Action, map<string, UserDoc>))
    ensures out.0 == Skipped <==> SelectCredential(env).Missing?
    ensures out.0 == Failed <==> !SelectCredential(env).Missing? && storeFault
    ensures out.0 in {Skipped, Failed, AlreadyCurrent} ==> out.1 == users
    ensures out.0 !in {Skipped, Failed} ==>
              var u, h := AdminUsername(env), TargetHash(SelectCredential(env), hashOutput);
              && u in out.1 && out.1[u].password == h
              && (out.0 == Created <==> u !in users)
              && (out.0 == Created ==> out.1 == users[u := UserDoc(newId, h)])
              && (out.0 == Updated <==> u in users && users[u].password != h)
              && (out.0 == Updated ==> out.1 == users[u := users[u].(password := h)])
    ensures forall k :: k != AdminUsername(env) ==> (k in out.1 <==> k in users) && (k in users ==> out.1[k] == users[k])
  {
    var u := AdminUsername(env);
    var c := SelectCredential(env);
    if c.Missing? then (Skipped, users)
    else if storeFault then (Failed, users)
    else
      var h := TargetHash(c, hashOutput);
      if u in users then
        if users[u].password != h then (Updated, users[u := users[u].(password := h)])
        else (AlreadyCurrent, users)
      else (Created, users[u := UserDoc(newId, h)])
  }

  /** With a pre-hash configured, a second run changes nothing, whatever bcrypt would return. */
  lemma PreHashRerunIsNoOp(users: map<string, UserDoc>, env: Env, h1: string, h2: string, id1: string, id2: string)
    requires SelectCredential(env).PreHashed?
    requires Reconcile(users, env, h1, id1, false).0 != Failed
    ensures var after := Reconcile(users, env, h1, id1, false).1;
      Reconcile(after, env, h2, id2, false) == (AlreadyCurrent, after)
  {
  }

  /** With only a plaintext password, a rerun whose salted hash differs rewrites the stored hash. */
  lemma PlainRerunRewrites(users: map<string, UserDoc>, env: Env, h1: string, h2: string, id1: string, id2: string)
    requires SelectCredential(env).Plain?
    requires h1 != h2
    ensures var after := Reconcile(users, env, h1, id1, false).1;
      Reconcile(after, env, h2, id2, false).0 == Updated
  {
  }

  /** A changed pre-hash is written once; the run after that is a no-op. */
  lemma ChangedPreHashWrittenOnce(users: map<string, UserDoc>, env: Env, env2: Env, id: string)
    requires SelectCredential(env).PreHashed? && SelectCredential(env2).PreHashed?
    requires AdminUsername(env) == AdminUsername(env2)
    requires SelectCredential(env).hash != SelectCredential(env2).hash
    ensures var first := Reconcile(users, env, "", id, false).1;
      var second := Reconcile(first, env2, "", id, false);
      && second.0 == Updated
      && Reconcile(second.1, env2, "", id, false) == (AlreadyCurrent, second.1)
  {
  }

  datatype Startup = Exited(code: int) | Running(reconciled: Action)

  /** The user collection the server connects to. */
  class UserCollection {
    var users: map<string, UserDoc>

    constructor (initial: map<string, UserDoc>)
      ensures users == initial
    {
      users := initial;
    }

    /** `createOrUpdateAdminUser`: look the admin up, then create it, overwrite its hash, or leave it. */
    method CreateOrUpdateAdminUser(env: Env, hashOutput: string, newId: string, storeFault: bool) returns (action: Action)
      modifies this
      ensures (action, users) == Reconcile(old(users), env, hashOutput, newId, storeFault)
    {
      var username := AdminUsername(env);
      var hashed: string;
      match SelectCredential(env) {
        case PreHashed(h) => hashed := h;
        case Plain(_) => hashed := hashOutput;
        case Missing => return Skipped;
      }
      if storeFault {
        return Failed;
      }
      if username in users {
        var existing := users[username];
        if existing.password != hashed {
          users := users[username := existing.(password := hashed)];
          return Updated;
        }
        return AlreadyCurrent;
      }
      users := users[username := UserDoc(newId, hashed)];
      action := Created;
    }

    /**
     * `connectDB`: a failed connection ends the process before the reconciler runs;
     * otherwise the reconciler runs and its own failures do not stop start-up.
     */
    method ConnectDB(connected: bool, env: Env, hashOutput: string, newId: string, storeFault: bool)
      returns (outcome: Startup)
      modifies this
      ensures !connected ==> outcome == Exited(1) && users == old(users)
      ensures connected ==> outcome.Running?
      ensures connected ==> (outcome.reconciled, users) == Reconcile(old(users), env, hashOutput, newId, storeFault)
    {
      if !connected {
        return Exited(1);
      }
      var action := CreateOrUpdateAdminUser(env, hashOutput, newId, storeFault);
      outcome := Running(action);
    }
  }
}
