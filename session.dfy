/**
 * The application shell's session monitor: the authenticated flag derived from the
 * stored token, activity stamping, the periodic inactivity check and the auto-logout,
 * with the effect that installs and removes the tracking whenever the flag changes.
 */
module Session {
  import opened Wrappers
  import opened LocalStorage
  import Decimal
  import ApiClient
  import LoginForm
  import AdminPanel
  import Preview
  import RecipeData

  /** Twenty-four hours, in milliseconds. */
  const InactivityTimeout: nat := 24 * 60 * 60 * 1000
  /** The period of the inactivity check, in milliseconds. */
  const CheckInterval: nat := 60 * 1000

  /** The stored form of a timestamp: `Date.now().toString()`. */
  function Stamp(now: nat): string {
    Decimal.NatToString(now)
  }

  /** What one run of the inactivity check does. */
  datatype Verdict =
    | Idle    // not authenticated: nothing
    | Restamp // authenticated without a stored stamp: stamp now
    | Keep    // stamp present and recent (or unreadable): nothing
    | Expire  // stamp at least the timeout old: log out

  /** The decision of the inactivity check, from the flag, the storage and the clock. */
  function Decide(authenticated: bool, items: map<string, string>, now: nat): (v: Verdict)
    ensures v == Idle <==> !authenticated
    ensures v == Restamp <==> authenticated && !Has(items, LastActivityKey)
    ensures v == Expire ==> authenticated && Has(items, LastActivityKey)
    ensures v == Expire ==> var last := Decimal.ParseInt(items[LastActivityKey]);
      last.Some? && now - last.value >= InactivityTimeout
  {
    if !authenticated then Idle
    else if !Has(items, LastActivityKey) then Restamp
    else
      match Decimal.ParseInt(items[LastActivityKey])
      case None => Keep // `NaN >= timeout` is false
      case Some(last) => if now - last >= InactivityTimeout then Expire else Keep
  }

  /** With a stamp `last` stored, the check logs out exactly when the timeout has fully elapsed. */
  lemma ExpiresIffElapsed(items: map<string, string>, last: nat, now: nat)
    requires LastActivityKey in items && items[LastActivityKey] == Stamp(last)
    ensures Decide(true, items, now) == Expire <==> now - last >= InactivityTimeout
    ensures Decide(true, items, now) != Expire ==> Decide(true, items, now) == Keep
  {
    Decimal.ParseNatToString(last);
  }

  /** A check right after a stamp keeps the session: the immediate check cannot log out. */
  lemma StampThenCheckKeeps(items: map<string, string>, now: nat)
    ensures Decide(true, items[LastActivityKey := Stamp(now)], now) == Keep
  {
    ExpiresIffElapsed(items[LastActivityKey := Stamp(now)], now, now);
  }

  /**
   * An untouched session: still kept by the check one interval before the
   * timeout and one millisecond before it, logged out at exactly 24 hours and at
   * the first check after that.
   */
  lemma IdleTimeline(items: map<string, string>, t0: nat)
    requires LastActivityKey in items && items[LastActivityKey] == Stamp(t0)
    ensures Decide(true, items, t0 + InactivityTimeout - CheckInterval) == Keep
    ensures Decide(true, items, t0 + InactivityTimeout - 1) == Keep
    ensures Decide(true, items, t0 + InactivityTimeout) == Expire
    ensures Decide(true, items, t0 + InactivityTimeout + CheckInterval) == Expire
  {
    ExpiresIffElapsed(items, t0, t0 + InactivityTimeout - CheckInterval);
    ExpiresIffElapsed(items, t0, t0 + InactivityTimeout - 1);
    ExpiresIffElapsed(items, t0, t0 + InactivityTimeout);
    ExpiresIffElapsed(items, t0, t0 + InactivityTimeout + CheckInterval);
  }

  /** Any activity restarts the window: after a stamp at `t`, the logout is due at `t` plus the timeout. */
  lemma ActivityRestartsWindow(items: map<string, string>, t: nat, now: nat)
    ensures Decide(true, items[LastActivityKey := Stamp(t)], now) == Expire <==> now >= t + InactivityTimeout
  {
    ExpiresIffElapsed(items[LastActivityKey := Stamp(t)], t, now);
  }

  class App {
    const storage: Storage
    var isAuthenticated: bool
    var showAdmin: bool
    var showLogin: bool
    /** The activity listeners and the interval are installed. */
    var tracking: bool
    var selectedRecipe: Option<RecipeData.Recipe>
    /** The time last written to the activity key, while authenticated. */
    ghost var lastStamp: nat

    /**
     * Once the tracking effect has run: tracking is on exactly while authenticated,
     * and the activity key holds the last stamp exactly then.
     */
    ghost predicate Valid()
      reads this, storage
    {
      tracking == isAuthenticated &&
      (isAuthenticated ==> LastActivityKey in storage.items && storage.items[LastActivityKey] == Stamp(lastStamp)) &&
      (!isAuthenticated ==> LastActivityKey !in storage.items)
    }

    /**
     * The first render: the tracking effect runs while the flag is still false
     * (dropping any stored stamp), then `checkAuth` derives the flag from the token.
     * A restored session is therefore stamped afresh, whatever its stored age.
     */
    constructor Mount(storage: Storage, now: nat)
      modifies storage
      ensures this.storage == storage && Valid()
      ensures isAuthenticated <==> Has(old(storage.items), TokenKey)
      ensures isAuthenticated ==> storage.items == old(storage.items)[LastActivityKey := Stamp(now)]
      ensures !isAuthenticated ==> storage.items == old(storage.items) - {LastActivityKey}
      ensures !showAdmin && !showLogin && selectedRecipe == None
    {
      this.storage := storage;
      isAuthenticated, showAdmin, showLogin, tracking, selectedRecipe := false, false, false, false, None;
      lastStamp := 0;
      new;
      TrackingEffect(now);
      CheckAuth(now);
    }

    /** `updateActivity`: while authenticated, store the current time as the last activity. */
    method UpdateActivity(now: nat)
      modifies storage, `lastStamp
      ensures isAuthenticated ==> storage.items == old(storage.items)[LastActivityKey := Stamp(now)] && lastStamp == now
      ensures !isAuthenticated ==> storage.items == old(storage.items) && lastStamp == old(lastStamp)
    {
      if isAuthenticated {
        storage.SetItem(LastActivityKey, Stamp(now));
        lastStamp := now;
      }
    }

    /**
     * `checkInactivity`: nothing while logged out; a missing stamp is restored; a
     * stamp at least the timeout old removes the token, the username and the stamp
     * and closes the admin panel.
     */
    method CheckInactivity(now: nat) returns (v: Verdict)
      modifies this, storage
      ensures v == Decide(old(isAuthenticated), old(storage.items), now)
      ensures v == Expire ==> storage.items == old(storage.items) - {TokenKey, UsernameKey, LastActivityKey}
      ensures v == Expire ==> !isAuthenticated && !showAdmin
      ensures v == Restamp ==> storage.items == old(storage.items)[LastActivityKey := Stamp(now)] && lastStamp == now
      ensures v == Idle || v == Keep ==> storage.items == old(storage.items) && lastStamp == old(lastStamp)
      ensures v != Expire ==> isAuthenticated == old(isAuthenticated) && showAdmin == old(showAdmin)
      ensures showLogin == old(showLogin) && tracking == old(tracking) && selectedRecipe == old(selectedRecipe)
    {
      if !isAuthenticated {
        return Idle;
      }
      var lastActivity := storage.GetItem(LastActivityKey);
      if !Truthy(lastActivity) {
        UpdateActivity(now);
        return Restamp;
      }
      var last := Decimal.ParseInt(lastActivity.value);
      assert Has(storage.items, LastActivityKey) && lastActivity.value == storage.items[LastActivityKey];
      if last.Some? && now - last.value >= InactivityTimeout {
        AutoLogout();
        return Expire;
      }
      return Keep;
    }

    /** The auto-logout: the token, the username and the stamp go; the flag drops and the panel closes. */
    method AutoLogout()
      modifies `isAuthenticated, `showAdmin, storage
      ensures storage.items == old(storage.items) - {TokenKey, UsernameKey, LastActivityKey}
      ensures !isAuthenticated && !showAdmin
    {
      storage.RemoveItem(TokenKey);
      storage.RemoveItem(UsernameKey);
      storage.RemoveItem(LastActivityKey);
      isAuthenticated := false;
      showAdmin := false;
    }

    /**
     * The tracking effect, run whenever the flag changes: logged out, it drops the
     * stamp and the tracking; logged in, it stamps now, installs the tracking and
     * checks at once, and that check keeps the session.
     */
    method TrackingEffect(now: nat)
      modifies this, storage
      ensures tracking == isAuthenticated == old(isAuthenticated)
      ensures !isAuthenticated ==> storage.items == old(storage.items) - {LastActivityKey}
      ensures isAuthenticated ==> storage.items == old(storage.items)[LastActivityKey := Stamp(now)] && lastStamp == now
      ensures showAdmin == old(showAdmin) && showLogin == old(showLogin) && selectedRecipe == old(selectedRecipe)
      ensures Valid()
    {
      if !isAuthenticated {
        storage.RemoveItem(LastActivityKey);
        tracking := false;
        return;
      }
      UpdateActivity(now);
      tracking := true;
      StampThenCheckKeeps(old(storage.items), now);
      var v := CheckInactivity(now);
    }

    /** A state update of the flag: the effect reruns only when the value changes. */
    method SetAuthenticated(value: bool, now: nat)
      requires Valid()
      modifies this, storage
      ensures isAuthenticated == value && Valid()
      ensures value == old(isAuthenticated) ==> storage.items == old(storage.items)
      ensures value && !old(isAuthenticated) ==> storage.items == old(storage.items)[LastActivityKey := Stamp(now)]
      ensures !value && old(isAuthenticated) ==> storage.items == old(storage.items) - {LastActivityKey}
      ensures showAdmin == old(showAdmin) && showLogin == old(showLogin) && selectedRecipe == old(selectedRecipe)
    {
      if value != isAuthenticated {
        isAuthenticated := value;
        TrackingEffect(now);
      }
    }

    /** `checkAuth`: authenticated exactly when a non-empty token is stored. */
    method CheckAuth(now: nat)
      requires Valid()
      modifies this, storage
      ensures isAuthenticated <==> Has(old(storage.items), TokenKey)
      ensures Valid()
      ensures isAuthenticated == old(isAuthenticated) ==> storage.items == old(storage.items)
      ensures isAuthenticated && !old(isAuthenticated) ==> storage.items == old(storage.items)[LastActivityKey := Stamp(now)]
      ensures !isAuthenticated && old(isAuthenticated) ==> storage.items == old(storage.items) - {LastActivityKey}
      ensures showAdmin == old(showAdmin) && showLogin == old(showLogin) && selectedRecipe == old(selectedRecipe)
    {
      var token := storage.GetItem(TokenKey);
      SetAuthenticated(Truthy(token), now);
    }

    /** A user event (mouse, key, scroll, touch, click): every one stamps the time while tracking. */
    method Activity(now: nat)
      requires Valid()
      modifies storage, `lastStamp
      ensures Valid()
      ensures isAuthenticated ==> storage.items == old(storage.items)[LastActivityKey := Stamp(now)] && lastStamp == now
      ensures !isAuthenticated ==> storage.items == old(storage.items)
    {
      if tracking {
        UpdateActivity(now);
      }
    }

    /**
     * One firing of the interval: the inactivity check, and on a logout the effect
     * that stops the tracking. The verdict is decided by the time since the last stamp.
     */
    method Tick(now: nat) returns (v: Verdict)
      requires Valid()
      modifies this, storage
      ensures Valid()
      ensures v == Decide(old(isAuthenticated), old(storage.items), now)
      ensures v != Restamp
      ensures old(isAuthenticated) ==> (v == Expire <==> now - old(lastStamp) >= InactivityTimeout)
      ensures v == Expire ==> storage.items == old(storage.items) - {TokenKey, UsernameKey, LastActivityKey}
      ensures v == Expire ==> !isAuthenticated && !showAdmin && !tracking
      ensures v != Expire ==> storage.items == old(storage.items) && isAuthenticated == old(isAuthenticated)
      ensures v != Expire ==> showAdmin == old(showAdmin)
      ensures showLogin == old(showLogin) && selectedRecipe == old(selectedRecipe)
    {
      if isAuthenticated {
        ExpiresIffElapsed(storage.items, lastStamp, now);
      }
      if !tracking {
        return Idle;
      }
      v := CheckInactivity(now);
      if v == Expire {
        TrackingEffect(now);
      }
    }

    /** `handleAdminClick`: the panel when authenticated, else the login dialog. */
    method HandleAdminClick()
      modifies this
      ensures isAuthenticated ==> showAdmin && showLogin == old(showLogin)
      ensures !isAuthenticated ==> showLogin && showAdmin == old(showAdmin)
      ensures isAuthenticated == old(isAuthenticated) && tracking == old(tracking) && lastStamp == old(lastStamp)
      ensures selectedRecipe == old(selectedRecipe)
    {
      if isAuthenticated {
        showAdmin := true;
      } else {
        showLogin := true;
      }
    }

    /** `handleLogin`: authenticated, login dialog closed, admin panel open; entering the state stamps now. */
    method HandleLogin(now: nat)
      requires Valid()
      modifies this, storage
      ensures Valid()
      ensures isAuthenticated && showAdmin && !showLogin
      ensures !old(isAuthenticated) ==> storage.items == old(storage.items)[LastActivityKey := Stamp(now)]
      ensures old(isAuthenticated) ==> storage.items == old(storage.items)
      ensures selectedRecipe == old(selectedRecipe)
    {
      showLogin := false;
      showAdmin := true;
      SetAuthenticated(true, now);
    }

    /** `handleAdminClose`: the panel closes and the flag is derived from the token again. */
    method HandleAdminClose(now: nat)
      requires Valid()
      modifies this, storage
      ensures Valid() && !showAdmin
      ensures isAuthenticated <==> Has(old(storage.items), TokenKey)
      ensures isAuthenticated == old(isAuthenticated) ==> storage.items == old(storage.items)
      ensures !isAuthenticated && old(isAuthenticated) ==> storage.items == old(storage.items) - {LastActivityKey}
      ensures isAuthenticated && !old(isAuthenticated) ==> storage.items == old(storage.items)[LastActivityKey := Stamp(now)]
      ensures showLogin == old(showLogin) && selectedRecipe == old(selectedRecipe)
    {
      showAdmin := false;
      CheckAuth(now);
    }

    /** `handleLoginClose`: only the login dialog closes. */
    method HandleLoginClose()
      modifies `showLogin
      ensures !showLogin
    {
      showLogin := false;
    }

    /**
     * A request the server rejected, as the response interceptor sees it: a 401
     * drops the token and the username, but the flag and the activity stamp stay,
     * so the shell still shows the session as authenticated.
     */
    method ApiRejected(e: ApiClient.HttpError)
      requires Valid()
      modifies storage
      ensures Valid()
      ensures storage.items == ApiClient.Intercepted(old(storage.items), ApiClient.Outcome<()>.Err(e))
      ensures e.status == Some(401) ==> !Has(storage.items, TokenKey) && !Has(storage.items, UsernameKey)
      ensures isAuthenticated ==> Has(storage.items, LastActivityKey)
    {
      var r := ApiClient.InterceptResponse(storage, ApiClient.Outcome<()>.Err(e));
    }

    /**
     * A login submitted from the dialog: the form handles the reply; on success the
     * token and username are stored before the shell enters the authenticated state.
     */
    method SubmitLogin(form: LoginForm.Form, reply: ApiClient.Outcome<LoginForm.LoginData>, now: nat)
      requires Valid()
      modifies this, storage, form
      ensures Valid() && !form.loading
      ensures reply.Ok? ==> isAuthenticated && showAdmin && !showLogin
      ensures reply.Ok? ==> TokenKey in storage.items && storage.items[TokenKey] == reply.data.token
      ensures reply.Ok? ==> UsernameKey in storage.items && storage.items[UsernameKey] == reply.data.username
      ensures reply.Ok? && !old(isAuthenticated) ==> storage.items[LastActivityKey] == Stamp(now)
      ensures reply.Ok? ==>
                storage.items == if old(isAuthenticated) then LoginForm.AfterLogin(old(storage.items), reply)
                                 else LoginForm.AfterLogin(old(storage.items), reply)[LastActivityKey := Stamp(now)]
      ensures reply.Ok? ==> form.error == old(form.error)
      ensures form.username == old(form.username) && form.password == old(form.password)
      ensures selectedRecipe == old(selectedRecipe)
      ensures reply.Err? ==> isAuthenticated == old(isAuthenticated) && showAdmin == old(showAdmin) && showLogin == old(showLogin)
      ensures reply.Err? ==> storage.items == LoginForm.AfterLogin(old(storage.items), reply)
      ensures reply.Err? ==> form.error == ApiClient.ErrorText(reply.error, LoginForm.LoginFallbackError)
    {
      var loggedIn := form.CompleteSubmit(storage, reply);
      if loggedIn {
        HandleLogin(now);
      }
    }

    /**
     * The panel's logout followed by its close: the token and the username go, the
     * flag drops, and the effect removes the stamp; no other key changes.
     */
    method AdminLogout(panel: AdminPanel.Panel, now: nat)
      requires Valid()
      modifies this, storage
      ensures Valid()
      ensures !isAuthenticated && !showAdmin && !tracking
      ensures storage.items == old(storage.items) - {TokenKey, UsernameKey, LastActivityKey}
      ensures showLogin == old(showLogin) && selectedRecipe == old(selectedRecipe)
    {
      panel.Logout(storage);
      HandleAdminClose(now);
    }

    /** A click on a recipe card or on its button opens that same recipe. */
    method OpenRecipe(recipe: RecipeData.Recipe, click: Preview.CardClick)
      modifies `selectedRecipe
      ensures selectedRecipe == Some(recipe)
    {
      match click {
        case CardBody => selectedRecipe := Some(recipe);
        case ViewButton => selectedRecipe := Some(recipe);
      }
    }
  }
}
