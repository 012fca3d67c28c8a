/**
 * The session held by `AuthProvider`: the `isAuthenticated` flag, mirrored
 * in storage under `auth_is_authenticated`, with `login` against one fixed
 * credential pair and `logout`.
 */
module AuthContext {
  import opened Wrappers
  import opened Browser

  const AuthStorageKey := "auth_is_authenticated"
  const LoggedOutMessage := "You have been logged out."

  /** The one credential pair `login` accepts, compared exactly and case-sensitively. */
  predicate ValidCredentials(username: string, password: string) {
    username == "testuser" && password == "Test123"
  }

  /** The flag the mount effect reads back: only the exact string "true" counts. */
  function StoredFlag(storage: map<string, string>): (r: bool)
    ensures r <==> AuthStorageKey in storage && storage[AuthStorageKey] == "true"
  {
    Get(storage, AuthStorageKey) == Some("true")
  }

  /** The storage after a login attempt that returned `ok`. */
  function StorageAfterLogin(storage: map<string, string>, ok: bool): map<string, string> {
    if ok then storage[AuthStorageKey := "true"] else storage - {AuthStorageKey}
  }

  /** The storage after a logout. */
  function StorageAfterLogout(storage: map<string, string>): map<string, string> {
    storage - {AuthStorageKey}
  }

  /** Login and logout write or remove `auth_is_authenticated` and leave every other key as it was. */
  lemma SessionTouchesOnlyItsKey(storage: map<string, string>, ok: bool, key: string)
    requires key != AuthStorageKey
    ensures Get(StorageAfterLogin(storage, ok), key) == Get(storage, key)
    ensures Get(StorageAfterLogout(storage), key) == Get(storage, key)
  {
  }

  /** A reload after a login or a logout restores the flag that call left. */
  lemma ReloadRestoresSession(storage: map<string, string>, ok: bool)
    ensures StoredFlag(StorageAfterLogin(storage, ok)) == ok
    ensures !StoredFlag(StorageAfterLogout(storage))
  {
  }

  /** A second logout changes neither the flag nor the storage. */
  lemma LogoutIdempotent(storage: map<string, string>)
    ensures StorageAfterLogout(StorageAfterLogout(storage)) == StorageAfterLogout(storage)
  {
  }

  class AuthProvider {
    var isAuthenticated: bool
    const window: Window

    /** The flag agrees with what a reload would read from storage. */
    ghost predicate Synced()
      reads this, window
    {
      isAuthenticated == StoredFlag(window.storage)
    }

    /** The first render: not authenticated, whatever storage holds. */
    constructor (window: Window)
      ensures this.window == window && !isAuthenticated
    {
      this.window := window;
      isAuthenticated := false;
    }

    /** The mount effect: adopt the stored flag. */
    method Restore()
      modifies this`isAuthenticated
      ensures isAuthenticated == StoredFlag(window.storage)
      ensures Synced()
    {
      var stored := window.GetItem(AuthStorageKey);
      isAuthenticated := stored == Some("true");
    }

    /** `login`: never fails, answers whether the credentials were accepted. */
    method Login(username: string, password: string) returns (ok: bool)
      modifies this`isAuthenticated, window`storage
      ensures ok <==> ValidCredentials(username, password)
      ensures isAuthenticated == ok
      ensures window.storage == StorageAfterLogin(old(window.storage), ok)
      ensures Synced()
    {
      var isValid := username == "testuser" && password == "Test123";
      if isValid {
        isAuthenticated := true;
        window.SetItem(AuthStorageKey, "true");
        return true;
      }
      isAuthenticated := false;
      window.RemoveItem(AuthStorageKey);
      return false;
    }

    /** `logout`: signs out, returns to the login page and says so once. */
    method Logout()
      modifies this`isAuthenticated, window`storage, window`navigations, window`toasts
      ensures !isAuthenticated && Synced()
      ensures window.storage == StorageAfterLogout(old(window.storage))
      ensures window.navigations == old(window.navigations) + [Navigation("/login", true, None)]
      ensures window.toasts == old(window.toasts) + [Toast(LoggedOutMessage, Info)]
    {
      isAuthenticated := false;
      window.RemoveItem(AuthStorageKey);
      window.Navigate("/login", true, None);
      window.ShowToast(LoggedOutMessage, Info);
    }
  }

  /** `useAuth`: the provider's value, or the error thrown outside a provider. */
  function UseAuth<T>(context: Option<T>): (r: Result<T, string>)
    ensures context.Some? ==> r == Result.Success(context.value)
    ensures context.None? ==> r == Failure("useAuth must be used within an AuthProvider")
  {
    UseContext(context, "useAuth must be used within an AuthProvider")
  }
}
