/**
 * The login page: submitting the form signs in with the trimmed username
 * and the password as typed, then either shows an error or leaves for the
 * page the user came from.
 */
module LoginPage {
  import opened Wrappers
  import opened Text
  import opened Browser
  import opened AuthContext

  const InvalidCredentialsMessage := "Invalid username or password."

  /** Where a successful login leads: the page the user came from, unless it is missing, empty or the login page. */
  function RedirectTarget(from: Option<string>): (r: string)
    ensures r != [] && r != "/login"
    ensures from.Some? && from.value != "" && from.value != "/login" ==> r == from.value
    ensures from.None? || from.value == "" || from.value == "/login" ==> r == "/list"
  {
    if from.Some? && from.value != "" && from.value != "/login" then from.value else "/list"
  }

  /** The form state of a mounted login page; `from` is the `state.from.pathname` it was opened with. */
  class LoginForm {
    var username: string
    var password: string
    var error: string
    var isSubmitting: bool
    const from: Option<string>
    const auth: AuthProvider

    constructor (auth: AuthProvider, from: Option<string>)
      ensures this.auth == auth && this.from == from
      ensures username == "" && password == "" && error == "" && !isSubmitting
    {
      this.auth := auth;
      this.from := from;
      username := "";
      password := "";
      error := "";
      isSubmitting := false;
    }

    method EnterUsername(value: string)
      modifies this`username
      ensures username == value
    {
      username := value;
    }

    method EnterPassword(value: string)
      modifies this`password
      ensures password == value
    {
      password := value;
    }

    /** The synchronous start of `handleSubmit`. */
    method BeginSubmit()
      modifies this`error, this`isSubmitting
      ensures error == "" && isSubmitting
    {
      error := "";
      isSubmitting := true;
    }

    /**
     * A whole `handleSubmit`: on rejected credentials the error is shown and
     * the form is enabled again; on success the page navigates once, replacing
     * the history entry, and the form stays disabled.
     */
    method HandleSubmit() returns (success: bool)
      modifies this`error, this`isSubmitting, auth`isAuthenticated, auth.window`storage, auth.window`navigations
      ensures success <==> ValidCredentials(Trim(username), password)
      ensures auth.isAuthenticated == success && auth.Synced()
      ensures auth.window.storage == StorageAfterLogin(old(auth.window.storage), success)
      ensures !success ==> error == InvalidCredentialsMessage && !isSubmitting
                           && auth.window.navigations == old(auth.window.navigations)
      ensures success ==> error == "" && isSubmitting
                          && auth.window.navigations == old(auth.window.navigations) + [Navigation(RedirectTarget(from), true, None)]
    {
      BeginSubmit();
      success := auth.Login(Trim(username), password);
      if !success {
        error := InvalidCredentialsMessage;
        isSubmitting := false;
        return;
      }
      var redirectTo := RedirectTarget(from);
      auth.window.Navigate(redirectTo, true, None);
    }
  }
}
