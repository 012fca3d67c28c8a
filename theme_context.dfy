/**
 * The colour theme held by `ThemeProvider`: restored from storage on mount
 * when the stored value is a valid theme, persisted to storage and to the
 * body's "dark" class after every change, and toggled by the user.
 */
module ThemeContext {
  import opened Wrappers
  import opened Browser

  /** A theme is exactly one of the two names. */
  datatype Theme = Light | Dark

  const ThemeStorageKey := "app_theme"

  function ThemeName(t: Theme): string {
    match t
    case Light => "light"
    case Dark => "dark"
  }

  /** The validation of a stored value: only "light" and "dark" name a theme. */
  function ParseTheme(stored: Option<string>): (r: Option<Theme>)
    ensures r.Some? <==> stored == Some("light") || stored == Some("dark")
    ensures r.Some? ==> ThemeName(r.value) == stored.value
  {
    if stored == Some("light") then Some(Light)
    else if stored == Some("dark") then Some(Dark)
    else None
  }

  /** Reading back a persisted theme gives that theme. */
  lemma ThemeNameRoundTrip(t: Theme)
    ensures ParseTheme(Some(ThemeName(t))) == Some(t)
  {
  }

  /** The theme a mount adopts: the stored one when valid, otherwise the current one. */
  function RestoredTheme(storage: map<string, string>, current: Theme): Theme {
    ParseTheme(Get(storage, ThemeStorageKey)).GetOr(current)
  }

  /** A reload after the theme was persisted restores that theme. */
  lemma PersistedThemeRestores(storage: map<string, string>, t: Theme, current: Theme)
    ensures RestoredTheme(storage[ThemeStorageKey := ThemeName(t)], current) == t
  {
    ThemeNameRoundTrip(t);
  }

  /** The updater passed to `setTheme` by `toggleTheme`. */
  function Toggled(t: Theme): (r: Theme)
    ensures r != t
  {
    if t == Light then Dark else Light
  }

  lemma ToggleTwice(t: Theme)
    ensures Toggled(Toggled(t)) == t
  {
  }

  class ThemeProvider {
    var theme: Theme
    const window: Window

    /** Storage and the body class both show the current theme. */
    ghost predicate Synced()
      reads this, window
    {
      && ThemeStorageKey in window.storage
      && window.storage[ThemeStorageKey] == ThemeName(theme)
      && (window.bodyDark <==> theme == Dark)
    }

    /** The first render, before any effect has run. */
    constructor (window: Window)
      ensures this.window == window && theme == Light
    {
      this.window := window;
      theme := Light;
    }

    /** The persist effect for the theme of the current render. */
    method Persist()
      modifies window`storage, window`bodyDark
      ensures window.storage == old(window.storage)[ThemeStorageKey := ThemeName(theme)]
      ensures Synced()
    {
      window.SetItem(ThemeStorageKey, ThemeName(theme));
      window.SetBodyDark(theme == Dark);
    }

    /**
     * Mount: the restore effect reads storage first, then the persist effect
     * of the same commit writes the current theme; when the restored theme
     * differs, the re-render persists it in turn.
     */
    method Mount()
      modifies this`theme, window`storage, window`bodyDark
      ensures theme == RestoredTheme(old(window.storage), old(theme))
      ensures window.storage == old(window.storage)[ThemeStorageKey := ThemeName(theme)]
      ensures Synced()
    {
      var stored := window.GetItem(ThemeStorageKey);
      var restored := ParseTheme(stored);
      Persist();
      if restored.Some? && restored.value != theme {
        theme := restored.value;
        Persist();
      }
    }

    /** `toggleTheme`, followed by the persist effect of the re-render. */
    method ToggleTheme()
      modifies this`theme, window`storage, window`bodyDark
      ensures theme == Toggled(old(theme))
      ensures window.storage == old(window.storage)[ThemeStorageKey := ThemeName(theme)]
      ensures Synced()
    {
      theme := Toggled(theme);
      Persist();
    }
  }

  /** `useTheme`: the provider's value, or the error thrown outside a provider. */
  function UseTheme<T>(context: Option<T>): (r: Result<T, string>)
    ensures context.Some? ==> r == Result.Success(context.value)
    ensures context.None? ==> r == Failure("useTheme must be used within a ThemeProvider")
  {
    UseContext(context, "useTheme must be used within a ThemeProvider")
  }
}
