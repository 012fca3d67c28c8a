/**
 * The browser surface the dashboard touches: the local key-value storage
 * (one string per key), whether the page body carries the "dark" class, and
 * logs of the navigations requested from the router and the toasts shown.
 * The logs are ghost: nothing in the application reads them back.
 */
module Browser {
  import opened Wrappers

  /** A navigation request: target path, whether it replaces the history entry, and the `employeeId` route state if any. */
  datatype Navigation = Navigation(path: string, replace: bool, employeeId: Option<string>)

  datatype ToastKind = Info | Success | Error

  datatype Toast = Toast(message: string, kind: ToastKind)

  class Window {
    var storage: map<string, string>
    var bodyDark: bool
    ghost var navigations: seq<Navigation>
    ghost var toasts: seq<Toast>

    constructor (storage: map<string, string>)
      ensures this.storage == storage && !bodyDark
      ensures navigations == [] && toasts == []
    {
      this.storage := storage;
      bodyDark := false;
      navigations := [];
      toasts := [];
    }

    /** `getItem(key)`: the stored string, or `None` when the key is absent. */
    function GetItem(key: string): (r: Option<string>)
      reads this
      ensures r == Get(storage, key)
    {
      Get(storage, key)
    }

    method SetItem(key: string, value: string)
      modifies this`storage
      ensures storage == old(storage)[key := value]
    {
      storage := storage[key := value];
    }

    method RemoveItem(key: string)
      modifies this`storage
      ensures storage == old(storage) - {key}
    {
      storage := storage - {key};
    }

    /** `document.body.classList.add/remove('dark')`. */
    method SetBodyDark(dark: bool)
      modifies this`bodyDark
      ensures bodyDark == dark
    {
      bodyDark := dark;
    }

    method Navigate(path: string, replace: bool, employeeId: Option<string>)
      modifies this`navigations
      ensures navigations == old(navigations) + [Navigation(path, replace, employeeId)]
    {
      navigations := navigations + [Navigation(path, replace, employeeId)];
    }

    method ShowToast(message: string, kind: ToastKind)
      modifies this`toasts
      ensures toasts == old(toasts) + [Toast(message, kind)]
    {
      toasts := toasts + [Toast(message, kind)];
    }
  }
}
