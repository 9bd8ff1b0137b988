/** Records shared by the host-side state hook, the views and the engines.
    Identifiers come from `generateUUID`; dates are milliseconds since the
    epoch (the source stores ISO strings and parses them back with `new Date`). */
module BrowserTypes {

  datatype Option<T> = None | Some(value: T)

  /** A browser tab: `{id, title, url, isLoading, canGoBack, canGoForward}`. */
  datatype Tab = Tab(id: string, title: string, url: string,
                     isLoading: bool, canGoBack: bool, canGoForward: bool)

  /** A user script: runs on pages whose href contains `domain`, or on every
      page when `domain` is `*`, and only while `active`. */
  datatype UserScript = UserScript(id: string, name: string, domain: string,
                                   code: string, active: bool, date: string)

  /** A browsing-history entry. A date the host cannot parse is None
      (`new Date(...)` gives an invalid date, which compares false with all). */
  datatype HistoryItem = HistoryItem(id: string, title: string, url: string, date: Option<int>)

  /** A saved website (favourite). */
  datatype Website = Website(id: string, name: string, url: string, dateAdded: int)

  /** The sentinel address of the built-in home page. */
  function HomeUrl(): string { "zeus://home" }
}
