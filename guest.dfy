/** The state one page load gives the injected scripts: the window's guard
    flags, the three key-value stores, the highlight and style elements the
    scripts add, and the envelopes posted to the app. A navigation starts a
    fresh page, so every flag starts false. */
module Guest {
  import opened Text
  import opened Bus
  import opened BrowserTypes

  /** The value stored under `k`, if any (the first entry with that key). */
  function Lookup(s: seq<KeyValue>, k: string): Option<string>
    decreases |s|
  {
    if |s| == 0 then None
    else if s[0].key == k then Some(s[0].value)
    else Lookup(s[1..], k)
  }

  predicate UniqueKeys(s: seq<KeyValue>) {
    forall i, j :: 0 <= i < j < |s| ==> s[i].key != s[j].key
  }

  /** `setItem(k, v)`: an existing key keeps its place, a new key goes last. */
  function SetItem(s: seq<KeyValue>, k: string, v: string): (r: seq<KeyValue>)
    ensures Lookup(r, k) == Some(v)
    ensures forall k' :: k' != k ==> Lookup(r, k') == Lookup(s, k')
    ensures UniqueKeys(s) ==> UniqueKeys(r)
    ensures forall i :: 0 <= i < |r| ==> r[i] == KeyValue(k, v) || r[i] in s
    decreases |s|
  {
    if |s| == 0 then [KeyValue(k, v)]
    else if s[0].key == k then [KeyValue(k, v)] + s[1..]
    else [s[0]] + SetItem(s[1..], k, v)
  }

  /** `removeItem(k)` */
  function RemoveItem(s: seq<KeyValue>, k: string): (r: seq<KeyValue>)
    ensures Lookup(r, k) == None
    ensures forall k' :: k' != k ==> Lookup(r, k') == Lookup(s, k')
    ensures forall i :: 0 <= i < |r| ==> r[i] in s && r[i].key != k
    ensures UniqueKeys(s) ==> UniqueKeys(r)
    decreases |s|
  {
    if |s| == 0 then []
    else if s[0].key == k then RemoveItem(s[1..], k)
    else [s[0]] + RemoveItem(s[1..], k)
  }

  /** One `name=value` segment of `document.cookie`. */
  function CookiePair(c: KeyValue): string {
    c.key + "=" + c.value
  }

  function CookiePairs(jar: seq<KeyValue>): (r: seq<string>)
    ensures |r| == |jar|
    ensures forall i :: 0 <= i < |jar| ==> r[i] == CookiePair(jar[i])
  {
    seq(|jar|, i requires 0 <= i < |jar| => CookiePair(jar[i]))
  }

  /** The `document.cookie` getter: the jar's pairs joined by `"; "`, the
      cookie-string of section 4.2.1 of RFC 6265. */
  function CookieString(jar: seq<KeyValue>): string {
    Join(CookiePairs(jar), "; ")
  }

  /** The name-value pair of a `document.cookie = text` assignment, read per
      section 5.2 of RFC 6265: the pair ends at the first `;` and splits at
      its first `=`, and both halves are trimmed; a pair without `=` or with
      an empty name gives nothing. */
  function ParseCookie(text: string): Option<KeyValue> {
    var pair := BeforeFirst(text, ';');
    var head := BeforeFirst(pair, '=');
    if |head| == |pair| || Trim(head) == "" then None
    else Some(KeyValue(Trim(head), Trim(pair[|head| + 1..])))
  }

  /** The `document.cookie = text` setter: a cookie whose expiry is not in
      the future is evicted, any other is stored. The jar is keyed by name:
      it holds the cookies stored with `Path=/` and no `Domain`, the kind
      every write of the browser's scripts makes. */
  function AssignCookie(jar: seq<KeyValue>, text: string, expired: bool): (r: seq<KeyValue>)
    ensures UniqueKeys(jar) ==> UniqueKeys(r)
  {
    match ParseCookie(text)
    case None => jar
    case Some(c) => if expired then RemoveItem(jar, c.key) else SetItem(jar, c.key, c.value)
  }

  /** Setting a cookie the way the storage updater writes it,
      `key=value; path=/;`, stores the trimmed value under the trimmed key. */
  lemma CookieSetText(jar: seq<KeyValue>, k: string, v: string)
    requires ';' !in k && '=' !in k && ';' !in v && Trim(k) != ""
    ensures AssignCookie(jar, k + "=" + v + "; path=/;", false) == SetItem(jar, Trim(k), Trim(v))
  {
    var text := k + "=" + v + "; path=/;";
    assert text == (k + "=" + v) + [';'] + " path=/;";
    assert ';' !in k + "=" + v;
    BeforeFirstConcat(k + "=" + v, ';', " path=/;");
    assert k + "=" + v == k + ['='] + v;
    BeforeFirstConcat(k, '=', v);
    assert (k + "=" + v)[|k| + 1..] == v;
    assert ParseCookie(text) == Some(KeyValue(Trim(k), Trim(v)));
  }

  /** The expiring write `key=; expires=...1970...; path=/;` evicts the key. */
  lemma CookieExpireText(jar: seq<KeyValue>, k: string)
    requires ';' !in k && '=' !in k && Trim(k) != ""
    ensures AssignCookie(jar, k + ExpiredCookieSuffix(), true) == RemoveItem(jar, Trim(k))
  {
    CookieExpireWith(k, ExpiresTail());
    assert "=;" + ExpiresTail() == ExpiredCookieSuffix();
  }

  /** Whatever follows `name=;`, the assignment names `name` with an empty value. */
  lemma CookieExpireWith(k: string, tail: string)
    requires ';' !in k && '=' !in k && Trim(k) != ""
    ensures ParseCookie(k + ("=;" + tail)) == Some(KeyValue(Trim(k), ""))
  {
    var text := k + ("=;" + tail);
    assert "=;" == "=" + [';'];
    assert text == (k + "=") + [';'] + tail;
    assert ';' !in k + "=";
    BeforeFirstConcat(k + "=", ';', tail);
    assert k + "=" == k + ['='] + "";
    BeforeFirstConcat(k, '=', "");
    assert (k + "=")[|k| + 1..] == "";
  }

  /** What the storage updater appends to a key to delete a cookie. */
  function ExpiredCookieSuffix(): string { "=;" + ExpiresTail() }
  function ExpiresTail(): string { " expires=Thu, 01 Jan 1970 00:00:00 UTC; path=/;" }

  /** Everything a page load holds, as one value. */
  datatype PageState = PageState(
    posted: seq<Envelope>,
    localStorage: seq<KeyValue>, sessionStorage: seq<KeyValue>, cookieJar: seq<KeyValue>,
    html: string,
    consoleIntercepted: bool, consolePatches: nat,
    networkInterceptorInjected: bool, networkPatches: nat, networkCaptureEnabled: bool,
    inspectorActive: bool, removeInspectorDefined: bool, inspectorListenerPairs: nat,
    inspectorStyles: nat, highlighted: bool,
    darkStyles: nat, reloadAt: Option<int>)

  /** The page-load invariant: every installer ran at most once, the
      inspector's flag says whether its listeners and style are in place,
      and no store holds a key twice. */
  ghost predicate ValidState(s: PageState) {
    && UniqueKeys(s.localStorage) && UniqueKeys(s.sessionStorage) && UniqueKeys(s.cookieJar)
    && s.consolePatches <= 1 && (s.consoleIntercepted <==> s.consolePatches == 1)
    && s.networkPatches <= 1 && (s.networkInterceptorInjected <==> s.networkPatches == 1)
    && s.inspectorListenerPairs <= 1 && s.inspectorStyles <= 1
    && (s.inspectorActive <==> s.inspectorListenerPairs == 1)
    && (s.inspectorActive <==> s.inspectorStyles == 1)
    && (s.inspectorActive ==> s.removeInspectorDefined)
    && (s.highlighted ==> s.inspectorActive)
    && s.darkStyles <= 1
  }

  class GuestPage {
    /** Envelopes sent with `window.ReactNativeWebView.postMessage`, in order. */
    var posted: seq<Envelope>
    var localStorage: seq<KeyValue>
    var sessionStorage: seq<KeyValue>
    var cookieJar: seq<KeyValue>
    /** `document.documentElement.outerHTML` */
    var html: string

    /** `window.consoleIntercepted` and the number of times console was patched. */
    var consoleIntercepted: bool
    var consolePatches: nat
    /** `window.networkInterceptorInjected`, the number of fetch/XHR patches,
        and `window.__NETWORK_INSPECTOR_ENABLED__`. */
    var networkInterceptorInjected: bool
    var networkPatches: nat
    var networkCaptureEnabled: bool

    /** `window.inspectorActive`, whether `window.removeInspector` exists, the
        number of attached mouseover/click listener pairs, the number of
        `inspector-style` elements, and whether an element carries the
        `inspector-highlight` class. */
    var inspectorActive: bool
    var removeInspectorDefined: bool
    var inspectorListenerPairs: nat
    var inspectorStyles: nat
    var highlighted: bool

    /** The number of `forced-dark-mode-style` elements. */
    var darkStyles: nat
    /** The time of a scheduled `location.reload()`, if any. */
    var reloadAt: Option<int>

    function State(): PageState
      reads this
    {
      PageState(posted, localStorage, sessionStorage, cookieJar, html,
                consoleIntercepted, consolePatches,
                networkInterceptorInjected, networkPatches, networkCaptureEnabled,
                inspectorActive, removeInspectorDefined, inspectorListenerPairs,
                inspectorStyles, highlighted, darkStyles, reloadAt)
    }

    ghost predicate Valid()
      reads this
    {
      ValidState(State())
    }

    /** A fresh page load with the given document and stores. */
    constructor (html: string, local: seq<KeyValue>, session: seq<KeyValue>, jar: seq<KeyValue>)
      requires UniqueKeys(local) && UniqueKeys(session) && UniqueKeys(jar)
      ensures Valid()
      ensures this.html == html && localStorage == local && sessionStorage == session
      ensures cookieJar == jar && posted == []
      ensures !consoleIntercepted && !networkInterceptorInjected && !networkCaptureEnabled
      ensures !inspectorActive && !removeInspectorDefined && inspectorListenerPairs == 0
      ensures inspectorStyles == 0 && !highlighted && darkStyles == 0 && reloadAt == None
    {
      this.html := html;
      localStorage, sessionStorage, cookieJar := local, session, jar;
      posted := [];
      consoleIntercepted, consolePatches := false, 0;
      networkInterceptorInjected, networkPatches, networkCaptureEnabled := false, 0, false;
      inspectorActive, removeInspectorDefined := false, false;
      inspectorListenerPairs, inspectorStyles, highlighted := 0, 0, false;
      darkStyles, reloadAt := 0, None;
    }

    method Post(e: Envelope)
      modifies this
      ensures State() == old(State()).(posted := old(posted) + [e])
    {
      posted := posted + [e];
    }

    /** Replaces the three stores at once. */
    method SetStores(local: seq<KeyValue>, session: seq<KeyValue>, jar: seq<KeyValue>)
      modifies this
      ensures State() == old(State()).(localStorage := local, sessionStorage := session, cookieJar := jar)
    {
      localStorage, sessionStorage, cookieJar := local, session, jar;
    }

    /** What the storage scripts read back: both stores as JSON and the
        cookie string. */
    function Snapshot(): StorageSnapshot
      reads this
    {
      StorageSnapshot(Entries(localStorage), Entries(sessionStorage), CookieString(cookieJar))
    }
  }
}
