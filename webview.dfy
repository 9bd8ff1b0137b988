/** web/src/components/BrowserWebView.js: the web view a tab is shown in.
    The scripts are named rather than spelled out: the blocker's bundle is
    modelled in `AdBlock`, the interceptors in `DevTools`. */
module WebView {
  import opened BrowserTypes
  import opened Guest
  import AdBlock
  import Screen

  /** A script of the pre-content bundle. */
  datatype Script =
    | Titanium(userScripts: seq<UserScript>, customBlockRules: seq<string>)
    | NetworkInterceptor
    | ConsoleInterceptor
    | TranslationInjection

  /** `combinedInjection`: the blocker, the network interceptor, the console
      interceptor, then the translation script when the translator is on. */
  function CombinedInjection(userScripts: seq<UserScript>, rules: seq<string>, translator: bool): (b: seq<Script>)
    ensures |b| == if translator then 4 else 3
    ensures b[0] == Titanium(userScripts, rules) && b[1] == NetworkInterceptor && b[2] == ConsoleInterceptor
    ensures translator ==> b[3] == TranslationInjection
    ensures TranslationInjection in b <==> translator
  {
    [Titanium(userScripts, rules), NetworkInterceptor, ConsoleInterceptor]
      + (if translator then [TranslationInjection] else [])
  }

  /** The `useMemo` dependencies of the bundle. */
  datatype Deps = Deps(userScripts: seq<UserScript>, rules: seq<string>, translator: bool)

  /** A memoised bundle and the dependencies it was computed from. */
  datatype Memo = Memo(deps: Deps, bundle: seq<Script>)

  predicate Fresh(m: Memo) {
    m.bundle == CombinedInjection(m.deps.userScripts, m.deps.rules, m.deps.translator)
  }

  /** One render: the cached bundle when the dependencies are unchanged,
      otherwise a recomputed one. */
  function Render(cached: Option<Memo>, deps: Deps): Memo {
    if cached.Some? && cached.value.deps == deps then cached.value
    else Memo(deps, CombinedInjection(deps.userScripts, deps.rules, deps.translator))
  }

  /** A render recomputes exactly when there is no cache or a dependency
      changed, and a fresh cache stays fresh: the bundle in use is always the
      one the current dependencies give. */
  lemma RenderRecomputesOnlyOnChange(cached: Option<Memo>, deps: Deps)
    requires cached.Some? ==> Fresh(cached.value)
    ensures Fresh(Render(cached, deps)) && Render(cached, deps).deps == deps
    ensures cached.Some? && cached.value.deps == deps ==> Render(cached, deps) == cached.value
  {
  }

  /** The `userAgent` prop. */
  datatype UserAgent = DesktopAgent | MobileAgent

  function UserAgentString(ua: UserAgent): string {
    match ua
    case DesktopAgent =>
      "Mozilla/5.0 (Windows NT 10.0; Win64; x64) AppleWebKit/537.36 (KHTML, like Gecko) Chrome/120.0.0.0 Safari/537.36"
    case MobileAgent =>
      "Mozilla/5.0 (Linux; Android 10; K) AppleWebKit/537.36 (KHTML, like Gecko) Chrome/120.0.0.0 Mobile Safari/537.36"
  }

  /** The props the web view is given. */
  datatype Props = Props(uri: string, userAgent: UserAgent, incognito: bool,
                         sharedCookiesEnabled: bool, thirdPartyCookiesEnabled: bool,
                         injectedBeforeContent: seq<Script>)

  function WebViewProps(tab: Tab, desktop: bool, incognito: bool, bundle: seq<Script>): (p: Props)
    ensures p.uri == tab.url && p.injectedBeforeContent == bundle
    ensures p.userAgent == DesktopAgent <==> desktop
    ensures p.sharedCookiesEnabled <==> !incognito
    ensures p.thirdPartyCookiesEnabled <==> !incognito
  {
    Props(tab.url, if desktop then DesktopAgent else MobileAgent, incognito, !incognito, !incognito, bundle)
  }

  /** The number of dark-mode style elements after `applyDarkMode`: on adds
      one only when none exists, off removes the one found. */
  function DarkStylesAfter(n: nat, dark: bool): nat {
    if dark then (if n == 0 then 1 else n) else (if n > 0 then n - 1 else n)
  }

  /** Applying the same mode twice is applying it once; on a page with at
      most one style, on leaves exactly one and off leaves none. */
  lemma DarkModeIdempotent(n: nat, dark: bool)
    requires n <= 1
    ensures DarkStylesAfter(DarkStylesAfter(n, dark), dark) == DarkStylesAfter(n, dark)
    ensures DarkStylesAfter(n, dark) == if dark then 1 else 0
  {
  }

  /** `applyDarkMode(ref)`: nothing without a ref. */
  method ApplyDarkMode(page: GuestPage?, dark: bool)
    modifies if page == null then {} else {page}
    ensures page != null ==> page.State() == old(page.State()).(darkStyles := DarkStylesAfter(old(page.darkStyles), dark))
    ensures page != null && old(page.Valid()) ==> page.Valid()
  {
    if page == null {
      return;
    }
    page.darkStyles := DarkStylesAfter(page.darkStyles, dark);
  }

  /** What the web view receives as `ref`. The browser screen passes a
      callback ref, a function that stores the view, and a function has no
      `current`; an object ref's `current` is the mounted view. */
  datatype ViewRef = CallbackRef | ObjectRef

  /** The dark-style count after `onLoad` as the screen wires it: the style
      goes to `ref.current`, which is `undefined` for a callback ref, and
      `applyDarkMode` returns at once without a view. */
  function DarkStylesOnLoadAsWritten(ref: ViewRef, n: nat, dark: bool): nat {
    if dark && ref.ObjectRef? then DarkStylesAfter(n, true) else n
  }

  /** With the callback ref the screen passes, a page that loads in forced
      dark mode keeps whatever dark styles it had: a fresh page stays light. */
  lemma CallbackRefLoadsLight(n: nat)
    ensures DarkStylesOnLoadAsWritten(CallbackRef, n, true) == n
    ensures DarkStylesOnLoadAsWritten(CallbackRef, 0, true) == 0
  {
  }

  /** The dark-style count after `onLoad` as intended: in dark mode the page
      ends with the style, and otherwise nothing changes. */
  function DarkStylesOnLoad(n: nat, dark: bool): (r: nat)
    ensures dark ==> r >= 1 && (n <= 1 ==> r == 1)
    ensures !dark ==> r == n
  {
    if dark then DarkStylesAfter(n, true) else n
  }

  /** The two agree exactly when the view is reached through an object ref
      or the page is not in dark mode. */
  lemma OnLoadAgreesWithObjectRef(ref: ViewRef, dark: bool)
    ensures (DarkStylesOnLoadAsWritten(ref, 0, dark) == DarkStylesOnLoad(0, dark)) <==> (ref.ObjectRef? || !dark)
  {
  }

  /** `onLoad`, with the view reached (an object ref): the dark style is
      applied only in dark mode. */
  method OnLoad(page: GuestPage?, dark: bool)
    modifies if page == null then {} else {page}
    ensures page != null ==> page.State() == old(page.State()).(darkStyles := DarkStylesOnLoad(old(page.darkStyles), dark))
  {
    if dark {
      ApplyDarkMode(page, dark);
    }
  }

  /** `onShouldStartLoadWithRequest`: a request proceeds iff the gate does
      not block it; blocked ones are counted. */
  method ShouldStartLoad(screen: Screen.BrowserScreen, url: string, currentUrl: string) returns (proceed: bool)
    modifies screen.session`adsBlocked
    ensures proceed <==> !AdBlock.ShouldBlockRequest(url, currentUrl, screen.session.userBlockedDomains)
    ensures screen.session.adsBlocked == old(screen.session.adsBlocked) + if proceed then 0 else 1
  {
    var blocked := screen.OnShouldBlock(url, currentUrl);
    proceed := !blocked;
  }

  /** `onOpenWindow`: every pop-up is refused. */
  function OpenWindow(targetUrl: string): (allowed: bool)
    ensures !allowed
  {
    false
  }
}
