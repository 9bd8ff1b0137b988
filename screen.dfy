/** web/src/screens/SmartBrowser.js: the host screen's handling of guest
    envelopes, the address bar's search, the blocked-request counter and the
    DOM-inspector switch. `JSON.parse` gives an envelope or fails;
    `encodeURIComponent`, `Math.random` and the clock are parameters. */
module Screen {
  import opened Text
  import opened Lists
  import opened BrowserTypes
  import opened Bus
  import opened Session
  import AdBlock

  // ----------------------------------------------------------------------
  // handleWebViewMessage
  // ----------------------------------------------------------------------

  /** The host state the message handler can change: the session's
      developer-tool buffers and the screen's own view state. */
  datatype HostView = HostView(
    consoleLogs: seq<ConsoleEntry>, networkLogs: seq<NetworkEntry>,
    inspectedElement: Option<InspectedElement>, isInspectorActive: bool,
    storageData: Option<StorageSnapshot>,
    readerData: Option<Article>, readerVisible: bool,
    galleryImages: seq<string>, galleryVisible: bool,
    findResultCount: nat, sourceCodeText: string, showSourceCode: bool)

  /** The console keeps the newest 200 entries. */
  function ConsoleLimit(): nat { 200 }
  /** The network list keeps the newest 50 entries. */
  function NetworkLimit(): nat { 50 }

  /** The handler's effect for one incoming message. `None` is a message
      `JSON.parse` rejects; `id` and `time` are the new console entry's
      random id and local time. Speech and alerts have no state effect. */
  function Dispatch(v: HostView, msg: Option<Envelope>, showNetwork: bool, id: string, time: string): (r: HostView)
    ensures |r.consoleLogs| <= if |v.consoleLogs| > ConsoleLimit() then |v.consoleLogs| else ConsoleLimit()
    ensures |r.networkLogs| <= if |v.networkLogs| > NetworkLimit() then |v.networkLogs| else NetworkLimit()
  {
    if msg.None? then v
    else match msg.value
      case ConsoleLog(level, payload) =>
        v.(consoleLogs := TakeLast(v.consoleLogs + [ConsoleEntry(id, level, payload, time)], ConsoleLimit()))
      case NetworkLog(entry) =>
        if showNetwork then v.(networkLogs := Take([entry] + v.networkLogs, NetworkLimit())) else v
      case ElementInspected(element) =>
        v.(inspectedElement := Some(element), isInspectorActive := false)
      case StorageData(snapshot) => v.(storageData := Some(snapshot))
      case ReaderExtracted(article) => v.(readerData := Some(article), readerVisible := true)
      case ImagesExtracted(urls) => v.(galleryImages := urls, galleryVisible := true)
      case FindResult(count) => v.(findResultCount := count)
      case ViewSource(html) => v.(sourceCodeText := html, showSourceCode := true)
      case _ => v
  }

  /** A console message is appended and only the newest 200 stay; until the
      limit is reached nothing is dropped. Nothing else changes. */
  lemma DispatchConsole(v: HostView, level: Level, payload: string, showNetwork: bool, id: string, time: string)
    ensures var r := Dispatch(v, Some(ConsoleLog(level, payload)), showNetwork, id, time);
            && 1 <= |r.consoleLogs| <= 200
            && r.consoleLogs[|r.consoleLogs| - 1] == ConsoleEntry(id, level, payload, time)
            && (|v.consoleLogs| < 200 ==> r.consoleLogs == v.consoleLogs + [ConsoleEntry(id, level, payload, time)])
            && (|v.consoleLogs| >= 200 ==> r.consoleLogs == v.consoleLogs[|v.consoleLogs| - 199..] + [ConsoleEntry(id, level, payload, time)])
            && r == v.(consoleLogs := r.consoleLogs)
  {
    var e := ConsoleEntry(id, level, payload, time);
    var all := v.consoleLogs + [e];
    if |v.consoleLogs| >= 200 {
      assert all[|all| - 200..] == v.consoleLogs[|v.consoleLogs| - 199..] + [e];
    }
  }

  /** A network entry is ignored while the panel is closed; when it is open
      the entry goes first and at most 50 stay. */
  lemma DispatchNetwork(v: HostView, entry: NetworkEntry, showNetwork: bool, id: string, time: string)
    ensures var r := Dispatch(v, Some(NetworkLog(entry)), showNetwork, id, time);
            && (!showNetwork ==> r == v)
            && (showNetwork ==>
                  && 1 <= |r.networkLogs| <= 50 && r.networkLogs[0] == entry
                  && r.networkLogs[1..] == Take(v.networkLogs, 49)
                  && r == v.(networkLogs := r.networkLogs))
  {
    if showNetwork {
      var r := Dispatch(v, Some(NetworkLog(entry)), showNetwork, id, time);
      assert r.networkLogs[1..] == Take(v.networkLogs, 49);
    }
  }

  /** An inspected element is stored and the inspector switches off. */
  lemma DispatchInspected(v: HostView, element: InspectedElement, showNetwork: bool, id: string, time: string)
    ensures var r := Dispatch(v, Some(ElementInspected(element)), showNetwork, id, time);
            && r.inspectedElement == Some(element) && !r.isInspectorActive
            && r == v.(inspectedElement := r.inspectedElement, isInspectorActive := false)
  {
  }

  /** The display messages store their payload. Storage and find results
      are only stored; reader, image and source messages also show their
      panel. The rest of the view stays as it was. */
  lemma DispatchShows(v: HostView, msg: Envelope, showNetwork: bool, id: string, time: string)
    ensures var r := Dispatch(v, Some(msg), showNetwork, id, time);
            && (msg.StorageData? ==> r == v.(storageData := Some(msg.snapshot)))
            && (msg.ReaderExtracted? ==> r == v.(readerData := Some(msg.article), readerVisible := true))
            && (msg.ImagesExtracted? ==> r == v.(galleryImages := msg.urls, galleryVisible := true))
            && (msg.FindResult? ==> r == v.(findResultCount := msg.count))
            && (msg.ViewSource? ==> r == v.(sourceCodeText := msg.html, showSourceCode := true))
  {
  }

  /** Messages the handler does not act on change nothing: unparseable
      text, `READER_ERROR`, unknown tags, and the speech and alert ones. */
  lemma DispatchIgnores(v: HostView, msg: Option<Envelope>, showNetwork: bool, id: string, time: string)
    requires msg.None? || msg.value.ReaderError? || msg.value.Unknown? || msg.value.SpeakText? || msg.value.ActionComplete?
    ensures Dispatch(v, msg, showNetwork, id, time) == v
  {
  }

  // ----------------------------------------------------------------------
  // performSearch
  // ----------------------------------------------------------------------

  /** `[a-zA-Z0-9-]` */
  predicate LabelChar(c: char) {
    ('a' <= c <= 'z') || ('A' <= c <= 'Z') || ('0' <= c <= '9') || c == '-'
  }

  /** `[a-z]` */
  predicate LowerAlpha(c: char) {
    'a' <= c <= 'z'
  }

  /** The length of the leading run of label characters. */
  function LabelRun(s: string): (k: nat)
    ensures k <= |s|
    decreases |s|
  {
    if |s| > 0 && LabelChar(s[0]) then 1 + LabelRun(s[1..]) else 0
  }

  lemma {:induction false} LabelRunSpan(s: string)
    ensures forall i :: 0 <= i < LabelRun(s) ==> LabelChar(s[i])
    ensures LabelRun(s) < |s| ==> !LabelChar(s[LabelRun(s)])
    decreases |s|
  {
    if |s| > 0 && LabelChar(s[0]) {
      LabelRunSpan(s[1..]);
      assert forall i :: 1 <= i < LabelRun(s) ==> s[i] == s[1..][i - 1];
    }
  }

  /** `[a-zA-Z0-9-]+\.[a-z]{2,}` at the start, decided on the longest label
      run: `.` is not a label character, so no shorter run can be followed
      by it. */
  predicate DomainLike(s: string) {
    var k := LabelRun(s);
    1 <= k && k + 2 < |s| && s[k] == '.' && LowerAlpha(s[k + 1]) && LowerAlpha(s[k + 2])
  }

  /** The pattern matched with `k` label characters before the dot. */
  ghost predicate DomainMatchAt(s: string, k: int) {
    1 <= k && k + 2 < |s| && (forall i :: 0 <= i < k ==> LabelChar(s[i]))
    && s[k] == '.' && LowerAlpha(s[k + 1]) && LowerAlpha(s[k + 2])
  }

  /** The longest-run test accepts exactly what the pattern matches with
      backtracking: some run of label characters, a dot, two lower-case
      letters. */
  lemma DomainLikeIff(s: string)
    ensures DomainLike(s) <==> exists k :: DomainMatchAt(s, k)
  {
    LabelRunSpan(s);
    var run := LabelRun(s);
    if DomainLike(s) {
      assert DomainMatchAt(s, run);
    }
    if exists k :: DomainMatchAt(s, k) {
      var k :| DomainMatchAt(s, k);
      assert !LabelChar(s[k]);
      assert run == k;
    }
  }

  /** `/^(http:\/\/|https:\/\/|www\.|[a-zA-Z0-9-]+\.[a-z]{2,})/.test(text)` */
  predicate IsUrlish(text: string) {
    IsPrefix("http://", text) || IsPrefix("https://", text) || IsPrefix("www.", text) || DomainLike(text)
  }

  /** The search address for an engine; any name but DuckDuckGo and Bing
      means Google. */
  function SearchUrl(engine: string, query: string): string {
    if engine == "DuckDuckGo" then "https://duckduckgo.com/?q=" + query
    else if engine == "Bing" then "https://www.bing.com/search?q=" + query
    else "https://www.google.com/search?q=" + query
  }

  /** Where `performSearch(text)` goes; `encoded` is
      `encodeURIComponent(text)`. */
  function TargetUrl(text: string, engine: string, encoded: string): string {
    if IsUrlish(text) then
      if IsPrefix("http://", text) || IsPrefix("https://", text) then text else "https://" + text
    else SearchUrl(engine, encoded)
  }

  /** URL-like text always ends up with an http(s) scheme and is otherwise
      kept; other text becomes a search on the chosen engine, Google for an
      unknown one. */
  lemma TargetUrlSound(text: string, engine: string, encoded: string)
    ensures var url := TargetUrl(text, engine, encoded);
            && (IsUrlish(text) ==> (IsPrefix("http://", url) || IsPrefix("https://", url))
                                   && (url == text || url == "https://" + text))
            && (!IsUrlish(text) ==> url == SearchUrl(engine, encoded))
            && (engine != "DuckDuckGo" && engine != "Bing" ==> SearchUrl(engine, encoded) == SearchUrl("Google", encoded))
  {
    var url := TargetUrl(text, engine, encoded);
    if IsUrlish(text) && !(IsPrefix("http://", text) || IsPrefix("https://", text)) {
      assert url[..8] == "https://";
    }
  }

  /** `ab.cd` looks like an address and gets a scheme; `a b` does not. */
  lemma UrlishExamples()
    ensures IsUrlish("ab.cd") && TargetUrl("ab.cd", "Bing", "ab.cd") == "https://ab.cd"
    ensures !IsUrlish("a b")
  {
    assert LabelRun("ab.cd") == 2 by {
      assert "ab.cd"[1..] == "b.cd";
      assert "b.cd"[1..] == ".cd";
    }
    assert LabelRun("a b") == 1 by {
      assert "a b"[1..] == " b";
    }
  }

  /** The tab `state.tabs.find(t => t.id === state.currentTabID)`. */
  function CurrentTab(tabs: seq<Tab>, current: Option<string>): (t: Option<Tab>)
    ensures t.Some? ==> current.Some? && t.value.id == current.value && t.value in tabs
  {
    if current.None? then None
    else
      var k := IndexOfTab(tabs, current.value);
      if k < 0 then None else Some(tabs[k])
  }

  /** The update that only sets the url. */
  function UrlOnly(url: string): TabUpdate {
    TabUpdate(Some(url), None, None, None, None)
  }

  // ----------------------------------------------------------------------
  // The screen
  // ----------------------------------------------------------------------

  class BrowserScreen {
    const session: BrowserSession
    var showNetworkInspector: bool
    var readerData: Option<Article>
    var readerVisible: bool
    var galleryImages: seq<string>
    var galleryVisible: bool
    var findResultCount: nat
    var sourceCodeText: string
    var showSourceCode: bool

    function View(): HostView
      reads this, session
    {
      HostView(session.consoleLogs, session.networkLogs, session.inspectedElement, session.isInspectorActive,
               session.storageData, readerData, readerVisible, galleryImages, galleryVisible,
               findResultCount, sourceCodeText, showSourceCode)
    }

    constructor (session: BrowserSession)
      ensures this.session == session
      ensures !showNetworkInspector && readerData == None && !readerVisible && galleryImages == []
      ensures !galleryVisible && findResultCount == 0 && sourceCodeText == "" && !showSourceCode
    {
      this.session := session;
      showNetworkInspector := false;
      readerData, readerVisible := None, false;
      galleryImages, galleryVisible := [], false;
      findResultCount, sourceCodeText, showSourceCode := 0, "", false;
    }

    /** `handleWebViewMessage` */
    method HandleWebViewMessage(msg: Option<Envelope>, id: string, time: string)
      modifies this`readerData, this`readerVisible, this`galleryImages, this`galleryVisible
      modifies this`findResultCount, this`sourceCodeText, this`showSourceCode
      modifies session`consoleLogs, session`networkLogs, session`inspectedElement
      modifies session`isInspectorActive, session`storageData
      ensures View() == Dispatch(old(View()), msg, showNetworkInspector, id, time)
    {
      if msg.None? {
        return;
      }
      match msg.value {
        case ConsoleLog(level, payload) =>
          session.consoleLogs := TakeLast(session.consoleLogs + [ConsoleEntry(id, level, payload, time)], ConsoleLimit());
        case NetworkLog(entry) =>
          if showNetworkInspector {
            session.networkLogs := Take([entry] + session.networkLogs, NetworkLimit());
          }
        case ElementInspected(element) =>
          session.inspectedElement := Some(element);
          session.isInspectorActive := false;
        case StorageData(snapshot) =>
          session.storageData := Some(snapshot);
        case ReaderExtracted(article) =>
          readerData, readerVisible := Some(article), true;
        case ImagesExtracted(urls) =>
          galleryImages, galleryVisible := urls, true;
        case FindResult(count) =>
          findResultCount := count;
        case ViewSource(html) =>
          sourceCodeText, showSourceCode := html, true;
        case _ =>
      }
    }

    /** `performSearch(text)`: records the query, then loads the target in
        the current tab. Without a current tab the lookup throws after the
        query was recorded. */
    method PerformSearch(text: string, encoded: string)
      modifies session`searchHistory, session`writes, session`tabs, session`sent
      ensures session.isIncognito || Trim(text) == "" ==>
                session.searchHistory == old(session.searchHistory) && session.writes == old(session.writes)
      ensures !session.isIncognito && Trim(text) != "" ==>
                && session.searchHistory == PushQuery(old(session.searchHistory), text)
                && session.writes == old(session.writes) + [Write(SearchHistoryKey(), Strings(session.searchHistory))]
      ensures Navigated(old(session.tabs), old(session.sent), TargetUrl(text, session.searchEngine, encoded))
    {
      session.AddSearchQuery(text);
      var url := TargetUrl(text, session.searchEngine, encoded);
      NavigateTo(url);
    }

    /** The effect of navigating the current tab to `url`, from the tabs and
        the sent commands before it. */
    ghost predicate Navigated(tabs0: seq<Tab>, sent0: seq<Sent>, url: string)
      reads this, session
    {
      var cur := CurrentTab(tabs0, session.currentTabID);
      if cur.None? then session.tabs == tabs0 && session.sent == sent0
      else if session.HasRef() && cur.value.url != HomeUrl() then
        session.tabs == tabs0 && session.sent == sent0 + [Sent(session.currentTabID.value, Navigate(url))]
      else
        session.tabs == UpdateTabs(tabs0, cur.value.id, UrlOnly(url)) && session.sent == sent0
    }

    /** The navigation half of `performSearch`: the home page has no view,
        so its tab's url changes; a page with a view is sent the new
        location; without a view the tab's url changes. */
    method NavigateTo(url: string)
      modifies session`tabs, session`sent
      ensures Navigated(old(session.tabs), old(session.sent), url)
    {
      var currentTab := CurrentTab(session.tabs, session.currentTabID);
      if currentTab.None? {
        return;
      }
      if session.HasRef() && currentTab.value.url != HomeUrl() {
        session.SendToCurrent(Navigate(url));
      } else {
        session.UpdateTab(currentTab.value.id, UrlOnly(url));
      }
    }

    /** `onShouldBlock(url)` of the current tab's view: the gate's verdict,
        counting every block once. */
    method OnShouldBlock(url: string, currentUrl: string) returns (blocked: bool)
      modifies session`adsBlocked
      ensures blocked == AdBlock.ShouldBlockRequest(url, currentUrl, session.userBlockedDomains)
      ensures session.adsBlocked == old(session.adsBlocked) + if blocked then 1 else 0
    {
      blocked := AdBlock.ShouldBlockRequest(url, currentUrl, session.userBlockedDomains);
      if blocked {
        session.adsBlocked := session.adsBlocked + 1;
      }
    }

    /** `toggleDomInspector`: flips the flag and sends the matching
        inspector script to the current view. */
    method ToggleDomInspector()
      modifies session`isInspectorActive, session`sent
      ensures session.isInspectorActive == !old(session.isInspectorActive)
      ensures session.sent == old(session.sent) + session.ToCurrent(DomInspector(session.isInspectorActive))
    {
      var newState := !session.isInspectorActive;
      session.isInspectorActive := newState;
      session.SendToCurrent(DomInspector(newState));
    }
  }
}
