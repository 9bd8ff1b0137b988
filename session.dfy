/** web/src/hooks/useBrowserLogic.js: the browser's session state (tabs,
    histories, rule lists, feature flags, developer-tool buffers) and the
    actions that replace it. Every `Storage.setItem` call is recorded in a
    write log; `generateUUID` and `Date.now` results are parameters. */
module Session {
  import opened Text
  import opened Lists
  import opened BrowserTypes
  import opened Bus

  // ----------------------------------------------------------------------
  // Persistence
  // ----------------------------------------------------------------------

  /** What `saveTabsState` keeps of a tab. */
  datatype SavedTab = SavedTab(id: string, title: string, url: string)

  /** A value handed to `Storage.setItem`. */
  datatype Stored =
    | SavedTabs(tabs: seq<SavedTab>)
    | ActiveTab(id: Option<string>)
    | Strings(items: seq<string>)
    | HistoryList(history: seq<HistoryItem>)
    | WebsiteList(websites: seq<Website>)
    | ScriptList(scripts: seq<UserScript>)
    | Flag(on: bool)
    | EngineName(name: string)

  /** One `Storage.setItem(key, value)` call. */
  datatype Write = Write(key: string, value: Stored)

  function TabsKey(): string { "browser_saved_tabs_list" }
  function ActiveTabKey(): string { "browser_last_active_tab_id" }
  function SearchHistoryKey(): string { "user_search_history" }
  function HistoryKey(): string { "browser_history_data" }
  function WebsitesKey(): string { "saved_websites" }
  function ScriptsKey(): string { "user_custom_scripts" }
  function RulesKey(): string { "user_custom_block_rules" }
  function DomainsKey(): string { "user_blocked_domains" }
  function DarkModeKey(): string { "browser_forced_dark_mode_key" }
  function DesktopModeKey(): string { "browser_desktop_mode" }
  function EngineKey(): string { "browser_search_engine" }

  /** `newTabs.map(t => ({id, title, url}))` */
  function Summaries(tabs: seq<Tab>): (r: seq<SavedTab>)
    decreases |tabs|
  {
    if |tabs| == 0 then []
    else [SavedTab(tabs[0].id, tabs[0].title, tabs[0].url)] + Summaries(tabs[1..])
  }

  /** The saved list has one entry per tab, with that tab's id, title and
      url and nothing else. */
  lemma {:induction false} SummariesKeepIdTitleUrl(tabs: seq<Tab>)
    ensures |Summaries(tabs)| == |tabs|
    ensures forall i :: 0 <= i < |tabs| ==>
              Summaries(tabs)[i] == SavedTab(tabs[i].id, tabs[i].title, tabs[i].url)
    decreases |tabs|
  {
    if |tabs| > 0 {
      SummariesKeepIdTitleUrl(tabs[1..]);
    }
  }

  /** The two writes of `saveTabsState`. */
  function TabWrites(tabs: seq<Tab>, current: Option<string>): seq<Write> {
    [Write(TabsKey(), SavedTabs(Summaries(tabs))), Write(ActiveTabKey(), ActiveTab(current))]
  }

  // ----------------------------------------------------------------------
  // Tabs as values
  // ----------------------------------------------------------------------

  /** `tabs.findIndex(t => t.id === id)` */
  function IndexOfTab(tabs: seq<Tab>, id: string): (r: int)
    ensures -1 <= r < |tabs|
    ensures r >= 0 ==> tabs[r].id == id
    decreases |tabs|
  {
    if |tabs| == 0 then -1
    else if tabs[0].id == id then 0
    else
      var r := IndexOfTab(tabs[1..], id);
      if r < 0 then -1 else r + 1
  }

  /** The index found is the first tab with that id, and -1 means there is
      none. */
  lemma {:induction false} IndexOfTabFirst(tabs: seq<Tab>, id: string)
    ensures forall k :: 0 <= k < |tabs| && (IndexOfTab(tabs, id) < 0 || k < IndexOfTab(tabs, id)) ==> tabs[k].id != id
    decreases |tabs|
  {
    if |tabs| > 0 && tabs[0].id != id {
      IndexOfTabFirst(tabs[1..], id);
      forall k | 1 <= k < |tabs| ensures tabs[k].id == tabs[1..][k - 1].id { }
    }
  }

  predicate HasTab(tabs: seq<Tab>, id: string) {
    IndexOfTab(tabs, id) >= 0
  }

  lemma HasTabAt(tabs: seq<Tab>, k: int)
    requires 0 <= k < |tabs|
    ensures HasTab(tabs, tabs[k].id)
  {
    IndexOfTabFirst(tabs, tabs[k].id);
  }

  ghost predicate DistinctIds(tabs: seq<Tab>) {
    forall i, j :: 0 <= i < j < |tabs| ==> tabs[i].id != tabs[j].id
  }

  /** The session's tab invariant: a tab exists, ids are distinct (they are
      UUIDs), and the active id names one of the tabs. */
  ghost predicate TabsInvariant(tabs: seq<Tab>, current: Option<string>) {
    |tabs| >= 1 && DistinctIds(tabs) && current.Some? && HasTab(tabs, current.value)
  }

  /** `tabs.filter(t => t.id !== id)` */
  function WithoutTab(tabs: seq<Tab>, id: string): seq<Tab> {
    Filter(tabs, (t: Tab) => t.id != id)
  }

  /** With distinct ids, closing removes exactly the one tab and keeps the
      others in order. */
  lemma WithoutTabRemovesOne(tabs: seq<Tab>, id: string)
    requires DistinctIds(tabs) && HasTab(tabs, id)
    ensures var k := IndexOfTab(tabs, id);
            WithoutTab(tabs, id) == tabs[..k] + tabs[k + 1..]
  {
    var k := IndexOfTab(tabs, id);
    assert forall i :: 0 <= i < |tabs| && i != k ==> tabs[i].id != id by {
      forall i | 0 <= i < |tabs| && i != k ensures tabs[i].id != id {
        if i < k { assert tabs[i].id != tabs[k].id; } else { assert tabs[k].id != tabs[i].id; }
      }
    }
    FilterRemovesAt(tabs, id, k);
  }

  lemma {:induction false} FilterRemovesAt(tabs: seq<Tab>, id: string, k: int)
    requires 0 <= k < |tabs| && tabs[k].id == id
    requires forall i :: 0 <= i < |tabs| && i != k ==> tabs[i].id != id
    ensures WithoutTab(tabs, id) == tabs[..k] + tabs[k + 1..]
    decreases |tabs|
  {
    var keep := (t: Tab) => t.id != id;
    if k == 0 {
      FilterKeepsAll(tabs[1..], keep);
    } else {
      FilterRemovesAt(tabs[1..], id, k - 1);
      assert tabs[..k] == [tabs[0]] + tabs[1..][..k - 1];
      assert tabs[k + 1..] == tabs[1..][k..];
    }
  }

  /** Removing one entry keeps the ids distinct. */
  lemma DistinctRemoveAt(tabs: seq<Tab>, k: int)
    requires 0 <= k < |tabs| && DistinctIds(tabs)
    ensures var rest := tabs[..k] + tabs[k + 1..];
            && |rest| == |tabs| - 1
            && (forall i :: 0 <= i < |rest| ==> rest[i] == if i < k then tabs[i] else tabs[i + 1])
            && DistinctIds(rest)
  {
    var rest := tabs[..k] + tabs[k + 1..];
    assert forall i :: 0 <= i < |rest| ==> rest[i] == if i < k then tabs[i] else tabs[i + 1];
    forall i, j | 0 <= i < j < |rest| ensures rest[i].id != rest[j].id {
      var i' := if i < k then i else i + 1;
      var j' := if j < k then j else j + 1;
      assert rest[i] == tabs[i'] && rest[j] == tabs[j'] && i' < j';
    }
  }

  /** The index `closeTab` activates among the remaining tabs. */
  function NextActiveIndex(index: nat): nat {
    if index == 0 then 0 else index - 1
  }

  /** Whether `closeTab(id)` changes anything: more than one tab, a tab with
      that id, and (when it is the active one) a neighbour to activate. */
  predicate CloseApplies(tabs: seq<Tab>, current: Option<string>, id: string) {
    |tabs| != 1 && HasTab(tabs, id)
    && (current == Some(id) ==> NextActiveIndex(IndexOfTab(tabs, id)) < |WithoutTab(tabs, id)|)
  }

  /** The active id after `closeTab(id)`. */
  function ClosedActive(tabs: seq<Tab>, current: Option<string>, id: string): Option<string>
    requires CloseApplies(tabs, current, id)
  {
    if current == Some(id) then Some(WithoutTab(tabs, id)[NextActiveIndex(IndexOfTab(tabs, id))].id)
    else current
  }

  /** Closing a tab of a session that keeps the invariant keeps it: the
      close applies whenever there is more than one tab and the id is known,
      the tab before the closed one becomes active (the one after it when
      the first tab was closed), and the other tabs stay in order. */
  lemma CloseKeepsInvariant(tabs: seq<Tab>, current: Option<string>, id: string)
    requires TabsInvariant(tabs, current) && |tabs| > 1 && HasTab(tabs, id)
    ensures CloseApplies(tabs, current, id)
    ensures var k := IndexOfTab(tabs, id);
            && WithoutTab(tabs, id) == tabs[..k] + tabs[k + 1..]
            && (current == Some(id) ==> ClosedActive(tabs, current, id) == Some(if k == 0 then tabs[1].id else tabs[k - 1].id))
            && TabsInvariant(WithoutTab(tabs, id), ClosedActive(tabs, current, id))
  {
    var k := IndexOfTab(tabs, id);
    WithoutTabRemovesOne(tabs, id);
    DistinctRemoveAt(tabs, k);
    var rest := WithoutTab(tabs, id);
    assert |rest| == |tabs| - 1;
    assert CloseApplies(tabs, current, id);
    if current != Some(id) {
      var c := IndexOfTab(tabs, current.value);
      var j := if c < k then c else c - 1;
      assert rest[j] == tabs[c];
      HasTabAt(rest, j);
      assert ClosedActive(tabs, current, id) == current;
    } else {
      var n := NextActiveIndex(k);
      assert rest[n] == (if k == 0 then tabs[1] else tabs[k - 1]);
      HasTabAt(rest, n);
    }
  }

  /** The fields a caller of `updateTab` may pass. */
  datatype TabUpdate = TabUpdate(url: Option<string>, title: Option<string>, isLoading: Option<bool>,
                                 canGoBack: Option<bool>, canGoForward: Option<bool>)

  function Pick<T>(update: Option<T>, current: T): T {
    if update.Some? then update.value else current
  }

  /** `{ ...t, ...updates }` */
  function ApplyUpdate(t: Tab, u: TabUpdate): (r: Tab)
    ensures r.id == t.id
  {
    Tab(t.id, Pick(u.title, t.title), Pick(u.url, t.url),
        Pick(u.isLoading, t.isLoading), Pick(u.canGoBack, t.canGoBack), Pick(u.canGoForward, t.canGoForward))
  }

  /** `prev.map(t => t.id === id ? { ...t, ...updates } : t)` */
  function UpdateTabs(tabs: seq<Tab>, id: string, u: TabUpdate): (r: seq<Tab>)
    decreases |tabs|
  {
    if |tabs| == 0 then []
    else [if tabs[0].id == id then ApplyUpdate(tabs[0], u) else tabs[0]] + UpdateTabs(tabs[1..], id, u)
  }

  /** Length and order stay; the tabs with that id take the update, every
      other tab is untouched, and no id changes. */
  lemma {:induction false} UpdateTabsTouchesOnlyId(tabs: seq<Tab>, id: string, u: TabUpdate)
    ensures |UpdateTabs(tabs, id, u)| == |tabs|
    ensures forall i :: 0 <= i < |tabs| ==>
              UpdateTabs(tabs, id, u)[i].id == tabs[i].id
              && (tabs[i].id == id ==> UpdateTabs(tabs, id, u)[i] == ApplyUpdate(tabs[i], u))
              && (tabs[i].id != id ==> UpdateTabs(tabs, id, u)[i] == tabs[i])
    decreases |tabs|
  {
    if |tabs| > 0 {
      UpdateTabsTouchesOnlyId(tabs[1..], id, u);
    }
  }

  /** Applying the same update twice is applying it once. */
  lemma UpdateTabsIdempotent(tabs: seq<Tab>, id: string, u: TabUpdate)
    ensures UpdateTabs(UpdateTabs(tabs, id, u), id, u) == UpdateTabs(tabs, id, u)
  {
    var once := UpdateTabs(tabs, id, u);
    UpdateTabsTouchesOnlyId(tabs, id, u);
    UpdateTabsTouchesOnlyId(once, id, u);
  }

  /** Updating keeps the tab invariant, since ids do not change. */
  lemma UpdateKeepsInvariant(tabs: seq<Tab>, current: Option<string>, id: string, u: TabUpdate)
    requires TabsInvariant(tabs, current)
    ensures TabsInvariant(UpdateTabs(tabs, id, u), current)
  {
    UpdateTabsTouchesOnlyId(tabs, id, u);
    var r := UpdateTabs(tabs, id, u);
    var c := IndexOfTab(tabs, current.value);
    assert r[c].id == current.value;
    HasTabAt(r, c);
  }

  /** The tab `addNewTab` creates. */
  function NewTab(id: string, url: string): Tab {
    Tab(id, "صفحة رئيسية", url, false, false, false)
  }

  /** Appending a tab with a fresh id and activating it keeps the invariant,
      whatever held of the active id before. */
  lemma AddKeepsInvariant(tabs: seq<Tab>, id: string, url: string)
    requires DistinctIds(tabs) && !HasTab(tabs, id)
    ensures TabsInvariant(tabs + [NewTab(id, url)], Some(id))
  {
    var r := tabs + [NewTab(id, url)];
    HasTabAt(r, |tabs|);
    IndexOfTabFirst(tabs, id);
  }

  // ----------------------------------------------------------------------
  // Lists of strings
  // ----------------------------------------------------------------------

  /** `list.filter(q => q !== x)` */
  function Without(xs: seq<string>, x: string): seq<string> {
    Filter(xs, (q: string) => q != x)
  }

  /** `[query, ...searchHistory.filter(q => q !== query)].slice(0, 20)` */
  function PushQuery(searchHistory: seq<string>, query: string): seq<string> {
    Take([query] + Without(searchHistory, query), 20)
  }

  /** The query comes first and only once, at most 20 entries remain, and
      every other entry is an earlier one. */
  lemma PushQuerySound(searchHistory: seq<string>, query: string)
    ensures var r := PushQuery(searchHistory, query);
            && 1 <= |r| <= 20 && r[0] == query
            && (forall i :: 1 <= i < |r| ==> r[i] != query && r[i] in searchHistory)
  {
    var r := PushQuery(searchHistory, query);
    forall i | 1 <= i < |r| ensures r[i] != query && r[i] in searchHistory {
      FilterMembers(searchHistory, (q: string) => q != query, r[i]);
    }
  }

  /** `domain.trim().toLowerCase()` */
  function CleanDomain(domain: string): string {
    Lower(Trim(domain))
  }

  /** A stored domain has no capitals and no surrounding white space. */
  lemma CleanDomainIsClean(domain: string)
    ensures var c := CleanDomain(domain);
            && Lower(c) == c
            && (|c| > 0 ==> !IsSpace(c[0]) && !IsSpace(c[|c| - 1]))
  {
    LowerIdempotent(Trim(domain));
    TrimEdges(domain);
  }

  /** `addWebsite`'s address: kept when it starts with `http` in any case,
      otherwise `https://` is put in front. */
  function WebsiteUrl(url: string): string {
    if IsPrefix("http", Lower(url)) then url else "https://" + url
  }

  lemma WebsiteUrlIsHttp(url: string)
    ensures IsPrefix("http", Lower(WebsiteUrl(url)))
    ensures IsPrefix("http", Lower(url)) <==> WebsiteUrl(url) == url
  {
    if !IsPrefix("http", Lower(url)) {
      var w := "https://" + url;
      LowerConcat("https://", url);
      assert Lower("https://") == "https://";
      assert Lower(w)[..4] == "http";
      assert w != url by {
        assert |w| > |url|;
      }
    }
  }

  /** `addToHistory`'s guard on its arguments. */
  predicate HistoryWorthy(title: string, url: string) {
    title != "" && url != "" && url != "about:blank" && url != HomeUrl()
  }

  /** The newest entry is the same address, less than a minute old. A date
      the host cannot parse never counts as recent. */
  predicate RecentRepeat(history: seq<HistoryItem>, url: string, now: int) {
    |history| > 0 && history[0].url == url
    && history[0].date.Some? && now - history[0].date.value < 60000
  }

  /** `[newItem, ...history].slice(0, 1000)` */
  function PushHistory(history: seq<HistoryItem>, item: HistoryItem): seq<HistoryItem> {
    Take([item] + history, 1000)
  }

  lemma PushHistorySound(history: seq<HistoryItem>, item: HistoryItem)
    ensures var r := PushHistory(history, item);
            && 1 <= |r| <= 1000 && r[0] == item
            && r[1..] == Take(history, 999)
  {
  }

  // ----------------------------------------------------------------------
  // The session
  // ----------------------------------------------------------------------

  /** A developer-console line as the host stores it. */
  datatype ConsoleEntry = ConsoleEntry(id: string, level: Level, message: string, timestamp: string)

  /** What the host asks of the current tab's web view. */
  datatype ViewCommand =
    | Reload
    | EnableTranslation
    | DisableTranslation
    | AddCustomRule(selector: string)
    | Navigate(url: string)
    | DomInspector(on: bool)

  /** A command sent to the web view of a tab. */
  datatype Sent = Sent(tab: string, command: ViewCommand)

  class BrowserSession {
    var tabs: seq<Tab>
    var currentTabID: Option<string>
    var websites: seq<Website>
    var history: seq<HistoryItem>
    var adsBlocked: nat
    var searchEngine: string
    var searchHistory: seq<string>
    var isForcedDarkMode: bool
    var isDesktopMode: bool
    var isTranslatorActive: bool
    var isIncognito: bool
    var consoleLogs: seq<ConsoleEntry>
    var networkLogs: seq<NetworkEntry>
    var storageData: Option<StorageSnapshot>
    var customBlockRules: seq<string>
    var userBlockedDomains: seq<string>
    var userScripts: seq<UserScript>
    var inspectedElement: Option<InspectedElement>
    var isInspectorActive: bool
    /** The tab ids whose web view has registered a ref in `webViewRefs`. */
    var mounted: set<string>
    /** Commands injected into web views, in order. */
    var sent: seq<Sent>
    /** `Storage.setItem` calls, in order. */
    var writes: seq<Write>

    ghost predicate Valid()
      reads this
    {
      TabsInvariant(tabs, currentTabID)
    }

    /** `webViewRefs.current[currentTabID]` is set. */
    predicate HasRef()
      reads this
    {
      currentTabID.Some? && currentTabID.value in mounted
    }

    /** The commands a call injects: `command` into the current view when
        there is one, nothing otherwise. */
    function ToCurrent(command: ViewCommand): seq<Sent>
      reads this
    {
      if HasRef() then [Sent(currentTabID.value, command)] else []
    }

    /** The initial `useState` values. */
    constructor ()
      ensures tabs == [] && currentTabID == None && websites == [] && history == [] && adsBlocked == 0
      ensures searchEngine == "Google" && searchHistory == []
      ensures !isForcedDarkMode && !isDesktopMode && !isTranslatorActive && !isIncognito
      ensures consoleLogs == [] && networkLogs == [] && storageData == None
      ensures customBlockRules == [] && userBlockedDomains == [] && userScripts == []
      ensures inspectedElement == None && !isInspectorActive
      ensures mounted == {} && sent == [] && writes == []
    {
      tabs, currentTabID := [], None;
      websites, history, adsBlocked := [], [], 0;
      searchEngine, searchHistory := "Google", [];
      isForcedDarkMode, isDesktopMode, isTranslatorActive, isIncognito := false, false, false, false;
      consoleLogs, networkLogs, storageData := [], [], None;
      customBlockRules, userBlockedDomains, userScripts := [], [], [];
      inspectedElement, isInspectorActive := None, false;
      mounted, sent, writes := {}, [], [];
    }

    /** Injects a command into the current tab's view when it has one. */
    method SendToCurrent(command: ViewCommand)
      modifies this`sent
      ensures sent == old(sent) + old(ToCurrent(command))
    {
      if HasRef() {
        sent := sent + [Sent(currentTabID.value, command)];
      }
    }

    /** `saveTabsState`: nothing while incognito, otherwise the tab summaries
        and the active id. */
    method SaveTabsState(newTabs: seq<Tab>, newCurrentID: Option<string>)
      modifies this`writes
      ensures writes == old(writes) + if isIncognito then [] else TabWrites(newTabs, newCurrentID)
    {
      if isIncognito {
        return;
      }
      writes := writes + TabWrites(newTabs, newCurrentID);
    }

    /** The tab part of `loadData`: the saved tabs and active id, or one new
        home tab when nothing was saved. An empty saved id counts as absent. */
    method LoadTabs(savedTabs: seq<Tab>, lastActive: Option<string>, newId: string)
      modifies this`tabs, this`currentTabID, this`writes
      ensures |tabs| >= 1
      ensures |savedTabs| > 0 ==>
                && tabs == savedTabs && writes == old(writes)
                && currentTabID == Some(if lastActive.Some? && lastActive.value != "" then lastActive.value else savedTabs[0].id)
      ensures |savedTabs| == 0 ==>
                && tabs == old(tabs) + [NewTab(newId, HomeUrl())] && currentTabID == Some(newId)
                && writes == old(writes) + if isIncognito then [] else TabWrites(tabs, Some(newId))
    {
      if |savedTabs| > 0 {
        tabs := savedTabs;
        currentTabID := Some(if lastActive.Some? && lastActive.value != "" then lastActive.value else savedTabs[0].id);
      } else {
        AddNewTab(newId, HomeUrl());
      }
    }

    /** `addNewTab(url)`; the default url is `zeus://home`. */
    method AddNewTab(id: string, url: string)
      modifies this`tabs, this`currentTabID, this`writes
      ensures tabs == old(tabs) + [NewTab(id, url)] && currentTabID == Some(id)
      ensures writes == old(writes) + if isIncognito then [] else TabWrites(tabs, Some(id))
      ensures DistinctIds(old(tabs)) && !HasTab(old(tabs), id) ==> Valid()
    {
      var newTabs := tabs + [NewTab(id, url)];
      if DistinctIds(tabs) && !HasTab(tabs, id) {
        AddKeepsInvariant(tabs, id, url);
      }
      tabs := newTabs;
      currentTabID := Some(id);
      SaveTabsState(newTabs, Some(id));
    }

    /** `closeTab(id)`. With repeated ids the neighbour lookup can fall off
        the filtered list; the source then throws before any setter runs, so
        nothing changes. */
    method CloseTab(id: string)
      modifies this`tabs, this`currentTabID, this`writes
      ensures !CloseApplies(old(tabs), old(currentTabID), id) ==>
                tabs == old(tabs) && currentTabID == old(currentTabID) && writes == old(writes)
      ensures CloseApplies(old(tabs), old(currentTabID), id) ==>
                && tabs == WithoutTab(old(tabs), id)
                && currentTabID == ClosedActive(old(tabs), old(currentTabID), id)
                && writes == old(writes) + if isIncognito then [] else TabWrites(tabs, currentTabID)
      ensures old(Valid()) ==> Valid()
    {
      if |tabs| == 1 {
        return;
      }
      var index := IndexOfTab(tabs, id);
      if index == -1 {
        return;
      }
      var newTabs := WithoutTab(tabs, id);
      if currentTabID == Some(id) && NextActiveIndex(index) >= |newTabs| {
        return;
      }
      if Valid() {
        CloseKeepsInvariant(tabs, currentTabID, id);
      }
      var active := ClosedActive(tabs, currentTabID, id);
      SaveTabsState(newTabs, active);
      tabs, currentTabID := newTabs, active;
    }

    /** `selectTab(id)`: activates the id, saves, and resets the per-tab
        developer-tool state. The id is not checked. */
    method SelectTab(id: string)
      modifies this`currentTabID, this`writes, this`consoleLogs, this`networkLogs
      modifies this`inspectedElement, this`isInspectorActive, this`isTranslatorActive
      ensures currentTabID == Some(id)
      ensures writes == old(writes) + if isIncognito then [] else TabWrites(tabs, Some(id))
      ensures consoleLogs == [] && networkLogs == [] && inspectedElement == None
      ensures !isInspectorActive && !isTranslatorActive
      ensures |tabs| >= 1 && DistinctIds(tabs) ==> (Valid() <==> HasTab(tabs, id))
    {
      currentTabID := Some(id);
      SaveTabsState(tabs, Some(id));
      consoleLogs, networkLogs, inspectedElement := [], [], None;
      isInspectorActive, isTranslatorActive := false, false;
    }

    /** `updateTab(id, updates)` */
    method UpdateTab(id: string, u: TabUpdate)
      modifies this`tabs
      ensures tabs == UpdateTabs(old(tabs), id, u)
      ensures old(Valid()) ==> Valid()
    {
      if Valid() {
        UpdateKeepsInvariant(tabs, currentTabID, id, u);
      }
      tabs := UpdateTabs(tabs, id, u);
    }

    method ChangeSearchEngine(engineName: string)
      modifies this`searchEngine, this`writes
      ensures searchEngine == engineName
      ensures writes == old(writes) + [Write(EngineKey(), EngineName(engineName))]
    {
      searchEngine := engineName;
      writes := writes + [Write(EngineKey(), EngineName(engineName))];
    }

    /** `addSearchQuery`: ignored while incognito or for a blank query. */
    method AddSearchQuery(query: string)
      modifies this`searchHistory, this`writes
      ensures isIncognito || Trim(query) == "" ==> searchHistory == old(searchHistory) && writes == old(writes)
      ensures !isIncognito && Trim(query) != "" ==>
                && searchHistory == PushQuery(old(searchHistory), query)
                && writes == old(writes) + [Write(SearchHistoryKey(), Strings(searchHistory))]
    {
      if isIncognito || Trim(query) == "" {
        return;
      }
      searchHistory := PushQuery(searchHistory, query);
      writes := writes + [Write(SearchHistoryKey(), Strings(searchHistory))];
    }

    method RemoveSearchQuery(query: string)
      modifies this`searchHistory, this`writes
      ensures searchHistory == Without(old(searchHistory), query)
      ensures writes == old(writes) + [Write(SearchHistoryKey(), Strings(searchHistory))]
    {
      searchHistory := Without(searchHistory, query);
      writes := writes + [Write(SearchHistoryKey(), Strings(searchHistory))];
    }

    /** `toggleTranslator`: needs the current view; flips the flag and
        injects the matching translation script. */
    method ToggleTranslator()
      modifies this`isTranslatorActive, this`sent
      ensures !HasRef() ==> isTranslatorActive == old(isTranslatorActive) && sent == old(sent)
      ensures HasRef() ==>
                && isTranslatorActive == !old(isTranslatorActive)
                && sent == old(sent) + [Sent(currentTabID.value, if isTranslatorActive then EnableTranslation else DisableTranslation)]
    {
      if !HasRef() {
        return;
      }
      if isTranslatorActive {
        isTranslatorActive := false;
        SendToCurrent(DisableTranslation);
      } else {
        isTranslatorActive := true;
        SendToCurrent(EnableTranslation);
      }
    }

    /** `toggleDesktopMode`: flips, saves, and reloads the current view. */
    method ToggleDesktopMode()
      modifies this`isDesktopMode, this`writes, this`sent
      ensures isDesktopMode == !old(isDesktopMode)
      ensures writes == old(writes) + [Write(DesktopModeKey(), Flag(isDesktopMode))]
      ensures sent == old(sent) + ToCurrent(Reload)
    {
      isDesktopMode := !isDesktopMode;
      writes := writes + [Write(DesktopModeKey(), Flag(isDesktopMode))];
      SendToCurrent(Reload);
    }

    method ToggleDarkMode()
      modifies this`isForcedDarkMode, this`writes
      ensures isForcedDarkMode == !old(isForcedDarkMode)
      ensures writes == old(writes) + [Write(DarkModeKey(), Flag(isForcedDarkMode))]
    {
      isForcedDarkMode := !isForcedDarkMode;
      writes := writes + [Write(DarkModeKey(), Flag(isForcedDarkMode))];
    }

    /** `toggleIncognito`; its alerts are not modelled. */
    method ToggleIncognito()
      modifies this`isIncognito
      ensures isIncognito == !old(isIncognito)
    {
      isIncognito := !isIncognito;
    }

    /** `saveUserScripts`: stores the list and reloads the current view. */
    method SaveUserScripts(scripts: seq<UserScript>)
      modifies this`userScripts, this`writes, this`sent
      ensures userScripts == scripts
      ensures writes == old(writes) + [Write(ScriptsKey(), ScriptList(scripts))]
      ensures sent == old(sent) + ToCurrent(Reload)
    {
      userScripts := scripts;
      writes := writes + [Write(ScriptsKey(), ScriptList(scripts))];
      SendToCurrent(Reload);
    }

    /** `addBlockRule`: appends, saves, and applies it to the open page. */
    method AddBlockRule(selector: string)
      modifies this`customBlockRules, this`writes, this`sent
      ensures customBlockRules == old(customBlockRules) + [selector]
      ensures writes == old(writes) + [Write(RulesKey(), Strings(customBlockRules))]
      ensures sent == old(sent) + ToCurrent(AddCustomRule(selector))
    {
      customBlockRules := customBlockRules + [selector];
      writes := writes + [Write(RulesKey(), Strings(customBlockRules))];
      SendToCurrent(AddCustomRule(selector));
    }

    method RemoveBlockRule(rule: string)
      modifies this`customBlockRules, this`writes
      ensures customBlockRules == Without(old(customBlockRules), rule)
      ensures writes == old(writes) + [Write(RulesKey(), Strings(customBlockRules))]
    {
      customBlockRules := Without(customBlockRules, rule);
      writes := writes + [Write(RulesKey(), Strings(customBlockRules))];
    }

    /** `addBlockedDomain`: stores the trimmed lower-case domain unless it is
        blank; a repeat is appended again. */
    method AddBlockedDomain(domain: string)
      modifies this`userBlockedDomains, this`writes
      ensures CleanDomain(domain) == "" ==> userBlockedDomains == old(userBlockedDomains) && writes == old(writes)
      ensures CleanDomain(domain) != "" ==>
                && userBlockedDomains == old(userBlockedDomains) + [CleanDomain(domain)]
                && writes == old(writes) + [Write(DomainsKey(), Strings(userBlockedDomains))]
    {
      var clean := CleanDomain(domain);
      if clean == "" {
        return;
      }
      userBlockedDomains := userBlockedDomains + [clean];
      writes := writes + [Write(DomainsKey(), Strings(userBlockedDomains))];
    }

    method RemoveBlockedDomain(domain: string)
      modifies this`userBlockedDomains, this`writes
      ensures userBlockedDomains == Without(old(userBlockedDomains), domain)
      ensures writes == old(writes) + [Write(DomainsKey(), Strings(userBlockedDomains))]
    {
      userBlockedDomains := Without(userBlockedDomains, domain);
      writes := writes + [Write(DomainsKey(), Strings(userBlockedDomains))];
    }

    /** `addToHistory(title, url)` at time `now`, with `newId` the fresh
        UUID. */
    method AddToHistory(title: string, url: string, newId: string, now: int)
      modifies this`history, this`writes
      ensures isIncognito || !HistoryWorthy(title, url) || RecentRepeat(old(history), url, now) ==>
                history == old(history) && writes == old(writes)
      ensures !isIncognito && HistoryWorthy(title, url) && !RecentRepeat(old(history), url, now) ==>
                && history == PushHistory(old(history), HistoryItem(newId, title, url, Some(now)))
                && writes == old(writes) + [Write(HistoryKey(), HistoryList(history))]
    {
      if isIncognito {
        return;
      }
      if title == "" || url == "" || url == "about:blank" || url == HomeUrl() {
        return;
      }
      if |history| > 0 {
        var first := history[0];
        if first.url == url && first.date.Some? && now - first.date.value < 60000 {
          return;
        }
      }
      history := PushHistory(history, HistoryItem(newId, title, url, Some(now)));
      writes := writes + [Write(HistoryKey(), HistoryList(history))];
    }

    /** `addWebsite(name, url)` at time `now`, with `newId` the fresh UUID. */
    method AddWebsite(name: string, url: string, newId: string, now: int)
      modifies this`websites, this`writes
      ensures websites == [Website(newId, name, WebsiteUrl(url), now)] + old(websites)
      ensures writes == old(writes) + [Write(WebsitesKey(), WebsiteList(websites))]
    {
      websites := [Website(newId, name, WebsiteUrl(url), now)] + websites;
      writes := writes + [Write(WebsitesKey(), WebsiteList(websites))];
    }

    method DeleteWebsite(id: string)
      modifies this`websites, this`writes
      ensures websites == Filter(old(websites), (w: Website) => w.id != id)
      ensures writes == old(writes) + [Write(WebsitesKey(), WebsiteList(websites))]
    {
      websites := Filter(websites, (w: Website) => w.id != id);
      writes := writes + [Write(WebsitesKey(), WebsiteList(websites))];
    }

    method DeleteHistoryItem(id: string)
      modifies this`history, this`writes
      ensures history == Filter(old(history), (item: HistoryItem) => item.id != id)
      ensures writes == old(writes) + [Write(HistoryKey(), HistoryList(history))]
    {
      history := Filter(history, (item: HistoryItem) => item.id != id);
      writes := writes + [Write(HistoryKey(), HistoryList(history))];
    }

    method ClearAllHistory()
      modifies this`history, this`writes
      ensures history == []
      ensures writes == old(writes) + [Write(HistoryKey(), HistoryList([]))]
    {
      history := [];
      writes := writes + [Write(HistoryKey(), HistoryList([]))];
    }
  }

  /** Nothing the incognito guard covers reaches storage: saving tabs,
      recording a query and recording a visit each leave the write log as it
      was. */
  method IncognitoWritesNothing(s: BrowserSession, title: string, url: string, newId: string, now: int, query: string)
    requires s.isIncognito
    modifies s
    ensures s.writes == old(s.writes)
  {
    s.SaveTabsState(s.tabs, s.currentTabID);
    s.AddSearchQuery(query);
    s.AddToHistory(title, url, newId, now);
  }
}
