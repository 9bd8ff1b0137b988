/** web/src/core/AdBlockEngine.js: the request gate, the stylesheet and the
    user-script selection of the titanium injection, the page scrubber with
    its click interceptor, and the debounce timer that schedules it. */
module AdBlock {
  import opened Text
  import opened BrowserTypes

  /** The scrubber's bad words (`TitaniumRules.textFilters`). */
  function TextFilters(): seq<string> {
    ["skip ad", "تخطي الاعلان", "advertisement", "sponsored",
     "bc.game", "bet", "casino", "bonus", "deposit", "spin", "win", "تحميل التطبيق"]
  }

  /** The gate's built-in blacklist. */
  function Blacklist(): seq<string> {
    ["doubleclick.net", "googlesyndication", "facebook.com/tr", "google-analytics",
     "adnxs", "popcash", "popads", "mc.yandex.ru", "gemini", "exoclick", "propellerads",
     "juicyads", "adsterra", "trafficjunky"]
  }

  // ----------------------------------------------------------------------
  // The request gate
  // ----------------------------------------------------------------------

  function DropWww(s: string): string {
    if IsPrefix("www.", s) then s[4..] else s
  }

  /** `s.replace(/^https?:\/\/(www\.)?/, '')`: the `www.` goes only together
      with a scheme. */
  function StripSchemeWww(s: string): (r: string)
    ensures |r| <= |s| && r == s[|s| - |r|..]
    ensures !IsPrefix("http://", s) && !IsPrefix("https://", s) ==> r == s
  {
    if IsPrefix("http://", s) then DropWww(s[7..])
    else if IsPrefix("https://", s) then DropWww(s[8..])
    else s
  }

  /** The key a user entry is matched by, as written: the entry lowercased
      and run through the same regular expression as the URL, so a `www.`
      goes only together with a scheme. */
  function EntryKeyAsWritten(d: string): string {
    StripSchemeWww(Lower(d))
  }

  /** The key a user entry is matched by, as intended: a bare `www.` at the
      head of the entry goes too, as it does from the URL. */
  function EntryKey(d: string): (r: string)
    ensures !IsPrefix("www.", EntryKeyAsWritten(d)) ==> r == EntryKeyAsWritten(d)
    ensures IsPrefix("www.", EntryKeyAsWritten(d)) ==> "www." + r == EntryKeyAsWritten(d)
  {
    DropWww(EntryKeyAsWritten(d))
  }

  /** As written: some user entry's key occurs in the stripped URL. */
  predicate UserBlockedAsWritten(url: string, domains: seq<string>) {
    exists d :: d in domains && Contains(StripSchemeWww(Lower(url)), EntryKeyAsWritten(d))
  }

  /** As intended: some user entry, `www.` dropped, occurs in the stripped URL. */
  predicate UserBlocked(url: string, domains: seq<string>) {
    exists d :: d in domains && Contains(StripSchemeWww(Lower(url)), EntryKey(d))
  }

  predicate Whitelisted(url: string) {
    Contains(Lower(url), "cloudflare") || Contains(Lower(url), "challenge")
  }

  predicate Blacklisted(url: string) {
    ContainsAny(Lower(url), Blacklist())
  }

  /** `shouldBlockRequest` as written: user-blocked domains first, then the
      two whitelist words, then the blacklist. `currentUrl` is not
      consulted. */
  function ShouldBlockRequestAsWritten(url: string, currentUrl: string, userBlockedDomains: seq<string>): (block: bool)
    ensures block <==> UserBlockedAsWritten(url, userBlockedDomains) || (!Whitelisted(url) && Blacklisted(url))
  {
    var lowerUrl := Lower(url);
    if |userBlockedDomains| > 0
       && (exists d :: d in userBlockedDomains
                       && Contains(StripSchemeWww(lowerUrl), StripSchemeWww(Lower(d))))
    then true
    else if Contains(lowerUrl, "cloudflare") || Contains(lowerUrl, "challenge") then false
    else exists w :: w in Blacklist() && Contains(lowerUrl, w)
  }

  /** The entry `www.example.com` has no effect on `https://www.example.com/`:
      the URL loses its `www.` and the entry keeps it. */
  lemma WwwEntryMissesAsWritten(host: string, entry: string)
    requires host == "example.com/" && entry == "www.example.com"
    ensures !UserBlockedAsWritten("https://www." + host, [entry])
    ensures var url := "https://www." + host;
            ShouldBlockRequestAsWritten(url, "", [entry]) == (!Whitelisted(url) && Blacklisted(url))
  {
    LowerNoCapitals(host);
    LowerNoCapitals(entry);
    assert IsPrefix("www.", entry) by { assert entry[..4] == "www."; }
    assert "https://www." + host == "https://" + ("www." + host);
    WwwEntryMisses(host, entry);
  }

  /** The general shape: a `www.` entry longer than what the URL keeps after
      `https://www.` never matches it. */
  lemma WwwEntryMisses(host: string, entry: string)
    requires Lower(host) == host && Lower(entry) == entry
    requires IsPrefix("www.", entry) && |host| < |entry|
    ensures !UserBlockedAsWritten("https://" + ("www." + host), [entry])
  {
    var url := "https://" + ("www." + host);
    LowerConcat("https://", "www." + host);
    LowerConcat("www.", host);
    LowerNoCapitals("https://");
    LowerNoCapitals("www.");
    assert Lower(url) == url;
    StripHttpsWww(host);
    assert !IsPrefix("http://", entry) && !IsPrefix("https://", entry) by { assert entry[0] == 'w'; }
    assert EntryKeyAsWritten(entry) == entry;
    ContainsLength(host, entry);
  }

  /** `shouldBlockRequest` as intended: the same order of tests, with each
      user entry matched without its `www.`. */
  function ShouldBlockRequest(url: string, currentUrl: string, userBlockedDomains: seq<string>): (block: bool)
    ensures UserBlocked(url, userBlockedDomains) ==> block
    ensures !UserBlocked(url, userBlockedDomains) ==> (block <==> !Whitelisted(url) && Blacklisted(url))
  {
    var lowerUrl := Lower(url);
    if |userBlockedDomains| > 0
       && (exists d :: d in userBlockedDomains
                       && Contains(StripSchemeWww(lowerUrl), EntryKey(d)))
    then true
    else if Contains(lowerUrl, "cloudflare") || Contains(lowerUrl, "challenge") then false
    else exists w :: w in Blacklist() && Contains(lowerUrl, w)
  }

  /** Under the intended gate an entry `www.` + host blocks every page of
      that host reached through `https://www.`. */
  lemma WwwEntryBlocks(host: string, rest: string, currentUrl: string)
    ensures ShouldBlockRequest("https://www." + host + rest, currentUrl, ["www." + host])
  {
    var url := "https://www." + host + rest;
    var entry := "www." + host;
    StripHttpsWwwLower(host, rest);
    WwwEntryKey(host);
    assert IsPrefix(EntryKey(entry), StripSchemeWww(Lower(url)));
    assert entry in [entry];
    BlockedWhenUserBlocked(url, currentUrl, [entry], entry);
  }

  /** The URL side: `https://www.` comes off the lowercased URL. */
  lemma StripHttpsWwwLower(host: string, rest: string)
    ensures StripSchemeWww(Lower("https://www." + host + rest)) == Lower(host) + Lower(rest)
  {
    var url := "https://www." + host + rest;
    assert url == "https://" + ("www." + (host + rest));
    LowerConcat("https://", "www." + (host + rest));
    LowerConcat("www.", host + rest);
    LowerConcat(host, rest);
    LowerNoCapitals("https://");
    LowerNoCapitals("www.");
    StripHttpsWww(Lower(host) + Lower(rest));
  }

  /** The entry side: the intended key of `www.` + host is the host, lowercased. */
  lemma WwwEntryKey(host: string)
    ensures EntryKey("www." + host) == Lower(host)
  {
    var entry := "www." + host;
    LowerConcat("www.", host);
    LowerNoCapitals("www.");
    assert Lower(entry) == "www." + Lower(host);
    assert !IsPrefix("http://", Lower(entry)) && !IsPrefix("https://", Lower(entry)) by { assert Lower(entry)[0] == 'w'; }
    assert EntryKeyAsWritten(entry) == "www." + Lower(host);
    assert (EntryKeyAsWritten(entry))[..4] == "www.";
  }

  /** An entry whose key occurs in the stripped URL decides the gate. */
  lemma BlockedWhenUserBlocked(url: string, currentUrl: string, domains: seq<string>, d: string)
    requires d in domains && Contains(StripSchemeWww(Lower(url)), EntryKey(d))
    ensures UserBlocked(url, domains)
    ensures ShouldBlockRequest(url, currentUrl, domains)
  {
  }

  /** The correction only adds blocks: whatever the code as written blocks,
      the intended gate blocks too. */
  lemma IntendedBlocksMore(url: string, currentUrl: string, domains: seq<string>)
    ensures ShouldBlockRequestAsWritten(url, currentUrl, domains) ==> ShouldBlockRequest(url, currentUrl, domains)
  {
    if UserBlockedAsWritten(url, domains) {
      var d :| d in domains && Contains(StripSchemeWww(Lower(url)), EntryKeyAsWritten(d));
      if IsPrefix("www.", EntryKeyAsWritten(d)) {
        ContainsSuffix(StripSchemeWww(Lower(url)), "www.", EntryKey(d));
      }
      assert Contains(StripSchemeWww(Lower(url)), EntryKey(d));
    }
  }

  /** The two gates agree whenever no entry starts with a bare `www.`. */
  lemma GatesAgreeWithoutBareWww(url: string, currentUrl: string, domains: seq<string>)
    requires forall d :: d in domains ==> !IsPrefix("www.", EntryKeyAsWritten(d))
    ensures ShouldBlockRequestAsWritten(url, currentUrl, domains) == ShouldBlockRequest(url, currentUrl, domains)
  {
    assert UserBlockedAsWritten(url, domains) == UserBlocked(url, domains);
  }

  /** The decision does not see the URL's letter case. */
  lemma ShouldBlockIgnoresCase(url: string, currentUrl: string, domains: seq<string>)
    ensures ShouldBlockRequest(Lower(url), currentUrl, domains) == ShouldBlockRequest(url, currentUrl, domains)
  {
    LowerIdempotent(url);
  }

  /** An empty user domain (or one that strips to nothing) blocks every URL. */
  lemma EmptyDomainBlocksAll(url: string, currentUrl: string, domains: seq<string>)
    requires "" in domains
    ensures ShouldBlockRequest(url, currentUrl, domains)
  {
    ContainsEmpty(StripSchemeWww(Lower(url)));
    assert Contains(StripSchemeWww(Lower(url)), StripSchemeWww(Lower("")));
  }

  /** A user domain beats the whitelist: a matching cloudflare URL is blocked. */
  lemma UserDomainOverridesWhitelist(u: string, d: string)
    requires u == "https://www.cloudflare.com/x" && d == "cloudflare.com"
    ensures Whitelisted(u)
    ensures ShouldBlockRequest(u, "", [d])
  {
    var pre, rest := "https://www.", "/x";
    assert u == pre + d + rest;
    LowerNoCapitals(pre);
    LowerNoCapitals(d);
    LowerNoCapitals(rest);
    LowerConcat(pre, d);
    LowerConcat(pre + d, rest);
    assert IsPrefix("cloudflare", d) by { assert d[..10] == "cloudflare"; }
    ContainsInConcat(pre, d, rest, "cloudflare");
    assert d[0] == 'c';
    HostEntryBlocks(d, rest, "");
  }

  /** A lowercase entry with no scheme and no `www.` blocks every page of its
      host reached through `https://www.`. */
  lemma HostEntryBlocks(host: string, rest: string, currentUrl: string)
    requires Lower(host) == host
    requires |host| > 0 && host[0] != 'h' && host[0] != 'w'
    ensures ShouldBlockRequest("https://www." + host + rest, currentUrl, [host])
  {
    var url := "https://www." + host + rest;
    StripHttpsWwwLower(host, rest);
    assert EntryKey(host) == host;
    assert IsPrefix(host, host + Lower(rest));
    assert host in [host];
    BlockedWhenUserBlocked(url, currentUrl, [host], host);
  }

  lemma CloudflareUrlStrips(u: string)
    requires u == "https://www.cloudflare.com/x"
    ensures Lower(u) == u && StripSchemeWww(Lower(u)) == "cloudflare.com/x"
  {
    var scheme, www, rest := "https://", "www.", "cloudflare.com/x";
    assert u == scheme + (www + rest);
    LowerNoCapitals(scheme);
    LowerNoCapitals(www);
    LowerNoCapitals(rest);
    LowerConcat(www, rest);
    LowerConcat(scheme, www + rest);
    StripHttpsWww(rest);
  }

  /** `https://www.` comes off whole. */
  lemma StripHttpsWww(rest: string)
    ensures StripSchemeWww("https://" + ("www." + rest)) == rest
  {
    var s := "https://" + ("www." + rest);
    assert !IsPrefix("http://", s) by { assert s[4] != "http://"[4]; }
    assert s[..8] == "https://";
    assert s[8..] == "www." + rest;
    assert (s[8..])[..4] == "www.";
  }

  lemma CloudflareDomainStrips(d: string)
    requires d == "cloudflare.com"
    ensures StripSchemeWww(Lower(d)) == d && EntryKey(d) == d
  {
    assert Lower(d) == d;
    assert !IsPrefix("www.", d) by { assert d[0] != 'w'; }
    assert !IsPrefix("http://", d) by { assert d[0] != 'h'; }
    assert !IsPrefix("https://", d) by { assert d[0] != 'h'; }
  }

  /** The whitelist beats the blacklist. */
  lemma WhitelistOverridesBlacklist(url: string, currentUrl: string)
    requires Contains(Lower(url), "challenge")
    ensures !ShouldBlockRequest(url, currentUrl, [])
  {
  }

  /** Without user domains, a blacklisted and not whitelisted URL is blocked;
      `doubleclick.net/x` is one. */
  lemma DoubleclickBlocked()
    ensures ShouldBlockRequest("doubleclick.net/x", "", [])
  {
    var u := "doubleclick.net/x";
    assert Lower(u) == u;
    assert IsPrefix("doubleclick.net", u);
    assert Contains(u, Blacklist()[0]);
    NoWhitelistWord(u);
  }

  /** `example.com` is allowed. */
  lemma ExampleAllowed()
    ensures !ShouldBlockRequest("example.com", "", [])
  {
    var u := "example.com";
    assert Lower(u) == u;
    forall w | w in Blacklist() ensures !Contains(u, w) {
      ExampleFree(u, w);
    }
  }

  lemma ExampleFree(u: string, w: string)
    requires u == "example.com" && w in Blacklist()
    ensures !Contains(u, w)
  {
    NoOccurrence3(u, w);
  }

  /** `sub` does not occur in `s` when no position of `s` starts with the
      first two characters of `sub`. */
  lemma NoOccurrence(s: string, sub: string)
    requires |sub| >= 2
    requires forall i :: 0 <= i < |s| - 1 ==> s[i] != sub[0] || s[i + 1] != sub[1]
    ensures !Contains(s, sub)
  {
    ContainsIffOccurs(s, sub);
    forall i | OccursAt(s, sub, i) ensures false {
    }
  }

  /** The three-character form of `NoOccurrence`. */
  lemma NoOccurrence3(s: string, sub: string)
    requires |sub| >= 3
    requires forall i :: 0 <= i < |s| - 2 ==> s[i] != sub[0] || s[i + 1] != sub[1] || s[i + 2] != sub[2]
    ensures !Contains(s, sub)
  {
    ContainsIffOccurs(s, sub);
    forall i | OccursAt(s, sub, i) ensures false {
    }
  }

  lemma NoWhitelistWord(u: string)
    requires u == "doubleclick.net/x"
    ensures !Contains(u, "cloudflare") && !Contains(u, "challenge")
  {
    NoCloudflare(u);
    NoChallenge(u);
  }

  lemma NoCloudflare(u: string)
    requires u == "doubleclick.net/x"
    ensures !Contains(u, "cloudflare")
  {
    NoOccurrence3(u, "cloudflare");
  }

  lemma NoChallenge(u: string)
    requires u == "doubleclick.net/x"
    ensures !Contains(u, "challenge")
  {
    NoOccurrence(u, "challenge");
  }

  // ----------------------------------------------------------------------
  // The injected stylesheet
  // ----------------------------------------------------------------------

  /** The declaration block every hiding rule of the injection carries. */
  function HideBlock(): string { " { display: none !important; visibility: hidden !important; }" }

  /** `TitaniumRules.cssKillList`: the selectors every page hides. */
  function CssKillList(): seq<string> {
    [".ad", ".ads", ".banner", "[id^=\"ad-\"]", "[class^=\"ad-\"]",
     ".overlay", "#overlay", ".popup", "#popup",
     "[class*=\"floating\"]",
     "[style*=\"position: fixed\"][style*=\"bottom\"]",
     "[style*=\"z-index: 99999\"]", "iframe[src*=\"ads\"]", "iframe[src*=\"doubleclick\"]"]
  }

  /** `generalCss`: the kill list joined by `, `, under one hiding block. */
  function GeneralCss(): string {
    Join(CssKillList(), ", ") + HideBlock()
  }

  function CustomRules(rules: seq<string>): (r: seq<string>)
    ensures |r| == |rules|
    ensures forall i :: 0 <= i < |rules| ==> r[i] == rules[i] + HideBlock()
  {
    seq(|rules|, i requires 0 <= i < |rules| => rules[i] + HideBlock())
  }

  /** The stylesheet after a leading rule: a space, then one rule per custom
      selector, space-separated. */
  function Stylesheet(head: string, rules: seq<string>): string {
    head + " " + Join(CustomRules(rules), " ")
  }

  /** `combinedCss` */
  function CombinedCss(customBlockRules: seq<string>): string {
    Stylesheet(GeneralCss(), customBlockRules)
  }

  /** Every custom selector is hidden by a rule of its own, after the head. */
  lemma StylesheetHidesEveryRule(head: string, rules: seq<string>, k: int)
    requires 0 <= k < |rules|
    ensures IsPrefix(head + " ", Stylesheet(head, rules))
    ensures Contains(Stylesheet(head, rules), rules[k] + HideBlock())
  {
    JoinContainsPart(CustomRules(rules), " ", k);
    ContainsInConcat(head + " ", Join(CustomRules(rules), " "), "", rules[k] + HideBlock());
    assert head + " " + Join(CustomRules(rules), " ") + "" == Stylesheet(head, rules);
  }

  /** One more custom rule adds exactly one space-separated rule at the end;
      with none, the stylesheet is the head and a space. */
  lemma StylesheetAppend(head: string, rules: seq<string>, sel: string)
    ensures Stylesheet(head, []) == head + " "
    ensures |rules| > 0 ==> Stylesheet(head, rules + [sel]) == Stylesheet(head, rules) + " " + sel + HideBlock()
  {
    if |rules| > 0 {
      assert CustomRules(rules + [sel]) == CustomRules(rules) + [sel + HideBlock()];
      JoinAppend(CustomRules(rules), " ", sel + HideBlock());
    }
  }

  /** The rule `window.addCustomRule` appends at run time (it omits the
      visibility declaration). */
  function RuntimeRule(selector: string): string {
    " " + selector + " { display: none !important; }"
  }

  /** The `#titanium-style-blocker` element, kept as the rules it was given:
      the custom rules of the injection, then the selectors added at run
      time, in order. */
  datatype BlockerStyle = BlockerStyle(custom: seq<string>, runtime: seq<string>)

  /** The runtime rules, concatenated in the order they were added. */
  function RuntimeRules(selectors: seq<string>): string
    decreases |selectors|
  {
    if |selectors| == 0 then ""
    else RuntimeRules(selectors[..|selectors| - 1]) + RuntimeRule(selectors[|selectors| - 1])
  }

  /** The element's `textContent`. */
  function StyleText(b: BlockerStyle): string {
    CombinedCss(b.custom) + RuntimeRules(b.runtime)
  }

  /** A fresh element holds exactly `combinedCss`. */
  lemma FreshStyleText(rules: seq<string>)
    ensures StyleText(BlockerStyle(rules, [])) == CombinedCss(rules)
  {
    assert CombinedCss(rules) + "" == CombinedCss(rules);
  }

  /** `style.textContent += rule`: adding a selector appends its rule to the
      text and leaves the text before it unchanged. */
  lemma AddRuleAppends(b: BlockerStyle, selector: string)
    ensures StyleText(b.(runtime := b.runtime + [selector])) == StyleText(b) + RuntimeRule(selector)
  {
    var rs := b.runtime + [selector];
    assert rs[..|rs| - 1] == b.runtime;
  }

  // ----------------------------------------------------------------------
  // User scripts
  // ----------------------------------------------------------------------

  /** A script runs when active and its domain is `*` or occurs in the href. */
  predicate ShouldRun(s: UserScript, href: string) {
    s.active && (s.domain == "*" || Contains(href, s.domain))
  }

  /** The scripts that run on `href`, in list order. */
  function SelectScripts(scripts: seq<UserScript>, href: string): seq<UserScript>
    decreases |scripts|
  {
    if |scripts| == 0 then []
    else
      var last := scripts[|scripts| - 1];
      SelectScripts(scripts[..|scripts| - 1], href) + (if ShouldRun(last, href) then [last] else [])
  }

  lemma {:induction false} SelectScriptsIff(scripts: seq<UserScript>, href: string, s: UserScript)
    ensures s in SelectScripts(scripts, href) <==> s in scripts && ShouldRun(s, href)
    decreases |scripts|
  {
    if |scripts| > 0 {
      var init := scripts[..|scripts| - 1];
      SelectScriptsIff(init, href, s);
      assert scripts == init + [scripts[|scripts| - 1]];
    }
  }

  /** The user-script block: every selected script is evaluated in its own
      try, so a throwing script (one in `throwing`) does not stop later ones.
      Returns the scripts run, in order, and those that threw. */
  method RunUserScripts(scripts: seq<UserScript>, href: string, throwing: set<UserScript>)
    returns (ran: seq<UserScript>, failed: seq<UserScript>)
    ensures ran == SelectScripts(scripts, href)
    ensures forall s :: s in failed <==> s in ran && s in throwing
  {
    ran, failed := [], [];
    var i := 0;
    while i < |scripts|
      invariant 0 <= i <= |scripts|
      invariant ran == SelectScripts(scripts[..i], href)
      invariant forall s :: s in failed <==> s in ran && s in throwing
    {
      var script := scripts[i];
      assert scripts[..i + 1][..i] == scripts[..i];
      if script.active && (script.domain == "*" || Contains(href, script.domain)) {
        ran := ran + [script];
        if script in throwing {
          failed := failed + [script];
        }
      }
      i := i + 1;
    }
    assert scripts[..i] == scripts;
  }

  // ----------------------------------------------------------------------
  // The scrubber (`aggressiveClean`)
  // ----------------------------------------------------------------------

  /** An anchor: its `target` attribute (None when absent), its resolved
      `href`, and whether a click blocker is attached. */
  datatype Anchor = Anchor(target: Option<string>, href: string, clickBlocked: bool)

  function NeutralHref(): string { "javascript:void(0)" }

  predicate BadHref(href: string) {
    Contains(Lower(href), "bc.game") || Contains(Lower(href), "bet") || Contains(Lower(href), "pop")
  }

  /** One step of the anchor pass: the `_blank` target goes, and a bad link
      is pointed at `javascript:void(0)` with a blocking click handler. */
  function CleanAnchor(a: Anchor): (r: Anchor)
    ensures r.target != Some("_blank")
    ensures a.target != Some("_blank") ==> r.target == a.target
    ensures BadHref(a.href) ==> r.href == NeutralHref() && r.clickBlocked
    ensures !BadHref(a.href) ==> r.href == a.href && r.clickBlocked == a.clickBlocked
  {
    var t := if a.target == Some("_blank") then None else a.target;
    if BadHref(a.href) then Anchor(t, NeutralHref(), true) else Anchor(t, a.href, a.clickBlocked)
  }

  lemma NeutralHrefIsClean(h: string)
    requires h == NeutralHref()
    ensures !BadHref(h)
  {
    NeutralHrefLower(h);
    NeutralHrefFree(h, "bc.game");
    NeutralHrefFree(h, "bet");
    NeutralHrefFree(h, "pop");
  }

  lemma NeutralHrefLower(h: string)
    requires h == NeutralHref()
    ensures Lower(h) == h
  {
  }

  lemma NeutralHrefFree(h: string, w: string)
    requires h == NeutralHref() && w in ["bc.game", "bet", "pop"]
    ensures !Contains(h, w)
  {
    NoOccurrence(h, w);
  }

  /** A second anchor pass changes nothing. */
  lemma CleanAnchorIdempotent(a: Anchor)
    ensures CleanAnchor(CleanAnchor(a)) == CleanAnchor(a)
  {
    NeutralHrefIsClean(NeutralHref());
  }

  /** A candidate (`div`, `iframe` or `section`) as the scan sees it. `hasBox`
      is false when the element or an ancestor is not rendered; `zIndex` is
      `parseInt` of the computed z-index (None for `auto`); `height` and `top`
      come from `getBoundingClientRect`. */
  datatype Candidate = Candidate(tagName: string, attached: bool, hasBox: bool, position: string,
                                 zIndex: Option<int>, height: int, top: int, innerText: string)

  /** `el.offsetParent === null` by the CSSOM View rule: a detached element,
      one without a box, and one with fixed position have no offset parent. */
  predicate OffsetParentIsNull(c: Candidate) {
    !c.attached || !c.hasBox || c.position == "fixed"
  }

  /** A large high floating layer below the top band. */
  predicate IsOverlay(c: Candidate) {
    && (c.position == "fixed" || c.position == "absolute")
    && c.zIndex.Some? && c.zIndex.value > 900
    && c.height > 100 && c.top > 50
  }

  /** A short DIV whose lowercase text holds a bad word. */
  predicate IsBadTextBox(c: Candidate) {
    c.tagName == "DIV" && 3 < |c.innerText| < 100 && ContainsAny(Lower(c.innerText), TextFilters())
  }

  /** The candidate step exactly as written: the `offsetParent` test skips
      every fixed-position element. */
  function ScanCandidateAsWritten(c: Candidate): (r: Candidate)
    ensures r == c.(attached := r.attached)
    ensures r.attached <==> c.attached && (OffsetParentIsNull(c) || !(IsOverlay(c) || IsBadTextBox(c)))
  {
    if OffsetParentIsNull(c) then c
    else if IsOverlay(c) then c.(attached := false)
    else if IsBadTextBox(c) then c.(attached := false)
    else c
  }

  /** As written, a fixed-position overlay is never removed, although the
      overlay rule names `fixed` first. */
  lemma FixedOverlayEscapesAsWritten(c: Candidate)
    requires c.attached && c.position == "fixed"
    ensures ScanCandidateAsWritten(c).attached
  {
  }

  /** The candidate step as intended: the visibility test skips only
      elements that are detached or not rendered. */
  function ScanCandidate(c: Candidate): (r: Candidate)
    ensures r == c.(attached := r.attached)
    ensures r.attached <==> c.attached && (!c.hasBox || !(IsOverlay(c) || IsBadTextBox(c)))
  {
    if !c.attached || !c.hasBox then c
    else if IsOverlay(c) then c.(attached := false)
    else if IsBadTextBox(c) then c.(attached := false)
    else c
  }

  /** Intended: a rendered fixed overlay is removed. */
  lemma FixedOverlayRemoved(c: Candidate)
    requires c.attached && c.hasBox && c.position == "fixed" && IsOverlay(c)
    ensures !ScanCandidate(c).attached
  {
  }

  /** A second scan removes nothing more, and nothing unrendered is removed. */
  lemma ScanCandidateIdempotent(c: Candidate)
    ensures ScanCandidate(ScanCandidate(c)) == ScanCandidate(c)
    ensures !c.hasBox ==> ScanCandidate(c) == c
  {
  }

  /** The anchor pass over `document.querySelectorAll('a')`. */
  method CleanAnchors(links: array<Anchor>)
    modifies links
    ensures forall i :: 0 <= i < links.Length ==> links[i] == CleanAnchor(old(links[i]))
  {
    var i := 0;
    while i < links.Length
      invariant 0 <= i <= links.Length
      invariant forall j :: 0 <= j < i ==> links[j] == CleanAnchor(old(links[j]))
      invariant forall j :: i <= j < links.Length ==> links[j] == old(links[j])
    {
      var el := links[i];
      var target := if el.target == Some("_blank") then None else el.target;
      if BadHref(el.href) {
        links[i] := Anchor(target, NeutralHref(), true);
      } else {
        links[i] := Anchor(target, el.href, el.clickBlocked);
      }
      i := i + 1;
    }
  }

  /** The candidate pass over `document.querySelectorAll('div, iframe, section')`. */
  method ScanCandidates(candidates: array<Candidate>)
    modifies candidates
    ensures forall i :: 0 <= i < candidates.Length ==> candidates[i] == ScanCandidate(old(candidates[i]))
  {
    var i := 0;
    while i < candidates.Length
      invariant 0 <= i <= candidates.Length
      invariant forall j :: 0 <= j < i ==> candidates[j] == ScanCandidate(old(candidates[j]))
      invariant forall j :: i <= j < candidates.Length ==> candidates[j] == old(candidates[j])
    {
      var el := candidates[i];
      if el.attached && el.hasBox {
        if IsOverlay(el) {
          candidates[i] := el.(attached := false);
        } else if IsBadTextBox(el) {
          candidates[i] := el.(attached := false);
        }
      }
      i := i + 1;
    }
  }

  /** `aggressiveClean`: the anchor pass, then the candidate pass. */
  method AggressiveClean(links: array<Anchor>, candidates: array<Candidate>)
    modifies links, candidates
    ensures forall i :: 0 <= i < links.Length ==> links[i] == CleanAnchor(old(links[i]))
    ensures forall i :: 0 <= i < candidates.Length ==> candidates[i] == ScanCandidate(old(candidates[i]))
  {
    CleanAnchors(links);
    ScanCandidates(candidates);
  }

  // ----------------------------------------------------------------------
  // The click interceptor
  // ----------------------------------------------------------------------

  /** A node on the way from a click target up to the root: its tag and its
      `target` attribute. */
  datatype PathNode = PathNode(tagName: string, target: Option<string>)

  /** The index of the nearest `A` on the path, if any. */
  function NearestAnchor(path: seq<PathNode>): (k: Option<nat>)
    ensures k.Some? ==> k.value < |path| && path[k.value].tagName == "A"
                        && forall j :: 0 <= j < k.value ==> path[j].tagName != "A"
    ensures k.None? ==> forall j :: 0 <= j < |path| ==> path[j].tagName != "A"
    decreases |path|
  {
    if |path| == 0 then None
    else if path[0].tagName == "A" then Some(0)
    else match NearestAnchor(path[1..])
      case None => None
      case Some(k) => Some(k + 1)
  }

  /** The capture-phase click listener: climb to the nearest anchor and drop
      its `_blank` target. `path[0]` is the event target, `path[i + 1]` the
      parent of `path[i]`. Returns the anchor's position. */
  method InterceptClick(path: array<PathNode>) returns (k: Option<nat>)
    modifies path
    ensures k == NearestAnchor(old(path[..]))
    ensures k.Some? && old(path[k.value].target) == Some("_blank") ==>
              path[..] == old(path[..])[k.value := PathNode("A", None)]
    ensures !(k.Some? && old(path[k.value].target) == Some("_blank")) ==> path[..] == old(path[..])
  {
    var i := 0;
    while i < path.Length && path[i].tagName != "A"
      invariant 0 <= i <= path.Length
      invariant forall j :: 0 <= j < i ==> path[j].tagName != "A"
    {
      i := i + 1;
    }
    if i < path.Length {
      k := Some(i);
      if path[i].target == Some("_blank") {
        path[i] := PathNode("A", None);
      }
    } else {
      k := None;
    }
    NearestAnchorUnique(old(path[..]), k);
  }

  /** The first-anchor property pins the index down. */
  lemma NearestAnchorUnique(path: seq<PathNode>, k: Option<nat>)
    requires k.Some? ==> k.value < |path| && path[k.value].tagName == "A"
                         && forall j :: 0 <= j < k.value ==> path[j].tagName != "A"
    requires k.None? ==> forall j :: 0 <= j < |path| ==> path[j].tagName != "A"
    ensures k == NearestAnchor(path)
  {
  }

  // ----------------------------------------------------------------------
  // The page side of the injection: popups, stylesheet, observer, timer
  // ----------------------------------------------------------------------

  /** An armed `setTimeout(aggressiveClean, 500)`. */
  datatype Timer = Timer(id: nat, due: int)

  const DebounceMs: int := 500

  class TitaniumPage {
    /** `window.open` replaced by the popup killer. */
    var popupsBlocked: bool
    /** `#titanium-style-blocker` (its text is `StyleText`), None before injection. */
    var blockerStyle: Option<BlockerStyle>
    /** `document.body` exists. */
    var bodyReady: bool
    /** The MutationObserver watches the body. */
    var observing: bool
    /** A `DOMContentLoaded` listener waits to start the observer. */
    var awaitingDom: bool
    /** `cleanupTimeout`: the last handle `setTimeout` returned (a fired
        timer's handle stays). */
    var cleanupTimeout: Option<nat>
    /** Timers armed and neither fired nor cleared. */
    var pending: seq<Timer>
    var nextTimerId: nat
    /** How many scans have run. */
    var scans: nat
    /** User scripts evaluated, in order. */
    var ranScripts: seq<UserScript>

    /** At most one scan is ever pending, and it is the one the handle names. */
    ghost predicate Valid()
      reads this
    {
      && |pending| <= 1
      && (|pending| == 1 ==> cleanupTimeout == Some(pending[0].id))
      && (cleanupTimeout.Some? ==> 0 < cleanupTimeout.value < nextTimerId)
      && nextTimerId >= 1
      && !(observing && awaitingDom)
    }

    /** A page before the injection runs. */
    constructor (bodyReady: bool)
      ensures Valid() && this.bodyReady == bodyReady
      ensures !popupsBlocked && blockerStyle == None && !observing && !awaitingDom
      ensures cleanupTimeout == None && pending == [] && scans == 0 && ranScripts == []
    {
      this.bodyReady := bodyReady;
      popupsBlocked, blockerStyle := false, None;
      observing, awaitingDom := false, false;
      cleanupTimeout, pending, nextTimerId := None, [], 1;
      scans, ranScripts := 0, [];
    }

    /** The titanium injection, run once before the page's content loads. */
    method Inject(userScripts: seq<UserScript>, customBlockRules: seq<string>, href: string,
                  throwing: set<UserScript>)
      requires Valid() && blockerStyle.None? && !observing && !awaitingDom
      modifies this`popupsBlocked, this`blockerStyle, this`observing, this`awaitingDom, this`scans, this`ranScripts
      ensures Valid()
      ensures popupsBlocked && blockerStyle == Some(BlockerStyle(customBlockRules, []))
      ensures old(bodyReady) ==> observing && !awaitingDom && scans == old(scans) + 1
      ensures !old(bodyReady) ==> !observing && awaitingDom && scans == old(scans)
      ensures ranScripts == SelectScripts(userScripts, href)
    {
      var ran, _ := RunUserScripts(userScripts, href, throwing);
      popupsBlocked := true;
      blockerStyle := Some(BlockerStyle(customBlockRules, []));
      if bodyReady {
        observing := true;
        scans := scans + 1;
      } else {
        awaitingDom := true;
      }
      ranScripts := ran;
    }

    /** `DOMContentLoaded`: the body now exists; start observing and scan. */
    method DomContentLoaded()
      requires Valid()
      modifies this`bodyReady, this`observing, this`awaitingDom, this`scans
      ensures Valid() && bodyReady
      ensures old(awaitingDom) ==> observing && !awaitingDom && scans == old(scans) + 1
      ensures !old(awaitingDom) ==> observing == old(observing) && scans == old(scans)
    {
      bodyReady := true;
      if awaitingDom {
        observing := true;
        awaitingDom := false;
        scans := scans + 1;
      }
    }

    /** A mutation batch: clear the pending timer and arm exactly one new one
        500 ms from `now`. */
    method OnMutation(now: int)
      requires Valid() && observing
      modifies this`pending, this`cleanupTimeout, this`nextTimerId
      ensures Valid()
      ensures pending == [Timer(old(nextTimerId), now + DebounceMs)]
      ensures cleanupTimeout == Some(old(nextTimerId)) && nextTimerId == old(nextTimerId) + 1
    {
      if cleanupTimeout.Some? {
        // clearTimeout: a handle that already fired cancels nothing
        pending := [];
      }
      pending := [Timer(nextTimerId, now + DebounceMs)];
      cleanupTimeout := Some(nextTimerId);
      nextTimerId := nextTimerId + 1;
    }

    /** The pending timer comes due and runs one scan. */
    method Fire(now: int)
      requires Valid() && |pending| == 1 && pending[0].due <= now
      modifies this`pending, this`scans
      ensures Valid()
      ensures pending == [] && scans == old(scans) + 1
    {
      pending := [];
      scans := scans + 1;
    }

    /** `window.addCustomRule(selector)`: appends a hiding rule when the
        style element exists. */
    method AddCustomRule(selector: string)
      requires Valid()
      modifies this`blockerStyle
      ensures Valid()
      ensures old(blockerStyle).None? ==> blockerStyle == None
      ensures old(blockerStyle).Some? ==>
                blockerStyle == Some(old(blockerStyle).value.(runtime := old(blockerStyle).value.runtime + [selector]))
    {
      if blockerStyle.Some? {
        blockerStyle := Some(blockerStyle.value.(runtime := blockerStyle.value.runtime + [selector]));
      }
    }
  }

  /** A burst of mutations leaves exactly one scan pending, due 500 ms after
      the last mutation, and runs no scan itself. */
  method MutationBurst(page: TitaniumPage, times: seq<int>)
    requires page.Valid() && page.observing && |times| > 0
    modifies page`pending, page`cleanupTimeout, page`nextTimerId
    ensures page.Valid()
    ensures |page.pending| == 1 && page.pending[0].due == times[|times| - 1] + DebounceMs
    ensures page.scans == old(page.scans)
  {
    var i := 0;
    while i < |times|
      invariant 0 <= i <= |times|
      invariant page.Valid() && page.observing
      invariant page.scans == old(page.scans)
      invariant i > 0 ==> |page.pending| == 1 && page.pending[0].due == times[i - 1] + DebounceMs
    {
      page.OnMutation(times[i]);
      i := i + 1;
    }
  }
}
