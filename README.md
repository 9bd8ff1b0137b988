# ZeUs414 browser core in Dafny

ZeUs414 is a React Native web browser. It shows pages in a web view, injects
JavaScript into them, and talks to that JavaScript over a message channel.
This project models the part of the browser that decides things and proves
what those decisions guarantee:

- **Request gate and blocker bundle** (`AdBlock`, `WebView`). The gate is a first-match
  allow/block decision: user-blocked domains win, then the `cloudflare`/`challenge`
  allow-list, then the built-in blacklist. The injected stylesheet composes the
  kill rule and the custom rules. User scripts are selected by domain. The page
  scrubber runs over element records, behind a 500 ms debounce timer.
- **Session state** (`Session`). This is the state hook: tabs with a valid active
  tab, search and browsing history, rule lists, user scripts, feature flags and
  the developer-tool buffers. Every storage write goes into a write log, and none
  is made while incognito.
- **Host screen** (`Screen`). It dispatches guest envelopes by tag. The console
  keeps the last 200 entries and the network log the newest 50. It also holds the
  address bar's URL-or-search classification and the blocked-request counter.
- **Guest scripts** (`Guest`, `DevTools`, `Features`, `Reader`, `Images`). Each is
  a method on a page record holding the window's guard flags, the three key-value
  stores, the cookie jar and the posted envelopes:
  - the console and network interceptors with their install guards;
  - the CSS-path builder of the element inspector;
  - the storage updater with its value escaping;
  - find in page over a node tree;
  - view source, with truncation;
  - clearing a site's cookies;
  - reader-mode container scoring and line filtering;
  - image extraction with order-keeping deduplication.
- **Views and small engines** (`StorageView`, `ScriptManager`, `HistoryView`,
  `Downloads`, `DownloadsView`, `Gallery`, `ReaderView`, `Helpers`):
  - cookie-string parsing;
  - script list editing;
  - bucketing history by date;
  - the download file name taken from the URL or a `Content-Disposition` header;
  - the download filter tabs;
  - the gallery's scroll offsets as prefix sums;
  - the reader's font-size clamps and settings round trip;
  - the version-4 UUID template.

Shared records live in `BrowserTypes` and the guest-to-host envelope in `Bus`.
String and list primitives of the JavaScript runtime (`includes`,
`toLowerCase`, `split`, `join`, `trim`, `filter`, `slice`) are in `Text` and
`Lists`. These helpers carry their own lemmas. They model no line of the
browser, so they have no rows below.

Time, randomness, UUIDs, screen size, file-system answers and the DOM are
inputs. An element is a record of tag, text, computed style, box and
children.

In `aggressiveClean` (web/src/core/AdBlockEngine.js:64-110) one `try` covers
the whole scan, so a failure ends the scan rather than skipping one element.
The anchor pass of the scrubber does not check visibility; only the
candidate pass does.

## Model

| member | source | states |
|---|---|---|
| Helpers.HexDigit | web/src/core/Helpers.js:8 | one nibble printed in base 16 is a lower-case hex digit |
| Helpers.VariantNibble | web/src/core/Helpers.js:7 | the `y` position's nibble `(r & 0x3) \| 0x8` always lies in 8..11 |
| Helpers.FillChar | web/src/core/Helpers.js:5-9 | an `x` becomes a hex digit, a `y` one of `8 9 a b`, any other template character is kept |
| Helpers.GenerateUuid | web/src/core/Helpers.js:4-10 | the identifier has 36 characters, dashes at 8/13/18/23, version `4` at 14, variant in `89ab` at 19, hex digits elsewhere |
| Helpers.TemplateShape | web/src/core/Helpers.js:5 | the template holds its dashes, version and variant marks at those positions and `x` everywhere else |
| Helpers.RemoveFirst | web/src/core/Helpers.js:15 | a string-pattern `replace` drops one copy of the pattern (the leading one when it is a prefix) and leaves a string without it unchanged |
| Helpers.RemoveFirstAtFirst | web/src/core/Helpers.js:15 | the copy removed is the earliest one: the result is the input with exactly that copy cut out |
| Helpers.ExtractDomain | web/src/core/Helpers.js:12-19 | an unparseable URL comes back as is; otherwise the host name without a leading `www.`, and unchanged when it has no `www.` |
| Helpers.ExtractDomainSound | web/src/core/Helpers.js:12-19 | an unparseable URL comes back as is; otherwise the host name with its first `www.` cut out wherever it stands, and unchanged when it has none |
| Guest.SetItem | web/src/core/DevToolsEngine.js:253 | after `setItem(k, v)` the key reads `v`, every other key reads as before, no key is held twice, and no foreign entry appears |
| Guest.RemoveItem | web/src/core/DevToolsEngine.js:251 | after `removeItem(k)` the key is absent, every other key reads as before, and the keys stay unique |
| Guest.AssignCookie | web/src/core/DevToolsEngine.js:259-263 | a `document.cookie` assignment keeps the jar's keys unique |
| Guest.CookieSetText | web/src/core/DevToolsEngine.js:262 | the cookie text the updater writes for a plain key sets that (trimmed) key to the (trimmed) value |
| Guest.CookieExpireText | web/src/core/DevToolsEngine.js:260 | the expired-cookie text the updater writes for a plain key evicts that key |
| Guest.CookieExpireWith | web/src/core/DevToolsEngine.js:260 | whatever follows `name=;`, the assignment names that key with an empty value |
| Guest.GuestPage.constructor | web/src/components/BrowserWebView.js:70-73 | a fresh page load holds the given document and stores, has posted nothing, and has every guard flag off |
| Guest.GuestPage.Post | web/src/core/DevToolsEngine.js:25 | posting appends one envelope and changes nothing else |
| Guest.GuestPage.SetStores | web/src/core/DevToolsEngine.js:250-264 | the three stores are replaced and nothing else changes |
| AdBlock.StripSchemeWww | web/src/core/AdBlockEngine.js:160-162 | stripping removes only a leading part (the result is a suffix of the input), and a string with no `http://`/`https://` prefix is unchanged |
| AdBlock.ShouldBlockRequestAsWritten | web/src/core/AdBlockEngine.js:154-180 | as written: a request is blocked iff some user entry, lowercased and stripped of a leading scheme (and of `www.` only after a scheme), occurs in the stripped URL, or it is not whitelisted and holds a blacklist word |
| AdBlock.WwwEntryMissesAsWritten | web/src/core/AdBlockEngine.js:160-163 | as written, the entry `www.example.com` has no effect on `https://www.example.com/`: the verdict is that of the built-in lists alone |
| AdBlock.WwwEntryMisses | web/src/core/AdBlockEngine.js:160-163 | as written, a lowercase `www.` entry longer than the host part that the URL keeps after `https://www.` never matches that URL |
| AdBlock.EntryKey | web/src/core/AdBlockEngine.js:162 | as intended (see ## Findings): the entry's key is the as-written key with a leading bare `www.` removed, and equal to it when there is none |
| AdBlock.ShouldBlockRequest | web/src/core/AdBlockEngine.js:154-180 | as intended (see ## Findings): a request matching a user entry without its `www.` is blocked; otherwise it is blocked iff it is not whitelisted and holds a blacklist word |
| AdBlock.WwwEntryBlocks | web/src/core/AdBlockEngine.js:157-165 | as intended, for every host and path the entry `www.` + host blocks `https://www.` + host + path |
| AdBlock.HostEntryBlocks | web/src/core/AdBlockEngine.js:157-165 | a lowercase user entry with no scheme and no `www.` blocks every page of its host reached through `https://www.`, whatever the whitelist says |
| AdBlock.IntendedBlocksMore | web/src/core/AdBlockEngine.js:154-180 | every request the code as written blocks is blocked by the intended gate too |
| AdBlock.GatesAgreeWithoutBareWww | web/src/core/AdBlockEngine.js:154-180 | when no entry's key starts with a bare `www.`, the code as written and the intended gate give the same verdict |
| AdBlock.ShouldBlockIgnoresCase | web/src/core/AdBlockEngine.js:155 | the decision does not depend on the URL's letter case |
| AdBlock.EmptyDomainBlocksAll | web/src/core/AdBlockEngine.js:158-165 | an empty user domain blocks every URL |
| AdBlock.UserDomainOverridesWhitelist | web/src/core/AdBlockEngine.js:157-169 | a user domain beats the whitelist: a whitelisted cloudflare URL matching a user domain is still blocked |
| AdBlock.CloudflareUrlStrips | web/src/core/AdBlockEngine.js:160 | `https://www.cloudflare.com/x` strips to `cloudflare.com/x` |
| AdBlock.StripHttpsWww | web/src/core/AdBlockEngine.js:160 | `https://www.` comes off as a whole |
| AdBlock.CloudflareDomainStrips | web/src/core/AdBlockEngine.js:162 | the domain `cloudflare.com` is unchanged by lowercasing and stripping |
| AdBlock.WhitelistOverridesBlacklist | web/src/core/AdBlockEngine.js:169 | with no user domains, a URL holding `challenge` is never blocked |
| AdBlock.DoubleclickBlocked | web/src/core/AdBlockEngine.js:172-178 | with no user domains, a `doubleclick.net` URL is blocked |
| AdBlock.ExampleAllowed | web/src/core/AdBlockEngine.js:172-179 | `example.com` is allowed |
| AdBlock.NoWhitelistWord | web/src/core/AdBlockEngine.js:169 | `doubleclick.net/x` holds neither whitelist word |
| AdBlock.CustomRules | web/src/core/AdBlockEngine.js:27 | one hiding rule per custom selector, in order |
| AdBlock.StylesheetHidesEveryRule | web/src/core/AdBlockEngine.js:27-29 | the stylesheet starts with the general rule and a space, and holds a hiding rule for every custom selector |
| AdBlock.StylesheetAppend | web/src/core/AdBlockEngine.js:27-29 | one more custom selector appends exactly one space-separated hiding rule |
| AdBlock.FreshStyleText | web/src/core/AdBlockEngine.js:47-50 | a fresh blocker element holds exactly `combinedCss` |
| AdBlock.AddRuleAppends | web/src/core/AdBlockEngine.js:52-57 | `addCustomRule` appends its rule to the element's text |
| AdBlock.SelectScriptsIff | web/src/core/AdBlockEngine.js:142-143 | a script runs iff it is listed, active, and its domain is `*` or occurs in the page address |
| AdBlock.RunUserScripts | web/src/core/AdBlockEngine.js:140-147 | every selected script is evaluated in list order, and a throwing script fails alone without stopping the others |
| AdBlock.CleanAnchor | web/src/core/AdBlockEngine.js:70-81 | the `_blank` target is dropped and any other target kept; a link to `bc.game`, `bet` or `pop` is neutralised and its clicks blocked; other links keep their address |
| AdBlock.NeutralHrefIsClean | web/src/core/AdBlockEngine.js:78-79 | the neutral address is not itself a bad link |
| AdBlock.CleanAnchorIdempotent | web/src/core/AdBlockEngine.js:68-82 | a second anchor pass changes nothing |
| AdBlock.ScanCandidateAsWritten | web/src/core/AdBlockEngine.js:86-109 | as written, a candidate is removed iff it has a layout parent and is a floating overlay or a short bad-word box |
| AdBlock.FixedOverlayEscapesAsWritten | web/src/core/AdBlockEngine.js:88-101 | as written, a fixed-position candidate is never removed |
| AdBlock.ScanCandidate | web/src/core/AdBlockEngine.js:86-109 | as intended, a rendered candidate is removed iff it is a floating overlay or a short bad-word box; nothing else about it changes |
| AdBlock.FixedOverlayRemoved | web/src/core/AdBlockEngine.js:88-101 | as intended, a rendered fixed overlay is removed |
| AdBlock.ScanCandidateIdempotent | web/src/core/AdBlockEngine.js:86-109 | a second scan removes nothing more, and an unrendered candidate is left alone |
| AdBlock.CleanAnchors | web/src/core/AdBlockEngine.js:68-82 | every anchor in the array ends up as its cleaned form |
| AdBlock.ScanCandidates | web/src/core/AdBlockEngine.js:85-109 | as intended (see ## Findings): every candidate in the array ends up as its scanned form under the corrected visibility test, so rendered fixed overlays are removed |
| AdBlock.AggressiveClean | web/src/core/AdBlockEngine.js:64-111 | as intended (see ## Findings): the anchor pass, then the corrected candidate pass, each element-wise |
| AdBlock.NearestAnchor | web/src/core/AdBlockEngine.js:115-118 | the result is the first `A` on the path to the root, or none when there is no anchor |
| AdBlock.InterceptClick | web/src/core/AdBlockEngine.js:114-122 | the listener finds the nearest anchor, drops its `_blank` target, and leaves the path unchanged otherwise |
| AdBlock.NearestAnchorUnique | web/src/core/AdBlockEngine.js:115-118 | the first-anchor property pins down exactly one index |
| AdBlock.TitaniumPage.constructor | web/src/core/AdBlockEngine.js:34-35 | before injection nothing is installed, observed, pending or run |
| AdBlock.TitaniumPage.Inject | web/src/core/AdBlockEngine.js:34-151 | the injection blocks pop-ups, installs the blocker style, observes and scans at once when the body exists (else waits for `DOMContentLoaded`), and runs the selected user scripts |
| AdBlock.TitaniumPage.DomContentLoaded | web/src/core/AdBlockEngine.js:133-136 | a waiting page starts observing and scans once; the body exists afterwards; only the body, observer, waiting and scan fields can change, and the timer invariant holds |
| AdBlock.TitaniumPage.OnMutation | web/src/core/AdBlockEngine.js:124-127 | a mutation clears the pending timer and arms exactly one new 500 ms timer under a fresh handle; only the timer fields change, and the timer invariant holds |
| AdBlock.TitaniumPage.Fire | web/src/core/AdBlockEngine.js:126 | the pending timer runs one scan and leaves nothing pending; only the pending list and the scan count change |
| AdBlock.TitaniumPage.AddCustomRule | web/src/core/AdBlockEngine.js:52-57 | a selector is appended to the blocker style when it exists, and nothing happens otherwise; only the style changes, and the timer invariant is kept |
| AdBlock.MutationBurst | web/src/core/AdBlockEngine.js:124-127 | a burst of mutations leaves exactly one scan pending, due 500 ms after the last, and runs none |
| DevTools.FormatArgs | web/src/core/DevToolsEngine.js:16-22 | one text per argument, in order: `null`, `undefined`, the JSON of an object (or `[Circular Object]`), the string of anything else |
| DevTools.FormatMessageRecoversArgs | web/src/core/DevToolsEngine.js:16-23 | when no argument's text holds a space, splitting the message on spaces gives back the argument texts |
| DevTools.FormatMessageHasEveryArg | web/src/core/DevToolsEngine.js:16-23 | every argument's text appears in the message |
| DevTools.InstallConsoleInterceptor | web/src/core/DevToolsEngine.js:8-48 | a second run stops at the guard and changes nothing; the first sets the flag and patches console exactly once |
| DevTools.ConsoleCall | web/src/core/DevToolsEngine.js:33-41 | a console call is reported as one `CONSOLE_LOG` of its level and joined arguments only once console is patched, and changes nothing before |
| DevTools.UncaughtError | web/src/core/DevToolsEngine.js:43-45 | an uncaught error is reported at level error as `[Uncaught Exception] <message> at <file> : <line>` once patched |
| DevTools.InstallNetworkInterceptor | web/src/core/DevToolsEngine.js:52-59 | fetch and XHR are patched once, with capture off; a second run changes nothing |
| DevTools.ToggleNetwork | web/src/core/DevToolsEngine.js:153-155 | the toggle sets the capture flag and nothing else |
| DevTools.CapturedData | web/src/core/DevToolsEngine.js:73 | the captured body is at most 1000 characters, a prefix of the body, the whole body when it fits, and empty when there is none |
| DevTools.SendNetworkLog | web/src/core/DevToolsEngine.js:61-77 | nothing is posted while capture is off; otherwise exactly one `NETWORK_LOG` with the given fields and the truncated body |
| DevTools.FetchTarget | web/src/core/DevToolsEngine.js:82-92 | a `Request` gives its own method and url; an address gives the config's method when set and `GET` otherwise |
| DevTools.FetchSettled | web/src/core/DevToolsEngine.js:94-113 | a settled fetch posts one `FETCH` entry with the response status (or `ERR`) and its body text or the fixed fallback text, only while capture is on |
| DevTools.XhrResponseData | web/src/core/DevToolsEngine.js:129-138 | the XHR body is the text for text types, the JSON for `json`, `[<type> data]` for others, and `[Read Error]` when reading fails |
| DevTools.XhrSettled | web/src/core/DevToolsEngine.js:126-147 | a loaded XHR posts its status and body, a failed one `ERR` and `Network Error`, only while capture is on |
| DevTools.CountTag | web/src/core/DevToolsEngine.js:181-184 | the count of same-tag earlier siblings is at most the number of siblings |
| DevTools.CssPathSteps | web/src/core/DevToolsEngine.js:171-191 | the path has at most one step per element and ends with the inspected element's own step |
| DevTools.CssPathSplit | web/src/core/DevToolsEngine.js:174-189 | below the first id the path is the path of the part above followed by the steps of the part below |
| DevTools.CssPathNoIds | web/src/core/DevToolsEngine.js:174-189 | without ids the path has one step per element, the root's first and the element's last |
| DevTools.CssPathFromFirstId | web/src/core/DevToolsEngine.js:176-179 | the nearest element with an id starts the path and nothing above it appears |
| DevTools.NthOfType | web/src/core/DevToolsEngine.js:181-185 | the loop counts one plus the earlier siblings with the same tag |
| DevTools.CssPathGrow | web/src/core/DevToolsEngine.js:180-188 | climbing past an element without an id puts its step in front |
| DevTools.CssPathStop | web/src/core/DevToolsEngine.js:176-179 | the element with an id puts its step in front and ends the climb |
| DevTools.GetCssPath | web/src/core/DevToolsEngine.js:171-191 | the loop returns the specified path steps joined by ` > ` |
| DevTools.InspectorOn | web/src/core/DevToolsEngine.js:158-227 | activation installs one style and one listener pair and defines `removeInspector`; a second activation changes nothing |
| DevTools.InspectorOff | web/src/core/DevToolsEngine.js:216-222 | deactivation does nothing when `removeInspector` is undefined, else clears the listeners, the style, the highlight and the flag |
| DevTools.InspectorOffClean | web/src/core/DevToolsEngine.js:216-222 | after `removeInspector` the page invariant still holds with no listener, style or highlight left |
| DevTools.MouseOver | web/src/core/DevToolsEngine.js:193-198 | hovering highlights the target only while the inspector is active |
| DevTools.Inspected | web/src/core/DevToolsEngine.js:204-213 | the reported html is a prefix of the element's html of at most 300 characters |
| DevTools.InspectClick | web/src/core/DevToolsEngine.js:200-214 | a click posts one `ELEMENT_INSPECTED` while active and nothing otherwise |
| DevTools.ReadStorage | web/src/core/DevToolsEngine.js:231-243 | the reader posts one `STORAGE_DATA` holding the current stores and cookie string, and changes nothing else |
| DevTools.EscapeQuotesConcat | web/src/core/DevToolsEngine.js:246 | quote escaping works character by character over a concatenation |
| DevTools.EscapeQuotesNoQuote | web/src/core/DevToolsEngine.js:246 | a string without quotes passes the quote escape unchanged |
| DevTools.TwoPassesAsOne | web/src/core/DevToolsEngine.js:246 | the two `replace` passes equal one character-wise escape |
| DevTools.SafeValueRoundTripAsWritten | web/src/core/DevToolsEngine.js:246 | as written, a value without line breaks is read back unchanged from the literal |
| DevTools.LineBreakBreaksLiteral | web/src/core/DevToolsEngine.js:246-253 | as written, a value with a line break yields a literal that does not parse |
| DevTools.DecodeEscapedChar | web/src/core/DevToolsEngine.js:246 | each character's intended escape reads back as that character |
| DevTools.EscapeRoundTrip | web/src/core/DevToolsEngine.js:246 | with the intended escape every value reads back unchanged from the literal |
| DevTools.SafeValueRoundTrip | web/src/core/DevToolsEngine.js:246-253 | the literal holds exactly the value a SET stores, `''` for a missing value |
| DevTools.StoreAfter | web/src/core/DevToolsEngine.js:250-257 | DELETE removes the key, CLEAR empties the store, anything else sets the key; other keys are untouched and keys stay unique |
| DevTools.JarAfter | web/src/core/DevToolsEngine.js:258-263 | a cookie action keeps the jar's keys unique |
| DevTools.JarAfterPlainKey | web/src/core/DevToolsEngine.js:258-263 | for a plain key, a cookie DELETE evicts it and any other action sets it |
| DevTools.StoresAfter | web/src/core/DevToolsEngine.js:250-264 | only the store `type` names changes, in the way its action says; an unknown type changes nothing; the page invariant is kept |
| DevTools.UpdateStorage | web/src/core/DevToolsEngine.js:245-278 | as intended (see ## Findings), with line breaks escaped: on success the store changes, then the new snapshot and `Storage updated successfully` are posted; on failure only `Storage update failed: <message>` is posted |
| DevTools.WriteStores | web/src/core/DevToolsEngine.js:250-271 | as intended (see ## Findings), with line breaks escaped: the store changes, then exactly the snapshot and the info log are posted |
| Features.TextContentSeqConcat | web/src/core/FeatureScripts.js:16-17 | the text and the mark count of a child list add up over concatenation |
| Features.MergeText | web/src/core/FeatureScripts.js:17 | `normalize()` on a child list keeps its text and its marks |
| Features.MergeFirst | web/src/core/FeatureScripts.js:17 | gluing text onto a leading text node keeps the list's text and marks |
| Features.NormalizeDeep | web/src/core/FeatureScripts.js:17 | normalising a subtree keeps its text and its marks |
| Features.ClearMarks | web/src/core/FeatureScripts.js:13-18 | clearing the old highlights leaves no mark and the same text |
| Features.FlushSound | web/src/core/FeatureScripts.js:30 | plain text between matches becomes nodes holding exactly that text and no mark |
| Features.HighlightPiecesSound | web/src/core/FeatureScripts.js:28-32 | highlighting a text node keeps its text and makes one mark per counted match |
| Features.HighlightMatchStep | web/src/core/FeatureScripts.js:30 | a match contributes its mark followed by the rest of the text |
| Features.HighlightSkipStep | web/src/core/FeatureScripts.js:30 | a position without a match joins the plain text |
| Features.MarkThenRest | web/src/core/FeatureScripts.js:30 | the pieces around one match are the plain text, the mark and the rest |
| Features.TraverseSound | web/src/core/FeatureScripts.js:25-37 | the traversal changes no text, and every counted match is one new mark |
| Features.TraverseSeqSound | web/src/core/FeatureScripts.js:35 | the same over a list of children, the counts adding up |
| Features.SkippedCountsNothing | web/src/core/FeatureScripts.js:34 | inside `script`, `style` or `textarea` nothing is changed or counted |
| Features.FindInPage | web/src/core/FeatureScripts.js:8-52 | the old marks are cleared; an empty query stops there and posts nothing; otherwise the body is traversed, one `FIND_RESULT` with the count is posted, and the first mark is scrolled into view iff the count is positive |
| Features.FindInPageSound | web/src/core/FeatureScripts.js:20-47 | for every body and non-empty query the text reads as before, the marks are exactly the reported count, so there is a first mark to scroll to iff something was found |
| Features.SearchAgainReplacesMarks | web/src/core/FeatureScripts.js:12-18 | a second search first clears the first one: its marks are its own matches only |
| Features.ViewSourceScript | web/src/core/FeatureScripts.js:55-68 | view source posts one `VIEW_SOURCE` with the document cut to 20000 characters, and changes nothing else |
| Features.ViewSourceBound | web/src/core/FeatureScripts.js:62 | the source sent is a prefix of at most 20000 characters, and the whole document when it fits |
| Features.StripLeadingSpaces | web/src/core/FeatureScripts.js:78 | leading spaces are dropped (a suffix of the input results) and nothing after them |
| Features.ExpireAll | web/src/core/FeatureScripts.js:77-79 | writing back the rewritten segments keeps the jar's keys unique |
| Features.ClearData | web/src/core/FeatureScripts.js:71-91 | both storages empty, every cookie segment is written back expired, then `ACTION_COMPLETE` is posted and a reload is scheduled 500 ms later; on an exception only the error is logged |
| Features.ExpireSegments | web/src/core/FeatureScripts.js:77-79 | the loop over the segments leaves the jar `ExpireAll` gives: each segment's cookie assigned again, in order, with an expiry of now, so it is evicted |
| Features.TrimmedNameOk | web/src/core/FeatureScripts.js:77-78 | a name trimmed out of text free of `;` and `=` is a well-formed cookie name |
| Features.ParsedCookieOk | web/src/core/FeatureScripts.js:77-78 | the name and value the cookie setter parses from any text are well formed |
| Features.AssignCookieKeepsWellFormed | web/src/core/FeatureScripts.js:78 | every cookie assignment keeps the jar well formed |
| Features.ExpireWith | web/src/core/FeatureScripts.js:78 | assigning `name=;...` with a past expiry evicts that cookie |
| Features.RemoveHead | web/src/core/FeatureScripts.js:77-79 | evicting the first cookie's key removes just that cookie |
| Features.SpacedPairs | web/src/core/FeatureScripts.js:77 | every later segment of the cookie string is one pair after a space |
| Features.JoinSpaced | web/src/core/FeatureScripts.js:77 | the spaced pairs joined by `;` are the cookie string after a space |
| Features.SplitCookieString | web/src/core/FeatureScripts.js:77 | splitting the cookie string at `;` gives one segment per cookie |
| Features.ExpireSegmentOf | web/src/core/FeatureScripts.js:78 | each segment is rewritten into the expiring assignment for its own cookie |
| Features.ExpirePrefix | web/src/core/FeatureScripts.js:77-79 | after the first i segments, exactly the first i cookies are gone |
| Features.ClearDataEvictsEveryCookie | web/src/core/FeatureScripts.js:77-79 | clearing the data evicts every cookie the setter can have stored |
| Features.ExpireAllSegments | web/src/core/FeatureScripts.js:77-79 | expiring every cookie's segment in order empties the jar |
| Features.ClearEmptyJar | web/src/core/FeatureScripts.js:77 | with no cookies the one empty segment evicts nothing and the jar stays empty |
| Reader.CollapseSpacesCollapsed | web/src/core/ReaderModeEngine.js:8 | collapsing leaves no white space but single plain spaces |
| Reader.CleanTextIsClean | web/src/core/ReaderModeEngine.js:8 | cleaned text is collapsed and has no white space at either end |
| Reader.TrimCollapsed | web/src/core/ReaderModeEngine.js:8 | trimming a collapsed text makes it clean |
| Reader.CleanSlice | web/src/core/ReaderModeEngine.js:8 | a piece of a collapsed text with no white space at its ends is clean |
| Reader.CollapsedSlice | web/src/core/ReaderModeEngine.js:8 | a piece of a collapsed text is collapsed |
| Reader.CollapseKeepsCollapsed | web/src/core/ReaderModeEngine.js:8 | a collapsed text comes through the collapsing unchanged |
| Reader.CleanTextKeepsClean | web/src/core/ReaderModeEngine.js:8 | `cleanText` leaves clean text alone |
| Reader.CleanTextIdempotent | web/src/core/ReaderModeEngine.js:8 | cleaning twice is cleaning once |
| Reader.VisibleConcat | web/src/core/ReaderModeEngine.js:8 | the characters that are not white space add up over concatenation |
| Reader.VisibleCollapse | web/src/core/ReaderModeEngine.js:8 | collapsing white space keeps every other character in order |
| Reader.CleanTextKeepsWords | web/src/core/ReaderModeEngine.js:8 | cleaning only touches white space: every other character stays, in order |
| Reader.ArabicCount | web/src/core/ReaderModeEngine.js:40 | the Arabic-letter count is at most the text's length |
| Reader.BestContainer | web/src/core/ReaderModeEngine.js:33-50 | the chosen container, if any, is one of the candidates |
| Reader.BestIsFirstMaximum | web/src/core/ReaderModeEngine.js:37-48 | no container is chosen iff none is eligible; otherwise the choice is eligible, scores strictly more than every eligible container before it, and at least as much as every one after |
| Reader.PickContainer | web/src/core/ReaderModeEngine.js:33-48 | the `forEach` loop picks `BestContainer`: the first eligible container with the highest Arabic-letter count |
| Reader.KeptLinesIff | web/src/core/ReaderModeEngine.js:56-88 | a line is kept iff some accepted element offers it |
| Reader.DropRepeats | web/src/core/ReaderModeEngine.js:84 | dropping repeats never lengthens the list and keeps its last line |
| Reader.DropRepeatsSound | web/src/core/ReaderModeEngine.js:84-86 | the extracted lines never repeat back to back, and hold exactly the lines offered |
| Reader.DropRepeatsKeeps | web/src/core/ReaderModeEngine.js:84 | lines without back-to-back repeats come through unchanged |
| Reader.ExtractLines | web/src/core/ReaderModeEngine.js:52-90 | the loop returns the accepted lines in document order, with each immediate repeat dropped |
| Reader.KeptLinesSnoc | web/src/core/ReaderModeEngine.js:56-88 | one more element puts its line after those of the elements before |
| Reader.DropRepeatsSnoc | web/src/core/ReaderModeEngine.js:84-86 | one more line is pushed unless it equals the last one pushed |
| Reader.ExtractedLinesSound | web/src/core/ReaderModeEngine.js:56-88 | every extracted line is clean, not empty, free of forbidden words and links, and comes from a visible element |
| Reader.ReaderEnvelope | web/src/core/ReaderModeEngine.js:96-103 | `READER_EXTRACTED` with the title and lines iff there is a line, else `READER_ERROR` |
| Reader.ExtractArticle | web/src/core/ReaderModeEngine.js:4-111 | the script posts the article of the chosen container's lines (or `READER_ERROR`); an exception posts only its message as an error log |
| Images.ImageUrlsIff | web/src/core/ImageExtractionEngine.js:16-20 | a source is gathered iff some image with that source is set and wider or taller than 150 pixels |
| Images.RemoveQuotes | web/src/core/ImageExtractionEngine.js:27 | the result holds no quote and is no longer than the input |
| Images.RemoveQuotesKeeps | web/src/core/ImageExtractionEngine.js:27 | text without quotes comes through unchanged |
| Images.BackgroundUrlOfWrapped | web/src/core/ImageExtractionEngine.js:26-27 | the URL of `url(...)` is its argument with the quotes removed |
| Images.BackgroundUrlUnwraps | web/src/core/ImageExtractionEngine.js:26-27 | `url(u)`, `url("u")` and `url('u')` all give back `u` |
| Images.QuotedUnwraps | web/src/core/ImageExtractionEngine.js:27 | a quoted argument loses exactly its two quotes |
| Images.RemoveQuotesConcat | web/src/core/ImageExtractionEngine.js:27 | quote removal works piecewise over a concatenation |
| Images.UniqueSound | web/src/core/ImageExtractionEngine.js:33 | the de-duplicated list holds no value twice and exactly the values of the input |
| Images.UniqueKeepsDistinct | web/src/core/ImageExtractionEngine.js:33 | a list without repeats comes through unchanged |
| Images.UniqueConcat | web/src/core/ImageExtractionEngine.js:33 | the values of the first list come first, in their own order, and every later value is new |
| Images.GatherImages | web/src/core/ImageExtractionEngine.js:13-30 | the two loops gather the taken image sources, then the taken background URLs |
| Images.ImagesEnvelope | web/src/core/ImageExtractionEngine.js:35-46 | `IMAGES_EXTRACTED` with the URLs iff there is one, else the warning |
| Images.ExtractImages | web/src/core/ImageExtractionEngine.js:4-54 | the script posts the de-duplicated URLs or the warning; an exception posts only its message as an error log |
| Images.ExtractedImagesSound | web/src/core/ImageExtractionEngine.js:16-33 | a URL is listed iff it is a taken image's source or a taken background's URL, and each is listed once |
| ScriptManager.EditScripts | web/src/components/ScriptManagerView.js:37-38 | the list keeps its length; each script with the edited id takes the new name, domain and code, and every other script is unchanged |
| ScriptManager.ToggleScript | web/src/components/ScriptManagerView.js:58-61 | the scripts with that id flip `active`, and every other script is unchanged |
| ScriptManager.ToggleTwice | web/src/components/ScriptManagerView.js:58-61 | toggling twice restores the list |
| ScriptManager.EditIdempotent | web/src/components/ScriptManagerView.js:37-38 | editing a script twice with the same fields is editing it once |
| ScriptManager.DeleteScriptSound | web/src/components/ScriptManagerView.js:53-56 | exactly the scripts with another id remain; deleting twice is deleting once; deleting an absent id changes nothing |
| ScriptManager.DeleteKeepsOrder | web/src/components/ScriptManagerView.js:53-56 | deleting from a concatenation deletes from each part, so the survivors keep their order |
| ScriptManager.ScriptEditor.constructor | web/src/components/ScriptManagerView.js:10-16 | the editor starts closed with no script, an empty name and code, and the domain `*` |
| ScriptManager.ScriptEditor.OpenEditor | web/src/components/ScriptManagerView.js:18-31 | opening shows a script's own fields, or an empty name, the domain `*` and the starter code for a new one, and makes the editor visible |
| ScriptManager.ScriptEditor.SaveScript | web/src/components/ScriptManagerView.js:33-51 | a missing name or code only alerts; otherwise the edited script is replaced (or a new active script is appended) and the editor closes |
| Session.SummariesKeepIdTitleUrl | web/src/hooks/useBrowserLogic.js:91 | the saved list has one entry per tab, with that tab's id, title and url |
| Session.IndexOfTab | web/src/hooks/useBrowserLogic.js:114 | the index is -1 or a position holding a tab with that id |
| Session.IndexOfTabFirst | web/src/hooks/useBrowserLogic.js:114 | the index found is the first tab with that id, and -1 means no tab has it |
| Session.HasTabAt | web/src/hooks/useBrowserLogic.js:114 | a tab at any position is found by its id |
| Session.WithoutTabRemovesOne | web/src/hooks/useBrowserLogic.js:117 | with distinct ids, the filter removes exactly the one tab and keeps the others in order |
| Session.FilterRemovesAt | web/src/hooks/useBrowserLogic.js:117 | a filter matching only position k removes just that position |
| Session.DistinctRemoveAt | web/src/hooks/useBrowserLogic.js:117 | removing one tab keeps the ids distinct |
| Session.CloseKeepsInvariant | web/src/hooks/useBrowserLogic.js:112-126 | closing a tab of a session with more than one tab removes it, activates the left neighbour (the new first tab when it was first) when it was active, and keeps the invariant: a tab exists, ids are distinct, the active id names a tab |
| Session.ApplyUpdate | web/src/hooks/useBrowserLogic.js:140 | an update never changes a tab's id |
| Session.UpdateTabsTouchesOnlyId | web/src/hooks/useBrowserLogic.js:139-141 | length and order stay; the tabs with that id take the update, every other tab is unchanged |
| Session.UpdateTabsIdempotent | web/src/hooks/useBrowserLogic.js:139-141 | applying the same update twice is applying it once |
| Session.UpdateKeepsInvariant | web/src/hooks/useBrowserLogic.js:139-141 | updating keeps the tab invariant |
| Session.AddKeepsInvariant | web/src/hooks/useBrowserLogic.js:97-110 | appending a tab with a fresh id and activating it gives the invariant |
| Session.PushQuerySound | web/src/hooks/useBrowserLogic.js:152 | the query comes first and only once, at most 20 entries remain, and every other entry is an earlier query |
| Session.CleanDomainIsClean | web/src/hooks/useBrowserLogic.js:230 | a stored domain is unchanged by lowercasing and has no white space at either end |
| Session.WebsiteUrlIsHttp | web/src/hooks/useBrowserLogic.js:259 | a saved address always starts with `http` in some case, and is the given one iff that already did |
| Session.PushHistorySound | web/src/hooks/useBrowserLogic.js:253 | the new entry comes first, followed by at most 999 of the older ones, in order |
| Session.BrowserSession.constructor | web/src/hooks/useBrowserLogic.js:14-42 | the session starts with the `useState` defaults: no tabs, Google, every flag off, nothing stored |
| Session.BrowserSession.SendToCurrent | web/src/hooks/useBrowserLogic.js:182-184 | a command reaches the current tab's view only when it has one |
| Session.BrowserSession.SaveTabsState | web/src/hooks/useBrowserLogic.js:89-94 | nothing is written while incognito; otherwise the tab summaries, then the active id |
| Session.BrowserSession.LoadTabs | web/src/hooks/useBrowserLogic.js:77-85 | the saved tabs with the saved active id (else the first tab's), or one new home tab when none were saved; a tab always exists afterwards |
| Session.BrowserSession.AddNewTab | web/src/hooks/useBrowserLogic.js:97-110 | the new tab is appended and activated, and the tabs are saved unless incognito |
| Session.BrowserSession.CloseTab | web/src/hooks/useBrowserLogic.js:112-126 | the last tab or an unknown id changes nothing; otherwise the tab goes, the neighbour takes over when it was active, the tabs are saved, and the invariant is kept |
| Session.BrowserSession.SelectTab | web/src/hooks/useBrowserLogic.js:128-137 | the id is activated and saved, and the logs, the inspection and the translator are reset |
| Session.BrowserSession.UpdateTab | web/src/hooks/useBrowserLogic.js:139-141 | the tabs take the update and keep the invariant |
| Session.BrowserSession.ChangeSearchEngine | web/src/hooks/useBrowserLogic.js:145-148 | the engine is set and saved |
| Session.BrowserSession.AddSearchQuery | web/src/hooks/useBrowserLogic.js:150-155 | nothing happens while incognito or for a blank query; otherwise the query is pushed and saved |
| Session.BrowserSession.RemoveSearchQuery | web/src/hooks/useBrowserLogic.js:157-161 | every copy of the query goes and the list is saved |
| Session.BrowserSession.ToggleTranslator | web/src/hooks/useBrowserLogic.js:163-176 | without a view nothing happens; otherwise the flag flips and the matching enable or disable script is injected |
| Session.BrowserSession.ToggleDesktopMode | web/src/hooks/useBrowserLogic.js:178-185 | the flag flips, is saved, and the current view reloads |
| Session.BrowserSession.ToggleDarkMode | web/src/hooks/useBrowserLogic.js:187-191 | the flag flips and is saved |
| Session.BrowserSession.ToggleIncognito | web/src/hooks/useBrowserLogic.js:193-201 | the flag flips |
| Session.BrowserSession.SaveUserScripts | web/src/hooks/useBrowserLogic.js:204-210 | the scripts are set, saved, and the current view reloads |
| Session.BrowserSession.AddBlockRule | web/src/hooks/useBrowserLogic.js:212-220 | the selector is appended, saved, and applied to the open page |
| Session.BrowserSession.RemoveBlockRule | web/src/hooks/useBrowserLogic.js:222-227 | every copy of the rule goes and the list is saved |
| Session.BrowserSession.AddBlockedDomain | web/src/hooks/useBrowserLogic.js:229-235 | a blank domain is ignored; otherwise the cleaned domain is appended and saved |
| Session.BrowserSession.RemoveBlockedDomain | web/src/hooks/useBrowserLogic.js:237-241 | every copy of the domain goes and the list is saved |
| Session.BrowserSession.AddToHistory | web/src/hooks/useBrowserLogic.js:244-256 | nothing while incognito, for an empty title or url, for the blank and home pages, or for a repeat of the newest entry within a minute; otherwise the entry is pushed and saved |
| Session.BrowserSession.AddWebsite | web/src/hooks/useBrowserLogic.js:258-264 | the website goes first with its address made `http`-prefixed, and the list is saved |
| Session.BrowserSession.DeleteWebsite | web/src/hooks/useBrowserLogic.js:266-270 | the websites with that id go and the list is saved |
| Session.BrowserSession.DeleteHistoryItem | web/src/hooks/useBrowserLogic.js:272-276 | the entries with that id go and the list is saved |
| Session.BrowserSession.ClearAllHistory | web/src/hooks/useBrowserLogic.js:278-281 | the history is emptied and the empty list saved |
| Session.IncognitoWritesNothing | web/src/hooks/useBrowserLogic.js:89-256 | while incognito, saving tabs, recording a query and recording a visit write nothing to storage |
| StorageView.StoreName | web/src/components/StorageManagerView.js:73 | each tab names its store, and only the cookie tab is `cookies` |
| StorageView.ParseCookieText | web/src/components/StorageManagerView.js:19-25 | the loop over the `;` pieces builds `ParseCookies`: each `;` piece with a name assigns its value under that name, in order |
| StorageView.CookieEntriesUnique | web/src/components/StorageManagerView.js:22-31 | the cookie tab never lists a key twice |
| StorageView.CookieLookup | web/src/components/StorageManagerView.js:22-25 | a key shows the value of the last piece naming it, and a key no piece names is absent |
| StorageView.LookupIsLastValue | web/src/components/StorageManagerView.js:22-25 | the shown value of a key is the last assigned value |
| StorageView.LookupAfterNamed | web/src/components/StorageManagerView.js:24 | a piece naming the key overwrites its value |
| StorageView.LookupAfterOther | web/src/components/StorageManagerView.js:24 | a piece naming another key leaves the key's value alone |
| StorageView.SetItemAppends | web/src/components/StorageManagerView.js:24-31 | a key new to the object goes last in its entries |
| StorageView.SegmentReads | web/src/components/StorageManagerView.js:23-24 | a segment `k=v`, with or without the leading space, reads back as key `k` and value `v` |
| StorageView.EntriesOfPieces | web/src/components/StorageManagerView.js:22-31 | pieces that each read back as their cookie rebuild the jar |
| StorageView.ParseCookieStringRoundTrip | web/src/components/StorageManagerView.js:19-31 | reading a `document.cookie` string gives back the jar, in order, when names and values hold no `;` or `=` |
| StorageView.ValueCutAtSecondEquals | web/src/components/StorageManagerView.js:23 | a value holding `=` is cut at its second `=`: `k=v=w` shows `v` |
| StorageView.SinglePiece | web/src/components/StorageManagerView.js:21 | a string without `;` is one piece |
| StorageView.EmptyCookieString | web/src/components/StorageManagerView.js:21-25 | an empty cookie string lists nothing |
| StorageView.EmptyKeySkipped | web/src/components/StorageManagerView.js:24 | a piece with nothing before its `=` is skipped |
| StorageView.MissingValueIsUndefined | web/src/components/StorageManagerView.js:23-31 | a piece without `=` shows the text `undefined` |
| StorageView.JsonItems | web/src/components/StorageManagerView.js:27-31 | a store's items are its entries; a missing or malformed store lists nothing |
| StorageView.ParsedItems | web/src/components/StorageManagerView.js:15-33 | the cookie tab lists unique keys, and the store tabs list their store's entries |
| StorageView.ActionName | web/src/components/StorageManagerView.js:35-89 | each action is sent under its own name |
| StorageView.StorageEditor.constructor | web/src/components/StorageManagerView.js:8-13 | the editor starts on the local tab with nothing parsed, edited or sent |
| StorageView.StorageEditor.Refresh | web/src/components/StorageManagerView.js:15-33 | without data the items stay; with data they are the parse of the active tab |
| StorageView.StorageEditor.SelectTab | web/src/components/StorageManagerView.js:15-77 | a tab press selects the tab and the effect re-parses it |
| StorageView.StorageEditor.HandleSave | web/src/components/StorageManagerView.js:35-40 | an empty key does nothing; otherwise one `SET` on the active store and the editor closes |
| StorageView.StorageEditor.HandleDelete | web/src/components/StorageManagerView.js:42-47 | after confirmation one `DELETE` with a null value is sent; cancelling sends nothing |
| StorageView.StorageEditor.ClearAll | web/src/components/StorageManagerView.js:89 | the button sends one `CLEAR` with a null key and value |
| StorageView.StorageEditor.OpenEditor | web/src/components/StorageManagerView.js:49-54 | the item's key and value are loaded for editing |
| StorageView.StorageEditor.OpenAdd | web/src/components/StorageManagerView.js:56-61 | an empty add form is opened |
| StorageView.AddThenSaveSendsNothing | web/src/components/StorageManagerView.js:35-61 | saving a freshly opened add form sends nothing, because its key is empty |
| HistoryView.BucketMonotone | web/src/components/HistoryView.js:21-28 | a later date never lands in an older group, and an unparseable date lands in the oldest |
| HistoryView.FillGroups | web/src/components/HistoryView.js:13-28 | after the loop each of the five lists holds exactly its group's items, in input order |
| HistoryView.GroupsStep | web/src/components/HistoryView.js:21-28 | one more item joins its own group's list and no other |
| HistoryView.ItemStep | web/src/components/HistoryView.js:21-28 | one more item extends one group's list exactly when the item belongs to it |
| HistoryView.GroupHistory | web/src/components/HistoryView.js:6-31 | the method returns `Grouped`: the non-empty groups in the fixed order Today, Yesterday, This week, This month, Older |
| HistoryView.SizeSumConcat | web/src/components/HistoryView.js:30 | section sizes add up over concatenation |
| HistoryView.GroupsPartition | web/src/components/HistoryView.js:21-28 | the five group sizes add up to the history's length: every item is in exactly one group |
| HistoryView.ItemsInMembers | web/src/components/HistoryView.js:21-28 | an item is in a group iff it is in the history and its date falls in that group |
| HistoryView.GroupKeepsOrder | web/src/components/HistoryView.js:21-28 | within a group items keep their input order: grouping distributes over concatenation |
| HistoryView.KeepSize | web/src/components/HistoryView.js:30 | dropping an empty group loses no item |
| HistoryView.GroupedCovers | web/src/components/HistoryView.js:21-30 | the sections' sizes add up to the history's length |
| HistoryView.BucketOfRank | web/src/components/HistoryView.js:13-19 | each of the five positions names its own group |
| HistoryView.OrderedUpTo | web/src/components/HistoryView.js:13-30 | the sections of the first k groups come in group order, none empty, each holding its group's items |
| HistoryView.GroupedOrdered | web/src/components/HistoryView.js:13-30 | the sections come in the fixed group order, none is empty, and each holds exactly its group's items |
| HistoryView.GroupedComplete | web/src/components/HistoryView.js:30 | every non-empty group has its section |
| Screen.Dispatch | web/src/screens/SmartBrowser.js:137-182 | the console list never grows past 200 and the network list never past 50 (or their old length, when it was already longer) |
| Screen.DispatchConsole | web/src/screens/SmartBrowser.js:141-148 | a console message is appended and only the newest 200 stay; below the limit nothing is dropped; nothing else changes |
| Screen.DispatchNetwork | web/src/screens/SmartBrowser.js:149-151 | a network entry is ignored while the panel is closed; when it is open the entry goes first and at most 50 stay |
| Screen.DispatchInspected | web/src/screens/SmartBrowser.js:152-155 | an inspected element is stored and the inspector switches off |
| Screen.DispatchShows | web/src/screens/SmartBrowser.js:156-173 | storage, reader, image, find and source messages store their payload; storage and find results are only stored, while reader, image and source messages also show their panel; nothing else changes |
| Screen.DispatchIgnores | web/src/screens/SmartBrowser.js:138-181 | unparseable text, `READER_ERROR`, unknown tags, speech and alert messages change no state |
| Screen.LabelRun | web/src/screens/SmartBrowser.js:98 | the leading run of label characters fits in the text |
| Screen.LabelRunSpan | web/src/screens/SmartBrowser.js:98 | the run holds only label characters and stops at the first other one |
| Screen.DomainLikeIff | web/src/screens/SmartBrowser.js:98 | the longest-run test accepts exactly what `[a-zA-Z0-9-]+\.[a-z]{2,}` matches at the start, whatever the backtracking |
| Screen.TargetUrlSound | web/src/screens/SmartBrowser.js:96-119 | URL-like text ends up with an http(s) scheme and is otherwise kept; other text becomes a search on the chosen engine, Google for an unknown one |
| Screen.UrlishExamples | web/src/screens/SmartBrowser.js:98-103 | `ab.cd` looks like an address and gets `https://`; `a b` does not look like one |
| Screen.CurrentTab | web/src/screens/SmartBrowser.js:85 | the current tab, when found, is a listed tab with the active id |
| Screen.BrowserScreen.constructor | web/src/screens/SmartBrowser.js:60-84 | the screen starts with every panel closed and nothing received |
| Screen.BrowserScreen.HandleWebViewMessage | web/src/screens/SmartBrowser.js:137-182 | the handler's new state is the one `Dispatch` describes |
| Screen.BrowserScreen.PerformSearch | web/src/screens/SmartBrowser.js:92-133 | the query is recorded (unless incognito or blank), then the current tab is navigated to the target address |
| Screen.BrowserScreen.NavigateTo | web/src/screens/SmartBrowser.js:121-132 | a page with a view is sent the new location; the home page, or a tab without a view, has its url changed; with no current tab nothing happens |
| Screen.BrowserScreen.OnShouldBlock | web/src/screens/SmartBrowser.js:250-255 | as intended (see ## Findings): the verdict is that of the intended gate, and each block is counted once |
| Screen.BrowserScreen.ToggleDomInspector | web/src/screens/SmartBrowser.js:190-195 | the inspector flag flips and the matching inspector script is sent to the current view |
| Downloads.MatchAt | web/src/core/DownloadEngine.js:29 | a match at a position needs `filename=` there and yields a non-empty name without quotes |
| Downloads.DispositionName | web/src/core/DownloadEngine.js:28-30 | the leftmost match's group, when there is one, is a non-empty name without quotes |
| Downloads.Sanitize | web/src/core/DownloadEngine.js:34 | the name keeps its length, and each character is kept when allowed and becomes `_` otherwise |
| Downloads.DeriveFileName | web/src/core/DownloadEngine.js:17-34 | the step-by-step derivation gives `FileName`: the header's name, else the URL's, else the default, cleaned |
| Downloads.SanitizeSound | web/src/core/DownloadEngine.js:34 | the cleaned name keeps the length, uses only allowed characters, changes exactly the disallowed ones, and cleaning twice is cleaning once |
| Downloads.SanitizeKeepsClean | web/src/core/DownloadEngine.js:34 | a name of allowed characters comes through cleaning unchanged |
| Downloads.DefaultNameClean | web/src/core/DownloadEngine.js:18-34 | the default `download_<time>` name is already clean |
| Downloads.LastSegment | web/src/core/DownloadEngine.js:21-22 | the last `/`-segment of `base/last` is `last` |
| Downloads.UrlNameOfLastSegment | web/src/core/DownloadEngine.js:21-25 | `.../name?query` with a dotted name gives `name` |
| Downloads.UrlNameWithoutDot | web/src/core/DownloadEngine.js:23 | a last segment without a `.` leaves the default name |
| Downloads.SkipNoF | web/src/core/DownloadEngine.js:29 | text without an `f` cannot start a match and is skipped |
| Downloads.QuotedName | web/src/core/DownloadEngine.js:29 | a quoted name is read between its quotes |
| Downloads.UnquotedNameRunsOn | web/src/core/DownloadEngine.js:29 | an unquoted name runs to the next quote or the end of the header |
| Downloads.BeforeFirstWhole | web/src/core/DownloadEngine.js:24 | text without the separator is its own part before the first separator |
| Downloads.AttachmentHeader | web/src/core/DownloadEngine.js:28-30 | a quoted name after parameters that hold no `f`, as in `attachment; filename="n"`, is read |
| Downloads.FileNameSound | web/src/core/DownloadEngine.js:17-34 | a header name wins over the URL's, otherwise the URL's name (or the default) is used, and the result holds only allowed characters |
| Downloads.DispositionMentionsFilename | web/src/core/DownloadEngine.js:28-29 | a match needs `filename=` in a non-empty header, so the `includes` guard never hides one |
| Downloads.NewDownload | web/src/core/DownloadEngine.js:54-61 | the record holds the given fields, with `Unknown` for a missing size and `application/octet-stream` for a missing type |
| Downloads.WithoutDownloadSound | web/src/core/DownloadEngine.js:115 | exactly the records with another id remain, in order; removing twice is removing once |
| Downloads.DownloadHistory.constructor | web/src/core/DownloadEngine.js:87 | nothing is stored at first |
| Downloads.DownloadHistory.Current | web/src/core/DownloadEngine.js:93-95 | the history is the stored list, or empty when nothing was stored |
| Downloads.DownloadHistory.SaveToHistory | web/src/core/DownloadEngine.js:86-90 | the item goes first, before the old history |
| Downloads.DownloadHistory.DownloadFile | web/src/core/DownloadEngine.js:15-83 | the download succeeds iff the status is 200, and only then is its record, under the derived name, put first in the history |
| Downloads.DownloadHistory.DeleteFile | web/src/core/DownloadEngine.js:108-123 | when the file is removed the history loses the records with that id and the new list is returned; otherwise null and nothing changes |
| DownloadsView.IconSound | web/src/components/DownloadsView.js:30-35 | the icon is one of four, each chosen exactly when its word is the first of image, pdf, video that the type mentions |
| DownloadsView.FilteredDownloadsSound | web/src/components/DownloadsView.js:37-42 | the shown records are exactly the stored ones the tab accepts, in order; `all` and unknown tabs show everything |
| DownloadsView.TabsMatchIcons | web/src/components/DownloadsView.js:30-42 | the image tab shows exactly the records drawn with the image icon, and every pdf-icon record is on the documents tab |
| DownloadsView.DownloadsScreen.constructor | web/src/components/DownloadsView.js:9-10 | the screen starts with no records on the `all` tab |
| DownloadsView.DownloadsScreen.LoadDownloads | web/src/components/DownloadsView.js:16-19 | the list on show is the engine's history |
| DownloadsView.DownloadsScreen.SetFilter | web/src/components/DownloadsView.js:10 | the tab is selected |
| DownloadsView.DownloadsScreen.HandleDelete | web/src/components/DownloadsView.js:21-24 | after a delete the list on show is the engine's new list; it stays as it was when the file could not be removed |
| DownloadsView.DeleteHidesRecord | web/src/components/DownloadsView.js:21-42 | after a successful delete no record with that id is on show, whatever the tab |
| Gallery.RoundRatio | web/src/components/ImageGalleryView.js:79 | `Math.round(a / b)` is the integer nearest to a/b, halves rounded up |
| Gallery.FallbackRowHeight | web/src/components/ImageGalleryView.js:65-79 | an image whose size lookup failed (ratio 1.5) is one and a half widths high, rounded |
| Gallery.Heights | web/src/components/ImageGalleryView.js:79 | one height per meta entry: the width times the ratio, rounded, or 70% of the screen height when the entry is missing |
| Gallery.OffsetsSound | web/src/components/ImageGalleryView.js:80-85 | the offsets are the prefix sums of the heights: as many as rows, the first 0, each next one the previous plus its row's height, never decreasing, the last plus its height the total |
| Gallery.SumConstant | web/src/components/ImageGalleryView.js:146 | rows of equal height `h` sit at multiples of `h` |
| Gallery.SetMeta | web/src/components/ImageGalleryView.js:55-66 | writing `copy[idx]` sets that entry, leaves the others, and past the end grows the list with missing entries |
| Gallery.ReadyOnceAllAnswered | web/src/components/ImageGalleryView.js:50-70 | once every image has answered, in any order and however often, `allMetaReady` holds |
| Gallery.AnsweredStays | web/src/components/ImageGalleryView.js:55-66 | an image that has answered keeps a meta entry through every later answer |
| Gallery.ApplyAllKeepsLength | web/src/components/ImageGalleryView.js:50-70 | answers for indexes within the list keep its length |
| Gallery.StaleAnswerBlocksReady | web/src/components/ImageGalleryView.js:131 | an answer for an index past the current list makes the list too long, so the gallery is not ready |
| Gallery.AnswerKeepsReady | web/src/components/ImageGalleryView.js:131 | an answer within the list never takes readiness away |
| Gallery.Toggled | web/src/components/ImageGalleryView.js:89-93 | the uri changes membership and every other uri keeps it |
| Gallery.ToggleTwice | web/src/components/ImageGalleryView.js:89-93 | toggling twice restores the selection |
| Gallery.SelectionStatus | web/src/components/ImageGalleryView.js:95-98 | there is an alert exactly when something is selected |
| Gallery.LayoutsAdjoin | web/src/components/ImageGalleryView.js:144-148 | with computed offsets each row starts where the row above it ends |
| Gallery.FallbackLayoutAgrees | web/src/components/ImageGalleryView.js:146 | before any image is measured the fallback placement equals the computed offsets on every row |
| Gallery.GalleryState.constructor | web/src/components/ImageGalleryView.js:23-27 | no selection, no open reader, no meta and no offsets at first |
| Gallery.GalleryState.ResetMeta | web/src/components/ImageGalleryView.js:42-50 | no images clear the meta and the offsets; otherwise every image starts without meta |
| Gallery.GalleryState.SizeLoaded | web/src/components/ImageGalleryView.js:54-60 | the measured ratio `h / w` is stored for the image |
| Gallery.GalleryState.SizeFailed | web/src/components/ImageGalleryView.js:61-68 | the fallback ratio 1.5 is stored for the image |
| Gallery.GalleryState.UpdateOffsets | web/src/components/ImageGalleryView.js:74-87 | the loop leaves the running sums of the row heights as the offsets |
| Gallery.GalleryState.ToggleSelection | web/src/components/ImageGalleryView.js:89-93 | the selection becomes the toggled set |
| Gallery.GalleryState.OpenReaderAt | web/src/components/ImageGalleryView.js:101-119 | the reader opens on the index and scrolls to that row's offset exactly when the reader is mounted and the offset is known |
| Gallery.GalleryState.CloseReader | web/src/components/ImageGalleryView.js:121-129 | the reader closes |
| ReaderView.ClampsSound | web/src/components/NativeReaderView.js:121-125 | minus never goes below 14 and plus never above 40; within the range each press moves by 2, and a size in 14..40 stays there |
| ReaderView.DigitRun | web/src/components/NativeReaderView.js:43 | `parseInt` reads the longest run of leading digits |
| ReaderView.ParseIntRoundTrip | web/src/components/NativeReaderView.js:43-54 | a size saved as `toString()` reads back as the same size |
| ReaderView.NaturalRoundTrip | web/src/components/NativeReaderView.js:43-54 | a non-negative size reads back unchanged |
| ReaderView.NegativeRoundTrip | web/src/components/NativeReaderView.js:43-54 | a negative size, written with its minus sign, reads back unchanged |
| ReaderView.ParsePlain | web/src/components/NativeReaderView.js:43 | a string of digits parses to its decimal value |
| ReaderView.ParseMinus | web/src/components/NativeReaderView.js:43 | a minus sign before digits negates their value |
| ReaderView.NoDigitsIsNaN | web/src/components/NativeReaderView.js:43 | text that does not start with white space, a sign or a digit parses to NaN |
| ReaderView.SignWithoutDigitsIsNaN | web/src/components/NativeReaderView.js:43 | a `-` or `+` not followed by a digit parses to NaN; no white space is skipped after the sign |
| ReaderView.TrailingTextIgnored | web/src/components/NativeReaderView.js:43 | text after the digits is ignored |
| ReaderView.NatToStringValue | web/src/components/NativeReaderView.js:54 | the decimal digits of `n` have the value `n` |
| ReaderView.CopyTextSound | web/src/components/NativeReaderView.js:68 | the copied text starts with the title and a blank line and holds every paragraph; one paragraph follows the title directly |
| ReaderView.ReaderScreen.constructor | web/src/components/NativeReaderView.js:28-30 | size 20, the Cairo font, settings hidden |
| ReaderView.ReaderScreen.LoadSettings | web/src/components/NativeReaderView.js:39-48 | a stored non-empty size is parsed and taken, a stored non-empty font is taken, and anything else is left as it was |
| ReaderView.ReaderScreen.SaveSettings | web/src/components/NativeReaderView.js:50-63 | a truthy size is shown and stored as text, a non-empty font is shown and stored, and nothing else changes |
| ReaderView.ReaderScreen.DecreaseFont | web/src/components/NativeReaderView.js:121 | the size becomes `max(14, size - 2)` and is stored, unless that is NaN |
| ReaderView.ReaderScreen.IncreaseFont | web/src/components/NativeReaderView.js:125 | the size becomes `min(40, size + 2)` and is stored, unless that is NaN |
| ReaderView.ReaderScreen.ChooseFont | web/src/components/NativeReaderView.js:137 | the chosen font is shown and stored; the size is kept |
| ReaderView.ReaderScreen.ToggleSettings | web/src/components/NativeReaderView.js:108 | the settings panel flips |
| ReaderView.ReaderScreen.HandleCopyContent | web/src/components/NativeReaderView.js:65-74 | without an article nothing happens; with one the clipboard holds its text and the copied alert is shown |
| ReaderView.ResizeThenReopen | web/src/components/NativeReaderView.js:39-125 | a size changed with minus or plus is the size loaded when the reader opens again |
| WebView.CombinedInjection | web/src/components/BrowserWebView.js:29-35 | the pre-content bundle is the blocker, the network interceptor and the console interceptor in that order, with the translator script last exactly when the translator is on |
| WebView.RenderRecomputesOnlyOnChange | web/src/components/BrowserWebView.js:29-36 | a render returns a bundle built from its current dependencies, and returns the cached one unchanged when no dependency changed |
| WebView.WebViewProps | web/src/components/BrowserWebView.js:70-125 | the web view loads the tab's URL with the bundle, uses the desktop agent iff desktop mode is on, and shares cookies iff the tab is not incognito |
| WebView.DarkModeIdempotent | web/src/components/BrowserWebView.js:38-52 | applying a mode twice equals applying it once, and leaves exactly one dark style when on and none when off |
| WebView.ApplyDarkMode | web/src/components/BrowserWebView.js:38-52 | without a ref nothing happens; otherwise only the page's dark-style count changes, and the page invariant is kept |
| WebView.CallbackRefLoadsLight | web/src/screens/SmartBrowser.js:218 | with the callback ref the screen passes, a page loaded in forced dark mode gets no dark style |
| WebView.DarkStylesOnLoad | web/src/components/BrowserWebView.js:85-87 | as intended: in dark mode the page ends with the dark style (exactly one on a page with at most one); otherwise nothing changes |
| WebView.OnLoadAgreesWithObjectRef | web/src/components/BrowserWebView.js:85-87 | the code as written and as intended agree exactly when the ref is an object ref or dark mode is off |
| WebView.OnLoad | web/src/components/BrowserWebView.js:85-87 | as intended (see ## Findings), with the view reached through an object ref: on load the page's dark styles become `DarkStylesOnLoad` of the old count, and nothing else on the page changes |
| WebView.ShouldStartLoad | web/src/components/BrowserWebView.js:95-98 | as intended (see ## Findings): a request proceeds iff the intended blocking gate lets it through, and each refused request adds one to the blocked-ads counter |
| WebView.OpenWindow | web/src/components/BrowserWebView.js:101-107 | every pop-up window is refused |

## Left out

- `toLowerCase` and the case-insensitive `i` flag of a regular expression are modelled for ASCII letters only. JavaScript also folds non-ASCII capitals such as `É` or `Ω`. Where an input holds such capitals, the members below differ from the source.
- CountMatches (Features): `new RegExp("(" + query + ")", "gi")` (web/src/core/FeatureScripts.js:23) also matches `É` against `é`, so for non-ASCII letters the model counts fewer matches than the page.
- HighlightPieces (Features): marks only the ASCII-case-insensitive matches, so it marks fewer pieces than the page for non-ASCII letters.
- CleanDomain (Session): keeps non-ASCII capitals that `toLowerCase` would lower.
- ShouldBlockRequest (AdBlock): compares the URL and the user domains lowercased for ASCII only.
- IsBadTextBox (AdBlock): the bad-word test on `innerText.toLowerCase()` (web/src/core/AdBlockEngine.js:104) folds ASCII capitals only.
- BadHref (AdBlock): the `href.toLowerCase()` test (web/src/core/AdBlockEngine.js:77) folds ASCII capitals only.
- CountTag (DevTools): same-tag siblings are compared by `nodeName.toLowerCase()` (web/src/core/DevToolsEngine.js:183), folded for ASCII only.
- Step (DevTools): the selector's tag name is `nodeName.toLowerCase()` (web/src/core/DevToolsEngine.js:175), folded for ASCII only.
- Kept (Reader): the forbidden-word and link tests run on text lowercased for ASCII only (web/src/core/ReaderModeEngine.js:72), so a line such as `\u212AOLNOVEL` (KELVIN SIGN, which `toLowerCase` maps to `k`) is dropped by the page and kept by the model; KeptLinesIff and ExtractedLinesSound inherit this.
- The cookie jar is keyed by name alone. It holds the cookies a page stored with `Path=/` and no `Domain`, the only kind the browser's own scripts write (web/src/core/FeatureScripts.js:78, web/src/core/DevToolsEngine.js:260-262). A cookie the page stored under another path or a `Domain` attribute still shows in `document.cookie`, but a `path=/` write neither replaces nor evicts it, and a SET of its name adds a second cookie. The members below are stated for the name-keyed jar.
- AssignCookie (Guest): a write replaces or evicts the cookie of that name; the source does this only for a `Path=/`, host-only cookie.
- CookieExpireText (Guest): the expiry evicts only a `Path=/`, host-only cookie in the source.
- ExpireWith (Features): same restriction as CookieExpireText.
- ExpireSegments (Features): same restriction, for each segment.
- ExpireAllSegments (Features): same restriction, for each segment.
- ClearDataEvictsEveryCookie (Features): in the source, cookies stored under another path or with a `Domain` survive "clear data".
- JarAfterPlainKey (DevTools): the key is evicted or set only when its cookie is a `Path=/`, host-only cookie.
- Find in page puts `text.replace(regex, '<mark…>$1</mark>')` into a span's `innerHTML` without escaping the text (web/src/core/FeatureScripts.js:30). The page re-parses `<` and `&`, so text holding them can turn into elements or entities. The model re-inserts the text verbatim, so the members below hold for text nodes with no `<` and no `&`.
- HighlightPieces (Features): the pieces are the text verbatim.
- HighlightPiecesSound (Features): "the pieces read back as the text" assumes no `<` or `&` in the text.
- TraverseSound (Features): inherits the same assumption for every text node.
- FindInPageSound (Features): "the page reads as before apart from the marks" assumes no text node holds `<` or `&`.
- SearchAgainReplacesMarks (Features): same assumption over both searches.
- The cookie tab lists `Object.entries(raw)` (web/src/components/StorageManagerView.js:31). JavaScript lists integer-like keys first, in ascending order, and a `__proto__` key sets the prototype instead of an entry. The model lists entries in insertion order and keeps every name, so the members below hold for names that are neither array indexes nor `__proto__`. For example, `b=1; 2=x` lists `2` first in the source.
- ParseCookieStringRoundTrip (StorageView): the jar comes back in its order only when no name is an array index or `__proto__`.
- SetItemAppends (StorageView): a new key goes last only when it is not an array index or `__proto__`.
- ParseCookieText (StorageView): insertion order; same restriction.
- JavaScript strings are sequences of UTF-16 code units; the model's strings are sequences of Unicode scalar values. The two agree on text without characters outside the Basic Multilingual Plane.
- Sanitize (Downloads): `/[^a-zA-Z0-9._-]/g` without the `u` flag (web/src/core/DownloadEngine.js:34) replaces each half of a surrogate pair, so `😀.png` becomes `__.png` in the source and `_.png` in the model.
- SanitizeSound (Downloads): "the name keeps its length" counts scalar values, not code units.
- CapturedData (DevTools): `substring(0, 1000)` (web/src/core/DevToolsEngine.js:73) counts UTF-16 code units; the model counts scalar values.
- Inspected (DevTools): `outerHTML.substring(0, 300)` (web/src/core/DevToolsEngine.js:211) counts UTF-16 code units; the model counts scalar values.
- ViewSourceBound (Features): `substring(0, 20000)` (web/src/core/FeatureScripts.js:62) counts code units and can split a surrogate pair; the model counts scalar values.
- Floating-point arithmetic. Gallery ratios are exact fractions, and `Math.round(width * ratio)` is rounding of the exact quotient. A double can round a value that lies within an ulp of a half differently.
- SizeLoaded (Gallery): requires a positive width. The source stores `ratio: h / w` (web/src/components/ImageGalleryView.js:57) for whatever `Image.getSize` reports, so a zero width gives `Infinity` and an infinite row height; the model has no such ratio.
- Layout sizes are whole numbers. `getBoundingClientRect` returns doubles, but the reader's hidden-element test (`rect.width === 0 || rect.height === 0`, web/src/core/ReaderModeEngine.js:25-26, `Reader.IsElementHidden`) and the scrubber's overlay test (`rect.height > 100`, `rect.top > 50`, web/src/core/AdBlockEngine.js:86-109, `AdBlock.ScanCandidate`) read them as integers in the model. A fractional size such as 100.5 counts as above 100 in the source, and the model has no such value.
- The native calls are not modelled: alerts, speech, the clipboard (except the reader's copy text), sharing, printing, the file system, `Linking`, and the web view's own file download (`onFileDownload`). `openFile` in web/src/core/DownloadEngine.js only hands the file to the share sheet.
- `Math.random`, `Date.now`, `toLocaleTimeString` and `generateUUID` results are parameters. The clock's local midnight is a parameter of the history grouping.
- `AsyncStorage` and `Storage.js` are not modelled as devices. Storage is a map or a write log, and a failing read or write is not modelled.
- `JSON.parse` and `JSON.stringify` are not modelled. An envelope that arrives is already parsed or has failed to parse, and stored values are kept as records.
- `new URL` in `extractDomain` and `encodeURIComponent` in the search URL are parameters.
- The live DOM is not modelled: `getComputedStyle`, layout, `MutationObserver` and `setTimeout`. The page is a record or a value tree, and the debounce is an abstract timer with explicit ticks. Find in page is modelled for queries without regular-expression metacharacters or quotes.
- Updates in place on DOM nodes are not captured. Each scrubber step maps an element record to its new record, so aliasing between nodes is not captured.
- Text spliced into generated scripts is taken to parse as intended. The host builds several scripts by pasting text between quotes, and a quote, a backslash or `${` in that text changes or breaks the script. The value written by the storage updater is the one case modelled (see ## Findings); the lines below name the others.
- UpdateStorage (DevTools): the key is pasted unescaped into `'…'` literals (web/src/core/DevToolsEngine.js:251-262). A key such as `it's` makes the whole script a syntax error, so nothing is stored and nothing is posted. A key holding `\` is stored under a different key. The model stores and posts under the key as typed.
- WriteStores (DevTools): the same unescaped key; the model writes under the key as typed.
- StoresAfter (DevTools): the same unescaped key.
- FreshStyleText (AdBlock): the stylesheet is pasted into a backtick template (web/src/core/AdBlockEngine.js:48). A rule holding a backtick, `\` or `${` changes or breaks the style, so "holds exactly the stylesheet" holds only for rules without them.
- Inject (AdBlock.TitaniumPage): installs the style of FreshStyleText, with the same restriction on the rules.
- AddBlockRule (Session.BrowserSession): the instant apply pastes the selector into `addCustomRule('…')` (web/src/hooks/useBrowserLogic.js:218). Selectors come from the inspector's CSS paths with raw ids, so a `'` in an id breaks that injection; the model sends the rule to the current tab as a command that always applies.
- `eval` of user scripts and of console commands is not modelled. Only which scripts run, and that each runs in its own `try`, is modelled.
- The monkey-patched `console`, `fetch` and `XMLHttpRequest` are not modelled as runtime mechanisms. The original console call the interceptor forwards to is not modelled, and neither is the asynchronous body read of a response. The capture rule and the truncation are modelled.
- React state batching is not modelled. Setter calls take effect in program order, one after another.
- `loadData` in web/src/hooks/useBrowserLogic.js is modelled for its tab part only (`Session.BrowserSession.LoadTabs`). The other saved settings it restores (websites, history sorted by date, flags, engine, scripts, rules, domains, search history) are plain assignments and are not modelled.
- Rendering, styles, icons as images, the font list's presentation and every presentation-only component are not modelled.
- PageMods.js and TranslationEngine.js are not part of this model. The translator toggle is modelled only as the flag it flips and the script it sends.
- `TitaniumRules.whitelist` (web/src/core/AdBlockEngine.js:11-13) is never read by the browser, so it is not modelled.
- `executeFeature` in web/src/screens/SmartBrowser.js is not modelled on its own. It injects a generated script into the current tab's web view, and the model sends that script as a command to the current tab.
- `HistoryView.Grouped` keeps the `groups` object's key order. JavaScript orders integer-like keys first, and none of the five bucket names is one.

## Findings

| source | as written | input that shows it | evidently intended | confidence | as-written member | corrected member |
|---|---|---|---|---|---|---|
| web/src/core/AdBlockEngine.js:88-101 | the candidate pass skips every element whose `offsetParent` is null, and then tests for `position: fixed` overlays | any attached `position: fixed` overlay with z-index above 900, height above 100 and top above 50: CSSOM gives every fixed element a null `offsetParent`, so the overlay is skipped and never removed | skip only detached or unrendered elements, so fixed overlays are removed | not executed | `AdBlock.FixedOverlayEscapesAsWritten` (on `AdBlock.ScanCandidateAsWritten`) | `AdBlock.FixedOverlayRemoved` (on `AdBlock.ScanCandidate`) |
| web/src/core/DevToolsEngine.js:246 | `safeValue` escapes backslashes and single quotes only, and is placed inside a single-quoted literal of the generated script | the value `a\nb` (with a line break): the literal then holds a raw line break, so the generated script does not parse and nothing is stored | also escape line breaks, so the literal always parses to the original value | not executed | `DevTools.LineBreakBreaksLiteral` (on `DevTools.SafeValueAsWritten`) | `DevTools.EscapeRoundTrip`, `DevTools.SafeValueRoundTrip` (on `DevTools.SafeValue`) |
| web/src/components/BrowserWebView.js:85-87 | `onLoad` applies forced dark mode through `ref.current`, but the browser screen passes a callback ref (web/src/screens/SmartBrowser.js:218), which `forwardRef` hands on as a function with no `current` | any page loaded while forced dark mode is on: `applyDarkMode(undefined)` returns at once, so the page loads without the dark style | apply the dark style to the loaded view, so a page loaded in dark mode is dark | not executed | `WebView.CallbackRefLoadsLight` (on `WebView.DarkStylesOnLoadAsWritten`) | `WebView.DarkStylesOnLoad`, `WebView.OnLoad` |
| web/src/core/AdBlockEngine.js:160-163 | a user entry is matched after `replace(/^https?:\/\/(www\.)?/, '')`, which removes `www.` only right after a scheme, while entries are stored only trimmed and lowercased (web/src/hooks/useBrowserLogic.js:229-235) | the entry `www.example.com` and the request `https://www.example.com/`: the URL becomes `example.com/`, the entry stays `www.example.com`, so the user's block has no effect | drop a leading `www.` from every entry, so an entry blocks its host with or without `www.` (the code's own comment calls the matching loose) | not executed | `AdBlock.WwwEntryMissesAsWritten` (on `AdBlock.ShouldBlockRequestAsWritten`) | `AdBlock.WwwEntryBlocks`, `AdBlock.IntendedBlocksMore` (on `AdBlock.ShouldBlockRequest`) |
