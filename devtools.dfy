/** web/src/core/DevToolsEngine.js: the console and network interceptors
    with their install guards, the element inspector with its CSS-path
    builder, and the storage reader and updater. Each injected script is a
    method on the page it runs in. */
module DevTools {
  import opened Text
  import opened Bus
  import opened BrowserTypes
  import opened Guest

  // ----------------------------------------------------------------------
  // Console interceptor
  // ----------------------------------------------------------------------

  /** A console argument as `sendToApp` tells them apart. `Object` carries
      what `JSON.stringify` gives, None when it throws (a cycle); `Other`
      carries `String(arg)`. */
  datatype JsValue = Null | Undefined | Object(json: Option<string>) | Other(text: string)

  function FormatArg(v: JsValue): string {
    match v
    case Null => "null"
    case Undefined => "undefined"
    case Object(json) => if json.Some? then json.value else "[Circular Object]"
    case Other(text) => text
  }

  function FormatArgs(args: seq<JsValue>): (r: seq<string>)
    ensures |r| == |args|
    ensures forall i :: 0 <= i < |args| ==> r[i] == FormatArg(args[i])
  {
    seq(|args|, i requires 0 <= i < |args| => FormatArg(args[i]))
  }

  /** The `CONSOLE_LOG` payload: the formatted arguments joined by spaces. */
  function FormatMessage(args: seq<JsValue>): string {
    Join(FormatArgs(args), " ")
  }

  /** Every argument's text is in the message, and when none holds a space,
      splitting the message at spaces recovers them one by one. */
  lemma FormatMessageRecoversArgs(args: seq<JsValue>)
    requires |args| >= 1
    requires forall i :: 0 <= i < |args| ==> ' ' !in FormatArg(args[i])
    ensures Split(FormatMessage(args), ' ') == FormatArgs(args)
  {
    SplitJoin(FormatArgs(args), ' ');
  }

  lemma FormatMessageHasEveryArg(args: seq<JsValue>, k: int)
    requires 0 <= k < |args|
    ensures Contains(FormatMessage(args), FormatArg(args[k]))
  {
    JoinContainsPart(FormatArgs(args), " ", k);
  }

  /** `getConsoleInterceptorScript`: a second run returns at the guard. */
  method InstallConsoleInterceptor(page: GuestPage)
    requires page.Valid()
    modifies page
    ensures page.Valid()
    ensures old(page.consoleIntercepted) ==> page.State() == old(page.State())
    ensures !old(page.consoleIntercepted) ==>
              page.State() == old(page.State()).(consoleIntercepted := true, consolePatches := 1)
  {
    if page.consoleIntercepted {
      return;
    }
    page.consoleIntercepted := true;
    page.consolePatches := page.consolePatches + 1;
  }

  /** `console.log/error/warn/info(...args)`: reported only once patched. */
  method ConsoleCall(page: GuestPage, level: Level, args: seq<JsValue>)
    requires page.Valid()
    modifies page
    ensures page.Valid()
    ensures old(page.consoleIntercepted) ==>
              page.State() == old(page.State()).(posted := old(page.posted) + [ConsoleLog(level, FormatMessage(args))])
    ensures !old(page.consoleIntercepted) ==> page.State() == old(page.State())
  {
    if page.consoleIntercepted {
      page.posted := page.posted + [ConsoleLog(level, FormatMessage(args))];
    }
  }

  /** The `error` listener: `[Uncaught Exception] <message> at <file> : <line>`. */
  method UncaughtError(page: GuestPage, message: string, filename: string, lineno: nat)
    requires page.Valid()
    modifies page
    ensures page.Valid()
    ensures old(page.consoleIntercepted) ==>
              page.State() == old(page.State()).(posted := old(page.posted) +
                [ConsoleLog(Error, Join(["[Uncaught Exception]", message, "at", filename, ":", NatToString(lineno)], " "))])
    ensures !old(page.consoleIntercepted) ==> page.State() == old(page.State())
  {
    var args := [Other("[Uncaught Exception]"), Other(message), Other("at"), Other(filename),
                 Other(":"), Other(NatToString(lineno))];
    assert FormatArgs(args) == ["[Uncaught Exception]", message, "at", filename, ":", NatToString(lineno)];
    ConsoleCall(page, Error, args);
  }

  // ----------------------------------------------------------------------
  // Network interceptor
  // ----------------------------------------------------------------------

  /** `getNetworkInterceptorScript`: patches once and starts with capture off. */
  method InstallNetworkInterceptor(page: GuestPage)
    requires page.Valid()
    modifies page
    ensures page.Valid()
    ensures old(page.networkInterceptorInjected) ==> page.State() == old(page.State())
    ensures !old(page.networkInterceptorInjected) ==>
              page.State() == old(page.State()).(networkInterceptorInjected := true, networkPatches := 1,
                                                 networkCaptureEnabled := false)
  {
    if page.networkInterceptorInjected {
      return;
    }
    page.networkInterceptorInjected := true;
    page.networkCaptureEnabled := false;
    page.networkPatches := page.networkPatches + 1;
  }

  /** `getToggleNetworkScript(isEnabled)` */
  method ToggleNetwork(page: GuestPage, isEnabled: bool)
    requires page.Valid()
    modifies page
    ensures page.Valid()
    ensures page.State() == old(page.State()).(networkCaptureEnabled := isEnabled)
  {
    page.networkCaptureEnabled := isEnabled;
  }

  /** The captured body: `data ? String(data).substring(0, 1000) : ''`. */
  function CapturedData(data: Option<string>): (d: string)
    ensures |d| <= 1000
    ensures data.None? ==> d == ""
    ensures data.Some? ==> IsPrefix(d, data.value) && (|data.value| <= 1000 ==> d == data.value)
  {
    match data
    case None => ""
    case Some(s) => Truncate(s, 1000)
  }

  /** `sendNetworkLog`: nothing is sent while capture is off. `id` and
      `timestamp` stand for the random id and the local time. */
  method SendNetworkLog(page: GuestPage, id: string, timestamp: string, requestType: string,
                        requestMethod: string, url: string, status: Status, data: Option<string>)
    requires page.Valid()
    modifies page
    ensures page.Valid()
    ensures old(page.networkCaptureEnabled) ==>
              page.State() == old(page.State()).(posted := old(page.posted) +
                [NetworkLog(NetworkEntry(id, timestamp, requestType, requestMethod, url, status, CapturedData(data)))])
    ensures !old(page.networkCaptureEnabled) ==> page.State() == old(page.State())
  {
    if !page.networkCaptureEnabled {
      return;
    }
    var entry := NetworkEntry(id, timestamp, requestType, requestMethod, url, status, CapturedData(data));
    page.posted := page.posted + [NetworkLog(entry)];
  }

  /** The first argument of `fetch`: a `Request` object or an address. */
  datatype FetchResource = RequestObject(requestMethod: string, url: string) | Address(url: string)

  /** The method and url the fetch wrapper records: a Request's own, else
      `config.method` when truthy, else `GET`. */
  function FetchTarget(resource: FetchResource, configMethod: Option<string>): (r: (string, string))
    ensures r.1 == resource.url
    ensures resource.RequestObject? ==> r.0 == resource.requestMethod
    ensures resource.Address? && configMethod.Some? && configMethod.value != "" ==> r.0 == configMethod.value
    ensures resource.Address? && (configMethod.None? || configMethod.value == "") ==> r.0 == "GET"
  {
    match resource
    case RequestObject(m, u) => (m, u)
    case Address(u) => (if configMethod.Some? && configMethod.value != "" then configMethod.value else "GET", u)
  }

  /** How a fetch settles: a response whose clone was read as text, could not
      be decoded, or could not be cloned; or a network failure. */
  datatype FetchOutcome =
    | BodyText(status: int, text: string)
    | BodyOpaque(status: int)
    | CloneFailed(status: int)
    | FetchFailed(message: string)

  function FetchStatus(o: FetchOutcome): Status {
    if o.FetchFailed? then Failed else Code(o.status)
  }

  function FetchData(o: FetchOutcome): string {
    match o
    case BodyText(_, text) => text
    case BodyOpaque(_) => "[Binary or Opaque Data]"
    case CloneFailed(_) => "[Response Read Error]"
    case FetchFailed(message) => message
  }

  /** The patched `window.fetch` once its request settles: one `FETCH` entry
      when capture is on, none otherwise. */
  method FetchSettled(page: GuestPage, resource: FetchResource, configMethod: Option<string>,
                      outcome: FetchOutcome, id: string, timestamp: string)
    requires page.Valid() && page.networkInterceptorInjected
    modifies page
    ensures page.Valid()
    ensures old(page.networkCaptureEnabled) ==>
              page.State() == old(page.State()).(posted := old(page.posted) +
                [NetworkLog(NetworkEntry(id, timestamp, "FETCH", FetchTarget(resource, configMethod).0,
                                         resource.url, FetchStatus(outcome), CapturedData(Some(FetchData(outcome)))))])
    ensures !old(page.networkCaptureEnabled) ==> page.State() == old(page.State())
  {
    var target := FetchTarget(resource, configMethod);
    if page.networkCaptureEnabled {
      SendNetworkLog(page, id, timestamp, "FETCH", target.0, target.1, FetchStatus(outcome), Some(FetchData(outcome)));
    }
  }

  /** The XHR `load` listener's body text, by `responseType`; `readFails`
      says reading the response threw. */
  function XhrResponseData(responseType: string, responseText: string, responseJson: string, readFails: bool): (d: string)
    ensures readFails ==> d == "[Read Error]"
    ensures !readFails && (responseType == "" || responseType == "text") ==> d == responseText
    ensures !readFails && responseType == "json" ==> d == responseJson
    ensures !readFails && responseType !in {"", "text", "json"} ==> d == "[" + responseType + " data]"
  {
    if readFails then "[Read Error]"
    else if responseType == "" || responseType == "text" then responseText
    else if responseType == "json" then responseJson
    else "[" + responseType + " data]"
  }

  /** An XHR made after the patch completes (`load`) or fails (`error`). */
  method XhrSettled(page: GuestPage, requestMethod: string, url: string, loaded: bool, status: int,
                    responseType: string, responseText: string, responseJson: string, readFails: bool,
                    id: string, timestamp: string)
    requires page.Valid() && page.networkInterceptorInjected
    modifies page
    ensures page.Valid()
    ensures old(page.networkCaptureEnabled) && loaded ==>
              page.State() == old(page.State()).(posted := old(page.posted) +
                [NetworkLog(NetworkEntry(id, timestamp, "XHR", requestMethod, url, Code(status),
                   CapturedData(Some(XhrResponseData(responseType, responseText, responseJson, readFails)))))])
    ensures old(page.networkCaptureEnabled) && !loaded ==>
              page.State() == old(page.State()).(posted := old(page.posted) +
                [NetworkLog(NetworkEntry(id, timestamp, "XHR", requestMethod, url, Failed, "Network Error"))])
    ensures !old(page.networkCaptureEnabled) ==> page.State() == old(page.State())
  {
    if page.networkCaptureEnabled {
      if loaded {
        var data := XhrResponseData(responseType, responseText, responseJson, readFails);
        SendNetworkLog(page, id, timestamp, "XHR", requestMethod, url, Code(status), Some(data));
      } else {
        SendNetworkLog(page, id, timestamp, "XHR", requestMethod, url, Failed, Some("Network Error"));
      }
    }
  }

  // ----------------------------------------------------------------------
  // The CSS path of an element
  // ----------------------------------------------------------------------

  /** An element on the way from the inspected element to the root: its
      `nodeName`, `id`, and the `nodeName`s of its earlier element siblings. */
  datatype PathElement = PathElement(nodeName: string, id: string, previousSiblings: seq<string>)

  /** The earlier siblings whose lowercase name is `tag`. */
  function CountTag(siblings: seq<string>, tag: string): (n: nat)
    ensures n <= |siblings|
    decreases |siblings|
  {
    if |siblings| == 0 then 0
    else CountTag(siblings[..|siblings| - 1], tag) + (if Lower(siblings[|siblings| - 1]) == tag then 1 else 0)
  }

  /** One selector step: `tag#id` for an element with an id, else the tag,
      with `:nth-of-type(n)` when n, one more than the earlier same-tag
      siblings, is not 1. */
  function Step(e: PathElement): string {
    var tag := Lower(e.nodeName);
    if e.id != "" then tag + "#" + e.id
    else
      var nth := 1 + CountTag(e.previousSiblings, tag);
      if nth != 1 then tag + ":nth-of-type(" + NatToString(nth) + ")" else tag
  }

  /** The steps of the path, root first, for `chain[0]` the element and
      `chain[i + 1]` the parent of `chain[i]`; the first element with an id
      ends the climb. */
  function CssPathSteps(chain: seq<PathElement>): (steps: seq<string>)
    ensures |steps| <= |chain|
    ensures |chain| > 0 ==> |steps| > 0 && steps[|steps| - 1] == Step(chain[0])
    decreases |chain|
  {
    if |chain| == 0 then []
    else if chain[0].id != "" then [Step(chain[0])]
    else CssPathSteps(chain[1..]) + [Step(chain[0])]
  }

  /** Below the first id the path splits into the part above and the part
      below the cut. */
  lemma {:induction false} CssPathSplit(chain: seq<PathElement>, k: int)
    requires 0 <= k <= |chain|
    requires forall i :: 0 <= i < k ==> chain[i].id == ""
    ensures CssPathSteps(chain) == CssPathSteps(chain[k..]) + CssPathSteps(chain[..k])
    decreases k
  {
    if k == 0 {
      assert chain[..0] == [] && chain[0..] == chain;
    } else {
      CssPathSplit(chain[1..], k - 1);
      assert chain[1..][k - 1..] == chain[k..];
      assert chain[1..][..k - 1] == chain[..k][1..];
      assert chain[..k][0] == chain[0];
    }
  }

  /** Without ids the path has one step per element, the root's first. */
  lemma {:induction false} CssPathNoIds(chain: seq<PathElement>)
    requires forall i :: 0 <= i < |chain| ==> chain[i].id == ""
    ensures |CssPathSteps(chain)| == |chain|
    ensures forall i :: 0 <= i < |chain| ==> CssPathSteps(chain)[|chain| - 1 - i] == Step(chain[i])
    decreases |chain|
  {
    if |chain| > 0 {
      CssPathNoIds(chain[1..]);
      var rest := CssPathSteps(chain[1..]);
      assert CssPathSteps(chain) == rest + [Step(chain[0])];
      forall i | 1 <= i < |chain|
        ensures CssPathSteps(chain)[|chain| - 1 - i] == Step(chain[i])
      {
        assert rest[|chain| - 1 - i] == Step(chain[1..][i - 1]);
      }
    }
  }

  /** The nearest element with an id starts the path, and nothing above it
      appears. */
  lemma CssPathFromFirstId(chain: seq<PathElement>, k: int)
    requires 0 <= k < |chain| && chain[k].id != ""
    requires forall i :: 0 <= i < k ==> chain[i].id == ""
    ensures |CssPathSteps(chain)| == k + 1
    ensures CssPathSteps(chain)[0] == Step(chain[k])
  {
    CssPathSplit(chain, k);
    CssPathNoIds(chain[..k]);
  }

  /** The earlier same-tag siblings, counted one by one from the nearest. */
  method NthOfType(siblings: seq<string>, tag: string) returns (nth: nat)
    ensures nth == 1 + CountTag(siblings, tag)
  {
    nth := 1;
    var j := 0;
    while j < |siblings|
      invariant 0 <= j <= |siblings|
      invariant nth == 1 + CountTag(siblings[..j], tag)
    {
      assert siblings[..j + 1][..j] == siblings[..j];
      if Lower(siblings[j]) == tag {
        nth := nth + 1;
      }
      j := j + 1;
    }
    assert siblings[..j] == siblings;
  }

  /** One more element without an id puts its step in front. */
  lemma CssPathGrow(chain: seq<PathElement>, i: int)
    requires 0 <= i < |chain|
    requires forall j :: 0 <= j <= i ==> chain[j].id == ""
    ensures CssPathSteps(chain[..i + 1]) == [Step(chain[i])] + CssPathSteps(chain[..i])
  {
    var c := chain[..i + 1];
    CssPathSplit(c, i);
    assert c[..i] == chain[..i];
    assert c[i..] == [chain[i]];
    assert [chain[i]][1..] == [];
    assert CssPathSteps([chain[i]]) == [Step(chain[i])];
  }

  /** The element with an id puts its step in front and ends the path. */
  lemma CssPathStop(chain: seq<PathElement>, i: int)
    requires 0 <= i < |chain| && chain[i].id != ""
    requires forall j :: 0 <= j < i ==> chain[j].id == ""
    ensures CssPathSteps(chain) == [Step(chain[i])] + CssPathSteps(chain[..i])
  {
    CssPathSplit(chain, i);
    assert CssPathSteps(chain[i..]) == [Step(chain[i])];
  }

  /** `getCssPath`: climb from the element, putting each step in front, and
      stop after the first element with an id. */
  method GetCssPath(chain: seq<PathElement>) returns (selector: string)
    ensures selector == Join(CssPathSteps(chain), " > ")
  {
    var path: seq<string> := [];
    var i := 0;
    while i < |chain|
      invariant 0 <= i <= |chain|
      invariant forall j :: 0 <= j < i ==> chain[j].id == ""
      invariant path == CssPathSteps(chain[..i])
    {
      var el := chain[i];
      var tag := Lower(el.nodeName);
      if el.id != "" {
        CssPathStop(chain, i);
        path := [tag + "#" + el.id] + path;
        return Join(path, " > ");
      }
      var nth := NthOfType(el.previousSiblings, tag);
      var step := if nth != 1 then tag + ":nth-of-type(" + NatToString(nth) + ")" else tag;
      CssPathGrow(chain, i);
      path := [step] + path;
      i := i + 1;
    }
    assert chain[..i] == chain;
    selector := Join(path, " > ");
  }

  // ----------------------------------------------------------------------
  // Element inspector
  // ----------------------------------------------------------------------

  /** `getDomInspectorScript(true)`: installs once per activation. */
  method InspectorOn(page: GuestPage)
    requires page.Valid()
    modifies page
    ensures page.Valid()
    ensures old(page.inspectorActive) ==> page.State() == old(page.State())
    ensures !old(page.inspectorActive) ==>
              page.State() == old(page.State()).(inspectorActive := true, inspectorStyles := 1,
                                                 inspectorListenerPairs := 1, removeInspectorDefined := true)
  {
    if page.inspectorActive {
      return;
    }
    page.inspectorActive := true;
    page.inspectorStyles := page.inspectorStyles + 1;
    page.removeInspectorDefined := true;
    page.inspectorListenerPairs := page.inspectorListenerPairs + 1;
  }

  /** `getDomInspectorScript(false)`: only `window.removeInspector()`, when
      defined; it detaches both listeners, the style and the highlight. */
  method InspectorOff(page: GuestPage)
    requires page.Valid()
    modifies page
    ensures page.Valid()
    ensures !old(page.removeInspectorDefined) ==> page.State() == old(page.State())
    ensures old(page.removeInspectorDefined) ==>
              page.State() == old(page.State()).(inspectorActive := false, inspectorStyles := 0,
                                                 inspectorListenerPairs := 0, highlighted := false)
  {
    if page.removeInspectorDefined {
      page.inspectorListenerPairs := 0;
      page.inspectorStyles := 0;
      page.highlighted := false;
      page.inspectorActive := false;
    }
  }

  /** Turning the inspector off leaves no listener, style or highlight. */
  lemma InspectorOffClean(s: PageState)
    requires ValidState(s) && s.removeInspectorDefined
    ensures var t := s.(inspectorActive := false, inspectorStyles := 0, inspectorListenerPairs := 0, highlighted := false);
            ValidState(t) && t.inspectorListenerPairs == 0 && t.inspectorStyles == 0 && !t.highlighted
  {
  }

  /** `mouseover` while the listener is attached highlights the target. */
  method MouseOver(page: GuestPage)
    requires page.Valid()
    modifies page
    ensures page.Valid()
    ensures page.State() == old(page.State()).(highlighted := old(page.highlighted) || old(page.inspectorActive))
  {
    if page.inspectorListenerPairs == 1 {
      page.highlighted := true;
    }
  }

  /** The `ELEMENT_INSPECTED` payload for a clicked element; the html
      preview is at most 300 characters. */
  function Inspected(tagName: string, id: string, className: string, chainSelector: string, outerHtml: string): (e: InspectedElement)
    ensures |e.html| <= 300 && IsPrefix(e.html, outerHtml)
  {
    InspectedElement(tagName, id, className, chainSelector, Truncate(outerHtml, 300))
  }

  /** A click while the listener is attached reports the target. */
  method InspectClick(page: GuestPage, tagName: string, id: string, className: string,
                      chain: seq<PathElement>, outerHtml: string)
    requires page.Valid()
    modifies page
    ensures page.Valid()
    ensures old(page.inspectorActive) ==>
              page.State() == old(page.State()).(posted := old(page.posted) +
                [ElementInspected(Inspected(tagName, id, className, Join(CssPathSteps(chain), " > "), outerHtml))])
    ensures !old(page.inspectorActive) ==> page.State() == old(page.State())
  {
    if page.inspectorListenerPairs == 1 {
      var selector := GetCssPath(chain);
      page.posted := page.posted + [ElementInspected(Inspected(tagName, id, className, selector, outerHtml))];
    }
  }

  // ----------------------------------------------------------------------
  // Storage reader and updater
  // ----------------------------------------------------------------------

  /** `getStorageReaderScript` */
  method ReadStorage(page: GuestPage)
    requires page.Valid()
    modifies page
    ensures page.Valid()
    ensures page.State() == old(page.State()).(posted := old(page.posted) + [StorageData(old(page.Snapshot()))])
  {
    page.posted := page.posted + [StorageData(page.Snapshot())];
  }

  /** The escape sequences a single-quoted JavaScript string literal may use
      in what the updater generates. */
  function EscapedChar(c: char): Option<char> {
    if c == '\\' || c == '\'' || c == '"' then Some(c)
    else if c == 'n' then Some('\n')
    else if c == 'r' then Some('\r')
    else if c == 't' then Some('\t')
    else None
  }

  /** The value of a single-quoted string literal with body `t`, or None when
      the body does not parse: a bare quote or line break, a trailing
      backslash, or an escape outside `EscapedChar`. */
  function DecodeLiteral(t: string): Option<string>
    decreases |t|
  {
    if |t| == 0 then Some("")
    else if t[0] == '\\' then
      if |t| == 1 || EscapedChar(t[1]).None? then None
      else
        var rest := DecodeLiteral(t[2..]);
        if rest.None? then None else Some([EscapedChar(t[1]).value] + rest.value)
    else if t[0] == '\'' || t[0] == '\n' || t[0] == '\r' then None
    else
      var rest := DecodeLiteral(t[1..]);
      if rest.None? then None else Some([t[0]] + rest.value)
  }

  /** `value.replace(/\\/g, '\\\\')` */
  function DoubleBackslashes(s: string): string
    decreases |s|
  {
    if |s| == 0 then "" else (if s[0] == '\\' then "\\\\" else [s[0]]) + DoubleBackslashes(s[1..])
  }

  /** `.replace(/'/g, "\\'")` */
  function EscapeQuotes(s: string): string
    decreases |s|
  {
    if |s| == 0 then "" else (if s[0] == '\'' then "\\'" else [s[0]]) + EscapeQuotes(s[1..])
  }

  /** `safeValue` as written: backslashes doubled, then quotes escaped; a
      null or empty value gives ''. Line breaks pass through unescaped. */
  function SafeValueAsWritten(value: Option<string>): string {
    if value.None? || value.value == "" then "" else EscapeQuotes(DoubleBackslashes(value.value))
  }

  lemma {:induction false} EscapeQuotesConcat(a: string, b: string)
    ensures EscapeQuotes(a + b) == EscapeQuotes(a) + EscapeQuotes(b)
    decreases |a|
  {
    if |a| == 0 {
      assert a + b == b;
    } else {
      assert (a + b)[0] == a[0];
      assert (a + b)[1..] == a[1..] + b;
      EscapeQuotesConcat(a[1..], b);
    }
  }

  lemma {:induction false} EscapeQuotesNoQuote(s: string)
    requires '\'' !in s
    ensures EscapeQuotes(s) == s
    decreases |s|
  {
    if |s| > 0 {
      EscapeQuotesNoQuote(s[1..]);
      assert [s[0]] + s[1..] == s;
    }
  }

  /** The literal body, one character at a time. */
  function EscapeCharAsWritten(c: char): string {
    if c == '\\' then "\\\\" else if c == '\'' then "\\'" else [c]
  }

  function EscapeAsWritten(s: string): string
    decreases |s|
  {
    if |s| == 0 then "" else EscapeCharAsWritten(s[0]) + EscapeAsWritten(s[1..])
  }

  /** The two passes are one character-wise escape. */
  lemma {:induction false} TwoPassesAsOne(s: string)
    ensures EscapeQuotes(DoubleBackslashes(s)) == EscapeAsWritten(s)
    decreases |s|
  {
    if |s| > 0 {
      TwoPassesAsOne(s[1..]);
      var head := if s[0] == '\\' then "\\\\" else [s[0]];
      EscapeQuotesConcat(head, DoubleBackslashes(s[1..]));
      if s[0] == '\'' {
        assert head[1..] == "";
        assert EscapeQuotes(head) == "\\'";
      } else {
        EscapeQuotesNoQuote(head);
      }
    }
  }

  lemma {:induction false} DecodeAfterPrefix(p: string, c: char, rest: string)
    requires DecodeLiteral(p) == Some([c]) && (p == [c] || (|p| == 2 && p[0] == '\\'))
    ensures DecodeLiteral(rest).None? ==> DecodeLiteral(p + rest).None?
    ensures DecodeLiteral(rest).Some? ==> DecodeLiteral(p + rest) == Some([c] + DecodeLiteral(rest).value)
  {
    if p == [c] {
      assert (p + rest)[1..] == rest;
    } else {
      var t := p + rest;
      assert t[0] == '\\' && t[1] == p[1] && |t| >= 2;
      assert t[2..] == rest;
      assert DecodeLiteral(p[2..]) == Some("");
      assert DecodeLiteral(p).value == [EscapedChar(p[1]).value] + "";
      assert DecodeLiteral(p).value[0] == EscapedChar(p[1]).value;
    }
  }

  lemma DecodeEscapedCharAsWritten(c: char)
    requires c != '\n' && c != '\r'
    ensures DecodeLiteral(EscapeCharAsWritten(c)) == Some([c])
  {
    var p := EscapeCharAsWritten(c);
    assert [c] + "" == [c];
    if c == '\\' || c == '\'' {
      assert p == ['\\', c] && p[2..] == "";
      assert EscapedChar(p[1]) == Some(c);
      assert DecodeLiteral(p) == Some([c] + "");
    } else {
      assert p == [c] && p[1..] == "";
      assert DecodeLiteral(p) == Some([c] + "");
    }
  }

  /** As written, the literal gives the value back when it holds no line
      break. */
  lemma {:induction false} SafeValueRoundTripAsWritten(v: string)
    requires '\n' !in v && '\r' !in v
    ensures DecodeLiteral(EscapeAsWritten(v)) == Some(v)
    decreases |v|
  {
    if |v| > 0 {
      SafeValueRoundTripAsWritten(v[1..]);
      var p := EscapeCharAsWritten(v[0]);
      DecodeEscapedCharAsWritten(v[0]);
      DecodeAfterPrefix(p, v[0], EscapeAsWritten(v[1..]));
      assert [v[0]] + v[1..] == v;
    }
  }

  /** As written, a value with a line break yields a script that does not
      parse, so the update is lost without an error report. */
  lemma LineBreakBreaksLiteral()
    ensures DecodeLiteral(SafeValueAsWritten(Some("a\nb"))) == None
  {
    TwoPassesAsOne("a\nb");
    assert EscapeAsWritten("a\nb") == "a\nb";
  }

  /** The intended escape: line breaks become `\n` and `\r` as well. */
  function EscapeChar(c: char): string {
    if c == '\\' then "\\\\"
    else if c == '\'' then "\\'"
    else if c == '\n' then "\\n"
    else if c == '\r' then "\\r"
    else [c]
  }

  function Escape(s: string): string
    decreases |s|
  {
    if |s| == 0 then "" else EscapeChar(s[0]) + Escape(s[1..])
  }

  function SafeValue(value: Option<string>): string {
    if value.None? || value.value == "" then "" else Escape(value.value)
  }

  lemma DecodeEscapedChar(c: char)
    ensures DecodeLiteral(EscapeChar(c)) == Some([c])
  {
    var p := EscapeChar(c);
    assert [c] + "" == [c];
    if c == '\\' || c == '\'' || c == '\n' || c == '\r' {
      var e := if c == '\n' then 'n' else if c == '\r' then 'r' else c;
      assert p == ['\\', e] && p[2..] == "";
      assert EscapedChar(e) == Some(c);
      assert DecodeLiteral(p) == Some([c] + "");
    } else {
      assert p == [c] && p[1..] == "";
      assert DecodeLiteral(p) == Some([c] + "");
    }
  }

  /** Every value survives the trip through the literal. */
  lemma {:induction false} EscapeRoundTrip(v: string)
    ensures DecodeLiteral(Escape(v)) == Some(v)
    decreases |v|
  {
    if |v| > 0 {
      EscapeRoundTrip(v[1..]);
      var p := EscapeChar(v[0]);
      DecodeEscapedChar(v[0]);
      DecodeAfterPrefix(p, v[0], Escape(v[1..]));
      assert [v[0]] + v[1..] == v;
    }
  }

  /** The value a SET stores: the text of the value, '' for null. */
  function StoredValue(value: Option<string>): string {
    if value.None? then "" else value.value
  }

  lemma SafeValueRoundTrip(value: Option<string>)
    ensures DecodeLiteral(SafeValue(value)) == Some(StoredValue(value))
  {
    if value.Some? && value.value != "" {
      EscapeRoundTrip(value.value);
    }
  }

  /** `localStorage`/`sessionStorage` after an action: DELETE removes the
      key, CLEAR empties the store, anything else sets the key. */
  function StoreAfter(store: seq<KeyValue>, key: string, v: string, action: string): (r: seq<KeyValue>)
    ensures UniqueKeys(store) ==> UniqueKeys(r)
    ensures action == "DELETE" ==> Lookup(r, key) == None
    ensures action == "CLEAR" ==> r == []
    ensures action != "DELETE" && action != "CLEAR" ==> Lookup(r, key) == Some(v)
    ensures action != "CLEAR" ==> forall k :: k != key ==> Lookup(r, k) == Lookup(store, k)
  {
    if action == "DELETE" then RemoveItem(store, key)
    else if action == "CLEAR" then []
    else SetItem(store, key, v)
  }

  /** The cookie jar after an action: DELETE writes an expired cookie;
      anything else, CLEAR included, writes `key=value; path=/;`. */
  function JarAfter(jar: seq<KeyValue>, key: string, v: string, action: string): (r: seq<KeyValue>)
    ensures UniqueKeys(jar) ==> UniqueKeys(r)
  {
    if action == "DELETE" then AssignCookie(jar, key + ExpiredCookieSuffix(), true)
    else AssignCookie(jar, key + "=" + v + "; path=/;", false)
  }

  /** For a plain key, a cookie DELETE evicts it and any other action
      (CLEAR too) stores the trimmed value under it. */
  lemma JarAfterPlainKey(jar: seq<KeyValue>, key: string, v: string, action: string)
    requires ';' !in key && '=' !in key && ';' !in v && Trim(key) != ""
    ensures action == "DELETE" ==> JarAfter(jar, key, v, action) == RemoveItem(jar, Trim(key))
    ensures action != "DELETE" ==> JarAfter(jar, key, v, action) == SetItem(jar, Trim(key), Trim(v))
  {
    if action == "DELETE" {
      CookieExpireText(jar, key);
    } else {
      CookieSetText(jar, key, v);
    }
  }

  /** The stores after the updater's branch on `type`: only the named store
      changes, and an unknown name changes nothing. */
  function StoresAfter(s: PageState, storeName: string, key: string, v: string, action: string): (t: PageState)
    ensures t == s.(localStorage := t.localStorage, sessionStorage := t.sessionStorage, cookieJar := t.cookieJar)
    ensures storeName != "localStorage" ==> t.localStorage == s.localStorage
    ensures storeName != "sessionStorage" ==> t.sessionStorage == s.sessionStorage
    ensures storeName != "cookies" ==> t.cookieJar == s.cookieJar
    ensures storeName == "localStorage" ==> t.localStorage == StoreAfter(s.localStorage, key, v, action)
    ensures storeName == "sessionStorage" ==> t.sessionStorage == StoreAfter(s.sessionStorage, key, v, action)
    ensures storeName == "cookies" ==> t.cookieJar == JarAfter(s.cookieJar, key, v, action)
    ensures ValidState(s) ==> ValidState(t)
  {
    if storeName == "localStorage" then s.(localStorage := StoreAfter(s.localStorage, key, v, action))
    else if storeName == "sessionStorage" then s.(sessionStorage := StoreAfter(s.sessionStorage, key, v, action))
    else if storeName == "cookies" then s.(cookieJar := JarAfter(s.cookieJar, key, v, action))
    else s
  }

  /** What the storage scripts post: both stores as JSON and the cookie string. */
  function SnapshotOf(s: PageState): StorageSnapshot {
    StorageSnapshot(Entries(s.localStorage), Entries(s.sessionStorage), CookieString(s.cookieJar))
  }

  /** Validity does not depend on what was posted. */
  lemma PostedIrrelevant(s: PageState, posted: seq<Envelope>)
    requires ValidState(s)
    ensures ValidState(s.(posted := posted))
  {
  }

  /** `getStorageUpdaterScript(type, key, value, action)` with the intended
      escape. `failure` is the message of an exception the store throws
      (quota, security), in which case nothing changes and an error is
      logged. */
  method UpdateStorage(page: GuestPage, storeName: string, key: string, value: Option<string>,
                       action: string, failure: Option<string>)
    requires page.Valid()
    modifies page
    ensures page.Valid()
    ensures failure.Some? ==>
              page.State() == old(page.State()).(posted := old(page.posted) +
                [ConsoleLog(Error, "Storage update failed: " + failure.value)])
    ensures failure.None? ==>
              var t := StoresAfter(old(page.State()), storeName, key, StoredValue(value), action);
              page.State() == t.(posted := old(page.posted) +
                [StorageData(SnapshotOf(t)), ConsoleLog(Info, "Storage updated successfully")])
  {
    if failure.Some? {
      page.Post(ConsoleLog(Error, "Storage update failed: " + failure.value));
      PostedIrrelevant(old(page.State()), page.posted);
      return;
    }
    SafeValueRoundTrip(value);
    var v := DecodeLiteral(SafeValue(value)).value;
    WriteStores(page, storeName, key, v, action);
  }

  /** The script's successful run: the store changes, then the new snapshot
      and the success message are posted. */
  method WriteStores(page: GuestPage, storeName: string, key: string, v: string, action: string)
    requires page.Valid()
    modifies page
    ensures page.Valid()
    ensures var t := StoresAfter(old(page.State()), storeName, key, v, action);
            page.State() == t.(posted := old(page.posted) +
              [StorageData(SnapshotOf(t)), ConsoleLog(Info, "Storage updated successfully")])
  {
    var t := StoresAfter(page.State(), storeName, key, v, action);
    page.SetStores(t.localStorage, t.sessionStorage, t.cookieJar);
    assert page.State() == t;
    var snapshot := page.Snapshot();
    assert snapshot == SnapshotOf(t);
    page.Post(StorageData(snapshot));
    page.Post(ConsoleLog(Info, "Storage updated successfully"));
    PostedIrrelevant(t, page.posted);
  }
}
