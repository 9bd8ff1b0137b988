/** web/src/core/FeatureScripts.js: find in page, view source and clearing a
    site's data. The page's body is an abstract node tree; the scripts'
    effects on the window are methods on the page. */
module Features {
  import opened Text
  import opened Bus
  import opened BrowserTypes
  import opened Guest

  // ----------------------------------------------------------------------
  // The document tree
  // ----------------------------------------------------------------------

  /** A text node, a `mark.smart-browser-highlight` left by an earlier
      search (holding one text node), or any other element. */
  datatype Node = TextNode(value: string) | Mark(text: string) | Element(tagName: string, children: seq<Node>)

  /** `textContent` */
  function TextContent(n: Node): string
    decreases n
  {
    match n
    case TextNode(v) => v
    case Mark(t) => t
    case Element(_, ch) => TextContentSeq(ch)
  }

  function TextContentSeq(cs: seq<Node>): string
    decreases cs
  {
    if |cs| == 0 then "" else TextContent(cs[0]) + TextContentSeq(cs[1..])
  }

  /** The number of highlight marks in the tree. */
  function MarkCount(n: Node): nat
    decreases n
  {
    match n
    case TextNode(_) => 0
    case Mark(_) => 1
    case Element(_, ch) => MarkCountSeq(ch)
  }

  function MarkCountSeq(cs: seq<Node>): nat
    decreases cs
  {
    if |cs| == 0 then 0 else MarkCount(cs[0]) + MarkCountSeq(cs[1..])
  }

  lemma {:induction false} TextContentSeqConcat(a: seq<Node>, b: seq<Node>)
    ensures TextContentSeq(a + b) == TextContentSeq(a) + TextContentSeq(b)
    ensures MarkCountSeq(a + b) == MarkCountSeq(a) + MarkCountSeq(b)
    decreases |a|
  {
    if |a| == 0 {
      assert a + b == b;
    } else {
      assert (a + b)[0] == a[0];
      assert (a + b)[1..] == a[1..] + b;
      TextContentSeqConcat(a[1..], b);
    }
  }

  // ----------------------------------------------------------------------
  // Removing the previous highlights
  // ----------------------------------------------------------------------

  /** `Node.normalize()` on a child list: adjacent text nodes merge and
      empty ones go. */
  function MergeText(cs: seq<Node>): (r: seq<Node>)
    ensures TextContentSeq(r) == TextContentSeq(cs)
    ensures MarkCountSeq(r) == MarkCountSeq(cs)
    decreases |cs|
  {
    if |cs| == 0 then []
    else
      var rest := MergeText(cs[1..]);
      if cs[0].TextNode? then
        if cs[0].value == "" then rest
        else if |rest| > 0 && rest[0].TextNode? then
          MergeFirst(cs[0].value, rest);
          [TextNode(cs[0].value + rest[0].value)] + rest[1..]
        else [cs[0]] + rest
      else [cs[0]] + rest
  }

  /** Gluing text `a` onto a leading text node keeps the text and the
      marks. */
  lemma MergeFirst(a: string, rest: seq<Node>)
    requires |rest| > 0 && rest[0].TextNode?
    ensures var merged := [TextNode(a + rest[0].value)] + rest[1..];
            TextContentSeq(merged) == a + TextContentSeq(rest) && MarkCountSeq(merged) == MarkCountSeq(rest)
  {
    var merged := [TextNode(a + rest[0].value)] + rest[1..];
    assert merged[0] == TextNode(a + rest[0].value) && merged[1..] == rest[1..];
    assert TextContentSeq(rest) == rest[0].value + TextContentSeq(rest[1..]);
  }

  /** `normalize()` on an element and its whole subtree. */
  function NormalizeDeep(n: Node): (r: Node)
    ensures TextContent(r) == TextContent(n) && MarkCount(r) == MarkCount(n)
    decreases n
  {
    match n
    case Element(tag, ch) => Element(tag, MergeText(NormalizeSeq(ch)))
    case _ => n
  }

  function NormalizeSeq(cs: seq<Node>): (r: seq<Node>)
    ensures |r| == |cs|
    ensures TextContentSeq(r) == TextContentSeq(cs) && MarkCountSeq(r) == MarkCountSeq(cs)
    decreases cs
  {
    if |cs| == 0 then [] else [NormalizeDeep(cs[0])] + NormalizeSeq(cs[1..])
  }

  predicate HasMarkChild(cs: seq<Node>) {
    exists i :: 0 <= i < |cs| && cs[i].Mark?
  }

  /** The first loop of the find script: every mark is replaced by a text node
      with its text, and each parent that held one is normalized. */
  function ClearMarks(n: Node): (r: Node)
    ensures MarkCount(r) == 0
    ensures TextContent(r) == TextContent(n)
    decreases n
  {
    match n
    case TextNode(_) => n
    case Mark(t) => TextNode(t)
    case Element(tag, ch) =>
      var cleared := Element(tag, ClearMarksSeq(ch));
      if HasMarkChild(ch) then NormalizeDeep(cleared) else cleared
  }

  function ClearMarksSeq(cs: seq<Node>): (r: seq<Node>)
    ensures |r| == |cs|
    ensures MarkCountSeq(r) == 0
    ensures TextContentSeq(r) == TextContentSeq(cs)
    decreases cs
  {
    if |cs| == 0 then [] else [ClearMarks(cs[0])] + ClearMarksSeq(cs[1..])
  }

  // ----------------------------------------------------------------------
  // Counting and highlighting
  // ----------------------------------------------------------------------

  /** `/(script|style|textarea)/i.test(tagName)`: a substring test, so
      `NOSCRIPT` is skipped too. */
  predicate SkippedTag(tagName: string) {
    var t := Lower(tagName);
    Contains(t, "script") || Contains(t, "style") || Contains(t, "textarea")
  }

  /** A query the find script's `new RegExp("(" + query + ")", "gi")` reads
      literally. */
  predicate PlainQuery(q: string) {
    forall i :: 0 <= i < |q| ==> q[i] !in "\\^$.|?*+()[]{}/\"\n\r"
  }

  /** `lq` (lowercase) matches `t` at its start, ignoring case. */
  predicate MatchesAt(t: string, lq: string) {
    |lq| <= |t| && Lower(t[..|lq|]) == lq
  }

  /** The number of `text.match(regex)` matches: scanning left to right, a
      match resumes the scan after itself. */
  function CountMatches(t: string, lq: string): nat
    requires |lq| > 0
    decreases |t|
  {
    if |t| < |lq| then 0
    else if MatchesAt(t, lq) then 1 + CountMatches(t[|lq|..], lq)
    else CountMatches(t[1..], lq)
  }

  function Flush(plain: string): seq<Node> {
    if plain == "" then [] else [TextNode(plain)]
  }

  /** The nodes of `text.replace(regex, '<mark ...>$1</mark>')` placed in a
      span: the text between matches, and each match, in its own case, as a
      mark. `plain` is the unmatched text already passed. The text is
      re-inserted verbatim, which is what `innerHTML` gives for text holding
      no `<` and no `&`. */
  function HighlightPieces(t: string, lq: string, plain: string): seq<Node>
    requires |lq| > 0
    decreases |t|
  {
    if |t| < |lq| then Flush(plain + t)
    else if MatchesAt(t, lq) then Flush(plain) + [Mark(t[..|lq|])] + HighlightPieces(t[|lq|..], lq, "")
    else HighlightPieces(t[1..], lq, plain + [t[0]])
  }

  lemma FlushSound(plain: string)
    ensures TextContentSeq(Flush(plain)) == plain && MarkCountSeq(Flush(plain)) == 0
  {
    if plain != "" {
      assert Flush(plain)[1..] == [];
      assert TextContentSeq(Flush(plain)) == plain + "";
    }
  }

  /** Highlighting keeps the text and makes one mark per match. */
  lemma {:induction false} HighlightPiecesSound(t: string, lq: string, plain: string)
    requires |lq| > 0
    ensures TextContentSeq(HighlightPieces(t, lq, plain)) == plain + t
    ensures MarkCountSeq(HighlightPieces(t, lq, plain)) == CountMatches(t, lq)
    decreases |t|
  {
    if |t| < |lq| {
      FlushSound(plain + t);
    } else if MatchesAt(t, lq) {
      var m, after := t[..|lq|], t[|lq|..];
      var rest := HighlightPieces(after, lq, "");
      assert HighlightPieces(t, lq, plain) == Flush(plain) + [Mark(m)] + rest;
      HighlightPiecesSound(after, lq, "");
      HighlightMatchStep(plain, m, after, rest);
    } else {
      HighlightPiecesSound(t[1..], lq, plain + [t[0]]);
      HighlightSkipStep(t, lq, plain);
    }
  }

  /** One match: the mark, then the rest highlighted afresh. */
  lemma HighlightMatchStep(plain: string, m: string, after: string, rest: seq<Node>)
    requires TextContentSeq(rest) == "" + after
    ensures TextContentSeq(Flush(plain) + [Mark(m)] + rest) == plain + (m + after)
    ensures MarkCountSeq(Flush(plain) + [Mark(m)] + rest) == 1 + MarkCountSeq(rest)
  {
    MarkThenRest(plain, m, rest);
    assert plain + m + after == plain + (m + after);
  }

  /** No match at the start: the first character joins the plain text. */
  lemma HighlightSkipStep(t: string, lq: string, plain: string)
    requires 0 < |lq| <= |t| && !MatchesAt(t, lq)
    requires TextContentSeq(HighlightPieces(t[1..], lq, plain + [t[0]])) == plain + [t[0]] + t[1..]
    requires MarkCountSeq(HighlightPieces(t[1..], lq, plain + [t[0]])) == CountMatches(t[1..], lq)
    ensures TextContentSeq(HighlightPieces(t, lq, plain)) == plain + t
    ensures MarkCountSeq(HighlightPieces(t, lq, plain)) == CountMatches(t, lq)
  {
    assert plain + [t[0]] + t[1..] == plain + t;
  }

  /** The pieces around one match: the plain text, the mark, the rest. */
  lemma MarkThenRest(plain: string, m: string, rest: seq<Node>)
    ensures TextContentSeq(Flush(plain) + [Mark(m)] + rest) == plain + m + TextContentSeq(rest)
    ensures MarkCountSeq(Flush(plain) + [Mark(m)] + rest) == 1 + MarkCountSeq(rest)
  {
    FlushSound(plain);
    assert [Mark(m)][1..] == [];
    assert TextContentSeq([Mark(m)]) == m + "";
    TextContentSeqConcat(Flush(plain), [Mark(m)]);
    TextContentSeqConcat(Flush(plain) + [Mark(m)], rest);
  }

  datatype Found = Found(node: Node, count: nat)
  datatype FoundSeq = FoundSeq(nodes: seq<Node>, count: nat)

  /** `traverse(node)`: a text node with matches becomes a span of text and
      marks; an element not skipped by tag is searched child by child; the
      count adds up the matches. */
  function Traverse(n: Node, lq: string): (f: Found)
    requires |lq| > 0
    decreases n
  {
    match n
    case TextNode(t) =>
      var c := CountMatches(t, lq);
      if c > 0 then Found(Element("SPAN", HighlightPieces(t, lq, "")), c) else Found(n, 0)
    case Mark(_) => Found(n, 0)
    case Element(tag, ch) =>
      if SkippedTag(tag) then Found(n, 0)
      else
        var r := TraverseSeq(ch, lq);
        Found(Element(tag, r.nodes), r.count)
  }

  function TraverseSeq(cs: seq<Node>, lq: string): (r: FoundSeq)
    requires |lq| > 0
    decreases cs
  {
    if |cs| == 0 then FoundSeq([], 0)
    else
      var head := Traverse(cs[0], lq);
      var rest := TraverseSeq(cs[1..], lq);
      FoundSeq([head.node] + rest.nodes, head.count + rest.count)
  }

  /** Searching changes no text, and each counted match is one new mark. */
  lemma {:induction false} TraverseSound(n: Node, lq: string)
    requires |lq| > 0
    ensures TextContent(Traverse(n, lq).node) == TextContent(n)
    ensures MarkCount(Traverse(n, lq).node) == MarkCount(n) + Traverse(n, lq).count
    decreases n
  {
    match n
    case TextNode(t) =>
      if CountMatches(t, lq) > 0 {
        HighlightPiecesSound(t, lq, "");
        assert "" + t == t;
      }
    case Mark(_) =>
    case Element(tag, ch) =>
      if !SkippedTag(tag) {
        TraverseSeqSound(ch, lq);
      }
  }

  lemma {:induction false} TraverseSeqSound(cs: seq<Node>, lq: string)
    requires |lq| > 0
    ensures TextContentSeq(TraverseSeq(cs, lq).nodes) == TextContentSeq(cs)
    ensures MarkCountSeq(TraverseSeq(cs, lq).nodes) == MarkCountSeq(cs) + TraverseSeq(cs, lq).count
    decreases cs
  {
    if |cs| > 0 {
      TraverseSound(cs[0], lq);
      TraverseSeqSound(cs[1..], lq);
      var r := TraverseSeq(cs, lq);
      assert r.nodes[1..] == TraverseSeq(cs[1..], lq).nodes;
    }
  }

  /** Inside a skipped element nothing is counted. */
  lemma SkippedCountsNothing(tag: string, ch: seq<Node>, lq: string)
    requires |lq| > 0 && SkippedTag(tag)
    ensures Traverse(Element(tag, ch), lq) == Found(Element(tag, ch), 0)
  {
  }

  /** `getFindInPageScript(query)` on the page whose body is `body`: clears
      the old marks, stops there for an empty query, and otherwise
      highlights and reports the count. `scrolled` says whether a first mark
      was scrolled into view. */
  method FindInPage(page: GuestPage, body: Node, query: string) returns (newBody: Node, scrolled: bool)
    requires page.Valid() && PlainQuery(query)
    modifies page
    ensures page.Valid()
    ensures query == "" ==> newBody == ClearMarks(body) && !scrolled && page.State() == old(page.State())
    ensures query != "" ==>
              var f := Traverse(ClearMarks(body), Lower(query));
              newBody == f.node && page.State() == old(page.State()).(posted := old(page.posted) + [FindResult(f.count)])
    ensures query != "" ==> (scrolled <==> Traverse(ClearMarks(body), Lower(query)).count > 0)
  {
    var cleared := ClearMarks(body);
    if query == "" {
      return cleared, false;
    }
    var f := Traverse(cleared, Lower(query));
    newBody := f.node;
    FindInPageSound(body, query);
    scrolled := MarkCount(newBody) > 0;
    page.Post(FindResult(f.count));
  }

  /** The find script's promises about its result, for every body and
      non-empty query: the text reads as before, the marks are exactly the
      counted matches, and there is a first mark to scroll to iff something
      was found. Text
      nodes are taken to hold no `<` and no `&` (see `HighlightPieces`). */
  lemma FindInPageSound(body: Node, query: string)
    requires query != ""
    ensures var f := Traverse(ClearMarks(body), Lower(query));
            TextContent(f.node) == TextContent(body) && MarkCount(f.node) == f.count
            && (MarkCount(f.node) > 0 <==> f.count > 0)
  {
    TraverseSound(ClearMarks(body), Lower(query));
  }

  /** A new search first clears the old one: the page's marks are those of
      the second search alone. */
  lemma SearchAgainReplacesMarks(body: Node, q1: string, q2: string)
    requires q1 != "" && q2 != ""
    ensures var first := Traverse(ClearMarks(body), Lower(q1)).node;
            var second := Traverse(ClearMarks(first), Lower(q2));
            MarkCount(second.node) == second.count && TextContent(second.node) == TextContent(body)
  {
    var first := Traverse(ClearMarks(body), Lower(q1)).node;
    TraverseSound(ClearMarks(body), Lower(q1));
    TraverseSound(ClearMarks(first), Lower(q2));
  }

  // ----------------------------------------------------------------------
  // View source
  // ----------------------------------------------------------------------

  /** `getViewSourceScript`: the first 20000 characters of the document. */
  method ViewSourceScript(page: GuestPage)
    requires page.Valid()
    modifies page
    ensures page.Valid()
    ensures page.State() == old(page.State()).(posted := old(page.posted) + [ViewSource(Truncate(old(page.html), 20000))])
  {
    page.Post(ViewSource(Truncate(page.html, 20000)));
  }

  /** The source sent is a prefix of the page of at most 20000 characters,
      the whole page when it fits. */
  lemma ViewSourceBound(html: string)
    ensures |Truncate(html, 20000)| <= 20000 && IsPrefix(Truncate(html, 20000), html)
    ensures |html| <= 20000 ==> Truncate(html, 20000) == html
  {
  }

  // ----------------------------------------------------------------------
  // Clearing the site's data
  // ----------------------------------------------------------------------

  /** `c.replace(/^ +/, "")`: leading spaces only, not other white space. */
  function StripLeadingSpaces(c: string): (r: string)
    ensures |r| <= |c| && r == c[|c| - |r|..]
    ensures |r| > 0 ==> r[0] != ' '
    decreases |c|
  {
    if |c| > 0 && c[0] == ' ' then StripLeadingSpaces(c[1..]) else c
  }

  /** One cookie segment rewritten: from its first `=` on, the text becomes
      `=;expires=<now>;path=/`. A segment without `=` is kept. */
  function ExpireSegment(c: string, now: string): string {
    var d := StripLeadingSpaces(c);
    if '=' in d then BeforeFirst(d, '=') + ("=;" + ExpiryAttributes(now)) else d
  }

  /** `expires=<now>;path=/` */
  function ExpiryAttributes(now: string): string {
    "expires=" + now + ";path=/"
  }

  /** The jar after assigning the rewritten segments in order; each assignment
      carries an expiry of now, so the cookie it names is evicted. */
  function ExpireAll(jar: seq<KeyValue>, segments: seq<string>, now: string): (r: seq<KeyValue>)
    ensures UniqueKeys(jar) ==> UniqueKeys(r)
    decreases |segments|
  {
    if |segments| == 0 then jar
    else AssignCookie(ExpireAll(jar, segments[..|segments| - 1], now), ExpireSegment(segments[|segments| - 1], now), true)
  }

  /** What the success envelope says: the data was cleared and the page will
      reload. */
  function ClearedMessage(): string { "تم مسح البيانات بنجاح. سيتم تحديث الصفحة." }

  /** `getClearDataScript`: both storages emptied, every cookie segment
      expired, then `ACTION_COMPLETE` and a reload 500 ms later. `now` is the
      clock in milliseconds and `nowText` its `toUTCString()`; `failure` is
      the message of an exception storage access throws, which is reported
      with nothing changed. */
  method ClearData(page: GuestPage, now: int, nowText: string, failure: Option<string>)
    requires page.Valid()
    modifies page
    ensures page.Valid()
    ensures failure.Some? ==>
              page.State() == old(page.State()).(posted := old(page.posted) + [ConsoleLog(Error, failure.value)])
    ensures failure.None? ==>
              page.State() == old(page.State()).(
                localStorage := [], sessionStorage := [],
                cookieJar := ExpireAll(old(page.cookieJar), Split(CookieString(old(page.cookieJar)), ';'), nowText),
                posted := old(page.posted) + [ActionComplete(ClearedMessage())],
                reloadAt := Some(now + 500))
  {
    if failure.Some? {
      page.Post(ConsoleLog(Error, failure.value));
      return;
    }
    var jar := ExpireSegments(page.cookieJar, Split(CookieString(page.cookieJar), ';'), nowText);
    page.SetStores([], [], jar);
    page.Post(ActionComplete(ClearedMessage()));
    page.reloadAt := Some(now + 500);
  }

  /** The `forEach` over the cookie string's segments, each written back
      with an expiry in the past. */
  method ExpireSegments(start: seq<KeyValue>, segments: seq<string>, nowText: string)
    returns (jar: seq<KeyValue>)
    ensures jar == ExpireAll(start, segments, nowText)
  {
    jar := start;
    var i := 0;
    while i < |segments|
      invariant 0 <= i <= |segments|
      invariant jar == ExpireAll(start, segments[..i], nowText)
    {
      assert segments[..i + 1][..i] == segments[..i];
      jar := AssignCookie(jar, ExpireSegment(segments[i], nowText), true);
      i := i + 1;
    }
    assert segments[..i] == segments;
  }

  // ----------------------------------------------------------------------
  // Every cookie set through `document.cookie` is cleared
  // ----------------------------------------------------------------------

  /** A cookie name as the setter stores it: non-empty, trimmed, and free of
      `;` and `=`. */
  predicate CookieNameOk(k: string) {
    |k| > 0 && !IsSpace(k[0]) && !IsSpace(k[|k| - 1]) && ';' !in k && '=' !in k
  }

  /** The jars the setter builds: unique, well-formed names and values
      without `;`. */
  predicate WellFormedJar(jar: seq<KeyValue>) {
    UniqueKeys(jar) && forall i :: 0 <= i < |jar| ==> CookieNameOk(jar[i].key) && ';' !in jar[i].value
  }

  lemma TrimKeepsClean(k: string)
    requires |k| > 0 && !IsSpace(k[0]) && !IsSpace(k[|k| - 1])
    ensures Trim(k) == k
  {
    assert TrimStart(k) == k;
    assert TrimEnd(k) == k;
  }

  /** The characters of a trimmed text all come from the text. */
  lemma {:induction false} TrimSubset(s: string)
    ensures forall c :: c in Trim(s) ==> c in s
  {
    var a := TrimStart(s);
    assert forall c :: c in a ==> c in s by {
      forall c | c in a ensures c in s {
        var i :| 0 <= i < |a| && a[i] == c;
        assert s[|s| - |a| + i] == c;
      }
    }
    var b := TrimEnd(a);
    assert forall c :: c in b ==> c in a by {
      forall c | c in b ensures c in a {
        var i :| 0 <= i < |b| && b[i] == c;
        assert a[i] == c;
      }
    }
  }

  /** A name trimmed out of text free of `;` and `=` is well formed. */
  lemma TrimmedNameOk(head: string)
    requires Trim(head) != "" && ';' !in head && '=' !in head
    ensures CookieNameOk(Trim(head))
  {
    TrimSubset(head);
    TrimEdges(head);
  }

  lemma PrefixChars(p: string, s: string)
    requires IsPrefix(p, s)
    ensures forall c :: c in p ==> c in s
  {
    assert forall i :: 0 <= i < |p| ==> p[i] == s[i];
  }

  /** The name and value the setter parses from any text are well formed. */
  lemma ParsedCookieOk(text: string)
    ensures ParseCookie(text).Some? ==>
              CookieNameOk(ParseCookie(text).value.key) && ';' !in ParseCookie(text).value.value
  {
    var pair := BeforeFirst(text, ';');
    var head := BeforeFirst(pair, '=');
    if |head| != |pair| && Trim(head) != "" {
      ParsedPairOk(pair, head);
    }
  }

  /** The name before the first `=` and the value after it, both trimmed. */
  lemma ParsedPairOk(pair: string, head: string)
    requires ';' !in pair && '=' !in head && IsPrefix(head, pair) && |head| < |pair|
    requires Trim(head) != ""
    ensures CookieNameOk(Trim(head)) && ';' !in Trim(pair[|head| + 1..])
  {
    PrefixChars(head, pair);
    TrimmedNameOk(head);
    var rest := pair[|head| + 1..];
    assert forall c :: c in rest ==> c in pair;
    TrimSubset(rest);
  }

  lemma SetItemKeepsWellFormed(jar: seq<KeyValue>, k: string, v: string)
    requires WellFormedJar(jar) && CookieNameOk(k) && ';' !in v
    ensures WellFormedJar(SetItem(jar, k, v))
  {
    var r := SetItem(jar, k, v);
    forall i | 0 <= i < |r| ensures CookieNameOk(r[i].key) && ';' !in r[i].value {
      if r[i] != KeyValue(k, v) {
        var j :| 0 <= j < |jar| && jar[j] == r[i];
      }
    }
  }

  lemma RemoveItemKeepsWellFormed(jar: seq<KeyValue>, k: string)
    requires WellFormedJar(jar)
    ensures WellFormedJar(RemoveItem(jar, k))
  {
    var r := RemoveItem(jar, k);
    forall i | 0 <= i < |r| ensures CookieNameOk(r[i].key) && ';' !in r[i].value {
      var j :| 0 <= j < |jar| && jar[j] == r[i];
    }
  }

  /** The setter keeps the jar well formed. */
  lemma AssignCookieKeepsWellFormed(jar: seq<KeyValue>, text: string, expired: bool)
    requires WellFormedJar(jar)
    ensures WellFormedJar(AssignCookie(jar, text, expired))
  {
    ParsedCookieOk(text);
    match ParseCookie(text)
    case None =>
    case Some(c) =>
      if expired {
        RemoveItemKeepsWellFormed(jar, c.key);
      } else {
        SetItemKeepsWellFormed(jar, c.key, c.value);
      }
  }

  /** Assigning `name=;...` with a past expiry evicts `name`. */
  lemma ExpireWith(jar: seq<KeyValue>, k: string, tail: string)
    requires CookieNameOk(k)
    ensures AssignCookie(jar, k + ("=;" + tail), true) == RemoveItem(jar, k)
  {
    TrimKeepsClean(k);
    CookieExpireWith(k, tail);
  }

  /** The head's key evicts just the head. */
  lemma RemoveHead(s: seq<KeyValue>)
    requires |s| > 0 && UniqueKeys(s)
    ensures RemoveItem(s, s[0].key) == s[1..]
  {
    RemoveAbsent(s[1..], s[0].key);
  }

  lemma {:induction false} RemoveAbsent(s: seq<KeyValue>, k: string)
    requires forall i :: 0 <= i < |s| ==> s[i].key != k
    ensures RemoveItem(s, k) == s
    decreases |s|
  {
    if |s| > 0 {
      RemoveAbsent(s[1..], k);
    }
  }

  /** The segments of the cookie string: the first pair, then each other pair
      behind the space of the `"; "` separator. */
  function Segment(jar: seq<KeyValue>, i: int): string
    requires 0 <= i < |jar|
  {
    (if i == 0 then "" else " ") + CookiePair(jar[i])
  }

  function SpacedPairs(jar: seq<KeyValue>): (r: seq<string>)
    ensures |r| == |jar|
    ensures forall i :: 0 <= i < |jar| ==> r[i] == " " + CookiePair(jar[i])
  {
    seq(|jar|, i requires 0 <= i < |jar| => " " + CookiePair(jar[i]))
  }

  lemma {:induction false} JoinSpaced(jar: seq<KeyValue>)
    requires |jar| > 0
    ensures Join(SpacedPairs(jar), ";") == " " + CookieString(jar)
    decreases |jar|
  {
    if |jar| > 1 {
      JoinSpaced(jar[1..]);
      assert SpacedPairs(jar)[1..] == SpacedPairs(jar[1..]);
      assert CookiePairs(jar)[1..] == CookiePairs(jar[1..]);
    }
  }

  /** Splitting the cookie string at `;` gives the segments, one per cookie. */
  lemma SplitCookieString(jar: seq<KeyValue>)
    requires |jar| > 0 && forall i :: 0 <= i < |jar| ==> ';' !in jar[i].key && ';' !in jar[i].value
    ensures var segs := Split(CookieString(jar), ';');
            |segs| == |jar| && forall i :: 0 <= i < |jar| ==> segs[i] == Segment(jar, i)
  {
    var parts := [CookiePair(jar[0])] + SpacedPairs(jar[1..]);
    if |jar| == 1 {
      assert Join(parts, ";") == CookieString(jar);
    } else {
      JoinSpaced(jar[1..]);
      assert CookiePairs(jar)[1..] == CookiePairs(jar[1..]);
      assert parts[1..] == SpacedPairs(jar[1..]);
      assert Join(parts, ";") == CookieString(jar);
    }
    forall k | 0 <= k < |parts| ensures ';' !in parts[k] {
      assert k > 0 ==> parts[k] == " " + jar[k].key + "=" + jar[k].value;
    }
    SplitJoin(parts, ';');
  }

  lemma StripOneSpace(pair: string, spaced: bool)
    requires |pair| > 0 && pair[0] != ' '
    ensures StripLeadingSpaces((if spaced then " " else "") + pair) == pair
  {
    if spaced {
      assert (" " + pair)[0] == ' ' && (" " + pair)[1..] == pair;
    } else {
      assert "" + pair == pair;
    }
  }

  /** Rewriting a segment gives the expiring assignment for its cookie. */
  lemma ExpireSegmentOf(jar: seq<KeyValue>, i: int, now: string)
    requires 0 <= i < |jar| && CookieNameOk(jar[i].key)
    ensures ExpireSegment(Segment(jar, i), now) == jar[i].key + ("=;" + ExpiryAttributes(now))
  {
    ExpirePair(jar[i].key, jar[i].value, i > 0, now);
  }

  lemma ExpirePair(k: string, v: string, spaced: bool, now: string)
    requires CookieNameOk(k)
    ensures ExpireSegment((if spaced then " " else "") + (k + "=" + v), now) == k + ("=;" + ExpiryAttributes(now))
  {
    var pair := k + "=" + v;
    assert pair[0] == k[0];
    StripOneSpace(pair, spaced);
    assert pair == k + ['='] + v;
    BeforeFirstConcat(k, '=', v);
    assert pair[|k|] == '=';
  }

  lemma {:induction false} ExpirePrefix(jar: seq<KeyValue>, segs: seq<string>, now: string, i: int)
    requires WellFormedJar(jar) && |segs| == |jar|
    requires forall j :: 0 <= j < |jar| ==> segs[j] == Segment(jar, j)
    requires 0 <= i <= |jar|
    ensures ExpireAll(jar, segs[..i], now) == jar[i..]
    decreases i
  {
    if i > 0 {
      ExpirePrefix(jar, segs, now, i - 1);
      assert segs[..i][..i - 1] == segs[..i - 1];
      var rest := jar[i - 1..];
      ExpireSegmentOf(jar, i - 1, now);
      ExpireWith(rest, jar[i - 1].key, ExpiryAttributes(now));
      assert UniqueKeys(rest);
      RemoveHead(rest);
      assert rest[1..] == jar[i..];
    }
  }

  /** Clearing the data evicts every cookie the setter can have stored. */
  lemma ClearDataEvictsEveryCookie(jar: seq<KeyValue>, now: string)
    requires WellFormedJar(jar)
    ensures ExpireAll(jar, Split(CookieString(jar), ';'), now) == []
  {
    if |jar| == 0 {
      ClearEmptyJar(jar, now);
    } else {
      SplitCookieString(jar);
      ExpireAllSegments(jar, Split(CookieString(jar), ';'), now);
    }
  }

  /** Expiring the segments of every cookie, in order, empties the jar. */
  lemma ExpireAllSegments(jar: seq<KeyValue>, segs: seq<string>, now: string)
    requires WellFormedJar(jar) && |segs| == |jar|
    requires forall j :: 0 <= j < |jar| ==> segs[j] == Segment(jar, j)
    ensures ExpireAll(jar, segs, now) == []
  {
    ExpirePrefix(jar, segs, now, |jar|);
    assert segs[..|jar|] == segs;
  }

  /** With no cookie the string is empty and its one segment names none. */
  lemma ClearEmptyJar(jar: seq<KeyValue>, now: string)
    requires jar == []
    ensures ExpireAll(jar, Split(CookieString(jar), ';'), now) == []
  {
    assert CookiePairs(jar) == [];
    assert CookieString(jar) == "";
    var segs := Split("", ';');
    assert segs == [""];
    assert segs[..0] == [];
    assert ExpireSegment("", now) == "";
    assert BeforeFirst("", ';') == "";
    assert ParseCookie("") == None;
  }
}
