/** web/src/core/ReaderModeEngine.js: the reader-mode extraction script. It
    picks the container with the most Arabic letters, keeps the visible,
    link-free lines of its text elements without immediate repeats, and
    posts the article or an error. The DOM is given as records: each
    candidate container with the text elements under it, each element with
    its computed style and box. */
module Reader {
  import opened Text
  import opened Bus
  import opened BrowserTypes
  import opened Guest

  // ----------------------------------------------------------------------
  // cleanText
  // ----------------------------------------------------------------------

  /** No white space but plain spaces, and never two of them in a row. */
  ghost predicate Collapsed(r: string) {
    && (forall i :: 0 <= i < |r| ==> r[i] == ' ' || !IsSpace(r[i]))
    && (forall i, j :: 0 <= i && j == i + 1 && j < |r| ==> !(IsSpace(r[i]) && IsSpace(r[j])))
  }

  /** What `cleanText` returns: collapsed, and with no white space at
      either end. */
  ghost predicate Clean(r: string) {
    Collapsed(r) && (|r| > 0 ==> !IsSpace(r[0]) && !IsSpace(r[|r| - 1]))
  }

  /** `text.replace(/\s+/g, ' ')`: every run of white space becomes one
      space. */
  function CollapseSpaces(s: string): (r: string)
    decreases |s|
  {
    if |s| == 0 then ""
    else if IsSpace(s[0]) then " " + CollapseSpaces(TrimStart(s[1..]))
    else [s[0]] + CollapseSpaces(s[1..])
  }

  /** The collapsed text has no white space but single plain spaces, and it
      starts with a space exactly where the text starts with white space. */
  lemma {:induction false} CollapseSpacesCollapsed(s: string)
    ensures var r := CollapseSpaces(s);
            && Collapsed(r)
            && |r| <= |s|
            && (|s| > 0 ==> |r| > 0 && (IsSpace(s[0]) ==> r[0] == ' ') && (!IsSpace(s[0]) ==> r[0] == s[0]))
    decreases |s|
  {
    if |s| > 0 {
      if IsSpace(s[0]) {
        var rest := TrimStart(s[1..]);
        CollapseSpacesCollapsed(rest);
        SpaceThenCollapsed(CollapseSpaces(rest), |rest| > 0 && !IsSpace(rest[0]));
      } else {
        CollapseSpacesCollapsed(s[1..]);
        CharThenCollapsed(s[0], CollapseSpaces(s[1..]));
      }
    }
  }

  lemma SpaceThenCollapsed(t: string, startsVisible: bool)
    requires Collapsed(t) && (|t| > 0 ==> startsVisible && !IsSpace(t[0]))
    ensures Collapsed(" " + t)
  {
    var r := " " + t;
    assert forall k :: 1 <= k < |r| ==> r[k] == t[k - 1];
  }

  lemma CharThenCollapsed(c: char, t: string)
    requires Collapsed(t) && !IsSpace(c)
    ensures Collapsed([c] + t)
  {
    var r := [c] + t;
    assert forall k :: 1 <= k < |r| ==> r[k] == t[k - 1];
  }

  /** `cleanText(text)`; a missing text (`innerText` of nothing) is "". */
  function CleanText(s: string): string {
    Trim(CollapseSpaces(s))
  }

  /** Cleaned text is collapsed and starts and ends with no white space. */
  lemma CleanTextIsClean(s: string)
    ensures Clean(CleanText(s))
  {
    CollapseSpacesCollapsed(s);
    TrimCollapsed(CollapseSpaces(s));
  }

  lemma TrimCollapsed(c: string)
    requires Collapsed(c)
    ensures Clean(Trim(c))
  {
    TrimSlice(c);
    TrimEdges(c);
    CleanSlice(c, Trim(c), |c| - |TrimStart(c)|);
  }

  /** A piece of a collapsed text with no white space at its ends is clean. */
  lemma CleanSlice(c: string, t: string, k: int)
    requires Collapsed(c) && 0 <= k && k + |t| <= |c| && t == c[k..k + |t|]
    requires |t| > 0 ==> !IsSpace(t[0]) && !IsSpace(t[|t| - 1])
    ensures Clean(t)
  {
    CollapsedSlice(c, k, k + |t|);
  }

  /** A piece of a collapsed text is collapsed. */
  lemma CollapsedSlice(s: string, i: int, j: int)
    requires 0 <= i <= j <= |s| && Collapsed(s)
    ensures Collapsed(s[i..j])
  {
    var t := s[i..j];
    assert forall k :: 0 <= k < |t| ==> t[k] == s[i + k];
  }

  /** A collapsed text comes through the collapsing unchanged. */
  lemma {:induction false} CollapseKeepsCollapsed(t: string)
    requires Collapsed(t)
    ensures CollapseSpaces(t) == t
    decreases |t|
  {
    if |t| > 0 {
      var rest := t[1..];
      CollapsedSlice(t, 1, |t|);
      CollapseKeepsCollapsed(rest);
      if IsSpace(t[0]) {
        AfterSpace(t);
        TrimStartKeeps(rest);
        assert CollapseSpaces(t) == " " + rest;
      } else {
        assert CollapseSpaces(t) == [t[0]] + rest;
      }
      assert t == [t[0]] + rest;
    }
  }

  /** In a collapsed text, white space is a plain space followed by none. */
  lemma AfterSpace(t: string)
    requires Collapsed(t) && |t| > 0 && IsSpace(t[0])
    ensures t[0] == ' ' && (|t| > 1 ==> !IsSpace(t[1]))
  {
    if |t| > 1 {
      assert !(IsSpace(t[0]) && IsSpace(t[1]));
    }
  }

  lemma TrimStartKeeps(s: string)
    requires |s| > 0 ==> !IsSpace(s[0])
    ensures TrimStart(s) == s
  {
  }

  /** `cleanText` leaves clean text alone, so cleaning twice is cleaning once. */
  lemma CleanTextKeepsClean(t: string)
    requires Clean(t)
    ensures CleanText(t) == t
  {
    CollapseKeepsCollapsed(t);
    assert TrimStart(t) == t;
    assert TrimEnd(t) == t;
  }

  lemma CleanTextIdempotent(s: string)
    ensures CleanText(CleanText(s)) == CleanText(s)
  {
    CleanTextIsClean(s);
    CleanTextKeepsClean(CleanText(s));
  }

  /** The characters of a text that are not white space, in order. */
  function Visible(s: string): string
    decreases |s|
  {
    if |s| == 0 then "" else (if IsSpace(s[0]) then "" else [s[0]]) + Visible(s[1..])
  }

  lemma {:induction false} VisibleConcat(a: string, b: string)
    ensures Visible(a + b) == Visible(a) + Visible(b)
    decreases |a|
  {
    if |a| > 0 {
      var head := if IsSpace(a[0]) then "" else [a[0]];
      assert (a + b)[0] == a[0];
      assert (a + b)[1..] == a[1..] + b;
      assert Visible(a + b) == head + Visible(a[1..] + b);
      VisibleConcat(a[1..], b);
      assert Visible(a) == head + Visible(a[1..]);
    } else {
      assert a + b == b;
    }
  }

  lemma {:induction false} VisibleTrimStart(s: string)
    ensures Visible(TrimStart(s)) == Visible(s)
    decreases |s|
  {
    if |s| > 0 && IsSpace(s[0]) {
      VisibleTrimStart(s[1..]);
    }
  }

  lemma {:induction false} VisibleTrimEnd(s: string)
    ensures Visible(TrimEnd(s)) == Visible(s)
    decreases |s|
  {
    if |s| > 0 && IsSpace(s[|s| - 1]) {
      var init := s[..|s| - 1];
      VisibleTrimEnd(init);
      assert s == init + [s[|s| - 1]];
      VisibleConcat(init, [s[|s| - 1]]);
    }
  }

  lemma {:induction false} VisibleCollapse(s: string)
    ensures Visible(CollapseSpaces(s)) == Visible(s)
    decreases |s|
  {
    if |s| > 0 {
      if IsSpace(s[0]) {
        VisibleCollapse(TrimStart(s[1..]));
        VisibleTrimStart(s[1..]);
        VisibleConcat(" ", CollapseSpaces(TrimStart(s[1..])));
      } else {
        VisibleCollapse(s[1..]);
        VisibleConcat([s[0]], CollapseSpaces(s[1..]));
      }
    }
  }

  /** Cleaning only touches white space: every other character stays, in
      order. */
  lemma CleanTextKeepsWords(s: string)
    ensures Visible(CleanText(s)) == Visible(s)
  {
    var c := CollapseSpaces(s);
    VisibleCollapse(s);
    VisibleTrimStart(c);
    VisibleTrimEnd(TrimStart(c));
  }

  // ----------------------------------------------------------------------
  // isElementHidden
  // ----------------------------------------------------------------------

  /** The computed style and bounding box of an element. Sizes are whole
      pixels. */
  datatype Appearance = Appearance(opacity: string, fontSize: string, display: string,
                                   visibility: string, color: string, width: int, height: int)

  /** `isElementHidden` */
  predicate IsElementHidden(a: Appearance) {
    || a.opacity == "0" || a.fontSize == "0px" || a.display == "none" || a.visibility == "hidden"
    || (Contains(a.color, "rgba") && EndsWith(a.color, ", 0)"))
    || a.width == 0 || a.height == 0
  }

  // ----------------------------------------------------------------------
  // Choosing the container
  // ----------------------------------------------------------------------

  /** One element of `p, div, span, h2, h3, h4, b, i` under the container:
      its tag, style, `innerText`, the text of its direct text-node children
      and the number of its element children. */
  datatype TextElement = TextElement(tagName: string, appearance: Appearance, innerText: string,
                                     directText: string, childElements: nat)

  /** One `div, article, section, main` of the document, with its classes,
      its `innerText` and the text elements under it. */
  datatype Container = Container(tagName: string, classes: seq<string>, innerText: string,
                                 elements: seq<TextElement>)

  /** `node.matches('header, footer, nav, aside, .sidebar, .menu, .ads')` */
  predicate Excluded(c: Container) {
    || c.tagName == "HEADER" || c.tagName == "FOOTER" || c.tagName == "NAV" || c.tagName == "ASIDE"
    || "sidebar" in c.classes || "menu" in c.classes || "ads" in c.classes
  }

  predicate IsArabic(ch: char) {
    '؀' <= ch <= 'ۿ'
  }

  /** The number of matches of `/[؀-ۿ]/g`. */
  function ArabicCount(s: string): (n: nat)
    ensures n <= |s|
    decreases |s|
  {
    if |s| == 0 then 0 else (if IsArabic(s[0]) then 1 else 0) + ArabicCount(s[1..])
  }

  /** A container that takes part in the choice. */
  predicate Eligible(c: Container) {
    !Excluded(c) && ArabicCount(c.innerText) >= 50
  }

  /** The container the `forEach` ends with: the index of the last strict
      improvement of the best score (which starts at 0). */
  function BestContainer(cs: seq<Container>): (b: Option<nat>)
    ensures b.Some? ==> b.value < |cs|
    decreases |cs|
  {
    if |cs| == 0 then None
    else
      var b := BestContainer(cs[..|cs| - 1]);
      var c := cs[|cs| - 1];
      if Eligible(c) && (b.None? || ArabicCount(c.innerText) > ArabicCount(cs[b.value].innerText))
      then Some(|cs| - 1)
      else b
  }

  /** The choice is the first container with the highest count; there is
      none exactly when no container is eligible. */
  lemma {:induction false} BestIsFirstMaximum(cs: seq<Container>)
    ensures BestContainer(cs).None? <==> forall i :: 0 <= i < |cs| ==> !Eligible(cs[i])
    ensures BestContainer(cs).Some? ==>
              var b := BestContainer(cs).value;
              && Eligible(cs[b])
              && (forall i :: 0 <= i < |cs| && Eligible(cs[i]) ==>
                    ArabicCount(cs[i].innerText) <= ArabicCount(cs[b].innerText))
              && (forall i :: 0 <= i < b && Eligible(cs[i]) ==>
                    ArabicCount(cs[i].innerText) < ArabicCount(cs[b].innerText))
    decreases |cs|
  {
    if |cs| > 0 {
      var init := cs[..|cs| - 1];
      BestIsFirstMaximum(init);
      assert forall i :: 0 <= i < |init| ==> init[i] == cs[i];
    }
  }

  /** `findContent`'s first loop: the best score so far and its container. */
  method PickContainer(cs: seq<Container>) returns (best: Option<nat>)
    ensures best == BestContainer(cs)
  {
    best := None;
    var maxScore := 0;
    var i := 0;
    while i < |cs|
      invariant 0 <= i <= |cs|
      invariant best == BestContainer(cs[..i])
      invariant best.None? ==> maxScore == 0
      invariant best.Some? ==> best.value < i && maxScore == ArabicCount(cs[best.value].innerText)
    {
      assert cs[..i + 1][..i] == cs[..i];
      var node := cs[i];
      if !Excluded(node) {
        var score := ArabicCount(node.innerText);
        if score >= 50 && score > maxScore {
          maxScore := score;
          best := Some(i);
        }
      }
      i := i + 1;
    }
    assert cs[..i] == cs;
  }

  // ----------------------------------------------------------------------
  // Keeping lines
  // ----------------------------------------------------------------------

  /** `FORBIDDEN_WORDS.some(word => lowerText.includes(word))` */
  predicate HasForbiddenWord(lower: string) {
    || Contains(lower, "kolnovel") || Contains(lower, "kol-novel")
    || Contains(lower, "ملوك الروايات") || Contains(lower, "إقرأ رواياتنا")
    || Contains(lower, "م*وقع") || Contains(lower, "رواياتنا")
  }

  /** `/www\.|http|\.com|\.net|\.org/.test(lowerText)` */
  predicate HasLink(lower: string) {
    || Contains(lower, "www.") || Contains(lower, "http") || Contains(lower, ".com")
    || Contains(lower, ".net") || Contains(lower, ".org")
  }

  /** The line an element offers: its cleaned `innerText`. */
  function LineOf(e: TextElement): string {
    CleanText(e.innerText)
  }

  /** The tests of the second loop: visible, not empty, no forbidden word,
      no link, and either a paragraph or a leaf with direct text. */
  predicate Kept(e: TextElement) {
    var text := LineOf(e);
    && !IsElementHidden(e.appearance)
    && |text| > 0
    && !HasForbiddenWord(Lower(text))
    && !HasLink(Lower(text))
    && (e.tagName == "P" || (Trim(e.directText) != "" && e.childElements == 0))
  }

  /** The lines of the elements `keep` accepts, in document order. */
  function KeptLines(es: seq<TextElement>, keep: TextElement -> bool): seq<string>
    decreases |es|
  {
    if |es| == 0 then []
    else KeptLines(es[..|es| - 1], keep) + (if keep(es[|es| - 1]) then [LineOf(es[|es| - 1])] else [])
  }

  /** A line is kept iff some accepted element offers it. */
  lemma {:induction false} KeptLinesIff(es: seq<TextElement>, keep: TextElement -> bool, line: string)
    ensures line in KeptLines(es, keep) <==> exists k :: 0 <= k < |es| && keep(es[k]) && LineOf(es[k]) == line
    decreases |es|
  {
    if |es| > 0 {
      var init := es[..|es| - 1];
      KeptLinesIff(init, keep, line);
      assert forall k :: 0 <= k < |init| ==> init[k] == es[k];
      if line in KeptLines(es, keep) && line !in KeptLines(init, keep) {
        assert keep(es[|es| - 1]) && LineOf(es[|es| - 1]) == line;
      }
    }
  }

  /** The push that skips a line equal to the last one pushed. */
  function PushLine(lines: seq<string>, line: string): seq<string> {
    if |lines| > 0 && lines[|lines| - 1] == line then lines else lines + [line]
  }

  /** The lines in order, each immediate repeat dropped. */
  function DropRepeats(xs: seq<string>): (d: seq<string>)
    ensures |d| <= |xs|
    ensures |xs| > 0 ==> |d| > 0 && d[|d| - 1] == xs[|xs| - 1]
    decreases |xs|
  {
    if |xs| == 0 then [] else PushLine(DropRepeats(xs[..|xs| - 1]), xs[|xs| - 1])
  }

  ghost predicate NoAdjacentRepeats(d: seq<string>) {
    forall i, j :: 0 <= i && j == i + 1 && j < |d| ==> d[i] != d[j]
  }

  /** The extracted lines never repeat one another back to back, and they are
      exactly the distinct lines offered. */
  lemma {:induction false} DropRepeatsSound(xs: seq<string>)
    ensures NoAdjacentRepeats(DropRepeats(xs))
    ensures forall x :: x in DropRepeats(xs) <==> x in xs
    decreases |xs|
  {
    if |xs| > 0 {
      var init := xs[..|xs| - 1];
      DropRepeatsSound(init);
      assert xs == init + [xs[|xs| - 1]];
    }
  }

  /** Lines with no repeats come through unchanged. */
  lemma {:induction false} DropRepeatsKeeps(xs: seq<string>)
    requires NoAdjacentRepeats(xs)
    ensures DropRepeats(xs) == xs
    decreases |xs|
  {
    if |xs| > 0 {
      var init := xs[..|xs| - 1];
      assert NoAdjacentRepeats(init);
      DropRepeatsKeeps(init);
      if |init| > 0 {
        assert xs[|xs| - 2] != xs[|xs| - 1];
      }
      assert init + [xs[|xs| - 1]] == xs;
    }
  }

  /** `findContent`'s second loop, with the tests of `Kept` as `keep`. */
  method ExtractLines(es: seq<TextElement>, keep: TextElement -> bool) returns (lines: seq<string>)
    ensures lines == DropRepeats(KeptLines(es, keep))
  {
    lines := [];
    var i := 0;
    while i < |es|
      invariant 0 <= i <= |es|
      invariant lines == DropRepeats(KeptLines(es[..i], keep))
    {
      KeptLinesSnoc(es, keep, i);
      var node := es[i];
      if keep(node) {
        DropRepeatsSnoc(KeptLines(es[..i], keep), LineOf(node));
        lines := PushLine(lines, LineOf(node));
      } else {
        assert KeptLines(es[..i], keep) + [] == KeptLines(es[..i], keep);
      }
      i := i + 1;
    }
    assert es[..i] == es;
  }

  /** One more element: its line comes after those of the elements before. */
  lemma KeptLinesSnoc(es: seq<TextElement>, keep: TextElement -> bool, i: int)
    requires 0 <= i < |es|
    ensures KeptLines(es[..i + 1], keep) == KeptLines(es[..i], keep) + (if keep(es[i]) then [LineOf(es[i])] else [])
  {
    assert es[..i + 1][..i] == es[..i];
  }

  lemma DropRepeatsSnoc(xs: seq<string>, x: string)
    ensures DropRepeats(xs + [x]) == PushLine(DropRepeats(xs), x)
  {
    assert (xs + [x])[..|xs|] == xs;
  }

  /** Every extracted line is clean, not empty, and free of forbidden words
      and links; and a hidden element offers none. */
  lemma ExtractedLinesSound(es: seq<TextElement>)
    ensures forall line :: line in DropRepeats(KeptLines(es, Kept)) ==>
              Clean(line) && |line| > 0 && !HasForbiddenWord(Lower(line)) && !HasLink(Lower(line))
    ensures forall line :: line in DropRepeats(KeptLines(es, Kept)) ==>
              exists k :: 0 <= k < |es| && !IsElementHidden(es[k].appearance) && LineOf(es[k]) == line
  {
    DropRepeatsSound(KeptLines(es, Kept));
    forall line | line in DropRepeats(KeptLines(es, Kept))
      ensures Clean(line) && |line| > 0 && !HasForbiddenWord(Lower(line)) && !HasLink(Lower(line))
      ensures exists k :: 0 <= k < |es| && !IsElementHidden(es[k].appearance) && LineOf(es[k]) == line
    {
      KeptLinesIff(es, Kept, line);
      var k :| 0 <= k < |es| && Kept(es[k]) && LineOf(es[k]) == line;
      CleanTextIsClean(es[k].innerText);
    }
  }

  // ----------------------------------------------------------------------
  // The script
  // ----------------------------------------------------------------------

  /** The elements the second loop walks: those of the chosen container, or
      of the body when no container qualifies. */
  function ScannedElements(cs: seq<Container>, body: seq<TextElement>): seq<TextElement> {
    var b := BestContainer(cs);
    if b.Some? then cs[b.value].elements else body
  }

  /** The cleaned first `h1`, else `document.title`. */
  function ArticleTitle(h1: Option<string>, documentTitle: string): string {
    if h1.Some? then CleanText(h1.value) else documentTitle
  }

  /** The envelope posted for the extracted lines. */
  function ReaderEnvelope(title: string, lines: seq<string>): (e: Envelope)
    ensures e.ReaderExtracted? <==> |lines| > 0
    ensures e.ReaderExtracted? ==> e.article == Article(title, lines)
    ensures !e.ReaderExtracted? ==> e == ReaderError
  {
    if |lines| > 0 then ReaderExtracted(Article(title, lines)) else ReaderError
  }

  /** The extraction script. `failure` is the message of an exception thrown
      inside the `try`; it is reported as an error log and nothing else is
      posted. */
  method ExtractArticle(page: GuestPage, h1: Option<string>, documentTitle: string,
                        cs: seq<Container>, body: seq<TextElement>, failure: Option<string>)
    modifies page
    ensures failure.Some? ==>
              page.State() == old(page.State()).(posted := old(page.posted) + [ConsoleLog(Error, failure.value)])
    ensures failure.None? ==>
              page.State() == old(page.State()).(posted := old(page.posted) +
                [ReaderEnvelope(ArticleTitle(h1, documentTitle), DropRepeats(KeptLines(ScannedElements(cs, body), Kept)))])
  {
    if failure.Some? {
      page.Post(ConsoleLog(Error, failure.value));
      return;
    }
    var title := ArticleTitle(h1, documentTitle);
    var best := PickContainer(cs);
    var scanned := if best.Some? then cs[best.value].elements else body;
    var content := ExtractLines(scanned, Kept);
    if |content| > 0 {
      page.Post(ReaderExtracted(Article(title, content)));
    } else {
      page.Post(ReaderError);
    }
  }
}
