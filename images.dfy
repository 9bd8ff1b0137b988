/** web/src/core/ImageExtractionEngine.js: the image extraction script. It
    collects the sources of large `img` elements and the `url(...)` of
    background images, drops repeats keeping first occurrences, and posts
    the list or a warning. Elements are given as records: an image with its
    source and natural size, a box with its computed `background-image`. */
module Images {
  import opened Text
  import opened Bus
  import opened BrowserTypes
  import opened Guest

  /** An `img` element. */
  datatype ImageElement = ImageElement(src: string, naturalWidth: nat, naturalHeight: nat)

  /** `isValidImage`: wider or taller than 150 pixels. */
  predicate IsValidImage(img: ImageElement) {
    img.naturalWidth > 150 || img.naturalHeight > 150
  }

  /** The first loop's test: a source, and a size above the icon limit. */
  predicate ImageTaken(img: ImageElement) {
    img.src != "" && IsValidImage(img)
  }

  /** The sources of the taken images, in document order. */
  function ImageUrls(imgs: seq<ImageElement>): seq<string>
    decreases |imgs|
  {
    if |imgs| == 0 then []
    else
      var last := imgs[|imgs| - 1];
      ImageUrls(imgs[..|imgs| - 1]) + (if ImageTaken(last) then [last.src] else [])
  }

  lemma {:induction false} ImageUrlsIff(imgs: seq<ImageElement>, u: string)
    ensures u in ImageUrls(imgs) <==> exists k :: 0 <= k < |imgs| && ImageTaken(imgs[k]) && imgs[k].src == u
    decreases |imgs|
  {
    if |imgs| > 0 {
      var init := imgs[..|imgs| - 1];
      ImageUrlsIff(init, u);
      assert forall k :: 0 <= k < |init| ==> init[k] == imgs[k];
    }
  }

  /** The second loop's test on `style.backgroundImage`. */
  predicate BackgroundTaken(bg: string) {
    bg != "" && bg != "none" && IsPrefix("url(", bg)
  }

  /** `s.replace(/["']/g, "")` */
  function RemoveQuotes(s: string): (r: string)
    ensures |r| <= |s|
    ensures '"' !in r && '\'' !in r
    decreases |s|
  {
    if |s| == 0 then ""
    else (if s[0] == '"' || s[0] == '\'' then "" else [s[0]]) + RemoveQuotes(s[1..])
  }

  /** `bg.slice(4, -1)` with the quotes removed: what lies between `url(`
      and the last character; `url(` alone slices to the empty string. */
  function BackgroundUrl(bg: string): string
    requires IsPrefix("url(", bg)
  {
    if |bg| >= 5 then RemoveQuotes(bg[4..|bg| - 1]) else ""
  }

  lemma {:induction false} RemoveQuotesKeeps(s: string)
    requires '"' !in s && '\'' !in s
    ensures RemoveQuotes(s) == s
    decreases |s|
  {
    if |s| > 0 {
      RemoveQuotesKeeps(s[1..]);
      assert s == [s[0]] + s[1..];
    }
  }

  /** The argument of `url(...)`, quotes removed. */
  lemma BackgroundUrlOfWrapped(inner: string)
    ensures IsPrefix("url(", "url(" + inner + ")")
    ensures BackgroundUrl("url(" + inner + ")") == RemoveQuotes(inner)
  {
    var bg := "url(" + inner + ")";
    assert bg[..4] == "url(";
    assert bg[4..|bg| - 1] == inner;
  }

  /** The CSS forms `url(u)`, `url("u")` and `url('u')` all give back `u`
      when `u` has no quotes. */
  lemma BackgroundUrlUnwraps(u: string)
    requires '"' !in u && '\'' !in u
    ensures BackgroundUrl("url(" + u + ")") == u
    ensures BackgroundUrl("url(" + ("\"" + u + "\"") + ")") == u
    ensures BackgroundUrl("url(" + ("'" + u + "'") + ")") == u
  {
    RemoveQuotesKeeps(u);
    BackgroundUrlOfWrapped(u);
    BackgroundUrlOfWrapped("\"" + u + "\"");
    QuotedUnwraps('"', u, "\"" + u + "\"");
    BackgroundUrlOfWrapped("'" + u + "'");
    QuotedUnwraps('\'', u, "'" + u + "'");
  }

  lemma QuotedUnwraps(q: char, u: string, inner: string)
    requires q == '"' || q == '\''
    requires '"' !in u && '\'' !in u && inner == [q] + u + [q]
    ensures RemoveQuotes(inner) == u
  {
    RemoveQuotesKeeps(u);
    assert inner[1..] == u + [q];
    RemoveQuotesConcat(u, [q]);
    assert RemoveQuotes([q]) == "" + RemoveQuotes([q][1..]);
  }

  lemma {:induction false} RemoveQuotesConcat(a: string, b: string)
    ensures RemoveQuotes(a + b) == RemoveQuotes(a) + RemoveQuotes(b)
    decreases |a|
  {
    if |a| > 0 {
      assert (a + b)[0] == a[0];
      assert (a + b)[1..] == a[1..] + b;
      RemoveQuotesConcat(a[1..], b);
    } else {
      assert a + b == b;
    }
  }

  /** The URLs of the taken backgrounds, in document order. */
  function BackgroundUrls(bgs: seq<string>): seq<string>
    decreases |bgs|
  {
    if |bgs| == 0 then []
    else
      var last := bgs[|bgs| - 1];
      BackgroundUrls(bgs[..|bgs| - 1]) + (if BackgroundTaken(last) then [BackgroundUrl(last)] else [])
  }

  // ----------------------------------------------------------------------
  // [...new Set(images)]
  // ----------------------------------------------------------------------

  /** The distinct values in order of first occurrence. */
  function Unique(xs: seq<string>): seq<string>
    decreases |xs|
  {
    if |xs| == 0 then []
    else
      var u := Unique(xs[..|xs| - 1]);
      if xs[|xs| - 1] in u then u else u + [xs[|xs| - 1]]
  }

  ghost predicate Distinct(xs: seq<string>) {
    forall i, j :: 0 <= i < j < |xs| ==> xs[i] != xs[j]
  }

  /** No value twice, and every value of the input, no other. */
  lemma {:induction false} UniqueSound(xs: seq<string>)
    ensures Distinct(Unique(xs))
    ensures forall x :: x in Unique(xs) <==> x in xs
    decreases |xs|
  {
    if |xs| > 0 {
      var init := xs[..|xs| - 1];
      UniqueSound(init);
      assert xs == init + [xs[|xs| - 1]];
    }
  }

  /** A list without repeats comes through unchanged. */
  lemma {:induction false} UniqueKeepsDistinct(xs: seq<string>)
    requires Distinct(xs)
    ensures Unique(xs) == xs
    decreases |xs|
  {
    if |xs| > 0 {
      var init := xs[..|xs| - 1];
      UniqueKeepsDistinct(init);
      assert xs[|xs| - 1] !in init;
      assert init + [xs[|xs| - 1]] == xs;
    }
  }

  /** The values of the first list come first, in their own first-occurrence
      order; what follows is none of them. */
  lemma {:induction false} UniqueConcat(a: seq<string>, b: seq<string>)
    ensures |Unique(a)| <= |Unique(a + b)|
    ensures Unique(a + b)[..|Unique(a)|] == Unique(a)
    ensures forall i :: |Unique(a)| <= i < |Unique(a + b)| ==> Unique(a + b)[i] !in a
    decreases |b|
  {
    if |b| == 0 {
      assert a + b == a;
    } else {
      var init := b[..|b| - 1];
      UniqueConcat(a, init);
      assert (a + b)[..|a + b| - 1] == a + init;
      UniqueSound(a);
      UniqueSound(a + init);
    }
  }

  // ----------------------------------------------------------------------
  // The script
  // ----------------------------------------------------------------------

  /** The two `forEach` loops: taken image sources, then taken background
      URLs. */
  method GatherImages(imgs: seq<ImageElement>, bgs: seq<string>) returns (images: seq<string>)
    ensures images == ImageUrls(imgs) + BackgroundUrls(bgs)
  {
    images := [];
    var i := 0;
    while i < |imgs|
      invariant 0 <= i <= |imgs|
      invariant images == ImageUrls(imgs[..i])
    {
      assert imgs[..i + 1][..i] == imgs[..i];
      var img := imgs[i];
      if img.src != "" && IsValidImage(img) {
        images := images + [img.src];
      }
      i := i + 1;
    }
    assert imgs[..i] == imgs;
    var fromImages := images;
    var j := 0;
    while j < |bgs|
      invariant 0 <= j <= |bgs|
      invariant images == fromImages + BackgroundUrls(bgs[..j])
    {
      assert bgs[..j + 1][..j] == bgs[..j];
      var bg := bgs[j];
      if bg != "" && bg != "none" && IsPrefix("url(", bg) {
        images := images + [BackgroundUrl(bg)];
      }
      j := j + 1;
    }
    assert bgs[..j] == bgs;
  }

  /** The warning posted when no image qualifies. */
  function NoImagesMessage(): string {
    "لم يتم العثور على صور مناسبة في هذه الصفحة"
  }

  /** The envelope posted for the distinct URLs. */
  function ImagesEnvelope(unique: seq<string>): (e: Envelope)
    ensures e.ImagesExtracted? <==> |unique| > 0
    ensures e.ImagesExtracted? ==> e.urls == unique
    ensures !e.ImagesExtracted? ==> e == ConsoleLog(Warn, NoImagesMessage())
  {
    if |unique| > 0 then ImagesExtracted(unique) else ConsoleLog(Warn, NoImagesMessage())
  }

  /** The extraction script. `failure` is the message of an exception thrown
      inside the `try`. */
  method ExtractImages(page: GuestPage, imgs: seq<ImageElement>, bgs: seq<string>, failure: Option<string>)
    modifies page
    ensures failure.Some? ==>
              page.State() == old(page.State()).(posted := old(page.posted) + [ConsoleLog(Error, failure.value)])
    ensures failure.None? ==>
              page.State() == old(page.State()).(posted := old(page.posted) +
                [ImagesEnvelope(Unique(ImageUrls(imgs) + BackgroundUrls(bgs)))])
  {
    if failure.Some? {
      page.Post(ConsoleLog(Error, failure.value));
      return;
    }
    var images := GatherImages(imgs, bgs);
    var unique := Unique(images);
    page.Post(ImagesEnvelope(unique));
  }

  /** An image is listed iff it is taken, or a background gives its URL; each
      at most once, and the taken images before any background-only URL. */
  lemma ExtractedImagesSound(imgs: seq<ImageElement>, bgs: seq<string>, u: string)
    ensures var listed := Unique(ImageUrls(imgs) + BackgroundUrls(bgs));
            && Distinct(listed)
            && |Unique(ImageUrls(imgs))| <= |listed|
            && (u in listed <==> u in ImageUrls(imgs) || u in BackgroundUrls(bgs))
            && listed[..|Unique(ImageUrls(imgs))|] == Unique(ImageUrls(imgs))
  {
    UniqueSound(ImageUrls(imgs) + BackgroundUrls(bgs));
    UniqueConcat(ImageUrls(imgs), BackgroundUrls(bgs));
  }
}
