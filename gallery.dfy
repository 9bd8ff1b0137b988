/** web/src/components/ImageGalleryView.js: the image gallery. Each image
    gets a row height from its measured aspect ratio (a failed measurement
    counts as ratio 1.5, a missing one as 70% of the screen height); the
    reader's scroll offsets are the running sums of those heights; long
    presses toggle images in and out of the selection. The screen size is
    an input; ratios are exact fractions. */
module Gallery {
  import opened BrowserTypes
  import opened Text

  type Positive = n: nat | n > 0 witness 1

  /** `Math.round(a / b)`: the nearest integer, halves rounded up. */
  function RoundRatio(a: nat, b: Positive): (r: nat)
    ensures 2 * b * r <= 2 * a + b < 2 * b * r + 2 * b
  {
    (2 * a + b) / (2 * b)
  }

  /** A measured image's aspect ratio `h / w`, kept as a fraction. */
  datatype Meta = Meta(ratioNum: nat, ratioDen: Positive)

  /** The meta of a measured image. */
  function Measured(w: Positive, h: nat): Meta {
    Meta(h, w)
  }

  /** The meta of an image whose size could not be read: ratio 1.5. */
  function FallbackMeta(): Meta {
    Meta(3, 2)
  }

  /** `Math.round(screenHeight * 0.7)`: the height of a row without meta. */
  function FallbackHeight(screenHeight: nat): nat {
    RoundRatio(7 * screenHeight, 10)
  }

  /** The row height of an image: `Math.round(width * ratio)`, or the
      fallback height when there is no meta yet. */
  function RowHeight(m: Option<Meta>, width: nat, screenHeight: nat): nat {
    if m.Some? then RoundRatio(width * m.value.ratioNum, m.value.ratioDen) else FallbackHeight(screenHeight)
  }

  /** A row of ratio 1.5 is one and a half screen widths high, rounded. */
  lemma FallbackRowHeight(width: nat, screenHeight: nat)
    ensures RowHeight(Some(FallbackMeta()), width, screenHeight) == (3 * width + 1) / 2
  {
  }

  function Heights(meta: seq<Option<Meta>>, width: nat, screenHeight: nat): (hs: seq<nat>)
    ensures |hs| == |meta|
    ensures forall i :: 0 <= i < |meta| ==> hs[i] == RowHeight(meta[i], width, screenHeight)
  {
    seq(|meta|, i requires 0 <= i < |meta| => RowHeight(meta[i], width, screenHeight))
  }

  function Sum(hs: seq<nat>): nat
    decreases |hs|
  {
    if |hs| == 0 then 0 else Sum(hs[..|hs| - 1]) + hs[|hs| - 1]
  }

  /** The offset of each row: the sum of the heights above it. */
  function Offsets(hs: seq<nat>): seq<nat> {
    seq(|hs|, i requires 0 <= i < |hs| => Sum(hs[..i]))
  }

  lemma SumStep(hs: seq<nat>, i: int)
    requires 0 <= i < |hs|
    ensures Sum(hs[..i + 1]) == Sum(hs[..i]) + hs[i]
  {
    assert hs[..i + 1][..i] == hs[..i];
  }

  /** Offsets are prefix sums: as many as heights, the first is 0, each
      next one adds the height of the row before it, so they never
      decrease, and the last offset plus the last height is the total. */
  lemma OffsetsSound(hs: seq<nat>)
    ensures |Offsets(hs)| == |hs|
    ensures |hs| > 0 ==> Offsets(hs)[0] == 0
    ensures forall i :: 0 <= i < |hs| - 1 ==> Offsets(hs)[i + 1] == Offsets(hs)[i] + hs[i]
    ensures forall i, j :: 0 <= i <= j < |hs| ==> Offsets(hs)[i] <= Offsets(hs)[j]
    ensures |hs| > 0 ==> Offsets(hs)[|hs| - 1] + hs[|hs| - 1] == Sum(hs)
  {
    var offs := Offsets(hs);
    forall i | 0 <= i < |hs| - 1 ensures offs[i + 1] == offs[i] + hs[i] {
      SumStep(hs, i);
    }
    forall i, j | 0 <= i <= j < |hs| ensures offs[i] <= offs[j] {
      SumMonotone(hs, i, j);
    }
    if |hs| > 0 {
      assert hs[..|hs|] == hs;
      SumStep(hs, |hs| - 1);
    }
  }

  lemma {:induction false} SumMonotone(hs: seq<nat>, i: int, j: int)
    requires 0 <= i <= j <= |hs|
    ensures Sum(hs[..i]) <= Sum(hs[..j])
    decreases j - i
  {
    if i < j {
      SumStep(hs, j - 1);
      SumMonotone(hs, i, j - 1);
    }
  }

  /** Rows of equal height `h` sit at multiples of `h`. */
  lemma {:induction false} SumConstant(n: nat, h: nat)
    ensures Sum(seq(n, _ => h)) == n * h
  {
    if n > 0 {
      assert seq(n, _ => h)[..n - 1] == seq(n - 1, _ => h);
      SumConstant(n - 1, h);
    }
  }

  /** `allMetaReady`: one meta per image and none missing. */
  predicate AllMetaReady(meta: seq<Option<Meta>>, imageCount: nat) {
    |meta| == imageCount && forall i :: 0 <= i < |meta| ==> meta[i].Some?
  }

  /** `copy[idx] = m` on a copy of the meta list: past the end the list
      grows, with holes that read as missing. */
  function SetMeta(meta: seq<Option<Meta>>, idx: nat, m: Meta): (r: seq<Option<Meta>>)
    ensures |r| == if idx < |meta| then |meta| else idx + 1
    ensures r[idx] == Some(m)
    ensures forall i :: 0 <= i < |r| && i != idx ==> r[i] == (if i < |meta| then meta[i] else None)
  {
    if idx < |meta| then meta[idx := Some(m)] else meta + seq(idx - |meta|, _ => None) + [Some(m)]
  }

  /** The meta list after the measurement callbacks `updates`, in the order
      they arrive. */
  function ApplyAll(meta: seq<Option<Meta>>, updates: seq<(nat, Meta)>): seq<Option<Meta>>
    decreases |updates|
  {
    if |updates| == 0 then meta
    else SetMeta(ApplyAll(meta, updates[..|updates| - 1]), updates[|updates| - 1].0, updates[|updates| - 1].1)
  }

  /** Once every image of the current list has answered, whatever the order
      and however often, the gallery is ready. */
  lemma {:induction false} ReadyOnceAllAnswered(n: nat, updates: seq<(nat, Meta)>)
    requires forall k :: 0 <= k < |updates| ==> updates[k].0 < n
    requires forall i :: 0 <= i < n ==> Answered(updates, i)
    ensures AllMetaReady(ApplyAll(seq(n, _ => None), updates), n)
  {
    var init: seq<Option<Meta>> := seq(n, _ => None);
    ApplyAllKeepsLength(n, updates);
    var r := ApplyAll(init, updates);
    forall i | 0 <= i < n ensures r[i].Some? {
      assert Answered(updates, i);
      var k :| 0 <= k < |updates| && updates[k].0 == i;
      AnsweredStays(init, updates, k);
    }
  }

  /** Some callback in `updates` answered for image `i`. */
  ghost predicate Answered(updates: seq<(nat, Meta)>, i: nat) {
    exists k :: 0 <= k < |updates| && updates[k].0 == i
  }

  ghost predicate AnsweredAt(meta: seq<Option<Meta>>, updates: seq<(nat, Meta)>, i: nat) {
    var r := ApplyAll(meta, updates);
    i < |r| && r[i].Some?
  }

  /** An image that has answered keeps its meta through later answers. */
  lemma {:induction false} AnsweredStays(meta: seq<Option<Meta>>, updates: seq<(nat, Meta)>, k: nat)
    requires k < |updates|
    ensures AnsweredAt(meta, updates, updates[k].0)
    decreases |updates|
  {
    var last := |updates| - 1;
    if k < last {
      assert updates[..last][k] == updates[k];
      AnsweredStays(meta, updates[..last], k);
    }
  }

  lemma {:induction false} ApplyAllKeepsLength(n: nat, updates: seq<(nat, Meta)>)
    requires forall k :: 0 <= k < |updates| ==> updates[k].0 < n
    ensures |ApplyAll(seq(n, _ => None), updates)| == n
    decreases |updates|
  {
    if |updates| > 0 {
      var init := updates[..|updates| - 1];
      assert forall k :: 0 <= k < |init| ==> init[k] == updates[k];
      ApplyAllKeepsLength(n, init);
    }
  }

  /** An answer for an index past the current list (a callback left over
      from a longer, earlier list) makes the list longer than the image
      list, so the gallery is not ready. */
  lemma StaleAnswerBlocksReady(meta: seq<Option<Meta>>, imageCount: nat, idx: nat, m: Meta)
    requires |meta| == imageCount && idx >= imageCount
    ensures !AllMetaReady(SetMeta(meta, idx, m), imageCount)
  {
  }

  /** An answer within the list never takes readiness away. */
  lemma AnswerKeepsReady(meta: seq<Option<Meta>>, imageCount: nat, idx: nat, m: Meta)
    requires AllMetaReady(meta, imageCount) && idx < imageCount
    ensures AllMetaReady(SetMeta(meta, idx, m), imageCount)
  {
  }

  /** `toggleSelection(uri)` on the selection set. */
  function Toggled(s: set<string>, uri: string): (r: set<string>)
    ensures uri in r <==> uri !in s
    ensures forall v :: v != uri ==> (v in r <==> v in s)
  {
    if uri in s then s - {uri} else s + {uri}
  }

  /** Toggling twice restores the selection. */
  lemma ToggleTwice(s: set<string>, uri: string)
    ensures Toggled(Toggled(s, uri), uri) == s
  {
  }

  /** The alert of `showSelectionStatus`; none when nothing is selected. */
  function SelectionStatus(s: set<string>): (r: Option<string>)
    ensures r.None? <==> |s| == 0
  {
    if |s| == 0 then None else Some("تم تحديد " + NatToString(|s|) + " صورة")
  }

  /** `getItemLayout`'s result. */
  datatype Layout = Layout(length: nat, offset: nat, index: nat)

  /** `getItemLayout(_, index)`: a row past the computed offsets is placed
      as if every row above it had the fallback height. */
  function ItemLayout(meta: seq<Option<Meta>>, offsets: seq<nat>, width: nat, screenHeight: nat, index: nat): Layout {
    Layout(RowHeight(if index < |meta| then meta[index] else None, width, screenHeight),
           if index < |offsets| then offsets[index] else index * FallbackHeight(screenHeight),
           index)
  }

  /** With offsets computed from the meta, each row starts where the row
      above it ends. */
  lemma LayoutsAdjoin(meta: seq<Option<Meta>>, width: nat, screenHeight: nat, i: nat)
    requires i + 1 < |meta|
    ensures var offsets := Offsets(Heights(meta, width, screenHeight));
            ItemLayout(meta, offsets, width, screenHeight, i + 1).offset
            == ItemLayout(meta, offsets, width, screenHeight, i).offset
               + ItemLayout(meta, offsets, width, screenHeight, i).length
  {
    OffsetsSound(Heights(meta, width, screenHeight));
  }

  /** Before any image is measured the fallback placement agrees with the
      computed offsets, on every row. */
  lemma FallbackLayoutAgrees(n: nat, width: nat, screenHeight: nat, index: nat)
    ensures var meta: seq<Option<Meta>> := seq(n, _ => None);
            ItemLayout(meta, Offsets(Heights(meta, width, screenHeight)), width, screenHeight, index).offset
            == index * FallbackHeight(screenHeight)
  {
    var meta: seq<Option<Meta>> := seq(n, _ => None);
    var hs := Heights(meta, width, screenHeight);
    var fb := FallbackHeight(screenHeight);
    if index < n {
      assert hs[..index] == seq(index, _ => fb);
      SumConstant(index, fb);
    }
  }

  /** The gallery's state. `width` and `screenHeight` are the window's
      size. */
  class GalleryState {
    const width: nat
    const screenHeight: nat
    var images: seq<string>
    var selectedImages: set<string>
    var viewingIndex: Option<nat>
    var imageMeta: seq<Option<Meta>>
    var offsets: seq<nat>

    constructor(width: nat, screenHeight: nat, images: seq<string>)
      ensures this.width == width && this.screenHeight == screenHeight && this.images == images
      ensures selectedImages == {} && viewingIndex == None && imageMeta == [] && offsets == []
    {
      this.width := width;
      this.screenHeight := screenHeight;
      this.images := images;
      selectedImages := {};
      viewingIndex := None;
      imageMeta := [];
      offsets := [];
    }

    /** The effect on `images`: no images clear the meta and the offsets;
        otherwise every image starts without meta. */
    method ResetMeta()
      modifies this`imageMeta, this`offsets
      ensures |images| == 0 ==> imageMeta == [] && offsets == []
      ensures |images| > 0 ==> imageMeta == seq(|images|, _ => None) && offsets == old(offsets)
    {
      if |images| == 0 {
        imageMeta := [];
        offsets := [];
        return;
      }
      imageMeta := seq(|images|, _ => None);
    }

    /** The success callback of the size lookup for image `idx`. */
    method SizeLoaded(idx: nat, w: Positive, h: nat)
      modifies this`imageMeta
      ensures imageMeta == SetMeta(old(imageMeta), idx, Measured(w, h))
    {
      imageMeta := SetMeta(imageMeta, idx, Measured(w, h));
    }

    /** The failure callback of the size lookup for image `idx`. */
    method SizeFailed(idx: nat)
      modifies this`imageMeta
      ensures imageMeta == SetMeta(old(imageMeta), idx, FallbackMeta())
    {
      imageMeta := SetMeta(imageMeta, idx, FallbackMeta());
    }

    /** The effect on `imageMeta`: the offsets are the running sums of the
        row heights. */
    method UpdateOffsets()
      modifies this`offsets
      ensures offsets == Offsets(Heights(imageMeta, width, screenHeight))
    {
      if |imageMeta| == 0 {
        offsets := [];
        return;
      }
      var heights := Heights(imageMeta, width, screenHeight);
      var offs: seq<nat> := [];
      var acc: nat := 0;
      for i := 0 to |heights|
        invariant |offs| == i && acc == Sum(heights[..i])
        invariant forall k :: 0 <= k < i ==> offs[k] == Sum(heights[..k])
      {
        offs := offs + [acc];
        SumStep(heights, i);
        acc := acc + heights[i];
      }
      offsets := offs;
    }

    /** `toggleSelection(uri)` */
    method ToggleSelection(uri: string)
      modifies this`selectedImages
      ensures selectedImages == Toggled(old(selectedImages), uri)
    {
      var s := selectedImages;
      if uri in s {
        s := s - {uri};
      } else {
        s := s + {uri};
      }
      selectedImages := s;
    }

    /** `openReaderAt(index)`: the reader opens on `index` and, once it is
        mounted, scrolls to that row's offset when one is known. */
    method OpenReaderAt(index: nat, readerMounted: bool) returns (scrollTo: Option<nat>)
      modifies this`viewingIndex
      ensures viewingIndex == Some(index)
      ensures scrollTo.Some? <==> readerMounted && index < |offsets|
      ensures scrollTo.Some? ==> scrollTo.value == offsets[index]
    {
      viewingIndex := Some(index);
      if readerMounted && index < |offsets| {
        return Some(offsets[index]);
      }
      return None;
    }

    method CloseReader()
      modifies this`viewingIndex
      ensures viewingIndex == None
    {
      viewingIndex := None;
    }
  }
}
