/** web/src/components/HistoryView.js: the history list grouped by age. The
    local midnight of the current day is a parameter (it comes from the
    clock); dates are milliseconds since the epoch. */
module HistoryView {
  import opened BrowserTypes
  import opened Lists

  /** The five groups, in the order the `groups` object lists them. */
  datatype Bucket = Today | Yesterday | ThisWeek | ThisMonth | Older

  function Rank(b: Bucket): (r: nat)
    ensures r < 5
  {
    match b
    case Today => 0
    case Yesterday => 1
    case ThisWeek => 2
    case ThisMonth => 3
    case Older => 4
  }

  /** The section heading of a group. */
  function Title(b: Bucket): string {
    match b
    case Today => "اليوم"
    case Yesterday => "الأمس"
    case ThisWeek => "هذا الأسبوع"
    case ThisMonth => "هذا الشهر"
    case Older => "أقدم"
  }

  function DayMs(): int { 86400000 }

  /** The `if` chain of the `forEach`: at or after midnight, then at or after
      one, seven and thirty days before it. An unparseable date fails every
      comparison and lands in `Older`. */
  function BucketOf(date: Option<int>, today: int): Bucket {
    if date.None? then Older
    else if date.value >= today then Today
    else if date.value >= today - DayMs() then Yesterday
    else if date.value >= today - 7 * DayMs() then ThisWeek
    else if date.value >= today - 30 * DayMs() then ThisMonth
    else Older
  }

  /** A later date never lands in an older group, and the groups are the
      day-aligned windows: a date in `Yesterday` lies within one day before
      midnight, one in `ThisWeek` within seven days, one in `ThisMonth`
      within thirty. */
  lemma BucketMonotone(d1: int, d2: int, today: int)
    requires d1 <= d2
    ensures Rank(BucketOf(Some(d2), today)) <= Rank(BucketOf(Some(d1), today))
    ensures Rank(BucketOf(Some(d1), today)) <= Rank(BucketOf(None, today))
  {
  }

  /** The items of one group, in input order. */
  function ItemsIn(history: seq<HistoryItem>, today: int, b: Bucket): seq<HistoryItem> {
    Filter(history, InBucket(today, b))
  }

  function InBucket(today: int, b: Bucket): HistoryItem -> bool {
    (item: HistoryItem) => BucketOf(item.date, today) == b
  }

  /** One entry of the result: a heading's group and its items. */
  datatype Section = Section(bucket: Bucket, items: seq<HistoryItem>)

  /** The entry of one group, dropped when the group is empty. */
  function KeepNonEmpty(b: Bucket, items: seq<HistoryItem>): seq<Section> {
    if |items| > 0 then [Section(b, items)] else []
  }

  /** `groupedHistory`: `Object.entries(groups)` lists the groups in the
      order they were declared, and the filter keeps the non-empty ones. */
  function Grouped(history: seq<HistoryItem>, today: int): seq<Section> {
    KeepNonEmpty(Today, ItemsIn(history, today, Today))
    + KeepNonEmpty(Yesterday, ItemsIn(history, today, Yesterday))
    + KeepNonEmpty(ThisWeek, ItemsIn(history, today, ThisWeek))
    + KeepNonEmpty(ThisMonth, ItemsIn(history, today, ThisMonth))
    + KeepNonEmpty(Older, ItemsIn(history, today, Older))
  }

  /** The five lists of the `forEach`. */
  datatype Groups = Groups(today: seq<HistoryItem>, yesterday: seq<HistoryItem>, week: seq<HistoryItem>,
                           month: seq<HistoryItem>, older: seq<HistoryItem>)

  ghost predicate GroupsOf(g: Groups, history: seq<HistoryItem>, today: int) {
    && g.today == ItemsIn(history, today, Today)
    && g.yesterday == ItemsIn(history, today, Yesterday)
    && g.week == ItemsIn(history, today, ThisWeek)
    && g.month == ItemsIn(history, today, ThisMonth)
    && g.older == ItemsIn(history, today, Older)
  }

  /** The `forEach`: each item is pushed onto the list of its group. */
  method FillGroups(history: seq<HistoryItem>, today: int) returns (g: Groups)
    ensures GroupsOf(g, history, today)
  {
    g := Groups([], [], [], [], []);
    var i := 0;
    while i < |history|
      invariant 0 <= i <= |history|
      invariant GroupsOf(g, history[..i], today)
    {
      var item := history[i];
      assert history[..i + 1] == history[..i] + [item];
      var date := item.date;
      if date.Some? && date.value >= today {
        g := g.(today := g.today + [item]);
      } else if date.Some? && date.value >= today - DayMs() {
        g := g.(yesterday := g.yesterday + [item]);
      } else if date.Some? && date.value >= today - 7 * DayMs() {
        g := g.(week := g.week + [item]);
      } else if date.Some? && date.value >= today - 30 * DayMs() {
        g := g.(month := g.month + [item]);
      } else {
        g := g.(older := g.older + [item]);
      }
      GroupsStep(history[..i], item, today);
      i := i + 1;
    }
    assert history[..i] == history;
  }

  /** One more item joins its own group's list and no other. */
  lemma GroupsStep(init: seq<HistoryItem>, item: HistoryItem, today: int)
    ensures ItemsIn(init + [item], today, Today) == ItemsIn(init, today, Today) + (if BucketOf(item.date, today) == Today then [item] else [])
    ensures ItemsIn(init + [item], today, Yesterday) == ItemsIn(init, today, Yesterday) + (if BucketOf(item.date, today) == Yesterday then [item] else [])
    ensures ItemsIn(init + [item], today, ThisWeek) == ItemsIn(init, today, ThisWeek) + (if BucketOf(item.date, today) == ThisWeek then [item] else [])
    ensures ItemsIn(init + [item], today, ThisMonth) == ItemsIn(init, today, ThisMonth) + (if BucketOf(item.date, today) == ThisMonth then [item] else [])
    ensures ItemsIn(init + [item], today, Older) == ItemsIn(init, today, Older) + (if BucketOf(item.date, today) == Older then [item] else [])
  {
    ItemStep(init, item, today, Today);
    ItemStep(init, item, today, Yesterday);
    ItemStep(init, item, today, ThisWeek);
    ItemStep(init, item, today, ThisMonth);
    ItemStep(init, item, today, Older);
  }

  lemma ItemStep(init: seq<HistoryItem>, item: HistoryItem, today: int, b: Bucket)
    ensures ItemsIn(init + [item], today, b) == ItemsIn(init, today, b) + (if BucketOf(item.date, today) == b then [item] else [])
  {
    FilterConcat(init, [item], InBucket(today, b));
    assert [item][1..] == [];
  }

  /** `groupedHistory`: the five lists, then the non-empty ones in order. */
  method GroupHistory(history: seq<HistoryItem>, today: int) returns (sections: seq<Section>)
    ensures sections == Grouped(history, today)
  {
    var g := FillGroups(history, today);
    sections := KeepNonEmpty(Today, g.today) + KeepNonEmpty(Yesterday, g.yesterday)
      + KeepNonEmpty(ThisWeek, g.week) + KeepNonEmpty(ThisMonth, g.month) + KeepNonEmpty(Older, g.older);
  }

  // ----------------------------------------------------------------------
  // What the grouping promises
  // ----------------------------------------------------------------------

  /** The sum of the section sizes. */
  function SizeSum(sections: seq<Section>): nat
    decreases |sections|
  {
    if |sections| == 0 then 0 else |sections[0].items| + SizeSum(sections[1..])
  }

  lemma {:induction false} SizeSumConcat(a: seq<Section>, b: seq<Section>)
    ensures SizeSum(a + b) == SizeSum(a) + SizeSum(b)
    decreases |a|
  {
    if |a| == 0 {
      assert a + b == b;
    } else {
      assert (a + b)[1..] == a[1..] + b;
      SizeSumConcat(a[1..], b);
    }
  }

  /** The five group sizes of a history add up to its length: every item
      lands in exactly one group. */
  lemma {:induction false} GroupsPartition(history: seq<HistoryItem>, today: int)
    ensures |ItemsIn(history, today, Today)| + |ItemsIn(history, today, Yesterday)|
            + |ItemsIn(history, today, ThisWeek)| + |ItemsIn(history, today, ThisMonth)|
            + |ItemsIn(history, today, Older)| == |history|
    decreases |history|
  {
    if |history| > 0 {
      GroupsPartition(history[1..], today);
    }
  }

  /** An item is in a group iff it is in the history and its date falls in
      that group. */
  lemma ItemsInMembers(history: seq<HistoryItem>, today: int, b: Bucket, item: HistoryItem)
    ensures item in ItemsIn(history, today, b) <==> item in history && BucketOf(item.date, today) == b
  {
    FilterMembers(history, InBucket(today, b), item);
  }

  /** Within a group the items keep their input order: grouping a history
      made of two parts groups each part and puts the first one's items
      first. */
  lemma GroupKeepsOrder(a: seq<HistoryItem>, c: seq<HistoryItem>, today: int, b: Bucket)
    ensures ItemsIn(a + c, today, b) == ItemsIn(a, today, b) + ItemsIn(c, today, b)
  {
    FilterConcat(a, c, InBucket(today, b));
  }

  lemma KeepSize(b: Bucket, items: seq<HistoryItem>)
    ensures SizeSum(KeepNonEmpty(b, items)) == |items|
  {
    if |items| > 0 {
      assert KeepNonEmpty(b, items)[1..] == [];
    }
  }

  /** The sections cover the whole history: their sizes add up to its
      length. */
  lemma GroupedCovers(history: seq<HistoryItem>, today: int)
    ensures SizeSum(Grouped(history, today)) == |history|
  {
    GroupsPartition(history, today);
    var t := KeepNonEmpty(Today, ItemsIn(history, today, Today));
    var y := KeepNonEmpty(Yesterday, ItemsIn(history, today, Yesterday));
    var w := KeepNonEmpty(ThisWeek, ItemsIn(history, today, ThisWeek));
    var m := KeepNonEmpty(ThisMonth, ItemsIn(history, today, ThisMonth));
    var o := KeepNonEmpty(Older, ItemsIn(history, today, Older));
    SizeSumConcat(t, y);
    SizeSumConcat(t + y, w);
    SizeSumConcat(t + y + w, m);
    SizeSumConcat(t + y + w + m, o);
    KeepSize(Today, ItemsIn(history, today, Today));
    KeepSize(Yesterday, ItemsIn(history, today, Yesterday));
    KeepSize(ThisWeek, ItemsIn(history, today, ThisWeek));
    KeepSize(ThisMonth, ItemsIn(history, today, ThisMonth));
    KeepSize(Older, ItemsIn(history, today, Older));
  }

  /** The sections so far come in strictly increasing group order, all
      before group rank `r`; each is non-empty and holds its group's
      items. */
  ghost predicate OrderedBelow(g: seq<Section>, r: int, history: seq<HistoryItem>, today: int) {
    && (forall i, j :: 0 <= i < j < |g| ==> Rank(g[i].bucket) < Rank(g[j].bucket))
    && (forall i :: 0 <= i < |g| ==> Rank(g[i].bucket) < r)
    && (forall i :: 0 <= i < |g| ==> |g[i].items| > 0 && g[i].items == ItemsIn(history, today, g[i].bucket))
  }

  lemma Extend(g: seq<Section>, b: Bucket, history: seq<HistoryItem>, today: int)
    requires OrderedBelow(g, Rank(b), history, today)
    ensures OrderedBelow(g + KeepNonEmpty(b, ItemsIn(history, today, b)), Rank(b) + 1, history, today)
  {
  }

  /** The group of rank `k`. */
  function BucketOfRank(k: nat): (b: Bucket)
    requires k < 5
    ensures Rank(b) == k
  {
    if k == 0 then Today else if k == 1 then Yesterday else if k == 2 then ThisWeek
    else if k == 3 then ThisMonth else Older
  }

  /** The sections of the first `k` groups. */
  ghost function GroupedUpTo(history: seq<HistoryItem>, today: int, k: nat): seq<Section>
    requires k <= 5
  {
    if k == 0 then []
    else GroupedUpTo(history, today, k - 1) + KeepNonEmpty(BucketOfRank(k - 1), ItemsIn(history, today, BucketOfRank(k - 1)))
  }

  lemma {:induction false} OrderedUpTo(history: seq<HistoryItem>, today: int, k: nat)
    requires k <= 5
    ensures OrderedBelow(GroupedUpTo(history, today, k), k, history, today)
  {
    if k > 0 {
      OrderedUpTo(history, today, k - 1);
      Extend(GroupedUpTo(history, today, k - 1), BucketOfRank(k - 1), history, today);
    }
  }

  /** The sections come in the fixed group order, none is empty, and each
      holds its group's items. */
  lemma GroupedOrdered(history: seq<HistoryItem>, today: int)
    ensures var g := Grouped(history, today);
            && (forall i, j :: 0 <= i < j < |g| ==> Rank(g[i].bucket) < Rank(g[j].bucket))
            && (forall i :: 0 <= i < |g| ==> |g[i].items| > 0 && g[i].items == ItemsIn(history, today, g[i].bucket))
  {
    OrderedUpTo(history, today, 5);
    var t := KeepNonEmpty(Today, ItemsIn(history, today, Today));
    var y := KeepNonEmpty(Yesterday, ItemsIn(history, today, Yesterday));
    var w := KeepNonEmpty(ThisWeek, ItemsIn(history, today, ThisWeek));
    var m := KeepNonEmpty(ThisMonth, ItemsIn(history, today, ThisMonth));
    assert GroupedUpTo(history, today, 1) == [] + t == t;
    assert GroupedUpTo(history, today, 2) == t + y;
    assert GroupedUpTo(history, today, 3) == t + y + w;
    assert GroupedUpTo(history, today, 4) == t + y + w + m;
  }

  /** Every non-empty group has its section. */
  lemma GroupedComplete(history: seq<HistoryItem>, today: int, b: Bucket)
    requires |ItemsIn(history, today, b)| > 0
    ensures Section(b, ItemsIn(history, today, b)) in Grouped(history, today)
  {
    var t := KeepNonEmpty(Today, ItemsIn(history, today, Today));
    var y := KeepNonEmpty(Yesterday, ItemsIn(history, today, Yesterday));
    var w := KeepNonEmpty(ThisWeek, ItemsIn(history, today, ThisWeek));
    var m := KeepNonEmpty(ThisMonth, ItemsIn(history, today, ThisMonth));
    var o := KeepNonEmpty(Older, ItemsIn(history, today, Older));
    var s := Section(b, ItemsIn(history, today, b));
    match b
    case Today => assert t == [s];
    case Yesterday => assert y == [s];
    case ThisWeek => assert w == [s];
    case ThisMonth => assert m == [s];
    case Older => assert o == [s];
  }
}
