/** web/src/components/StorageManagerView.js: the storage editor. It shows
    one of the three stores of the page as a list of key-value items, parsed
    from the snapshot the page sent, and sends `SET`, `DELETE` and `CLEAR`
    commands back through `onUpdate`. */
module StorageView {
  import opened Text
  import opened Bus
  import opened BrowserTypes
  import opened Guest
  import Features

  /** The three tabs of the editor. */
  datatype StoreTab = LocalTab | SessionTab | CookiesTab

  /** The store name the tab stands for, as `onUpdate` receives it. */
  function StoreName(tab: StoreTab): (name: string)
    ensures name == "cookies" <==> tab == CookiesTab
  {
    match tab
    case LocalTab => "localStorage"
    case SessionTab => "sessionStorage"
    case CookiesTab => "cookies"
  }

  // ----------------------------------------------------------------------
  // Parsing the cookie string
  // ----------------------------------------------------------------------

  /** `part.split('=')[0]`: the untrimmed key of a piece. */
  function PieceKey(p: string): string {
    Split(p, '=')[0]
  }

  /** `String(part.split('=')[1])`: the text between the first and the second
      `=`, or `"undefined"` when the piece has no `=`. */
  function PieceValue(p: string): string {
    var halves := Split(p, '=');
    if |halves| >= 2 then halves[1] else "undefined"
  }

  /** The piece is stored under `k`: its untrimmed key is not empty and
      trims to `k`. */
  predicate Names(p: string, k: string) {
    PieceKey(p) != "" && Trim(PieceKey(p)) == k
  }

  /** One turn of the `forEach`: `if (k) raw[k.trim()] = v`. */
  function AddPiece(raw: seq<KeyValue>, p: string): seq<KeyValue> {
    if PieceKey(p) != "" then SetItem(raw, Trim(PieceKey(p)), PieceValue(p)) else raw
  }

  /** The object the pieces build, as its entries in insertion order. */
  function CookieEntries(parts: seq<string>): seq<KeyValue>
    decreases |parts|
  {
    if |parts| == 0 then []
    else AddPiece(CookieEntries(parts[..|parts| - 1]), parts[|parts| - 1])
  }

  /** The items of the cookie tab. */
  function ParseCookies(cookies: string): seq<KeyValue> {
    CookieEntries(Split(cookies, ';'))
  }

  /** The effect's cookie branch: split on `;`, then one assignment per
      piece with a key. */
  method ParseCookieText(cookies: string) returns (items: seq<KeyValue>)
    ensures items == ParseCookies(cookies)
  {
    var parts := Split(cookies, ';');
    items := [];
    var i := 0;
    while i < |parts|
      invariant 0 <= i <= |parts|
      invariant items == CookieEntries(parts[..i])
    {
      assert parts[..i + 1][..i] == parts[..i];
      var halves := Split(parts[i], '=');
      var k := halves[0];
      if k != "" {
        var v := if |halves| >= 2 then halves[1] else "undefined";
        items := SetItem(items, Trim(k), v);
      }
      i := i + 1;
    }
    assert parts[..i] == parts;
  }

  /** No key is listed twice. */
  lemma {:induction false} CookieEntriesUnique(parts: seq<string>)
    ensures UniqueKeys(CookieEntries(parts))
    decreases |parts|
  {
    if |parts| > 0 {
      CookieEntriesUnique(parts[..|parts| - 1]);
    }
  }

  /** The piece at `i` is the last one stored under `k`. */
  ghost predicate LastFor(parts: seq<string>, i: int, k: string) {
    0 <= i < |parts| && Names(parts[i], k)
    && forall j :: i < j < |parts| ==> !Names(parts[j], k)
  }

  /** The value of the last piece stored under `k`, if any. */
  ghost function LastValue(parts: seq<string>, k: string): Option<string>
    decreases |parts|
  {
    if |parts| == 0 then None
    else if Names(parts[|parts| - 1], k) then Some(PieceValue(parts[|parts| - 1]))
    else LastValue(parts[..|parts| - 1], k)
  }

  /** The value shown under a key is the one of the last piece with that key,
      and a key no piece names is not shown: a later duplicate overwrites an
      earlier one. */
  lemma CookieLookup(parts: seq<string>, k: string)
    ensures forall i :: LastFor(parts, i, k) ==> Lookup(CookieEntries(parts), k) == Some(PieceValue(parts[i]))
    ensures (forall i :: 0 <= i < |parts| ==> !Names(parts[i], k)) ==> Lookup(CookieEntries(parts), k) == None
  {
    LookupIsLastValue(parts, k);
    LastValueOfLast(parts, k);
  }

  lemma {:induction false} LookupIsLastValue(parts: seq<string>, k: string)
    ensures Lookup(CookieEntries(parts), k) == LastValue(parts, k)
    decreases |parts|
  {
    if |parts| > 0 {
      var init := parts[..|parts| - 1];
      var last := parts[|parts| - 1];
      LookupIsLastValue(init, k);
      if Names(last, k) {
        LookupAfterNamed(CookieEntries(init), last, k);
      } else {
        LookupAfterOther(CookieEntries(init), last, k);
      }
    }
  }

  lemma {:induction false} LastValueOfLast(parts: seq<string>, k: string)
    ensures forall i :: LastFor(parts, i, k) ==> LastValue(parts, k) == Some(PieceValue(parts[i]))
    ensures (forall i :: 0 <= i < |parts| ==> !Names(parts[i], k)) ==> LastValue(parts, k) == None
    decreases |parts|
  {
    if |parts| > 0 {
      var n := |parts| - 1;
      var init := parts[..n];
      LastValueOfLast(init, k);
      if Names(parts[n], k) {
        forall i | LastFor(parts, i, k) ensures i == n {
        }
      } else {
        forall i | LastFor(parts, i, k) ensures LastFor(init, i, k) {
          assert i != n;
          assert forall j :: i < j < n ==> init[j] == parts[j];
        }
        assert forall i :: 0 <= i < n ==> init[i] == parts[i];
      }
    }
  }

  lemma LookupAfterNamed(raw: seq<KeyValue>, p: string, k: string)
    requires Names(p, k)
    ensures Lookup(AddPiece(raw, p), k) == Some(PieceValue(p))
  {
  }

  lemma LookupAfterOther(raw: seq<KeyValue>, p: string, k: string)
    requires !Names(p, k)
    ensures Lookup(AddPiece(raw, p), k) == Lookup(raw, k)
  {
  }

  /** A key new to the store goes last. */
  lemma {:induction false} SetItemAppends(s: seq<KeyValue>, k: string, v: string)
    requires forall j :: 0 <= j < |s| ==> s[j].key != k
    ensures SetItem(s, k, v) == s + [KeyValue(k, v)]
    decreases |s|
  {
    if |s| > 0 {
      SetItemAppends(s[1..], k, v);
      assert [s[0]] + (s[1..] + [KeyValue(k, v)]) == s + [KeyValue(k, v)];
    }
  }

  /** A segment `k=v`, with or without the space of `"; "`, reads back as
      key `k` and value `v`. */
  lemma SegmentReads(prefix: string, k: string, v: string)
    requires prefix == "" || prefix == " "
    requires Features.CookieNameOk(k) && '=' !in v
    ensures PieceKey(prefix + (k + "=" + v)) == prefix + k
    ensures Trim(prefix + k) == k
    ensures PieceValue(prefix + (k + "=" + v)) == v
  {
    assert prefix + (k + "=" + v) == (prefix + k) + ['='] + v;
    SplitAtFirst(prefix + k, '=', v);
    SplitWhole(v, '=');
    Features.TrimKeepsClean(k);
    if prefix == " " {
      assert (prefix + k)[1..] == k;
      assert TrimStart(prefix + k) == TrimStart(k);
    } else {
      assert prefix + k == k;
    }
  }

  /** The cookie jars whose string the editor reads back exactly: well-formed
      names, and values free of `;` and `=`. */
  predicate ReadableJar(jar: seq<KeyValue>) {
    Features.WellFormedJar(jar) && forall i :: 0 <= i < |jar| ==> '=' !in jar[i].value
  }

  /** The piece reads back as the cookie's key and value. */
  predicate ReadsAs(p: string, c: KeyValue) {
    PieceKey(p) != "" && Trim(PieceKey(p)) == c.key && PieceValue(p) == c.value
  }

  /** Every piece reads back as the cookie at its position. */
  predicate AllRead(segs: seq<string>, jar: seq<KeyValue>)
    decreases |segs|
  {
    |segs| == |jar|
    && (|segs| == 0 || (AllRead(segs[..|segs| - 1], jar[..|jar| - 1]) && ReadsAs(segs[|segs| - 1], jar[|jar| - 1])))
  }

  lemma {:induction false} AllReadOf(segs: seq<string>, jar: seq<KeyValue>)
    requires |segs| == |jar| && forall j :: 0 <= j < |jar| ==> ReadsAs(segs[j], jar[j])
    ensures AllRead(segs, jar)
    decreases |segs|
  {
    if |segs| > 0 {
      var n := |segs| - 1;
      assert forall j :: 0 <= j < n ==> segs[..n][j] == segs[j] && jar[..n][j] == jar[j];
      AllReadOf(segs[..n], jar[..n]);
    }
  }

  lemma {:induction false} EntriesOfPieces(segs: seq<string>, jar: seq<KeyValue>)
    requires UniqueKeys(jar) && AllRead(segs, jar)
    ensures CookieEntries(segs) == jar
    decreases |segs|
  {
    if |segs| > 0 {
      var n := |segs| - 1;
      var raw := jar[..n];
      var c := jar[n];
      assert UniqueKeys(raw);
      EntriesOfPieces(segs[..n], raw);
      assert raw + [c] == jar;
      forall j | 0 <= j < |raw| ensures raw[j].key != c.key {
        assert raw[j] == jar[j];
      }
      SetItemAppends(raw, c.key, c.value);
    }
  }

  /** Reading the `document.cookie` string of a jar gives the jar back, in
      order, when no value holds `=` (the `"; "` separator's space is
      trimmed off each key). */
  lemma ParseCookieStringRoundTrip(jar: seq<KeyValue>)
    requires ReadableJar(jar)
    ensures ParseCookies(CookieString(jar)) == jar
  {
    if |jar| == 0 {
      assert CookieString(jar) == "";
      assert Split("", ';') == [""];
      assert [""][..0] == [];
    } else {
      Features.SplitCookieString(jar);
      var segs := Split(CookieString(jar), ';');
      forall j | 0 <= j < |jar| ensures ReadsAs(segs[j], jar[j]) {
        SegmentReads(if j == 0 then "" else " ", jar[j].key, jar[j].value);
      }
      AllReadOf(segs, jar);
      EntriesOfPieces(segs, jar);
    }
  }

  /** A value holding `=` is cut at its second `=`: `k=v=w` shows `v`. */
  lemma ValueCutAtSecondEquals(k: string, v: string, w: string)
    requires Features.CookieNameOk(k) && '=' !in v && ';' !in v && ';' !in w
    ensures ParseCookies(k + "=" + v + "=" + w) == [KeyValue(k, v)]
  {
    var p := k + "=" + v + "=" + w;
    var rest := v + "=" + w;
    assert p == k + ['='] + rest;
    assert rest == v + ['='] + w;
    SplitAtFirst(k, '=', rest);
    SplitAtFirst(v, '=', w);
    assert PieceKey(p) == k && PieceValue(p) == v;
    assert ';' !in p;
    SplitWhole(p, ';');
    SinglePiece(p);
    Features.TrimKeepsClean(k);
  }

  /** A string without `;` is one piece. */
  lemma SinglePiece(p: string)
    requires ';' !in p
    ensures ParseCookies(p) == AddPiece([], p)
  {
    SplitWhole(p, ';');
    assert [p][..0] == [];
    assert CookieEntries([p]) == AddPiece(CookieEntries([]), p);
  }

  /** An empty cookie string lists nothing. */
  lemma EmptyCookieString()
    ensures ParseCookies("") == []
  {
    assert Split("", ';') == [""];
    assert [""][..0] == [];
  }

  /** A piece with nothing before its `=` is skipped. */
  lemma EmptyKeySkipped(v: string)
    requires ';' !in v
    ensures ParseCookies("=" + v) == []
  {
    var p := "=" + v;
    SinglePiece(p);
    assert p == "" + ['='] + v;
    SplitAtFirst("", '=', v);
  }

  /** A piece without `=` stores the text `undefined`. */
  lemma MissingValueIsUndefined(k: string)
    requires Features.CookieNameOk(k)
    ensures ParseCookies(k) == [KeyValue(k, "undefined")]
  {
    SinglePiece(k);
    SplitWhole(k, '=');
    Features.TrimKeepsClean(k);
  }

  // ----------------------------------------------------------------------
  // The parse effect
  // ----------------------------------------------------------------------

  /** `JSON.parse(data[activeTab] || '{}')`, then `Object.entries`: a missing
      store is `{}`, and text that does not parse leaves the catch's `{}`. */
  function JsonItems(o: JsonObject): (items: seq<KeyValue>)
    ensures o.Entries? ==> items == o.entries
    ensures !o.Entries? ==> items == []
  {
    match o
    case Missing => []
    case Malformed => []
    case Entries(e) => e
  }

  /** The items the effect computes for a snapshot and a tab. */
  function Parsed(data: StorageSnapshot, tab: StoreTab): seq<KeyValue> {
    match tab
    case LocalTab => JsonItems(data.localStorage)
    case SessionTab => JsonItems(data.sessionStorage)
    case CookiesTab => ParseCookies(data.cookies)
  }

  /** The cookie tab never lists a key twice, and the store tabs list their
      entries as sent. */
  lemma ParsedItems(data: StorageSnapshot, tab: StoreTab)
    ensures tab == CookiesTab ==> UniqueKeys(Parsed(data, tab))
    ensures tab == LocalTab ==> Parsed(data, tab) == JsonItems(data.localStorage)
    ensures tab == SessionTab ==> Parsed(data, tab) == JsonItems(data.sessionStorage)
  {
    CookieEntriesUnique(Split(data.cookies, ';'));
  }

  /** What `onUpdate` is asked to do. */
  datatype StoreAction = SetAction | DeleteAction | ClearAction

  function ActionName(a: StoreAction): (name: string)
    ensures |name| >= 3
  {
    match a
    case SetAction => "SET"
    case DeleteAction => "DELETE"
    case ClearAction => "CLEAR"
  }

  /** One `onUpdate(store, key, value, action)` call; `None` is `null`. */
  datatype Update = Update(store: StoreTab, key: Option<string>, value: Option<string>, action: StoreAction)

  /** `editingItem`: `null`, the item being edited, or `true` while adding. */
  datatype Editing = NotEditing | EditingItem(item: KeyValue) | AddingItem

  /** The editor's state; `sent` records the `onUpdate` calls. */
  class StorageEditor {
    var activeTab: StoreTab
    var parsedData: seq<KeyValue>
    var editingItem: Editing
    var isAdding: bool
    var editKey: string
    var editValue: string
    var sent: seq<Update>

    constructor()
      ensures activeTab == LocalTab && parsedData == [] && editingItem == NotEditing
      ensures !isAdding && editKey == "" && editValue == "" && sent == []
    {
      activeTab := LocalTab;
      parsedData := [];
      editingItem := NotEditing;
      isAdding := false;
      editKey := "";
      editValue := "";
      sent := [];
    }

    /** The effect on `[data, activeTab]`: without data nothing changes. */
    method Refresh(data: Option<StorageSnapshot>)
      modifies this`parsedData
      ensures data.None? ==> parsedData == old(parsedData)
      ensures data.Some? ==> parsedData == Parsed(data.value, activeTab)
    {
      if data.None? {
        return;
      }
      var raw;
      if activeTab == CookiesTab {
        raw := ParseCookieText(data.value.cookies);
      } else {
        var stored := if activeTab == LocalTab then data.value.localStorage else data.value.sessionStorage;
        raw := JsonItems(stored);
      }
      parsedData := raw;
    }

    /** A tab press, then the effect it triggers. */
    method SelectTab(tab: StoreTab, data: Option<StorageSnapshot>)
      modifies this`activeTab, this`parsedData
      ensures activeTab == tab
      ensures data.None? ==> parsedData == old(parsedData)
      ensures data.Some? ==> parsedData == Parsed(data.value, tab)
    {
      activeTab := tab;
      Refresh(data);
    }

    /** `handleSave`: an empty key does nothing; otherwise `SET` on the
      active store and the editor closes. */
    method HandleSave()
      modifies this`sent, this`editingItem, this`isAdding
      ensures old(editKey) == "" ==> sent == old(sent) && editingItem == old(editingItem) && isAdding == old(isAdding)
      ensures old(editKey) != "" ==>
                sent == old(sent) + [Update(activeTab, Some(editKey), Some(editValue), SetAction)]
                && editingItem == NotEditing && !isAdding
    {
      if editKey == "" {
        return;
      }
      sent := sent + [Update(activeTab, Some(editKey), Some(editValue), SetAction)];
      editingItem := NotEditing;
      isAdding := false;
    }

    /** `handleDelete`: after the confirmation, `DELETE` with a null value;
        cancelling sends nothing. */
    method HandleDelete(key: string, confirmed: bool)
      modifies this`sent
      ensures sent == old(sent) + if confirmed then [Update(activeTab, Some(key), None, DeleteAction)] else []
    {
      if confirmed {
        sent := sent + [Update(activeTab, Some(key), None, DeleteAction)];
      }
    }

    /** The Clear All button: `CLEAR` with a null key and value. */
    method ClearAll()
      modifies this`sent
      ensures sent == old(sent) + [Update(activeTab, None, None, ClearAction)]
    {
      sent := sent + [Update(activeTab, None, None, ClearAction)];
    }

    /** `openEditor(item)`: edit an existing item, its key and value loaded. */
    method OpenEditor(item: KeyValue)
      modifies this`isAdding, this`editingItem, this`editKey, this`editValue
      ensures !isAdding && editingItem == EditingItem(item)
      ensures editKey == item.key && editValue == item.value
    {
      isAdding := false;
      editingItem := EditingItem(item);
      editKey := item.key;
      editValue := item.value;
    }

    /** `openAdd`: an empty form for a new item. */
    method OpenAdd()
      modifies this`isAdding, this`editingItem, this`editKey, this`editValue
      ensures isAdding && editingItem == AddingItem
      ensures editKey == "" && editValue == ""
    {
      isAdding := true;
      editingItem := AddingItem;
      editKey := "";
      editValue := "";
    }
  }

  /** Saving from a freshly opened add form sends nothing: its key is
      empty. */
  method AddThenSaveSendsNothing(editor: StorageEditor)
    modifies editor
    ensures editor.sent == old(editor.sent)
  {
    editor.OpenAdd();
    editor.HandleSave();
  }
}
