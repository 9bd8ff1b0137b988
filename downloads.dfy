/** web/src/core/DownloadEngine.js: the file name a download is saved
    under, the download history kept in storage, and deleting from it. The
    clock, the UUID, the file system's answer and the storage are inputs or
    fields; alerts are not modelled. */
module Downloads {
  import opened Text
  import opened Lists
  import opened BrowserTypes

  // ----------------------------------------------------------------------
  // The file name
  // ----------------------------------------------------------------------

  /** `'download_' + Date.now()` */
  function DefaultName(now: nat): string {
    "download_" + NatToString(now)
  }

  /** The name the URL gives: its last `/`-segment up to the first `?`
      when that segment is not empty and contains a `.`; otherwise the
      default name. */
  function UrlName(url: string, now: nat): string {
    var parts := Split(url, '/');
    var last := parts[|parts| - 1];
    if last != "" && Contains(last, ".") then BeforeFirst(last, '?') else DefaultName(now)
  }

  /** The pattern `/filename="?([^"]+)"?/` tried at the start of `s`: the
      name runs from after the optional quote to the next quote or the end,
      and must not be empty. With the quote taken and nothing before the
      next quote, dropping the quote cannot help, since the group cannot
      start with a quote. */
  function MatchAt(s: string): (r: Option<string>)
    ensures r.Some? ==> |r.value| > 0 && '"' !in r.value && IsPrefix("filename=", s)
  {
    if !IsPrefix("filename=", s) then None
    else
      var rest := s[9..];
      var body := if |rest| > 0 && rest[0] == '"' then rest[1..] else rest;
      var name := BeforeFirst(body, '"');
      if |name| > 0 then Some(name) else None
  }

  /** `contentDisposition.match(...)[1]`: the group of the leftmost match. */
  function DispositionName(cd: string): (r: Option<string>)
    ensures r.Some? ==> |r.value| > 0 && '"' !in r.value
    decreases |cd|
  {
    if |cd| == 0 then None
    else if MatchAt(cd).Some? then MatchAt(cd)
    else DispositionName(cd[1..])
  }

  /** The characters the cleaning keeps: `[a-zA-Z0-9._-]`. */
  predicate Allowed(c: char) {
    ('a' <= c <= 'z') || ('A' <= c <= 'Z') || ('0' <= c <= '9') || c == '.' || c == '_' || c == '-'
  }

  /** `name.replace(/[^a-zA-Z0-9._-]/g, '_')` */
  function Sanitize(s: string): (r: string)
    ensures |r| == |s|
    ensures forall i :: 0 <= i < |s| ==> r[i] == (if Allowed(s[i]) then s[i] else '_')
  {
    seq(|s|, i requires 0 <= i < |s| => if Allowed(s[i]) then s[i] else '_')
  }

  /** The name before cleaning: the header's name when it has one, else the
      URL's. */
  function RawName(url: string, cd: string, now: nat): string {
    if cd != "" && Contains(cd, "filename=") && DispositionName(cd).Some? then DispositionName(cd).value
    else UrlName(url, now)
  }

  /** The name a download is saved under; a missing header is `""`. */
  function FileName(url: string, cd: string, now: nat): string {
    Sanitize(RawName(url, cd, now))
  }

  /** The name derivation of `downloadFile`, step by step. */
  method DeriveFileName(url: string, cd: string, now: nat) returns (fileName: string)
    ensures fileName == FileName(url, cd, now)
  {
    fileName := "download_" + NatToString(now);
    var urlParts := Split(url, '/');
    var lastPart := urlParts[|urlParts| - 1];
    if lastPart != "" && Contains(lastPart, ".") {
      fileName := BeforeFirst(lastPart, '?');
    }
    if cd != "" && Contains(cd, "filename=") {
      var found := DispositionName(cd);
      if found.Some? {
        fileName := found.value;
      }
    }
    fileName := Sanitize(fileName);
  }

  /** The cleaned name keeps the length, uses only the allowed characters,
      keeps every allowed character where it was, and cleaning it again
      changes nothing. */
  lemma SanitizeSound(s: string)
    ensures |Sanitize(s)| == |s|
    ensures forall i :: 0 <= i < |s| ==> Allowed(Sanitize(s)[i])
    ensures forall i :: 0 <= i < |s| ==> (Sanitize(s)[i] == s[i] <==> Allowed(s[i]))
    ensures Sanitize(Sanitize(s)) == Sanitize(s)
  {
  }

  /** A name of allowed characters comes through cleaning unchanged. */
  lemma SanitizeKeepsClean(s: string)
    requires forall i :: 0 <= i < |s| ==> Allowed(s[i])
    ensures Sanitize(s) == s
  {
  }

  /** The default name is already clean. */
  lemma DefaultNameClean(now: nat)
    ensures Sanitize(DefaultName(now)) == DefaultName(now)
  {
    var d := DefaultName(now);
    forall i | 0 <= i < |d| ensures Allowed(d[i]) {
      if i >= 9 {
        assert d[i] == NatToString(now)[i - 9];
      }
    }
    SanitizeKeepsClean(d);
  }

  /** The last `/`-segment of `base/last`. */
  lemma LastSegment(base: string, last: string)
    requires '/' !in last
    ensures var parts := Split(base + "/" + last, '/'); parts[|parts| - 1] == last
  {
    assert base + "/" + last == base + ['/'] + last;
    SplitLast(base, '/', last);
  }

  /** The name of the last segment, up to its query: `.../dir/name?query`
      gives `name` when the name has a `.`. */
  lemma UrlNameOfLastSegment(base: string, name: string, query: string, now: nat)
    requires '/' !in name && '/' !in query && '?' !in name && Contains(name, ".")
    ensures UrlName(base + "/" + name + "?" + query, now) == name
  {
    var last := name + ['?'] + query;
    assert base + "/" + name + "?" + query == base + "/" + last;
    LastSegment(base, last);
    assert last == "" + name + ("?" + query);
    ContainsInConcat("", name, "?" + query, ".");
    assert Contains(last, ".");
    BeforeFirstConcat(name, '?', query);
    assert BeforeFirst(last, '?') == name;
  }

  /** A last segment without a `.` leaves the default name. */
  lemma UrlNameWithoutDot(base: string, last: string, now: nat)
    requires '/' !in last && !Contains(last, ".")
    ensures UrlName(base + "/" + last, now) == DefaultName(now)
  {
    LastSegment(base, last);
  }

  /** Text without an `f` cannot start a match, so it is skipped. */
  lemma {:induction false} SkipNoF(p: string, s: string)
    requires 'f' !in p && |s| > 0
    ensures DispositionName(p + s) == DispositionName(s)
    decreases |p|
  {
    if |p| > 0 {
      assert (p + s)[0] == p[0];
      assert !IsPrefix("filename=", p + s);
      assert (p + s)[1..] == p[1..] + s;
      SkipNoF(p[1..], s);
    } else {
      assert p + s == s;
    }
  }

  /** A quoted name is read between its quotes. */
  lemma QuotedName(n: string, tail: string)
    requires |n| > 0 && '"' !in n
    ensures DispositionName("filename=\"" + n + "\"" + tail) == Some(n)
  {
    var s := "filename=\"" + n + "\"" + tail;
    assert s[..9] == "filename=";
    var rest := s[9..];
    assert rest == "\"" + n + "\"" + tail;
    assert rest[1..] == n + ['"'] + tail;
    BeforeFirstConcat(n, '"', tail);
  }

  /** An unquoted name runs to the next quote or the end of the header: any
      parameters after it become part of the name. */
  lemma UnquotedNameRunsOn(n: string)
    requires |n| > 0 && '"' !in n
    ensures DispositionName("filename=" + n) == Some(n)
  {
    var s := "filename=" + n;
    assert s[..9] == "filename=";
    assert s[9..] == n;
    BeforeFirstWhole(n, '"');
  }

  lemma {:induction false} BeforeFirstWhole(s: string, sep: char)
    requires sep !in s
    ensures BeforeFirst(s, sep) == s
    decreases |s|
  {
    if |s| > 0 {
      BeforeFirstWhole(s[1..], sep);
    }
  }

  /** A quoted name after parameters that hold no `f`, as in
      `attachment; filename="n"`, names the file `n`. */
  lemma AttachmentHeader(p: string, n: string)
    requires 'f' !in p && |n| > 0 && '"' !in n
    ensures DispositionName(p + "filename=\"" + n + "\"") == Some(n)
  {
    var s := "filename=\"" + n + "\"";
    assert p + "filename=\"" + n + "\"" == p + s;
    SkipNoF(p, s);
    QuotedName(n, "");
    assert s + "" == s;
  }

  /** A header name, when there is one, wins over the URL; otherwise the URL
      decides; either way the result is clean and as long as the raw
      name. */
  lemma FileNameSound(url: string, cd: string, now: nat)
    ensures DispositionName(cd).Some? ==> FileName(url, cd, now) == Sanitize(DispositionName(cd).value)
    ensures DispositionName(cd).None? ==> FileName(url, cd, now) == Sanitize(UrlName(url, now))
    ensures forall i :: 0 <= i < |FileName(url, cd, now)| ==> Allowed(FileName(url, cd, now)[i])
  {
    if DispositionName(cd).Some? {
      DispositionMentionsFilename(cd);
    }
  }

  /** A match needs `filename=` in the header, so the `includes` guard never
      hides one. */
  lemma {:induction false} DispositionMentionsFilename(cd: string)
    requires DispositionName(cd).Some?
    ensures cd != "" && Contains(cd, "filename=")
    decreases |cd|
  {
    if MatchAt(cd).None? {
      DispositionMentionsFilename(cd[1..]);
    }
  }

  // ----------------------------------------------------------------------
  // The history
  // ----------------------------------------------------------------------

  /** A history record. */
  datatype DownloadItem = DownloadItem(id: string, name: string, uri: string, date: string,
                                       size: string, mimeType: string)

  /** The record of a finished download: a missing `Content-Length` is
      `Unknown`, a missing MIME type `application/octet-stream`. */
  function NewDownload(id: string, name: string, uri: string, date: string, contentLength: string, mimetype: string): (d: DownloadItem)
    ensures d.id == id && d.name == name && d.uri == uri && d.date == date
    ensures d.size == (if contentLength == "" then "Unknown" else contentLength)
    ensures d.mimeType == (if mimetype == "" then "application/octet-stream" else mimetype)
  {
    DownloadItem(id, name, uri, date,
                 if contentLength == "" then "Unknown" else contentLength,
                 if mimetype == "" then "application/octet-stream" else mimetype)
  }

  /** `current.filter(i => i.id !== id)` */
  function WithoutDownload(items: seq<DownloadItem>, id: string): seq<DownloadItem> {
    Filter(items, (d: DownloadItem) => d.id != id)
  }

  /** Exactly the records with another id remain, in order; removing again
      changes nothing. */
  lemma WithoutDownloadSound(items: seq<DownloadItem>, id: string, d: DownloadItem)
    ensures d in WithoutDownload(items, id) <==> d in items && d.id != id
    ensures WithoutDownload(WithoutDownload(items, id), id) == WithoutDownload(items, id)
    ensures forall a, b :: items == a + b ==> WithoutDownload(items, id) == WithoutDownload(a, id) + WithoutDownload(b, id)
  {
    var keep := (x: DownloadItem) => x.id != id;
    FilterMembers(items, keep, d);
    FilterIdempotent(items, keep);
    forall a, b | items == a + b ensures WithoutDownload(items, id) == WithoutDownload(a, id) + WithoutDownload(b, id) {
      FilterConcat(a, b, keep);
    }
  }

  /** The `downloads_history` entry of the storage; `None` when nothing was
      stored yet. */
  class DownloadHistory {
    var stored: Option<seq<DownloadItem>>

    constructor()
      ensures stored == None
    {
      stored := None;
    }

    /** `getHistory`: the stored list, or `[]`. */
    function Current(): (h: seq<DownloadItem>)
      reads this
      ensures stored.None? ==> h == []
      ensures stored.Some? ==> h == stored.value
    {
      if stored.Some? then stored.value else []
    }

    /** `saveToHistory(item)`: the item goes first. */
    method SaveToHistory(item: DownloadItem)
      modifies this`stored
      ensures stored == Some([item] + old(Current()))
      ensures Current()[0] == item && Current()[1..] == old(Current())
    {
      var current := Current();
      stored := Some([item] + current);
      assert ([item] + current)[1..] == current;
    }

    /** The saving half of `downloadFile`: a record is kept only when the
        download answered 200. `status` stands for the download's answer
        (a thrown error counts as any other status). */
    method DownloadFile(url: string, mimetype: string, cd: string, now: nat, status: int,
                        newId: string, uri: string, date: string, contentLength: string)
      returns (ok: bool)
      modifies this`stored
      ensures ok <==> status == 200
      ensures ok ==> stored == Some([NewDownload(newId, FileName(url, cd, now), uri, date, contentLength, mimetype)] + old(Current()))
      ensures !ok ==> stored == old(stored)
    {
      var fileName := DeriveFileName(url, cd, now);
      if status == 200 {
        var newDownload := NewDownload(newId, fileName, uri, date, contentLength, mimetype);
        SaveToHistory(newDownload);
        return true;
      }
      return false;
    }

    /** `deleteFile(id, uri)`: when the file is removed, the list without
        that id is stored and returned; when removing it fails, `null` and
        nothing changes. */
    method DeleteFile(id: string, fileRemoved: bool) returns (updated: Option<seq<DownloadItem>>)
      modifies this`stored
      ensures !fileRemoved ==> updated == None && stored == old(stored)
      ensures fileRemoved ==> updated == Some(WithoutDownload(old(Current()), id)) && stored == updated
    {
      if !fileRemoved {
        return None;
      }
      var current := Current();
      var rest := WithoutDownload(current, id);
      stored := Some(rest);
      return Some(rest);
    }
  }
}
