/** web/src/core/Helpers.js: the random UUID template and the host-name
    extraction used for display. Randomness and URL parsing are inputs. */
module Helpers {
  import opened Text
  import opened BrowserTypes

  /** The version-4 template of section 4.4 of RFC 4122: every `x` becomes a
      random hex digit, `y` becomes the variant digit, `4` is the version. */
  function UuidTemplate(): string { "xxxxxxxx-xxxx-4xxx-yxxx-xxxxxxxxxxxx" }

  predicate IsLowerHex(c: char) {
    '0' <= c <= '9' || 'a' <= c <= 'f'
  }

  /** `v.toString(16)` for one nibble. */
  function HexDigit(v: nat): (c: char)
    requires v < 16
    ensures IsLowerHex(c)
  {
    if v < 10 then (48 + v) as char else (87 + v) as char
  }

  /** The variant nibble `(r & 0x3) | 0x8` of section 4.1.1 of RFC 4122. */
  function VariantNibble(r: nat): (v: nat)
    requires r < 16
    ensures 8 <= v <= 11
  {
    (((r as bv8) & 3) | 8) as nat
  }

  predicate Nibbles(rs: seq<nat>) {
    forall i :: 0 <= i < |rs| ==> rs[i] < 16
  }

  /** The callback of `replace(/[xy]/g, ...)` for one template character,
      given the draw `(Math.random() * 16) | 0` made for it. */
  function FillChar(c: char, r: nat): (d: char)
    requires r < 16
    ensures c == 'x' ==> IsLowerHex(d)
    ensures c == 'y' ==> d in "89ab"
    ensures c != 'x' && c != 'y' ==> d == c
  {
    if c == 'x' then HexDigit(r)
    else if c == 'y' then
      var v := VariantNibble(r);
      assert v == 8 || v == 9 || v == 10 || v == 11;
      HexDigit(v)
    else c
  }

  /** `generateUUID`. The draws are indexed by template position: one per
      position, the ones at fixed characters unused. */
  function GenerateUuid(rs: seq<nat>): (u: string)
    requires |rs| == |UuidTemplate()| && Nibbles(rs)
    ensures |u| == 36
    ensures u[8] == '-' && u[13] == '-' && u[18] == '-' && u[23] == '-'
    ensures u[14] == '4'
    ensures u[19] in "89ab"
    ensures forall i :: 0 <= i < 36 && i !in {8, 13, 14, 18, 19, 23} ==> IsLowerHex(u[i])
  {
    TemplateShape();
    seq(|UuidTemplate()|, i requires 0 <= i < |UuidTemplate()| => FillChar(UuidTemplate()[i], rs[i]))
  }

  /** Where the template holds its dashes, its version and variant marks
      and its random digits. */
  lemma TemplateShape()
    ensures |UuidTemplate()| == 36
    ensures forall i :: 0 <= i < 36 && i !in {8, 13, 14, 18, 19, 23} ==> UuidTemplate()[i] == 'x'
    ensures UuidTemplate()[8] == '-' && UuidTemplate()[13] == '-'
    ensures UuidTemplate()[18] == '-' && UuidTemplate()[23] == '-'
    ensures UuidTemplate()[14] == '4' && UuidTemplate()[19] == 'y'
  {
    var t := UuidTemplate();
    assert t == "xxxxxxxx" + "-" + "xxxx" + "-" + "4xxx" + "-" + "yxxx" + "-" + "xxxxxxxxxxxx";
  }

  /** `s.replace(sub, '')` with a string pattern: only the first copy goes. */
  function RemoveFirst(s: string, sub: string): (r: string)
    requires |sub| > 0
    ensures !Contains(s, sub) ==> r == s
    ensures IsPrefix(sub, s) ==> r == s[|sub|..]
    ensures Contains(s, sub) ==> |r| == |s| - |sub|
    decreases |s|
  {
    if IsPrefix(sub, s) then s[|sub|..]
    else if |s| == 0 then s
    else [s[0]] + RemoveFirst(s[1..], sub)
  }

  /** `k` is the position of the earliest copy of `sub` in `s`. */
  ghost predicate FirstOccurrence(s: string, sub: string, k: int) {
    OccursAt(s, sub, k) && forall j :: 0 <= j < k ==> !OccursAt(s, sub, j)
  }

  /** A copy at position 0 is a prefix. */
  lemma OccursAtStart(s: string, sub: string)
    ensures OccursAt(s, sub, 0) <==> IsPrefix(sub, s)
  {
    if |sub| <= |s| {
      assert s[0..|sub|] == s[..|sub|];
    }
  }

  /** Dropping the first character moves every copy one place left. */
  lemma OccursShift(s: string, sub: string, j: nat)
    requires |s| > 0
    ensures OccursAt(s[1..], sub, j) <==> OccursAt(s, sub, j + 1)
  {
    if j + 1 + |sub| <= |s| {
      assert s[1..][j..j + |sub|] == s[j + 1..j + 1 + |sub|];
    }
  }

  /** An earliest copy in `s[1..]` is an earliest copy in `s`, one place
      on, when `s` does not start with one. */
  lemma FirstOccurrenceStep(s: string, sub: string, k: nat)
    requires |s| > 0 && !IsPrefix(sub, s) && FirstOccurrence(s[1..], sub, k)
    ensures FirstOccurrence(s, sub, k + 1)
  {
    OccursAtStart(s, sub);
    OccursShift(s, sub, k);
    forall j | 0 < j < k + 1 ensures !OccursAt(s, sub, j) {
      OccursShift(s, sub, j - 1);
    }
  }

  /** Cutting a copy out of `s[1..]` and putting the first character back
      cuts the same copy out of `s`. */
  lemma CutStep(s: string, sub: string, k: nat)
    requires |s| > 0 && k + |sub| <= |s| - 1
    ensures [s[0]] + (s[1..][..k] + s[1..][k + |sub|..]) == s[..k + 1] + s[k + 1 + |sub|..]
  {
    assert [s[0]] + s[1..][..k] == s[..k + 1];
    assert s[1..][k + |sub|..] == s[k + 1 + |sub|..];
  }

  /** The copy `RemoveFirst` drops is the earliest one: the result is `s`
      with the characters of that copy cut out. */
  lemma {:induction false} RemoveFirstAtFirst(s: string, sub: string)
    requires |sub| > 0
    ensures Contains(s, sub) ==>
              exists k :: FirstOccurrence(s, sub, k) && RemoveFirst(s, sub) == s[..k] + s[k + |sub|..]
    decreases |s|
  {
    if !Contains(s, sub) {
      return;
    }
    if IsPrefix(sub, s) {
      OccursAtStart(s, sub);
      assert FirstOccurrence(s, sub, 0);
      assert RemoveFirst(s, sub) == s[..0] + s[|sub|..];
      return;
    }
    var t := s[1..];
    RemoveFirstAtFirst(t, sub);
    var k :| FirstOccurrence(t, sub, k) && RemoveFirst(t, sub) == t[..k] + t[k + |sub|..];
    FirstOccurrenceStep(s, sub, k);
    CutStep(s, sub, k);
    assert RemoveFirst(s, sub) == [s[0]] + RemoveFirst(t, sub);
  }

  /** `extractDomain`: `hostname` is what `new URL(url)` yields, or None when
      the constructor throws; then the input comes back unchanged. */
  function ExtractDomain(url: string, hostname: Option<string>): (d: string)
    ensures hostname.None? ==> d == url
    ensures hostname.Some? && IsPrefix("www.", hostname.value) ==> d == hostname.value[4..]
    ensures hostname.Some? && !Contains(hostname.value, "www.") ==> d == hostname.value
  {
    match hostname
    case None => url
    case Some(h) => RemoveFirst(h, "www.")
  }

  /** The domain shown is the input when the URL does not parse, and
      otherwise the host name with its first `www.` cut out, wherever that
      copy stands (`mail.www.x.com` gives `mail.x.com`). */
  lemma ExtractDomainSound(url: string, hostname: Option<string>)
    ensures hostname.None? ==> ExtractDomain(url, hostname) == url
    ensures hostname.Some? && !Contains(hostname.value, "www.") ==> ExtractDomain(url, hostname) == hostname.value
    ensures hostname.Some? && Contains(hostname.value, "www.") ==>
              var h := hostname.value;
              exists k :: FirstOccurrence(h, "www.", k) && ExtractDomain(url, hostname) == h[..k] + h[k + 4..]
  {
    if hostname.Some? {
      RemoveFirstAtFirst(hostname.value, "www.");
    }
  }
}
