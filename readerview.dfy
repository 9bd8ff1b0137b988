/** web/src/components/NativeReaderView.js: the native reader screen. Its
    font size moves in steps of 2 between 14 and 40, the chosen size and
    font are kept in storage under `reader_font_size` and
    `reader_font_family`, and the copy button puts the article's text on
    the clipboard. Storage is a map field; the clipboard and alerts are
    fields. */
module ReaderView {
  import opened Text
  import opened BrowserTypes
  import opened Bus

  /** A font size as JavaScript holds it: a number, or `NaN` when the stored
      text is not a number. */
  datatype FontSize = Px(n: int) | NotANumber

  /** Whether the size is truthy: `0` and `NaN` are not. */
  predicate Truthy(s: FontSize) {
    s.Px? && s.n != 0
  }

  /** `Math.max(14, fontSize - 2)`; `NaN` stays `NaN`. */
  function Smaller(s: FontSize): FontSize {
    if s.NotANumber? then NotANumber else Px(if s.n - 2 < 14 then 14 else s.n - 2)
  }

  /** `Math.min(40, fontSize + 2)`; `NaN` stays `NaN`. */
  function Larger(s: FontSize): FontSize {
    if s.NotANumber? then NotANumber else Px(if s.n + 2 > 40 then 40 else s.n + 2)
  }

  /** Decreasing never goes below 14 and increasing never above 40, each
      moves by 2 away from its bound, and a size between 14 and 40 stays
      there. */
  lemma ClampsSound(n: int)
    ensures Smaller(Px(n)).n >= 14 && Larger(Px(n)).n <= 40
    ensures n >= 16 ==> Smaller(Px(n)) == Px(n - 2)
    ensures n <= 38 ==> Larger(Px(n)) == Px(n + 2)
    ensures 14 <= n <= 40 ==> 14 <= Smaller(Px(n)).n <= 40 && 14 <= Larger(Px(n)).n <= 40
    ensures Smaller(Px(n)).n <= n || n < 14
    ensures Larger(Px(n)).n >= n || n > 40
  {
  }

  // ----------------------------------------------------------------------
  // Reading a stored size back: `parseInt(saved, 10)`
  // ----------------------------------------------------------------------

  predicate IsDigit(c: char) {
    '0' <= c <= '9'
  }

  /** Every character of `s` is a decimal digit. */
  predicate AllDigits(s: string)
    decreases |s|
  {
    |s| == 0 || (IsDigit(s[0]) && AllDigits(s[1..]))
  }

  lemma {:induction false} AllDigitsOf(s: string)
    requires forall i :: 0 <= i < |s| ==> IsDigit(s[i])
    ensures AllDigits(s)
    decreases |s|
  {
    if |s| > 0 {
      AllDigitsOf(s[1..]);
    }
  }

  /** The digits at the start of `s`. */
  function DigitRun(s: string): (r: string)
    ensures IsPrefix(r, s) && AllDigits(r)
    ensures |r| < |s| ==> !IsDigit(s[|r|])
    decreases |s|
  {
    if |s| > 0 && IsDigit(s[0]) then [s[0]] + DigitRun(s[1..]) else ""
  }

  /** The value of a run of decimal digits. */
  function DigitsValue(ds: string): nat
    decreases |ds|
  {
    if |ds| == 0 then 0 else DigitsValue(ds[..|ds| - 1]) * 10 + DigitValue(ds[|ds| - 1])
  }

  /** The value of a digit; only digits are ever read. */
  function DigitValue(c: char): nat {
    if IsDigit(c) then (c as int) - 48 else 0
  }

  /** `parseInt(s, 10)`: leading white space, then an optional sign, then
      the digits up to the first other character; no digits is `NaN`. */
  function ParseInt(s: string): FontSize {
    ParseSigned(TrimStart(s))
  }

  /** An optional sign, then digits. */
  function ParseSigned(t: string): FontSize {
    if |t| > 0 && t[0] == '-' then Negate(ParseUnsigned(t[1..]))
    else if |t| > 0 && t[0] == '+' then ParseUnsigned(t[1..])
    else ParseUnsigned(t)
  }

  function ParseUnsigned(b: string): FontSize {
    var run := DigitRun(b);
    if |run| == 0 then NotANumber else Px(DigitsValue(run))
  }

  function Negate(x: FontSize): FontSize {
    if x.NotANumber? then NotANumber else Px(-x.n)
  }

  /** `n.toString()` */
  function IntToString(n: int): string {
    if n < 0 then "-" + NatToString(-n) else NatToString(n)
  }

  /** Reading back a saved size gives the size: `parseInt(n.toString(), 10)
      == n` for every integer. */
  lemma ParseIntRoundTrip(n: int)
    ensures ParseInt(IntToString(n)) == Px(n)
  {
    if n < 0 {
      var m: nat := -n;
      assert IntToString(n) == "-" + NatToString(m);
      NegativeRoundTrip(m);
      assert -(m as int) == n;
    } else {
      assert IntToString(n) == NatToString(n);
      NaturalRoundTrip(n);
    }
  }

  lemma NaturalRoundTrip(n: nat)
    ensures ParseInt(NatToString(n)) == Px(n)
  {
    var ds := NatToString(n);
    NatToStringValue(n);
    AllDigitsOf(ds);
    ParsePlain(ds);
  }

  lemma NegativeRoundTrip(n: nat)
    ensures ParseInt("-" + NatToString(n)) == Px(-(n as int))
  {
    var ds := NatToString(n);
    NatToStringValue(n);
    AllDigitsOf(ds);
    ParseMinus(ds);
  }

  /** Digits read as their value. */
  lemma ParsePlain(ds: string)
    requires |ds| > 0 && AllDigits(ds)
    ensures ParseInt(ds) == Px(DigitsValue(ds))
  {
    UnsignedDigits(ds);
    DigitNotSpace(ds[0]);
    ParseNoSpace(ds);
    UnsignedStart(ds);
  }

  lemma UnsignedStart(t: string)
    requires |t| > 0 && IsDigit(t[0])
    ensures ParseSigned(t) == ParseUnsigned(t)
  {
  }

  /** Digits after a minus sign read as the negated value. */
  lemma ParseMinus(ds: string)
    requires |ds| > 0 && AllDigits(ds)
    ensures ParseInt("-" + ds) == Px(-(DigitsValue(ds) as int))
  {
    UnsignedDigits(ds);
    var minus := "-" + ds;
    ParseNoSpace(minus);
    MinusStart(ds);
  }

  lemma MinusStart(ds: string)
    ensures ParseSigned("-" + ds) == Negate(ParseUnsigned(ds))
  {
    assert ("-" + ds)[1..] == ds;
  }

  lemma UnsignedDigits(ds: string)
    requires |ds| > 0 && AllDigits(ds)
    ensures ParseUnsigned(ds) == Px(DigitsValue(ds))
  {
    DigitRunAll(ds);
  }

  lemma ParseNoSpace(s: string)
    requires |s| > 0 && !IsSpace(s[0])
    ensures ParseInt(s) == ParseSigned(s)
  {
    NoLeadingSpace(s);
  }

  lemma DigitNotSpace(c: char)
    requires IsDigit(c)
    ensures !IsSpace(c)
  {
  }

  lemma NoLeadingSpace(s: string)
    requires |s| > 0 && !IsSpace(s[0])
    ensures TrimStart(s) == s
  {
  }

  lemma {:induction false} DigitRunAll(s: string)
    requires AllDigits(s)
    ensures DigitRun(s) == s
    decreases |s|
  {
    if |s| > 0 {
      DigitRunAll(s[1..]);
    }
  }

  lemma {:induction false} NatToStringValue(n: nat)
    ensures DigitsValue(NatToString(n)) == n
  {
    if n >= 10 {
      var r := NatToString(n);
      NatToStringValue(n / 10);
      assert r[..|r| - 1] == NatToString(n / 10);
    }
  }

  /** Text that does not start with a digit, after any white space and
      sign, reads as `NaN`. */
  lemma NoDigitsIsNaN(s: string)
    requires |s| > 0 && !IsSpace(s[0]) && s[0] != '-' && s[0] != '+' && !IsDigit(s[0])
    ensures ParseInt(s) == NotANumber
  {
  }

  /** A sign not followed by a digit reads as `NaN`: `parseInt` skips no
      white space after the sign, so `"-"`, `"+x"` and `"- 5"` give `NaN`. */
  lemma SignWithoutDigitsIsNaN(sign: char, s: string)
    requires sign == '-' || sign == '+'
    requires |s| == 0 || !IsDigit(s[0])
    ensures ParseInt([sign] + s) == NotANumber
  {
    var t := [sign] + s;
    ParseNoSpace(t);
    assert t[1..] == s;
  }

  /** A stored size with trailing text is cut at the first non-digit. */
  lemma TrailingTextIgnored(n: nat, rest: string)
    requires |rest| > 0 && !IsDigit(rest[0])
    ensures ParseInt(NatToString(n) + rest) == Px(n)
  {
    var digits := NatToString(n);
    var s := digits + rest;
    AllDigitsOf(digits);
    DigitNotSpace(s[0]);
    DigitRunPrefix(digits, rest);
    NatToStringValue(n);
  }

  lemma {:induction false} DigitRunPrefix(ds: string, rest: string)
    requires AllDigits(ds)
    requires |rest| > 0 && !IsDigit(rest[0])
    ensures DigitRun(ds + rest) == ds
    decreases |ds|
  {
    if |ds| > 0 {
      assert (ds + rest)[1..] == ds[1..] + rest;
      DigitRunPrefix(ds[1..], rest);
    } else {
      assert ds + rest == rest;
    }
  }

  // ----------------------------------------------------------------------
  // Fonts and the copied text
  // ----------------------------------------------------------------------

  /** The font choices, `FONTS`, as (label, value). */
  function Fonts(): seq<(string, string)> {
    [("Cairo", "Cairo-Regular"), ("تجوال", "Tajawal"), ("نظام (عريض)", "System-Bold"),
     ("نظام (عادي)", "System"), ("Monospace", "monospace")]
  }

  /** The text that `handleCopyContent` puts on the clipboard. */
  function CopyText(a: Article): string {
    a.title + "\n\n" + Join(a.content, "\n\n")
  }

  /** The copied text starts with the title and a blank line and holds
      every paragraph; a one-paragraph article copies as title, blank line,
      paragraph. */
  lemma CopyTextSound(a: Article)
    ensures IsPrefix(a.title + "\n\n", CopyText(a))
    ensures forall k :: 0 <= k < |a.content| ==> Contains(CopyText(a), a.content[k])
    ensures |a.content| == 1 ==> CopyText(a) == a.title + "\n\n" + a.content[0]
    ensures |a.content| == 0 ==> CopyText(a) == a.title + "\n\n"
  {
    forall k | 0 <= k < |a.content| ensures Contains(CopyText(a), a.content[k]) {
      JoinContainsPart(a.content, "\n\n", k);
      ContainsInConcat(a.title + "\n\n", Join(a.content, "\n\n"), "", a.content[k]);
      assert a.title + "\n\n" + Join(a.content, "\n\n") + "" == CopyText(a);
    }
    assert CopyText(a)[..|a.title + "\n\n"|] == a.title + "\n\n";
  }

  // ----------------------------------------------------------------------
  // The screen's state
  // ----------------------------------------------------------------------

  function SizeKey(): string { "reader_font_size" }
  function FontKey(): string { "reader_font_family" }

  /** The reader's settings, the storage they are kept in, the clipboard and
      the alerts shown. */
  class ReaderScreen {
    var fontSize: FontSize
    var fontFamily: string
    var showSettings: bool
    var storage: map<string, string>
    var clipboard: Option<string>
    var alerts: seq<string>

    constructor(storage: map<string, string>)
      ensures fontSize == Px(20) && fontFamily == "Cairo-Regular" && !showSettings
      ensures this.storage == storage && clipboard == None && alerts == []
    {
      fontSize := Px(20);
      fontFamily := "Cairo-Regular";
      showSettings := false;
      this.storage := storage;
      clipboard := None;
      alerts := [];
    }

    /** `loadSettings`: a stored, non-empty size is read with `parseInt`, a
        stored, non-empty font is taken as it is. */
    method LoadSettings()
      modifies this`fontSize, this`fontFamily
      ensures SizeKey() in storage && storage[SizeKey()] != "" ==> fontSize == ParseInt(storage[SizeKey()])
      ensures !(SizeKey() in storage && storage[SizeKey()] != "") ==> fontSize == old(fontSize)
      ensures FontKey() in storage && storage[FontKey()] != "" ==> fontFamily == storage[FontKey()]
      ensures !(FontKey() in storage && storage[FontKey()] != "") ==> fontFamily == old(fontFamily)
    {
      if SizeKey() in storage && storage[SizeKey()] != "" {
        fontSize := ParseInt(storage[SizeKey()]);
      }
      if FontKey() in storage && storage[FontKey()] != "" {
        fontFamily := storage[FontKey()];
      }
    }

    /** `saveSettings(newSize, newFont)`: only a truthy size and a truthy
        font are applied and stored; `None` stands for `null`. */
    method SaveSettings(newSize: Option<FontSize>, newFont: Option<string>)
      modifies this`fontSize, this`fontFamily, this`storage
      ensures newSize.Some? && Truthy(newSize.value) ==> fontSize == newSize.value
      ensures !(newSize.Some? && Truthy(newSize.value)) ==> fontSize == old(fontSize)
      ensures newFont.Some? && newFont.value != "" ==> fontFamily == newFont.value
      ensures !(newFont.Some? && newFont.value != "") ==> fontFamily == old(fontFamily)
      ensures storage == (if newSize.Some? && Truthy(newSize.value) then old(storage)[SizeKey() := IntToString(newSize.value.n)] else old(storage))
                         + (if newFont.Some? && newFont.value != "" then map[FontKey() := newFont.value] else map[])
    {
      if newSize.Some? && Truthy(newSize.value) {
        fontSize := newSize.value;
        storage := storage[SizeKey() := IntToString(newSize.value.n)];
      }
      if newFont.Some? && newFont.value != "" {
        fontFamily := newFont.value;
        storage := storage[FontKey() := newFont.value];
      }
    }

    /** The minus button. */
    method DecreaseFont()
      modifies this`fontSize, this`fontFamily, this`storage
      ensures Truthy(Smaller(old(fontSize))) ==>
                fontSize == Smaller(old(fontSize)) && storage == old(storage)[SizeKey() := IntToString(fontSize.n)]
      ensures !Truthy(Smaller(old(fontSize))) ==> fontSize == old(fontSize) && storage == old(storage)
      ensures fontFamily == old(fontFamily)
    {
      SaveSettings(Some(Smaller(fontSize)), None);
    }

    /** The plus button. */
    method IncreaseFont()
      modifies this`fontSize, this`fontFamily, this`storage
      ensures Truthy(Larger(old(fontSize))) ==>
                fontSize == Larger(old(fontSize)) && storage == old(storage)[SizeKey() := IntToString(fontSize.n)]
      ensures !Truthy(Larger(old(fontSize))) ==> fontSize == old(fontSize) && storage == old(storage)
      ensures fontFamily == old(fontFamily)
    {
      SaveSettings(Some(Larger(fontSize)), None);
    }

    /** A font button. */
    method ChooseFont(value: string)
      modifies this`fontSize, this`fontFamily, this`storage
      ensures value != "" ==> fontFamily == value && storage == old(storage)[FontKey() := value]
      ensures value == "" ==> fontFamily == old(fontFamily) && storage == old(storage)
      ensures fontSize == old(fontSize)
    {
      SaveSettings(None, Some(value));
    }

    method ToggleSettings()
      modifies this`showSettings
      ensures showSettings == !old(showSettings)
    {
      showSettings := !showSettings;
    }

    /** `handleCopyContent`: with no article nothing happens; otherwise the
        text goes on the clipboard and an alert says so. */
    method HandleCopyContent(data: Option<Article>)
      modifies this`clipboard, this`alerts
      ensures data.None? ==> clipboard == old(clipboard) && alerts == old(alerts)
      ensures data.Some? ==> clipboard == Some(CopyText(data.value)) && alerts == old(alerts) + ["تم النسخ"]
    {
      if data.None? {
        return;
      }
      clipboard := Some(CopyText(data.value));
      alerts := alerts + ["تم النسخ"];
    }
  }

  /** Reopening the reader after a size change shows the same size: what
      the buttons store, loading reads back. */
  method ResizeThenReopen(r: ReaderScreen, larger: bool)
    modifies r
    requires r.fontSize.Px? && 14 <= r.fontSize.n <= 40
    ensures r.fontSize == (if larger then Larger(old(r.fontSize)) else Smaller(old(r.fontSize)))
  {
    ClampsSound(r.fontSize.n);
    var next := if larger then Larger(r.fontSize) else Smaller(r.fontSize);
    assert Truthy(next);
    if larger {
      r.IncreaseFont();
    } else {
      r.DecreaseFont();
    }
    assert r.fontSize == next;
    assert r.storage[SizeKey()] == IntToString(next.n);
    ParseIntRoundTrip(next.n);
    r.LoadSettings();
  }
}
