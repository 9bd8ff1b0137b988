/** String helpers the browser's JavaScript takes from the language runtime:
    `includes`, `startsWith`, `toLowerCase`, `split`, `join`, `trim` and
    decimal rendering of numbers. Strings are sequences of characters. */
module Text {

  /** `s.startsWith(p)` */
  predicate IsPrefix(p: string, s: string) {
    |p| <= |s| && s[..|p|] == p
  }

  /** `s.includes(sub)`: some position of `s` starts a copy of `sub`. */
  predicate Contains(s: string, sub: string)
    decreases |s|
  {
    IsPrefix(sub, s) || (|s| > 0 && Contains(s[1..], sub))
  }

  /** The position-based reading of `Contains`, used to state results. */
  ghost predicate OccursAt(s: string, sub: string, i: int) {
    0 <= i && i + |sub| <= |s| && s[i..i + |sub|] == sub
  }

  lemma {:induction false} ContainsIffOccurs(s: string, sub: string)
    ensures Contains(s, sub) <==> exists i :: OccursAt(s, sub, i)
    decreases |s|
  {
    if Contains(s, sub) {
      if IsPrefix(sub, s) {
        assert OccursAt(s, sub, 0);
      } else {
        ContainsIffOccurs(s[1..], sub);
        var i :| OccursAt(s[1..], sub, i);
        assert s[1..][i..i + |sub|] == s[i + 1..i + 1 + |sub|];
        assert OccursAt(s, sub, i + 1);
      }
    } else {
      forall i | OccursAt(s, sub, i) ensures false {
        if i != 0 {
          assert s[1..][i - 1..i - 1 + |sub|] == s[i..i + |sub|];
          assert OccursAt(s[1..], sub, i - 1);
          ContainsIffOccurs(s[1..], sub);
        }
      }
    }
  }

  /** A copy of `sub` at position `i` makes `s` contain `sub`. */
  lemma ContainsAt(s: string, sub: string, i: int)
    requires OccursAt(s, sub, i)
    ensures Contains(s, sub)
  {
    ContainsIffOccurs(s, sub);
  }

  /** Containment survives adding text on either side. */
  lemma {:induction false} ContainsInConcat(a: string, b: string, c: string, sub: string)
    requires Contains(b, sub)
    ensures Contains(a + b + c, sub)
  {
    ContainsIffOccurs(b, sub);
    var i :| OccursAt(b, sub, i);
    assert (a + b + c)[|a| + i..|a| + i + |sub|] == b[i..i + |sub|];
    ContainsAt(a + b + c, sub, |a| + i);
  }

  /** A string includes only what fits in it. */
  lemma ContainsLength(s: string, sub: string)
    requires |s| < |sub|
    ensures !Contains(s, sub)
  {
    ContainsIffOccurs(s, sub);
  }

  /** A string that includes `a + b` includes `b`. */
  lemma ContainsSuffix(s: string, a: string, b: string)
    requires Contains(s, a + b)
    ensures Contains(s, b)
  {
    ContainsIffOccurs(s, a + b);
    var i :| OccursAt(s, a + b, i);
    assert s[i + |a|..i + |a| + |b|] == (a + b)[|a|..];
    ContainsAt(s, b, i + |a|);
  }

  /** Every string includes the empty string. */
  lemma ContainsEmpty(s: string)
    ensures Contains(s, "")
  {
  }

  predicate ContainsAny(s: string, words: seq<string>) {
    exists w :: w in words && Contains(s, w)
  }

  /** `toLowerCase` restricted to ASCII letters. */
  function LowerChar(c: char): char {
    if 'A' <= c <= 'Z' then (c as int + 32) as char else c
  }

  function Lower(s: string): (r: string)
    ensures |r| == |s|
    ensures forall i :: 0 <= i < |s| ==> r[i] == LowerChar(s[i])
  {
    seq(|s|, i requires 0 <= i < |s| => LowerChar(s[i]))
  }

  lemma LowerIdempotent(s: string)
    ensures Lower(Lower(s)) == Lower(s)
  {
  }

  /** Text without capital letters is its own lowercase. */
  lemma LowerNoCapitals(s: string)
    requires forall i :: 0 <= i < |s| ==> !('A' <= s[i] <= 'Z')
    ensures Lower(s) == s
  {
  }

  lemma LowerConcat(a: string, b: string)
    ensures Lower(a + b) == Lower(a) + Lower(b)
  {
  }

  /** `parts.join(sep)` */
  function Join(parts: seq<string>, sep: string): string
    decreases |parts|
  {
    if |parts| == 0 then ""
    else if |parts| == 1 then parts[0]
    else parts[0] + sep + Join(parts[1..], sep)
  }

  /** Every part is a substring of the joined text. */
  lemma {:induction false} JoinContainsPart(parts: seq<string>, sep: string, k: int)
    requires 0 <= k < |parts|
    ensures Contains(Join(parts, sep), parts[k])
    decreases |parts|
  {
    if |parts| == 1 {
      ContainsInConcat("", parts[0], "", parts[0]);
      assert "" + parts[0] + "" == parts[0];
    } else if k == 0 {
      ContainsInConcat("", parts[0], sep + Join(parts[1..], sep), parts[0]);
      assert "" + parts[0] + (sep + Join(parts[1..], sep)) == Join(parts, sep);
    } else {
      JoinContainsPart(parts[1..], sep, k - 1);
      ContainsInConcat(parts[0] + sep, Join(parts[1..], sep), "", parts[k]);
      assert parts[0] + sep + Join(parts[1..], sep) + "" == Join(parts, sep);
    }
  }

  lemma {:induction false} JoinAppend(parts: seq<string>, sep: string, x: string)
    requires |parts| > 0
    ensures Join(parts + [x], sep) == Join(parts, sep) + sep + x
    decreases |parts|
  {
    if |parts| == 1 {
      assert (parts + [x])[1..] == [x];
    } else {
      assert (parts + [x])[1..] == parts[1..] + [x];
      JoinAppend(parts[1..], sep, x);
    }
  }

  /** `s.split(sep)` for a one-character separator: never empty; one piece
      more than there are separators. */
  function Split(s: string, sep: char): (r: seq<string>)
    ensures |r| >= 1
    decreases |s|
  {
    if |s| == 0 then [""]
    else if s[0] == sep then [""] + Split(s[1..], sep)
    else
      var rest := Split(s[1..], sep);
      [[s[0]] + rest[0]] + rest[1..]
  }

  /** No piece of a split contains the separator. */
  lemma {:induction false} SplitPiecesFree(s: string, sep: char)
    ensures forall k :: 0 <= k < |Split(s, sep)| ==> sep !in Split(s, sep)[k]
    decreases |s|
  {
    if |s| > 0 {
      SplitPiecesFree(s[1..], sep);
    }
  }

  /** Joining the pieces of a split with the separator gives the text back. */
  lemma {:induction false} JoinSplit(s: string, sep: char)
    ensures Join(Split(s, sep), [sep]) == s
    decreases |s|
  {
    if |s| > 0 {
      JoinSplit(s[1..], sep);
      var rest := Split(s[1..], sep);
      if s[0] == sep {
        assert ([""] + rest)[1..] == rest;
      } else {
        if |rest| == 1 {
        } else {
          assert ([[s[0]] + rest[0]] + rest[1..])[1..] == rest[1..];
          assert Join(rest, [sep]) == rest[0] + [sep] + Join(rest[1..], [sep]);
        }
      }
    }
  }

  /** Splitting a join recovers the parts when no part holds the separator. */
  lemma {:induction false} SplitJoin(parts: seq<string>, sep: char)
    requires |parts| >= 1
    requires forall k :: 0 <= k < |parts| ==> sep !in parts[k]
    ensures Split(Join(parts, [sep]), sep) == parts
    decreases |parts|, |parts[0]|
  {
    if |parts[0]| == 0 {
      if |parts| == 1 {
      } else {
        assert Join(parts, [sep]) == [sep] + Join(parts[1..], [sep]);
        SplitJoin(parts[1..], sep);
        assert ([sep] + Join(parts[1..], [sep]))[1..] == Join(parts[1..], [sep]);
        assert [parts[0]] + parts[1..] == parts;
      }
    } else {
      var p := parts[0];
      var shorter := [p[1..]] + parts[1..];
      assert shorter[1..] == parts[1..];
      assert forall k :: 0 <= k < |shorter| ==> sep !in shorter[k] by {
        forall k | 0 <= k < |shorter| ensures sep !in shorter[k] {
          if k == 0 {
            assert forall c :: c in p[1..] ==> c in p;
          }
        }
      }
      SplitJoin(shorter, sep);
      var j := Join(parts, [sep]);
      assert j == [p[0]] + Join(shorter, [sep]) by {
        if |parts| == 1 {
        } else {
          assert j == p + [sep] + Join(parts[1..], [sep]);
          assert Join(shorter, [sep]) == p[1..] + [sep] + Join(parts[1..], [sep]);
          assert p == [p[0]] + p[1..];
        }
      }
      assert j[0] == p[0] && j[0] != sep;
      assert j[1..] == Join(shorter, [sep]);
      assert [p[0]] + p[1..] == p;
      assert [[p[0]] + shorter[0]] + shorter[1..] == parts;
    }
  }

  /** `Split(a + [sep] + b)` begins with `a` when `a` has no separator. */
  lemma {:induction false} SplitAtFirst(a: string, sep: char, b: string)
    requires sep !in a
    ensures Split(a + [sep] + b, sep) == [a] + Split(b, sep)
    decreases |a|
  {
    if |a| == 0 {
      assert a + [sep] + b == [sep] + b;
      assert ([sep] + b)[1..] == b;
    } else {
      SplitAtFirst(a[1..], sep, b);
      assert (a + [sep] + b)[1..] == a[1..] + [sep] + b;
      assert [a[0]] + a[1..] == a;
    }
  }

  /** A text without the separator splits into itself. */
  lemma SplitWhole(v: string, sep: char)
    requires sep !in v
    ensures Split(v, sep) == [v]
  {
    SplitJoin([v], sep);
  }

  /** Splitting a text that contains the separator ends with the text after
      its last separator. */
  lemma {:induction false} SplitLast(a: string, sep: char, b: string)
    requires sep !in b
    ensures var r := Split(a + [sep] + b, sep); |r| >= 2 && r[|r| - 1] == b
    decreases |a|
  {
    if |a| == 0 {
      assert a + [sep] + b == [sep] + b;
      assert ([sep] + b)[1..] == b;
      SplitWhole(b, sep);
    } else {
      SplitLast(a[1..], sep, b);
      assert (a + [sep] + b)[1..] == a[1..] + [sep] + b;
    }
  }

  /** The text before the first `sep`, `s.split(sep)[0]`. */
  function BeforeFirst(s: string, sep: char): (r: string)
    ensures IsPrefix(r, s) && sep !in r
    ensures |r| < |s| ==> s[|r|] == sep
    decreases |s|
  {
    if |s| == 0 || s[0] == sep then "" else [s[0]] + BeforeFirst(s[1..], sep)
  }

  /** The text before the first `sep` of `a + [sep] + b` is `a` when `a` has none. */
  lemma {:induction false} BeforeFirstConcat(a: string, sep: char, b: string)
    requires sep !in a
    ensures BeforeFirst(a + [sep] + b, sep) == a
    decreases |a|
  {
    if |a| > 0 {
      assert (a + [sep] + b)[1..] == a[1..] + [sep] + b;
      BeforeFirstConcat(a[1..], sep, b);
    }
  }

  lemma {:induction false} SplitHeadIsBeforeFirst(s: string, sep: char)
    ensures Split(s, sep)[0] == BeforeFirst(s, sep)
    decreases |s|
  {
    if |s| > 0 && s[0] != sep {
      SplitHeadIsBeforeFirst(s[1..], sep);
    }
  }

  /** The characters that JavaScript's `\s` and `trim` treat as white space. */
  predicate IsSpace(c: char) {
    if c <= ' ' then c == ' ' || ('\t' <= c <= '\r')
    else '\U{A0}' <= c && (c == '\U{A0}' || c == '\U{1680}' || ('\U{2000}' <= c <= '\U{200A}')
                            || c == '\U{2028}' || c == '\U{2029}' || c == '\U{202F}' || c == '\U{205F}'
                            || c == '\U{3000}' || c == '\U{FEFF}')
  }

  function TrimStart(s: string): (r: string)
    ensures |r| <= |s| && r == s[|s| - |r|..]
    ensures |r| > 0 ==> !IsSpace(r[0])
    decreases |s|
  {
    if |s| > 0 && IsSpace(s[0]) then TrimStart(s[1..]) else s
  }

  function TrimEnd(s: string): (r: string)
    ensures IsPrefix(r, s)
    ensures |r| > 0 ==> !IsSpace(r[|r| - 1])
    decreases |s|
  {
    if |s| > 0 && IsSpace(s[|s| - 1]) then TrimEnd(s[..|s| - 1]) else s
  }

  /** `s.trim()` */
  function Trim(s: string): string {
    TrimEnd(TrimStart(s))
  }

  /** A trimmed text that is not empty starts and ends with no white space. */
  lemma TrimEdges(s: string)
    ensures var t := Trim(s); |t| > 0 ==> !IsSpace(t[0]) && !IsSpace(t[|t| - 1])
  {
    var a := TrimStart(s);
    var t := TrimEnd(a);
    if |t| > 0 {
      assert t[0] == a[0];
    }
  }

  /** The trimmed text is one contiguous piece of the text. */
  lemma TrimSlice(s: string)
    ensures var k := |s| - |TrimStart(s)|; k + |Trim(s)| <= |s| && Trim(s) == s[k..k + |Trim(s)|]
  {
    var a := TrimStart(s);
    var t := TrimEnd(a);
    assert Trim(s) == t;
    PrefixOfSuffix(s, |s| - |a|, a, t);
  }

  lemma PrefixOfSuffix(s: string, k: int, a: string, t: string)
    requires 0 <= k <= |s| && a == s[k..] && IsPrefix(t, a)
    ensures k + |t| <= |s| && t == s[k..k + |t|]
  {
  }

  /** `s.endsWith(suffix)` */
  predicate EndsWith(s: string, suffix: string) {
    |suffix| <= |s| && s[|s| - |suffix|..] == suffix
  }

  /** Decimal rendering of a natural number, as `String(n)` gives it. */
  function NatToString(n: nat): (r: string)
    ensures |r| >= 1
    ensures forall i :: 0 <= i < |r| ==> '0' <= r[i] <= '9'
  {
    if n < 10 then [Digit(n)] else NatToString(n / 10) + [Digit(n % 10)]
  }

  function Digit(d: nat): (c: char)
    requires d < 10
    ensures '0' <= c <= '9'
  {
    (48 + d) as char
  }

  /** The first `n` characters, `s.substring(0, n)`. */
  function Truncate(s: string, n: nat): (r: string)
    ensures |r| <= n && IsPrefix(r, s)
    ensures |s| <= n ==> r == s
  {
    if |s| <= n then s else s[..n]
  }
}
