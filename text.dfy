/**
 * The string primitives of JavaScript and Python that the pipeline relies on:
 * whitespace classes, `trim`/`strip`, `toUpperCase`, `split` on one character,
 * `includes`, global removal of a literal pattern, `substring(0, n)`, `join`
 * and decimal rendering.  Strings are sequences of characters.
 */
module Text {

  /** JavaScript's `\s` class: the WhiteSpace and LineTerminator code points.
      `String.prototype.trim` removes exactly these. */
  predicate IsJsSpace(c: char)
  {
    c == '\t' || c == '\n' || c == '\U{000B}' || c == '\U{000C}' || c == '\r' || c == ' ' ||
    c == '\U{00A0}' || c == '\U{1680}' || ('\U{2000}' <= c <= '\U{200A}') ||
    c == '\U{2028}' || c == '\U{2029}' || c == '\U{202F}' || c == '\U{205F}' ||
    c == '\U{3000}' || c == '\U{FEFF}'
  }

  /** Python's `str.isspace` on one character: what `str.strip()` removes. */
  predicate IsPySpace(c: char)
  {
    c == '\t' || c == '\n' || c == '\U{000B}' || c == '\U{000C}' || c == '\r' ||
    ('\U{001C}' <= c <= '\U{001F}') || c == ' ' || c == '\U{0085}' || c == '\U{00A0}' ||
    c == '\U{1680}' || ('\U{2000}' <= c <= '\U{200A}') || c == '\U{2028}' ||
    c == '\U{2029}' || c == '\U{202F}' || c == '\U{205F}' || c == '\U{3000}'
  }

  predicate NoneSatisfy(s: string, p: char -> bool)
  {
    forall i :: 0 <= i < |s| ==> !p(s[i])
  }

  lemma NoneSatisfyTail(s: string, p: char -> bool)
    requires s != [] && NoneSatisfy(s, p)
    ensures NoneSatisfy(s[1..], p)
  {
    forall i | 0 <= i < |s[1..]|
      ensures !p(s[1..][i])
    {
      assert s[1..][i] == s[i + 1];
    }
  }

  /** `sub` occurs in `s` (JavaScript `includes`, Python `in`). */
  predicate IsInfix(sub: string, s: string)
  {
    exists i :: 0 <= i <= |s| - |sub| && InfixAt(sub, s, i)
  }

  predicate InfixAt(sub: string, s: string, i: int)
  {
    0 <= i <= |s| - |sub| && s[i..i + |sub|] == sub
  }

  predicate StartsWith(s: string, prefix: string)
  {
    |prefix| <= |s| && s[..|prefix|] == prefix
  }

  /** Drops the longest prefix made of characters satisfying `ws`. */
  function DropLeading(s: string, ws: char -> bool): (r: string)
    ensures |r| <= |s| && r == s[|s| - |r|..]
    ensures forall i :: 0 <= i < |s| - |r| ==> ws(s[i])
    ensures r == [] || !ws(r[0])
  {
    if s != [] && ws(s[0]) then DropLeading(s[1..], ws) else s
  }

  /** Drops the longest suffix made of characters satisfying `ws`. */
  function DropTrailing(s: string, ws: char -> bool): (r: string)
    ensures |r| <= |s| && r == s[..|r|]
    ensures forall i :: |r| <= i < |s| ==> ws(s[i])
    ensures r == [] || !ws(r[|r| - 1])
  {
    if s != [] && ws(s[|s| - 1]) then DropTrailing(s[..|s| - 1], ws) else s
  }

  function Strip(s: string, ws: char -> bool): string
  {
    DropTrailing(DropLeading(s, ws), ws)
  }

  /** JavaScript `String.prototype.trim`. */
  function JsTrim(s: string): string
  {
    Strip(s, IsJsSpace)
  }

  /** Python `str.strip()` with no argument. */
  function PyStrip(s: string): string
  {
    Strip(s, IsPySpace)
  }

  /** What `Strip` returns neither starts nor ends with a stripped character. */
  lemma StripEnds(s: string, ws: char -> bool)
    ensures var r := Strip(s, ws); r == [] || (!ws(r[0]) && !ws(r[|r| - 1]))
  {
    var l := DropLeading(s, ws);
    var r := DropTrailing(l, ws);
    if r != [] {
      assert r[0] == l[..|r|][0] == l[0];
    }
  }

  /** What `Strip` returns is its input from the end of the leading run on. */
  lemma StripSlice(s: string, ws: char -> bool)
    ensures var k := |s| - |DropLeading(s, ws)|; var r := Strip(s, ws);
      k + |r| <= |s| && r == s[k..k + |r|]
  {
    var l := DropLeading(s, ws);
    var r := DropTrailing(l, ws);
    var k := |s| - |l|;
    assert r == l[..|r|];
    assert l == s[k..];
    assert r == s[k..][..|r|];
    SliceOfSlice(s, k, |r|);
  }

  lemma SliceOfSlice(s: string, k: nat, n: nat)
    requires k + n <= |s|
    ensures s[k..][..n] == s[k..k + n]
  {
  }

  /** Only stripped characters follow what `Strip` returns. */
  lemma StripTail(s: string, ws: char -> bool)
    ensures var k := |s| - |DropLeading(s, ws)|; var r := Strip(s, ws);
      forall i :: k + |r| <= i < |s| ==> ws(s[i])
  {
    var l := DropLeading(s, ws);
    var r := DropTrailing(l, ws);
    var k := |s| - |l|;
    forall i | k + |r| <= i < |s|
      ensures ws(s[i])
    {
      assert s[i] == l[i - k];
    }
  }

  /** What `Strip` returns neither starts nor ends with a stripped character, and
      is the middle of its input: only stripped characters were cut off. */
  lemma StripSpec(s: string, ws: char -> bool) returns (k: nat)
    ensures var r := Strip(s, ws);
      (r == [] || (!ws(r[0]) && !ws(r[|r| - 1]))) &&
      k + |r| <= |s| && r == s[k..k + |r|] &&
      (forall i :: 0 <= i < k ==> ws(s[i])) &&
      (forall i :: k + |r| <= i < |s| ==> ws(s[i]))
  {
    StripEnds(s, ws);
    StripSlice(s, ws);
    StripTail(s, ws);
    k := |s| - |DropLeading(s, ws)|;
  }

  /** A string that neither starts nor ends with a stripped character is left alone. */
  lemma StripNoop(s: string, ws: char -> bool)
    requires s == [] || (!ws(s[0]) && !ws(s[|s| - 1]))
    ensures Strip(s, ws) == s
  {
  }

  /** Stripping a string that does not start or end with a stripped character,
      once some stripped characters are appended, gives the string back. */
  lemma StripTrailingAdded(s: string, tail: string, ws: char -> bool)
    requires s != [] && !ws(s[0]) && !ws(s[|s| - 1])
    requires forall i :: 0 <= i < |tail| ==> ws(tail[i])
    ensures Strip(s + tail, ws) == s
  {
    var t := s + tail;
    assert DropLeading(t, ws) == t;
    var r := DropTrailing(t, ws);
    assert r == t[..|r|];
    assert !(|r| > |s|);
    assert t[|s| - 1] == s[|s| - 1];
    assert !(|r| < |s|);
    assert r == s;
  }

  /** Upper case of one character as JavaScript's `toUpperCase` gives it, for the
      ASCII letters and for every other character whose upper case is pure ASCII
      (dotless i, long s, sharp s and the Latin ligatures); any other character
      is kept. */
  function UpperChar(c: char): (r: string)
    ensures |r| >= 1
  {
    if 'a' <= c <= 'z' then [(c as int - 32) as char]
    else if c == '\U{0131}' then "I"
    else if c == '\U{017F}' then "S"
    else if c == '\U{00DF}' then "SS"
    else if c == '\U{FB00}' then "FF"
    else if c == '\U{FB01}' then "FI"
    else if c == '\U{FB02}' then "FL"
    else if c == '\U{FB03}' then "FFI"
    else if c == '\U{FB04}' then "FFL"
    else if c == '\U{FB05}' || c == '\U{FB06}' then "ST"
    else [c]
  }

  /** JavaScript `String.prototype.toUpperCase`, character by character. */
  function Upper(s: string): string
  {
    if s == [] then [] else UpperChar(s[0]) + Upper(s[1..])
  }

  /** Every character is in the ASCII range. */
  predicate IsAscii(s: string)
  {
    forall i :: 0 <= i < |s| ==> s[i] < '\U{0080}'
  }

  predicate IsUpperAscii(s: string)
  {
    forall i :: 0 <= i < |s| ==> !('a' <= s[i] <= 'z')
  }

  lemma {:induction false} UpperAppend(a: string, b: string)
    ensures Upper(a + b) == Upper(a) + Upper(b)
  {
    if a != [] {
      assert (a + b)[1..] == a[1..] + b;
      UpperAppend(a[1..], b);
      calc {
        Upper(a + b);
        UpperChar(a[0]) + Upper(a[1..] + b);
        UpperChar(a[0]) + (Upper(a[1..]) + Upper(b));
        (UpperChar(a[0]) + Upper(a[1..])) + Upper(b);
      }
    } else {
      assert a + b == b;
    }
  }

  lemma {:induction false} UpperFixesUpperAscii(s: string)
    requires IsUpperAscii(s) && IsAscii(s)
    ensures Upper(s) == s
  {
    if s != [] {
      UpperFixesUpperAscii(s[1..]);
    }
  }

  lemma UpperCharStable(c: char)
    ensures Upper(UpperChar(c)) == UpperChar(c)
  {
    var u := UpperChar(c);
    if u == [c] {
      assert Upper(u) == UpperChar(c) + Upper([]);
    } else {
      UpperFixesUpperAscii(u);
    }
  }

  /** No lower-case ASCII letter survives upper-casing. */
  lemma {:induction false} UpperHasNoLower(s: string)
    ensures IsUpperAscii(Upper(s))
  {
    if s != [] {
      UpperHasNoLower(s[1..]);
      assert IsUpperAscii(UpperChar(s[0]));
    }
  }

  /** Upper-casing twice is upper-casing once: every character `UpperChar`
      produces is one that it keeps. */
  lemma {:induction false} UpperIdempotent(s: string)
    ensures Upper(Upper(s)) == Upper(s)
  {
    if s != [] {
      var u := UpperChar(s[0]);
      UpperCharStable(s[0]);
      UpperAppend(u, Upper(s[1..]));
      UpperIdempotent(s[1..]);
    }
  }

  /** JavaScript `s.split(sep)` with a one-character string separator. */
  function SplitOn(s: string, sep: char): (r: seq<string>)
    ensures |r| >= 1
    ensures forall i :: 0 <= i < |r| ==> sep !in r[i]
  {
    if s == [] then [""]
    else
      var rest := SplitOn(s[1..], sep);
      if s[0] == sep then [""] + rest else [[s[0]] + rest[0]] + rest[1..]
  }

  /** JavaScript `parts.join(sep)` (and Python `sep.join(parts)`). */
  function Join(parts: seq<string>, sep: string): string
  {
    if parts == [] then ""
    else if |parts| == 1 then parts[0]
    else parts[0] + sep + Join(parts[1..], sep)
  }

  /** A join ends with the last part's last character and starts with the first
      part's first character. */
  lemma {:induction false} JoinEdges(parts: seq<string>, sep: string)
    requires parts != [] && parts[|parts| - 1] != []
    ensures var j := Join(parts, sep);
      j != [] && j[|j| - 1] == parts[|parts| - 1][|parts[|parts| - 1]| - 1] &&
      (parts[0] != [] ==> j[0] == parts[0][0])
  {
    if |parts| > 1 {
      JoinEdges(parts[1..], sep);
    }
  }

  /** Splitting and joining back with the same separator gives the input again. */
  lemma {:induction false} JoinSplitOn(s: string, sep: char)
    ensures Join(SplitOn(s, sep), [sep]) == s
  {
    if s != [] {
      var rest := SplitOn(s[1..], sep);
      JoinSplitOn(s[1..], sep);
      if s[0] == sep {
        assert s == [sep] + s[1..];
      } else {
        if |rest| == 1 {
          assert s == [s[0]] + rest[0];
        } else {
          assert rest == [rest[0]] + rest[1..];
          assert Join(rest, [sep]) == rest[0] + [sep] + Join(rest[1..], [sep]);
          assert s == [s[0]] + rest[0] + [sep] + Join(rest[1..], [sep]);
        }
      }
    }
  }

  /** A text without the separator splits into itself alone. */
  lemma {:induction false} SplitOnSepFree(s: string, sep: char)
    requires sep !in s
    ensures SplitOn(s, sep) == [s]
  {
    if s != [] {
      SplitOnSepFree(s[1..], sep);
      assert [s[0]] + s[1..] == s;
    }
  }

  /** A separator-free word followed by the separator becomes a part of its own. */
  lemma {:induction false} SplitOnPart(w: string, sep: char, rest: string)
    requires sep !in w
    ensures SplitOn(w + [sep] + rest, sep) == [w] + SplitOn(rest, sep)
  {
    if w != [] {
      assert (w + [sep] + rest)[1..] == w[1..] + [sep] + rest;
      SplitOnPart(w[1..], sep, rest);
      assert [w[0]] + w[1..] == w;
    } else {
      assert w + [sep] + rest == [sep] + rest;
      assert ([sep] + rest)[1..] == rest;
    }
  }

  /** Joining separator-free parts and splitting the result gives the parts back. */
  lemma {:induction false} SplitOnJoin(parts: seq<string>, sep: char)
    requires |parts| >= 1
    requires forall k :: 0 <= k < |parts| ==> sep !in parts[k]
    ensures SplitOn(Join(parts, [sep]), sep) == parts
  {
    if |parts| == 1 {
      SplitOnSepFree(parts[0], sep);
    } else {
      SplitOnJoin(parts[1..], sep);
      SplitOnPart(parts[0], sep, Join(parts[1..], [sep]));
      assert parts == [parts[0]] + parts[1..];
    }
  }

  /** JavaScript `xs.indexOf(x)`: the first position of `x`, or -1. */
  function IndexOf(xs: seq<string>, x: string): (r: int)
    ensures -1 <= r < |xs|
    ensures r == -1 <==> x !in xs
    ensures r >= 0 ==> xs[r] == x && forall j :: 0 <= j < r ==> xs[j] != x
  {
    if xs == [] then -1
    else if xs[0] == x then 0
    else var k := IndexOf(xs[1..], x); if k == -1 then -1 else k + 1
  }

  /** The longest prefix of `s` without `stop` (what the regex class `[^;]+` takes). */
  function TakeUntil(s: string, stop: char): (r: string)
    ensures StartsWith(s, r)
    ensures stop !in r
    ensures |r| == |s| || s[|r|] == stop
  {
    if s == [] || s[0] == stop then [] else [s[0]] + TakeUntil(s[1..], stop)
  }

  /** `s.replace(/pat/g, '')` for a pattern without regex metacharacters:
      occurrences are removed left to right without overlap. */
  function RemoveAll(s: string, pat: string): string
    requires pat != []
    decreases |s|
  {
    if |s| < |pat| then s
    else if s[..|pat|] == pat then RemoveAll(s[|pat|..], pat)
    else [s[0]] + RemoveAll(s[1..], pat)
  }

  /** Removing a pattern that does not occur leaves the text unchanged. */
  lemma {:induction false} RemoveAbsent(s: string, pat: string)
    requires pat != [] && !IsInfix(pat, s)
    ensures RemoveAll(s, pat) == s
    decreases |s|
  {
    if |s| >= |pat| {
      assert !InfixAt(pat, s, 0);
      assert !IsInfix(pat, s[1..]) by {
        forall i | 0 <= i <= |s| - 1 - |pat|
          ensures !InfixAt(pat, s[1..], i)
        {
          assert !InfixAt(pat, s, i + 1);
          assert s[1..][i..i + |pat|] == s[i + 1..i + 1 + |pat|];
        }
      }
      RemoveAbsent(s[1..], pat);
      assert [s[0]] + s[1..] == s;
    }
  }

  /** A text in which `pat` does not occur holds no longer pattern that starts with `pat`. */
  lemma AbsentExtension(s: string, pat: string, more: string)
    requires !IsInfix(pat, s)
    ensures !IsInfix(pat + more, s)
  {
    forall i | 0 <= i <= |s| - |pat + more|
      ensures !InfixAt(pat + more, s, i)
    {
      assert !InfixAt(pat, s, i);
      assert s[i..i + |pat + more|][..|pat|] == s[i..i + |pat|];
      assert (pat + more)[..|pat|] == pat;
    }
  }

  /** `n` copies of `c` start at position `i` of `s`. */
  predicate CharRunAt(s: string, i: nat, c: char, n: nat)
  {
    i + n <= |s| && forall j :: i <= j < i + n ==> s[j] == c
  }

  /** A run of `n` copies of `c`. */
  function Run(c: char, n: nat): (r: string)
    ensures |r| == n && forall j :: 0 <= j < n ==> r[j] == c
  {
    seq(n, _ => c)
  }

  /** After a removal that does not begin at the front, a run of `c` at the
      front of the result was already at the front of the input. */
  lemma {:induction false} RemoveRunHead(s: string, c: char, n: nat, m: nat)
    requires n >= 1 && !CharRunAt(s, 0, c, n)
    requires CharRunAt(RemoveAll(s, Run(c, n)), 0, c, m)
    ensures CharRunAt(s, 0, c, m)
    decreases |s|
  {
    var pat := Run(c, n);
    if |s| >= n && m > 0 {
      var t := RemoveAll(s[1..], pat);
      assert RemoveAll(s, pat) == [s[0]] + t;
      assert s[0] == ([s[0]] + t)[0] == c;
      assert !CharRunAt(s[1..], 0, c, n);
      assert CharRunAt(t, 0, c, m - 1) by {
        assert forall j :: 0 <= j < m - 1 ==> t[j] == ([s[0]] + t)[j + 1];
      }
      RemoveRunHead(s[1..], c, n, m - 1);
      assert forall j :: 1 <= j < m ==> s[j] == s[1..][j - 1];
    }
  }

  /** Removing every run of `n` copies of `c`, left to right, leaves no such run:
      the pieces left between two removed runs never join into a new one. */
  lemma {:induction false} RemoveRunLeavesNone(s: string, c: char, n: nat)
    requires n >= 1
    ensures forall i: nat :: !CharRunAt(RemoveAll(s, Run(c, n)), i, c, n)
    decreases |s|
  {
    var pat := Run(c, n);
    var r := RemoveAll(s, pat);
    if |s| >= n {
      if s[..n] == pat {
        RemoveRunLeavesNone(s[n..], c, n);
      } else {
        var t := RemoveAll(s[1..], pat);
        assert r == [s[0]] + t;
        RemoveRunLeavesNone(s[1..], c, n);
        forall i: nat | CharRunAt(r, i, c, n)
          ensures false
        {
          if i == 0 {
            assert s[..n] != pat;
            assert s[0] == r[0];
            assert !CharRunAt(s[1..], 0, c, n);
            assert CharRunAt(t, 0, c, n - 1) by {
              assert forall j :: 0 <= j < n - 1 ==> t[j] == r[j + 1];
            }
            RemoveRunHead(s[1..], c, n, n - 1);
          } else {
            assert |r| == |t| + 1;
            assert forall j :: i - 1 <= j < i - 1 + n ==> t[j] == r[j + 1];
            assert CharRunAt(t, i - 1, c, n);
          }
        }
      }
    }
  }

  /** A slice of a string without a run of `n` copies of `c` has none either. */
  lemma NoRunInSlice(s: string, k: nat, m: nat, c: char, n: nat)
    requires k + m <= |s|
    requires forall i: nat :: !CharRunAt(s, i, c, n)
    ensures !IsInfix(Run(c, n), s[k..k + m])
  {
    var t := s[k..k + m];
    forall i | 0 <= i <= |t| - n
      ensures !InfixAt(Run(c, n), t, i)
    {
      assert !CharRunAt(s, k + i, c, n);
      var j :| k + i <= j < k + i + n && s[j] != c;
      var w := t[i..i + n];
      assert w[j - k - i] == s[j] != Run(c, n)[j - k - i];
    }
  }

  /** JavaScript `s.substring(0, n)` for `n >= 0`. */
  function Prefix(s: string, n: nat): (r: string)
    ensures |r| == if n < |s| then n else |s|
    ensures StartsWith(s, r)
  {
    if n < |s| then s[..n] else s
  }

  /** Decimal rendering of a natural number (JavaScript `n.toString()`). */
  function Decimal(n: nat): (r: string)
    ensures |r| >= 1
    ensures forall i :: 0 <= i < |r| ==> '0' <= r[i] <= '9'
    decreases n
  {
    if n < 10 then [('0' as int + n) as char]
    else Decimal(n / 10) + [('0' as int + n % 10) as char]
  }

  /** The number a string of decimal digits denotes. */
  function DigitsValue(s: string): nat
    requires forall i :: 0 <= i < |s| ==> '0' <= s[i] <= '9'
  {
    if s == [] then 0 else DigitsValue(s[..|s| - 1]) * 10 + (s[|s| - 1] as int - '0' as int)
  }

  lemma {:induction false} DecimalValue(n: nat)
    ensures DigitsValue(Decimal(n)) == n
  {
    if n >= 10 {
      var r := Decimal(n);
      assert r[..|r| - 1] == Decimal(n / 10);
      DecimalValue(n / 10);
    }
  }

  lemma {:induction false} DecimalLength(n: nat)
    ensures n < 10 ==> |Decimal(n)| == 1
    ensures 10 <= n < 100 ==> |Decimal(n)| == 2
    ensures 100 <= n < 1000 ==> |Decimal(n)| == 3
  {
    if n >= 10 {
      DecimalLength(n / 10);
    }
  }

  /** JavaScript `s.padStart(width, fill)`. */
  function PadStart(s: string, width: nat, fill: char): (r: string)
    ensures |r| == if |s| < width then width else |s|
    decreases width - |s|
  {
    if |s| < width then PadStart([fill] + s, width, fill) else s
  }

  /** Leading zeros do not change the value of a digit string. */
  lemma {:induction false} LeadingZeroValue(s: string)
    requires forall i :: 0 <= i < |s| ==> '0' <= s[i] <= '9'
    ensures DigitsValue(['0'] + s) == DigitsValue(s)
  {
    if s != [] {
      var t := ['0'] + s;
      assert t[..|t| - 1] == ['0'] + s[..|s| - 1];
      LeadingZeroValue(s[..|s| - 1]);
    }
  }

  /** Zero-padding a digit string keeps it a digit string with the same value. */
  lemma {:induction false} PadStartZeros(s: string, width: nat)
    requires forall i :: 0 <= i < |s| ==> '0' <= s[i] <= '9'
    ensures var r := PadStart(s, width, '0');
      (forall i :: 0 <= i < |r| ==> '0' <= r[i] <= '9') && DigitsValue(r) == DigitsValue(s)
    decreases width - |s|
  {
    if |s| < width {
      LeadingZeroValue(s);
      PadStartZeros(['0'] + s, width);
    }
  }

  /** A string occurs in any string that ends with it, and an occurrence
      survives appending more text. */
  lemma InfixGrows()
    ensures forall p: string, x: string {:trigger p + x} :: IsInfix(x, p + x)
    ensures forall x: string, s: string, t: string {:trigger IsInfix(x, s + t)} ::
      IsInfix(x, s) ==> IsInfix(x, s + t)
  {
    forall p: string, x: string
      ensures IsInfix(x, p + x)
    {
      assert InfixAt(x, p + x, |p|);
    }
    forall x: string, s: string, t: string | IsInfix(x, s)
      ensures IsInfix(x, s + t)
    {
      var i :| 0 <= i <= |s| - |x| && InfixAt(x, s, i);
      assert (s + t)[i..i + |x|] == s[i..i + |x|];
      assert InfixAt(x, s + t, i);
    }
  }

  /** Each of the four values filled into a template that starts with the first
      of them occurs in the result. */
  lemma TemplateMentions(x1: string, s1: string, x2: string, s2: string, x3: string, s3: string,
                         x4: string, s4: string)
    ensures var r := x1 + s1 + x2 + s2 + x3 + s3 + x4 + s4;
      IsInfix(x1, r) && IsInfix(x2, r) && IsInfix(x3, r) && IsInfix(x4, r)
  {
    InfixGrows();
    assert x1 == [] + x1;
  }

  /** Each of the four values filled into a template with leading text occurs in
      the result. */
  lemma LedTemplateMentions(s0: string, x1: string, s1: string, x2: string, s2: string, x3: string,
                            s3: string, x4: string, s4: string)
    ensures var r := s0 + x1 + s1 + x2 + s2 + x3 + s3 + x4 + s4;
      IsInfix(x1, r) && IsInfix(x2, r) && IsInfix(x3, r) && IsInfix(x4, r)
  {
    InfixGrows();
  }

}
