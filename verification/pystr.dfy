/**
 * The few Python `str` primitives the shell core relies on, written out
 * once so that every module states the same semantics: `str.isspace`,
 * `strip`, `split(sep)`, `sep.join`, `rfind`, `startswith`/`endswith`,
 * substring search, ASCII case mapping and the `int()`/`hex()`/`str()`
 * conversions of integers.
 */
module PyStr {
  import opened Wrappers

  /** Python's `str.isspace()` for a single character. */
  predicate IsSpace(c: char) {
    c == ' ' || ('\t' <= c <= '\r') || ('\U{1C}' <= c <= '\U{1F}')
    || c == '\U{85}' || c == '\U{A0}' || c == '\U{1680}'
    || ('\U{2000}' <= c <= '\U{200A}') || c == '\U{2028}' || c == '\U{2029}'
    || c == '\U{202F}' || c == '\U{205F}' || c == '\U{3000}'
  }

  /** `str.lstrip()` */
  function LStrip(s: string): (r: string)
    ensures |r| <= |s| && r == s[|s| - |r|..]
    ensures r == [] || !IsSpace(r[0])
    ensures forall k :: 0 <= k < |s| - |r| ==> IsSpace(s[k])
  {
    if s != [] && IsSpace(s[0]) then
      var t := LStrip(s[1..]);
      assert s[1..][|s| - 1 - |t|..] == s[|s| - |t|..];
      t
    else s
  }

  /** `str.rstrip()` */
  function RStrip(s: string): (r: string)
    ensures |r| <= |s| && r == s[..|r|]
    ensures r == [] || !IsSpace(r[|r| - 1])
    ensures forall k :: |r| <= k < |s| ==> IsSpace(s[k])
  {
    if s != [] && IsSpace(s[|s| - 1]) then RStrip(s[..|s| - 1]) else s
  }

  /** `str.strip()` */
  function Strip(s: string): (r: string)
    ensures r == [] || (!IsSpace(r[0]) && !IsSpace(r[|r| - 1]))
    ensures |r| <= |s|
  {
    RStrip(LStrip(s))
  }

  /** A text without surrounding white space is its own `strip()`. */
  lemma StripTrimmed(s: string)
    requires s != [] && !IsSpace(s[0]) && !IsSpace(s[|s| - 1])
    ensures Strip(s) == s
  {
    assert LStrip(s) == s;
  }

  /** A text with a character other than white space does not strip to nothing. */
  lemma StripNotEmpty(s: string, k: nat)
    requires k < |s| && !IsSpace(s[k])
    ensures Strip(s) != ""
  {
    var t := LStrip(s);
    assert t != [];
    assert t[k - (|s| - |t|)] == s[k];
  }

  /** `p in s` for strings: `p` occurs in `s` as a contiguous substring. */
  predicate ContainsSub(s: string, p: string) {
    p <= s || (s != [] && ContainsSub(s[1..], p))
  }

  /** `s.endswith(p)` */
  predicate EndsWith(s: string, p: string) {
    |p| <= |s| && s[|s| - |p|..] == p
  }

  /** `s.rfind(c)` for a one-character needle: the last index of `c`, or -1. */
  function RFind(s: string, c: char): (r: int)
    ensures -1 <= r < |s|
    ensures r >= 0 ==> s[r] == c
    ensures forall k :: r < k < |s| ==> s[k] != c
  {
    if s == [] then -1
    else if s[|s| - 1] == c then |s| - 1
    else RFind(s[..|s| - 1], c)
  }

  /** `s.split(c)` for a one-character separator (never empty). */
  function Split(s: string, c: char): (r: seq<string>)
    ensures |r| >= 1
    ensures forall k :: 0 <= k < |r| ==> c !in r[k]
  {
    if s == [] then [""]
    else if s[0] == c then [""] + Split(s[1..], c)
    else
      var t := Split(s[1..], c);
      [[s[0]] + t[0]] + t[1..]
  }

  /** A character absent from the split string is absent from every part. */
  lemma {:induction false} SplitAbsent(s: string, c: char, x: char)
    requires x !in s
    ensures forall k :: 0 <= k < |Split(s, c)| ==> x !in Split(s, c)[k]
  {
    if s != [] {
      assert x !in s[1..] by {
        assert forall y :: y in s[1..] ==> y in s;
      }
      SplitAbsent(s[1..], c, x);
      var t := Split(s[1..], c);
      var r := Split(s, c);
      assert forall k :: 0 <= k < |t| ==> x !in t[k];
      assert s[0] in s;
      if s[0] == c {
        assert r == [""] + t;
        assert forall k :: 1 <= k < |r| ==> r[k] == t[k - 1];
      } else {
        assert r == [[s[0]] + t[0]] + t[1..];
        assert x != s[0];
        assert x !in t[0];
        assert x !in [s[0]] + t[0];
        assert forall k :: 1 <= k < |r| ==> r[k] == t[k];
      }
    }
  }

  /** `c.join(parts)` for a one-character separator. */
  function Join(parts: seq<string>, c: char): string {
    if |parts| == 0 then ""
    else if |parts| == 1 then parts[0]
    else parts[0] + [c] + Join(parts[1..], c)
  }

  /** `sep.join(parts)` for a separator of any length. */
  function JoinStr(parts: seq<string>, sep: string): string {
    if |parts| == 0 then ""
    else if |parts| == 1 then parts[0]
    else parts[0] + sep + JoinStr(parts[1..], sep)
  }

  /** Joining one more part appends the separator and that part. */
  lemma {:induction false} JoinStrSnoc(parts: seq<string>, p: string, sep: string)
    requires parts != []
    ensures JoinStr(parts + [p], sep) == JoinStr(parts, sep) + sep + p
    decreases |parts|
  {
    var q := parts + [p];
    if |parts| == 1 {
      assert q[1..] == [p];
    } else {
      assert q[1..] == parts[1..] + [p];
      JoinStrSnoc(parts[1..], p, sep);
    }
  }

  /** Joining what `split` produced gives the original string back. */
  lemma {:induction false} JoinSplit(s: string, c: char)
    ensures Join(Split(s, c), c) == s
  {
    if s == [] {
    } else if s[0] == c {
      JoinSplit(s[1..], c);
      assert s == [c] + s[1..];
    } else {
      JoinSplit(s[1..], c);
      var t := Split(s[1..], c);
      if |t| == 1 {
        assert s == [s[0]] + t[0];
      } else {
        assert Join(t, c) == t[0] + [c] + Join(t[1..], c);
        assert s == [s[0]] + s[1..];
      }
    }
  }

  /** Splitting a string that has no separator gives it back alone. */
  lemma {:induction false} SplitNoSep(s: string, c: char)
    requires c !in s
    ensures Split(s, c) == [s]
  {
    if s != [] {
      SplitNoSep(s[1..], c);
      assert s == [s[0]] + s[1..];
    }
  }

  /** Splitting around one separator splits each side on its own. */
  lemma {:induction false} SplitConcat(a: string, b: string, c: char)
    ensures Split(a + [c] + b, c) == Split(a, c) + Split(b, c)
  {
    if a == [] {
      assert a + [c] + b == [c] + b;
      assert ([c] + b)[1..] == b;
    } else {
      assert (a + [c] + b)[1..] == a[1..] + [c] + b;
      assert (a + [c] + b)[0] == a[0];
      SplitConcat(a[1..], b, c);
    }
  }

  /** The parts after appending `x`, from the parts `t` before. */
  function SnocParts(t: seq<string>, x: char, c: char): seq<string>
    requires |t| >= 1
  {
    if x == c then t + [""] else t[..|t| - 1] + [t[|t| - 1] + [x]]
  }

  /** Appending one character to the split string extends its last part or opens a new one. */
  lemma {:induction false} SplitSnoc(s: string, x: char, c: char)
    ensures Split(s + [x], c) == SnocParts(Split(s, c), x, c)
  {
    if s == [] {
      assert s + [x] == [x];
      assert [x][1..] == [];
      if x != c {
        assert [x] + "" == "" + [x];
      }
    } else {
      assert (s + [x])[1..] == s[1..] + [x];
      assert (s + [x])[0] == s[0];
      SplitSnoc(s[1..], x, c);
      var u := Split(s[1..], c);
      if s[0] == c {
        SnocPartsFront([""], u, x, c);
      } else {
        SnocPartsHead([s[0]], u, x, c);
      }
    }
  }

  /** Parts put in front of the split commute with appending a character. */
  lemma SnocPartsFront(front: seq<string>, u: seq<string>, x: char, c: char)
    requires |u| >= 1
    ensures front + SnocParts(u, x, c) == SnocParts(front + u, x, c)
  {
    if x != c {
      assert (front + u)[..|front + u| - 1] == front + u[..|u| - 1];
    }
  }

  /** Text put in front of the first part commutes with appending a character. */
  lemma SnocPartsHead(h: string, u: seq<string>, x: char, c: char)
    requires |u| >= 1
    ensures var v := SnocParts(u, x, c);
      [h + v[0]] + v[1..] == SnocParts([h + u[0]] + u[1..], x, c)
  {
    if x != c && |u| == 1 {
      assert h + (u[0] + [x]) == h + u[0] + [x];
    }
  }

  /** The last part of a split is empty exactly when the string ends with the separator (or is empty). */
  lemma SplitLastEmpty(s: string, c: char)
    ensures var t := Split(s, c); t[|t| - 1] == "" <==> (s == [] || s[|s| - 1] == c)
  {
    if s != [] {
      assert s == s[..|s| - 1] + [s[|s| - 1]];
      SplitSnoc(s[..|s| - 1], s[|s| - 1], c);
    }
  }

  /** Splitting a join of separator-free parts gives the parts back. */
  lemma {:induction false} SplitJoin(parts: seq<string>, c: char)
    requires |parts| >= 1
    requires forall k :: 0 <= k < |parts| ==> c !in parts[k]
    ensures Split(Join(parts, c), c) == parts
  {
    if |parts| == 1 {
      SplitNoSep(parts[0], c);
    } else {
      SplitJoin(parts[1..], c);
      SplitConcat(parts[0], Join(parts[1..], c), c);
      SplitNoSep(parts[0], c);
      assert parts == [parts[0]] + parts[1..];
    }
  }

  /** ASCII lower-case mapping of one character. */
  function LowerChar(c: char): char {
    if 'A' <= c <= 'Z' then (c as int + 32) as char else c
  }

  /** ASCII upper-case mapping of one character. */
  function UpperChar(c: char): char {
    if 'a' <= c <= 'z' then (c as int - 32) as char else c
  }

  /** `s.lower()` restricted to ASCII letters. */
  function Lower(s: string): (r: string)
    ensures |r| == |s| && forall k :: 0 <= k < |s| ==> r[k] == LowerChar(s[k])
  {
    seq(|s|, k requires 0 <= k < |s| => LowerChar(s[k]))
  }

  /** `s.upper()` restricted to ASCII letters. */
  function Upper(s: string): (r: string)
    ensures |r| == |s| && forall k :: 0 <= k < |s| ==> r[k] == UpperChar(s[k])
  {
    seq(|s|, k requires 0 <= k < |s| => UpperChar(s[k]))
  }

  predicate IsDigit(c: char) {
    '0' <= c <= '9'
  }

  function DigitValue(c: char): nat
    requires IsDigit(c)
  {
    c as int - '0' as int
  }

  /** The value of a non-empty run of decimal digits. */
  function DecValue(ds: string): nat
    requires forall k :: 0 <= k < |ds| ==> IsDigit(ds[k])
  {
    if ds == [] then 0 else 10 * DecValue(ds[..|ds| - 1]) + DigitValue(ds[|ds| - 1])
  }

  /** Python's digit grouping: digits, with single `_` only between two digits. */
  predicate DigitGroups(s: string) {
    |s| > 0 && IsDigit(s[0]) && IsDigit(s[|s| - 1])
    && (forall k :: 0 <= k < |s| ==> IsDigit(s[k]) || s[k] == '_')
    && (forall k :: 0 <= k < |s| - 1 ==> !(s[k] == '_' && s[k + 1] == '_'))
  }

  /** The digits of `s` with the grouping underscores removed. */
  function DropUnderscores(s: string): (r: string)
    requires forall k :: 0 <= k < |s| ==> IsDigit(s[k]) || s[k] == '_'
    ensures forall k :: 0 <= k < |r| ==> IsDigit(r[k])
  {
    if s == [] then ""
    else if s[0] == '_' then DropUnderscores(s[1..])
    else [s[0]] + DropUnderscores(s[1..])
  }

  /**
   * Python's `int(s)` in base 10: surrounding white space, an optional sign,
   * then digits grouped by single underscores. `None` is the `ValueError`.
   */
  function PyInt(s: string): (r: Option<int>)
    ensures r.Some? ==> Strip(s) != ""
  {
    var t := Strip(s);
    if t == [] then None
    else
      var neg := t[0] == '-';
      var body := if t[0] == '-' || t[0] == '+' then t[1..] else t;
      if DigitGroups(body) then
        var v: int := DecValue(DropUnderscores(body));
        Some(if neg then -v else v)
      else None
  }

  /** The decimal writing of a natural number, most significant digit first. */
  function DecDigits(n: nat): (r: string)
    ensures |r| >= 1 && forall k :: 0 <= k < |r| ==> IsDigit(r[k])
    decreases n
  {
    if n < 10 then [('0' as int + n) as char]
    else DecDigits(n / 10) + [('0' as int + n % 10) as char]
  }

  /** A decimal numeral has no grouping problem: every character is a digit. */
  lemma DecDigitsGroups(n: nat)
    ensures DigitGroups(DecDigits(n))
    ensures DropUnderscores(DecDigits(n)) == DecDigits(n)
  {
    DropNoUnderscores(DecDigits(n));
  }

  lemma {:induction false} DropNoUnderscores(s: string)
    requires forall k :: 0 <= k < |s| ==> IsDigit(s[k])
    ensures DropUnderscores(s) == s
  {
    if s != [] {
      DropNoUnderscores(s[1..]);
    }
  }

  /** Python's `int()` reads back a decimal numeral. */
  lemma PyIntDecDigits(n: nat)
    ensures PyInt(DecDigits(n)) == Some(n)
  {
    var d := DecDigits(n);
    StripTrimmed(d);
    DecDigitsGroups(n);
    DecValueDecDigits(n);
  }

  /** A decimal numeral has no letters, so case mapping leaves it alone. */
  lemma DecDigitsNoLetters(n: nat)
    ensures Upper(DecDigits(n)) == DecDigits(n)
  {
  }

  /** Python's `str(n)` for an integer. */
  function IntStr(n: int): string {
    if n < 0 then "-" + DecDigits(-n) else DecDigits(n)
  }

  /** Reading back the decimal writing of `n` gives `n`. */
  lemma {:induction false} DecValueDecDigits(n: nat)
    ensures DecValue(DecDigits(n)) == n
    decreases n
  {
    if n >= 10 {
      DecValueDecDigits(n / 10);
      var d := DecDigits(n);
      assert d[..|d| - 1] == DecDigits(n / 10);
    }
  }

  /** One lower-case hexadecimal digit. */
  function HexChar(d: nat): char
    requires d < 16
  {
    if d < 10 then ('0' as int + d) as char else ('a' as int + d - 10) as char
  }

  /** The minimal lower-case hexadecimal writing of a natural number. */
  function HexDigits(n: nat): (r: string)
    ensures |r| >= 1
    decreases n
  {
    if n < 16 then [HexChar(n)] else HexDigits(n / 16) + [HexChar(n % 16)]
  }

  /** Python's `hex(n)`. */
  function Hex(n: int): string {
    if n < 0 then "-0x" + HexDigits(-n) else "0x" + HexDigits(n)
  }

  /** `s.rjust(width, '0')`-like zero padding of a digit string. */
  function ZeroPad(s: string, width: nat): (r: string)
    ensures |r| == if |s| < width then width else |s|
    ensures r[|r| - |s|..] == s
  {
    if |s| < width then seq(width - |s|, _ => '0') + s else s
  }

  /** The line boundaries `str.splitlines()` recognises. */
  predicate IsLineBreak(c: char) {
    c == '\n' || c == '\r' || c as int in {0x0B, 0x0C, 0x1C, 0x1D, 0x1E, 0x85, 0x2028, 0x2029}
  }

  /** The index of the first line boundary, or the length when there is none. */
  function LineEnd(s: string): (i: nat)
    ensures i <= |s| && (i < |s| ==> IsLineBreak(s[i]))
    ensures forall k :: 0 <= k < i ==> !IsLineBreak(s[k])
  {
    if s == [] || IsLineBreak(s[0]) then 0 else 1 + LineEnd(s[1..])
  }

  /** `s.splitlines()`: the lines without their boundaries ("\r\n" is one); no line for a final boundary. */
  function SplitLines(s: string): (r: seq<string>)
    ensures r == [] <==> s == []
    ensures forall k, j :: 0 <= k < |r| && 0 <= j < |r[k]| ==> !IsLineBreak(r[k][j])
    decreases |s|
  {
    if s == [] then []
    else
      var i := LineEnd(s);
      var next := if i + 1 < |s| && s[i] == '\r' && s[i + 1] == '\n' then i + 2 else i + 1;
      [s[..i]] + SplitLines(if next <= |s| then s[next..] else [])
  }
}
