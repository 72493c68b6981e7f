/**
 * `DTSUtil`: DTS-like text for property values. Integers print as
 * zero-padded lower-case hexadecimal sized to their byte count, byte
 * strings as upper-case byte pairs in brackets, and cells are wrapped in
 * `< … >`.
 */
module DTSUtil {
  import PyStr

  /** A Python `bytes` item. */
  newtype byte = x: int | 0 <= x < 256

  /** `mk_boolean()`: Python's `str(value).lower()`. */
  function MkBoolean(value: bool): string {
    if value then "true" else "false"
  }

  /** The DTS boolean is Python's `str()` of the value in lower case, and tells the two values apart. */
  lemma MkBooleanLowerStr(value: bool)
    ensures MkBoolean(value) == PyStr.Lower(if value then "True" else "False")
    ensures MkBoolean(value) == "true" <==> value
  {
    var py := if value then "True" else "False";
    assert PyStr.Lower(py)[0] == PyStr.LowerChar(py[0]);
  }

  /** `mk_string()`: the value in double quotes. */
  function MkString(value: string): (r: string)
    ensures |r| == |value| + 2 && r[0] == '"' && r[|r| - 1] == '"'
    ensures r[1..|r| - 1] == value
  {
    "\"" + value + "\""
  }

  /** `_mk_cell()`. */
  function Cell(content: string): (r: string)
    ensures |r| == |content| + 4 && r[..2] == "< " && r[|r| - 2..] == " >"
    ensures r[2..|r| - 2] == content
  {
    "< " + content + " >"
  }

  /** The number of times `x >>= 8` runs before `x` is 0. */
  function ByteCount(v: nat): nat
    decreases v
  {
    if v == 0 then 0 else 1 + ByteCount(v / 256)
  }

  /** `nbytes or 1`: zero still takes one byte. */
  function Width(v: nat): nat {
    if ByteCount(v) == 0 then 1 else ByteCount(v)
  }

  /** `"0x{:0Nx}".format(value)` with N = 2 × nbytes, in a cell when asked. */
  function IntText(v: nat, asCell: bool): string {
    var t := "0x" + PyStr.ZeroPad(PyStr.HexDigits(v), 2 * Width(v));
    if asCell then Cell(t) else t
  }

  /** `mk_int()`: count the bytes by shifting, then format. */
  method MkInt(value: int, asCell: bool) returns (r: string)
    requires value >= 0
    ensures r == IntText(value, asCell)
  {
    var nbytes := 0;
    var x := value;
    while x != 0
      invariant x >= 0 && nbytes + ByteCount(x) == ByteCount(value)
      decreases x
    {
      x := x / 256;
      nbytes := nbytes + 1;
    }
    if nbytes == 0 {
      nbytes := 1;
    }
    assert nbytes == Width(value);
    r := "0x" + PyStr.ZeroPad(PyStr.HexDigits(value), 2 * nbytes);
    if asCell {
      r := Cell(r);
    }
  }

  /** Python's `x >> 8`, which rounds towards minus infinity. */
  function Shift8(x: int): int {
    x / 256
  }

  /** A negative value stays negative under `x >>= 8`, so the byte-counting loop of `mk_int` never ends on it. */
  lemma ShiftStaysNegative(x: int)
    requires x < 0
    ensures Shift8(x) < 0 && Shift8(x) != 0
  {
  }

  /** The value of a hexadecimal digit, either case; 0 for anything else. */
  function HexVal(c: char): nat {
    if '0' <= c <= '9' then c as int - '0' as int
    else if 'a' <= c <= 'f' then c as int - 'a' as int + 10
    else if 'A' <= c <= 'F' then c as int - 'A' as int + 10
    else 0
  }

  /** `int(s, 16)` for a string of hexadecimal digits. */
  function HexValue(s: string): nat {
    if s == [] then 0 else 16 * HexValue(s[..|s| - 1]) + HexVal(s[|s| - 1])
  }

  /** Reading back the hexadecimal writing of `n` gives `n`. */
  lemma {:induction false} HexValueDigits(n: nat)
    ensures HexValue(PyStr.HexDigits(n)) == n
    decreases n
  {
    var d := PyStr.HexDigits(n);
    if n >= 16 {
      HexValueDigits(n / 16);
      assert d[..|d| - 1] == PyStr.HexDigits(n / 16);
    }
  }

  /** Leading zeros do not change a hexadecimal value. */
  lemma {:induction false} HexValueZeros(z: nat, s: string)
    ensures HexValue(seq(z, _ => '0') + s) == HexValue(s)
    decreases |s|, z
  {
    var zs := seq(z, _ => '0');
    if s == [] {
      assert zs + s == zs;
      if z > 0 {
        assert zs[..z - 1] == seq(z - 1, _ => '0') + [];
        HexValueZeros(z - 1, []);
      }
    } else {
      assert (zs + s)[..|zs + s| - 1] == zs + s[..|s| - 1];
      HexValueZeros(z, s[..|s| - 1]);
    }
  }

  /** Zero-padding never changes a hexadecimal value. */
  lemma HexValuePad(s: string, width: nat)
    ensures HexValue(PyStr.ZeroPad(s, width)) == HexValue(s)
  {
    if |s| < width {
      HexValueZeros(width - |s|, s);
    }
  }

  /** Two more hexadecimal digits for each byte beyond the first. */
  lemma HexDigitsByte(n: nat)
    requires n >= 256
    ensures |PyStr.HexDigits(n)| == |PyStr.HexDigits(n / 256)| + 2
  {
    assert n / 16 >= 16;
    assert n / 16 / 16 == n / 256;
  }

  /** The hexadecimal writing of `n` takes two digits per byte, the first byte possibly only one. */
  lemma {:induction false} HexWidth(n: nat)
    ensures |PyStr.HexDigits(n)| <= 2 * Width(n)
    ensures n > 0 ==> 2 * ByteCount(n) - 1 <= |PyStr.HexDigits(n)|
    decreases n
  {
    if n >= 256 {
      HexDigitsByte(n);
      HexWidth(n / 256);
    } else if n >= 16 {
      assert n / 256 == 0;
      assert n / 16 < 16;
    }
  }

  /** A lower-case hexadecimal digit. */
  predicate IsLowerHex(c: char) {
    '0' <= c <= '9' || 'a' <= c <= 'f'
  }

  /** Hexadecimal digits are lower case. */
  lemma {:induction false} HexDigitsLower(n: nat)
    ensures forall k :: 0 <= k < |PyStr.HexDigits(n)| ==> IsLowerHex(PyStr.HexDigits(n)[k])
    decreases n
  {
    if n >= 16 {
      HexDigitsLower(n / 16);
    }
  }

  /** The padded digits: exactly two per byte, lower case, reading back as the value. */
  lemma PaddedDigits(v: nat)
    ensures var p := PyStr.ZeroPad(PyStr.HexDigits(v), 2 * Width(v));
      |p| == 2 * Width(v) && HexValue(p) == v && forall k :: 0 <= k < |p| ==> IsLowerHex(p[k])
  {
    var d := PyStr.HexDigits(v);
    var p := PyStr.ZeroPad(d, 2 * Width(v));
    HexWidth(v);
    HexValueDigits(v);
    HexValuePad(d, 2 * Width(v));
    HexDigitsLower(v);
    forall k | 0 <= k < |p|
      ensures IsLowerHex(p[k])
    {
      if k >= |p| - |d| {
        assert p[k] == p[|p| - |d|..][k - (|p| - |d|)];
      }
    }
  }

  /**
   * The integer text is "0x" then exactly two lower-case digits per byte
   * (at least two), reading back as the value; a cell wraps exactly that text.
   */
  lemma IntTextDigits(v: nat)
    ensures var t := IntText(v, false);
      |t| == 2 + 2 * Width(v) && t[..2] == "0x" && HexValue(t[2..]) == v
      && forall k :: 2 <= k < |t| ==> IsLowerHex(t[k])
    ensures IntText(v, true) == Cell(IntText(v, false))
  {
    var p := PyStr.ZeroPad(PyStr.HexDigits(v), 2 * Width(v));
    PaddedDigits(v);
    var t := IntText(v, false);
    assert t == "0x" + p;
    assert t[2..] == p;
    assert forall k :: 2 <= k < |t| ==> t[k] == p[k - 2];
  }

  /** One upper-case hexadecimal digit. */
  function UpperHex(d: nat): char
    requires d < 16
  {
    if d < 10 then ('0' as int + d) as char else ('A' as int + d - 10) as char
  }

  lemma HexValUpper(d: nat)
    requires d < 16
    ensures HexVal(UpperHex(d)) == d && UpperHex(d) != ' '
  {
  }

  /** `f"{b:02X}"`. */
  function ByteText(b: byte): (r: string)
    ensures |r| == 2 && ' ' !in r && HexValue(r) == b as int
  {
    var hi, lo := UpperHex(b as int / 16), UpperHex(b as int % 16);
    var t := [hi, lo];
    HexValUpper(b as int / 16);
    HexValUpper(b as int % 16);
    assert HexValue([hi]) == HexVal(hi) by {
      assert [hi][..0] == [];
    }
    assert t[..1] == [hi];
    assert HexValue(t) == 16 * (b as int / 16) + b as int % 16;
    t
  }

  function ByteTexts(value: seq<byte>): (r: seq<string>)
    ensures |r| == |value|
  {
    seq(|value|, k requires 0 <= k < |value| => ByteText(value[k]))
  }

  /** `mk_bytes()`: the byte pairs, space separated, in brackets. */
  function MkBytes(value: seq<byte>): string {
    "[ " + PyStr.Join(ByteTexts(value), ' ') + " ]"
  }

  /** The text between the brackets splits at spaces back into the bytes. */
  lemma MkBytesDecodes(value: seq<byte>)
    requires value != []
    ensures var r := MkBytes(value); var parts := PyStr.Split(r[2..|r| - 2], ' ');
      r[..2] == "[ " && r[|r| - 2..] == " ]"
      && |parts| == |value| && forall k :: 0 <= k < |value| ==> HexValue(parts[k]) == value[k] as int
  {
    var texts := ByteTexts(value);
    var r := MkBytes(value);
    assert r[2..|r| - 2] == PyStr.Join(texts, ' ');
    PyStr.SplitJoin(texts, ' ');
  }

  /** The empty byte string prints as empty brackets. */
  lemma MkBytesEmpty()
    ensures MkBytes([]) == "[  ]"
  {
  }

  function IntTexts(xs: seq<nat>, asCell: bool): (r: seq<string>)
    ensures |r| == |xs|
  {
    seq(|xs|, k requires 0 <= k < |xs| => IntText(xs[k], asCell))
  }

  /** `mk_array()`: one cell of space separated integers, or a comma separated list of integer cells. */
  function MkArray(xs: seq<nat>, asCell: bool): string {
    if asCell then Cell(PyStr.Join(IntTexts(xs, false), ' '))
    else PyStr.JoinStr(IntTexts(xs, true), ", ")
  }

  /** An integer text holds no space. */
  lemma IntTextNoSpace(v: nat)
    ensures ' ' !in IntText(v, false)
  {
    IntTextDigits(v);
    var t := IntText(v, false);
    assert t[0] == '0' && t[1] == 'x';
  }

  /** The single-cell form splits at spaces back into the integers. */
  lemma MkArrayDecodes(xs: seq<nat>)
    requires xs != []
    ensures var r := MkArray(xs, true); var parts := PyStr.Split(r[2..|r| - 2], ' ');
      |parts| == |xs| && forall k :: 0 <= k < |xs| ==> |parts[k]| >= 2 && parts[k][..2] == "0x" && HexValue(parts[k][2..]) == xs[k]
  {
    var texts := IntTexts(xs, false);
    forall k | 0 <= k < |xs|
      ensures ' ' !in texts[k]
      ensures texts[k][..2] == "0x" && HexValue(texts[k][2..]) == xs[k]
    {
      IntTextNoSpace(xs[k]);
      IntTextDigits(xs[k]);
    }
    PyStr.SplitJoin(texts, ' ');
  }

  /** The list form grows by ", " and the next integer cell. */
  lemma MkArrayListSnoc(xs: seq<nat>, x: nat)
    requires xs != []
    ensures MkArray(xs + [x], false) == MkArray(xs, false) + ", " + IntText(x, true)
  {
    assert IntTexts(xs + [x], true) == IntTexts(xs, true) + [IntText(x, true)];
    PyStr.JoinStrSnoc(IntTexts(xs, true), IntText(x, true), ", ");
  }

  function Quoted(strs: seq<string>): (r: seq<string>)
    ensures |r| == |strs|
  {
    seq(|strs|, k requires 0 <= k < |strs| => MkString(strs[k]))
  }

  /**
   * `mk_phandle()` of a node with these labels and this path: a reference
   * to its first label, or its path when it has no label, in a cell when asked.
   */
  function MkPhandle(labels: seq<string>, path: string, asCell: bool): (r: string)
    ensures asCell ==> |r| >= 4 && r[..2] == "< " && r[|r| - 2..] == " >"
    ensures labels != [] ==> (if asCell then r[2..|r| - 2] else r) == "&" + labels[0]
    ensures labels == [] ==> (if asCell then r[2..|r| - 2] else r) == path
  {
    var handle := if labels != [] then "&" + labels[0] else path;
    if asCell then Cell(handle) else handle
  }

  /** `mk_string_array()`: the quoted strings, comma separated. */
  function MkStringArray(strs: seq<string>): string {
    PyStr.JoinStr(Quoted(strs), ", ")
  }

  /** One string prints as itself quoted; each further string adds ", " and its quoted form. */
  lemma MkStringArrayGrows(strs: seq<string>, s: string)
    ensures MkStringArray([s]) == MkString(s)
    ensures strs != [] ==> MkStringArray(strs + [s]) == MkStringArray(strs) + ", " + MkString(s)
  {
    if strs != [] {
      assert Quoted(strs + [s]) == Quoted(strs) + [MkString(s)];
      PyStr.JoinStrSnoc(Quoted(strs), MkString(s), ", ");
    }
  }
}
