/**
 * Spreadsheet cell values and the JavaScript conversions the bill-of-quantities
 * pages apply to them: `parseFloat(x) || 0`, `parseInt`, `Number(x)`, truthiness,
 * string interpolation of numbers, and array reads and writes past the end.
 */
module Cells {

  datatype Option<T> = None | Some(value: T)

  /** One spreadsheet cell: a JavaScript number, a string, or an undefined slot. */
  datatype Cell = CNum(n: real) | CStr(s: string) | CUndef

  type Row = seq<Cell>

  /** JavaScript truthiness of a cell value. */
  predicate Truthy(c: Cell)
  {
    match c
    case CNum(x) => x != 0.0
    case CStr(s) => s != ""
    case CUndef => false
  }

  /** `row[i]`: reading past the end of a JavaScript array gives undefined. */
  function At(row: Row, i: nat): Cell
  {
    if i < |row| then row[i] else CUndef
  }

  /** `row[i] = v`: writing past the end of a JavaScript array pads it with empty slots. */
  function SetAt(row: Row, i: nat, v: Cell): (r: Row)
    ensures |r| == if i < |row| then |row| else i + 1
    ensures forall j :: 0 <= j < |r| ==> r[j] == if j == i then v else At(row, j)
  {
    if i < |row| then row[i := v] else row + seq(i - |row|, _ => CUndef) + [v]
  }

  // ---------------------------------------------------------------------------
  // Characters and digit strings
  // ---------------------------------------------------------------------------

  predicate IsDigit(c: char)
  {
    '0' <= c <= '9'
  }

  /** The ECMAScript WhiteSpace and LineTerminator code points. */
  predicate IsJsSpace(c: char)
  {
    c == ' ' || c == '\t' || c == '\n' || c == '\r' || c == '\U{B}' || c == '\U{C}'
    || c == '\U{A0}' || c == '\U{1680}' || ('\U{2000}' <= c <= '\U{200A}')
    || c == '\U{2028}' || c == '\U{2029}' || c == '\U{202F}' || c == '\U{205F}'
    || c == '\U{3000}' || c == '\U{FEFF}'
  }

  function DigitValue(c: char): nat
    requires IsDigit(c)
  {
    (c as int) - ('0' as int)
  }

  function DigitChar(d: nat): char
    requires d < 10
  {
    ((('0' as int) + d) as char)
  }

  predicate AllDigits(s: string)
  {
    forall j :: 0 <= j < |s| ==> IsDigit(s[j])
  }

  /** The value of a string of decimal digits, most significant first. */
  function DigitsValue(s: string): nat
    requires AllDigits(s)
  {
    if s == [] then 0 else 10 * DigitsValue(s[..|s| - 1]) + DigitValue(s[|s| - 1])
  }

  /** The length of the run of decimal digits at the start of `s`. */
  function DigitRun(s: string): (k: nat)
    ensures k <= |s|
    ensures AllDigits(s[..k])
    ensures k < |s| ==> !IsDigit(s[k])
  {
    if s != [] && IsDigit(s[0]) then
      var k' := DigitRun(s[1..]);
      assert s[..k' + 1] == [s[0]] + s[1..][..k'];
      k' + 1
    else 0
  }

  /** Decimal text of a natural number, without leading zeros (`String(n)`). */
  function NatToString(n: nat): (s: string)
    decreases n
  {
    if n < 10 then [DigitChar(n)] else NatToString(n / 10) + [DigitChar(n % 10)]
  }

  /** Decimal text of an integer (`String(i)`, `i.toString()`). */
  function IntToString(i: int): string
  {
    if i < 0 then "-" + NatToString(-i) else NatToString(i)
  }

  lemma {:induction false} NatToStringDigits(n: nat)
    ensures NatToString(n) != []
    ensures AllDigits(NatToString(n))
    ensures DigitsValue(NatToString(n)) == n
    ensures NatToString(n)[0] == '0' ==> n == 0
    decreases n
  {
    if n >= 10 {
      NatToStringDigits(n / 10);
      var s := NatToString(n / 10) + [DigitChar(n % 10)];
      assert s[..|s| - 1] == NatToString(n / 10);
    }
  }

  /** Different numbers have different decimal texts. */
  lemma {:induction false} NatToStringInjective(m: nat, n: nat)
    requires NatToString(m) == NatToString(n)
    ensures m == n
  {
    NatToStringDigits(m);
    NatToStringDigits(n);
  }

  // ---------------------------------------------------------------------------
  // parseInt, parseFloat and Number on strings
  // ---------------------------------------------------------------------------

  function TrimStart(s: string): (t: string)
    ensures |t| <= |s| && t == s[|s| - |t|..]
    ensures t != [] ==> !IsJsSpace(t[0])
    ensures forall j :: 0 <= j < |s| - |t| ==> IsJsSpace(s[j])
  {
    if s != [] && IsJsSpace(s[0]) then TrimStart(s[1..]) else s
  }

  function TrimEnd(s: string): (t: string)
    ensures |t| <= |s| && t == s[..|t|]
    ensures t != [] ==> !IsJsSpace(t[|t| - 1])
    ensures forall j :: |t| <= j < |s| ==> IsJsSpace(s[j])
  {
    if s != [] && IsJsSpace(s[|s| - 1]) then TrimEnd(s[..|s| - 1]) else s
  }

  /** A leading sign: whether it is a minus, and the number of characters it takes. */
  function SignOf(t: string): (r: (bool, nat))
    ensures r.1 <= 1 && r.1 <= |t|
  {
    if t != [] && t[0] == '-' then (true, 1) else if t != [] && t[0] == '+' then (false, 1) else (false, 0)
  }

  /** The value of a digit, or of a letter of either case counted from 10 as in radix literals; -1 for any other character. */
  function CharDigit(c: char): int
  {
    if IsDigit(c) then DigitValue(c)
    else if 'a' <= c <= 'z' then (c as int) - ('a' as int) + 10
    else if 'A' <= c <= 'Z' then (c as int) - ('A' as int) + 10
    else -1
  }

  /** A digit of the radix: a hexadecimal digit for 16, '0' to '7' for 8, '0' or '1' for 2. */
  predicate IsRadixDigit(c: char, radix: nat)
  {
    0 <= CharDigit(c) < radix
  }

  /** The length of the run of digits of the radix at the start of `s`. */
  function RadixRun(s: string, radix: nat): (k: nat)
    ensures k <= |s|
    ensures forall j :: 0 <= j < k ==> IsRadixDigit(s[j], radix)
    ensures k < |s| ==> !IsRadixDigit(s[k], radix)
  {
    if s != [] && IsRadixDigit(s[0], radix) then 1 + RadixRun(s[1..], radix) else 0
  }

  /** The product of two naturals. */
  function NatTimes(a: nat, b: nat): nat
  {
    a * b
  }

  function RadixValue(s: string, radix: nat): nat
    requires forall j :: 0 <= j < |s| ==> IsRadixDigit(s[j], radix)
  {
    if s == [] then 0
    else
      var init := s[..|s| - 1];
      assert forall j :: 0 <= j < |init| ==> init[j] == s[j];
      var d: nat := assert IsRadixDigit(s[|s| - 1], radix); CharDigit(s[|s| - 1]);
      NatTimes(radix, RadixValue(init, radix)) + d
  }

  /** The radix a literal prefix names: 16 for `0x`/`0X`, 8 for `0o`/`0O`, 2 for `0b`/`0B`, 0 for none. */
  function RadixPrefix(u: string): (r: nat)
    ensures r == 0 || r == 2 || r == 8 || r == 16
    ensures r != 0 ==> |u| >= 2 && u[0] == '0' && !IsDigit(u[1])
  {
    if |u| < 2 || u[0] != '0' then 0
    else if u[1] == 'x' || u[1] == 'X' then 16
    else if u[1] == 'o' || u[1] == 'O' then 8
    else if u[1] == 'b' || u[1] == 'B' then 2
    else 0
  }

  /**
   * `parseInt(s)` with no radix: leading white space, an optional sign, then
   * hexadecimal digits after `0x`/`0X` or decimal digits otherwise, up to the
   * first character that is not one; `None` stands for NaN.
   */
  function ParseInt(s: string): Option<int>
  {
    var t := TrimStart(s);
    var (minus, k) := SignOf(t);
    var u := t[k..];
    if RadixPrefix(u) == 16 then
      var w := u[2..];
      var h := RadixRun(w, 16);
      if h == 0 then None
      else
        var v: int := RadixValue(w[..h], 16);
        Some(if minus then -v else v)
    else
      var d := DigitRun(u);
      if d == 0 then None
      else
        var v: int := DigitsValue(u[..d]);
        Some(if minus then -v else v)
  }

  /** `parseInt` reads the decimal text of an integer back as that integer. */
  lemma {:induction false} ParseIntOfIntToString(i: int)
    ensures ParseInt(IntToString(i)) == Some(i)
  {
    var n: nat := if i < 0 then -i else i;
    var d := NatToString(n);
    NatToStringDigits(n);
    ParseIntOfDigits(d);
    var s := IntToString(i);
    if i < 0 {
      assert s == "-" + d;
      assert !IsJsSpace(s[0]);
      assert TrimStart(s) == s;
      assert SignOf(s) == (true, 1);
      assert s[1..] == d;
    } else {
      assert s == d;
    }
  }

  /** `parseInt` of a non-empty digit string, and the facts about it that the reading needs. */
  lemma {:induction false} ParseIntOfDigits(d: string)
    requires d != [] && AllDigits(d)
    ensures IsDigit(d[0]) && !IsJsSpace(d[0])
    ensures DigitRun(d) == |d| && d[..|d|] == d
    ensures TrimStart(d) == d && SignOf(d) == (false, 0)
    ensures ParseInt(d) == Some(DigitsValue(d))
  {
    AllDigitsRun(d);
    DigitsStart(d);
    NoRadixPrefix(d);
    ParseIntPlain(d);
  }

  lemma {:induction false} NoRadixPrefix(d: string)
    requires d != [] && AllDigits(d)
    ensures RadixPrefix(d) == 0
  {
    if |d| >= 2 {
      assert IsDigit(d[1]);
    }
  }

  lemma {:induction false} DigitsStart(d: string)
    requires d != [] && AllDigits(d)
    ensures IsDigit(d[0]) && !IsJsSpace(d[0])
    ensures TrimStart(d) == d && SignOf(d) == (false, 0)
  {
    assert IsDigit(d[0]);
  }

  lemma {:induction false} ParseIntPlain(d: string)
    requires d != [] && AllDigits(d) && RadixPrefix(d) == 0
    requires TrimStart(d) == d && SignOf(d) == (false, 0) && DigitRun(d) == |d|
    ensures ParseInt(d) == Some(DigitsValue(d))
  {
    assert d[0..] == d;
    assert d[..|d|] == d;
  }

  lemma {:induction false} AllDigitsRun(s: string)
    requires AllDigits(s)
    ensures DigitRun(s) == |s|
  {
    if s != [] {
      AllDigitsRun(s[1..]);
    }
  }

  function Pow10(e: int): (p: real)
    ensures p > 0.0
    decreases if e < 0 then -e else e
  {
    if e == 0 then 1.0 else if e > 0 then 10.0 * Pow10(e - 1) else Pow10(e + 1) / 10.0
  }

  /** An optional exponent `e[+-]digits`: its value and the characters it takes. */
  function ExponentPart(v: string): (r: (int, nat))
    ensures r.1 <= |v|
  {
    if v != [] && (v[0] == 'e' || v[0] == 'E') then
      var (minus, k) := SignOf(v[1..]);
      var w := v[1 + k..];
      var d := DigitRun(w);
      if d == 0 then (0, 0)
      else
        var e: int := DigitsValue(w[..d]);
        (if minus then -e else e, 1 + k + d)
    else (0, 0)
  }

  /**
   * The longest prefix of `u` that is an unsigned decimal literal
   * (`digits [. digits] [exponent]` or `. digits [exponent]`): its value and length.
   */
  function DecimalPrefix(u: string): (r: Option<(real, nat)>)
    ensures r.Some? ==> 0 < r.value.1 <= |u|
  {
    var k := DigitRun(u);
    var hasDot := k < |u| && u[k] == '.';
    var f := if hasDot then DigitRun(u[k + 1..]) else 0;
    if k + f == 0 then None
    else
      var fraction := if hasDot then DigitsValue(u[k + 1..][..f]) as real / Pow10(f) else 0.0;
      var m := if hasDot then k + 1 + f else k;
      var (e, m') := ExponentPart(u[m..]);
      Some(((DigitsValue(u[..k]) as real + fraction) * Pow10(e), m + m'))
  }

  /** `parseFloat(s)`; `None` stands for NaN. */
  function ParseFloat(s: string): Option<real>
  {
    var t := TrimStart(s);
    var (minus, k) := SignOf(t);
    match DecimalPrefix(t[k..])
    case None => None
    case Some((v, _)) => Some(if minus then -v else v)
  }

  /** A JavaScript number: finite, or NaN. */
  datatype Num = Fin(v: real) | NaN

  /** The product of two reals. */
  function RealTimes(x: real, y: real): real
  {
    x * y
  }

  function Times(a: Num, b: Num): Num
  {
    match a
    case NaN => NaN
    case Fin(x) => (match b case NaN => NaN case Fin(y) => Fin(RealTimes(x, y)))
  }

  /**
   * `Number(s)` on a string: blank text is 0, otherwise the whole trimmed text
   * must be a decimal literal or an unsigned `0x`, `0o` or `0b` literal.
   */
  function StringToNumber(s: string): Num
  {
    var t := TrimEnd(TrimStart(s));
    if t == "" then Fin(0.0)
    else if RadixPrefix(t) != 0 then
      var r := RadixPrefix(t);
      var w := t[2..];
      if w != [] && RadixRun(w, r) == |w| then Fin(RadixValue(w, r) as real) else NaN
    else
      var (minus, k) := SignOf(t);
      match DecimalPrefix(t[k..])
      case Some((v, m)) => if k + m == |t| then Fin(if minus then -v else v) else NaN
      case None => NaN
  }
  /** A non-empty digit string is read in full as a decimal literal. */
  lemma {:induction false} DecimalPrefixOfDigits(d: string)
    requires d != [] && AllDigits(d)
    ensures DecimalPrefix(d) == Some((DigitsValue(d) as real, |d|))
  {
    AllDigitsRun(d);
    assert d[..|d|] == d;
    assert d[|d|..] == [];
    assert ExponentPart([]) == (0, 0);
    assert Pow10(0) == 1.0;
  }

  /** `Number` of a non-empty digit string is the value of its digits. */
  lemma {:induction false} StringToNumberOfDigits(d: string)
    requires d != [] && AllDigits(d)
    ensures StringToNumber(d) == Fin(DigitsValue(d) as real)
  {
    DigitsStart(d);
    assert TrimEnd(d) == d by {
      assert IsDigit(d[|d| - 1]);
    }
    NoRadixPrefix(d);
    DecimalPrefixOfDigits(d);
    assert d[0..] == d;
  }

  /**
   * `Number` of text that is not blank, starts with neither a sign, a digit nor
   * a point, and is not the word `Infinity`, is NaN.
   */
  lemma {:induction false} StringToNumberOfWord(s: string)
    requires s != [] && !IsJsSpace(s[0]) && !IsJsSpace(s[|s| - 1])
    requires !IsDigit(s[0]) && s[0] != '.' && s[0] != '-' && s[0] != '+'
    requires s != "Infinity"
    ensures StringToNumber(s) == NaN
  {
    assert TrimStart(s) == s;
    assert TrimEnd(s) == s;
    assert SignOf(s) == (false, 0);
    assert s[0..] == s;
    assert DigitRun(s) == 0;
    assert DecimalPrefix(s) == None;
  }

  /** `Number` reads a hexadecimal literal: `0x1F` is 31. */
  lemma HexLiteral()
    ensures StringToNumber("0x1F") == Fin(31.0)
  {
    var t := "0x1F";
    assert TrimStart(t) == t && TrimEnd(t) == t;
    assert RadixPrefix(t) == 16 && t[2..] == "1F";
    assert RadixRun("F", 16) == 1 && "1F"[1..] == "F";
    assert RadixRun("1F", 16) == 2;
    assert "1F"[..1] == "1" && ""[..0] == "";
    assert RadixValue("1", 16) == 1;
    assert RadixValue("1F", 16) == 31;
  }

  /** `Number` reads an octal literal: `0o17` is 15. */
  lemma OctalLiteral()
    ensures StringToNumber("0o17") == Fin(15.0)
  {
    var t := "0o17";
    assert TrimStart(t) == t && TrimEnd(t) == t;
    assert RadixPrefix(t) == 8 && t[2..] == "17";
    assert RadixRun("7", 8) == 1 && "17"[1..] == "7";
    assert RadixRun("17", 8) == 2;
    assert "17"[..1] == "1";
    assert RadixValue("1", 8) == 1;
    assert RadixValue("17", 8) == 15;
  }

  /** `Number` reads a binary literal: `0b101` is 5. */
  lemma BinaryLiteral()
    ensures StringToNumber("0b101") == Fin(5.0)
  {
    var t := "0b101";
    assert TrimStart(t) == t && TrimEnd(t) == t;
    assert RadixPrefix(t) == 2 && t[2..] == "101";
    assert "101"[1..] == "01" && "01"[1..] == "1";
    assert RadixRun("1", 2) == 1 && RadixRun("01", 2) == 2 && RadixRun("101", 2) == 3;
    assert "101"[..2] == "10" && "10"[..1] == "1";
    assert RadixValue("1", 2) == 1;
    assert RadixValue("10", 2) == 2;
    assert RadixValue("101", 2) == 5;
  }


  /** `parseFloat(x) || 0` on a cell: the numeric value, or 0 when none can be read. */
  function ParseNum(c: Cell): real
  {
    match c
    case CNum(x) => x
    case CStr(s) => (match ParseFloat(s) case Some(v) => v case None => 0.0)
    case CUndef => 0.0
  }

  // ---------------------------------------------------------------------------
  // Text
  // ---------------------------------------------------------------------------

  /** Up to `n` further decimals of a fraction in [0, 1), without trailing zeros. */
  function FractionDigits(f: real, n: nat): string
    requires 0.0 <= f < 1.0
    decreases n
  {
    if f == 0.0 || n == 0 then ""
    else
      var d := (f * 10.0).Floor;
      [DigitChar(d)] + FractionDigits(f * 10.0 - d as real, n - 1)
  }

  /** The text of a number in a template literal. */
  function NumberText(x: real): string
  {
    var m := if x < 0.0 then -x else x;
    var whole := (m.Floor) as nat;
    var digits := NatToString(whole) + (if m == whole as real then "" else "." + FractionDigits(m - whole as real, 20));
    if x < 0.0 then "-" + digits else digits
  }

  /** The text of a cell in a template literal or `String(c)`. */
  function CellText(c: Cell): string
  {
    match c
    case CStr(s) => s
    case CNum(x) => NumberText(x)
    case CUndef => "undefined"
  }

  predicate StartsWith(s: string, p: string)
  {
    |p| <= |s| && s[..|p|] == p
  }

  /** `sub` occurs in `s` at position `i`. */
  predicate OccursAt(s: string, sub: string, i: nat)
  {
    i + |sub| <= |s| && s[i..i + |sub|] == sub
  }

  /** `s.includes(sub)`. */
  predicate Contains(s: string, sub: string)
  {
    exists i :: 0 <= i <= |s| && OccursAt(s, sub, i)
  }

  /** The first position of `sep` in `s`, if any (`s.indexOf(sep)`). */
  function IndexOf(s: string, sep: string): (r: Option<nat>)
    ensures r.Some? ==> OccursAt(s, sep, r.value)
    ensures r.Some? ==> forall i: nat :: i < r.value ==> !OccursAt(s, sep, i)
    ensures r.None? ==> !Contains(s, sep)
    decreases |s|
  {
    if |sep| > |s| then None
    else if s[..|sep|] == sep then Some(0)
    else match IndexOf(s[1..], sep)
      case None =>
        NotFoundStep(s, sep);
        None
      case Some(j) =>
        FoundStep(s, sep, j);
        Some(j + 1)
  }

  /** No occurrence at the start nor in the tail: no occurrence at all. */
  lemma NotFoundStep(s: string, sep: string)
    requires |sep| <= |s| && s[..|sep|] != sep && !Contains(s[1..], sep)
    ensures !Contains(s, sep)
  {
    forall i: nat | i <= |s|
      ensures !OccursAt(s, sep, i)
    {
      if i > 0 && i + |sep| <= |s| {
        TailSlice(s, i, i + |sep|);
        assert !OccursAt(s[1..], sep, i - 1);
      }
    }
  }

  /** The first occurrence in the tail, one position further, is the first in the text. */
  lemma FoundStep(s: string, sep: string, j: nat)
    requires |sep| <= |s| && s[..|sep|] != sep
    requires OccursAt(s[1..], sep, j) && forall i: nat :: i < j ==> !OccursAt(s[1..], sep, i)
    ensures OccursAt(s, sep, j + 1)
    ensures forall i: nat :: i < j + 1 ==> !OccursAt(s, sep, i)
  {
    TailSlice(s, j + 1, j + 1 + |sep|);
    forall i: nat | i < j + 1
      ensures !OccursAt(s, sep, i)
    {
      if i > 0 {
        assert !OccursAt(s[1..], sep, i - 1);
        if i + |sep| <= |s| {
          TailSlice(s, i, i + |sep|);
        }
      }
    }
  }

  /** A slice of the tail is the slice of the text one position further. */
  lemma TailSlice(s: string, a: nat, b: nat)
    requires 1 <= a <= b <= |s|
    ensures s[1..][a - 1..b - 1] == s[a..b]
  {
    forall k | 0 <= k < b - a
      ensures s[1..][a - 1..b - 1][k] == s[a..b][k]
    {
    }
  }

  /** `s.split(sep)` for a non-empty separator. */
  function Split(s: string, sep: string): (parts: seq<string>)
    requires sep != ""
    ensures |parts| >= 1
    decreases |s|
  {
    match IndexOf(s, sep)
    case None => [s]
    case Some(i) => [s[..i]] + Split(s[i + |sep|..], sep)
  }

  /** `parts.join(sep)`. */
  function Join(parts: seq<string>, sep: string): string
    requires |parts| >= 1
  {
    if |parts| == 1 then parts[0] else parts[0] + sep + Join(parts[1..], sep)
  }

  /** `split` cuts the text apart and nothing else: joining the parts with the separator gives the text back. */
  lemma {:induction false} SplitJoin(s: string, sep: string)
    requires sep != ""
    ensures Join(Split(s, sep), sep) == s
    decreases |s|
  {
    match IndexOf(s, sep)
    case None =>
    case Some(i) =>
      var rest := s[i + |sep|..];
      var parts := Split(s, sep);
      SplitJoin(rest, sep);
      assert parts[1..] == Split(rest, sep);
      calc {
        Join(parts, sep);
        parts[0] + sep + Join(parts[1..], sep);
        s[..i] + s[i..i + |sep|] + rest;
        { assert s == s[..i] + s[i..i + |sep|] + s[i + |sep|..]; }
        s;
      }
  }

  /** `split` cuts at every occurrence, leftmost first: no part holds the separator. */
  lemma {:induction false} SplitParts(s: string, sep: string)
    requires sep != ""
    ensures forall k :: 0 <= k < |Split(s, sep)| ==> !Contains(Split(s, sep)[k], sep)
    decreases |s|
  {
    match IndexOf(s, sep)
    case None =>
    case Some(i) =>
      var rest := s[i + |sep|..];
      var parts := Split(s, sep);
      SplitParts(rest, sep);
      BeforeFirst(s, sep, i);
      assert parts[0] == s[..i];
      forall k | 1 <= k < |parts|
        ensures !Contains(parts[k], sep)
      {
        assert parts[k] == Split(rest, sep)[k - 1];
      }
  }

  /** The text before the first occurrence holds no occurrence. */
  lemma BeforeFirst(s: string, sep: string, i: nat)
    requires sep != "" && i <= |s|
    requires forall j: nat :: j < i ==> !OccursAt(s, sep, j)
    ensures !Contains(s[..i], sep)
  {
    forall j: nat | j <= i && OccursAt(s[..i], sep, j)
      ensures false
    {
      assert s[..i][j..j + |sep|] == s[j..j + |sep|];
      assert OccursAt(s, sep, j);
    }
  }

  /** Concatenation regroups freely. */
  lemma {:induction false} AppendAssoc<T>(a: seq<T>, b: seq<T>, c: seq<T>)
    ensures (a + b) + c == a + (b + c)
  {
    assert forall k :: 0 <= k < |a| + |b| + |c| ==> ((a + b) + c)[k] == (a + (b + c))[k];
  }
}
