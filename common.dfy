/**
 * Values shared by every part of the survey pipeline: optional values, the
 * cells of a loaded table, the permissive numeric coercion that turns a cell
 * into a number or "missing", decimal rendering of integers, and the few
 * string predicates (suffix, substring, ASCII lower-casing) the file-name
 * logic relies on.
 */
module Common {

  datatype Option<+T> = None | Some(value: T) {
    function GetOr(default: T): T {
      if Some? then value else default
    }
  }

  datatype Result<+T, +E> = Ok(value: T) | Err(error: E)

  /** A cell of a table as the CSV reader delivers it: a number, some text, or nothing. */
  datatype Cell = Num(v: real) | Text(s: string) | Empty

  // ---------------------------------------------------------------------------
  // Decimal digits

  predicate IsDigit(c: char) {
    '0' <= c <= '9'
  }

  predicate AllDigits(s: string) {
    forall i :: 0 <= i < |s| ==> IsDigit(s[i])
  }

  function DigitValue(c: char): nat
    requires IsDigit(c)
  {
    c as int - '0' as int
  }

  function DigitChar(d: nat): (c: char)
    requires d < 10
    ensures IsDigit(c) && DigitValue(c) == d
  {
    ('0' as int + d) as char
  }

  /** The value of a string of decimal digits, most significant first. */
  function DigitsValue(s: string): nat
    requires AllDigits(s)
  {
    if s == [] then 0 else 10 * DigitsValue(s[..|s| - 1]) + DigitValue(s[|s| - 1])
  }

  function Pow10(k: nat): (p: nat)
    ensures p >= 1
  {
    if k == 0 then 1 else 10 * Pow10(k - 1)
  }

  /** The decimal digits of a natural number, without leading zeros. */
  function NatDigits(n: nat): (s: string)
    ensures |s| >= 1 && AllDigits(s)
    ensures DigitsValue(s) == n
    ensures n > 0 ==> s[0] != '0'
  {
    if n < 10 then [DigitChar(n)]
    else
      var prefix := NatDigits(n / 10);
      var s := prefix + [DigitChar(n % 10)];
      assert s[..|s| - 1] == prefix;
      s
  }

  /** `str(n)` for an integer: an optional minus sign followed by the digits. */
  function Show(n: int): (s: string)
    ensures |s| >= 1
  {
    if n < 0 then "-" + NatDigits(-n) else NatDigits(n)
  }

  /** `str(n)` is a run of decimal digits, after a leading '-' when n is negative. */
  lemma ShowDigits(n: int)
    ensures forall i :: 0 <= i < |Show(n)| ==> IsDigit(Show(n)[i]) || (i == 0 && n < 0 && Show(n)[i] == '-')
    ensures n < 0 <==> Show(n)[0] == '-'
  {
    var digits := NatDigits(if n < 0 then -n else n);
    assert AllDigits(digits);
    if n < 0 {
      assert Show(n) == "-" + digits;
    }
  }

  // ---------------------------------------------------------------------------
  // Numeric coercion

  /** Position of the first '.' in `s`, or |s| when there is none. */
  function DotIndex(s: string): (i: nat)
    ensures i <= |s|
    ensures forall j :: 0 <= j < i ==> s[j] != '.'
    ensures i < |s| ==> s[i] == '.'
  {
    if s == [] then 0 else if s[0] == '.' then 0 else 1 + DotIndex(s[1..])
  }

  /**
   * An unsigned decimal numeral: digits, optionally followed by a point and
   * more digits, with at least one digit in all.
   */
  function ParseUnsigned(s: string): (r: Option<real>)
    ensures r.Some? ==> r.value >= 0.0
    ensures r.Some? <==> |s| > 0 && s != "." && (AllDigits(s) || (DotIndex(s) < |s| && AllDigits(s[..DotIndex(s)]) && AllDigits(s[DotIndex(s) + 1..])))
  {
    var d := DotIndex(s);
    if s == [] || s == "." then None
    else if d == |s| then
      if AllDigits(s) then Some(DigitsValue(s) as real) else None
    else
      var whole, frac := s[..d], s[d + 1..];
      if AllDigits(whole) && AllDigits(frac) then
        Some(DigitsValue(whole) as real + DigitsValue(frac) as real / Pow10(|frac|) as real)
      else None
  }

  /** A numeral with an optional leading sign. */
  function ParseNumber(s: string): (r: Option<real>)
    ensures |s| > 0 && s[0] == '-' ==> r == (match ParseUnsigned(s[1..]) case Some(x) => Some(-x) case None => None)
    ensures |s| > 0 && s[0] == '+' ==> r == ParseUnsigned(s[1..])
    ensures (|s| == 0 || (s[0] != '-' && s[0] != '+')) ==> r == ParseUnsigned(s)
  {
    if |s| > 0 && s[0] == '-' then
      match ParseUnsigned(s[1..])
      case Some(x) => Some(-x)
      case None => None
    else if |s| > 0 && s[0] == '+' then ParseUnsigned(s[1..])
    else ParseUnsigned(s)
  }

  /**
   * `pd.to_numeric(cell, errors='coerce')`: a number stays, a numeral is read,
   * anything else (and an empty cell) becomes missing.
   */
  function ToNumeric(c: Cell): (r: Option<real>)
    ensures c.Num? ==> r == Some(c.v)
    ensures c.Empty? ==> r == None
    ensures c.Text? ==> r == ParseNumber(c.s)
  {
    match c
    case Num(v) => Some(v)
    case Text(s) => ParseNumber(s)
    case Empty => None
  }

  /** The cell a coercing column assignment stores: the number, or NaN (an empty cell). */
  function Coerce(c: Cell): (r: Cell)
    ensures r.Num? || r.Empty?
    ensures ToNumeric(r) == ToNumeric(c)
  {
    match ToNumeric(c)
    case Some(v) => Num(v)
    case None => Empty
  }

  /** Reading back what `Show` renders gives the integer again. */
  lemma ParseShow(n: int)
    ensures ParseNumber(Show(n)) == Some(n as real)
  {
    var m: nat := if n < 0 then -n else n;
    var digits := NatDigits(m);
    assert ParseUnsigned(digits) == Some(m as real);
    if n < 0 {
      assert Show(n)[1..] == digits;
    }
  }

  // ---------------------------------------------------------------------------
  // Strings

  /** `s.lower()` on the letters A-Z; other characters are left as they are. */
  function Lower(s: string): (r: string)
    ensures |r| == |s|
    ensures forall i :: 0 <= i < |s| ==> r[i] == (if 'A' <= s[i] <= 'Z' then (s[i] as int + 32) as char else s[i])
  {
    if s == [] then [] else [if 'A' <= s[0] <= 'Z' then (s[0] as int + 32) as char else s[0]] + Lower(s[1..])
  }

  /** `s.endswith(suffix)` */
  predicate EndsWith(s: string, suffix: string) {
    |suffix| <= |s| && s[|s| - |suffix|..] == suffix
  }

  /** `needle` occurs in `s` starting at position `i`. */
  predicate OccursAt(s: string, needle: string, i: int) {
    0 <= i <= |s| - |needle| && s[i..i + |needle|] == needle
  }

  /** `needle in s` for strings */
  predicate Contains(s: string, needle: string) {
    exists i :: 0 <= i <= |s| - |needle| && OccursAt(s, needle, i)
  }
}
