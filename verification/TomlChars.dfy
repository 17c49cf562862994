/** Character classes of the TOML parser. Code points are natural numbers; the bit-mask tests of the
    source are written as the ranges they denote. */
module TomlChars {

  datatype Result<T> = Ok(value: T) | Err

  predicate IsAsciiHorizontal(c: nat) { c == 0x09 || c == 0x20 }

  predicate IsNonAsciiHorizontal(c: nat) {
    || c == 0xA0 || c == 0x1680 || c == 0x180E || 0x2000 <= c <= 0x200B || c == 0x202F
    || 0x205F <= c <= 0x2060 || c == 0x3000 || c == 0xFEFF
  }

  predicate IsHorizontal(c: nat) { IsAsciiHorizontal(c) || IsNonAsciiHorizontal(c) }

  predicate IsNonAsciiVertical(c: nat) { 0x2028 <= c <= 0x2029 || c == 0x85 }

  predicate IsVertical(c: nat) { 0x0A <= c <= 0x0D || IsNonAsciiVertical(c) }

  predicate IsTerminator(c: nat) {
    IsHorizontal(c) || IsVertical(c) || c == 0x5D || c == 0x7D || c == 0x2C || c == 0x23
  }

  predicate IsDecimal(c: nat) { 0x30 <= c <= 0x39 }

  predicate IsHex(c: nat) { IsDecimal(c) || 0x41 <= c <= 0x46 || 0x61 <= c <= 0x66 }

  /** hex_to_dec: the digit characters in either case. */
  function HexValue(c: nat): nat
    requires IsHex(c)
  {
    if c >= 0x61 then c - 0x57 else if c >= 0x41 then c - 0x37 else c - 0x30
  }

  /** The upper-case digit character. */
  function DigitChar(d: nat): (c: nat)
    requires d < 16
    ensures IsHex(c) && HexValue(c) == d && (d < 10 ==> IsDecimal(c))
  {
    if d < 10 then 0x30 + d else 0x37 + d
  }

  /** The code points of a text. */
  function Text(s: string): (t: seq<nat>)
    ensures |t| == |s| && forall i :: 0 <= i < |s| ==> t[i] == s[i] as int
  {
    seq(|s|, i requires 0 <= i < |s| => s[i] as int)
  }

  /** The digits in order, in upper and in lower case. */
  const UPPER := "0123456789ABCDEF"
  const LOWER := "0123456789abcdef"

  /** Each of these characters is a digit, and worth its place in its row; the formatter writes the
      upper one. */
  lemma DigitAt(d: nat)
    requires d < 16
    ensures IsHex(UPPER[d] as int) && HexValue(UPPER[d] as int) == d
    ensures IsHex(LOWER[d] as int) && HexValue(LOWER[d] as int) == d
    ensures DigitChar(d) == UPPER[d] as int
    ensures IsDecimal(LOWER[d] as int) <==> d < 10
  {
  }

  /** There are no other digits. */
  lemma DigitIs(c: nat)
    requires IsHex(c)
    ensures var d := HexValue(c); d < 16 && (c == UPPER[d] as int || c == LOWER[d] as int) && (IsDecimal(c) <==> d < 10)
  {
  }

  predicate IsBare(c: nat) {
    c == 0x2D || c == 0x5F || IsDecimal(c) || 0x41 <= c <= 0x5A || 0x61 <= c <= 0x7A
  }

  predicate IsControl(c: nat) { c <= 0x1F || c == 0x7F }

  predicate IsNonTabControl(c: nat) { IsControl(c) && c != 0x09 }
}
