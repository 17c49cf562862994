/** TOML integers in bases 2, 8, 10 and 16: what a literal means, the conversion of its digits with
    64-bit arithmetic, and the formatter. */
module TomlInteger {
  import opened TomlChars

  datatype Base = Bin | Oct | Dec | Hex

  const I64_MAX: int := 0x7FFF_FFFF_FFFF_FFFF
  const I64_MIN: int := -0x8000_0000_0000_0000
  const U64: nat := 0x1_0000_0000_0000_0000
  /** How many digits the parser has room for. */
  const DIGIT_LIMIT: nat := 128
  const UNDERSCORE: nat := 0x5F
  const PLUS: nat := 0x2B
  const MINUS: nat := 0x2D
  const ZERO: nat := 0x30

  function Radix(b: Base): nat { match b case Bin => 2 case Oct => 8 case Dec => 10 case Hex => 16 }

  /** Most significant digits a 64-bit value can have, as the traits of each base say. */
  function MaxDigits(b: Base): nat { match b case Bin => 63 case Oct => 21 case Dec => 19 case Hex => 16 }

  /** 'b', 'o' and 'x'; decimal integers have no prefix. */
  function PrefixChar(b: Base): nat { match b case Bin => 0x62 case Oct => 0x6F case Hex => 0x78 case Dec => 0 }

  predicate IsDigit(b: Base, c: nat) {
    match b
    case Bin => 0x30 <= c <= 0x31
    case Oct => 0x30 <= c <= 0x37
    case Dec => IsDecimal(c)
    case Hex => IsHex(c)
  }

  function DigitValue(b: Base, c: nat): (d: nat)
    requires IsDigit(b, c)
    ensures d < Radix(b)
  {
    HexValue(c)
  }

  // ---------------------------------------------------------------------------------------------
  // What an integer literal means.

  function TokenLen(s: seq<nat>): (n: nat)
    ensures n <= |s| && (n < |s| ==> IsTerminator(s[n])) && forall i :: 0 <= i < n ==> !IsTerminator(s[i])
  {
    if s == [] || IsTerminator(s[0]) then 0 else 1 + TokenLen(s[1..])
  }

  /** Digits with single underscores between digits ('Integer' section of TOML v1.0.0). */
  ghost predicate Legal(b: Base, t: seq<nat>) {
    && t != [] && IsDigit(b, t[0]) && IsDigit(b, t[|t| - 1])
    && (forall i :: 0 <= i < |t| ==> IsDigit(b, t[i]) || t[i] == UNDERSCORE)
    && (forall i :: 0 < i < |t| ==> IsDigit(b, t[i - 1]) || IsDigit(b, t[i]))
  }

  function Strip(t: seq<nat>): seq<nat> {
    if t == [] then [] else Strip(t[..|t| - 1]) + (if t[|t| - 1] == UNDERSCORE then [] else [t[|t| - 1]])
  }

  predicate AllDigits(b: Base, ds: seq<nat>) { forall i :: 0 <= i < |ds| ==> IsDigit(b, ds[i]) }

  function Pow(r: nat, k: nat): nat { if k == 0 then 1 else r * Pow(r, k - 1) }

  /** Positional notation, most significant digit first. */
  function Value(b: Base, ds: seq<nat>): nat
    requires AllDigits(b, ds)
  {
    if ds == [] then 0 else DigitValue(b, ds[0]) * Pow(Radix(b), |ds| - 1) + Value(b, ds[1..])
  }

  /** The value of a digit string with a sign, if it fits in 64 bits. Decimal integers have no leading
      zero; the others may have any number of them ('Integer' section of TOML v1.0.0). */
  function Meaning(b: Base, ds: seq<nat>, negative: bool): Result<int>
    requires AllDigits(b, ds)
  {
    var v: int := if negative then -(Value(b, ds) as int) else Value(b, ds);
    if b == Dec && |ds| > 1 && ds[0] == ZERO then Err
    else if I64_MIN <= v <= I64_MAX then Ok(v) else Err
  }

  /** The characters up to the first terminator. */
  function Token(s: seq<nat>): (t: seq<nat>)
    ensures |t| == TokenLen(s)
  {
    s[..TokenLen(s)]
  }

  ghost function DigitsMeaning(b: Base, t: seq<nat>, negative: bool): Result<int> {
    if Legal(b, t) then
      StripDigits(b, t);
      Meaning(b, Strip(t), negative)
    else Err
  }

  /** The meaning of a whole literal: sign or prefix, then digits and underscores up to a terminator. */
  ghost function Literal(b: Base, s: seq<nat>): Result<int> {
    if b == Dec then
      if s != [] && (s[0] == PLUS || s[0] == MINUS) then DigitsMeaning(b, Token(s[1..]), s[0] == MINUS)
      else DigitsMeaning(b, Token(s), false)
    else if |s| >= 2 && s[0] == ZERO && s[1] == PrefixChar(b) then DigitsMeaning(b, Token(s[2..]), false)
    else Err
  }

  lemma {:induction false} StripDigits(b: Base, t: seq<nat>)
    requires forall i :: 0 <= i < |t| ==> IsDigit(b, t[i]) || t[i] == UNDERSCORE
    ensures AllDigits(b, Strip(t))
  {
    if t != [] {
      StripDigits(b, t[..|t| - 1]);
    }
  }

  lemma {:induction false} StripGrows(t: seq<nat>, k: nat)
    requires k <= |t|
    ensures |Strip(t[..k])| <= |Strip(t)|
    decreases |t| - k
  {
    if k < |t| {
      assert t[..k + 1][..k] == t[..k];
      StripGrows(t, k + 1);
    } else {
      assert t[..k] == t;
    }
  }

  // ---------------------------------------------------------------------------------------------
  // Arithmetic.

  lemma {:induction false} ValueBound(b: Base, ds: seq<nat>)
    requires AllDigits(b, ds)
    ensures Value(b, ds) < Pow(Radix(b), |ds|)
  {
    hide DigitValue, IsDigit;
    if ds != [] {
      ValueBound(b, ds[1..]);
      var d, p := DigitValue(b, ds[0]), Pow(Radix(b), |ds| - 1);
      Scale(d, Radix(b) - 1, p);
    }
  }

  lemma Scale(d: nat, e: nat, p: nat)
    requires d <= e
    ensures d * p <= e * p
  {
  }

  lemma {:induction false} PowGrows(r: nat, j: nat, k: nat)
    requires r > 0 && j <= k
    ensures 0 < Pow(r, j) <= Pow(r, k)
    decreases k
  {
    if k > 0 {
      if j == k {
        PowGrows(r, j - 1, k - 1);
      } else {
        PowGrows(r, j, k - 1);
      }
    }
  }

  /** The limits in the traits are those of 64-bit values. */
  lemma MaxDigitsRight(b: Base)
    ensures I64_MAX < Pow(Radix(b), MaxDigits(b)) <= U64
    ensures b == Dec ==> -I64_MIN < Pow(10, 19)
  {
    match b
    case Bin =>
      PowTwo();
    case Oct =>
      PowAdd(8, 7, 7);
      PowAdd(8, 14, 7);
      assert Pow(8, 7) == 2097152 by { assert Pow(8, 3) == 512; assert Pow(8, 5) == 32768; }
    case Dec =>
      PowAdd(10, 9, 9);
      PowAdd(10, 18, 1);
      assert Pow(10, 9) == 1000000000 by {
        assert Pow(10, 3) == 1000;
        assert Pow(10, 5) == 100000;
        assert Pow(10, 7) == 10000000;
      }
    case Hex =>
      PowAdd(16, 8, 8);
      assert Pow(16, 8) == 0x1_0000_0000 by {
        assert Pow(16, 2) == 256;
        assert Pow(16, 4) == 65536;
        assert Pow(16, 6) == 0x100_0000;
      }
  }

  lemma PowTwo()
    ensures Pow(2, 63) == 0x8000_0000_0000_0000
  {
    PowAdd(2, 7, 7);
    PowAdd(2, 14, 7);
    PowAdd(2, 21, 21);
    PowAdd(2, 42, 21);
    assert Pow(2, 7) == 128 by { assert Pow(2, 3) == 8; assert Pow(2, 5) == 32; }
  }

  lemma {:induction false} PowAdd(r: nat, j: nat, k: nat)
    ensures Pow(r, j + k) == Pow(r, j) * Pow(r, k)
    decreases k
  {
    if k > 0 {
      PowAdd(r, j, k - 1);
      assert Pow(r, j + k) == r * Pow(r, j + k - 1) && Pow(r, k) == r * Pow(r, k - 1);
      hide Pow;
      Exchange(r, Pow(r, j), Pow(r, k - 1));
    }
  }

  lemma Exchange(r: nat, p: nat, q: nat)
    ensures r * (p * q) == p * (r * q)
  {
    assert r * (p * q) == (r * p) * q;
  }

  // ---------------------------------------------------------------------------------------------
  // From digits to a number.

  lemma DigitNoTerminator(b: Base, c: nat)
    requires IsDigit(b, c)
    ensures !IsTerminator(c)
  {
  }

  lemma {:induction false} StripStep(t: seq<nat>, i: nat)
    requires i < |t|
    ensures Strip(t[..i + 1]) == Strip(t[..i]) + (if t[i] == UNDERSCORE then [] else [t[i]])
  {
    assert t[..i + 1][..i] == t[..i];
  }

  /** Drops leading zeroes. */
  method TrimZeroes(b: Base, digits: seq<nat>) returns (k: nat)
    requires AllDigits(b, digits)
    ensures k <= |digits| && (k < |digits| ==> digits[k] != ZERO)
    ensures Value(b, digits) == Value(b, digits[k..])
  {
    k := 0;
    assert digits[0..] == digits;
    while k < |digits| && digits[k] == ZERO
      invariant k <= |digits| && Value(b, digits) == Value(b, digits[k..])
    {
      assert digits[k..][1..] == digits[k + 1..];
      k := k + 1;
    }
  }

  /** Unsigned 64-bit arithmetic. */
  function AddU64(x: nat, y: nat): nat { (x + y) % U64 }

  function MulU64(x: nat, y: nat): nat { x * y % U64 }

  /** The multiply-and-add loop in unsigned 64-bit arithmetic, least significant digit first. */
  method Accumulate(b: Base, ds: seq<nat>) returns (result: nat)
    requires AllDigits(b, ds) && |ds| <= MaxDigits(b)
    ensures result == Value(b, ds) < U64
  {
    result := 0;
    var power: nat := 1;
    var end: nat := |ds|;
    assert ds[end..] == [] && Value(b, []) == 0 && Pow(Radix(b), 0) == 1;
    hide DigitValue, IsDigit, Value, Pow, AddU64, MulU64, Radix, MaxDigits;
    while end > 0
      invariant end <= |ds| && result == Value(b, ds[end..]) < U64
      invariant power == Pow(Radix(b), |ds| - end) % U64
    {
      AccumulateStep(b, ds[end - 1..], result, power);
      assert ds[end - 1..][1..] == ds[end..];
      end := end - 1;
      result := AddU64(result, MulU64(power, DigitValue(b, ds[end])));
      power := MulU64(power, Radix(b));
    }
    assert ds[0..] == ds;
  }

  lemma {:induction false} AccumulateStep(b: Base, ds: seq<nat>, result: nat, power: nat)
    requires AllDigits(b, ds) && 0 < |ds| <= MaxDigits(b)
    requires result == Value(b, ds[1..]) && power == Pow(Radix(b), |ds| - 1) % U64
    ensures AddU64(result, MulU64(power, DigitValue(b, ds[0]))) == Value(b, ds) < U64
    ensures MulU64(power, Radix(b)) == Pow(Radix(b), |ds|) % U64
  {
    hide DigitValue, IsDigit, Value, Pow, AddU64, MulU64, Radix, MaxDigits;
    AddDigit(b, ds);
    PowMod(Radix(b), |ds| - 1);
    var p, d := Pow(Radix(b), |ds| - 1), DigitValue(b, ds[0]);
    SmallStays(p);
    MulSmall(p, d);
    AddSmall(result, p * d);
  }

  lemma SmallStays(x: nat)
    requires x < U64
    ensures x % U64 == x
  {
  }

  lemma MulSmall(x: nat, y: nat)
    requires x * y < U64
    ensures MulU64(x, y) == x * y
  {
  }

  lemma AddSmall(x: nat, y: nat)
    requires x + y < U64
    ensures AddU64(x, y) == x + y
  {
  }

  /** As long as the digits fit, nothing wraps but the last power. */
  lemma {:induction false} AddDigit(b: Base, ds: seq<nat>)
    requires AllDigits(b, ds) && 0 < |ds| <= MaxDigits(b)
    ensures var p := Pow(Radix(b), |ds| - 1);
            && p < U64 && p * DigitValue(b, ds[0]) < U64 && Value(b, ds) < U64
            && Value(b, ds) == p * DigitValue(b, ds[0]) + Value(b, ds[1..])
  {
    hide DigitValue, IsDigit;
    MaxDigitsRight(b);
    ValueBound(b, ds);
    PowGrows(Radix(b), |ds|, MaxDigits(b));
    PowGrows(Radix(b), |ds| - 1, |ds|);
    var p, d := Pow(Radix(b), |ds| - 1), DigitValue(b, ds[0]);
    assert Pow(Radix(b), |ds|) == Radix(b) * p;
    Scale(2, Radix(b), p);
    Swap(p, d);
  }

  lemma Swap(p: nat, d: nat)
    ensures p * d == d * p
  {
  }

  lemma {:induction false} PowMod(r: nat, k: nat)
    ensures MulU64(Pow(r, k) % U64, r) == Pow(r, k + 1) % U64
  {
    var p := Pow(r, k);
    var q, m := p / U64, p % U64;
    assert p == U64 * q + m;
    assert r * p == U64 * (r * q) + m * r;
    ModDrop(r * q, m * r);
  }

  lemma ModDrop(q: nat, m: nat)
    ensures (U64 * q + m) % U64 == m % U64
  {
  }

  /** From digits to the 64-bit result. */
  method ToInteger(b: Base, digits: seq<nat>, negative: bool) returns (r: Result<int>)
    requires AllDigits(b, digits) && 0 < |digits| <= DIGIT_LIMIT && (negative ==> b == Dec)
    ensures r == Meaning(b, digits, negative)
  {
    if |digits| == 1 {
      SingleDigit(b, digits);
      var v: int := DigitValue(b, digits[0]);
      return Ok(if negative then -v else v);
    }
    var msd := 0;
    if b != Dec {
      msd := TrimZeroes(b, digits);
      if msd == |digits| {
        return Ok(0);
      }
    } else if digits[0] == ZERO {
      return Err;
    }
    var ds := digits[msd..];
    assert msd == 0 ==> ds == digits;
    if |ds| > MaxDigits(b) {
      TooManyDigits(b, ds);
      return Err;
    }
    var result := Accumulate(b, ds);
    if result > I64_MAX + (if negative then 1 else 0) {
      return Err;
    }
    if negative && result == I64_MAX + 1 {
      return Ok(I64_MIN);
    }
    var v: int := result;
    r := Ok(if negative then -v else v);
  }

  lemma SingleDigit(b: Base, ds: seq<nat>)
    requires AllDigits(b, ds) && |ds| == 1
    ensures Value(b, ds) == DigitValue(b, ds[0]) < 16
  {
    assert ds[1..] == [] && Pow(Radix(b), 0) == 1;
    assert Value(b, ds) == DigitValue(b, ds[0]) * 1 + 0;
  }

  lemma {:induction false} TooManyDigits(b: Base, ds: seq<nat>)
    requires AllDigits(b, ds) && |ds| > MaxDigits(b) && ds[0] != ZERO
    ensures Value(b, ds) > I64_MAX && (b == Dec ==> Value(b, ds) > -I64_MIN)
  {
    MaxDigitsRight(b);
    PowGrows(Radix(b), MaxDigits(b), |ds| - 1);
    Scale(1, DigitValue(b, ds[0]), Pow(Radix(b), |ds| - 1));
  }

  // ---------------------------------------------------------------------------------------------
  // The formatter.

  /** std::to_chars in the given base, in upper case. */
  function ToDigits(b: Base, v: nat): seq<nat> {
    if v < Radix(b) then [DigitChar(v)] else ToDigits(b, v / Radix(b)) + [DigitChar(v % Radix(b))]
  }

  /** The base a value is printed in: the one it is flagged with, if the formatter allows that base
      and the value is not negative. */
  function PrintedBase(fmt: Base, allowed: set<Base>, v: int): Base {
    if v >= 0 && fmt in allowed then fmt else Dec
  }

  function PrintInteger(fmt: Base, allowed: set<Base>, v: int): seq<nat> {
    var b := PrintedBase(fmt, allowed, v);
    if b != Dec then [ZERO, PrefixChar(b)] + ToDigits(b, v)
    else if v < 0 then [MINUS] + ToDigits(Dec, -v)
    else ToDigits(Dec, v)
  }

  lemma {:induction false} ValueAppend(b: Base, ds: seq<nat>, c: nat)
    requires AllDigits(b, ds) && IsDigit(b, c)
    ensures AllDigits(b, ds + [c]) && Value(b, ds + [c]) == Value(b, ds) * Radix(b) + DigitValue(b, c)
  {
    hide DigitValue, IsDigit;
    if ds == [] {
      SingleDigit(b, [c]);
      assert ds + [c] == [c];
    } else {
      var r, d, p, v := Radix(b), DigitValue(b, ds[0]), Pow(Radix(b), |ds| - 1), Value(b, ds[1..]);
      assert (ds + [c])[1..] == ds[1..] + [c];
      ValueAppend(b, ds[1..], c);
      assert Pow(r, |ds|) == r * p;
      assert d * (r * p) + (v * r + DigitValue(b, c)) == (d * p + v) * r + DigitValue(b, c) by {
        Distribute(d, r, p, v);
      }
    }
  }

  lemma Distribute(d: nat, r: nat, p: nat, v: nat)
    ensures d * (r * p) + v * r == (d * p + v) * r
  {
    assert d * (r * p) == d * p * r;
  }

  /** The printed digits are digits of the base, have the value printed, and no leading zero. */
  lemma {:induction false} DigitsHaveValue(b: Base, v: nat)
    ensures var ds := ToDigits(b, v);
            && ds != [] && AllDigits(b, ds) && Value(b, ds) == v
            && (|ds| > 1 ==> ds[0] != ZERO)
  {
    if v < Radix(b) {
      DigitOk(b, v);
      SingleDigit(b, [DigitChar(v)]);
    } else {
      var q, m := v / Radix(b), v % Radix(b);
      DigitsHaveValue(b, q);
      DigitOk(b, m);
      ValueAppend(b, ToDigits(b, q), DigitChar(m));
      if |ToDigits(b, q)| == 1 && ToDigits(b, q)[0] == ZERO {
        SingleDigit(b, ToDigits(b, q));
      }
    }
  }

  lemma DigitOk(b: Base, d: nat)
    requires d < Radix(b)
    ensures IsDigit(b, DigitChar(d)) && DigitValue(b, DigitChar(d)) == d
  {
  }

  lemma {:induction false} DigitsAreLegal(b: Base, ds: seq<nat>, rest: seq<nat>)
    requires ds != [] && AllDigits(b, ds) && (rest == [] || IsTerminator(rest[0]))
    ensures Token(ds + rest) == ds && Legal(b, ds) && Strip(ds) == ds
  {
    TokenOfDigits(b, ds, rest);
    assert (ds + rest)[..|ds|] == ds;
    StripOfDigits(b, ds);
  }

  lemma {:induction false} TokenOfDigits(b: Base, ds: seq<nat>, rest: seq<nat>)
    requires AllDigits(b, ds) && (rest == [] || IsTerminator(rest[0]))
    ensures TokenLen(ds + rest) == |ds|
  {
    if ds != [] {
      DigitNoTerminator(b, ds[0]);
      assert (ds + rest)[1..] == ds[1..] + rest;
      TokenOfDigits(b, ds[1..], rest);
    }
  }

  lemma {:induction false} StripOfDigits(b: Base, ds: seq<nat>)
    requires AllDigits(b, ds)
    ensures Strip(ds) == ds
  {
    if ds != [] {
      StripOfDigits(b, ds[..|ds| - 1]);
      assert ds[..|ds| - 1] + [ds[|ds| - 1]] == ds;
    }
  }

  lemma {:induction false} PrintedDigits(b: Base, n: nat, negative: bool, rest: seq<nat>)
    requires n <= I64_MAX + (if negative then 1 else 0) && (negative ==> b == Dec)
    requires rest == [] || IsTerminator(rest[0])
    ensures DigitsMeaning(b, Token(ToDigits(b, n) + rest), negative) == Ok(if negative then -(n as int) else n)
  {
    hide Legal, Strip, Value, IsDigit, ToDigits, Token;
    var ds := ToDigits(b, n);
    DigitsHaveValue(b, n);
    DigitsAreLegal(b, ds, rest);
    if |ds| > MaxDigits(b) {
      TooManyDigits(b, ds);
    }
  }

  lemma FirstDigit(v: nat)
    ensures ToDigits(Dec, v) != [] && ToDigits(Dec, v)[0] != PLUS && ToDigits(Dec, v)[0] != MINUS
  {
    DigitsHaveValue(Dec, v);
  }

  /** Printing any 64-bit integer in any base the formatter uses and parsing it again, with whatever
      may follow a value, gives the integer back; also the smallest one. */
  lemma {:induction false} PrintThenParse(fmt: Base, allowed: set<Base>, v: int, rest: seq<nat>)
    requires I64_MIN <= v <= I64_MAX && (rest == [] || IsTerminator(rest[0]))
    ensures Literal(PrintedBase(fmt, allowed, v), PrintInteger(fmt, allowed, v) + rest) == Ok(v)
  {
    hide ToDigits, DigitsMeaning, Literal;
    var b := PrintedBase(fmt, allowed, v);
    if b != Dec {
      var ds := ToDigits(b, v);
      PrintedDigits(b, v, false, rest);
      LiteralPrefixed(b, ds + rest);
      assert [ZERO, PrefixChar(b)] + ds + rest == [ZERO, PrefixChar(b)] + (ds + rest);
    } else if v < 0 {
      var ds := ToDigits(Dec, -v);
      PrintedDigits(Dec, -v, true, rest);
      LiteralNegative(ds + rest);
      assert [MINUS] + ds + rest == [MINUS] + (ds + rest);
    } else {
      FirstDigit(v);
      PrintedDigits(Dec, v, false, rest);
      LiteralPlain(ToDigits(Dec, v) + rest);
    }
  }

  lemma LiteralPrefixed(b: Base, s: seq<nat>)
    requires b != Dec
    ensures Literal(b, [ZERO, PrefixChar(b)] + s) == DigitsMeaning(b, Token(s), false)
  {
    assert ([ZERO, PrefixChar(b)] + s)[2..] == s;
  }

  lemma LiteralNegative(s: seq<nat>)
    ensures Literal(Dec, [MINUS] + s) == DigitsMeaning(Dec, Token(s), true)
  {
    assert ([MINUS] + s)[1..] == s;
  }

  lemma LiteralPlain(s: seq<nat>)
    requires s != [] && s[0] != PLUS && s[0] != MINUS
    ensures Literal(Dec, s) == DigitsMeaning(Dec, Token(s), false)
  {
  }
}
