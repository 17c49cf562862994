/** Keys of a TOML document: what the formatter prints for a key, bare, literal or escaped, and what
    the parser reads back. Texts are sequences of code points. */
module TomlKey {
  import opened TomlChars
  import Num = TomlInteger
  import U = Utf8

  const QUOTE: nat := 0x22
  const APOSTROPHE: nat := 0x27
  const BACKSLASH: nat := 0x5C
  const DOT: nat := 0x2E
  const MAX_DEPTH: nat := 1024

  predicate IsDelimiter(c: nat) { c == QUOTE || c == APOSTROPHE }

  predicate IsSurrogate(c: nat) { 0xD800 <= c <= 0xDFFF }

  /** What has been read of a string or key, and the text after it. */
  type Read = Result<(seq<nat>, seq<nat>)>

  function Push(c: nat, r: Read): Read {
    if r.Ok? then Ok(([c] + r.value.0, r.value.1)) else Err
  }

  // ---------------------------------------------------------------------------------------------
  // The parser.

  predicate Forbidden(c: nat) { IsNonTabControl(c) || IsSurrogate(c) }

  /** parse_literal_string on one line, after the opening apostrophe. */
  function LiteralString(s: seq<nat>): (r: Read)
    ensures r.Ok? ==> |r.value.1| < |s|
  {
    if s == [] then Err
    else if s[0] == APOSTROPHE then Ok(([], s[1..]))
    else if Forbidden(s[0]) then Err
    else Push(s[0], LiteralString(s[1..]))
  }

  /** The hexadecimal digits of an escape: exactly `n` of them, naming a scalar value. */
  function ScalarEscape(s: seq<nat>, n: nat): (r: Result<(nat, seq<nat>)>)
    ensures r.Ok? ==> U.IsScalar(r.value.0) && |r.value.1| <= |s|
  {
    if |s| < n || !Num.AllDigits(Num.Hex, s[..n]) then Err
    else
      var v := Num.Value(Num.Hex, s[..n]);
      if IsSurrogate(v) || v > 0x10FFFF then Err else Ok((v, s[n..]))
  }

  /** After a backslash. */
  function EscapeAt(s: seq<nat>): (r: Result<(nat, seq<nat>)>)
    ensures r.Ok? ==> U.IsScalar(r.value.0) && |r.value.1| <= |s|
  {
    if s == [] then Err
    else
      match s[0]
      case 0x62 => Ok((0x08, s[1..]))
      case 0x66 => Ok((0x0C, s[1..]))
      case 0x6E => Ok((0x0A, s[1..]))
      case 0x72 => Ok((0x0D, s[1..]))
      case 0x74 => Ok((0x09, s[1..]))
      case 0x22 => Ok((0x22, s[1..]))
      case 0x5C => Ok((0x5C, s[1..]))
      case 0x75 => ScalarEscape(s[1..], 4)
      case 0x55 => ScalarEscape(s[1..], 8)
      case _ => Err
  }

  /** parse_basic_string on one line, after the opening quote. */
  function BasicString(s: seq<nat>): (r: Read)
    ensures r.Ok? ==> |r.value.1| < |s|
    decreases |s|
  {
    if s == [] then Err
    else if s[0] == QUOTE then Ok(([], s[1..]))
    else if s[0] == BACKSLASH then
      (match EscapeAt(s[1..])
       case Err => Err
       case Ok((v, rest)) => Push(v, BasicString(rest)))
    else if Forbidden(s[0]) then Err
    else Push(s[0], BasicString(s[1..]))
  }

  /** parse_string as parse_key uses it, from the delimiter on: three equal delimiters would open a
      multi-line string, which is not a key. */
  function QuotedKey(s: seq<nat>): (r: Read)
    requires s != [] && IsDelimiter(s[0])
    ensures r.Ok? ==> |r.value.1| < |s|
  {
    if |s| == 1 then Err
    else if |s| == 2 then (if s[1] == s[0] then Ok(([], [])) else Err)
    else if s[0] == s[1] == s[2] then Err
    else if s[0] == APOSTROPHE then LiteralString(s[1..])
    else BasicString(s[1..])
  }

  function BareLen(s: seq<nat>): (n: nat)
    ensures n <= |s| && (n < |s| ==> !IsBare(s[n])) && forall i :: 0 <= i < n ==> IsBare(s[i])
  {
    if s == [] || !IsBare(s[0]) then 0 else 1 + BareLen(s[1..])
  }

  function Segment(s: seq<nat>): (r: Read)
    ensures r.Ok? ==> |r.value.1| < |s|
  {
    if s == [] then Err
    else if IsBare(s[0]) then Ok((s[..BareLen(s)], s[BareLen(s)..]))
    else if IsDelimiter(s[0]) then QuotedKey(s)
    else Err
  }

  /** consume_leading_whitespace: blanks other than space and tab are an error. */
  function SkipBlanks(s: seq<nat>): (r: Result<seq<nat>>)
    ensures r.Ok? ==> |r.value| <= |s|
  {
    if s == [] || !IsHorizontal(s[0]) then Ok(s)
    else if !IsAsciiHorizontal(s[0]) then Err
    else SkipBlanks(s[1..])
  }

  /** parse_key: dotted segments, `depth` of them read already. */
  function KeyPath(s: seq<nat>, depth: nat): Result<(seq<seq<nat>>, seq<nat>)>
    decreases |s|
  {
    match Segment(s)
    case Err => Err
    case Ok((k, t)) =>
      match SkipBlanks(t)
      case Err => Err
      case Ok(u) =>
        if depth + 1 > MAX_DEPTH then Err
        else if u == [] || u[0] != DOT then Ok(([k], u))
        else
          match SkipBlanks(u[1..])
          case Err => Err
          case Ok(w) =>
            match KeyPath(w, depth + 1)
            case Err => Err
            case Ok((ks, rest)) => Ok(([k] + ks, rest))
  }

  // ---------------------------------------------------------------------------------------------
  // The formatter, for a key given by its scalar values.

  /** The format flags that matter for keys. */
  datatype Flags = Flags(literalStrings: bool, unicodeStrings: bool)

  predicate AllBare(vs: seq<nat>) { forall i :: 0 <= i < |vs| ==> IsBare(vs[i]) }

  predicate PlainInLiteral(flags: Flags, v: nat) {
    !IsControl(v) && !IsNonAsciiVertical(v) && v != APOSTROPHE && (v > 0x7F ==> flags.unicodeStrings)
  }

  predicate LiteralWorks(flags: Flags, vs: seq<nat>) {
    flags.literalStrings && forall i :: 0 <= i < |vs| ==> PlainInLiteral(flags, vs[i])
  }

  /** Hexadecimal digits, padded with zeroes to `n`. */
  function Padded(v: nat, n: nat): seq<nat> {
    var ds := Num.ToDigits(Num.Hex, v);
    seq(if |ds| < n then n - |ds| else 0, _ => 0x30) + ds
  }

  /** The table of control character escapes. */
  function ControlEscape(v: nat): seq<nat> {
    match v
    case 0x08 => [BACKSLASH, 0x62]
    case 0x09 => [BACKSLASH, 0x74]
    case 0x0A => [BACKSLASH, 0x6E]
    case 0x0C => [BACKSLASH, 0x66]
    case 0x0D => [BACKSLASH, 0x72]
    case _ => [BACKSLASH, 0x75] + Padded(v, 4)
  }

  function Escape(flags: Flags, v: nat): seq<nat> {
    if v == QUOTE || v == BACKSLASH then [BACKSLASH, v]
    else if IsControl(v) then ControlEscape(v)
    else if v > 0x7F && (!flags.unicodeStrings || IsNonAsciiVertical(v)) then
      (if v > 0xFFFF then [BACKSLASH, 0x55] + Padded(v, 8) else [BACKSLASH, 0x75] + Padded(v, 4))
    else [v]
  }

  function EscapeAll(flags: Flags, vs: seq<nat>): seq<nat> {
    if vs == [] then [] else Escape(flags, vs[0]) + EscapeAll(flags, vs[1..])
  }

  function PrintKey(flags: Flags, vs: seq<nat>): seq<nat> {
    if vs == [] then (if flags.literalStrings then [APOSTROPHE, APOSTROPHE] else [QUOTE, QUOTE])
    else if AllBare(vs) then vs
    else if LiteralWorks(flags, vs) then [APOSTROPHE] + vs + [APOSTROPHE]
    else [QUOTE] + EscapeAll(flags, vs) + [QUOTE]
  }

  /** A key path as the formatter prints it in a table header. */
  function PrintKeys(flags: Flags, ks: seq<seq<nat>>): seq<nat> {
    if ks == [] then [] else if |ks| == 1 then PrintKey(flags, ks[0])
    else PrintKey(flags, ks[0]) + [DOT] + PrintKeys(flags, ks[1..])
  }

  // ---------------------------------------------------------------------------------------------
  // Escapes.

  lemma {:induction false} ZeroesKeepValue(n: nat, ds: seq<nat>)
    requires Num.AllDigits(Num.Hex, ds)
    ensures var s := seq(n, _ => 0x30) + ds;
            Num.AllDigits(Num.Hex, s) && Num.Value(Num.Hex, s) == Num.Value(Num.Hex, ds)
  {
    var s := seq(n, _ => 0x30) + ds;
    if n == 0 {
      assert s == ds;
    } else {
      ZeroesKeepValue(n - 1, ds);
      assert s[1..] == seq(n - 1, _ => 0x30) + ds;
    }
  }

  /** Values up to 16^n - 1 are printed with exactly n digits. */
  lemma {:induction false} PaddedHasValue(v: nat, n: nat)
    requires (n == 4 && v <= 0xFFFF) || (n == 8 && v <= 0xFFFF_FFFF)
    ensures var s := Padded(v, n);
            |s| == n && Num.AllDigits(Num.Hex, s) && Num.Value(Num.Hex, s) == v
  {
    var ds := Num.ToDigits(Num.Hex, v);
    Num.DigitsHaveValue(Num.Hex, v);
    ZeroesKeepValue(if |ds| < n then n - |ds| else 0, ds);
    if |ds| > n {
      Num.PowGrows(16, n, |ds| - 1);
      Num.Scale(1, Num.DigitValue(Num.Hex, ds[0]), Num.Pow(16, |ds| - 1));
      Hex48();
    }
  }

  lemma Hex48()
    ensures Num.Pow(16, 4) == 0x1_0000 && Num.Pow(16, 8) == 0x1_0000_0000
  {
    assert Num.Pow(16, 2) == 256;
    assert Num.Pow(16, 4) == 65536;
    assert Num.Pow(16, 6) == 0x100_0000;
  }

  lemma {:induction false} ScalarIsRead(v: nat, n: nat, rest: seq<nat>)
    requires U.IsScalar(v) && ((n == 4 && v <= 0xFFFF) || n == 8)
    ensures ScalarEscape(Padded(v, n) + rest, n) == Ok((v, rest))
  {
    PaddedHasValue(v, n);
    var s := Padded(v, n) + rest;
    assert s[..n] == Padded(v, n) && s[n..] == rest;
  }

  /** The parser reads one escape sequence for each that the formatter writes. */
  lemma {:induction false} EscapeIsRead(flags: Flags, v: nat, rest: seq<nat>)
    requires U.IsScalar(v)
    ensures BasicString(Escape(flags, v) + rest) == Push(v, BasicString(rest))
  {
    hide Padded, ScalarEscape;
    var e := Escape(flags, v);
    var s := e + rest;
    if e == [v] {
      assert s[1..] == rest;
    } else if |e| == 2 && e == [BACKSLASH, e[1]] && e[1] != 0x75 && e[1] != 0x55 {
      assert s[1..] == [e[1]] + rest;
      assert s[1..][1..] == rest;
    } else {
      var n := if v > 0xFFFF then 8 else 4;
      ScalarIsRead(v, n, rest);
      assert e == [BACKSLASH, e[1]] + Padded(v, n);
      assert s[1..][1..] == Padded(v, n) + rest;
    }
  }

  lemma {:induction false} EscapesAreRead(flags: Flags, vs: seq<nat>, rest: seq<nat>)
    requires U.AllScalar(vs)
    ensures BasicString(EscapeAll(flags, vs) + [QUOTE] + rest) == Ok((vs, rest))
  {
    hide Escape;
    if vs == [] {
      assert [] + [QUOTE] + rest == [QUOTE] + rest;
      assert ([QUOTE] + rest)[1..] == rest;
    } else {
      var e, t := Escape(flags, vs[0]), EscapeAll(flags, vs[1..]);
      EscapesAreRead(flags, vs[1..], rest);
      EscapeIsRead(flags, vs[0], t + [QUOTE] + rest);
      assert e + t + [QUOTE] + rest == e + (t + [QUOTE] + rest);
      assert [vs[0]] + vs[1..] == vs;
      hide BasicString;
    }
  }

  // ---------------------------------------------------------------------------------------------
  // Keys.

  /** Text that can follow a printed key. */
  predicate EndsKey(rest: seq<nat>) { rest == [] || (!IsBare(rest[0]) && !IsDelimiter(rest[0])) }

  lemma {:induction false} BareLenOf(k: seq<nat>, rest: seq<nat>)
    requires AllBare(k) && (rest == [] || !IsBare(rest[0]))
    ensures BareLen(k + rest) == |k|
  {
    if k == [] {
      assert k + rest == rest;
    } else {
      assert (k + rest)[1..] == k[1..] + rest;
      BareLenOf(k[1..], rest);
    }
  }

  lemma {:induction false} LiteralIsRead(flags: Flags, vs: seq<nat>, rest: seq<nat>)
    requires U.AllScalar(vs) && LiteralWorks(flags, vs)
    ensures LiteralString(vs + [APOSTROPHE] + rest) == Ok((vs, rest))
  {
    var s := vs + [APOSTROPHE] + rest;
    if vs == [] {
      assert s[1..] == rest;
    } else {
      assert s[1..] == vs[1..] + [APOSTROPHE] + rest;
      assert U.IsScalar(vs[0]) && PlainInLiteral(flags, vs[0]);
      LiteralIsRead(flags, vs[1..], rest);
      assert [vs[0]] + vs[1..] == vs;
    }
  }

  lemma EscapeStart(flags: Flags, v: nat)
    ensures Escape(flags, v) != [] && Escape(flags, v)[0] != QUOTE
  {
    hide Padded;
  }

  lemma {:induction false} EmptyIsRead(q: nat, rest: seq<nat>)
    requires IsDelimiter(q) && EndsKey(rest)
    ensures Segment([q, q] + rest) == Ok(([], rest))
  {
    var s := [q, q] + rest;
    assert s[1..] == [q] + rest;
    assert s[1..][1..] == rest;
  }

  lemma {:induction false} QuotedIsRead(flags: Flags, k: seq<nat>, rest: seq<nat>)
    requires U.AllScalar(k) && k != [] && !AllBare(k)
    ensures Segment(PrintKey(flags, k) + rest) == Ok((k, rest))
  {
    hide Escape;
    var s := PrintKey(flags, k) + rest;
    if LiteralWorks(flags, k) {
      LiteralIsRead(flags, k, rest);
      assert s[1..] == k + [APOSTROPHE] + rest;
      assert s[1] == k[0] != APOSTROPHE by { assert PlainInLiteral(flags, k[0]); }
    } else {
      EscapesAreRead(flags, k, rest);
      EscapeStart(flags, k[0]);
      var e := EscapeAll(flags, k);
      assert s[1..] == e + [QUOTE] + rest;
      assert s[1] == e[0] != QUOTE;
    }
  }

  /** Whatever the flags, a printed key is read back, up to the text that follows it. */
  lemma {:induction false} KeyIsRead(flags: Flags, k: seq<nat>, rest: seq<nat>)
    requires U.AllScalar(k) && EndsKey(rest)
    ensures Segment(PrintKey(flags, k) + rest) == Ok((k, rest))
  {
    if k == [] {
      EmptyIsRead(PrintKey(flags, k)[0], rest);
    } else if AllBare(k) {
      var s := k + rest;
      BareLenOf(k, rest);
      assert s[..|k|] == k && s[|k|..] == rest && s[0] == k[0];
      hide BareLen;
    } else {
      QuotedIsRead(flags, k, rest);
    }
  }

  lemma PrintedStart(flags: Flags, k: seq<nat>)
    ensures PrintKey(flags, k) != []
    ensures var c := PrintKey(flags, k)[0]; (IsBare(c) || IsDelimiter(c)) && !IsHorizontal(c)
  {
  }

  ghost predicate AllKeysScalar(ks: seq<seq<nat>>) { forall i :: 0 <= i < |ks| ==> U.AllScalar(ks[i]) }

  /** A printed key path is read back, with blanks after it skipped, exactly when it is not too deep. */
  lemma {:induction false} KeyPathIsRead(flags: Flags, ks: seq<seq<nat>>, rest: seq<nat>, depth: nat)
    requires ks != [] && AllKeysScalar(ks) && EndsKey(rest)
    requires SkipBlanks(rest).Ok? && (SkipBlanks(rest).value == [] || SkipBlanks(rest).value[0] != DOT)
    ensures KeyPath(PrintKeys(flags, ks) + rest, depth)
         == if depth + |ks| <= MAX_DEPTH then Ok((ks, SkipBlanks(rest).value)) else Err
    decreases |ks|
  {
    hide PrintKey, Segment, EndsKey;
    var k := ks[0];
    if |ks| == 1 {
      KeyIsRead(flags, k, rest);
      assert [k] == ks;
    } else {
      var more := PrintKeys(flags, ks[1..]);
      var after := [DOT] + (more + rest);
      assert PrintKey(flags, k) + [DOT] + more + rest == PrintKey(flags, k) + after;
      EndsAtDot(more + rest);
      KeyIsRead(flags, k, after);
      MoreStarts(flags, ks[1..], rest);
      assert after[1..] == more + rest;
      KeyPathIsRead(flags, ks[1..], rest, depth + 1);
      assert [k] + ks[1..] == ks;
    }
  }

  lemma EndsAtDot(s: seq<nat>)
    ensures EndsKey([DOT] + s) && SkipBlanks([DOT] + s) == Ok([DOT] + s)
  {
  }

  lemma {:induction false} MoreStarts(flags: Flags, ks: seq<seq<nat>>, rest: seq<nat>)
    requires ks != []
    ensures SkipBlanks(PrintKeys(flags, ks) + rest) == Ok(PrintKeys(flags, ks) + rest)
  {
    PrintedStart(flags, ks[0]);
    hide PrintKey;
    var s := PrintKeys(flags, ks) + rest;
    assert s[0] == PrintKey(flags, ks[0])[0];
  }

  /** Whatever text is parsed, the keys read consist of scalar values. */
  lemma {:induction false} ReadIsScalar(s: seq<nat>)
    requires U.AllScalar(s)
    ensures Segment(s).Ok? ==> U.AllScalar(Segment(s).value.0) && U.AllScalar(Segment(s).value.1)
  {
    if s != [] {
      LiteralIsScalar(s[1..]);
      BasicIsScalar(s[1..]);
    }
  }

  lemma {:induction false} LiteralIsScalar(s: seq<nat>)
    requires U.AllScalar(s)
    ensures var r := LiteralString(s); r.Ok? ==> U.AllScalar(r.value.0) && U.AllScalar(r.value.1)
  {
    if s != [] {
      LiteralIsScalar(s[1..]);
    }
  }

  lemma {:induction false} BasicIsScalar(s: seq<nat>)
    requires U.AllScalar(s)
    ensures var r := BasicString(s); r.Ok? ==> U.AllScalar(r.value.0) && U.AllScalar(r.value.1)
    decreases |s|
  {
    if s != [] && s[0] == BACKSLASH {
      var e := EscapeAt(s[1..]);
      if e.Ok? {
        EscapeRest(s[1..]);
        BasicIsScalar(e.value.1);
        hide EscapeAt;
      }
    } else if s != [] {
      BasicIsScalar(s[1..]);
    }
  }

  lemma EscapeRest(s: seq<nat>)
    requires U.AllScalar(s)
    ensures var e := EscapeAt(s); e.Ok? ==> U.AllScalar(e.value.1)
  {
  }
}
