/** Integers as the grammar of TOML v1.0.0 writes them, and what the parser makes of each. */
module TomlGrammar {
  import opened TomlChars
  import opened TomlInteger
  import L = TomlLiteral
  import T = TomlLiteralTheorems

  /** A digit of a literal: its value, its letter case, and whether an underscore stands before it. */
  datatype Digit = Digit(value: nat, upper: bool, apart: bool)

  /** What stands before the digits. */
  function Prefix(b: Base): string { match b case Bin => "0b" case Oct => "0o" case Hex => "0x" case Dec => "" }

  function Size(b: Base): nat { match b case Bin => 2 case Oct => 8 case Dec => 10 case Hex => 16 }

  /** Digits of the base, the first of them without an underscore. */
  ghost predicate Wellformed(b: Base, ds: seq<Digit>) {
    ds != [] && !ds[0].apart && forall i :: 0 <= i < |ds| ==> ds[i].value < Size(b)
  }

  function Char(d: Digit): nat
    requires d.value < 16
  {
    (if d.upper then UPPER else LOWER)[d.value] as int
  }

  function Mark(d: Digit): seq<nat>
    requires d.value < 16
  {
    (if d.apart then Text("_") else []) + [Char(d)]
  }

  function Spell(ds: seq<Digit>): seq<nat>
    requires forall i :: 0 <= i < |ds| ==> ds[i].value < 16
  {
    if ds == [] then [] else Spell(ds[..|ds| - 1]) + Mark(ds[|ds| - 1])
  }

  /** The number the digits stand for. */
  function Number(size: nat, ds: seq<Digit>): nat {
    if ds == [] then 0 else Number(size, ds[..|ds| - 1]) * size + ds[|ds| - 1].value
  }

  // ---------------------------------------------------------------------------------------------
  // Characters.

  lemma DigitIsDigit(b: Base, d: Digit)
    requires d.value < Size(b)
    ensures d.value < 16 && IsDigit(b, Char(d)) && DigitValue(b, Char(d)) == d.value && Radix(b) == Size(b)
    ensures Char(d) == ZERO <==> d.value == 0
  {
    DigitAt(d.value);
    if b == Bin || b == Oct {
      assert d.value < 8;
    }
  }

  /** Every digit character is a digit of the grammar. */
  lemma DigitFrom(b: Base, c: nat, apart: bool) returns (d: Digit)
    requires IsDigit(b, c)
    ensures d.value < Size(b) && d.apart == apart && Char(d) == c
  {
    DigitIs(c);
    d := Digit(HexValue(c), c == UPPER[HexValue(c)] as int, apart);
  }

  /** A sign and a prefix. */
  function Lead(b: Base, sign: string): seq<nat> { Text(sign + Prefix(b)) }

  lemma LeadIs(b: Base, sign: string)
    requires SignFits(b, sign)
    ensures Lead(b, sign)
         == if b != Dec then [ZERO, PrefixChar(b)]
            else if sign == "+" then [PLUS] else if sign == "-" then [MINUS] else []
  {
    assert sign + Prefix(b) == if b == Dec then sign else Prefix(b);
  }

  // ---------------------------------------------------------------------------------------------
  // Digits and underscores.

  /** The characters are legal, and their digits stand for the number. */
  ghost predicate Denotes(b: Base, t: seq<nat>, ds: seq<Digit>) {
    && ds != [] && Legal(b, t) && AllDigits(b, Strip(t)) && Value(b, Strip(t)) == Number(Size(b), ds)
    && |Strip(t)| == |ds| && (Strip(t)[0] == ZERO <==> ds[0].value == 0)
  }

  /** A well-formed row of digits is legal, and its digits have the number as their value. */
  lemma {:induction false} SpelledIsLegal(b: Base, ds: seq<Digit>)
    requires Wellformed(b, ds)
    ensures Denotes(b, Spell(ds), ds)
  {
    hide Denotes, Mark;
    var n := |ds| - 1;
    if n == 0 {
      assert ds[..0] == [] && ds == [ds[0]];
      FirstDenotes(b, ds[0]);
      assert Spell(ds) == [] + Mark(ds[0]) == Mark(ds[0]);
    } else {
      SpelledIsLegal(b, ds[..n]);
      NextDenotes(b, Spell(ds[..n]), ds[..n], ds[n]);
      assert ds[..n] + [ds[n]] == ds;
    }
  }

  lemma MarkIs(d: Digit)
    requires d.value < 16
    ensures Mark(d) == if d.apart then [UNDERSCORE, Char(d)] else [Char(d)]
  {
    assert Text("_") == [UNDERSCORE];
    hide Char;
  }

  lemma {:induction false} FirstDenotes(b: Base, d: Digit)
    requires d.value < Size(b) && !d.apart
    ensures d.value < 16 && Denotes(b, Mark(d), [d])
  {
    DigitIsDigit(b, d);
    MarkIs(d);
    hide IsDigit, DigitValue, Char, Mark, Value, Strip, Legal;
    OneDigit(b, Char(d));
    assert [d][..0] == [] && Number(Size(b), []) == 0;
  }

  lemma {:induction false} NextDenotes(b: Base, t: seq<nat>, ds: seq<Digit>, d: Digit)
    requires d.value < Size(b) && Denotes(b, t, ds)
    ensures d.value < 16 && Denotes(b, t + Mark(d), ds + [d])
  {
    DigitIsDigit(b, d);
    NextStrip(b, t, d);
    var z, c := Strip(t), Char(d);
    hide IsDigit, DigitValue, Char, Mark, Value, Strip, Legal;
    ValueAppend(b, z, c);
    assert (z + [c])[0] == z[0];
    assert (ds + [d])[..|ds|] == ds;
  }

  lemma {:induction false} NextStrip(b: Base, t: seq<nat>, d: Digit)
    requires d.value < 16 && IsDigit(b, Char(d)) && Legal(b, t)
    ensures Legal(b, t + Mark(d)) && Strip(t + Mark(d)) == Strip(t) + [Char(d)]
  {
    MarkIs(d);
    hide IsDigit, Char, Mark, Strip, Legal;
    More(b, t, Char(d));
    MoreApart(b, t, Char(d));
  }

  lemma NoDigitUnderscore(b: Base)
    ensures !IsDigit(b, UNDERSCORE)
  {
  }

  lemma OneDigit(b: Base, c: nat)
    requires IsDigit(b, c)
    ensures Legal(b, [c]) && Strip([c]) == [c] && Value(b, [c]) == DigitValue(b, c)
  {
    NoDigitUnderscore(b);
    StripStep([c], 0);
    assert [c][..0] == [] && [c][..1] == [c] && Strip([]) == [];
    assert Strip([c]) == [] + [c] == [c];
    SingleDigit(b, [c]);
  }

  lemma More(b: Base, t: seq<nat>, c: nat)
    requires Legal(b, t) && IsDigit(b, c)
    ensures Legal(b, t + [c]) && Strip(t + [c]) == Strip(t) + [c]
  {
    NoDigitUnderscore(b);
    hide IsDigit;
    assert (t + [c])[..|t|] == t && (t + [c])[|t|] == c;
  }

  lemma MoreApart(b: Base, t: seq<nat>, c: nat)
    requires Legal(b, t) && IsDigit(b, c)
    ensures Legal(b, t + [UNDERSCORE, c]) && Strip(t + [UNDERSCORE, c]) == Strip(t) + [c]
  {
    NoDigitUnderscore(b);
    hide IsDigit;
    var u, v := t + [UNDERSCORE], t + [UNDERSCORE, c];
    assert v[..|t| + 1] == u && u[..|t|] == t && v[|t| + 1] == c;
  }

  /** Whatever is legal is such a row. */
  lemma {:induction false} LegalIsSpelled(b: Base, t: seq<nat>) returns (ds: seq<Digit>)
    requires Legal(b, t)
    ensures Wellformed(b, ds) && Spell(ds) == t
    decreases |t|
  {
    hide IsDigit, Char, Mark, Legal;
    var n := |t| - 1;
    LegalEnd(b, t);
    var apart := n > 0 && t[n - 1] == UNDERSCORE;
    var d := DigitFrom(b, t[n], apart);
    MarkIs(d);
    if n == 0 {
      ds := [d];
      assert ds[..0] == [] && Spell(ds) == [] + Mark(d);
    } else {
      var m := if apart then n - 1 else n;
      var es := LegalIsSpelled(b, t[..m]);
      ds := es + [d];
      hide Wellformed;
      SpellMore(es, d);
      assert t == t[..m] + Mark(d);
      MoreDigits(b, es, d);
    }
  }

  lemma SpellMore(es: seq<Digit>, d: Digit)
    requires d.value < 16 && forall i :: 0 <= i < |es| ==> es[i].value < 16
    ensures Spell(es + [d]) == Spell(es) + Mark(d)
  {
    assert (es + [d])[..|es|] == es;
  }

  lemma MoreDigits(b: Base, es: seq<Digit>, d: Digit)
    requires Wellformed(b, es) && d.value < Size(b)
    ensures Wellformed(b, es + [d])
  {
  }

  /** The last digit, and the legal part before it. */
  lemma LegalEnd(b: Base, t: seq<nat>)
    requires Legal(b, t)
    ensures t != [] && IsDigit(b, t[|t| - 1])
    ensures |t| > 1 ==> var m := if t[|t| - 2] == UNDERSCORE then |t| - 2 else |t| - 1; m > 0 && Legal(b, t[..m])
  {
    NoDigitUnderscore(b);
    hide IsDigit;
    if |t| > 1 {
      var m := if t[|t| - 2] == UNDERSCORE then |t| - 2 else |t| - 1;
      assert m > 0;
      LegalPart(b, t, m);
    }
  }

  lemma LegalPart(b: Base, t: seq<nat>, m: nat)
    requires Legal(b, t) && 0 < m < |t| && IsDigit(b, t[m - 1])
    ensures Legal(b, t[..m])
  {
    hide IsDigit;
  }

  /** Digits of the base without underscores. */
  predicate Plain(b: Base, ds: seq<Digit>) { forall i :: 0 <= i < |ds| ==> ds[i].value < Size(b) && !ds[i].apart }

  lemma {:induction false} SpelledPlainly(b: Base, ds: seq<Digit>)
    requires Plain(b, ds)
    ensures forall i :: 0 <= i < |ds| ==> ds[i].value < 16
    ensures |Spell(ds)| == |ds| && AllDigits(b, Spell(ds)) && Value(b, Spell(ds)) == Number(Size(b), ds)
  {
    if ds == [] {
      assert Value(b, []) == 0;
    } else {
      var n := |ds| - 1;
      var d := ds[n];
      SpelledPlainly(b, ds[..n]);
      DigitIsDigit(b, d);
      MarkIs(d);
      hide Char, Mark, IsDigit, Value, DigitValue;
      ValueAppend(b, Spell(ds[..n]), Char(d));
    }
  }

  lemma {:induction false} DigitsFrom(b: Base, t: seq<nat>) returns (ds: seq<Digit>)
    requires AllDigits(b, t)
    ensures |ds| == |t| && Plain(b, ds)
    ensures (forall i :: 0 <= i < |ds| ==> ds[i].value < 16) && Spell(ds) == t
  {
    if t == [] {
      ds := [];
    } else {
      var n := |t| - 1;
      var es := DigitsFrom(b, t[..n]);
      var d := DigitFrom(b, t[n], false);
      MarkIs(d);
      ds := es + [d];
      hide Char, Mark, IsDigit;
      SpellMore(es, d);
      assert t[..n] + [t[n]] == t;
    }
  }

  // ---------------------------------------------------------------------------------------------
  // Whole literals.

  /** A sign, which only decimals may have. */
  predicate SignFits(b: Base, sign: string) { sign == "" || (b == Dec && (sign == "+" || sign == "-")) }

  /** What TOML says of a literal: decimals have no leading zero, and values have 64 bits. */
  function Toml(b: Base, sign: string, ds: seq<Digit>): Result<int> {
    var v: int := if sign == "-" then -(Number(Size(b), ds) as int) else Number(Size(b), ds);
    if b == Dec && |ds| > 1 && ds[0].value == 0 then Err
    else if -0x8000_0000_0000_0000 <= v < 0x8000_0000_0000_0000 then Ok(v) else Err
  }

  predicate EndsValue(rest: seq<nat>) { rest == [] || IsTerminator(rest[0]) }

  /** The characters that end a value in ASCII. */
  const ENDS := "\t\n\r ],}#"

  lemma EndersAre(c: nat)
    ensures (exists i :: 0 <= i < |ENDS| && c == ENDS[i] as int) ==> IsTerminator(c)
    ensures c < 0x80 && IsTerminator(c) ==> c == 0x0B || c == 0x0C || exists i :: 0 <= i < |ENDS| && c == ENDS[i] as int
  {
    if c < 0x80 && IsTerminator(c) && c != 0x0B && c != 0x0C {
      assert ENDS[0] as int == 9 && ENDS[1] as int == 10 && ENDS[2] as int == 13 && ENDS[3] as int == 32;
      assert ENDS[4] as int == 0x5D && ENDS[5] as int == 0x2C && ENDS[6] as int == 0x7D && ENDS[7] as int == 0x23;
    }
  }

  /** Every literal of the grammar, in any letter case and with any underscores, has the meaning that TOML
      gives it. */
  lemma {:induction false} IntegerIsRead(b: Base, sign: string, ds: seq<Digit>, rest: seq<nat>)
    requires SignFits(b, sign) && Wellformed(b, ds) && EndsValue(rest)
    ensures Literal(b, Lead(b, sign) + Spell(ds) + rest) == Toml(b, sign, ds)
  {
    hide DigitsMeaning, Toml, Legal, Spell, Literal, Strip, Value, Lead, Denotes;
    var t := Spell(ds);
    SpelledIsLegal(b, ds);
    Meant(b, sign, t, ds);
    LegalToken(b, t, rest);
    if b == Dec {
      NoSign(t, rest);
    }
    LeadReads(b, sign, t + rest);
    assert Lead(b, sign) + t + rest == Lead(b, sign) + (t + rest);
  }

  lemma LeadReads(b: Base, sign: string, u: seq<nat>)
    requires SignFits(b, sign) && (b == Dec ==> u != [] && u[0] != PLUS && u[0] != MINUS)
    ensures Literal(b, Lead(b, sign) + u) == DigitsMeaning(b, Token(u), sign == "-")
  {
    LeadIs(b, sign);
    hide DigitsMeaning, Literal, Lead, Token;
    if b != Dec {
      LiteralPrefixed(b, u);
    } else if sign == "-" {
      LiteralNegative(u);
    } else if sign == "+" {
      LiteralPositive(u);
    } else {
      LiteralPlain(u);
      assert [] + u == u;
    }
  }

  lemma Meant(b: Base, sign: string, t: seq<nat>, ds: seq<Digit>)
    requires Denotes(b, t, ds)
    ensures Legal(b, t) && DigitsMeaning(b, t, sign == "-") == Toml(b, sign, ds)
  {
    hide Legal, Strip, Value, Number;
  }

  lemma LiteralPositive(s: seq<nat>)
    ensures Literal(Dec, [PLUS] + s) == DigitsMeaning(Dec, Token(s), false)
  {
    assert ([PLUS] + s)[1..] == s;
  }

  lemma NoSign(t: seq<nat>, rest: seq<nat>)
    requires Legal(Dec, t)
    ensures t + rest != [] && (t + rest)[0] != PLUS && (t + rest)[0] != MINUS
  {
  }

  lemma {:induction false} LegalToken(b: Base, t: seq<nat>, rest: seq<nat>)
    requires Legal(b, t) && EndsValue(rest)
    ensures Token(t + rest) == t
  {
    TokenOfPart(b, t, rest);
    assert (t + rest)[..|t|] == t;
  }

  lemma {:induction false} TokenOfPart(b: Base, t: seq<nat>, rest: seq<nat>)
    requires (forall i :: 0 <= i < |t| ==> IsDigit(b, t[i]) || t[i] == UNDERSCORE) && EndsValue(rest)
    ensures TokenLen(t + rest) == |t|
  {
    if t == [] {
      assert t + rest == rest;
    } else {
      assert (t + rest)[1..] == t[1..] + rest;
      TokenOfPart(b, t[1..], rest);
    }
  }

  /** Nothing else has a meaning. */
  lemma {:induction false} OnlyIntegersAreRead(b: Base, s: seq<nat>)
    returns (sign: string, ds: seq<Digit>, rest: seq<nat>)
    requires Literal(b, s).Ok?
    ensures SignFits(b, sign) && Wellformed(b, ds) && EndsValue(rest)
    ensures s == Lead(b, sign) + Spell(ds) + rest
  {
    hide Spell, Wellformed, Legal, Lead, DigitsMeaning, Literal, Token;
    var u;
    sign, u := LeadFrom(b, s);
    MeansLegal(b, u, sign == "-");
    ds := LegalIsSpelled(b, Token(u));
    rest := u[|Token(u)|..];
    assert Lead(b, sign) + (Token(u) + rest) == Lead(b, sign) + Token(u) + rest;
  }

  lemma LeadFrom(b: Base, s: seq<nat>) returns (sign: string, u: seq<nat>)
    requires Literal(b, s).Ok?
    ensures SignFits(b, sign) && s == Lead(b, sign) + u && DigitsMeaning(b, Token(u), sign == "-").Ok?
  {
    hide DigitsMeaning, Lead, Token;
    sign := if b != Dec || s == [] then "" else if s[0] == PLUS then "+" else if s[0] == MINUS then "-" else "";
    LeadIs(b, sign);
    assert Lead(b, sign) <= s;
    u := s[|Lead(b, sign)|..];
    assert s == s[0..];
  }

  lemma MeansLegal(b: Base, u: seq<nat>, negative: bool)
    requires DigitsMeaning(b, Token(u), negative).Ok?
    ensures Legal(b, Token(u)) && u == Token(u) + u[|Token(u)|..] && EndsValue(u[|Token(u)|..])
  {
  }

  // ---------------------------------------------------------------------------------------------
  // In a document.

  /** A literal of at most 127 characters is read with the meaning that TOML gives it, wherever it stands. */
  lemma {:induction false} WrittenIsRead(b: Base, sign: string, ds: seq<Digit>, before: seq<nat>, rest: seq<nat>,
                                         replayed: nat)
    requires SignFits(b, sign) && Wellformed(b, ds) && EndsValue(rest)
    requires |Lead(b, sign) + Spell(ds)| <= 127
    requires T.Ahead(before + Lead(b, sign) + Spell(ds) + rest, |before|, replayed)
    ensures |before| < |before + Lead(b, sign) + Spell(ds) + rest|
    ensures var vs := before + Lead(b, sign) + Spell(ds) + rest;
            L.NumberAt(b, vs, |before|, replayed) == Toml(b, sign, ds)
  {
    hide Lead, Spell, Toml, Literal, L.NumberAt, T.Ahead, TokenLen, EndsValue, TokenLen;
    var p := Lead(b, sign) + Spell(ds);
    var vs := before + Lead(b, sign) + Spell(ds) + rest;
    assert vs[|before|..] == p + rest;
    IntegerIsRead(b, sign, ds, rest);
    ShortEnough(p, rest);
    T.AheadIs(vs, |before|, replayed);
    T.ShortIsExact(b, vs, |before|, replayed);
  }

  lemma ShortEnough(p: seq<nat>, rest: seq<nat>)
    requires EndsValue(rest)
    ensures TokenLen(p + rest) <= |p|
  {
    T.ShortToken(p, rest);
  }

  // ---------------------------------------------------------------------------------------------
  // What the formatter writes.

  /** The digits of a number, in upper case and without underscores or needless zeroes. */
  function Row(b: Base, v: nat): seq<Digit> {
    if v < Size(b) then [Digit(v, true, false)] else Row(b, v / Size(b)) + [Digit(v % Size(b), true, false)]
  }

  lemma Divided(b: Base, v: nat)
    requires v >= Size(b)
    ensures 0 < v / Size(b) < v && v % Size(b) < Size(b) && v == v / Size(b) * Size(b) + v % Size(b)
  {
  }

  lemma {:induction false} RowIsWellformed(b: Base, v: nat)
    ensures Wellformed(b, Row(b, v)) && (v > 0 ==> Row(b, v)[0].value > 0) && (v < Size(b) ==> |Row(b, v)| == 1)
  {
    if v >= Size(b) {
      Divided(b, v);
      RowIsWellformed(b, v / Size(b));
    }
  }

  lemma {:induction false} RowIsPrinted(b: Base, v: nat)
    ensures Wellformed(b, Row(b, v)) && Spell(Row(b, v)) == ToDigits(b, v)
  {
    RowIsWellformed(b, v);
    var m := if v < Size(b) then v else v % Size(b);
    var d := Digit(m, true, false);
    DigitAt(m);
    MarkIs(d);
    assert Radix(b) == Size(b) && Mark(d) == [DigitChar(m)];
    hide Mark, DigitChar, Wellformed;
    if v < Size(b) {
      assert [d][..0] == [] && Spell([]) == [];
      assert Spell([d]) == [] + Mark(d) == Mark(d);
    } else {
      var r := Row(b, v / Size(b));
      Divided(b, v);
      RowIsPrinted(b, v / Size(b));
      assert (r + [d])[..|r|] == r;
    }
  }

  lemma {:induction false} RowIsPlain(b: Base, v: nat)
    ensures Plain(b, Row(b, v))
  {
    if v >= Size(b) {
      Divided(b, v);
      RowIsPlain(b, v / Size(b));
    }
  }

  lemma {:induction false} RowIsNumber(b: Base, v: nat)
    ensures Number(Size(b), Row(b, v)) == v
  {
    var m := if v < Size(b) then v else v % Size(b);
    var d := Digit(m, true, false);
    if v < Size(b) {
      assert [d][..0] == [] && Number(Size(b), []) == 0;
    } else {
      var r := Row(b, v / Size(b));
      Divided(b, v);
      RowIsNumber(b, v / Size(b));
      assert (r + [d])[..|r|] == r;
    }
  }

  /** An integer is printed as a sign or prefix and its digits, which stand for it. */
  lemma PrintedIsWritten(fmt: Base, allowed: set<Base>, v: int)
    requires -0x8000_0000_0000_0000 <= v < 0x8000_0000_0000_0000
    ensures var b := if v >= 0 && fmt in allowed then fmt else Dec;
            var sign := if v < 0 then "-" else "";
            var ds := Row(b, if v < 0 then -v else v);
            && Wellformed(b, ds) && Toml(b, sign, ds) == Ok(v)
            && PrintInteger(fmt, allowed, v) == Lead(b, sign) + Spell(ds)
  {
    var b := if v >= 0 && fmt in allowed then fmt else Dec;
    hide Lead, Spell, Row, ToDigits, Number;
    var n: nat := if v < 0 then -v else v;
    RowIsPrinted(b, n);
    RowIsWellformed(b, n);
    RowIsNumber(b, n);
    LeadIs(b, if v < 0 then "-" else "");
  }
}
