/** Keys as the grammar of TOML v1.0.0 writes them: the parser reads each with the meaning it has there, and
    nothing else. */
module TomlKeyGrammar {
  import opened TomlChars
  import opened TomlKey
  import G = TomlGrammar
  import Num = TomlInteger
  import U = Utf8

  // ---------------------------------------------------------------------------------------------
  // Characters.

  /** The letters, digits and marks of bare keys. */
  predicate BareChar(c: nat) {
    || 'A' as int <= c <= 'Z' as int || 'a' as int <= c <= 'z' as int || '0' as int <= c <= '9' as int
    || c == '_' as int || c == '-' as int
  }

  lemma BareIsToml(c: nat)
    ensures IsBare(c) <==> BareChar(c)
  {
  }

  /** Tab and all that is no control character, surrogate half or the delimiter. */
  predicate Allowed(c: nat) {
    (c == '\t' as int || c >= ' ' as int) && c != 0x7F && !(0xD800 <= c <= 0xDFFF)
  }

  // ---------------------------------------------------------------------------------------------
  // Basic strings.

  /** A character of a basic string: as it is, by the letter of an escape, or by its number. */
  datatype Piece = Raw(c: nat) | Named(letter: char) | Numbered(ds: seq<G.Digit>)

  /** The escapes with a letter of their own. */
  function NamedValue(letter: char): nat {
    match letter
    case 'b' => 0x08
    case 't' => 0x09
    case 'n' => 0x0A
    case 'f' => 0x0C
    case 'r' => 0x0D
    case '"' => 0x22
    case '\\' => 0x5C
    case _ => 0
  }

  predicate HexRow(ds: seq<G.Digit>) {
    (|ds| == 4 || |ds| == 8) && forall i :: 0 <= i < |ds| ==> ds[i].value < 16 && !ds[i].apart
  }

  predicate IsPiece(p: Piece) {
    match p
    case Raw(c) => Allowed(c) && c != '"' as int && c != '\\' as int
    case Named(letter) => letter in {'b', 't', 'n', 'f', 'r', '"', '\\'}
    case Numbered(ds) =>
      HexRow(ds) && var v := G.Number(16, ds); v <= 0x10FFFF && !(0xD800 <= v <= 0xDFFF)
  }

  function SpellPiece(p: Piece): seq<nat>
    requires IsPiece(p)
  {
    match p
    case Raw(c) => [c]
    case Named(letter) => Text("\\") + [letter as int]
    case Numbered(ds) => Text(if |ds| == 4 then "\\u" else "\\U") + G.Spell(ds)
  }

  function PieceMeans(p: Piece): nat {
    match p case Raw(c) => c case Named(letter) => NamedValue(letter) case Numbered(ds) => G.Number(16, ds)
  }

  predicate ArePieces(ps: seq<Piece>) { forall i :: 0 <= i < |ps| ==> IsPiece(ps[i]) }

  function SpellPieces(ps: seq<Piece>): seq<nat>
    requires ArePieces(ps)
  {
    if ps == [] then [] else SpellPiece(ps[0]) + SpellPieces(ps[1..])
  }

  function PiecesMean(ps: seq<Piece>): seq<nat> {
    if ps == [] then [] else [PieceMeans(ps[0])] + PiecesMean(ps[1..])
  }

  lemma Escapes()
    ensures Text("\\") == [BACKSLASH] && Text("\\u") == [BACKSLASH, 0x75] && Text("\\U") == [BACKSLASH, 0x55]
    ensures Text("\"") == [QUOTE] && Text("'") == [APOSTROPHE] && Text(".") == [DOT]
  {
  }

  lemma {:induction false} RowHasValue(ds: seq<G.Digit>)
    requires HexRow(ds)
    ensures Num.AllDigits(Num.Hex, G.Spell(ds)) && |G.Spell(ds)| == |ds|
    ensures Num.Value(Num.Hex, G.Spell(ds)) == G.Number(16, ds)
  {
    G.SpelledPlainly(Num.Hex, ds);
  }

  /** One piece. */
  lemma {:induction false} PieceIsRead(p: Piece, rest: seq<nat>)
    requires IsPiece(p)
    ensures BasicString(SpellPiece(p) + rest) == Push(PieceMeans(p), BasicString(rest))
  {
    Escapes();
    hide Text, G.Spell, G.Number, ScalarEscape;
    match p
    case Raw(c) =>
      assert ([c] + rest)[1..] == rest;
    case Named(letter) =>
      var e := [letter as int] + rest;
      assert [BACKSLASH] + [letter as int] + rest == [BACKSLASH] + e;
      assert ([BACKSLASH] + e)[1..] == e && e[1..] == rest;
    case Numbered(ds) =>
      hide HexRow;
      NumberedIsRead(ds, rest);
  }

  lemma {:induction false} NumberedIsRead(ds: seq<G.Digit>, rest: seq<nat>)
    requires IsPiece(Numbered(ds))
    ensures BasicString(SpellPiece(Numbered(ds)) + rest) == Push(G.Number(16, ds), BasicString(rest))
  {
    hide G.Spell, G.Number, ScalarEscape, BasicString, Text;
    Escapes();
    RowIsRead(ds, rest);
    NumberAfter(if |ds| == 4 then 0x75 else 0x55, G.Spell(ds), rest, G.Number(16, ds));
  }

  lemma NumberAfter(u: nat, row: seq<nat>, rest: seq<nat>, v: nat)
    requires (u == 0x75 && ScalarEscape(row + rest, 4) == Ok((v, rest)))
          || (u == 0x55 && ScalarEscape(row + rest, 8) == Ok((v, rest)))
    ensures BasicString([BACKSLASH, u] + row + rest) == Push(v, BasicString(rest))
  {
    hide ScalarEscape;
    var s := [BACKSLASH, u] + row + rest;
    assert s[1..] == [u] + (row + rest);
    assert s[1..][1..] == row + rest;
  }

  lemma {:induction false} RowIsRead(ds: seq<G.Digit>, rest: seq<nat>)
    requires IsPiece(Numbered(ds))
    ensures HexRow(ds) && ScalarEscape(G.Spell(ds) + rest, |ds|) == Ok((G.Number(16, ds), rest))
  {
    RowHasValue(ds);
    hide G.Spell, G.Number, Num.Value, Num.AllDigits;
    var s := G.Spell(ds) + rest;
    assert s[..|ds|] == G.Spell(ds) && s[|ds|..] == rest;
  }

  /** Every basic string is read with its meaning, in any letter case of its escapes. */
  lemma {:induction false} BasicIsRead(ps: seq<Piece>, rest: seq<nat>)
    requires ArePieces(ps)
    ensures BasicString(SpellPieces(ps) + Text("\"") + rest) == Ok((PiecesMean(ps), rest))
  {
    Escapes();
    hide Text, SpellPiece, PieceMeans, IsPiece;
    if ps == [] {
      assert [] + [QUOTE] + rest == [QUOTE] + rest && ([QUOTE] + rest)[1..] == rest;
    } else {
      var t := SpellPieces(ps[1..]) + Text("\"") + rest;
      assert SpellPieces(ps) + Text("\"") + rest == SpellPiece(ps[0]) + t;
      BasicIsRead(ps[1..], rest);
      PieceIsRead(ps[0], t);
    }
  }

  /** The first piece of a text that is read. */
  lemma {:induction false} PieceFrom(s: seq<nat>) returns (p: Piece, t: seq<nat>)
    requires BasicString(s).Ok? && s[0] != QUOTE
    ensures IsPiece(p) && s == SpellPiece(p) + t && BasicString(t).Ok? && |t| < |s|
  {
    hide Text, G.Spell, G.Number, ScalarEscape;
    Escapes();
    if s[0] == BACKSLASH {
      var e := s[1..];
      assert s == [BACKSLASH] + e;
      if e[0] == 0x75 || e[0] == 0x55 {
        p, t := NumberedFrom(e);
        assert s == [BACKSLASH] + e;
      } else {
        p, t := Named(e[0] as char), e[1..];
        assert s == [BACKSLASH] + [e[0]] + t;
      }
    } else {
      p, t := Raw(s[0]), s[1..];
    }
  }

  lemma {:induction false} NumberedFrom(e: seq<nat>) returns (p: Piece, t: seq<nat>)
    requires e != [] && (e[0] == 0x75 || e[0] == 0x55) && EscapeAt(e).Ok?
    ensures IsPiece(p) && [BACKSLASH] + e == SpellPiece(p) + t && t == EscapeAt(e).value.1 && |t| < |e|
  {
    var n := if e[0] == 0x75 then 4 else 8;
    var ds := RowFrom(e[1..], n);
    Escapes();
    hide Text, ScalarEscape, IsPiece, G.Spell, HexRow;
    p, t := Numbered(ds), e[1..][n..];
    NumberedParts(e[0], e[1..], n);
    assert e == [e[0]] + e[1..];
  }

  lemma NumberedParts(u: nat, r: seq<nat>, n: nat)
    requires n <= |r|
    ensures [BACKSLASH] + ([u] + r) == [BACKSLASH, u] + r[..n] + r[n..]
  {
  }

  lemma {:induction false} RowFrom(s: seq<nat>, n: nat) returns (ds: seq<G.Digit>)
    requires (n == 4 || n == 8) && ScalarEscape(s, n).Ok?
    ensures n <= |s| && |ds| == n && IsPiece(Numbered(ds)) && HexRow(ds)
    ensures G.Spell(ds) == s[..n] && ScalarEscape(s, n).value.1 == s[n..]
  {
    ds := G.DigitsFrom(Num.Hex, s[..n]);
    RowHasValue(ds);
    hide G.Spell, G.Number, Num.Value, Num.AllDigits;
  }

  /** Nothing else is read. */
  lemma {:induction false} OnlyBasicIsRead(s: seq<nat>) returns (ps: seq<Piece>, rest: seq<nat>)
    requires BasicString(s).Ok?
    ensures ArePieces(ps) && s == SpellPieces(ps) + Text("\"") + rest
    decreases |s|
  {
    Escapes();
    hide Text, SpellPiece, IsPiece;
    if s[0] == QUOTE {
      ps, rest := [], s[1..];
      assert s == [] + [QUOTE] + rest;
    } else {
      var p, t := PieceFrom(s);
      hide BasicString;
      ps, rest := OnlyBasicIsRead(t);
      var qs := [p] + ps;
      assert qs[1..] == ps;
      assert s == SpellPiece(p) + SpellPieces(ps) + Text("\"") + rest;
      ps := qs;
    }
  }

  // ---------------------------------------------------------------------------------------------
  // Literal strings.

  predicate AreLiteral(vs: seq<nat>) { forall i :: 0 <= i < |vs| ==> Allowed(vs[i]) && vs[i] != '\'' as int }

  lemma {:induction false} LiteralIsWritten(vs: seq<nat>, rest: seq<nat>)
    requires AreLiteral(vs)
    ensures LiteralString(vs + Text("'") + rest) == Ok((vs, rest))
  {
    Escapes();
    hide Text;
    var s := vs + Text("'") + rest;
    if vs == [] {
      assert s[1..] == rest;
    } else {
      assert s[1..] == vs[1..] + Text("'") + rest;
      LiteralIsWritten(vs[1..], rest);
      assert [vs[0]] + vs[1..] == vs;
    }
  }

  lemma {:induction false} OnlyLiteralIsRead(s: seq<nat>)
    requires LiteralString(s).Ok?
    ensures var (vs, rest) := LiteralString(s).value; AreLiteral(vs) && s == vs + Text("'") + rest
  {
    Escapes();
    hide Text;
    if s[0] == APOSTROPHE {
      assert s == [] + [APOSTROPHE] + s[1..];
    } else {
      OnlyLiteralIsRead(s[1..]);
    }
  }

  // ---------------------------------------------------------------------------------------------
  // Simple keys.

  datatype Simple = BareKey(vs: seq<nat>) | BasicKey(ps: seq<Piece>) | LiteralKey(vs: seq<nat>)

  /** A key of the grammar, with `rest` after it: a bare key ends where it can; three delimiters would open a
      string of several lines. */
  predicate IsSimple(k: Simple, rest: seq<nat>) {
    match k
    case BareKey(vs) =>
      vs != [] && (forall i :: 0 <= i < |vs| ==> BareChar(vs[i])) && (rest == [] || !BareChar(rest[0]))
    case BasicKey(ps) => ArePieces(ps) && (ps == [] && rest != [] ==> rest[0] != '"' as int)
    case LiteralKey(vs) => AreLiteral(vs) && (vs == [] && rest != [] ==> rest[0] != '\'' as int)
  }

  predicate Spellable(k: Simple) { k.BasicKey? ==> ArePieces(k.ps) }

  lemma SimpleIsSpellable(k: Simple, rest: seq<nat>)
    requires IsSimple(k, rest)
    ensures Spellable(k)
  {
  }

  function SpellSimple(k: Simple): seq<nat>
    requires Spellable(k)
  {
    match k
    case BareKey(vs) => vs
    case BasicKey(ps) => Text("\"") + SpellPieces(ps) + Text("\"")
    case LiteralKey(vs) => Text("'") + vs + Text("'")
  }

  function SimpleMeans(k: Simple): seq<nat> {
    match k case BareKey(vs) => vs case BasicKey(ps) => PiecesMean(ps) case LiteralKey(vs) => vs
  }

  lemma PieceStarts(p: Piece)
    requires IsPiece(p)
    ensures SpellPiece(p) != [] && SpellPiece(p)[0] != QUOTE
  {
    Escapes();
    hide Text, G.Spell, G.Number;
  }

  /** What stands after the opening delimiter decides how a quoted key is read. */
  lemma QuotedIs(q: nat, t: seq<nat>)
    requires IsDelimiter(q) && t != [] && (t[0] == q ==> |t| == 1 || t[1] != q)
    ensures Segment([q] + t) == if q == APOSTROPHE then LiteralString(t) else BasicString(t)
  {
    var s := [q] + t;
    assert s[1..] == t;
    if |t| == 1 {
      assert t[1..] == [];
      if t[0] != q {
        ShortIsErr(q, t);
      }
    }
  }

  lemma ShortIsErr(q: nat, t: seq<nat>)
    requires IsDelimiter(q) && |t| == 1 && t[0] != q
    ensures LiteralString(t).Ok? ==> q != APOSTROPHE
    ensures BasicString(t).Ok? ==> q != QUOTE
  {
    assert t[1..] == [];
  }

  /** Every key of the grammar is read with its meaning. */
  lemma {:induction false} SimpleIsRead(k: Simple, rest: seq<nat>)
    requires IsSimple(k, rest)
    ensures Spellable(k) && Segment(SpellSimple(k) + rest) == Ok((SimpleMeans(k), rest))
  {
    SimpleIsSpellable(k, rest);
    hide Segment, SpellSimple, IsSimple, SimpleMeans;
    match k
    case BareKey(vs) => BareIsRead(vs, rest);
    case BasicKey(ps) => BasicKeyIsRead(ps, rest);
    case LiteralKey(vs) => LiteralKeyIsRead(vs, rest);
    SimpleParts(k);
  }

  lemma SimpleParts(k: Simple)
    requires Spellable(k)
    ensures k.BareKey? ==> SpellSimple(k) == k.vs && SimpleMeans(k) == k.vs
    ensures k.LiteralKey? ==> SimpleMeans(k) == k.vs
    ensures k.BasicKey? ==> SimpleMeans(k) == PiecesMean(k.ps)
  {
  }

  lemma {:induction false} BasicKeyIsRead(ps: seq<Piece>, rest: seq<nat>)
    requires IsSimple(BasicKey(ps), rest)
    ensures Segment(SpellSimple(BasicKey(ps)) + rest) == Ok((PiecesMean(ps), rest))
  {
    Escapes();
    hide Text, Segment, BasicString;
    BasicIsRead(ps, rest);
    var t := SpellPieces(ps) + Text("\"") + rest;
    if ps != [] {
      PieceStarts(ps[0]);
      assert t[0] == SpellPiece(ps[0])[0];
    }
    QuotedIs(QUOTE, t);
    assert SpellSimple(BasicKey(ps)) + rest == [QUOTE] + t;
  }

  lemma {:induction false} LiteralKeyIsRead(vs: seq<nat>, rest: seq<nat>)
    requires IsSimple(LiteralKey(vs), rest)
    ensures Segment(SpellSimple(LiteralKey(vs)) + rest) == Ok((vs, rest))
  {
    Escapes();
    hide Text, Segment, LiteralString;
    LiteralIsWritten(vs, rest);
    var t := vs + Text("'") + rest;
    QuotedIs(APOSTROPHE, t);
    assert SpellSimple(LiteralKey(vs)) + rest == [APOSTROPHE] + t;
  }

  lemma {:induction false} BareIsRead(vs: seq<nat>, rest: seq<nat>)
    requires IsSimple(BareKey(vs), rest)
    ensures Segment(vs + rest) == Ok((vs, rest))
  {
    forall c: nat ensures IsBare(c) <==> BareChar(c) {
      BareIsToml(c);
    }
    hide IsBare, BareChar;
    BareLenOf(vs, rest);
    assert (vs + rest)[..|vs|] == vs && (vs + rest)[|vs|..] == rest && (vs + rest)[0] == vs[0];
  }

  /** Nothing else is read. */
  lemma {:induction false} OnlySimpleIsRead(s: seq<nat>) returns (k: Simple, rest: seq<nat>)
    requires Segment(s).Ok?
    ensures IsSimple(k, rest) && s == SpellSimple(k) + rest
  {
    Escapes();
    hide Text, IsBare, BasicString, LiteralString;
    if IsBare(s[0]) {
      var n := BareLen(s);
      k, rest := BareKey(s[..n]), s[n..];
      BareRun(s);
    } else {
      var q, t := s[0], s[1..];
      assert s == [q] + t;
      QuotedParts(s);
      if q == APOSTROPHE {
        OnlyLiteralIsRead(t);
        k, rest := LiteralKey(LiteralString(t).value.0), LiteralString(t).value.1;
        assert s == [q] + k.vs + [APOSTROPHE] + rest;
      } else {
        var ps;
        ps, rest := OnlyBasicIsRead(t);
        k := BasicKey(ps);
        assert s == [q] + SpellPieces(ps) + [QUOTE] + rest;
      }
    }
  }

  lemma BareRun(s: seq<nat>)
    requires s != [] && IsBare(s[0])
    ensures IsSimple(BareKey(s[..BareLen(s)]), s[BareLen(s)..]) && s == s[..BareLen(s)] + s[BareLen(s)..]
  {
    forall c: nat ensures IsBare(c) <==> BareChar(c) {
      BareIsToml(c);
    }
    hide IsBare, BareChar;
  }

  lemma QuotedParts(s: seq<nat>)
    requires s != [] && !IsBare(s[0]) && Segment(s).Ok?
    ensures IsDelimiter(s[0]) && |s| >= 2 && !(|s| > 2 && s[0] == s[1] == s[2])
    ensures if s[0] == APOSTROPHE then LiteralString(s[1..]).Ok? else s[0] == QUOTE && BasicString(s[1..]).Ok?
  {
    if |s| == 2 {
      assert s[1..] == [s[1]] && s[1..][1..] == [];
    }
  }

  // ---------------------------------------------------------------------------------------------
  // Dotted keys.

  /** A key, and the blanks after it and after the dot that follows. */
  datatype Part = Part(key: Simple, before: seq<nat>, after: seq<nat>)

  predicate AreBlanks(bs: seq<nat>) { forall i :: 0 <= i < |bs| ==> bs[i] == ' ' as int || bs[i] == '\t' as int }

  /** Dotted keys with spaces and tabs around the dots and at the end, and `rest` after them. */
  predicate IsPath(ps: seq<Part>, rest: seq<nat>)
    decreases |ps|
  {
    && ps != [] && AreBlanks(ps[0].before) && AreBlanks(ps[0].after)
    && (if |ps| == 1 then
          && IsSimple(ps[0].key, ps[0].before + rest)
          && (rest == [] || (!IsHorizontal(rest[0]) && rest[0] != '.' as int))
        else IsPath(ps[1..], rest) && IsSimple(ps[0].key, ps[0].before + Text(".")))
  }

  function SpellPath(ps: seq<Part>, rest: seq<nat>): seq<nat>
    requires IsPath(ps, rest)
    decreases |ps|
  {
    if |ps| == 1 then SpellSimple(ps[0].key) + ps[0].before
    else SpellSimple(ps[0].key) + ps[0].before + Text(".") + ps[0].after + SpellPath(ps[1..], rest)
  }

  function PathMeans(ps: seq<Part>): seq<seq<nat>> {
    if ps == [] then [] else [SimpleMeans(ps[0].key)] + PathMeans(ps[1..])
  }

  lemma {:induction false} BlanksAreSkipped(bs: seq<nat>, s: seq<nat>)
    requires AreBlanks(bs) && (s == [] || !IsHorizontal(s[0]))
    ensures SkipBlanks(bs + s) == Ok(s)
  {
    if bs == [] {
      assert bs + s == s;
    } else {
      assert (bs + s)[1..] == bs[1..] + s;
      BlanksAreSkipped(bs[1..], s);
    }
  }

  lemma {:induction false} OnlyBlanksAreSkipped(s: seq<nat>) returns (bs: seq<nat>)
    requires SkipBlanks(s).Ok?
    ensures AreBlanks(bs) && s == bs + SkipBlanks(s).value
    ensures SkipBlanks(s).value == [] || !IsHorizontal(SkipBlanks(s).value[0])
  {
    if s == [] || !IsHorizontal(s[0]) {
      bs := [];
    } else {
      bs := OnlyBlanksAreSkipped(s[1..]);
      assert s == [s[0]] + bs + SkipBlanks(s).value;
      bs := [s[0]] + bs;
    }
  }

  /** Keys start with no blank. */
  lemma SimpleStarts(k: Simple, rest: seq<nat>)
    requires IsSimple(k, rest)
    ensures SpellSimple(k) != [] && !IsHorizontal(SpellSimple(k)[0])
  {
    Escapes();
    hide Text;
    if k.BareKey? {
      assert BareChar(k.vs[0]);
    }
  }

  lemma PathStarts(ps: seq<Part>, rest: seq<nat>)
    requires IsPath(ps, rest)
    ensures SpellPath(ps, rest) != [] && !IsHorizontal(SpellPath(ps, rest)[0])
  {
    SimpleStarts(ps[0].key, if |ps| == 1 then ps[0].before + rest else ps[0].before + Text("."));
    hide SpellSimple, IsSimple, IsHorizontal;
  }

  /** What decides whether a key ends is the character after it. */
  lemma EndsAlike(k: Simple, s: seq<nat>, t: seq<nat>)
    requires IsSimple(k, s) && s != [] && t != [] && s[0] == t[0]
    ensures IsSimple(k, t)
  {
  }

  /** Every dotted key of at most 1024 parts is read with its meaning, whatever blanks stand around its dots;
      a longer one is refused. */
  lemma {:induction false} PathIsRead(ps: seq<Part>, rest: seq<nat>, depth: nat)
    requires IsPath(ps, rest)
    ensures KeyPath(SpellPath(ps, rest) + rest, depth)
         == if depth + |ps| <= 1024 then Ok((PathMeans(ps), rest)) else Err
    decreases |ps|
  {
    Escapes();
    hide Text, Segment, SpellSimple, IsSimple, SimpleMeans, SkipBlanks, IsHorizontal;
    var p := ps[0];
    DotIsNoBlank();
    SimpleIsSpellable(p.key, if |ps| == 1 then p.before + rest else p.before + Text("."));
    if |ps| == 1 {
      SimpleIsRead(p.key, p.before + rest);
      BlanksAreSkipped(p.before, rest);
      assert SpellPath(ps, rest) + rest == SpellSimple(p.key) + (p.before + rest);
      assert ps[1..] == [] && PathMeans([]) == [];
      assert PathMeans(ps) == [SimpleMeans(p.key)];
    } else {
      var more := SpellPath(ps[1..], rest) + rest;
      var u := [DOT] + (p.after + more);
      var t := p.before + u;
      assert SpellPath(ps, rest) + rest == SpellSimple(p.key) + t;
      assert t[0] == (p.before + Text("."))[0];
      EndsAlike(p.key, p.before + Text("."), t);
      SimpleIsRead(p.key, t);
      BlanksAreSkipped(p.before, u);
      PathStarts(ps[1..], rest);
      BlanksAreSkipped(p.after, more);
      assert u[1..] == p.after + more;
      PathIsRead(ps[1..], rest, depth + 1);
    }
  }

  lemma DotIsNoBlank()
    ensures !IsHorizontal(DOT)
  {
  }

  lemma PathOne(k: Simple, before: seq<nat>, rest: seq<nat>)
    requires AreBlanks(before) && IsSimple(k, before + rest)
    requires rest == [] || (!IsHorizontal(rest[0]) && rest[0] != '.' as int)
    ensures var ps := [Part(k, before, [])];
            IsPath(ps, rest) && Spellable(k) && SpellPath(ps, rest) == SpellSimple(k) + before
  {
    SimpleIsSpellable(k, before + rest);
  }

  lemma PathMore(k: Simple, before: seq<nat>, after: seq<nat>, more: seq<Part>, rest: seq<nat>)
    requires AreBlanks(before) && AreBlanks(after) && IsSimple(k, before + Text(".")) && IsPath(more, rest)
    ensures var ps := [Part(k, before, after)] + more;
            && IsPath(ps, rest) && Spellable(k)
            && SpellPath(ps, rest) == SpellSimple(k) + before + Text(".") + after + SpellPath(more, rest)
  {
    SimpleIsSpellable(k, before + Text("."));
    hide SpellSimple, IsSimple;
    var ps := [Part(k, before, after)] + more;
    assert ps[1..] == more && |ps| > 1;
  }

  /** Nothing else is read. */
  lemma {:induction false} OnlyPathsAreRead(s: seq<nat>, depth: nat) returns (ps: seq<Part>)
    requires KeyPath(s, depth).Ok?
    ensures var rest := KeyPath(s, depth).value.1;
            IsPath(ps, rest) && depth + |ps| <= 1024 && s == SpellPath(ps, rest) + rest
    decreases |s|
  {
    Escapes();
    hide Text, SpellSimple, IsSimple, IsPath, SpellPath, AreBlanks, SkipBlanks, Segment, IsHorizontal;
    var rest := KeyPath(s, depth).value.1;
    var k, t := OnlySimpleIsRead(s);
    SimpleIsSpellable(k, t);
    SimpleIsRead(k, t);
    var before := OnlyBlanksAreSkipped(t);
    var u := SkipBlanks(t).value;
    if u == [] || u[0] != DOT {
      ps := [Part(k, before, [])];
      PathOne(k, before, rest);
      assert SpellSimple(k) + (before + rest) == SpellSimple(k) + before + rest;
    } else {
      var after := OnlyBlanksAreSkipped(u[1..]);
      var w := SkipBlanks(u[1..]).value;
      var more := OnlyPathsAreRead(w, depth + 1);
      hide KeyPath;
      ps := [Part(k, before, after)] + more;
      assert t == before + u && u == [DOT] + u[1..] && t[0] == (before + Text("."))[0];
      EndsAlike(k, t, before + Text("."));
      PathMore(k, before, after, more, rest);
      Regroup(SpellSimple(k), before, u[1..], after, SpellPath(more, rest), rest);
    }
  }

  lemma Regroup(k: seq<nat>, before: seq<nat>, v: seq<nat>, after: seq<nat>, p: seq<nat>, rest: seq<nat>)
    requires v == after + (p + rest)
    ensures k + (before + ([DOT] + v)) == k + before + [DOT] + after + p + rest
  {
  }

  // ---------------------------------------------------------------------------------------------
  // What the formatter writes.

  /** Line separators outside ASCII. */
  predicate BreaksLine(v: nat) { v == 0x85 || v == 0x2028 || v == 0x2029 }

  /** A character that may stand for itself. */
  predicate StandsForItself(flags: Flags, v: nat) {
    ' ' as int <= v && v != 0x7F && !BreaksLine(v) && (v < 0x80 || flags.unicodeStrings)
  }

  /** The letter of its escape, if it has one. */
  function LetterOf(v: nat): char {
    if v == 0x08 then 'b' else if v == 0x09 then 't' else if v == 0x0A then 'n' else if v == 0x0C then 'f'
    else if v == 0x0D then 'r' else if v == '"' as int then '"' else if v == '\\' as int then '\\' else ' '
  }

  /** `n` digits, upper case, padded with zeroes. */
  function PaddedRow(v: nat, n: nat): seq<G.Digit> {
    var r := G.Row(Num.Hex, v);
    seq(if |r| < n then n - |r| else 0, _ => G.Digit(0, true, false)) + r
  }

  /** How a character is written between quotes: as it is, by its letter, or by its number in the shortest form. */
  function PieceFor(flags: Flags, v: nat): Piece {
    if LetterOf(v) != ' ' then Named(LetterOf(v))
    else if StandsForItself(flags, v) then Raw(v)
    else Numbered(PaddedRow(v, if v <= 0xFFFF then 4 else 8))
  }

  function PiecesFor(flags: Flags, vs: seq<nat>): seq<Piece> {
    if vs == [] then [] else [PieceFor(flags, vs[0])] + PiecesFor(flags, vs[1..])
  }

  /** The form of a key: bare if it can be, else literal if that is allowed and nothing needs an escape, else
      in quotes. */
  function KeyFor(flags: Flags, vs: seq<nat>): Simple {
    if vs != [] && (forall i :: 0 <= i < |vs| ==> BareChar(vs[i])) then BareKey(vs)
    else if
      flags.literalStrings && forall i :: 0 <= i < |vs| ==> StandsForItself(flags, vs[i]) && vs[i] != '\'' as int
    then LiteralKey(vs)
    else BasicKey(PiecesFor(flags, vs))
  }

  lemma {:induction false} ZeroesSpelled(n: nat, r: seq<G.Digit>)
    requires G.Plain(Num.Hex, r)
    ensures var ds := seq(n, _ => G.Digit(0, true, false)) + r;
            && G.Plain(Num.Hex, ds) && (forall i :: 0 <= i < |ds| ==> ds[i].value < 16)
            && (forall i :: 0 <= i < |r| ==> r[i].value < 16) && G.Spell(ds) == seq(n, _ => 0x30) + G.Spell(r)
  {
    var z := G.Digit(0, true, false);
    if r == [] {
      AllZeroes(n);
      assert seq(n, _ => z) + r == seq(n, _ => z) && seq(n, _ => 0x30) + [] == seq(n, _ => 0x30);
      assert G.Spell([]) == [];
    } else {
      var m := |r| - 1;
      ZeroesSpelled(n, r[..m]);
      var ds := seq(n, _ => z) + r;
      assert ds[..|ds| - 1] == seq(n, _ => z) + r[..m] && ds[|ds| - 1] == r[m];
      hide G.Mark;
      assert G.Spell(ds) == G.Spell(seq(n, _ => z) + r[..m]) + G.Mark(r[m]);
      assert G.Spell(r) == G.Spell(r[..m]) + G.Mark(r[m]);
    }
  }

  lemma {:induction false} AllZeroes(n: nat)
    ensures G.Spell(seq(n, _ => G.Digit(0, true, false))) == seq(n, _ => 0x30)
  {
    var z := G.Digit(0, true, false);
    if n > 0 {
      AllZeroes(n - 1);
      var ds := seq(n, _ => z);
      assert ds[..n - 1] == seq(n - 1, _ => z);
      G.MarkIs(z);
      assert G.Mark(z) == [0x30];
      assert seq(n, _ => 0x30) == seq(n - 1, _ => 0x30) + [0x30];
    }
  }

  lemma {:induction false} PaddedIsSpelled(v: nat, n: nat)
    requires U.IsScalar(v) && ((n == 4 && v <= 0xFFFF) || n == 8)
    ensures IsPiece(Numbered(PaddedRow(v, n))) && HexRow(PaddedRow(v, n)) && |PaddedRow(v, n)| == n
    ensures G.Spell(PaddedRow(v, n)) == Padded(v, n)
  {
    hide G.Spell, G.Row, Num.Value, Num.ToDigits, G.Number, Padded, PaddedRow, G.Plain, Num.AllDigits;
    PaddedRowIs(v, n);
    PaddedHasValue(v, n);
    G.SpelledPlainly(Num.Hex, PaddedRow(v, n));
    PlainIsPiece(PaddedRow(v, n), v);
  }

  lemma PaddedRowIs(v: nat, n: nat)
    ensures var ds := PaddedRow(v, n);
            G.Plain(Num.Hex, ds) && (forall i :: 0 <= i < |ds| ==> ds[i].value < 16) && G.Spell(ds) == Padded(v, n)
  {
    hide G.Spell, G.Row, Num.ToDigits, G.Plain, G.Wellformed, Num.AllDigits, G.Number, Num.Value;
    var r := G.Row(Num.Hex, v);
    G.RowIsPrinted(Num.Hex, v);
    G.RowIsPlain(Num.Hex, v);
    G.SpelledPlainly(Num.Hex, r);
    ZeroesSpelled(if |r| < n then n - |r| else 0, r);
  }

  lemma PlainIsPiece(ds: seq<G.Digit>, v: nat)
    requires G.Plain(Num.Hex, ds) && (|ds| == 4 || |ds| == 8) && G.Number(16, ds) == v && U.IsScalar(v)
    ensures IsPiece(Numbered(ds)) && HexRow(ds)
  {
    hide G.Number;
  }

  lemma {:induction false} EscapeIsPiece(flags: Flags, v: nat)
    requires U.IsScalar(v)
    ensures IsPiece(PieceFor(flags, v)) && SpellPiece(PieceFor(flags, v)) == Escape(flags, v)
  {
    Escapes();
    hide Text, G.Spell, G.Number, Padded, HexRow, PaddedRow;
    if LetterOf(v) == ' ' && !StandsForItself(flags, v) {
      PaddedIsSpelled(v, if v <= 0xFFFF then 4 else 8);
    } else if LetterOf(v) != ' ' {
      LetterIsEscape(flags, v);
    }
  }

  lemma LetterIsEscape(flags: Flags, v: nat)
    requires LetterOf(v) != ' '
    ensures LetterOf(v) in {'b', 't', 'n', 'f', 'r', '"', '\\'} && Escape(flags, v) == [BACKSLASH, LetterOf(v) as int]
  {
  }

  lemma {:induction false} EscapesArePieces(flags: Flags, vs: seq<nat>)
    requires U.AllScalar(vs)
    ensures ArePieces(PiecesFor(flags, vs)) && SpellPieces(PiecesFor(flags, vs)) == EscapeAll(flags, vs)
  {
    hide PieceFor, IsPiece, SpellPiece, Escape;
    if vs != [] {
      EscapeIsPiece(flags, vs[0]);
      EscapesArePieces(flags, vs[1..]);
      var ps := PiecesFor(flags, vs);
      assert ps[1..] == PiecesFor(flags, vs[1..]);
    }
  }

  /** A key is printed in the form that the flags allow, with an escape only where one is needed. */
  lemma {:induction false} PrintedForm(flags: Flags, vs: seq<nat>)
    requires U.AllScalar(vs)
    ensures Spellable(KeyFor(flags, vs)) && PrintKey(flags, vs) == SpellSimple(KeyFor(flags, vs))
  {
    hide PiecesFor, EscapeAll, Text, SpellPieces;
    EscapesArePieces(flags, vs);
    Escapes();
    forall c: nat ensures IsBare(c) <==> BareChar(c) {
      BareIsToml(c);
    }
    hide IsBare, BareChar;
    forall i | 0 <= i < |vs|
      ensures PlainInLiteral(flags, vs[i]) <==> StandsForItself(flags, vs[i]) && vs[i] != '\'' as int
    {
      assert U.IsScalar(vs[i]);
    }
    hide PlainInLiteral, StandsForItself;
    NoPieces(flags);
    assert vs == [] ==> [APOSTROPHE] + vs + [APOSTROPHE] == [APOSTROPHE, APOSTROPHE];
  }

  lemma NoPieces(flags: Flags)
    ensures PiecesFor(flags, []) == [] && SpellPieces([]) == []
  {
  }
}
