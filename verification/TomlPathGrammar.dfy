/** The paths that can be parsed: segments with dots between them, each a name with indexes after it. */
module TomlPathGrammar {
  import opened TomlChars
  import opened TomlPath
  import G = TomlGrammar
  import Num = TomlInteger

  /** An index in brackets. Blanks may stand around the number and after the bracket; the closing bracket may
      be left out. */
  datatype Bracket = Bracket(left: seq<nat>, digits: seq<G.Digit>, right: seq<nat>, closed: bool, after: seq<nat>)

  datatype Segment = Segment(name: seq<nat>, brackets: seq<Bracket>)

  predicate AreBlanks(bs: seq<nat>) { forall i :: 0 <= i < |bs| ==> bs[i] == ' ' as int || bs[i] == '\t' as int }

  predicate IsBracket(b: Bracket) {
    && AreBlanks(b.left) && AreBlanks(b.right) && AreBlanks(b.after) && (!b.closed ==> b.after == [])
    && b.digits != [] && G.Plain(Num.Dec, b.digits)
  }

  predicate AreBrackets(bs: seq<Bracket>) { forall i :: 0 <= i < |bs| ==> IsBracket(bs[i]) }

  /** Names contain no dot and no bracket. */
  predicate IsName(k: seq<nat>) {
    forall i :: 0 <= i < |k| ==> k[i] != '.' as int && k[i] != '[' as int && k[i] != ']' as int
  }

  predicate AreSegments(ps: seq<Segment>) {
    ps != [] && forall i :: 0 <= i < |ps| ==> IsName(ps[i].name) && AreBrackets(ps[i].brackets)
  }

  // ---------------------------------------------------------------------------------------------
  // How they are written.

  function SpellBracket(b: Bracket): seq<nat>
    requires IsBracket(b)
  {
    Text("[") + b.left + G.Spell(b.digits) + b.right + (if b.closed then Text("]") + b.after else [])
  }

  function SpellBrackets(bs: seq<Bracket>): seq<nat>
    requires AreBrackets(bs)
  {
    if bs == [] then [] else SpellBracket(bs[0]) + SpellBrackets(bs[1..])
  }

  function SpellSegments(ps: seq<Segment>): seq<nat>
    requires AreSegments(ps)
  {
    ps[0].name + SpellBrackets(ps[0].brackets) + (if |ps| == 1 then [] else Text(".") + SpellSegments(ps[1..]))
  }

  // ---------------------------------------------------------------------------------------------
  // What they mean.

  function Indexes(bs: seq<Bracket>): seq<Component> {
    if bs == [] then [] else [Index(G.Number(10, bs[0].digits))] + Indexes(bs[1..])
  }

  /** A name is a key, and so is nothing at all; but nothing before an index is left out. */
  function Components(ps: seq<Segment>): seq<Component> {
    if ps == [] then []
    else
      (if ps[0].name == [] && ps[0].brackets != [] then [] else [Key(ps[0].name)])
      + Indexes(ps[0].brackets) + Components(ps[1..])
  }

  /** All indexes are below 2^64. */
  predicate BracketsFit(bs: seq<Bracket>) {
    forall i :: 0 <= i < |bs| ==> G.Number(10, bs[i].digits) < 0x1_0000_0000_0000_0000
  }

  predicate Fit(ps: seq<Segment>) { forall i :: 0 <= i < |ps| ==> BracketsFit(ps[i].brackets) }

  // ---------------------------------------------------------------------------------------------
  // Characters.

  lemma MarksAre()
    ensures Text(".") == [DOT] && Text("[") == [OPEN] && Text("]") == [CLOSE]
  {
  }

  lemma {:induction false} BlanksEnd(bs: seq<nat>, t: seq<nat>)
    requires AreBlanks(bs) && (t == [] || !IsBlank(t[0]))
    ensures BlankLen(bs + t) == |bs| && (bs + t)[|bs|..] == t
  {
    if bs == [] {
      assert bs + t == t;
    } else {
      assert (bs + t)[1..] == bs[1..] + t;
      BlanksEnd(bs[1..], t);
    }
  }

  lemma {:induction false} DigitsEnd(ds: seq<nat>, t: seq<nat>)
    requires Num.AllDigits(Num.Dec, ds) && (t == [] || !IsDecimal(t[0]))
    ensures DigitLen(ds + t) == |ds| && (ds + t)[..|ds|] == ds && (ds + t)[|ds|..] == t
  {
    if ds == [] {
      assert ds + t == t;
    } else {
      assert (ds + t)[1..] == ds[1..] + t;
      DigitsEnd(ds[1..], t);
    }
  }

  lemma {:induction false} NameEnds(k: seq<nat>, t: seq<nat>)
    requires IsName(k) && (t == [] || IsSpecial(t[0]))
    ensures KeyLen(k + t) == |k| && (k + t)[..|k|] == k && (k + t)[|k|..] == t
  {
    if k == [] {
      assert k + t == t;
    } else {
      assert (k + t)[1..] == k[1..] + t;
      NameEnds(k[1..], t);
    }
  }

  // ---------------------------------------------------------------------------------------------
  // Indexes.

  /** The text after an index, as the index sees it. */
  predicate Follows(closed: bool, t: seq<nat>) { closed || t == [] || t[0] == DOT || t[0] == OPEN }

  lemma {:induction false} IndexIsRead(left: seq<nat>, ds: seq<nat>, right: seq<nat>, closed: bool, t: seq<nat>)
    requires AreBlanks(left) && AreBlanks(right) && ds != [] && Num.AllDigits(Num.Dec, ds) && Follows(closed, t)
    ensures IndexAt(left + (ds + (right + ((if closed then [CLOSE] else []) + t))))
         == if Num.Value(Num.Dec, ds) < Num.U64 then Ok((Num.Value(Num.Dec, ds), t)) else Err
  {
    hide Num.Value, BlankLen, DigitLen, AreBlanks, IsBlank, IndexAt, IsDecimal, IsSpecial, Num.AllDigits, Follows;
    var u := (if closed then [CLOSE] else []) + t;
    var v := right + u;
    var w := ds + v;
    AfterIs(closed, t);
    DigitsStart(right, u, ds);
    BlanksEnd(right, u);
    DigitsEnd(ds, v);
    BlanksEnd(left, w);
    IndexParts(left + w, w, ds, v, u);
  }

  lemma AfterIs(closed: bool, t: seq<nat>)
    requires Follows(closed, t)
    ensures var u := (if closed then [CLOSE] else []) + t;
            && (u == [] || (IsSpecial(u[0]) && !IsBlank(u[0])))
            && t == (if u != [] && u[0] == CLOSE then u[1..] else u)
  {
    assert ([CLOSE] + t)[1..] == t && [] + t == t;
  }

  lemma IndexParts(s: seq<nat>, w: seq<nat>, ds: seq<nat>, v: seq<nat>, u: seq<nat>)
    requires w == s[BlankLen(s)..] && ds == w[..DigitLen(w)] && v == w[DigitLen(w)..] && u == v[BlankLen(v)..]
    requires ds != [] && Num.AllDigits(Num.Dec, ds) && (u != [] ==> IsSpecial(u[0]))
    ensures IndexAt(s) == if Num.Value(Num.Dec, ds) >= Num.U64 then Err
                          else Ok((Num.Value(Num.Dec, ds), if u != [] && u[0] == CLOSE then u[1..] else u))
  {
    hide Num.Value, BlankLen, DigitLen, IsBlank, IsDecimal;
  }

  lemma DigitsStart(right: seq<nat>, u: seq<nat>, ds: seq<nat>)
    requires AreBlanks(right) && (u == [] || IsSpecial(u[0])) && ds != [] && Num.AllDigits(Num.Dec, ds)
    ensures right + u == [] || !IsDecimal((right + u)[0])
    ensures IsDecimal(ds[0]) && !IsBlank(ds[0])
  {
  }

  lemma {:induction false} BracketIsRead(b: Bracket, t: seq<nat>, afterIndex: bool, afterDot: bool)
    requires IsBracket(b) && (t == [] || t[0] == DOT || t[0] == OPEN)
    ensures Parse(SpellBracket(b) + t, afterIndex, afterDot)
         == if G.Number(10, b.digits) < Num.U64 then Prepend(Index(G.Number(10, b.digits)), Parse(t, true, false))
            else Err
  {
    hide Text, G.Spell, G.Number, Num.Value, IndexAt, Parse;
    MarksAre();
    G.SpelledPlainly(Num.Dec, b.digits);
    var ds, rest := G.Spell(b.digits), b.after + t;
    IndexIsRead(b.left, ds, b.right, b.closed, rest);
    var inner := b.left + (ds + (b.right + ((if b.closed then [CLOSE] else []) + rest)));
    assert SpellBracket(b) + t == [OPEN] + inner by {
      Regroup(b.left, ds, b.right, if b.closed then [CLOSE] else [], b.after, t);
    }
    AfterBracket(b.after, t);
    ParseOpen(inner, afterIndex, afterDot);
  }

  lemma Regroup(left: seq<nat>, ds: seq<nat>, right: seq<nat>, close: seq<nat>, after: seq<nat>, t: seq<nat>)
    ensures [OPEN] + left + ds + right + (close + after) + t
         == [OPEN] + (left + (ds + (right + (close + (after + t)))))
    ensures close + [] == close
  {
  }

  lemma ParseOpen(inner: seq<nat>, afterIndex: bool, afterDot: bool)
    ensures Parse([OPEN] + inner, afterIndex, afterDot)
         == match IndexAt(inner) case Err => Err case Ok((n, rest)) => Prepend(Index(n), Parse(rest, true, false))
  {
    assert ([OPEN] + inner)[1..] == inner;
    hide IndexAt;
  }

  /** Blanks after a bracket are skipped. */
  lemma {:induction false} AfterBracket(after: seq<nat>, t: seq<nat>)
    requires AreBlanks(after) && (t == [] || t[0] == DOT || t[0] == OPEN)
    ensures Parse(after + t, true, false) == Parse(t, true, false)
  {
    if after == [] {
      assert after + t == t;
    } else {
      NameEnds(after, t);
      assert after + [] == after;
      BlanksEnd(after, []);
      FlagsAside(t);
    }
  }

  /** Before a dot, an index or the end it does not matter whether an index came before. */
  lemma FlagsAside(t: seq<nat>)
    requires t == [] || t[0] == DOT || t[0] == OPEN
    ensures Parse(t, true, false) == Parse(t, false, false)
    ensures t != [] && t[0] == OPEN ==> Parse(t, false, true) == Parse(t, false, false)
  {
  }

  lemma {:induction false} BracketsAreRead(bs: seq<Bracket>, t: seq<nat>)
    requires AreBrackets(bs) && (t == [] || t[0] == DOT)
    ensures Parse(SpellBrackets(bs) + t, false, false)
         == if BracketsFit(bs) then After(Indexes(bs), Parse(t, false, false)) else Err
  {
    FlagsAside(t);
    if bs == [] {
      assert SpellBrackets(bs) + t == t;
      AfterNothing(Parse(t, false, false));
    } else {
      var more := SpellBrackets(bs[1..]) + t;
      BracketsStart(bs[1..], t);
      assert SpellBrackets(bs) + t == SpellBracket(bs[0]) + more;
      BracketIsRead(bs[0], more, false, false);
      FlagsAside(more);
      BracketsAreRead(bs[1..], t);
      FitMore(bs);
      hide Parse, SpellBracket, BracketsFit;
      AfterMore(Index(G.Number(10, bs[0].digits)), Indexes(bs[1..]), Parse(t, false, false));
    }
  }

  lemma AfterMore(c: Component, cs: seq<Component>, r: Result<seq<Component>>)
    ensures Prepend(c, After(cs, r)) == After([c] + cs, r)
  {
    if r.Ok? {
      assert [c] + (cs + r.value) == [c] + cs + r.value;
    }
  }

  lemma FitMore(bs: seq<Bracket>)
    requires bs != []
    ensures BracketsFit(bs) <==> G.Number(10, bs[0].digits) < Num.U64 && BracketsFit(bs[1..])
  {
    assert forall i :: 0 < i < |bs| ==> bs[i] == bs[1..][i - 1];
  }

  lemma BracketsStart(bs: seq<Bracket>, t: seq<nat>)
    requires AreBrackets(bs) && (t == [] || t[0] == DOT)
    ensures var s := SpellBrackets(bs) + t; s == [] || s[0] == DOT || s[0] == OPEN
    ensures bs != [] ==> SpellBrackets(bs) != [] && SpellBrackets(bs)[0] == OPEN
  {
    MarksAre();
    hide Text;
  }

  // ---------------------------------------------------------------------------------------------
  // Whole paths.

  lemma FitRest(ps: seq<Segment>)
    requires ps != []
    ensures Fit(ps) <==> BracketsFit(ps[0].brackets) && Fit(ps[1..])
  {
    hide BracketsFit;
    assert forall i :: 0 < i < |ps| ==> ps[i] == ps[1..][i - 1];
  }

  /** One segment, with `t` after it. */
  lemma {:induction false} SegmentIsRead(p: Segment, t: seq<nat>)
    requires IsName(p.name) && AreBrackets(p.brackets) && (t == [] || t[0] == DOT)
    ensures Parse(p.name + SpellBrackets(p.brackets) + t, false, true)
         == if !BracketsFit(p.brackets) then Err
            else After(if p.name == [] && p.brackets != [] then Indexes(p.brackets)
                       else [Key(p.name)] + Indexes(p.brackets), Parse(t, false, false))
  {
    var u := SpellBrackets(p.brackets) + t;
    BracketsStart(p.brackets, t);
    BracketsAreRead(p.brackets, t);
    hide SpellBrackets, BracketsFit;
    assert p.name + SpellBrackets(p.brackets) + t == p.name + u;
    if p.name != [] {
      NameEnds(p.name, u);
      hide KeyLen;
      if BracketsFit(p.brackets) {
        AfterMore(Key(p.name), Indexes(p.brackets), Parse(t, false, false));
      }
    } else {
      assert p.name + u == u;
      if p.brackets != [] {
        FlagsAside(u);
      } else {
        NothingIsAKey(p, t);
      }
    }
  }

  lemma NothingIsAKey(p: Segment, t: seq<nat>)
    requires p.name == [] && p.brackets == [] && (t == [] || t[0] == DOT)
    ensures Indexes(p.brackets) == [] && SpellBrackets([]) + t == t && BracketsFit(p.brackets)
    ensures Parse(t, false, true) == After([Key([])] + [], Parse(t, false, false))
  {
    assert [Key([])] + [] == [Key([])];
    assert t == [] ==> [Key([])] + [] + [] == [Key([])];
  }

  /** Every path of the grammar is parsed to its components, if its indexes fit. */
  lemma {:induction false} SegmentsAreRead(ps: seq<Segment>)
    requires AreSegments(ps)
    ensures ParsePath(SpellSegments(ps)) == if Fit(ps) then Ok(Components(ps)) else Err
  {
    MarksAre();
    FitRest(ps);
    hide Text, Fit, BracketsFit, SpellBrackets, IsName, AreBrackets;
    var p := ps[0];
    var head := if p.name == [] && p.brackets != [] then [] else [Key(p.name)];
    if |ps| == 1 {
      SegmentIsRead(p, []);
      assert SpellSegments(ps) == p.name + SpellBrackets(p.brackets) + [];
      assert Components(ps) == head + Indexes(p.brackets) + Components([]) == head + Indexes(p.brackets);
      assert Fit(ps[1..]) by { NoneFit(); assert ps[1..] == []; }
      EndOfPath(head + Indexes(p.brackets));
      assert [] + Indexes(p.brackets) == Indexes(p.brackets);
    } else {
      var t := [DOT] + SpellSegments(ps[1..]);
      SegmentIsRead(p, t);
      assert t[1..] == SpellSegments(ps[1..]);
      DotGoesOn(t);
      SegmentsAreRead(ps[1..]);
      hide Parse;
      assert [] + Indexes(p.brackets) == Indexes(p.brackets);
    }
  }

  lemma NoneFit()
    ensures Fit([])
  {
  }

  lemma EndOfPath(cs: seq<Component>)
    ensures After(cs, Parse([], false, false)) == Ok(cs)
  {
    assert cs + [] == cs;
  }

  lemma DotGoesOn(t: seq<nat>)
    requires t != [] && t[0] == DOT
    ensures Parse(t, false, false) == ParsePath(t[1..])
  {
  }

  // ---------------------------------------------------------------------------------------------
  // Nothing else is parsed.

  lemma BlanksBefore(s: seq<nat>)
    ensures AreBlanks(s[..BlankLen(s)]) && s == s[..BlankLen(s)] + s[BlankLen(s)..]
  {
    var n := BlankLen(s);
    hide BlankLen;
    forall i | 0 <= i < n ensures s[..n][i] == ' ' as int || s[..n][i] == '\t' as int {
      assert IsBlank(s[i]);
    }
  }

  /** The bracket at the front of a text that is parsed. */
  lemma {:induction false} BracketFrom(s: seq<nat>, afterIndex: bool, afterDot: bool) returns (b: Bracket, t: seq<nat>)
    requires s != [] && s[0] == OPEN && Parse(s, afterIndex, afterDot).Ok?
    ensures IsBracket(b) && s == SpellBracket(b) + t && |t| < |s| && Parse(t, true, false).Ok?
    ensures t == [] || t[0] == DOT || t[0] == OPEN
  {
    hide Text, IndexAt, Parse, KeyLen, G.Spell, AreBlanks;
    MarksAre();
    var u := s[1..];
    assert s == [OPEN] + u;
    ParseOpen(u, afterIndex, afterDot);
    var rest := IndexAt(u).value.1;
    var left, ds, right, closed := IndexFrom(u);
    var after;
    after, t := AfterIndex(rest, closed);
    b := Bracket(left, ds, right, closed, after);
    Regroup(left, G.Spell(ds), right, if closed then [CLOSE] else [], after, t);
    Nested(left, G.Spell(ds), right, if closed then [CLOSE] else [], rest);
    Longer(b, t);
  }

  lemma Longer(b: Bracket, t: seq<nat>)
    requires IsBracket(b)
    ensures |t| < |SpellBracket(b) + t|
  {
    assert |Text("[")| == 1;
  }

  lemma Nested(left: seq<nat>, ds: seq<nat>, right: seq<nat>, close: seq<nat>, rest: seq<nat>)
    ensures left + ds + right + close + rest == left + (ds + (right + (close + rest)))
  {
  }

  lemma AfterIndex(rest: seq<nat>, closed: bool) returns (after: seq<nat>, t: seq<nat>)
    requires Parse(rest, true, false).Ok? && Follows(closed, rest)
    ensures AreBlanks(after) && rest == after + t && (!closed ==> after == [])
    ensures (t == [] || t[0] == DOT || t[0] == OPEN) && Parse(t, true, false).Ok?
  {
    var k := KeyLen(rest);
    after, t := rest[..k], rest[k..];
    if k == 0 {
      assert rest[k..] == rest;
    } else {
      assert BlankLen(rest[..k]) == k;
      AllBlank(rest[..k]);
      Continues(rest[k..]);
    }
  }

  lemma AllBlank(s: seq<nat>)
    requires BlankLen(s) == |s|
    ensures AreBlanks(s)
  {
  }

  lemma Continues(t: seq<nat>)
    requires Parse(t, false, false).Ok? && (t == [] || IsSpecial(t[0]))
    ensures (t == [] || t[0] == DOT || t[0] == OPEN) && Parse(t, true, false).Ok?
  {
  }

  lemma {:induction false} IndexFrom(s: seq<nat>)
    returns (left: seq<nat>, ds: seq<G.Digit>, right: seq<nat>, closed: bool)
    requires IndexAt(s).Ok?
    ensures AreBlanks(left) && AreBlanks(right) && ds != [] && G.Plain(Num.Dec, ds)
    ensures (forall i :: 0 <= i < |ds| ==> ds[i].value < 16) && Follows(closed, IndexAt(s).value.1)
    ensures s == left + G.Spell(ds) + right + (if closed then [CLOSE] else []) + IndexAt(s).value.1
  {
    hide G.Spell, Num.Value, BlankLen, DigitLen, AreBlanks, IsBlank, IsSpecial, IsDecimal;
    var t := s[BlankLen(s)..];
    var n := DigitLen(t);
    DigitsOf(t);
    left := s[..BlankLen(s)];
    var v := t[n..];
    right := v[..BlankLen(v)];
    var u := v[BlankLen(v)..];
    closed := u != [] && u[0] == CLOSE;
    var rest := IndexAt(s).value.1;
    assert n > 0 && rest == (if closed then u[1..] else u) && (u != [] ==> IsSpecial(u[0]));
    hide IndexAt;
    BlanksBefore(s);
    BlanksBefore(v);
    ds := G.DigitsFrom(Num.Dec, t[..n]);
    Split(u, closed, rest);
    assert t == t[..n] + v;
    Nested(left, t[..n], right, if closed then [CLOSE] else [], rest);
  }

  lemma Split(u: seq<nat>, closed: bool, rest: seq<nat>)
    requires u != [] ==> IsSpecial(u[0])
    requires closed == (u != [] && u[0] == CLOSE) && rest == (if closed then u[1..] else u)
    ensures u == (if closed then [CLOSE] else []) + rest && Follows(closed, rest)
  {
  }

  lemma {:induction false} BracketsFrom(s: seq<nat>) returns (bs: seq<Bracket>, t: seq<nat>)
    requires Parse(s, true, false).Ok? && (s == [] || s[0] == DOT || s[0] == OPEN)
    ensures AreBrackets(bs) && s == SpellBrackets(bs) + t && |t| <= |s|
    ensures (t == [] || t[0] == DOT) && Parse(t, true, false).Ok?
    decreases |s|
  {
    hide Parse, SpellBracket, IsBracket;
    if s == [] || s[0] == DOT {
      bs, t := [], s;
      assert s == [] + s;
    } else {
      var b, u := BracketFrom(s, true, false);
      var more;
      more, t := BracketsFrom(u);
      bs := [b] + more;
      assert bs[1..] == more;
      Grouped(SpellBracket(b), SpellBrackets(more), t);
    }
  }

  lemma Grouped(a: seq<nat>, b: seq<nat>, c: seq<nat>)
    ensures a + (b + c) == a + b + c
  {
  }

  /** Every text that is parsed is a path of the grammar. */
  lemma {:induction false} OnlySegmentsAreRead(s: seq<nat>) returns (ps: seq<Segment>)
    requires ParsePath(s).Ok?
    ensures AreSegments(ps) && s == SpellSegments(ps)
    decreases |s|
  {
    hide Text, SpellBrackets, AreBrackets, IsName, KeyLen, Parse;
    MarksAre();
    var name, u := NameThen(s);
    var bs, t := BracketsFrom(u);
    var p := Segment(name, bs);
    Grouped(name, SpellBrackets(bs), t);
    if t == [] {
      ps := [p];
    } else {
      FlagsAside(t);
      DotGoesOn(t);
      var more := OnlySegmentsAreRead(t[1..]);
      ps := [p] + more;
      assert ps[1..] == more;
      assert t == [DOT] + t[1..];
    }
  }

  lemma NameThen(s: seq<nat>) returns (name: seq<nat>, u: seq<nat>)
    requires ParsePath(s).Ok?
    ensures IsName(name) && s == name + u && |u| <= |s|
    ensures (u == [] || u[0] == DOT || u[0] == OPEN) && Parse(u, true, false).Ok?
  {
    var k := KeyLen(s);
    name, u := s[..k], s[k..];
    if k == 0 {
      assert s[0..] == s;
    } else {
      assert Parse(u, false, false).Ok?;
      Continues(u);
    }
  }

  // ---------------------------------------------------------------------------------------------
  // What is printed.

  /** A key after a dot, unless it comes first; an index in brackets, without blanks or needless zeroes. */
  lemma ComponentIsWritten(c: Component, root: bool)
    ensures c.Key? ==> PrintComponent(c, root) == Text(if root then "" else ".") + c.name
    ensures c.Index? ==>
              var b := Bracket([], G.Row(Num.Dec, c.index), [], true, []);
              && IsBracket(b) && PrintComponent(c, root) == SpellBracket(b)
              && G.Number(10, b.digits) == c.index && (|b.digits| > 1 ==> b.digits[0].value > 0)
  {
    MarksAre();
    assert Text("") == [];
    if c.Index? {
      G.RowIsPrinted(Num.Dec, c.index);
      G.RowIsPlain(Num.Dec, c.index);
      G.RowIsNumber(Num.Dec, c.index);
      G.RowIsWellformed(Num.Dec, c.index);
      hide Text, G.Spell, G.Row, Num.ToDigits, G.Number;
      var ds := Num.ToDigits(Num.Dec, c.index);
      assert [OPEN] + [] + ds + [] + ([CLOSE] + []) == [OPEN] + ds + [CLOSE];
    }
  }
}
