/** How long an integer literal may be before the parser's pointer to the previous character matters. */
module TomlLiteralTheorems {
  import opened TomlChars
  import opened TomlInteger
  import opened TomlCursor
  import opened TomlLiteral
  import U = Utf8
  import R = Utf8Reader
  import Ring = ReplayRing

  /** The parser has looked ahead from the literal. */
  ghost predicate Ahead(vs: seq<nat>, start: nat, replayed: nat) {
    start < |vs| && start + LookAhead(vs, start) <= replayed <= |vs|
  }

  lemma AheadIs(vs: seq<nat>, start: nat, replayed: nat)
    requires Ahead(vs, start, replayed)
    ensures start < |vs|
  {
  }

  /** How many bytes what ends a literal may take. Text in which it takes more than one is refused later
      on, after the value. */
  type EndWidth = w: nat | 1 <= w <= 3 witness 1

  /** What ends the literal at `start`, if anything, takes at most `w` bytes. */
  ghost predicate EndsWithin(vs: seq<nat>, start: nat, w: EndWidth)
    requires start <= |vs|
  {
    var n := start + TokenLen(vs[start..]);
    n < |vs| ==> Width(vs[n]) <= w
  }

  /** The longest literal that is seen as it is at this distance from the start of a block. Past the
      history, a character must not be so close to the end of its block that the next one ends in
      another: the characters of a literal are one byte long, what ends it up to `w`. */
  function SafeLength(offset: nat, w: EndWidth): (n: nat)
    ensures n >= Ring.HISTORY
  {
    var at := (offset + Ring.HISTORY) % R.BLOCK;
    Ring.HISTORY + (if at < R.BLOCK - w then R.BLOCK - w - at else 0)
  }

  /** The longest literal that is read as it should be: a prefix and as many digits as there is room for. */
  function ExactLength(offset: nat, w: EndWidth): nat { Min(SafeLength(offset, w), 128 + 2) }

  /** The digits of a literal. */
  function DigitCount(b: Base, s: seq<nat>): nat {
    if b != Dec then if |s| < 2 then 0 else |Strip(Token(s[2..]))|
    else if s != [] && (s[0] == PLUS || s[0] == MINUS) then |Strip(Token(s[1..]))|
    else |Strip(Token(s))|
  }

  // ---------------------------------------------------------------------------------------------
  // Literals up to that length.

  /** A token seen as it is is read as it should be, unless it has too many digits. */
  lemma SeenIsRead(b: Base, vs: seq<nat>, at: nat, replayed: nat, negative: bool)
    requires at <= |vs|
    requires var t := Token(vs[at..]);
             (forall i :: 0 <= i < |t| ==> IsDigit(b, t[i]) || t[i] == UNDERSCORE) ==>
               at + |t| <= |vs| && Glimpses(vs, at, |t|, replayed) == t
    ensures ReadDigits(b, vs, at, replayed, negative)
            == if |Strip(Token(vs[at..]))| <= DIGIT_LIMIT then DigitsMeaning(b, Token(vs[at..]), negative) else Err
  {
    TokenIs(vs, at);
    hide Token, IsDigit, Shown, Meaning, Accepted, Legal, Glimpses, Strip;
    var t := Token(vs[at..]);
    var g := Glimpses(vs, at, |t|, replayed);
    NotWritten(b, t, g);
    AcceptedIsLegal(b, t);
  }

  lemma AcceptedIsLegal(b: Base, t: seq<nat>)
    ensures Accepted(b, t, t) <==> Legal(b, t)
  {
    NotDigits(b);
    hide IsDigit;
  }

  lemma NotWritten(b: Base, t: seq<nat>, g: seq<nat>)
    requires |g| == |t|
    ensures Accepted(b, t, g) || Legal(b, t) ==> forall i :: 0 <= i < |t| ==> IsDigit(b, t[i]) || t[i] == UNDERSCORE
  {
    hide IsDigit;
  }

  lemma {:induction false} AsciiOff(vs: seq<nat>, start: nat, n: nat)
    requires start + n <= |vs| && forall i :: start <= i < start + n ==> vs[i] < 0x80
    ensures Off(vs, start + n) == Off(vs, start) + n
  {
    if n > 0 {
      AsciiOff(vs, start, n - 1);
    }
  }

  /** A character that ends well before the end of its block. */
  lemma FarFromEnd(vs: seq<nat>, k: nat, o: nat, w: EndWidth)
    requires k + 1 < |vs| && Off(vs, k + 1) == o + 1 && o % R.BLOCK < R.BLOCK - w && Width(vs[k + 1]) <= w
    ensures Shown(vs, k) == vs[k]
  {
    assert Off(vs, k + 2) == Off(vs, k + 1) + Width(vs[k + 1]);
    BlockIs(BlockEnd(vs, k), o / R.BLOCK * R.BLOCK, o + 1);
    hide Off;
  }

  lemma {:induction false} TokenLenAfter(vs: seq<nat>, start: nat, used: nat)
    requires start + used <= |vs| && forall i :: start <= i < start + used ==> !IsTerminator(vs[i])
    ensures TokenLen(vs[start..]) == used + TokenLen(vs[start + used..])
    decreases used
  {
    if used > 0 {
      TokenLenAfter(vs, start + 1, used - 1);
      assert vs[start..][1..] == vs[start + 1..];
    }
  }

  lemma IsNarrow(c: nat)
    ensures c < 0x80 ==> Width(c) == 1
    ensures IsTerminator(c) ==> Width(c) <= 3
  {
  }

  lemma DigitIsAscii(b: Base, c: nat)
    requires IsDigit(b, c) || c == UNDERSCORE || c == PrefixChar(b)
    ensures c < 0x80
  {
  }

  /** One character of `n` ASCII ones from `start` on, when no wider character follows them. */
  lemma CharacterSeen(vs: seq<nat>, start: nat, n: nat, k: nat, replayed: nat, w: EndWidth)
    requires start <= k < start + n <= |vs| && n <= SafeLength(Off(vs, start) % R.BLOCK, w)
    requires forall i :: start <= i < start + n ==> vs[i] < 0x80
    requires start + n < |vs| ==> Width(vs[start + n]) <= w
    requires replayed >= start + Min(Ring.HISTORY, n)
    ensures Glimpse(vs, k, replayed) == vs[k]
  {
    hide Off, IsTerminator, SafeLength, Shown, Width;
    AsciiOff(vs, start, k - start + 1);
    if k >= replayed && k + 1 < |vs| {
      SafeOffset(Off(vs, start), k - start, n, w);
      IsNarrow(vs[k + 1]);
      FarFromEnd(vs, k, Off(vs, start) + (k - start), w);
    } else if k >= replayed {
      LastStays(vs);
    }
  }

  lemma SafeOffset(o: nat, i: nat, n: nat, w: EndWidth)
    requires Ring.HISTORY <= i < n <= SafeLength(o % R.BLOCK, w)
    ensures (o + i) % R.BLOCK < R.BLOCK - w
  {
    var at := (o % R.BLOCK + Ring.HISTORY) % R.BLOCK;
    assert (o + Ring.HISTORY) % R.BLOCK == at;
    assert (o + i) % R.BLOCK == at + (i - Ring.HISTORY);
  }

  lemma {:induction false} TokenSeen(b: Base, vs: seq<nat>, start: nat, used: nat, replayed: nat, w: EndWidth)
    requires start + used <= |vs| && Ahead(vs, start, replayed) && EndsWithin(vs, start, w)
    requires forall i :: start <= i < start + used ==> !IsTerminator(vs[i]) && vs[i] < 0x80
    requires TokenLen(vs[start..]) <= SafeLength(Off(vs, start) % R.BLOCK, w)
    ensures var t := Token(vs[start + used..]);
            (forall i :: 0 <= i < |t| ==> IsDigit(b, t[i]) || t[i] == UNDERSCORE) ==>
              start + used + |t| <= |vs| && Glimpses(vs, start + used, |t|, replayed) == t
  {
    hide Token, TokenLen, IsTerminator, IsDigit, Off, SafeLength, Glimpse, Glimpses, LookAhead;
    TokenSlice(vs, start, used);
    var t := Token(vs[start + used..]);
    if forall i :: 0 <= i < |t| ==> IsDigit(b, t[i]) || t[i] == UNDERSCORE {
      AllAscii(b, vs, start, used, t);
      CharactersSeen(vs, start, used, |t|, replayed, w);
    }
  }

  /** The token after `used` characters of sign or prefix, as a part of the text. */
  lemma {:induction false} TokenSlice(vs: seq<nat>, start: nat, used: nat)
    requires start + used <= |vs|
    requires forall i :: start <= i < start + used ==> !IsTerminator(vs[i])
    ensures var t := Token(vs[start + used..]);
            && start + used + |t| <= |vs| && t == vs[start + used..start + used + |t|]
            && TokenLen(vs[start..]) == used + |t| && LookAhead(vs, start) == Min(Ring.HISTORY, used + |t|)
            && (start + used + |t| < |vs| ==> IsTerminator(vs[start + used + |t|]))
  {
    TokenIs(vs, start + used);
    TokenLenAfter(vs, start, used);
    hide TokenLen, IsTerminator;
  }

  lemma CharactersSeen(vs: seq<nat>, start: nat, used: nat, m: nat, replayed: nat, w: EndWidth)
    requires start + used + m <= |vs| && used + m <= SafeLength(Off(vs, start) % R.BLOCK, w)
    requires forall i :: start <= i < start + used + m ==> vs[i] < 0x80
    requires start + used + m < |vs| ==> Width(vs[start + used + m]) <= w
    requires replayed >= start + Min(Ring.HISTORY, used + m)
    ensures Glimpses(vs, start + used, m, replayed) == vs[start + used..start + used + m]
  {
    var at := start + used;
    forall i | 0 <= i < m ensures Glimpses(vs, at, m, replayed)[i] == vs[at..at + m][i] {
      CharacterSeen(vs, start, used + m, at + i, replayed, w);
    }
  }

  lemma AllAscii(b: Base, vs: seq<nat>, start: nat, used: nat, t: seq<nat>)
    requires start + used + |t| <= |vs| && t == vs[start + used..start + used + |t|]
    requires forall i :: start <= i < start + used ==> vs[i] < 0x80
    requires forall i :: 0 <= i < |t| ==> IsDigit(b, t[i]) || t[i] == UNDERSCORE
    ensures forall i :: start <= i < start + used + |t| ==> vs[i] < 0x80
  {
    forall i | start + used <= i < start + used + |t| ensures vs[i] < 0x80 {
      DigitIsAscii(b, t[i - start - used]);
    }
  }

  /** The meaning of the literal at `start`, by its place in the text. */
  lemma LiteralAt(b: Base, vs: seq<nat>, start: nat)
    requires start < |vs|
    ensures var c := vs[start];
            Literal(b, vs[start..])
            == if b == Dec then
                 if c == PLUS || c == MINUS then DigitsMeaning(b, Token(vs[start + 1..]), c == MINUS)
                 else DigitsMeaning(b, Token(vs[start..]), false)
               else if start + 1 < |vs| && c == ZERO && vs[start + 1] == PrefixChar(b) then
                 DigitsMeaning(b, Token(vs[start + 2..]), false)
               else Err
    ensures var used := if b != Dec then 2 else if vs[start] == PLUS || vs[start] == MINUS then 1 else 0;
            start + used <= |vs| ==> DigitCount(b, vs[start..]) == |Strip(Token(vs[start + used..]))|
  {
    hide DigitsMeaning, Token, Strip;
    var s := vs[start..];
    assert s[0] == vs[start] && s[1..] == vs[start + 1..];
    if |s| >= 2 {
      assert s[1] == vs[start + 1] && s[2..] == vs[start + 2..];
    }
  }

  /** Every literal up to the safe length is read as it should be, or refused for its number of digits. */
  lemma {:induction false} SafeIsExact(b: Base, vs: seq<nat>, start: nat, replayed: nat, w: EndWidth)
    requires Ahead(vs, start, replayed) && EndsWithin(vs, start, w)
    requires TokenLen(vs[start..]) <= SafeLength(Off(vs, start) % R.BLOCK, w)
    ensures ReadLiteral(b, vs, start, replayed)
            == if DigitCount(b, vs[start..]) <= 128 then Literal(b, vs[start..]) else Err
  {
    hide Token, TokenLen, SafeLength, Off, Glimpses, ReadDigits, DigitsMeaning, IsDigit, LookAhead, Literal,
         IsTerminator, Strip, DigitCount, EndsWithin;
    LiteralAt(b, vs, start);
    PrefixPlain(b);
    var c := vs[start];
    var used := if b != Dec then 2 else if c == PLUS || c == MINUS then 1 else 0;
    if b == Dec || (start + 1 < |vs| && c == ZERO && vs[start + 1] == PrefixChar(b)) {
      TokenSeen(b, vs, start, used, replayed, w);
      SeenIsRead(b, vs, start + used, replayed, b == Dec && c == MINUS);
    }
  }

  /** A literal that is not longer than room for its digits demands. */
  lemma {:induction false} FewDigits(b: Base, s: seq<nat>)
    requires TokenLen(s) <= DIGIT_LIMIT + (if b == Dec then 0 else 2)
    ensures DigitCount(b, s) <= DIGIT_LIMIT || Literal(b, s) == Err
  {
    hide Token, TokenLen, IsTerminator, DigitsMeaning, Strip;
    PrefixPlain(b);
    var used := if b != Dec then 2 else if s != [] && (s[0] == PLUS || s[0] == MINUS) then 1 else 0;
    if b == Dec || (|s| >= 2 && s[0] == ZERO && s[1] == PrefixChar(b)) {
      TokenSlice(s, 0, used);
      assert s[0..] == s;
      StripShrinks(Token(s[used..]));
    }
  }

  lemma {:induction false} StripShrinks(t: seq<nat>)
    ensures |Strip(t)| <= |t|
  {
    if t != [] {
      StripShrinks(t[..|t| - 1]);
    }
  }

  lemma PrefixPlain(b: Base)
    ensures !IsTerminator(PLUS) && !IsTerminator(MINUS) && !IsTerminator(ZERO) && !IsTerminator(PrefixChar(b))
  {
  }

  // ---------------------------------------------------------------------------------------------
  // Decimals.

  /** At least every other character of a legal token is a digit. */
  lemma {:induction false} StripIsLong(b: Base, t: seq<nat>, i: nat)
    requires Legal(b, t) && 0 < i <= |t|
    ensures 2 * |Strip(t[..i])| >= i + (if IsDigit(b, t[i - 1]) then 1 else 0)
  {
    StripStep(t, i - 1);
    assert !IsDigit(b, UNDERSCORE);
    hide Strip, IsDigit;
    if i > 1 {
      StripIsLong(b, t, i - 1);
    }
  }

  /** No decimal longer than the history fits in 64 bits. */
  lemma {:induction false} LongDecimalIsErr(t: seq<nat>, negative: bool)
    requires |t| >= Ring.HISTORY - 1
    ensures DigitsMeaning(Dec, t, negative) == Err
  {
    if Legal(Dec, t) {
      StripIsLong(Dec, t, |t|);
      assert t[..|t|] == t;
      StripDigits(Dec, t);
      if Strip(t)[0] != ZERO {
        TooManyDigits(Dec, Strip(t));
      }
      hide Strip, Value, Legal;
    }
  }

  /** Decimals are read as they should be whatever their length: those that outgrow the history are
      refused, and stand for nothing anyway. */
  lemma {:induction false} DecimalIsExact(vs: seq<nat>, start: nat, replayed: nat)
    requires Ahead(vs, start, replayed)
    ensures NumberAt(Dec, vs, start, replayed) == Literal(Dec, vs[start..])
  {
    hide Token, TokenLen, SafeLength, Off, ReadLiteral, DigitsMeaning;
    var n := TokenLen(vs[start..]);
    LooksAtMost(vs, start);
    if n <= Ring.HISTORY {
      EndIsNarrow(vs, start);
      SafeIsExact(Dec, vs, start, replayed, 3);
      FewDigits(Dec, vs[start..]);
    }
    if n >= Ring.HISTORY {
      LongDecimal(vs, start);
    }
    CappedIs(vs, start, n);
  }

  lemma EndIsNarrow(vs: seq<nat>, start: nat)
    requires start <= |vs|
    ensures EndsWithin(vs, start, 3)
  {
    TokenIs(vs, start);
    var n := start + TokenLen(vs[start..]);
    if n < |vs| {
      IsNarrow(vs[n]);
    }
  }

  lemma CappedIs(vs: seq<nat>, start: nat, n: nat)
    requires start < |vs| && n == TokenLen(vs[start..])
    ensures n > Ring.HISTORY ==> start + Ring.HISTORY < |vs|
    ensures n < Ring.HISTORY ==> LookAhead(vs, start) < Ring.HISTORY
    ensures n >= Ring.HISTORY ==> LookAhead(vs, start) == Ring.HISTORY
  {
    TokenIs(vs, start);
  }

  lemma {:induction false} LongDecimal(vs: seq<nat>, start: nat)
    requires start < |vs| && TokenLen(vs[start..]) >= Ring.HISTORY
    ensures Literal(Dec, vs[start..]) == Err
  {
    hide Token, TokenLen, DigitsMeaning, IsTerminator;
    var s := vs[start..];
    var used := if s[0] == PLUS || s[0] == MINUS then 1 else 0;
    SignsAreNoEnd();
    TokenSlice(vs, start, used);
    assert vs[start + 1..] == s[1..];
    LongDecimalIsErr(Token(vs[start + used..]), s[0] == MINUS);
    LongDecimalIsErr(Token(vs[start + used..]), false);
  }

  lemma SignsAreNoEnd()
    ensures !IsTerminator(PLUS) && !IsTerminator(MINUS)
  {
  }

  // ---------------------------------------------------------------------------------------------
  // Longer literals.

  /** A key and an equals sign, as far from the start of a block as wanted. */
  function Before(offset: nat): (s: seq<nat>)
    ensures |s| == R.BLOCK + offset && forall i :: 0 <= i < |s| ==> s[i] < 0x80
  {
    [0x61] + seq(R.BLOCK - 3 + offset, _ => 0x20) + [0x3D, 0x20]
  }

  function Zeroes(n: nat): (s: seq<nat>)
    ensures |s| == n && forall i :: 0 <= i < n ==> s[i] == ZERO
  {
    seq(n, _ => ZERO)
  }

  /** `n` times a zero and an underscore. */
  function Pairs(n: nat): (s: seq<nat>)
    ensures |s| == 2 * n
    ensures forall i :: 0 <= i < |s| ==> s[i] == if i % 2 == 0 then ZERO else UNDERSCORE
  {
    seq(2 * n, i => if i % 2 == 0 then ZERO else UNDERSCORE)
  }

  lemma {:induction false} StripAppend(s: seq<nat>, t: seq<nat>)
    ensures Strip(s + t) == Strip(s) + Strip(t)
  {
    if t == [] {
      assert s + t == s;
    } else {
      var n := |t| - 1;
      assert (s + t)[..|s| + n] == s + t[..n];
      StripAppend(s, t[..n]);
    }
  }

  lemma {:induction false} StripOfZeroes(s: seq<nat>)
    requires forall i :: 0 <= i < |s| ==> s[i] == ZERO || s[i] == UNDERSCORE
    ensures |Strip(s)| <= |s| && forall i :: 0 <= i < |Strip(s)| ==> Strip(s)[i] == ZERO
  {
    if s != [] {
      StripOfZeroes(s[..|s| - 1]);
    }
  }

  lemma {:induction false} StripOfPairs(n: nat)
    ensures |Strip(Pairs(n))| == n
  {
    if n > 0 {
      StripOfPairs(n - 1);
      assert Pairs(n) == Pairs(n - 1) + [ZERO, UNDERSCORE];
      StripAppend(Pairs(n - 1), [ZERO, UNDERSCORE]);
      StripStep([ZERO, UNDERSCORE], 0);
      StripStep([ZERO, UNDERSCORE], 1);
      assert [ZERO, UNDERSCORE][..2] == [ZERO, UNDERSCORE] && [ZERO, UNDERSCORE][..0] == [];
    }
  }

  lemma {:induction false} ValueOfZeroes(b: Base, ds: seq<nat>)
    requires forall i :: 0 <= i < |ds| ==> ds[i] == ZERO
    ensures AllDigits(b, ds) && Value(b, ds) == 0
  {
    if ds != [] {
      ValueOfZeroes(b, ds[1..]);
      assert DigitValue(b, ds[0]) == 0;
    }
  }

  /** The last slots of a block, with little text left: the pointer shows an empty slot. */
  lemma {:induction false} ShowsNothing(vs: seq<nat>, k: nat)
    requires k + 1 < |vs| <= k + 1 + k % R.BLOCK && (forall i :: 0 <= i <= k ==> vs[i] < 0x80)
    requires k % R.BLOCK + Width(vs[k + 1]) >= R.BLOCK
    ensures Shown(vs, k) == 0
  {
    var start := k - k % R.BLOCK;
    AsciiOff(vs, 0, k + 1);
    AsciiOff(vs, 0, start);
    AsciiOff(vs, 0, start + 1);
    assert Off(vs, 0) == 0;
    assert Off(vs, k + 2) == k + 1 + Width(vs[k + 1]);
    BlockIs(BlockEnd(vs, k), start, k + 1);
    FitIs(vs, start, start);
    hide Off, Fit, Width;
  }

  /** A prefixed literal with the digits and underscores `u`, in a document that goes on with `after`. */
  function Doc(b: Base, offset: nat, u: seq<nat>, after: seq<nat>): seq<nat> {
    Before(offset) + [ZERO, PrefixChar(b)] + u + after
  }

  /** Where the literal of such a document starts. */
  function Start(offset: nat): nat { R.BLOCK + offset }

  predicate Written(b: Base, u: seq<nat>) { forall i :: 0 <= i < |u| ==> IsDigit(b, u[i]) || u[i] == UNDERSCORE }

  lemma {:induction false} DocIs(b: Base, offset: nat, u: seq<nat>, after: seq<nat>)
    ensures var vs, at := Doc(b, offset, u, after), Start(offset) + 2;
            && |vs| == at + |u| + |after|
            && vs[at - 2] == ZERO && vs[at - 1] == PrefixChar(b)
            && vs[at..] == u + after && (forall i :: 0 <= i < |u| ==> vs[at + i] == u[i])
            && (forall i :: 0 <= i < at - 2 ==> vs[i] < 0x80)
            && (after != [] ==> vs[at + |u|] == after[0])
  {
    assert |Before(offset)| == Start(offset);
  }

  lemma {:induction false} DocIsAscii(b: Base, offset: nat, u: seq<nat>, after: seq<nat>)
    requires Written(b, u)
    ensures Start(offset) + 2 + |u| <= |Doc(b, offset, u, after)|
    ensures forall i :: 0 <= i < Start(offset) + 2 + |u| ==> Doc(b, offset, u, after)[i] < 0x80
  {
    DocIs(b, offset, u, after);
    ZeroIsDigit(b);
    hide Doc, IsDigit;
    var vs, at := Doc(b, offset, u, after), Start(offset) + 2;
    forall i | 0 <= i < at + |u| ensures vs[i] < 0x80 {
      if at <= i {
        assert vs[at + (i - at)] == u[i - at];
      }
      if at - 2 <= i {
        DigitIsAscii(b, vs[i]);
      }
    }
  }

  lemma ZeroIsDigit(b: Base)
    ensures IsDigit(b, ZERO) && !IsTerminator(ZERO) && !IsTerminator(PrefixChar(b)) && !IsDigit(b, 0)
  {
  }

  lemma {:induction false} DocToken(b: Base, offset: nat, u: seq<nat>, after: seq<nat>)
    requires b != Dec && Written(b, u) && (after == [] || IsTerminator(after[0]))
    ensures var vs, start := Doc(b, offset, u, after), Start(offset);
            && start + 2 + |u| <= |vs| && Token(vs[start + 2..]) == u && TokenLen(vs[start..]) == |u| + 2
            && LookAhead(vs, start) == Min(Ring.HISTORY, |u| + 2) && Off(vs, start) == start
  {
    var vs, start := Doc(b, offset, u, after), Start(offset);
    DocIs(b, offset, u, after);
    DocIsAscii(b, offset, u, after);
    PlainToken(b, u, after);
    ZeroIsDigit(b);
    DocStart(b, offset, u, after);
    hide Doc, IsDigit, Token, TokenLen, LookAhead, IsTerminator, Off;
    TokenSlice(vs, start, 2);
  }

  lemma {:induction false} PlainToken(b: Base, u: seq<nat>, after: seq<nat>)
    requires forall i :: 0 <= i < |u| ==> IsDigit(b, u[i]) || u[i] == UNDERSCORE
    requires after == [] || IsTerminator(after[0])
    ensures TokenLen(u + after) == |u| && Token(u + after) == u
  {
    if u == [] {
      assert u + after == after;
    } else {
      PlainToken(b, u[1..], after);
      assert (u + after)[1..] == u[1..] + after;
      assert !IsTerminator(u[0]);
    }
  }

  /** Reading and meaning of the literal of such a document. */
  lemma {:induction false} DocReads(b: Base, offset: nat, u: seq<nat>, after: seq<nat>)
    requires b != Dec && Written(b, u) && (after == [] || IsTerminator(after[0]))
    ensures var vs, start := Doc(b, offset, u, after), Start(offset);
            var replayed := start + Min(Ring.HISTORY, |u| + 2);
            && Ahead(vs, start, replayed) && start + 2 + |u| <= |vs|
            && NumberAt(b, vs, start, replayed)
               == (if Accepted(b, u, Glimpses(vs, start + 2, |u|, replayed)) && |Strip(u)| <= DIGIT_LIMIT then
                     Meaning(b, Digits(b, u), false)
                   else Err)
            && Literal(b, vs[start..]) == (if Legal(b, u) then Meaning(b, Digits(b, u), false) else Err)
  {
    hide Doc, Meaning, IsDigit, Token, LookAhead, Shown, Off, IsTerminator, TokenLen, Glimpses, Accepted, Legal;
    var vs, start := Doc(b, offset, u, after), Start(offset);
    DocIs(b, offset, u, after);
    DocToken(b, offset, u, after);
    FromStart(vs, start);
  }

  lemma FromStart(vs: seq<nat>, start: nat)
    requires start + 2 <= |vs|
    ensures var s := vs[start..]; |s| >= 2 && s[0] == vs[start] && s[1] == vs[start + 1] && s[2..] == vs[start + 2..]
  {
  }

  function Digits(b: Base, u: seq<nat>): (ds: seq<nat>)
    requires Written(b, u)
    ensures AllDigits(b, ds)
  {
    StripDigits(b, u);
    Strip(u)
  }

  /** If character `i` is an underscore, the one before is a zero and seen as it is. */
  predicate SeenAfterZero(vs: seq<nat>, at: nat, u: seq<nat>, i: nat, replayed: nat)
    requires 0 < i < |u| && at + |u| <= |vs|
  {
    u[i] == UNDERSCORE ==> u[i - 1] == ZERO && Glimpse(vs, at + i - 1, replayed) == vs[at + i - 1]
  }

  /** `u` is accepted when each underscore but perhaps the last follows a zero that is still replayed,
      and the last character shows as nothing. */
  lemma {:induction false} ZeroesAccepted(b: Base, vs: seq<nat>, at: nat, u: seq<nat>, replayed: nat)
    requires u != [] && at + |u| <= |vs| && (forall i :: 0 <= i < |u| ==> vs[at + i] == u[i]) && u[0] == ZERO
    requires Written(b, u) && Shown(vs, at + |u| - 1) == 0 && at + |u| - 1 >= replayed
    requires forall i :: 0 < i < |u| ==> SeenAfterZero(vs, at, u, i, replayed)
    ensures Accepted(b, u, Glimpses(vs, at, |u|, replayed))
  {
    ZeroIsDigit(b);
    var g := Glimpses(vs, at, |u|, replayed);
    hide IsDigit, Shown;
    assert g[|u| - 1] == 0;
    forall i | 0 < i < |u| && u[i] == UNDERSCORE ensures IsDigit(b, g[i - 1]) {
      assert SeenAfterZero(vs, at, u, i, replayed);
      assert g[i - 1] == Glimpse(vs, at + i - 1, replayed) == u[i - 1];
    }
  }

  lemma {:induction false} ZeroMeaning(b: Base, u: seq<nat>)
    requires b != Dec && (forall i :: 0 <= i < |u| ==> u[i] == ZERO || u[i] == UNDERSCORE)
    ensures Written(b, u) && Meaning(b, Digits(b, u), false) == Ok(0)
  {
    ZeroIsDigit(b);
    StripOfZeroes(u);
    ValueOfZeroes(b, Strip(u));
  }

  /** The first length that is not safe, with a trailing underscore on the edge of a block. */
  function Misread(offset: nat, w: EndWidth): seq<nat> {
    Pairs(30) + Zeroes(SafeLength(offset, w) - 62) + [UNDERSCORE]
  }

  predicate AfterZero(u: seq<nat>, i: nat)
    requires 0 < i < |u|
  {
    u[i] == UNDERSCORE ==> u[i - 1] == ZERO && (i < 60 || i == |u| - 1)
  }

  lemma {:induction false} MisreadIs(offset: nat, w: EndWidth)
    ensures var u := Misread(offset, w);
            && |u| == SafeLength(offset, w) - 1 && u[0] == ZERO && u[|u| - 1] == UNDERSCORE && u[|u| - 2] == ZERO
            && (forall i :: 0 <= i < |u| ==> u[i] == ZERO || u[i] == UNDERSCORE)
            && (forall i :: 0 < i < |u| ==> AfterZero(u, i))
            && |Strip(u)| <= DIGIT_LIMIT
  {
    var z := Zeroes(SafeLength(offset, w) - 62) + [UNDERSCORE];
    assert Misread(offset, w) == Pairs(30) + z;
    StripAppend(Pairs(30), z);
    StripOfPairs(30);
    StripOfZeroes(z);
    hide Strip;
  }

  lemma SafeEdge(offset: nat, w: EndWidth)
    ensures (Start(offset) + SafeLength(offset, w)) % R.BLOCK >= R.BLOCK - w
  {
  }

  lemma {:induction false} EdgeShowsNothing(b: Base, offset: nat, k: nat, w: EndWidth)
    requires b != Dec && k == Start(offset) + SafeLength(offset, w)
    ensures var vs := Doc(b, offset, Misread(offset, w), [Ender(w)]); |vs| == k + 2 && Shown(vs, k) == 0
    ensures var vs := Doc(b, offset, Misread(offset, w), [Ender(w)]);
            Off(vs, Start(offset)) == Start(offset) && (forall i :: 0 <= i <= k ==> vs[i] < 0x80)
  {
    hide Doc, Misread, IsDigit, Strip, Off, Shown, SafeLength, AfterZero, Ender, Width, IsTerminator;
    var u := Misread(offset, w);
    var vs := Doc(b, offset, u, [Ender(w)]);
    MisreadIs(offset, w);
    ZeroIsDigit(b);
    DocIs(b, offset, u, [Ender(w)]);
    DocIsAscii(b, offset, u, [Ender(w)]);
    DocStart(b, offset, u, [Ender(w)]);
    SafeEdge(offset, w);
    EnderIs(w);
    ShowsNothing(vs, k);
  }

  lemma {:induction false} MisreadAccepted(b: Base, offset: nat, w: EndWidth)
    requires b != Dec
    ensures var u, at := Misread(offset, w), Start(offset) + 2;
            var vs := Doc(b, offset, u, [Ender(w)]);
            && at + |u| <= |vs| && Written(b, u)
            && Accepted(b, u, Glimpses(vs, at, |u|, Start(offset) + Ring.HISTORY))
  {
    hide Doc, Misread, IsDigit, Strip, Off, Shown, SafeLength, Accepted, Glimpse, Glimpses, AfterZero,
         SeenAfterZero, Start;
    var u, start := Misread(offset, w), Start(offset);
    var at := start + 2;
    var vs := Doc(b, offset, u, [Ender(w)]);
    var k, replayed := start + SafeLength(offset, w), start + Ring.HISTORY;
    MisreadIs(offset, w);
    ZeroIsDigit(b);
    DocIs(b, offset, u, [Ender(w)]);
    EdgeShowsNothing(b, offset, k, w);
    BeforeLast(vs, offset, k, replayed, w);
    MisreadSeen(vs, at, u, replayed);
    ZeroesAccepted(b, vs, at, u, replayed);
  }

  lemma MisreadSeen(vs: seq<nat>, at: nat, u: seq<nat>, replayed: nat)
    requires replayed + 2 == at + Ring.HISTORY && |u| > 60 && at + |u| <= |vs|
    requires forall i :: 0 < i < |u| ==> AfterZero(u, i)
    requires Glimpse(vs, at + |u| - 2, replayed) == vs[at + |u| - 2]
    ensures forall i :: 0 < i < |u| ==> SeenAfterZero(vs, at, u, i, replayed)
  {
    hide Shown;
    forall i | 0 < i < |u| ensures SeenAfterZero(vs, at, u, i, replayed) {
      assert AfterZero(u, i);
    }
  }

  lemma {:induction false} DocStart(b: Base, offset: nat, u: seq<nat>, after: seq<nat>)
    ensures Start(offset) <= |Doc(b, offset, u, after)|
    ensures Off(Doc(b, offset, u, after), Start(offset)) == Start(offset)
  {
    DocIs(b, offset, u, after);
    hide Doc;
    assert Off(Doc(b, offset, u, after), 0) == 0;
    AsciiOff(Doc(b, offset, u, after), 0, Start(offset));
  }

  lemma {:induction false} MisreadRead(b: Base, offset: nat, w: EndWidth)
    requires b != Dec
    ensures var vs, start := Doc(b, offset, Misread(offset, w), [Ender(w)]), Start(offset);
            && Ahead(vs, start, start + Ring.HISTORY)
            && NumberAt(b, vs, start, start + Ring.HISTORY) == Ok(0) && Literal(b, vs[start..]) == Err
  {
    hide Doc, Misread, IsTerminator, IsDigit, Strip, Meaning, Token, TokenLen, LookAhead, Off, Shown, SafeLength,
         Literal, NumberAt, Accepted, Legal, Glimpse, Glimpses, Digits, AfterZero, Start;
    var u := Misread(offset, w);
    EnderIs(w);
    MisreadIs(offset, w);
    ZeroMeaning(b, u);
    MisreadAccepted(b, offset, w);
    EndsInUnderscore(b, u);
    DocReads(b, offset, u, [Ender(w)]);
  }

  /** Right after the safe length there is a literal that is accepted although its last character is an
      underscore: the pointer to it shows an empty slot of the next block. */
  lemma {:induction false} TooLongIsMisread(b: Base, offset: nat, w: EndWidth)
    requires b != Dec
    ensures var vs, start := Doc(b, offset, Misread(offset, w), [Ender(w)]), Start(offset);
            && U.AllScalar(vs) && Ahead(vs, start, start + Ring.HISTORY) && Off(vs, start) == start
            && TokenLen(vs[start..]) == SafeLength(offset, w) + 1 && EndsWithin(vs, start, w)
            && NumberAt(b, vs, start, start + Ring.HISTORY) == Ok(0) && Literal(b, vs[start..]) == Err
  {
    hide Doc, Misread, IsTerminator, IsDigit, Strip, Token, TokenLen, LookAhead, Off, SafeLength, Literal, NumberAt,
         AfterZero, Start, Ahead;
    var u := Misread(offset, w);
    EnderIs(w);
    MisreadIs(offset, w);
    MisreadWritten(b, u);
    MisreadRead(b, offset, w);
    DocScalars(b, offset, u, Ender(w));
    DocStart(b, offset, u, [Ender(w)]);
    DocToken(b, offset, u, [Ender(w)]);
    DocIs(b, offset, u, [Ender(w)]);
  }

  lemma MisreadWritten(b: Base, u: seq<nat>)
    requires forall i :: 0 <= i < |u| ==> u[i] == ZERO || u[i] == UNDERSCORE
    ensures Written(b, u)
  {
    ZeroIsDigit(b);
  }

  /** A character that ends a literal and takes `w` bytes. */
  function Ender(w: EndWidth): nat { if w == 1 then 0x0A else if w == 2 then 0x85 else 0x2028 }

  lemma EnderIs(w: EndWidth)
    ensures IsTerminator(Ender(w)) && U.IsScalar(Ender(w)) && Width(Ender(w)) == w
  {
  }

  lemma EndsInUnderscore(b: Base, u: seq<nat>)
    ensures u != [] && u[|u| - 1] == UNDERSCORE ==> !Legal(b, u)
  {
  }

  lemma {:induction false} DocScalars(b: Base, offset: nat, u: seq<nat>, c: nat)
    requires Written(b, u) && U.IsScalar(c)
    ensures U.AllScalar(Doc(b, offset, u, [c]))
  {
    var vs := Doc(b, offset, u, [c]);
    DocIs(b, offset, u, [c]);
    DocIsAscii(b, offset, u, [c]);
    hide Doc;
    assert forall i :: 0 <= i < |vs| ==> vs[i] < 0x80 || vs[i] == c;
  }

  /** Up to the last character of that literal everything is seen as it is. */
  lemma BeforeLast(vs: seq<nat>, offset: nat, k: nat, replayed: nat, w: EndWidth)
    requires k == Start(offset) + SafeLength(offset, w) && k < |vs| && replayed == Start(offset) + Ring.HISTORY
    requires Off(vs, Start(offset)) == Start(offset) && forall i :: 0 <= i <= k ==> vs[i] < 0x80
    ensures Glimpse(vs, k - 1, replayed) == vs[k - 1]
  {
    if k - 1 >= replayed {
      SameEdge(offset, w);
      CharacterSeen(vs, Start(offset), SafeLength(offset, w), k - 1, replayed, w);
    }
  }

  lemma SameEdge(offset: nat, w: EndWidth)
    ensures SafeLength(Start(offset) % R.BLOCK, w) == SafeLength(offset, w)
  {
    var q, r := offset / R.BLOCK, offset % R.BLOCK;
    assert Start(offset) == R.BLOCK * (q + 1) + r;
    assert Start(offset) % R.BLOCK == r;
    assert offset + Ring.HISTORY == R.BLOCK * q + (r + Ring.HISTORY);
    assert (offset + Ring.HISTORY) % R.BLOCK == (r + Ring.HISTORY) % R.BLOCK;
  }

  // ---------------------------------------------------------------------------------------------
  // The exact length.

  /** Wherever a literal of at most `n` characters starts `offset` bytes into a block, and whatever of at
      most `w` bytes ends it, it is read as it should be. */
  ghost predicate AlwaysExact(b: Base, offset: nat, n: nat, w: EndWidth) {
    forall vs, start: nat, replayed: nat ::
      U.AllScalar(vs) && Placed(vs, start, replayed, offset, n, w)
      ==> NumberAt(b, vs, start, replayed) == Literal(b, vs[start..])
  }

  ghost predicate Placed(vs: seq<nat>, start: nat, replayed: nat, offset: nat, n: nat, w: EndWidth) {
    && Ahead(vs, start, replayed) && Off(vs, start) % R.BLOCK == offset
    && TokenLen(vs[start..]) <= n && EndsWithin(vs, start, w)
  }

  /** In every document, literals of at most `n` characters at this distance from the start of a block are
      read as they should be if and only if they are decimal or `n` is at most the exact length. */
  lemma {:induction false} AlwaysExactIff(b: Base, offset: nat, n: nat, w: EndWidth)
    requires offset < R.BLOCK
    ensures AlwaysExact(b, offset, n, w) <==> b == Dec || n <= ExactLength(offset, w)
  {
    hide NumberAt, Literal, SafeLength, Off, TokenLen, Doc, Misread, EndsWithin, LookAhead;
    if b == Dec || n <= ExactLength(offset, w) {
      forall vs, start: nat, replayed: nat | U.AllScalar(vs) && Placed(vs, start, replayed, offset, n, w)
        ensures NumberAt(b, vs, start, replayed) == Literal(b, vs[start..])
      {
        if b == Dec {
          DecimalIsExact(vs, start, replayed);
        } else {
          ExactUpTo(b, vs, start, replayed, w);
        }
      }
    } else if n <= SafeLength(offset, w) {
      TooManyZeroesRefused(b, offset, 128);
      SameOffset(offset);
      EndsWithinMore(Doc(b, offset, Padded(128), [0x0A]), Start(offset), w);
    } else {
      TooLongIsMisread(b, offset, w);
      SameOffset(offset);
    }
  }

  lemma EndsWithinMore(vs: seq<nat>, start: nat, w: EndWidth)
    requires start <= |vs| && EndsWithin(vs, start, 1)
    ensures EndsWithin(vs, start, w)
  {
  }

  /** Prefixed literals up to the exact length. */
  lemma {:induction false} ExactUpTo(b: Base, vs: seq<nat>, start: nat, replayed: nat, w: EndWidth)
    requires b != Dec && Ahead(vs, start, replayed) && EndsWithin(vs, start, w)
    requires TokenLen(vs[start..]) <= ExactLength(Off(vs, start) % R.BLOCK, w)
    ensures NumberAt(b, vs, start, replayed) == Literal(b, vs[start..])
  {
    hide NumberAt, Literal, SafeLength, Off, TokenLen, EndsWithin, DigitCount, ReadLiteral;
    SafeIsExact(b, vs, start, replayed, w);
    FewDigits(b, vs[start..]);
    PrefixedIs(b, vs, start, replayed);
  }

  /** Literals of at most 127 characters are read as they should be wherever they stand. */
  lemma {:induction false} ShortIsExact(b: Base, vs: seq<nat>, start: nat, replayed: nat)
    requires Ahead(vs, start, replayed) && TokenLen(vs[start..]) <= 127
    ensures NumberAt(b, vs, start, replayed) == Literal(b, vs[start..])
  {
    hide NumberAt, Literal, SafeLength, Off, TokenLen, EndsWithin;
    if b == Dec {
      DecimalIsExact(vs, start, replayed);
    } else {
      EndIsNarrow(vs, start);
      ExactUpTo(b, vs, start, replayed, 3);
    }
  }

  lemma PrefixedIs(b: Base, vs: seq<nat>, start: nat, replayed: nat)
    requires b != Dec && start < |vs|
    ensures NumberAt(b, vs, start, replayed) == ReadLiteral(b, vs, start, replayed)
  {
  }

  lemma SameOffset(offset: nat)
    requires offset < R.BLOCK
    ensures Start(offset) % R.BLOCK == offset
  {
  }

  /** A prefix, `n` zeroes and a one: a legal literal for the number one. */
  function Padded(n: nat): seq<nat> { Zeroes(n) + [0x31] }

  /** It is refused for its length, wherever it stands, as soon as there are 128 zeroes. */
  lemma {:induction false} TooManyZeroesRefused(b: Base, offset: nat, n: nat)
    requires b != Dec && n >= 128
    ensures var vs, start := Doc(b, offset, Padded(n), [0x0A]), Start(offset);
            && U.AllScalar(vs) && Ahead(vs, start, start + Ring.HISTORY) && Off(vs, start) == start
            && TokenLen(vs[start..]) == n + 3 && EndsWithin(vs, start, 1)
            && NumberAt(b, vs, start, start + Ring.HISTORY) == Err && Literal(b, vs[start..]) == Ok(1)
  {
    hide Doc, IsTerminator, IsDigit, Strip, Meaning, Token, TokenLen, LookAhead, Off, Shown, Literal, NumberAt,
         Accepted, Legal, Digits, Padded, Start, Glimpses, Ahead;
    var u := Padded(n);
    PaddedIs(b, n);
    EnderIs(1);
    DocScalars(b, offset, u, 0x0A);
    DocToken(b, offset, u, [0x0A]);
    DocIs(b, offset, u, [0x0A]);
    DocReads(b, offset, u, [0x0A]);
  }

  lemma {:induction false} PaddedIs(b: Base, n: nat)
    requires b != Dec
    ensures var u := Padded(n);
            && |u| == n + 1 && Written(b, u) && Legal(b, u) && |Strip(u)| == n + 1
            && Meaning(b, Digits(b, u), false) == Ok(1)
  {
    var z, u := Zeroes(n), Padded(n);
    ZeroIsDigit(b);
    assert IsDigit(b, 0x31) && DigitValue(b, 0x31) == 1;
    hide Strip, Value, IsDigit, DigitValue, Zeroes;
    assert AllDigits(b, u);
    StripOfDigits(b, u);
    ValueOfZeroes(b, z);
    ValueAppend(b, z, 0x31);
  }

  function LegalTail(): seq<nat> { Zeroes(126) + [UNDERSCORE, 0x31] }

  function IllegalTail(): seq<nat> { Zeroes(125) + [UNDERSCORE] }

  /** A legal literal of 130 characters at the start of a block, at the end of the file, is refused: the
      pointer to the digit before its underscore shows an empty slot. */
  lemma {:induction false} LegalIsRefused(b: Base)
    requires b != Dec
    ensures var vs, start := Doc(b, 0, LegalTail(), []), Start(0);
            && Ahead(vs, start, start + Ring.HISTORY)
            && NumberAt(b, vs, start, start + Ring.HISTORY) == Err && Literal(b, vs[start..]) == Ok(1)
  {
    hide Doc, IsTerminator, IsDigit, Strip, Meaning, Token, TokenLen, LookAhead, Off, Shown, Literal, NumberAt,
         Accepted, Legal, Digits, LegalTail, Start, Glimpses;
    var u := LegalTail();
    var vs, at, replayed := Doc(b, 0, u, []), Start(0) + 2, Start(0) + Ring.HISTORY;
    LegalTailIs(b);
    StartIs();
    DocIs(b, 0, u, []);
    DocIsAscii(b, 0, u, []);
    ShowsNothing(vs, 159);
    DocReads(b, 0, u, []);
    var g := Glimpses(vs, at, |u|, replayed);
    assert g[125] == Glimpse(vs, 159, replayed) == 0;
    NotAccepted(b, u, g, 126);
  }

  lemma StartIs()
    ensures Start(0) == 32
  {
  }

  lemma NotAccepted(b: Base, t: seq<nat>, g: seq<nat>, i: nat)
    requires 0 < i < |t| == |g| && t[i] == UNDERSCORE && g[i - 1] == 0
    ensures !Accepted(b, t, g)
  {
    ZeroIsDigit(b);
  }

  lemma {:induction false} LegalTailIs(b: Base)
    requires b != Dec
    ensures var u := LegalTail();
            && |u| == 128 && u[126] == UNDERSCORE
            && Written(b, u) && Legal(b, u) && Meaning(b, Digits(b, u), false) == Ok(1)
  {
    hide Strip, Value, IsDigit, DigitValue, Zeroes, LegalTail, Legal;
    var z, one := Zeroes(126) + [UNDERSCORE], [0x31];
    LegalTailWritten(b);
    StripOfZeroes(z);
    ValueOfZeroes(b, Strip(z));
    StripAppend(z, one);
    StripStep(one, 0);
    assert one[..0] == [] && one[..1] == one;
    assert Strip(one) == [] + one == one;
    ValueAppend(b, Strip(z), 0x31);
  }

  lemma {:induction false} LegalTailWritten(b: Base)
    ensures var u := LegalTail(); |u| == 128 && u[126] == UNDERSCORE && Written(b, u) && Legal(b, u)
    ensures LegalTail() == Zeroes(126) + [UNDERSCORE] + [0x31] && Strip([]) == []
    ensures IsDigit(b, 0x31) && DigitValue(b, 0x31) == 1
  {
    ZeroIsDigit(b);
    NotDigits(b);
    assert IsDigit(b, 0x31);
    hide IsDigit;
  }

  /** An illegal literal of 128 characters at the start of a block, with a newline after it, is accepted:
      the pointer to its trailing underscore shows an empty slot. */
  lemma {:induction false} IllegalIsAccepted(b: Base)
    requires b != Dec
    ensures var vs, start := Doc(b, 0, IllegalTail(), [0x0A]), Start(0);
            && Ahead(vs, start, start + Ring.HISTORY)
            && NumberAt(b, vs, start, start + Ring.HISTORY) == Ok(0) && Literal(b, vs[start..]) == Err
  {
    hide Doc, IsTerminator, IsDigit, Strip, Meaning, Token, TokenLen, LookAhead, Off, Shown, Literal, NumberAt,
         Accepted, Legal, Digits, IllegalTail, Start, Glimpses;
    var u := IllegalTail();
    var vs, at, replayed := Doc(b, 0, u, [0x0A]), Start(0) + 2, Start(0) + Ring.HISTORY;
    IllegalTailIs(b, vs, at, replayed);
    StartIs();
    EnderIs(1);
    DocIs(b, 0, u, [0x0A]);
    DocIsAscii(b, 0, u, [0x0A]);
    ShowsNothing(vs, 159);
    ZeroesAccepted(b, vs, at, u, replayed);
    DocReads(b, 0, u, [0x0A]);
  }

  lemma {:induction false} IllegalTailIs(b: Base, vs: seq<nat>, at: nat, replayed: nat)
    requires b != Dec && replayed + 2 == at + Ring.HISTORY
    ensures var u := IllegalTail();
            && |u| == 126 && u[0] == ZERO && Written(b, u) && !Legal(b, u) && Meaning(b, Digits(b, u), false) == Ok(0)
            && |Strip(u)| <= DIGIT_LIMIT
            && (at + |u| <= |vs| ==> forall i :: 0 < i < |u| ==> SeenAfterZero(vs, at, u, i, replayed))
  {
    var u := IllegalTail();
    StripOfZeroes(u);
    ZeroMeaning(b, u);
    EndsInUnderscore(b, u);
    hide Shown, Meaning, Strip, Legal;
  }

  // ---------------------------------------------------------------------------------------------
  // Printed integers.

  lemma {:induction false} PrintedIsShort(fmt: Base, allowed: set<Base>, v: int)
    requires I64_MIN <= v <= I64_MAX
    ensures |PrintInteger(fmt, allowed, v)| <= 65
  {
    var b := PrintedBase(fmt, allowed, v);
    var n: nat := if v < 0 then -v else v;
    DigitsHaveValue(b, n);
    var ds := ToDigits(b, n);
    hide ToDigits, Value, IsDigit;
    if |ds| > MaxDigits(b) {
      TooManyDigits(b, ds);
    }
  }

  lemma ShortToken(p: seq<nat>, after: seq<nat>)
    requires after == [] || IsTerminator(after[0])
    ensures TokenLen(p + after) <= |p|
  {
    assert after != [] ==> (p + after)[|p|] == after[0];
  }

  /** A printed integer is read back wherever it stands in a document. */
  lemma {:induction false} PrintedIsRead(fmt: Base, allowed: set<Base>, v: int, before: seq<nat>, after: seq<nat>,
                                         replayed: nat)
    requires I64_MIN <= v <= I64_MAX && (after == [] || IsTerminator(after[0]))
    requires Ahead(before + PrintInteger(fmt, allowed, v) + after, |before|, replayed)
    ensures var vs := before + PrintInteger(fmt, allowed, v) + after;
            NumberAt(PrintedBase(fmt, allowed, v), vs, |before|, replayed) == Ok(v)
  {
    var b, p := PrintedBase(fmt, allowed, v), PrintInteger(fmt, allowed, v);
    var vs := before + p + after;
    assert vs[|before|..] == p + after;
    PrintThenParse(fmt, allowed, v, after);
    PrintedIsShort(fmt, allowed, v);
    ShortToken(p, after);
    hide PrintInteger, PrintedBase, NumberAt, Literal, SafeLength, Off, TokenLen, LookAhead, IsTerminator;
    ShortIsExact(b, vs, |before|, replayed);
  }
}
