/** Reading an integer literal from a document. The parser remembers the previous character by pointer;
    past the 127 code points that are replayed after the look-ahead, such a pointer may show a
    character of the next block instead. What is read is stated for every literal and every place in a
    document, and so is how long a literal may be before that matters. */
module TomlLiteral {
  import opened Prelude
  import opened TomlChars
  import opened TomlInteger
  import opened TomlCursor
  import U = Utf8
  import R = Utf8Reader
  import Ring = ReplayRing

  // ---------------------------------------------------------------------------------------------
  // What is read.

  /** What the pointers to the `n` characters from `start` on show once the next character has been
      read, when the code points before `replayed` are replayed from the history. */
  function Glimpses(vs: seq<nat>, start: nat, n: nat, replayed: nat): (g: seq<nat>)
    requires start + n <= |vs|
    ensures |g| == n && forall i :: 0 <= i < n ==> g[i] == Glimpse(vs, start + i, replayed)
  {
    seq<nat>(n, i requires 0 <= i < n => Glimpse(vs, start + i, replayed))
  }

  function Glimpse(vs: seq<nat>, k: nat, replayed: nat): nat
    requires k < |vs|
  {
    if k < replayed then vs[k] else Shown(vs, k)
  }

  /** The digit loop accepts the token: an underscore must stand where the character before it shows
      as a digit, and the last character must not show as an underscore. */
  ghost predicate Accepted(b: Base, t: seq<nat>, g: seq<nat>)
    requires |g| == |t|
  {
    && t != [] && IsDigit(b, t[0])
    && (forall i :: 0 <= i < |t| ==> IsDigit(b, t[i]) || t[i] == UNDERSCORE)
    && (forall i :: 0 < i < |t| && t[i] == UNDERSCORE ==> IsDigit(b, g[i - 1]))
    && g[|t| - 1] != UNDERSCORE
  }

  ghost function ReadDigits(b: Base, vs: seq<nat>, at: nat, replayed: nat, negative: bool): Result<int>
    requires at <= |vs|
  {
    var t := Token(vs[at..]);
    if Accepted(b, t, Glimpses(vs, at, |t|, replayed)) && |Strip(t)| <= DIGIT_LIMIT then
      StripDigits(b, t);
      Meaning(b, Strip(t), negative)
    else Err
  }

  /** parse_integer at code point `start`. */
  ghost function ReadLiteral(b: Base, vs: seq<nat>, start: nat, replayed: nat): Result<int>
    requires start < |vs|
  {
    if b == Dec then
      if vs[start] == PLUS || vs[start] == MINUS then ReadDigits(b, vs, start + 1, replayed, vs[start] == MINUS)
      else ReadDigits(b, vs, start, replayed, false)
    else if start + 1 < |vs| && vs[start] == ZERO && vs[start + 1] == PrefixChar(b) then
      ReadDigits(b, vs, start + 2, replayed, false)
    else Err
  }

  function Min(x: nat, y: nat): nat { if x <= y then x else y }

  function Max(x: nat, y: nat): nat { if x <= y then y else x }

  /** How far parse_value looks ahead. */
  function LookAhead(vs: seq<nat>, start: nat): nat
    requires start <= |vs|
  {
    Min(Ring.HISTORY, TokenLen(vs[start..]))
  }

  /** parse_value, with its limit on the length of decimal numbers. */
  ghost function NumberAt(b: Base, vs: seq<nat>, start: nat, replayed: nat): Result<int>
    requires start < |vs|
  {
    if b == Dec && LookAhead(vs, start) > Ring.HISTORY - 1 && start + LookAhead(vs, start) < |vs| then Err
    else ReadLiteral(b, vs, start, replayed)
  }

  // ---------------------------------------------------------------------------------------------
  // The parser.

  /** The first `i` characters have been accepted, and their digits collected. */
  ghost predicate Scanned(b: Base, t: seq<nat>, g: seq<nat>, i: nat, digits: seq<nat>)
    requires |g| == |t|
  {
    && i <= |t| && (i > 0 ==> IsDigit(b, t[0])) && digits == Strip(t[..i])
    && (forall k :: 0 <= k < i ==> IsDigit(b, t[k]) || t[k] == UNDERSCORE)
    && (forall k :: 0 < k < i && t[k] == UNDERSCORE ==> IsDigit(b, g[k - 1]))
  }

  /** The tests on a character, given what the pointer to the one before shows. */
  predicate Refused(b: Base, prev: Option<nat>, ch: nat, length: nat) {
    if ch == UNDERSCORE then prev == None || !IsDigit(b, prev.value)
    else if prev == Some(UNDERSCORE) && !IsDigit(b, ch) then true
    else if !IsDigit(b, ch) then true
    else length == DIGIT_LIMIT
  }

  lemma {:induction false} ScannedStep(b: Base, t: seq<nat>, g: seq<nat>, i: nat, digits: seq<nat>)
    requires i < |t| == |g| && Scanned(b, t, g, i, digits) && |digits| <= DIGIT_LIMIT
    ensures var prev := if i == 0 then None else Some(g[i - 1]);
            var more := if t[i] == UNDERSCORE then digits else digits + [t[i]];
            if Refused(b, prev, t[i], |digits|) then !Accepted(b, t, g) || |Strip(t)| > DIGIT_LIMIT
            else Scanned(b, t, g, i + 1, more) && |more| <= DIGIT_LIMIT
  {
    StripStep(t, i);
    StripGrows(t, i + 1);
    NotDigits(b);
    hide Strip, IsDigit;
  }

  lemma ScannedEnd(b: Base, t: seq<nat>, g: seq<nat>, digits: seq<nat>)
    requires t != [] && |g| == |t| && Scanned(b, t, g, |t|, digits)
    ensures (Accepted(b, t, g) <==> g[|t| - 1] != UNDERSCORE) && digits == Strip(t)
  {
    assert t[..|t|] == t;
  }

  /** An underscore at the end of the file is seen as it is. */
  lemma LastUnderscore(b: Base, vs: seq<nat>, start: nat, replayed: nat)
    requires start <= |vs|
    ensures var t := Token(vs[start..]);
            t != [] && start + |t| == |vs| && t[|t| - 1] == UNDERSCORE ==>
              !Accepted(b, t, Glimpses(vs, start, |t|, replayed))
  {
    TokenIs(vs, start);
    if vs != [] {
      LastStays(vs);
    }
    hide Shown, Token;
    var t := Token(vs[start..]);
    var g := Glimpses(vs, start, |t|, replayed);
    assert t != [] ==> g[|t| - 1] == Glimpse(vs, start + |t| - 1, replayed);
  }

  lemma NotDigits(b: Base)
    ensures !IsDigit(b, UNDERSCORE)
  {
  }

  /** The token at `start`. */
  lemma TokenIs(vs: seq<nat>, start: nat)
    requires start <= |vs|
    ensures var t := Token(vs[start..]);
            && start + |t| <= |vs|
            && (forall i :: 0 <= i < |t| ==> t[i] == vs[start + i] && !IsTerminator(t[i]))
            && (start + |t| < |vs| ==> IsTerminator(vs[start + |t|]))
  {
  }

  /** The cursor is `pos` characters past `start`; `prev` points to the one before. */
  ghost predicate Standing(c: Cursor, vs: seq<nat>, start: nat, replayed: nat, pos: nat, prev: Option<Place>)
    reads c, c.reader
  {
    && c.Valid() && vs == Points(c.reader.text) && start + pos <= |vs|
    && c.At() == start + pos && |c.history| == Max(replayed, start + pos)
    && (prev == None <==> pos == 0)
    && (prev.Some? ==>
          && (prev.value.Kept? ==> prev.value.index < |c.history|)
          && (U.WellFormed(c.reader.text) ==> c.Deref(prev.value) == Glimpse(vs, start + pos - 1, replayed)))
  }

  lemma Stand(c: Cursor)
    requires c.Valid()
    ensures c.back <= |c.history| && c.At() <= |Points(c.reader.text)|
    ensures Standing(c, Points(c.reader.text), c.At(), |c.history|, 0, None)
    ensures c.Current() == None <==> c.At() == |Points(c.reader.text)|
    ensures c.Current().Some? ==> c.Deref(c.Current().value) == Points(c.reader.text)[c.At()]
  {
    hide R.Loaded, Points;
    c.CurrentIs();
  }

  /** The character the cursor stands on, and what the pointer to the one before shows. */
  method Look(c: Cursor, prev: Option<Place>, ghost vs: seq<nat>, ghost start: nat, ghost replayed: nat, ghost pos: nat)
    returns (ch: Option<nat>, before: Option<nat>)
    requires Standing(c, vs, start, replayed, pos, prev)
    ensures start + pos <= |vs| && ch == if start + pos == |vs| then None else Some(vs[start + pos])
    ensures ch == None <==> c.Current() == None
    ensures before == None <==> pos == 0
    ensures U.WellFormed(c.reader.text) && pos > 0 ==> before == Some(Glimpse(vs, start + pos - 1, replayed))
  {
    hide R.Loaded, Points, Glimpse;
    c.CurrentIs();
    var cp := c.Current();
    ch := if cp == None then None else Some(c.Deref(cp.value));
    before := if prev == None then None else Some(c.Deref(prev.value));
  }

  /** Moves on and remembers where it was. */
  method Pass(c: Cursor, ghost prev: Option<Place>, ghost vs: seq<nat>, ghost start: nat, ghost replayed: nat,
              ghost pos: nat)
    returns (ok: bool, now: Option<Place>)
    requires Standing(c, vs, start, replayed, pos, prev) && c.Current().Some?
    modifies c, c.reader
    ensures !ok ==> !U.WellFormed(c.reader.text)
    ensures ok ==> Standing(c, vs, start, replayed, pos + 1, now)
  {
    hide R.Loaded, Points, Shown, U.WellFormed;
    c.CurrentIs();
    now := c.Current();
    ok := c.Advance();
    if ok {
      c.CurrentIs();
    }
  }

  datatype Verdict = Ended | Bad | Going

  /** One round of the digit loop. */
  method ScanOne(b: Base, c: Cursor, prev: Option<Place>, digits: seq<nat>, ghost vs: seq<nat>, ghost start: nat,
                 ghost replayed: nat, ghost pos: nat)
    returns (v: Verdict, now: Option<Place>, more: seq<nat>)
    requires Standing(c, vs, start, replayed, pos, prev)
    requires Collected(b, digits, pos)
    requires U.WellFormed(c.reader.text) ==> ScannedAt(b, vs, start, replayed, pos, digits)
    modifies c, c.reader
    ensures v.Ended? ==> Standing(c, vs, start, replayed, pos, prev)
    ensures v.Ended? ==> start + pos < |vs| ==> IsTerminator(vs[start + pos])
    ensures v.Going? ==> Standing(c, vs, start, replayed, pos + 1, now) && Collected(b, more, pos + 1)
    ensures U.WellFormed(c.reader.text) ==>
              match v
              case Ended => pos == |Token(vs[start..])|
              case Bad => Fails(b, vs, start, replayed)
              case Going => ScannedAt(b, vs, start, replayed, pos + 1, more)
  {
    hide R.Loaded, R.Reader.Valid, Cursor.Valid, Cursor.Deref, Points, Glimpse, IsTerminator, U.WellFormed, Standing,
         Refused, ScannedAt, Fails, Collected, Token, TokenLen;
    now, more := prev, digits;
    var cp, before := Look(c, prev, vs, start, replayed, pos);
    if U.WellFormed(c.reader.text) {
      RoundIs(b, vs, start, replayed, pos, digits);
    }
    if cp == None || IsTerminator(cp.value) {
      return Ended, now, more;
    }
    var ch := cp.value;
    MayCollect(b, before, ch, digits, pos);
    if Refused(b, before, ch, |digits|) {
      return Bad, now, more;
    }
    if ch != UNDERSCORE {
      more := digits + [ch];
    }
    var ok;
    ok, now := Pass(c, prev, vs, start, replayed, pos);
    if !ok {
      return Bad, now, more;
    }
    v := Going;
    if ch == UNDERSCORE {
      var next, _ := Look(c, now, vs, start, replayed, pos + 1);
      if next == None {
        v := Bad;
      }
    }
  }

  /** Digits collected over `pos` characters. */
  predicate Collected(b: Base, digits: seq<nat>, pos: nat) {
    AllDigits(b, digits) && |digits| <= DIGIT_LIMIT && (pos > 0 ==> digits != [])
  }

  lemma MayCollect(b: Base, before: Option<nat>, ch: nat, digits: seq<nat>, pos: nat)
    requires Collected(b, digits, pos) && (before == None <==> pos == 0)
    ensures !Refused(b, before, ch, |digits|) ==>
              Collected(b, if ch == UNDERSCORE then digits else digits + [ch], pos + 1)
  {
    hide IsDigit;
  }

  ghost predicate ScannedAt(b: Base, vs: seq<nat>, start: nat, replayed: nat, pos: nat, digits: seq<nat>) {
    && start <= |vs| && start + |Token(vs[start..])| <= |vs| && |digits| <= DIGIT_LIMIT
    && var t := Token(vs[start..]);
    && t != [] && Scanned(b, t, Glimpses(vs, start, |t|, replayed), pos, digits)
  }

  ghost predicate Fails(b: Base, vs: seq<nat>, start: nat, replayed: nat) {
    && start <= |vs| && start + |Token(vs[start..])| <= |vs|
    && var t := Token(vs[start..]);
    !Accepted(b, t, Glimpses(vs, start, |t|, replayed)) || |Strip(t)| > DIGIT_LIMIT
  }

  /** What the tests of one round decide. */
  lemma RoundIs(b: Base, vs: seq<nat>, start: nat, replayed: nat, pos: nat, digits: seq<nat>)
    requires ScannedAt(b, vs, start, replayed, pos, digits)
    ensures pos == |Token(vs[start..])| <==> start + pos == |vs| || IsTerminator(vs[start + pos])
    ensures start + pos < |vs| && !IsTerminator(vs[start + pos]) ==>
              var ch := vs[start + pos];
              var before := if pos == 0 then None else Some(Glimpse(vs, start + pos - 1, replayed));
              if Refused(b, before, ch, |digits|) then Fails(b, vs, start, replayed)
              else
                && ScannedAt(b, vs, start, replayed, pos + 1, if ch == UNDERSCORE then digits else digits + [ch])
                && (ch == UNDERSCORE && start + pos + 1 == |vs| ==> Fails(b, vs, start, replayed))
  {
    TokenIs(vs, start);
    LastUnderscore(b, vs, start, replayed);
    var t := Token(vs[start..]);
    var g := Glimpses(vs, start, |t|, replayed);
    if pos < |t| {
      ScannedStep(b, t, g, pos, digits);
    }
    hide Token, Glimpse, Accepted, Scanned, Strip, IsTerminator, Refused;
  }

  /** The digit loop, from the first digit on: stops at a terminator or at end of file. */
  method ScanDigits(b: Base, c: Cursor) returns (ok: bool, digits: seq<nat>)
    requires c.Valid() && c.Current().Some? && IsDigit(b, c.Deref(c.Current().value))
    modifies c, c.reader
    ensures ok ==> AllDigits(b, digits) && 0 < |digits| <= DIGIT_LIMIT
    ensures U.WellFormed(c.reader.text) ==>
              ScanResult(b, Points(c.reader.text), old(c.At()), old(|c.history|), ok, digits)
  {
    hide R.Loaded, R.Reader.Valid, Cursor.Valid, Cursor.Deref, Points, U.WellFormed, Standing, ScannedAt, Fails,
         ScanResult, IsDigit, Token, TokenLen, Glimpse, Strip, IsTerminator;
    Stand(c);
    ghost var vs, start, replayed := Points(c.reader.text), c.At(), |c.history|;
    ScanStarts(b, vs, start, replayed);
    digits := [];
    ghost var pos := 0;
    var prev := None;
    while true
      invariant Standing(c, vs, start, replayed, pos, prev) && start + pos <= |vs| && Collected(b, digits, pos)
      invariant U.WellFormed(c.reader.text) ==> ScannedAt(b, vs, start, replayed, pos, digits)
      decreases |vs| - start - pos
    {
      var v, now, more := ScanOne(b, c, prev, digits, vs, start, replayed, pos);
      match v {
        case Ended => break;
        case Bad =>
          BadResult(b, vs, start, replayed, digits);
          return false, digits;
        case Going =>
          StandingBound(c, vs, start, replayed, pos + 1, now);
          prev, digits, pos := now, more, pos + 1;
      }
    }
    var _, last := Look(c, prev, vs, start, replayed, pos);
    ok := last != Some(UNDERSCORE);
    if U.WellFormed(c.reader.text) {
      GoodResult(b, vs, start, replayed, digits);
    }
  }

  lemma StandingBound(c: Cursor, vs: seq<nat>, start: nat, replayed: nat, pos: nat, prev: Option<Place>)
    requires Standing(c, vs, start, replayed, pos, prev)
    ensures start + pos <= |vs|
  {
  }

  lemma ScanStarts(b: Base, vs: seq<nat>, start: nat, replayed: nat)
    requires start < |vs| && IsDigit(b, vs[start])
    ensures ScannedAt(b, vs, start, replayed, 0, []) && Collected(b, [], 0) && !IsTerminator(vs[start])
  {
    TokenIs(vs, start);
    DigitNoTerminator(b, vs[start]);
  }

  lemma BadResult(b: Base, vs: seq<nat>, start: nat, replayed: nat, digits: seq<nat>)
    ensures Fails(b, vs, start, replayed) ==> ScanResult(b, vs, start, replayed, false, digits)
  {
  }

  lemma GoodResult(b: Base, vs: seq<nat>, start: nat, replayed: nat, digits: seq<nat>)
    requires start <= |vs| && ScannedAt(b, vs, start, replayed, |Token(vs[start..])|, digits)
    ensures var n := |Token(vs[start..])|;
            n > 0 && start + n <= |vs|
            && ScanResult(b, vs, start, replayed, Glimpse(vs, start + n - 1, replayed) != UNDERSCORE, digits)
  {
    var t := Token(vs[start..]);
    ScannedEnd(b, t, Glimpses(vs, start, |t|, replayed), digits);
  }

  ghost predicate ScanResult(b: Base, vs: seq<nat>, start: nat, replayed: nat, ok: bool, digits: seq<nat>)
  {
    && start <= |vs|
    && var t := Token(vs[start..]);
    && start + |t| <= |vs|
    && (ok <==> Accepted(b, t, Glimpses(vs, start, |t|, replayed)) && |Strip(t)| <= DIGIT_LIMIT)
    && (ok ==> digits == Strip(t))
  }

  // ---------------------------------------------------------------------------------------------
  // Signs, prefixes and the whole literal.

  /** The literal, once `used` characters of sign or prefix have been passed. */
  ghost predicate PrefixResult(b: Base, vs: seq<nat>, start: nat, replayed: nat, ok: bool, used: nat, negative: bool) {
    && start < |vs| && start + used <= |vs|
    && ReadLiteral(b, vs, start, replayed)
       == if ok then ReadDigits(b, vs, start + used, replayed, negative) else Err
  }

  lemma PrefixIs(b: Base, vs: seq<nat>, start: nat, replayed: nat)
    requires start < |vs|
    ensures var c := vs[start];
            var signed := b == Dec && (c == PLUS || c == MINUS);
            var based := b != Dec && c == ZERO && start + 1 < |vs| && vs[start + 1] == PrefixChar(b);
            var used := if signed then 1 else if based then 2 else 0;
            if b == Dec || based then
              PrefixResult(b, vs, start, replayed,
                start + used < |vs| && IsDigit(b, vs[start + used]), used, b == Dec && c == MINUS)
            else PrefixResult(b, vs, start, replayed, false, 0, false)
  {
    var c := vs[start];
    var used := if b != Dec then 2 else if c == PLUS || c == MINUS then 1 else 0;
    if start + used <= |vs| {
      NoDigit(b, vs, start + used, replayed, b == Dec && c == MINUS);
    }
    hide ReadDigits, IsDigit;
  }

  lemma NoDigit(b: Base, vs: seq<nat>, at: nat, replayed: nat, negative: bool)
    requires at <= |vs|
    ensures !(at < |vs| && IsDigit(b, vs[at])) ==> ReadDigits(b, vs, at, replayed, negative) == Err
  {
    TokenIs(vs, at);
    hide Token, IsDigit;
  }

  method SkipPrefix(b: Base, c: Cursor) returns (ok: bool, ghost used: nat, negative: bool)
    requires c.Valid() && c.Current().Some?
    modifies c, c.reader
    ensures ok ==>
              && c.Valid() && c.Current().Some? && IsDigit(b, c.Deref(c.Current().value)) && (negative ==> b == Dec)
              && c.At() == old(c.At()) + used && |c.history| == Max(old(|c.history|), c.At())
    ensures U.WellFormed(c.reader.text) ==>
              PrefixResult(b, Points(c.reader.text), old(c.At()), old(|c.history|), ok, if ok then used else 0,
                           negative)
  {
    hide R.Loaded, R.Reader.Valid, Cursor.Valid, Cursor.Deref, Points, U.WellFormed, Standing, IsDigit, Glimpse,
         PrefixResult;
    Stand(c);
    ghost var vs, start, replayed := Points(c.reader.text), c.At(), |c.history|;
    PrefixIs(b, vs, start, replayed);
    NothingPassed(b, vs, start, replayed);
    used, negative, ok := 0, false, false;
    var prev := None;
    var first, _ := Look(c, prev, vs, start, replayed, 0);
    var passed: bool;
    if b == Dec {
      negative := first == Some(MINUS);
      if first == Some(PLUS) || first == Some(MINUS) {
        passed, prev := Pass(c, prev, vs, start, replayed, used);
        if !passed {
          return;
        }
        used := 1;
      }
    } else {
      if first != Some(ZERO) {
        return;
      }
      passed, prev := Pass(c, prev, vs, start, replayed, used);
      if !passed {
        return;
      }
      var second, _ := Look(c, prev, vs, start, replayed, 1);
      if second != Some(PrefixChar(b)) {
        return;
      }
      passed, prev := Pass(c, prev, vs, start, replayed, 1);
      if !passed {
        return;
      }
      used := 2;
    }
    var next, _ := Look(c, prev, vs, start, replayed, used);
    ok := next.Some? && IsDigit(b, next.value);
    if ok {
      StandsOn(c, vs, start, replayed, used, prev);
    }
  }

  /** A failed prefix, however far it got. */
  lemma NothingPassed(b: Base, vs: seq<nat>, start: nat, replayed: nat)
    ensures forall used, negative :: PrefixResult(b, vs, start, replayed, false, used, negative) ==>
              && PrefixResult(b, vs, start, replayed, false, 0, !negative)
              && PrefixResult(b, vs, start, replayed, false, 0, negative)
  {
  }

  lemma StandsOn(c: Cursor, vs: seq<nat>, start: nat, replayed: nat, pos: nat, prev: Option<Place>)
    requires Standing(c, vs, start, replayed, pos, prev)
    ensures c.Valid() && c.At() == start + pos && |c.history| == Max(replayed, start + pos)
    ensures c.Current().Some? ==> start + pos < |vs| && c.Deref(c.Current().value) == vs[start + pos]
  {
    hide R.Loaded, Points;
    c.CurrentIs();
  }

  /** parse_integer, from the first character of the literal on. */
  method ParseInteger(b: Base, c: Cursor) returns (r: Result<int>)
    requires c.Valid() && c.Current().Some?
    modifies c, c.reader
    ensures U.WellFormed(c.reader.text) ==>
              var vs := Points(c.reader.text);
              old(c.At()) < |vs| && r == ReadLiteral(b, vs, old(c.At()), old(|c.history|))
  {
    hide R.Loaded, R.Reader.Valid, Cursor.Valid, Cursor.Deref, Points, U.WellFormed, IsDigit, ReadLiteral, ReadDigits,
         ScanResult, Meaning;
    Stand(c);
    ghost var vs, start, replayed := Points(c.reader.text), c.At(), |c.history|;
    var ok, used, negative := SkipPrefix(b, c);
    if !ok {
      return Err;
    }
    Stand(c);
    ghost var now := |c.history|;
    var good, digits := ScanDigits(b, c);
    if U.WellFormed(c.reader.text) {
      DigitsRead(b, vs, start + used, replayed, now, negative, good, digits);
    }
    if !good {
      return Err;
    }
    r := ToInteger(b, digits, negative);
  }

  /** From the digits scanned to what is read. */
  lemma DigitsRead(b: Base, vs: seq<nat>, at: nat, replayed: nat, now: nat, negative: bool, ok: bool, digits: seq<nat>)
    requires now == Max(replayed, at) && ScanResult(b, vs, at, now, ok, digits)
    ensures at <= |vs|
    ensures if ok then
              && AllDigits(b, digits) && 0 < |digits| <= DIGIT_LIMIT
              && ReadDigits(b, vs, at, replayed, negative) == Meaning(b, digits, negative)
            else ReadDigits(b, vs, at, replayed, negative) == Err
  {
    var t := Token(vs[at..]);
    assert Glimpses(vs, at, |t|, now) == Glimpses(vs, at, |t|, replayed);
    hide Token, Shown, Value;
    if Accepted(b, t, Glimpses(vs, at, |t|, now)) {
      StripDigits(b, t);
      StripNotEmpty(b, t);
    }
  }

  lemma {:induction false} StripNotEmpty(b: Base, t: seq<nat>)
    requires t != [] && IsDigit(b, t[0])
    ensures Strip(t) != []
  {
    StripGrows(t, 1);
    StripStep(t, 0);
    assert t[..0] == [];
  }

  /** parse_value's look at what follows: up to 127 code points, or to the end of the value. */
  method ScanAhead(c: Cursor) returns (ok: bool, n: nat)
    requires c.Valid() && c.Current().Some? && !IsTerminator(c.Deref(c.Current().value))
    modifies c, c.reader
    ensures !ok ==> !U.WellFormed(c.reader.text)
    ensures ok ==>
              var vs, start := Points(c.reader.text), old(c.At());
              && c.Valid() && start < |vs| && 0 < n == LookAhead(vs, start)
              && c.At() == start + n && |c.history| == Max(old(|c.history|), start + n)
  {
    hide R.Loaded, R.Reader.Valid, Cursor.Valid, Cursor.Deref, Points, U.WellFormed, IsTerminator, Glimpse, Standing,
         Token, LookAhead;
    Stand(c);
    ghost var vs, start, replayed := Points(c.reader.text), c.At(), |c.history|;
    LooksTo(vs, start, 0);
    n := 0;
    var prev := None;
    while true
      invariant Standing(c, vs, start, replayed, n, prev) && n < LookAhead(vs, start)
      decreases LookAhead(vs, start) - n
    {
      ghost var _, _ := Look(c, prev, vs, start, replayed, n);
      LooksTo(vs, start, n);
      ok, prev := Pass(c, prev, vs, start, replayed, n);
      if !ok {
        return;
      }
      n := n + 1;
      var cp, _ := Look(c, prev, vs, start, replayed, n);
      if n >= Ring.HISTORY || cp == None || IsTerminator(cp.value) {
        break;
      }
    }
    StandsOn(c, vs, start, replayed, n, prev);
  }

  lemma LooksTo(vs: seq<nat>, start: nat, n: nat)
    requires start < |vs|
    ensures n < LookAhead(vs, start) ==>
              start + n < |vs|
              && (n + 1 == LookAhead(vs, start) <==>
                    n + 1 >= Ring.HISTORY || start + n + 1 == |vs| || IsTerminator(vs[start + n + 1]))
    ensures !IsTerminator(vs[start]) ==> 0 < LookAhead(vs, start)
  {
    TokenIs(vs, start);
    var t := Token(vs[start..]);
    if n < |t| {
      assert t[n] == vs[start + n];
    }
    if n + 1 < |t| {
      assert t[n + 1] == vs[start + n + 1];
    }
  }

  /** parse_value for a number: looks ahead, steps back, refuses decimals that go on past the history,
      and parses. */
  method ParseNumber(b: Base, c: Cursor) returns (r: Result<int>)
    requires c.Valid() && c.Current().Some? && !IsTerminator(c.Deref(c.Current().value))
    modifies c, c.reader
    ensures U.WellFormed(c.reader.text) ==>
              var vs, start := Points(c.reader.text), old(c.At());
              && start < |vs|
              && r == NumberAt(b, vs, start, Max(old(|c.history|), start + LookAhead(vs, start)))
  {
    hide R.Loaded, R.Reader.Valid, Cursor.Deref, Points, U.WellFormed, IsTerminator, LookAhead, ReadLiteral;
    Stand(c);
    ghost var vs, start := Points(c.reader.text), c.At();
    var ok, n := ScanAhead(c);
    if !ok {
      return Err;
    }
    LooksAtMost(vs, start);
    Stand(c);
    var eof := c.Current() == None;
    c.GoBack(n);
    Stand(c);
    if b == Dec && !eof && n > Ring.HISTORY - 1 {
      return Err;
    }
    r := ParseInteger(b, c);
  }

  lemma LooksAtMost(vs: seq<nat>, start: nat)
    requires start <= |vs|
    ensures LookAhead(vs, start) <= Ring.HISTORY && start + LookAhead(vs, start) <= |vs|
  {
    TokenIs(vs, start);
  }
}
