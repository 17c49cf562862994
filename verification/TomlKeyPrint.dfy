/** The key formatter on raw bytes, and the round trip of a key through a document: printed, decoded
    block by block and parsed. */
module TomlKeyPrint {
  import opened Prelude
  import opened Bytes
  import opened TomlChars
  import opened TomlKey
  import Num = TomlInteger
  import U = Utf8
  import R = Utf8Reader
  import IO = TomlKeyIO

  // ---------------------------------------------------------------------------------------------
  // Keys that need not be UTF-8.

  /** What is left of a byte string when the formatter escapes it: characters are kept, the bytes of
      a malformed sequence become code points of their own, an unfinished sequence at the end is
      dropped. `bytes` are those read since the last character. */
  function Lossy(d: U.Decoder, bytes: seq<Byte>, s: seq<Byte>): seq<nat>
    decreases |s|
  {
    if s == [] then []
    else
      var e, c := U.Fed(d, s[0]), bytes + [s[0]];
      if e.state == U.ERROR then c + Lossy(U.Decoder(U.ACCEPT, e.codepoint), [], s[1..])
      else if e.state == U.ACCEPT then [e.codepoint] + Lossy(e, [], s[1..])
      else Lossy(e, c, s[1..])
  }

  function EscapeBytes(bytes: seq<Byte>): seq<nat> {
    if bytes == [] then []
    else [BACKSLASH, 0x75, 0x30, 0x30] + Padded(bytes[0], 2) + EscapeBytes(bytes[1..])
  }

  /** The text between the quotes when a byte string is escaped. */
  function EscapeLossy(flags: Flags, d: U.Decoder, bytes: seq<Byte>, s: seq<Byte>): seq<nat>
    decreases |s|
  {
    if s == [] then []
    else
      var e, c := U.Fed(d, s[0]), bytes + [s[0]];
      if e.state == U.ERROR then
        EscapeBytes(c) + EscapeLossy(flags, U.Decoder(U.ACCEPT, e.codepoint), [], s[1..])
      else if e.state == U.ACCEPT then Escape(flags, e.codepoint) + EscapeLossy(flags, e, [], s[1..])
      else EscapeLossy(flags, e, c, s[1..])
  }

  /** The text printed for a key: malformed keys are escaped throughout. */
  ghost function Printed(flags: Flags, key: seq<Byte>): seq<nat> {
    if U.WellFormed(key) then PrintKey(flags, U.Emitted(U.START, key))
    else [QUOTE] + EscapeLossy(Escaping(flags), U.START, [], key) + [QUOTE]
  }

  function Escaping(flags: Flags): Flags { flags.(unicodeStrings := false) }

  lemma {:induction false} ExactWhenAccepted(flags: Flags, d: U.Decoder, bytes: seq<Byte>, s: seq<Byte>)
    requires U.Run(d, s).state == U.ACCEPT
    ensures Lossy(d, bytes, s) == U.Emitted(d, s)
    ensures EscapeLossy(flags, d, bytes, s) == EscapeAll(flags, U.Emitted(d, s))
    decreases |s|
  {
    hide U.Fed, Escape;
    if s != [] {
      var e, c := U.Fed(d, s[0]), bytes + [s[0]];
      if e.state == U.ERROR {
        U.ErrorIsFinal(e, s[1..]);
        assert false;
      } else if e.state == U.ACCEPT {
        ExactWhenAccepted(flags, e, [], s[1..]);
        var vs := U.Emitted(e, s[1..]);
        assert U.Emitted(d, s) == [e.codepoint] + vs;
        assert ([e.codepoint] + vs)[1..] == vs;
      } else {
        ExactWhenAccepted(flags, e, c, s[1..]);
        assert U.Emitted(d, s) == [] + U.Emitted(e, s[1..]) == U.Emitted(e, s[1..]);
      }
    }
  }

  // ---------------------------------------------------------------------------------------------
  // Reading escaped text back.

  lemma TwoDigits(b: Byte)
    ensures [0x30, 0x30] + Padded(b, 2) == Padded(b, 4)
    ensures |Padded(b, 2)| == 2 && U.AllAscii(Padded(b, 2))
  {
    var ds := Num.ToDigits(Num.Hex, b);
    if b >= 16 {
      assert Num.ToDigits(Num.Hex, b / 16) == [DigitChar(b / 16)];
    }
    assert 1 <= |ds| <= 2;
    assert seq(2, _ => 0x30) + ds == [0x30, 0x30] + ds;
    if |ds| == 1 {
      assert seq(3, _ => 0x30) + ds == [0x30, 0x30] + (seq(1, _ => 0x30) + ds);
    }
  }

  lemma {:induction false} ByteIsRead(b: Byte, rest: seq<nat>)
    ensures BasicString([BACKSLASH, 0x75, 0x30, 0x30] + Padded(b, 2) + rest) == Push(b, BasicString(rest))
  {
    hide Padded, ScalarEscape;
    TwoDigits(b);
    ScalarIsRead(b, 4, rest);
    var s := [BACKSLASH, 0x75, 0x30, 0x30] + Padded(b, 2) + rest;
    assert s == [BACKSLASH, 0x75] + (Padded(b, 4) + rest);
    assert s[1..][1..] == Padded(b, 4) + rest;
  }

  lemma {:induction false} BytesAreRead(bytes: seq<Byte>, rest: seq<nat>)
    ensures BasicString(EscapeBytes(bytes) + rest) == IO.After(bytes, BasicString(rest))
  {
    hide BasicString, Padded;
    if bytes == [] {
      assert EscapeBytes(bytes) + rest == rest;
      IO.AfterNothing(BasicString(rest));
    } else {
      var more := EscapeBytes(bytes[1..]) + rest;
      var head := [BACKSLASH, 0x75, 0x30, 0x30] + Padded(bytes[0], 2);
      assert EscapeBytes(bytes) + rest == head + more;
      ByteIsRead(bytes[0], more);
      BytesAreRead(bytes[1..], rest);
      assert [bytes[0]] + bytes[1..] == bytes;
      if BasicString(rest).Ok? {
        assert [bytes[0]] + (bytes[1..] + BasicString(rest).value.0) == bytes + BasicString(rest).value.0;
      }
    }
  }

  /** Escaped text is read as what is left of the byte string. */
  lemma {:induction false} LossyIsRead(flags: Flags, d: U.Decoder, bytes: seq<Byte>, s: seq<Byte>, rest: seq<nat>)
    requires U.Unfinished(d, bytes)
    ensures BasicString(EscapeLossy(flags, d, bytes, s) + ([QUOTE] + rest)) == Ok((Lossy(d, bytes, s), rest))
    decreases |s|
  {
    QuoteEnds(rest);
    hide U.Fed, Escape, U.IsScalar, U.Encode, U.Run, U.Emitted, BasicString, EscapeBytes;
    var tail := [QUOTE] + rest;
    if s == [] {
      assert [] + tail == tail;
    } else {
      var e, c := U.Fed(d, s[0]), bytes + [s[0]];
      U.Completed(d, bytes, s[0]);
      if e.state == U.ERROR {
        var z := U.Decoder(U.ACCEPT, e.codepoint);
        LossyIsRead(flags, z, [], s[1..], rest);
        Assoc(EscapeBytes(c), EscapeLossy(flags, z, [], s[1..]), tail);
        BytesAreRead(c, EscapeLossy(flags, z, [], s[1..]) + tail);
      } else if e.state == U.ACCEPT {
        LossyIsRead(flags, e, [], s[1..], rest);
        Assoc(Escape(flags, e.codepoint), EscapeLossy(flags, e, [], s[1..]), tail);
        EscapeIsRead(flags, e.codepoint, EscapeLossy(flags, e, [], s[1..]) + tail);
      } else {
        LossyIsRead(flags, e, c, s[1..], rest);
      }
    }
  }

  lemma QuoteEnds(rest: seq<nat>)
    ensures BasicString([QUOTE] + rest) == Ok(([], rest))
  {
    assert ([QUOTE] + rest)[1..] == rest;
  }

  lemma {:induction false} LossyStart(flags: Flags, d: U.Decoder, bytes: seq<Byte>, s: seq<Byte>)
    ensures var e := EscapeLossy(flags, d, bytes, s); e != [] ==> e[0] != QUOTE
    ensures EscapeLossy(flags, d, bytes, s) == [] ==> Lossy(d, bytes, s) == []
    decreases |s|
  {
    hide U.Fed, Escape, Padded;
    if s != [] {
      var e, c := U.Fed(d, s[0]), bytes + [s[0]];
      if e.state == U.ERROR {
        assert EscapeBytes(c)[0] == BACKSLASH;
      } else if e.state == U.ACCEPT {
        EscapeStart(flags, e.codepoint);
      } else {
        LossyStart(flags, e, c, s[1..]);
      }
    }
  }

  /** For every byte string: what is printed for it as a key is read back as what is left of it. */
  lemma {:induction false} PrintedIsRead(flags: Flags, key: seq<Byte>, rest: seq<nat>)
    requires EndsKey(rest)
    ensures Segment(Printed(flags, key) + rest) == Ok((Lossy(U.START, [], key), rest))
  {
    hide PrintKey, LiteralString, BasicString, U.Emitted, Lossy, EscapeLossy, U.WellFormed, U.Run;
    U.AcceptsIffWellFormed(U.START, key);
    if U.WellFormed(key) {
      ExactWhenAccepted(flags, U.START, [], key);
      U.DecodedEncodes(U.START, key);
      KeyIsRead(flags, U.Emitted(U.START, key), rest);
    } else {
      var f := Escaping(flags);
      var e := EscapeLossy(f, U.START, [], key);
      LossyIsRead(f, U.START, [], key, rest);
      LossyStart(f, U.START, [], key);
      var s := Printed(flags, key) + rest;
      if e == [] {
        assert s == [QUOTE, QUOTE] + rest;
        EmptyIsRead(QUOTE, rest);
      } else {
        assert s[1..] == e + ([QUOTE] + rest);
        assert s[1] == e[0];
      }
    }
  }

  /** What is left of a key is the key exactly when it is well-formed UTF-8. */
  lemma {:induction false} NothingLostIff(key: seq<Byte>)
    ensures var vs := Lossy(U.START, [], key);
            U.AllScalar(vs) && (U.EncodeAll(vs) == key <==> U.WellFormed(key))
  {
    hide U.Emitted, Lossy, U.WellFormed, U.Run, EscapeLossy;
    var vs := Lossy(U.START, [], key);
    LossyIsScalar(U.START, [], key);
    U.EncodedDecodes(U.START, vs);
    U.AcceptsIffWellFormed(U.START, key);
    if U.WellFormed(key) {
      ExactWhenAccepted(Flags(true, true), U.START, [], key);
      U.DecodedEncodes(U.START, key);
    }
  }

  lemma {:induction false} LossyIsScalar(d: U.Decoder, bytes: seq<Byte>, s: seq<Byte>)
    requires U.Unfinished(d, bytes)
    ensures U.AllScalar(Lossy(d, bytes, s))
    decreases |s|
  {
    hide U.Fed, U.Encode, U.Run, U.Emitted;
    if s != [] {
      var e, c := U.Fed(d, s[0]), bytes + [s[0]];
      U.Completed(d, bytes, s[0]);
      if e.state == U.ERROR {
        LossyIsScalar(U.Decoder(U.ACCEPT, e.codepoint), [], s[1..]);
      } else if e.state == U.ACCEPT {
        LossyIsScalar(e, [], s[1..]);
      } else {
        LossyIsScalar(e, c, s[1..]);
      }
    }
  }

  // ---------------------------------------------------------------------------------------------
  // What is left of a malformed key.

  lemma {:induction false} AnyStart(d: U.Decoder, s: seq<Byte>)
    requires d.state == U.ACCEPT
    ensures Lossy(d, [], s) == Lossy(U.START, [], s)
  {
    if s != [] {
      U.OneByte(d, s[0]);
      U.OneByte(U.START, s[0]);
    }
  }

  /** Well-formed text in front is kept. */
  lemma {:induction false} TextIsKept(d: U.Decoder, bytes: seq<Byte>, t: seq<Byte>, u: seq<Byte>)
    requires U.Run(d, t).state == U.ACCEPT && (t == [] ==> bytes == [])
    ensures Lossy(d, bytes, t + u) == U.Emitted(d, t) + Lossy(U.START, [], u)
    decreases |t|
  {
    if t == [] {
      U.NothingRead(d);
      assert t + u == u;
      AnyStart(d, u);
    } else {
      var e, c := U.Fed(d, t[0]), bytes + [t[0]];
      U.RunOne(d, t);
      hide U.Fed, U.Run, U.Emitted;
      assert (t + u)[0] == t[0] && (t + u)[1..] == t[1..] + u;
      if e.state == U.ERROR {
        U.ErrorIsFinal(e, t[1..]);
        assert false;
      } else if e.state == U.ACCEPT {
        TextIsKept(e, [], t[1..], u);
      } else {
        if t[1..] == [] {
          U.NothingRead(e);
        }
        TextIsKept(e, c, t[1..], u);
      }
    }
  }

  /** The bytes make the decoder fail at the last of them, before it has read a character. */
  ghost predicate Malformed(d: U.Decoder, m: seq<Byte>) {
    && m != [] && U.Run(d, m).state == U.ERROR && U.Run(d, m[..|m| - 1]).state != U.ERROR
    && U.Emitted(d, m) == []
  }

  lemma {:induction false} BytesAreKept(d: U.Decoder, bytes: seq<Byte>, m: seq<Byte>, u: seq<Byte>)
    requires Malformed(d, m)
    ensures Lossy(d, bytes, m + u) == bytes + m + Lossy(U.START, [], u)
    decreases |m|
  {
    hide U.Fed, U.Run, U.Emitted;
    var e, c := U.Fed(d, m[0]), bytes + [m[0]];
    U.RunOne(d, m);
    assert (m + u)[0] == m[0] && (m + u)[1..] == m[1..] + u;
    if |m| == 1 {
      U.NothingRead(e);
      AnyStart(U.Decoder(U.ACCEPT, e.codepoint), u);
      assert m[1..] + u == u && m == [m[0]];
    } else {
      var n := |m| - 1;
      U.RunOne(d, m[..n]);
      assert m[..n][1..] == m[1..][..n - 1];
      if e.state == U.ERROR {
        U.ErrorIsFinal(e, m[..n][1..]);
        assert false;
      } else {
        BytesAreKept(e, c, m[1..], u);
        assert bytes + [m[0]] + m[1..] == bytes + m;
      }
    }
  }

  lemma {:induction false} TailIsDropped(d: U.Decoder, bytes: seq<Byte>, m: seq<Byte>)
    requires U.Emitted(d, m) == [] && U.Run(d, m).state != U.ERROR
    ensures Lossy(d, bytes, m) == []
    decreases |m|
  {
    if m != [] {
      U.RunOne(d, m);
      var e := U.Fed(d, m[0]);
      hide U.Fed, U.Run, U.Emitted;
      if e.state == U.ERROR {
        U.ErrorIsFinal(e, m[1..]);
        assert false;
      } else {
        TailIsDropped(e, bytes + [m[0]], m[1..]);
      }
    }
  }

  /** After well-formed text, the bytes of a malformed sequence are left as code points of their own, and
      the rest is taken as if it stood alone; bytes that are only the start of a character are dropped. */
  lemma {:induction false} WhatIsLeft(t: seq<Byte>, m: seq<Byte>, u: seq<Byte>)
    requires U.WellFormed(t)
    ensures Malformed(U.START, m) ==>
              Lossy(U.START, [], t + m + u) == U.Emitted(U.START, t) + m + Lossy(U.START, [], u)
    ensures U.Emitted(U.START, m) == [] && U.Run(U.START, m).state != U.ERROR ==>
              Lossy(U.START, [], t + m) == U.Emitted(U.START, t)
  {
    hide U.Run, U.Emitted, Lossy, U.WellFormed, Malformed;
    U.AcceptsIffWellFormed(U.START, t);
    TextIsKept(U.START, [], t, m + u);
    TextIsKept(U.START, [], t, m);
    assert t + m + u == t + (m + u);
    if Malformed(U.START, m) {
      BytesAreKept(U.START, [], m, u);
      assert [] + m == m;
    }
    if U.Emitted(U.START, m) == [] && U.Run(U.START, m).state != U.ERROR {
      TailIsDropped(U.START, [], m);
    }
  }

  // ---------------------------------------------------------------------------------------------
  // What the formatter looks for before it chooses a form.

  datatype Traits = Traits(lineBreaks: bool, tabs: bool, controlChars: bool, singleQuotes: bool, nonBare: bool)

  const NO_TRAITS := Traits(false, false, false, false, false)
  const ALL_TRAITS := Traits(true, true, true, true, true)

  function Mark(t: Traits, v: nat): Traits {
    match v
    case 0x0A => t.(lineBreaks := true)
    case 0x09 => t.(tabs := true)
    case 0x27 => t.(singleQuotes := true)
    case _ => t.(controlChars := t.controlChars || IsControl(v) || IsNonAsciiVertical(v),
                 nonBare := t.nonBare || !IsBare(v))
  }

  function Seen(vs: seq<nat>): Traits {
    if vs == [] then NO_TRAITS else Mark(Seen(vs[..|vs| - 1]), vs[|vs| - 1])
  }

  predicate Bareable(t: Traits) { !t.nonBare && !t.lineBreaks && !t.tabs && !t.singleQuotes }

  predicate Plain(t: Traits) { !t.controlChars && !t.lineBreaks && !t.tabs && !t.singleQuotes }

  lemma {:induction false} SeenMore(vs: seq<nat>, v: nat)
    ensures Seen(vs + [v]) == Mark(Seen(vs), v)
  {
    assert (vs + [v])[..|vs|] == vs;
  }

  lemma {:induction false} AllSeen(vs: seq<nat>, n: nat)
    requires n <= |vs| && Seen(vs[..n]) == ALL_TRAITS
    ensures Seen(vs) == ALL_TRAITS
    decreases |vs| - n
  {
    if n == |vs| {
      assert vs[..n] == vs;
    } else {
      SeenMore(vs[..n], vs[n]);
      assert vs[..n] + [vs[n]] == vs[..n + 1];
      AllSeen(vs, n + 1);
    }
  }

  predicate PlainChar(v: nat) { !IsControl(v) && !IsNonAsciiVertical(v) && v != APOSTROPHE }

  lemma {:induction false} SeenMeans(vs: seq<nat>)
    ensures Bareable(Seen(vs)) <==> AllBare(vs)
    ensures Plain(Seen(vs)) <==> forall i :: 0 <= i < |vs| ==> PlainChar(vs[i])
  {
    if vs != [] {
      var n := |vs| - 1;
      SeenMeans(vs[..n]);
      MarkMeans(Seen(vs[..n]), vs[n]);
      assert vs == vs[..n] + [vs[n]];
      hide Mark, IsBare, PlainChar, Bareable, Plain;
    }
  }

  lemma MarkMeans(t: Traits, v: nat)
    ensures Bareable(Mark(t, v)) <==> Bareable(t) && IsBare(v)
    ensures Plain(Mark(t, v)) <==> Plain(t) && PlainChar(v)
  {
  }

  method ScanAscii(str: seq<Byte>) returns (t: Traits)
    ensures t == Seen(str)
  {
    hide Seen, Mark;
    t := NO_TRAITS;
    var i := 0;
    NothingSeen();
    assert str[..0] == [];
    while i < |str|
      invariant i <= |str| && t == Seen(str[..i])
    {
      SeenMore(str[..i], str[i]);
      assert str[..i] + [str[i]] == str[..i + 1];
      t := Mark(t, str[i]);
      i := i + 1;
      if t == ALL_TRAITS {
        AllSeen(str, i);
        return;
      }
    }
    assert str[..i] == str;
  }

  lemma NothingSeen()
    ensures Seen([]) == NO_TRAITS
  {
  }

  /** The scan of text that is not ASCII; malformed text must be escaped throughout. */
  method ScanUnicode(str: seq<Byte>) returns (t: Traits, wellFormed: bool)
    ensures wellFormed <==> U.WellFormed(str)
    ensures wellFormed ==> t == Seen(U.Emitted(U.START, str))
    ensures !wellFormed ==> t.controlChars && t.nonBare && !t.lineBreaks
  {
    hide Seen, Mark, U.Fed, U.Emitted, U.Run, U.WellFormed;
    var decoder := new U.Utf8Decoder();
    t := NO_TRAITS;
    var i := 0;
    NothingSeen();
    U.NothingRead(U.START);
    assert str[..0] == [];
    U.AcceptsIffWellFormed(U.START, str);
    while i < |str|
      invariant i <= |str| && fresh(decoder) && decoder.state != U.ERROR
      invariant decoder.View() == U.Run(U.START, str[..i]) && t == Seen(U.Emitted(U.START, str[..i]))
    {
      ScanStep(str, i);
      decoder.Feed(str[i]);
      i := i + 1;
      if decoder.state == U.ERROR {
        Spoiled(str, i);
        return t.(lineBreaks := false, controlChars := true, nonBare := true), false;
      }
      if decoder.state == U.ACCEPT {
        t := Mark(t, decoder.codepoint);
      }
    }
    assert str[..i] == str;
    wellFormed := decoder.state == U.ACCEPT;
    if !wellFormed {
      t := t.(lineBreaks := false, controlChars := true, nonBare := true);
    }
  }

  lemma {:induction false} ScanStep(str: seq<Byte>, i: nat)
    requires i < |str|
    ensures var d := U.Run(U.START, str[..i]);
            var e := U.Fed(d, str[i]);
            var vs := U.Emitted(U.START, str[..i]);
            && U.Run(U.START, str[..i + 1]) == e
            && Seen(U.Emitted(U.START, str[..i + 1]))
               == if e.state == U.ACCEPT then Mark(Seen(vs), e.codepoint) else Seen(vs)
  {
    hide U.Fed, U.Emitted, U.Run, Seen, Mark;
    var d, vs := U.Run(U.START, str[..i]), U.Emitted(U.START, str[..i]);
    U.RunAppend(U.START, str[..i], [str[i]]);
    U.OneByte(d, str[i]);
    assert str[..i] + [str[i]] == str[..i + 1];
    var e := U.Fed(d, str[i]);
    SeenMore(vs, e.codepoint);
    assert vs + [] == vs;
  }

  lemma {:induction false} Spoiled(str: seq<Byte>, i: nat)
    requires i <= |str| && U.Run(U.START, str[..i]).state == U.ERROR
    ensures U.Run(U.START, str).state == U.ERROR
  {
    hide U.Run, U.Emitted;
    U.RunAppend(U.START, str[..i], str[i..]);
    U.ErrorIsFinal(U.Run(U.START, str[..i]), str[i..]);
    assert str[..i] + str[i..] == str;
  }

  // ---------------------------------------------------------------------------------------------
  // Escaped output.

  predicate NeedsEscape(flags: Flags, v: nat) {
    || v == QUOTE || v == BACKSLASH || IsControl(v)
    || (v > 0x7F && (!flags.unicodeStrings || IsNonAsciiVertical(v)))
  }

  lemma {:induction false} PaddedIsAscii(v: nat, n: nat)
    ensures U.AllAscii(Padded(v, n))
  {
    Num.DigitsHaveValue(Num.Hex, v);
    var ds := Num.ToDigits(Num.Hex, v);
    assert Num.AllDigits(Num.Hex, ds);
    assert forall i :: 0 <= i < |ds| ==> ds[i] <= 0x7F;
  }

  lemma {:induction false} EscapeMeans(flags: Flags, v: nat)
    ensures NeedsEscape(flags, v) ==> U.AllAscii(Escape(flags, v))
    ensures !NeedsEscape(flags, v) ==> Escape(flags, v) == [v]
  {
    PaddedIsAscii(v, 4);
    PaddedIsAscii(v, 8);
    hide Padded;
  }

  lemma {:induction false} EscapeEncodes(flags: Flags, v: nat)
    requires U.IsScalar(v)
    ensures U.AllScalar(Escape(flags, v))
    ensures U.EncodeAll(Escape(flags, v)) == if NeedsEscape(flags, v) then Escape(flags, v) else U.Encode(v)
  {
    EscapeMeans(flags, v);
    hide Escape, U.Encode, U.IsScalar;
    if NeedsEscape(flags, v) {
      U.AsciiIsItself(Escape(flags, v));
    } else {
      assert U.EncodeAll([]) == [] && [v][1..] == [];
      assert U.Encode(v) + [] == U.Encode(v);
    }
  }

  method EscapeAscii(flags: Flags, str: seq<Byte>) returns (out: seq<Byte>)
    requires U.AllAscii(str)
    ensures U.AllAscii(out) && out == EscapeAll(flags, str)
  {
    hide Escape, NeedsEscape;
    out := [];
    var i := 0;
    assert str[0..] == str;
    assert [] + EscapeAll(flags, str) == EscapeAll(flags, str);
    while i < |str|
      invariant i <= |str| && U.AllAscii(out)
      invariant EscapeAll(flags, str) == out + EscapeAll(flags, str[i..])
    {
      EscapeMeans(flags, str[i]);
      assert str[i..][1..] == str[i + 1..];
      Assoc(out, Escape(flags, str[i]), EscapeAll(flags, str[i + 1..]));
      if NeedsEscape(flags, str[i]) {
        out := out + Escape(flags, str[i]);
      } else {
        out := out + [str[i]];
      }
      i := i + 1;
    }
    assert out + [] == out;
  }

  method EscapeRaw(bytes: seq<Byte>) returns (out: seq<Byte>)
    ensures U.AllScalar(EscapeBytes(bytes)) && out == U.EncodeAll(EscapeBytes(bytes))
  {
    hide Padded;
    out := [];
    var i := 0;
    assert bytes[0..] == bytes;
    assert [] + EscapeBytes(bytes) == EscapeBytes(bytes);
    while i < |bytes|
      invariant i <= |bytes| && U.AllAscii(out)
      invariant EscapeBytes(bytes) == out + EscapeBytes(bytes[i..])
    {
      TwoDigits(bytes[i]);
      assert bytes[i..][1..] == bytes[i + 1..];
      var head := [BACKSLASH, 0x75, 0x30, 0x30] + Padded(bytes[i], 2);
      Assoc(out, head, EscapeBytes(bytes[i + 1..]));
      out := out + head;
      i := i + 1;
    }
    assert out + [] == out;
    U.AsciiIsItself(out);
  }

  /** The loop over text that is not ASCII: one piece of output for each character or malformed
      sequence completed. */
  method EscapeUnicode(flags: Flags, str: seq<Byte>) returns (out: seq<Byte>)
    ensures var text := EscapeLossy(flags, U.START, [], str);
            U.AllScalar(text) && out == U.EncodeAll(text)
  {
    hide U.Fed, Escape, NeedsEscape, EscapeBytes, EscapeLossy, U.EncodeAll, U.Encode, U.IsScalar, U.Unfinished,
         U.AllScalar;
    var decoder := new U.Utf8Decoder();
    ghost var text: seq<nat> := [];
    out := [];
    var start, i := 0, 0;
    EscapeStarts(flags, str);
    while i < |str|
      invariant start <= i <= |str| && fresh(decoder) && decoder.state != U.ERROR
      invariant U.Unfinished(decoder.View(), str[start..i])
      invariant U.AllScalar(text) && out == U.EncodeAll(text)
      invariant EscapeLossy(flags, U.START, [], str)
             == text + EscapeLossy(flags, decoder.View(), str[start..i], str[i..])
    {
      ghost var before := decoder.View();
      EscapeStep(flags, before, str, start, i, text);
      decoder.Feed(str[i]);
      i := i + 1;
      if decoder.state == U.ERROR {
        var raw := EscapeRaw(str[start..i]);
        U.EncodeAppend(text, EscapeBytes(str[start..i]));
        text := text + EscapeBytes(str[start..i]);
        out := out + raw;
        start := i;
        decoder.Reset();
        AtRest(decoder.View());
      } else if decoder.state == U.ACCEPT {
        var v := decoder.codepoint;
        EscapeEncodes(flags, v);
        EscapeMeans(flags, v);
        U.EncodeAppend(text, Escape(flags, v));
        text := text + Escape(flags, v);
        if NeedsEscape(flags, v) {
          out := out + Escape(flags, v);
        } else {
          out := out + str[start..i];
        }
        start := i;
        AtRest(decoder.View());
      }
    }
    EscapeEnds(flags, decoder.View(), str[start..i], str[i..]);
    assert text + [] == text;
  }

  lemma AtRest(d: U.Decoder)
    requires d.state == U.ACCEPT
    ensures U.Unfinished(d, [])
  {
  }

  lemma EscapeStarts(flags: Flags, str: seq<Byte>)
    ensures str[0..] == str && str[0..0] == [] && U.Unfinished(U.START, [])
    ensures EscapeLossy(flags, U.START, [], str) == [] + EscapeLossy(flags, U.START, [], str)
    ensures U.AllScalar([]) && U.EncodeAll([]) == []
  {
  }

  lemma EscapeEnds(flags: Flags, d: U.Decoder, bytes: seq<Byte>, s: seq<Byte>)
    ensures s == [] ==> EscapeLossy(flags, d, bytes, s) == []
  {
  }

  lemma {:induction false} EscapeStep(flags: Flags, d: U.Decoder, str: seq<Byte>, start: nat, i: nat, text: seq<nat>)
    requires start <= i < |str| && U.Unfinished(d, str[start..i])
    ensures var e := U.Fed(d, str[i]);
            var all := text + EscapeLossy(flags, d, str[start..i], str[i..]);
            var c := str[start..i + 1];
            && str[i + 1..i + 1] == []
            && (e.state == U.ERROR ==>
                  all == text + EscapeBytes(c) + EscapeLossy(flags, U.Decoder(U.ACCEPT, e.codepoint), [], str[i + 1..]))
            && (e.state == U.ACCEPT ==>
                  && U.IsScalar(e.codepoint) && U.Encode(e.codepoint) == c
                  && all == text + Escape(flags, e.codepoint) + EscapeLossy(flags, e, [], str[i + 1..]))
            && (e.state != U.ERROR && e.state != U.ACCEPT ==>
                  U.Unfinished(e, c) && all == text + EscapeLossy(flags, e, c, str[i + 1..]))
  {
    hide U.Fed, Escape, EscapeBytes, U.Encode, U.IsScalar, U.Run, U.Emitted;
    var e, c := U.Fed(d, str[i]), str[start..i + 1];
    U.Completed(d, str[start..i], str[i]);
    assert c == str[start..i] + [str[i]];
    assert str[i..][0] == str[i] && str[i..][1..] == str[i + 1..];
    Assoc(text, EscapeBytes(c), EscapeLossy(flags, U.Decoder(U.ACCEPT, e.codepoint), [], str[i + 1..]));
    Assoc(text, Escape(flags, e.codepoint), EscapeLossy(flags, e, [], str[i + 1..]));
  }

  // ---------------------------------------------------------------------------------------------
  // The formatter, and the round trip.

  lemma {:induction false} AsciiText(s: seq<Byte>)
    requires U.AllAscii(s)
    ensures U.WellFormed(s) && U.Emitted(U.START, s) == s
  {
    hide U.Run, U.Emitted, U.EncodeAll, U.WellFormed;
    U.AsciiIsItself(s);
    U.EncodedDecodes(U.START, s);
    U.AcceptsIffWellFormed(U.START, s);
  }

  /** What the traits of a well-formed key say about its code points. */
  lemma {:induction false} Forms(flags: Flags, key: seq<Byte>)
    requires key != [] && U.WellFormed(key)
    ensures var vs := U.Emitted(U.START, key);
            && vs != [] && U.AllScalar(vs) && U.EncodeAll(vs) == key
            && (Bareable(Seen(vs)) <==> AllBare(vs))
            && (AllBare(vs) ==> U.AllAscii(key))
            && (LiteralWorks(flags, vs)
                <==> flags.literalStrings && Plain(Seen(vs)) && (U.AllAscii(key) || flags.unicodeStrings))
  {
    var vs := U.Emitted(U.START, key);
    U.DecodedEncodes(U.START, key);
    assert vs != [];
    SeenMeans(vs);
    hide U.Emitted, U.WellFormed, Seen, U.EncodeAll, IsControl, IsNonAsciiVertical;
    if U.AllAscii(key) {
      AsciiText(key);
    }
    if U.AllAscii(vs) {
      U.AsciiIsItself(vs);
    }
    LiteralMeans(flags, vs);
  }

  lemma {:induction false} LiteralMeans(flags: Flags, vs: seq<nat>)
    ensures LiteralWorks(flags, vs)
       <==> && flags.literalStrings && (U.AllAscii(vs) || flags.unicodeStrings)
            && forall i :: 0 <= i < |vs| ==> PlainChar(vs[i])
  {
    assert forall v :: PlainInLiteral(flags, v) <==> PlainChar(v) && (v > 0x7F ==> flags.unicodeStrings);
    hide PlainInLiteral, PlainChar;
  }

  lemma {:induction false} Wrapped(q: nat, vs: seq<nat>)
    requires q <= 0x7F && U.AllScalar(vs)
    ensures U.AllScalar([q] + vs + [q]) && U.EncodeAll([q] + vs + [q]) == [q] + U.EncodeAll(vs) + [q]
  {
    hide U.EncodeAll;
    U.AsciiIsItself([q]);
    U.EncodeAppend([q], vs);
    U.EncodeAppend([q] + vs, [q]);
  }

  lemma {:induction false} PrintedEmpty(flags: Flags)
    ensures U.AllScalar(Printed(flags, []))
    ensures U.EncodeAll(Printed(flags, [])) == if flags.literalStrings then [APOSTROPHE, APOSTROPHE] else [QUOTE, QUOTE]
  {
    AsciiText([]);
    U.AsciiIsItself(Printed(flags, []));
  }

  lemma {:induction false} PrintedBare(flags: Flags, key: seq<Byte>)
    requires key != [] && U.WellFormed(key) && AllBare(U.Emitted(U.START, key))
    ensures U.AllScalar(Printed(flags, key)) && U.EncodeAll(Printed(flags, key)) == key
  {
    hide U.Emitted, U.WellFormed, Seen, U.EncodeAll;
    Forms(flags, key);
  }

  lemma {:induction false} PrintedLiteral(flags: Flags, key: seq<Byte>)
    requires key != [] && U.WellFormed(key)
    requires !AllBare(U.Emitted(U.START, key)) && LiteralWorks(flags, U.Emitted(U.START, key))
    ensures U.AllScalar(Printed(flags, key)) && U.EncodeAll(Printed(flags, key)) == [APOSTROPHE] + key + [APOSTROPHE]
  {
    hide U.Emitted, U.WellFormed, Seen, U.EncodeAll;
    Forms(flags, key);
    Wrapped(APOSTROPHE, U.Emitted(U.START, key));
  }

  ghost predicate MustEscape(flags: Flags, key: seq<Byte>) {
    key != [] && (U.WellFormed(key) ==>
      !AllBare(U.Emitted(U.START, key)) && !LiteralWorks(flags, U.Emitted(U.START, key)))
  }

  lemma {:induction false} PrintedEscaped(flags: Flags, key: seq<Byte>)
    requires MustEscape(flags, key)
    ensures var text := EscapeLossy(if U.WellFormed(key) then flags else Escaping(flags), U.START, [], key);
            U.AllScalar(text) ==>
              && U.AllScalar(Printed(flags, key))
              && U.EncodeAll(Printed(flags, key)) == [QUOTE] + U.EncodeAll(text) + [QUOTE]
  {
    hide U.Emitted, U.WellFormed, Seen, U.EncodeAll, U.Run, EscapeLossy, EscapeAll, AllBare, LiteralWorks, U.AllScalar;
    var text := EscapeLossy(if U.WellFormed(key) then flags else Escaping(flags), U.START, [], key);
    if U.WellFormed(key) {
      U.AcceptsIffWellFormed(U.START, key);
      ExactWhenAccepted(flags, U.START, [], key);
      Forms(flags, key);
    }
    if U.AllScalar(text) {
      Wrapped(QUOTE, text);
    }
  }

  lemma {:induction false} AsciiEscapes(flags: Flags, key: seq<Byte>)
    requires U.AllAscii(key) && U.AllAscii(EscapeAll(flags, key))
    ensures U.WellFormed(key)
    ensures var text := EscapeLossy(flags, U.START, [], key);
            U.AllScalar(text) && U.EncodeAll(text) == EscapeAll(flags, key)
  {
    hide U.Emitted, U.WellFormed, U.EncodeAll, U.Run, EscapeLossy, EscapeAll;
    AsciiText(key);
    U.AcceptsIffWellFormed(U.START, key);
    ExactWhenAccepted(flags, U.START, [], key);
    U.AsciiIsItself(EscapeAll(flags, key));
  }

  /** The first scan: traits, whether the text is ASCII and whether other characters may be printed. */
  method ScanTraits(flags: Flags, str: seq<Byte>) returns (t: Traits, ascii: bool, unicodeAllowed: bool)
    requires str != []
    ensures ascii <==> U.AllAscii(str)
    ensures unicodeAllowed <==> flags.unicodeStrings && U.WellFormed(str)
    ensures U.WellFormed(str) ==> t == Seen(U.Emitted(U.START, str))
    ensures !U.WellFormed(str) ==> t.controlChars && t.nonBare
  {
    hide Seen, U.Emitted, U.WellFormed;
    ascii := R.IsAscii(str);
    if ascii {
      AsciiText(str);
      t := ScanAscii(str);
      unicodeAllowed := flags.unicodeStrings;
    } else {
      var wellFormed: bool;
      t, wellFormed := ScanUnicode(str);
      unicodeAllowed := flags.unicodeStrings && wellFormed;
    }
  }

  /** print_string as it is called for keys: bare strings allowed, multi-line strings and literal
      whitespace not. */
  method PrintString(flags: Flags, str: seq<Byte>) returns (out: seq<Byte>)
    ensures U.AllScalar(Printed(flags, str)) && out == U.EncodeAll(Printed(flags, str))
  {
    hide Printed, Seen, EscapeLossy, EscapeAll, U.EncodeAll, U.Emitted, U.WellFormed, U.AllAscii, U.AllScalar,
         AllBare, LiteralWorks;
    if str == [] {
      PrintedEmpty(flags);
      return if flags.literalStrings then [APOSTROPHE, APOSTROPHE] else [QUOTE, QUOTE];
    }
    var traits, ascii, unicodeAllowed := ScanTraits(flags, str);
    if U.WellFormed(str) {
      Forms(flags, str);
    }
    var bare := Bareable(traits);
    if bare && (ascii || unicodeAllowed) {
      PrintedBare(flags, str);
      return str;
    }
    if flags.literalStrings && Plain(traits) && (ascii || unicodeAllowed) {
      PrintedLiteral(flags, str);
      return [APOSTROPHE] + str + [APOSTROPHE];
    }
    PrintedEscaped(flags, str);
    var body: seq<Byte>;
    if ascii {
      body := EscapeAscii(flags, str);
      AsciiEscapes(flags, str);
    } else {
      body := EscapeUnicode(flags.(unicodeStrings := unicodeAllowed), str);
      SameFlags(flags);
    }
    out := [QUOTE] + body + [QUOTE];
  }

  lemma SameFlags(flags: Flags)
    ensures flags.(unicodeStrings := flags.unicodeStrings) == flags
  {
  }

  lemma {:induction false} PrintedFirst(flags: Flags, key: seq<Byte>)
    requires U.AllScalar(Printed(flags, key))
    ensures R.Text(U.EncodeAll(Printed(flags, key))) == U.EncodeAll(Printed(flags, key))
  {
    var text := Printed(flags, key);
    if U.WellFormed(key) {
      PrintedStart(flags, U.Emitted(U.START, key));
    }
    assert text != [] && text[0] <= 0x7F;
    assert U.EncodeAll(text)[0] == text[0];
  }

  /** A key printed, read as a document and parsed: it comes back exactly when it is well-formed UTF-8. */
  method PrintThenRead(flags: Flags, key: seq<Byte>) returns (back: Result<seq<Byte>>)
    ensures back.Ok? && (back.value == key <==> U.WellFormed(key))
  {
    hide Printed, Lossy, EscapeLossy, U.EncodeAll, U.Emitted, U.WellFormed, U.AllScalar, U.Run, R.CodePoints, Segment;
    ghost var text := Printed(flags, key);
    var out := PrintString(flags, key);
    PrintedFirst(flags, key);
    var ok, cps := R.ReadDocument(out);
    U.EncodedDecodes(U.START, text);
    U.AcceptsIffWellFormed(U.START, out);
    R.ValuesAreEmitted(R.ORIGIN, out);
    if !ok {
      return Err;
    }
    var keys := IO.ParseKey(R.Values(cps));
    PrintedIsRead(flags, key, []);
    assert text + [] == text;
    NothingLostIff(key);
    if keys == Err {
      return Err;
    }
    back := Ok(U.EncodeAll(keys.value.0[0]));
  }
}
