/** The UTF-8 automaton of the TOML parser, against the grammar of section 4 of RFC 3629, and the
    bytes the parser emits for `\u` and `\U` escapes. */
module Utf8 {
  import opened Bytes

  // ---------------------------------------------------------------------------------------------
  // The automaton: a table of byte classes followed by a table of transitions.

  const ACCEPT: nat := 0
  const ERROR: nat := 12

  /** The first 256 entries of the state table, as the ranges they form. */
  function ByteClass(b: Byte): nat {
    if b <= 0x7F then 0
    else if b <= 0x8F then 1
    else if b <= 0x9F then 9
    else if b <= 0xBF then 7
    else if b <= 0xC1 then 8
    else if b <= 0xDF then 2
    else if b == 0xE0 then 10
    else if b <= 0xEC then 3
    else if b == 0xED then 4
    else if b <= 0xEF then 3
    else if b == 0xF0 then 11
    else if b <= 0xF3 then 6
    else if b == 0xF4 then 5
    else 8
  }

  /** The remaining 108 entries: one row of twelve per state, all others leading to the error state. */
  function Transition(state: nat, cls: nat): nat {
    match state
    case 0 =>
      (match cls
       case 0 => 0 case 2 => 24 case 3 => 36 case 4 => 60 case 5 => 96 case 6 => 84
       case 10 => 48 case 11 => 72 case _ => ERROR)
    case 24 => if cls == 1 || cls == 7 || cls == 9 then 0 else ERROR
    case 36 => if cls == 1 || cls == 7 || cls == 9 then 24 else ERROR
    case 48 => if cls == 7 then 24 else ERROR
    case 60 => if cls == 1 || cls == 9 then 24 else ERROR
    case 72 => if cls == 7 || cls == 9 then 36 else ERROR
    case 84 => if cls == 1 || cls == 7 || cls == 9 then 36 else ERROR
    case 96 => if cls == 1 then 36 else ERROR
    case _ => ERROR
  }

  datatype Decoder = Decoder(state: nat, codepoint: nat)

  const START: Decoder := Decoder(0, 0)

  /** `(255 >> cls) & b`: the bits of a lead byte that belong to the code point. */
  function LeadBits(b: Byte, cls: nat): nat {
    match cls
    case 0 => b
    case 1 => b % 128
    case 2 => b % 64
    case 3 => b % 32
    case 4 => b % 16
    case 5 => b % 8
    case 6 => b % 4
    case 7 => b % 2
    case _ => 0
  }

  /** One call of the decoder; code points are 32 bits wide. */
  function Fed(d: Decoder, b: Byte): Decoder {
    var cls := ByteClass(b);
    Decoder(Transition(d.state, cls),
            if d.state == ACCEPT then LeadBits(b, cls) else d.codepoint * 64 % 0x1_0000_0000 + b % 64)
  }

  class Utf8Decoder {
    var state: nat
    var codepoint: nat

    constructor ()
      ensures View() == START
    {
      state, codepoint := 0, 0;
    }

    function View(): Decoder
      reads this
    {
      Decoder(state, codepoint)
    }

    method Feed(b: Byte)
      requires state != ERROR
      modifies this
      ensures View() == Fed(old(View()), b)
    {
      var cls := ByteClass(b);
      codepoint := if state == ACCEPT then LeadBits(b, cls) else codepoint * 64 % 0x1_0000_0000 + b % 64;
      state := Transition(state, cls);
    }

    method Reset()
      modifies this
      ensures View() == Decoder(ACCEPT, old(codepoint))
    {
      state := 0;
    }
  }

  function Run(d: Decoder, s: seq<Byte>): Decoder
    decreases |s|
  {
    if s == [] then d else Run(Fed(d, s[0]), s[1..])
  }

  /** The code points completed while reading `s`. */
  function Emitted(d: Decoder, s: seq<Byte>): seq<nat>
    decreases |s|
  {
    if s == [] then []
    else
      Out(Fed(d, s[0])) + Emitted(Fed(d, s[0]), s[1..])
  }

  /** The code point that is complete after a call, if any. */
  function Out(d: Decoder): seq<nat> { if d.state == ACCEPT then [d.codepoint] else [] }

  // ---------------------------------------------------------------------------------------------
  // RFC 3629.

  predicate Tail(b: Byte) { 0x80 <= b <= 0xBF }

  /** UTF8-char of the grammar in section 4. */
  predicate IsChar(c: seq<Byte>) {
    match |c|
    case 1 => c[0] <= 0x7F
    case 2 => 0xC2 <= c[0] <= 0xDF && Tail(c[1])
    case 3 =>
      && Tail(c[2])
      && (|| (c[0] == 0xE0 && 0xA0 <= c[1] <= 0xBF)
          || (0xE1 <= c[0] <= 0xEC && Tail(c[1]))
          || (c[0] == 0xED && 0x80 <= c[1] <= 0x9F)
          || (0xEE <= c[0] <= 0xEF && Tail(c[1])))
    case 4 =>
      && Tail(c[2]) && Tail(c[3])
      && (|| (c[0] == 0xF0 && 0x90 <= c[1] <= 0xBF)
          || (0xF1 <= c[0] <= 0xF3 && Tail(c[1]))
          || (c[0] == 0xF4 && 0x80 <= c[1] <= 0x8F))
    case _ => false
  }

  /** UTF8-octets: any number of characters. */
  ghost predicate WellFormed(s: seq<Byte>)
    decreases |s|
  {
    s == [] || exists k :: 1 <= k <= 4 && k <= |s| && IsChar(s[..k]) && WellFormed(s[k..])
  }

  predicate IsScalar(v: nat) { v < 0xD800 || 0xE000 <= v < 0x11_0000 }

  /** The bytes appended for an escape of value `v`; shifts and masks written as divisions. */
  function Encode(v: nat): (s: seq<Byte>)
    requires IsScalar(v)
    ensures 1 <= |s| <= 4
  {
    if v < 0x80 then [v]
    else if v < 0x800 then [0xC0 + v / 64, 0x80 + v % 64]
    else if v < 0x1_0000 then [0xE0 + v / 4096, 0x80 + v / 64 % 64, 0x80 + v % 64]
    else [0xF0 + v / 0x4_0000, 0x80 + v / 4096 % 64, 0x80 + v / 64 % 64, 0x80 + v % 64]
  }

  ghost predicate AllScalar(vs: seq<nat>) { forall i :: 0 <= i < |vs| ==> IsScalar(vs[i]) }

  function EncodeAll(vs: seq<nat>): seq<Byte>
    requires AllScalar(vs)
  {
    if vs == [] then [] else Encode(vs[0]) + EncodeAll(vs[1..])
  }

  /** The scalar value of one character. */
  function Value(c: seq<Byte>): nat
    requires IsChar(c)
  {
    var b0: int := c[0];
    var b1: int := if |c| > 1 then c[1] - 0x80 else 0;
    var b2: int := if |c| > 2 then c[2] - 0x80 else 0;
    var b3: int := if |c| > 3 then c[3] - 0x80 else 0;
    match |c|
    case 1 => b0
    case 2 => (b0 - 0xC0) * 64 + b1
    case 3 => (b0 - 0xE0) * 4096 + b1 * 64 + b2
    case _ => (b0 - 0xF0) * 0x4_0000 + b1 * 4096 + b2 * 64 + b3
  }

  // ---------------------------------------------------------------------------------------------
  // Characters.

  /** Encoding a scalar value gives a character of that value. */
  lemma EncodeIsChar(v: nat)
    requires IsScalar(v)
    ensures IsChar(Encode(v)) && Value(Encode(v)) == v
  {
    if v < 0x800 {
    } else if v < 0x1_0000 {
      EncodeThree(v);
    } else {
      EncodeFour(v);
    }
  }

  lemma EncodeThree(v: nat)
    requires IsScalar(v) && 0x800 <= v < 0x1_0000
    ensures IsChar(Encode(v)) && Value(Encode(v)) == v
  {
    var x, y, z := v / 4096, v / 64 % 64, v % 64;
    assert v / 64 == 64 * x + y;
    assert v == 4096 * x + 64 * y + z;
    var c := Encode(v);
    assert c == [0xE0 + x, 0x80 + y, 0x80 + z];
    assert Tail(c[1]) && Tail(c[2]);
  }

  lemma EncodeFour(v: nat)
    requires 0x1_0000 <= v < 0x11_0000
    ensures IsChar(Encode(v)) && Value(Encode(v)) == v
  {
    var w, x, y, z := v / 0x4_0000, v / 4096 % 64, v / 64 % 64, v % 64;
    assert v / 4096 == 64 * w + x;
    assert v / 64 == 64 * (v / 4096) + y;
    assert v == 0x4_0000 * w + 4096 * x + 64 * y + z;
    var c := Encode(v);
    assert c == [0xF0 + w, 0x80 + x, 0x80 + y, 0x80 + z];
    assert Tail(c[1]) && Tail(c[2]) && Tail(c[3]);
  }

  /** Every character is the encoding of its value, which is a scalar value. */
  lemma CharIsEncoding(c: seq<Byte>)
    requires IsChar(c)
    ensures IsScalar(Value(c)) && Encode(Value(c)) == c
  {
    if |c| <= 2 {
    } else if |c| == 3 {
      ThreeIsEncoding(c);
    } else {
      FourIsEncoding(c);
    }
  }

  lemma ThreeIsEncoding(c: seq<Byte>)
    requires IsChar(c) && |c| == 3
    ensures IsScalar(Value(c)) && Encode(Value(c)) == c
  {
    var x: int, y: int, z: int := c[0] - 0xE0, c[1] - 0x80, c[2] - 0x80;
    var v := Value(c);
    assert v == 4096 * x + 64 * y + z;
    assert v / 4096 == x && v / 64 == 64 * x + y && v % 64 == z;
    assert v / 64 % 64 == y;
    assert 0x800 <= v < 0x1_0000;
  }

  lemma FourIsEncoding(c: seq<Byte>)
    requires IsChar(c) && |c| == 4
    ensures IsScalar(Value(c)) && Encode(Value(c)) == c
  {
    var w: int, x: int, y: int, z: int := c[0] - 0xF0, c[1] - 0x80, c[2] - 0x80, c[3] - 0x80;
    var v := Value(c);
    assert v == 0x4_0000 * w + 4096 * x + 64 * y + z;
    assert v / 0x4_0000 == w && v / 4096 == 64 * w + x && v / 64 == 4096 * w + 64 * x + y && v % 64 == z;
    assert v / 4096 % 64 == x && v / 64 % 64 == y;
    assert 0x1_0000 <= v < 0x11_0000;
  }

  lemma {:induction false} RunAppend(d: Decoder, s: seq<Byte>, t: seq<Byte>)
    ensures Run(d, s + t) == Run(Run(d, s), t)
    ensures Emitted(d, s + t) == Emitted(d, s) + Emitted(Run(d, s), t)
    decreases |s|
  {
    if s == [] {
      assert s + t == t;
    } else {
      assert (s + t)[1..] == s[1..] + t;
      RunAppend(Fed(d, s[0]), s[1..], t);
    }
  }

  lemma {:induction false} RunOne(d: Decoder, s: seq<Byte>)
    requires s != []
    ensures Run(d, s) == Run(Fed(d, s[0]), s[1..])
    ensures Emitted(d, s) == Out(Fed(d, s[0])) + Emitted(Fed(d, s[0]), s[1..])
  {
  }

  /** From an accepting state the automaton reads exactly one character and emits its value. */
  lemma CharIsRead(d: Decoder, c: seq<Byte>)
    requires d.state == ACCEPT && IsChar(c)
    ensures Run(d, c) == Decoder(ACCEPT, Value(c)) && Emitted(d, c) == [Value(c)]
  {
    ReadOneByOne(d, c);
    if |c| == 1 {
    } else if |c| == 2 {
      ReadTwo(d, c);
    } else if |c| == 3 {
      ReadThree(d, c);
    } else {
      ReadFour(d, c);
    }
  }

  lemma ReadTwo(d: Decoder, c: seq<Byte>)
    requires d.state == ACCEPT && IsChar(c) && |c| == 2
    ensures Fed(d, c[0]).state == 24 && Fed(Fed(d, c[0]), c[1]) == Decoder(ACCEPT, Value(c))
  {
    assert Fed(d, c[0]).codepoint == c[0] - 0xC0;
  }

  /** A continuation byte in a state that takes any. */
  lemma FedTail(d: Decoder, b: Byte)
    requires (d.state == 24 || d.state == 36) && d.codepoint < 0x4_0000 && Tail(b)
    ensures Fed(d, b) == Decoder(d.state - 12 - (if d.state == 24 then 12 else 0), 64 * d.codepoint + (b - 0x80))
  {
  }

  lemma ReadThree(d: Decoder, c: seq<Byte>)
    requires d.state == ACCEPT && IsChar(c) && |c| == 3
    ensures var d1 := Fed(d, c[0]);
            var d2 := Fed(d1, c[1]);
            d1.state != ACCEPT && d2.state == 24 && Fed(d2, c[2]) == Decoder(ACCEPT, Value(c))
  {
    var d1 := Fed(d, c[0]);
    assert d1.codepoint == c[0] - 0xE0;
    var x: int, y: int := c[0] - 0xE0, c[1] - 0x80;
    assert Fed(d1, c[1]) == Decoder(24, 64 * x + y);
    FedTail(Decoder(24, 64 * x + y), c[2]);
    hide Fed;
  }

  lemma FourLead(d: Decoder, c: seq<Byte>)
    requires d.state == ACCEPT && IsChar(c) && |c| == 4
    ensures Fed(d, c[0]).state != ACCEPT
    ensures Fed(Fed(d, c[0]), c[1]) == Decoder(36, 64 * (c[0] as int - 0xF0) + (c[1] - 0x80))
  {
    assert Fed(d, c[0]).codepoint == c[0] - 0xF0;
  }

  lemma ReadFour(d: Decoder, c: seq<Byte>)
    requires d.state == ACCEPT && IsChar(c) && |c| == 4
    ensures var d1 := Fed(d, c[0]);
            var d2 := Fed(d1, c[1]);
            var d3 := Fed(d2, c[2]);
            d1.state != ACCEPT && d2.state == 36 && d3.state == 24 && Fed(d3, c[3]) == Decoder(ACCEPT, Value(c))
  {
    hide Fed;
    var w: int, x: int, y: int := c[0] - 0xF0, c[1] - 0x80, c[2] - 0x80;
    FourLead(d, c);
    FedTail(Decoder(36, 64 * w + x), c[2]);
    FedTail(Decoder(24, 64 * (64 * w + x) + y), c[3]);
  }

  /** Reading up to four bytes, one call at a time. */
  lemma {:induction false} ReadOneByOne(d: Decoder, c: seq<Byte>)
    requires 1 <= |c| <= 4
    ensures var d1 := Fed(d, c[0]);
            && (|c| == 1 ==> Run(d, c) == d1 && Emitted(d, c) == Out(d1))
            && (|c| > 1 ==>
                  var d2 := Fed(d1, c[1]);
                  && (|c| == 2 ==> Run(d, c) == d2 && Emitted(d, c) == Out(d1) + Out(d2))
                  && (|c| > 2 ==>
                        var d3 := Fed(d2, c[2]);
                        && (|c| == 3 ==> Run(d, c) == d3 && Emitted(d, c) == Out(d1) + Out(d2) + Out(d3))
                        && (|c| == 4 ==>
                              var d4 := Fed(d3, c[3]);
                              Run(d, c) == d4 && Emitted(d, c) == Out(d1) + Out(d2) + Out(d3) + Out(d4))))
  {
    hide Fed;
    var d1 := Fed(d, c[0]);
    if |c| == 1 {
      assert c[1..] == [];
    } else {
      var d2 := Fed(d1, c[1]);
      assert Run(d, c) == Run(d1, c[1..]) && Emitted(d, c) == Out(d1) + Emitted(d1, c[1..]);
      assert c[1..][1..] == c[2..];
      if |c| == 2 {
        assert c[2..] == [];
      } else {
        var d3 := Fed(d2, c[2]);
        assert Run(d1, c[1..]) == Run(d2, c[2..]) && Emitted(d1, c[1..]) == Out(d2) + Emitted(d2, c[2..]);
        assert c[2..][1..] == c[3..];
        if |c| == 3 {
          assert c[3..] == [];
        } else {
          var d4 := Fed(d3, c[3]);
          assert Run(d2, c[2..]) == Run(d3, c[3..]) && Emitted(d2, c[2..]) == Out(d3) + Emitted(d3, c[3..]);
          assert c[3..][1..] == [];
          assert Run(d3, c[3..]) == Run(d4, []) && Emitted(d3, c[3..]) == Out(d4) + Emitted(d4, []);
        }
      }
    }
  }

  lemma {:induction false} ErrorIsFinal(d: Decoder, s: seq<Byte>)
    requires d.state == ERROR
    ensures Run(d, s).state == ERROR && Emitted(d, s) == []
    decreases |s|
  {
    if s != [] {
      ErrorIsFinal(Fed(d, s[0]), s[1..]);
    }
  }

  /** What an accepting run reads first is a character. */
  lemma {:induction false} AcceptedStartsWithChar(d: Decoder, s: seq<Byte>) returns (k: nat)
    requires d.state == ACCEPT && s != [] && Run(d, s).state == ACCEPT
    ensures 1 <= k <= 4 && k <= |s| && IsChar(s[..k])
  {
    var d1 := Fed(d, s[0]);
    RunOne(d, s);
    if d1.state == ERROR {
      ErrorIsFinal(d1, s[1..]);
    }
    if d1.state == ACCEPT {
      return 1;
    }
    assert |s| >= 2;
    var d2 := Fed(d1, s[1]);
    RunOne(d1, s[1..]);
    assert s[1..][1..] == s[2..];
    if d2.state == ERROR {
      ErrorIsFinal(d2, s[2..]);
    }
    if d2.state == ACCEPT {
      return 2;
    }
    assert |s| >= 3;
    var d3 := Fed(d2, s[2]);
    RunOne(d2, s[2..]);
    assert s[2..][1..] == s[3..];
    if d3.state == ERROR {
      ErrorIsFinal(d3, s[3..]);
    }
    if d3.state == ACCEPT {
      return 3;
    }
    assert |s| >= 4;
    var d4 := Fed(d3, s[3]);
    RunOne(d3, s[3..]);
    if d4.state == ERROR {
      ErrorIsFinal(d4, s[3..][1..]);
    }
    k := 4;
  }

  // ---------------------------------------------------------------------------------------------
  // Strings.

  lemma {:induction false} CharFirst(d: Decoder, s: seq<Byte>, k: nat)
    requires d.state == ACCEPT && k <= |s| && IsChar(s[..k])
    ensures Run(d, s[..k]).state == ACCEPT && Run(d, s) == Run(Run(d, s[..k]), s[k..])
  {
    hide Fed, IsChar, Value, Emitted, Run;
    CharIsRead(d, s[..k]);
    RunAppend(d, s[..k], s[k..]);
    assert s[..k] + s[k..] == s;
  }

  /** For every byte string the automaton ends accepting exactly when the string is well-formed. */
  lemma {:induction false} AcceptsIffWellFormed(d: Decoder, s: seq<Byte>)
    requires d.state == ACCEPT
    ensures Run(d, s).state == ACCEPT <==> WellFormed(s)
    decreases |s|
  {
    NothingRead(d);
    hide Fed, IsChar, Value, Emitted, Run;
    if s != [] {
      if WellFormed(s) {
        var k :| 1 <= k <= 4 && k <= |s| && IsChar(s[..k]) && WellFormed(s[k..]);
        CharFirst(d, s, k);
        AcceptsIffWellFormed(Run(d, s[..k]), s[k..]);
      }
      if Run(d, s).state == ACCEPT {
        var k := AcceptedStartsWithChar(d, s);
        CharFirst(d, s, k);
        AcceptsIffWellFormed(Run(d, s[..k]), s[k..]);
      }
    }
  }

  /** The bytes emitted for any sequence of scalar values are well-formed and decode back to it. */
  lemma {:induction false} EncodedDecodes(d: Decoder, vs: seq<nat>)
    requires d.state == ACCEPT && AllScalar(vs)
    ensures Run(d, EncodeAll(vs)).state == ACCEPT && Emitted(d, EncodeAll(vs)) == vs
    decreases |vs|
  {
    hide Fed, IsChar, Value, Encode, IsScalar;
    if vs != [] {
      var c := Encode(vs[0]);
      EncodeIsChar(vs[0]);
      CharIsRead(d, c);
      RunAppend(d, c, EncodeAll(vs[1..]));
      EncodedDecodes(Run(d, c), vs[1..]);
    }
  }

  /** A well-formed string is the encoding of the scalar values the automaton emits for it. */
  lemma {:induction false} DecodedEncodes(d: Decoder, s: seq<Byte>)
    requires d.state == ACCEPT && WellFormed(s)
    ensures AllScalar(Emitted(d, s)) && EncodeAll(Emitted(d, s)) == s
    decreases |s|
  {
    hide Fed, IsChar, Value, Encode, IsScalar;
    if s != [] {
      var k :| 1 <= k <= 4 && k <= |s| && IsChar(s[..k]) && WellFormed(s[k..]);
      var c, t := s[..k], s[k..];
      assert c + t == s;
      CharIsRead(d, c);
      CharIsEncoding(c);
      RunAppend(d, c, t);
      var e := Run(d, c);
      DecodedEncodes(e, t);
      assert Emitted(d, s) == [Value(c)] + Emitted(e, t);
      assert Emitted(d, s)[1..] == Emitted(e, t);
    }
  }

  lemma {:induction false} EncodeAppend(vs: seq<nat>, ws: seq<nat>)
    requires AllScalar(vs) && AllScalar(ws)
    ensures AllScalar(vs + ws) && EncodeAll(vs + ws) == EncodeAll(vs) + EncodeAll(ws)
  {
    hide Encode, IsScalar;
    if vs == [] {
      assert vs + ws == ws;
    } else {
      assert (vs + ws)[1..] == vs[1..] + ws;
      EncodeAppend(vs[1..], ws);
    }
  }

  ghost predicate AllAscii(vs: seq<nat>) { forall i :: 0 <= i < |vs| ==> vs[i] <= 0x7F }

  lemma {:induction false} AsciiIsItself(vs: seq<nat>)
    requires AllAscii(vs)
    ensures AllScalar(vs) && EncodeAll(vs) == vs
  {
    if vs != [] {
      AsciiIsItself(vs[1..]);
      assert vs == [vs[0]] + vs[1..];
    }
  }

  /** Bytes read since the last complete character. */
  ghost predicate Unfinished(d: Decoder, bytes: seq<Byte>) {
    if bytes == [] then d.state == ACCEPT
    else d == Run(START, bytes) && d.state != ACCEPT && d.state != ERROR && Emitted(START, bytes) == []
  }

  /** A string that completes one code point, at its end, is the encoding of that scalar value. */
  lemma {:induction false} CompleteIsEncoding(bytes: seq<Byte>, b: Byte)
    requires Emitted(START, bytes) == [] && Run(START, bytes + [b]).state == ACCEPT
    ensures var v := Run(START, bytes + [b]).codepoint; IsScalar(v) && Encode(v) == bytes + [b]
  {
    hide Fed, IsChar, Value, Encode, IsScalar, Run, Emitted;
    var c := bytes + [b];
    var k := AcceptedStartsWithChar(START, c);
    CharIsRead(START, c[..k]);
    if k < |c| {
      assert bytes == c[..k] + bytes[k..];
      RunAppend(START, c[..k], bytes[k..]);
      assert false;
    }
    assert c[..k] == c;
    CharIsEncoding(c);
  }

  /** The bytes that complete a character are the encoding of its scalar value. */
  lemma {:induction false} Completed(d: Decoder, bytes: seq<Byte>, b: Byte)
    requires Unfinished(d, bytes)
    ensures var e, c := Fed(d, b), bytes + [b];
            && (e.state == ACCEPT ==> IsScalar(e.codepoint) && Encode(e.codepoint) == c)
            && (e.state != ACCEPT && e.state != ERROR ==> Unfinished(e, c))
  {
    NothingRead(START);
    hide Fed, Encode, IsScalar, Run, Emitted;
    var e, c := Fed(d, b), bytes + [b];
    OneByte(d, b);
    RunAppend(START, bytes, [b]);
    OneByte(START, b);
    assert Run(START, c) == e && Emitted(START, c) == Out(e);
    if e.state == ACCEPT {
      CompleteIsEncoding(bytes, b);
    }
  }

  lemma NothingRead(d: Decoder)
    ensures Run(d, []) == d && Emitted(d, []) == []
  {
  }

  lemma {:induction false} OneByte(d: Decoder, b: Byte)
    ensures Run(d, [b]) == Fed(d, b) && Emitted(d, [b]) == Out(Fed(d, b))
    ensures d.state == ACCEPT ==> Fed(d, b) == Fed(START, b)
  {
    assert [b][1..] == [];
  }
}
