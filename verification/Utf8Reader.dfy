/** The block reader of the TOML parser: an in-memory document is decoded 32 bytes at a time, with a
    shortcut for blocks of plain ASCII, and every code point is stamped with its line and column. */
module Utf8Reader {
  import opened Prelude
  import opened Bytes
  import opened Utf8

  const BLOCK: nat := 32
  const NEWLINE: nat := 10

  datatype CodePoint = CodePoint(value: nat, bytes: seq<Byte>, line: nat, column: nat)

  // ---------------------------------------------------------------------------------------------
  // Decoding the whole text at once, byte by byte.

  /** Decoder, bytes of the code point being read, and the position the next code point will get. */
  datatype Scanner = Scanner(d: Decoder, pending: seq<Byte>, line: nat, column: nat)

  const ORIGIN: Scanner := Scanner(START, [], 1, 1)

  function Next(st: Scanner, b: Byte): Scanner {
    var e := Fed(st.d, b);
    if e.state != ACCEPT then Scanner(e, st.pending + [b], st.line, st.column)
    else if e.codepoint == NEWLINE then Scanner(e, [], st.line + 1, 1)
    else Scanner(e, [], st.line, st.column + 1)
  }

  function Produced(st: Scanner, b: Byte): seq<CodePoint> {
    var e := Fed(st.d, b);
    if e.state == ACCEPT then [CodePoint(e.codepoint, st.pending + [b], st.line, st.column)] else []
  }

  function Scan(st: Scanner, s: seq<Byte>): Scanner
    decreases |s|
  {
    if s == [] then st else Next(Scan(st, s[..|s| - 1]), s[|s| - 1])
  }

  function CodePoints(st: Scanner, s: seq<Byte>): seq<CodePoint>
    decreases |s|
  {
    if s == [] then []
    else CodePoints(st, s[..|s| - 1]) + Produced(Scan(st, s[..|s| - 1]), s[|s| - 1])
  }

  lemma {:induction false} ScanAppend(st: Scanner, s: seq<Byte>, t: seq<Byte>)
    ensures Scan(st, s + t) == Scan(Scan(st, s), t)
    ensures CodePoints(st, s + t) == CodePoints(st, s) + CodePoints(Scan(st, s), t)
    decreases |t|
  {
    if t == [] {
      assert s + t == s;
    } else {
      var n := |t| - 1;
      assert (s + t)[..|s + t| - 1] == s + t[..n];
      ScanAppend(st, s, t[..n]);
    }
  }

  /** Two decoders that behave alike: the code point matters only in the middle of a sequence. */
  predicate Alike(d: Decoder, e: Decoder) {
    d.state == e.state && (d.state != ACCEPT ==> d.codepoint == e.codepoint)
  }

  ghost predicate AlikeScanners(s: Scanner, t: Scanner) {
    Alike(s.d, t.d) && s.pending == t.pending && s.line == t.line && s.column == t.column
  }

  lemma {:induction false} AlikeNext(s: Scanner, t: Scanner, b: Byte)
    requires AlikeScanners(s, t)
    ensures Next(s, b) == Next(t, b) && Produced(s, b) == Produced(t, b)
  {
    hide ByteClass, Transition, LeadBits;
  }

  lemma {:induction false} AlikeScan(s: Scanner, t: Scanner, r: seq<Byte>)
    requires AlikeScanners(s, t)
    ensures AlikeScanners(Scan(s, r), Scan(t, r)) && CodePoints(s, r) == CodePoints(t, r)
    decreases |r|
  {
    if r != [] {
      AlikeScan(s, t, r[..|r| - 1]);
      AlikeNext(Scan(s, r[..|r| - 1]), Scan(t, r[..|r| - 1]), r[|r| - 1]);
    }
  }

  /** How many bytes may be pending in each state: never more than four make a code point. */
  predicate PendingOk(st: Scanner) {
    match st.d.state
    case 0 => st.pending == []
    case 24 => |st.pending| <= 3
    case 36 => |st.pending| <= 2
    case 48 => |st.pending| <= 2
    case 60 => |st.pending| <= 2
    case 72 => |st.pending| == 1
    case 84 => |st.pending| == 1
    case 96 => |st.pending| == 1
    case 12 => true
    case _ => false
  }

  lemma {:induction false} PendingNext(st: Scanner, b: Byte)
    requires PendingOk(st) && st.d.state != ERROR
    ensures PendingOk(Next(st, b)) && |st.pending| < 4
    ensures Fed(st.d, b).state != ERROR && Fed(st.d, b).state != ACCEPT ==> |st.pending| + 1 < 4
    ensures Fed(st.d, b).state in {0, 12, 24, 36, 48, 60, 72, 84, 96}
  {
    hide LeadBits;
  }

  /** An error anywhere means the whole text is not well-formed. */
  lemma {:induction false} ScanIsRun(st: Scanner, s: seq<Byte>)
    ensures Scan(st, s).d == Run(st.d, s)
    decreases |s|
  {
    if s != [] {
      var n := |s| - 1;
      ScanIsRun(st, s[..n]);
      RunAppend(st.d, s[..n], [s[n]]);
      assert s[..n] + [s[n]] == s;
      assert [s[n]][1..] == [];
      hide Fed;
      assert Run(Run(st.d, s[..n]), [s[n]]) == Fed(Run(st.d, s[..n]), s[n]);
    }
  }

  lemma {:induction false} ErrorSpoilsText(s: seq<Byte>, t: seq<Byte>)
    requires Scan(ORIGIN, s).d.state == ERROR
    ensures !WellFormed(s + t)
  {
    ScanIsRun(ORIGIN, s);
    RunAppend(START, s, t);
    ErrorIsFinal(Run(START, s), t);
    AcceptsIffWellFormed(START, s + t);
  }

  lemma {:induction false} EndsAcceptingIff(s: seq<Byte>)
    ensures Scan(ORIGIN, s).d.state == ACCEPT <==> WellFormed(s)
  {
    ScanIsRun(ORIGIN, s);
    AcceptsIffWellFormed(START, s);
  }

  // ---------------------------------------------------------------------------------------------
  // The code points carry the text, and their positions are what an editor would show.

  function Values(cs: seq<CodePoint>): (vs: seq<nat>)
    ensures |vs| == |cs| && forall i :: 0 <= i < |vs| ==> vs[i] == cs[i].value
  {
    seq(|cs|, i requires 0 <= i < |cs| => cs[i].value)
  }

  lemma {:induction false} ValuesAreEmitted(st: Scanner, s: seq<Byte>)
    ensures Values(CodePoints(st, s)) == Emitted(st.d, s)
    decreases |s|
  {
    if s != [] {
      var n := |s| - 1;
      ValuesAreEmitted(st, s[..n]);
      ScanIsRun(st, s[..n]);
      RunAppend(st.d, s[..n], [s[n]]);
      assert s[..n] + [s[n]] == s;
      OneByte(Run(st.d, s[..n]), s[n]);
      hide Fed, Emitted;
    }
  }

  function Newlines(vs: seq<nat>): nat {
    if vs == [] then 0 else Newlines(vs[..|vs| - 1]) + (if vs[|vs| - 1] == '\n' as int then 1 else 0)
  }

  /** How many code points follow the last newline. */
  function SinceNewline(vs: seq<nat>): nat {
    if vs == [] || vs[|vs| - 1] == '\n' as int then 0 else 1 + SinceNewline(vs[..|vs| - 1])
  }

  ghost predicate Stamped(cs: seq<CodePoint>) {
    forall i :: 0 <= i < |cs| ==>
      && cs[i].line == 1 + Newlines(Values(cs[..i]))
      && cs[i].column == 1 + SinceNewline(Values(cs[..i]))
  }

  lemma {:induction false} CountsAppend(vs: seq<nat>, v: nat)
    ensures Newlines(vs + [v]) == Newlines(vs) + (if v == NEWLINE then 1 else 0)
    ensures SinceNewline(vs + [v]) == if v == NEWLINE then 0 else 1 + SinceNewline(vs)
  {
    assert (vs + [v])[..|vs|] == vs;
  }

  lemma {:induction false} StampedAppend(cs: seq<CodePoint>, c: CodePoint)
    requires Stamped(cs)
    requires c.line == 1 + Newlines(Values(cs)) && c.column == 1 + SinceNewline(Values(cs))
    ensures Stamped(cs + [c])
    ensures Values(cs + [c]) == Values(cs) + [c.value]
  {
    hide Newlines, SinceNewline;
    var ds := cs + [c];
    forall i | 0 <= i < |ds|
      ensures ds[i].line == 1 + Newlines(Values(ds[..i])) && ds[i].column == 1 + SinceNewline(Values(ds[..i]))
    {
      if i < |cs| {
        assert ds[i] == cs[i] && ds[..i] == cs[..i];
      } else {
        assert ds[..i] == cs;
      }
    }
  }

  /** Line is one plus the newlines before, column one plus the code points since the last one. */
  lemma {:induction false} PositionsAreRight(s: seq<Byte>)
    ensures Stamped(CodePoints(ORIGIN, s))
    ensures var st := Scan(ORIGIN, s);
            var vs := Values(CodePoints(ORIGIN, s));
            st.line == 1 + Newlines(vs) && st.column == 1 + SinceNewline(vs)
    decreases |s|
  {
    if s != [] {
      var n := |s| - 1;
      PositionsAreRight(s[..n]);
      var st, cs := Scan(ORIGIN, s[..n]), CodePoints(ORIGIN, s[..n]);
      var more := Produced(st, s[n]);
      assert CodePoints(ORIGIN, s) == cs + more && Scan(ORIGIN, s) == Next(st, s[n]);
      hide Fed, Scan, CodePoints, Stamped, Newlines, SinceNewline, Values;
      if more == [] {
        assert cs + more == cs;
      } else {
        StampedAppend(cs, more[0]);
        CountsAppend(Values(cs), more[0].value);
        assert more == [more[0]];
      }
    }
  }

  // ---------------------------------------------------------------------------------------------
  // The object.

  /** A document without its byte order mark. */
  function Text(source: seq<Byte>): seq<Byte> {
    if |source| >= 3 && source[..3] == [0xEF, 0xBB, 0xBF] then source[3..] else source
  }

  /** A byte order mark in front of a text is skipped, and nothing else is. */
  lemma MarkIsSkipped(source: seq<Byte>)
    ensures Text(Encode(0xFEFF) + source) == source
    ensures !(Encode(0xFEFF) <= source) ==> Text(source) == source
  {
    assert Encode(0xFEFF) == [0xEF, 0xBB, 0xBF];
    assert (Encode(0xFEFF) + source)[3..] == source;
  }

  /** How many code points end within the first `p` bytes. */
  ghost function Count(text: seq<Byte>, p: nat): nat
    requires p <= |text|
  {
    |CodePoints(ORIGIN, text[..p])|
  }

  /** Where the block that ends at `p` starts. */
  function BlockStart(p: nat): (q: nat)
    ensures q <= p
  {
    if p == 0 then 0 else (p - 1) / BLOCK * BLOCK
  }

  /** `block` holds the code points that end in the block of the text that ends at `p`. */
  ghost predicate IsBlock(text: seq<Byte>, p: nat, block: seq<CodePoint>)
    requires p <= |text|
  {
    CodePoints(ORIGIN, text[..p]) == CodePoints(ORIGIN, text[..BlockStart(p)]) + block
  }

  /** The reader has decoded `p` bytes in blocks; the last block holds the code points from `first` on. */
  ghost predicate Loaded(text: seq<Byte>, p: nat, st: Scanner, block: seq<CodePoint>, first: int) {
    && p <= |text| && (p % BLOCK == 0 || p == |text|)
    && AlikeScanners(st, Scan(ORIGIN, text[..p]))
    && first == Count(text, BlockStart(p)) && IsBlock(text, p, block)
  }

  lemma RawBounds(text: seq<Byte>, p: nat, st: Scanner, block: seq<CodePoint>, first: int)
    requires Loaded(text, p, st, block, first) && p < |text|
    ensures var e := NextEnd(text, p); p < e <= |text| && (|RawBlock(text, p)| >= 4 || e == |text|)
    ensures RawBlock(text, p) != []
  {
  }

  /** The end of the block that starts at `p`. */
  function NextEnd(text: seq<Byte>, p: nat): nat {
    if p + BLOCK <= |text| then p + BLOCK else |text|
  }

  function RawBlock(text: seq<Byte>, p: nat): seq<Byte>
    requires p <= |text|
  {
    text[p..NextEnd(text, p)]
  }

  lemma NextStart(text: seq<Byte>, p: nat)
    requires p % BLOCK == 0 && p < |text|
    ensures var e := NextEnd(text, p);
            p < e <= |text| && BlockStart(e) == p && (e % BLOCK == 0 || e == |text|)
  {
    var e := NextEnd(text, p);
    assert (e - 1) / BLOCK == p / BLOCK;
  }

  datatype ReadResult = Got(cp: CodePoint) | EndOfFile | Malformed

  method IsAscii(s: seq<Byte>) returns (ascii: bool)
    ensures ascii <==> forall i :: 0 <= i < |s| ==> s[i] <= 127
  {
    var i := 0;
    while i < |s|
      invariant i <= |s| && forall k :: 0 <= k < i ==> s[k] <= 127
    {
      if s[i] > 127 {
        return false;
      }
      i := i + 1;
    }
    ascii := true;
  }

  class Reader {
    const text: seq<Byte>
    var position: nat
    var scanner: Scanner
    var buffer: seq<CodePoint>
    var current: nat
    var failed: bool
    ghost var taken: nat

    ghost predicate Valid()
      reads this
    {
      && position <= |text| && current <= |buffer|
      && PendingOk(scanner) && scanner.d.state != ERROR
      && Loaded(text, position, scanner, buffer, taken - current)
      && (failed ==> !WellFormed(text))
      && (!failed && position == |text| ==> scanner.d.state == ACCEPT)
    }

    constructor (source: seq<Byte>)
      ensures Valid() && text == Text(source) && taken == 0 && !failed
    {
      text := Text(source);
      position, scanner, buffer, current, failed, taken := 0, ORIGIN, [], 0, false, 0;
    }

    /** Decodes the next block. On failure the code points decoded so far are dropped with it. */
    method ReadNextBlock() returns (ok: bool)
      requires Valid() && !failed && position < |text| && current == |buffer|
      modifies this
      ensures Valid() && taken == old(taken) && ok == !failed
      ensures ok ==> position == NextEnd(text, old(position)) && current == 0 && buffer != []
    {
      RawBounds(text, position, scanner, buffer, taken - current);
      hide Scan, CodePoints, WellFormed, PendingOk, AlikeScanners, Loaded, NextEnd, RawBlock;
      var raw := RawBlock(text, position);
      var good, decoded, st, done := DecodeBlock(scanner, raw);
      if !good {
        SpoiledBlock(text, position, scanner, buffer, taken - current, done);
        failed := true;
        return false;
      }
      BlockLoaded(text, position, scanner, buffer, taken - current, st, decoded);
      var end := NextEnd(text, position);
      if st.d.state != ACCEPT && end == |text| {
        EndsShort(text, st, decoded, taken);
        failed := true;
        return false;
      }
      buffer, scanner, current, position := decoded, st, 0, end;
      ok := true;
    }

    ghost function Whole(): seq<CodePoint>
      reads this
    {
      CodePoints(ORIGIN, text)
    }

    method ReadNext() returns (r: ReadResult)
      requires Valid()
      modifies this
      ensures Valid()
      ensures match r
              case Got(cp) =>
                && taken == old(taken) + 1 && taken <= |Whole()| && cp == Whole()[old(taken)]
                && current > 0 && buffer[current - 1] == cp
                && (if old(current) < |old(buffer)|
                    then buffer == old(buffer) && position == old(position) && current == old(current) + 1
                    else current == 1 && old(position) < |text| && position == NextEnd(text, old(position)))
              case EndOfFile =>
                && taken == old(taken) == |Whole()| && WellFormed(text)
                && buffer == old(buffer) && current == old(current)
              case Malformed => !WellFormed(text)
    {
      hide Scan, CodePoints, WellFormed, PendingOk;
      if failed {
        return Malformed;
      }
      if current == |buffer| {
        if position == |text| {
          assert text[..position] == text;
          EndsAcceptingIff(text);
          return EndOfFile;
        }
        var ok := ReadNextBlock();
        if !ok {
          return Malformed;
        }
      }
      r := Got(buffer[current]);
      ghost var pre := text[..position];
      ScanAppend(ORIGIN, pre, text[position..]);
      assert pre + text[position..] == text;
      current, taken := current + 1, taken + 1;
    }
  }

  /** The raw bytes of a block, decoded in the way that suits them. At a malformed sequence, after
      `done` bytes, the decoding stops. */
  method DecodeBlock(st: Scanner, raw: seq<Byte>) returns (good: bool, decoded: seq<CodePoint>, end: Scanner, done: nat)
    requires PendingOk(st) && st.d.state != ERROR && 0 < |raw|
    ensures PendingOk(end) && (good <==> end.d.state != ERROR)
    ensures good ==> AlikeScanners(end, Scan(st, raw)) && decoded == CodePoints(st, raw)
    ensures !good ==> done <= |raw| && Scan(st, raw[..done]).d.state == ERROR
    ensures good && (|raw| >= 4 || end.d.state == ACCEPT) ==> decoded != []
  {
    hide Scan, CodePoints, PendingOk;
    assert raw[..|raw|] == raw;
    var ascii := IsAscii(raw);
    if st.d.state == ACCEPT && ascii {
      PendingAtRest(st);
      decoded, end := AsciiBlock(st, raw);
      PendingAtRest(end);
      return true, decoded, end, |raw|;
    }
    good, decoded, end, done := SlowBlock(st, raw);
    if good {
      SomethingDecoded(st, raw);
      ShortPending(end);
    }
  }

  /** A block of ASCII bytes, read while no code point is under way. */
  method AsciiBlock(st: Scanner, raw: seq<Byte>) returns (decoded: seq<CodePoint>, end: Scanner)
    requires st.d.state == ACCEPT && st.pending == []
    requires forall i :: 0 <= i < |raw| ==> raw[i] <= 127
    ensures decoded == CodePoints(st, raw) && AlikeScanners(end, Scan(st, raw))
    ensures end.d.state == ACCEPT && end.pending == [] && |decoded| == |raw|
  {
    decoded, end := [], st;
    var i := 0;
    while i < |raw|
      invariant i <= |raw| && end.d.state == ACCEPT && end.pending == [] && |decoded| == i
      invariant decoded == CodePoints(st, raw[..i]) && AlikeScanners(end, Scan(st, raw[..i]))
    {
      AlikeNext(end, Scan(st, raw[..i]), raw[i]);
      assert raw[..i + 1][..i] == raw[..i];
      AsciiNext(end, raw[i]);
      decoded := decoded + [CodePoint(raw[i], [raw[i]], end.line, end.column)];
      end := Placed(end, raw[i]);
      i := i + 1;
    }
    assert raw[..|raw|] == raw;
  }

  /** The position after an ASCII byte. */
  function Placed(st: Scanner, b: Byte): Scanner {
    if b == NEWLINE then Scanner(st.d, [], st.line + 1, 1) else Scanner(st.d, [], st.line, st.column + 1)
  }

  lemma {:induction false} AsciiNext(st: Scanner, b: Byte)
    requires st.d.state == ACCEPT && st.pending == [] && b <= 127
    ensures Produced(st, b) == [CodePoint(b, [b], st.line, st.column)]
    ensures AlikeScanners(Next(st, b), Placed(st, b))
  {
    assert st.pending + [b] == [b];
  }

  /** The byte-by-byte path; stops at the first error. */
  method SlowBlock(st: Scanner, raw: seq<Byte>) returns (good: bool, decoded: seq<CodePoint>, end: Scanner, done: nat)
    requires PendingOk(st) && st.d.state != ERROR
    ensures done <= |raw| && (good ==> done == |raw|)
    ensures end == Scan(st, raw[..done]) && decoded == CodePoints(st, raw[..done]) && PendingOk(end)
    ensures good <==> end.d.state != ERROR
  {
    good, decoded, end, done := true, [], st, 0;
    while done < |raw|
      invariant done <= |raw| && good && PendingOk(end) && end.d.state != ERROR
      invariant end == Scan(st, raw[..done]) && decoded == CodePoints(st, raw[..done])
    {
      var b := raw[done];
      assert raw[..done + 1][..done] == raw[..done];
      PendingNext(end, b);
      decoded := decoded + Produced(end, b);
      end := Next(end, b);
      done := done + 1;
      if end.d.state == ERROR {
        return false, decoded, end, done;
      }
      assert end.d.state == ACCEPT || |end.pending| < 4;
    }
  }

  /** Bytes that complete no code point all stay pending, so a block leaves none only if it is short. */
  lemma {:induction false} SomethingDecoded(st: Scanner, raw: seq<Byte>)
    ensures CodePoints(st, raw) == [] ==> Scan(st, raw).pending == st.pending + raw
    decreases |raw|
  {
    if raw != [] {
      SomethingDecoded(st, raw[..|raw| - 1]);
      assert raw[..|raw| - 1] + [raw[|raw| - 1]] == raw;
      hide Fed;
    } else {
      assert st.pending + raw == st.pending;
    }
  }

  /** What the whole-text scan does over a block, seen from a reader that is in step with it. */
  lemma {:induction false} BlockAdded(text: seq<Byte>, at: nat, n: nat, st: Scanner)
    requires at + n <= |text| && AlikeScanners(st, Scan(ORIGIN, text[..at]))
    ensures AlikeScanners(Scan(st, text[at..at + n]), Scan(ORIGIN, text[..at + n]))
    ensures CodePoints(ORIGIN, text[..at + n]) == CodePoints(ORIGIN, text[..at]) + CodePoints(st, text[at..at + n])
  {
    var raw := text[at..at + n];
    assert text[..at + n] == text[..at] + raw;
    ScanAppend(ORIGIN, text[..at], raw);
    AlikeScan(st, Scan(ORIGIN, text[..at]), raw);
  }

  lemma {:induction false} BlockLoaded(text: seq<Byte>, at: nat, st: Scanner, before: seq<CodePoint>, first: int,
                                       end: Scanner, block: seq<CodePoint>)
    requires at < |text| && Loaded(text, at, st, before, first)
    requires AlikeScanners(end, Scan(st, RawBlock(text, at))) && block == CodePoints(st, RawBlock(text, at))
    ensures Loaded(text, NextEnd(text, at), end, block, first + |before|)
  {
    NextStart(text, at);
    hide Scan, CodePoints, NextEnd, BlockStart;
    var n := NextEnd(text, at) - at;
    BlockAdded(text, at, n, st);
    AlikeTransitive(end, Scan(st, text[at..at + n]), Scan(ORIGIN, text[..at + n]));
  }

  lemma {:induction false} AlikeTransitive(a: Scanner, b: Scanner, c: Scanner)
    requires AlikeScanners(a, b) && AlikeScanners(b, c)
    ensures AlikeScanners(a, c)
  {
  }

  lemma {:induction false} PendingAtRest(st: Scanner)
    ensures st.d.state == ACCEPT ==> (PendingOk(st) <==> st.pending == [])
  {
  }

  lemma {:induction false} ShortPending(st: Scanner)
    requires PendingOk(st) && st.d.state != ERROR
    ensures |st.pending| < 4 && (st.d.state == ACCEPT ==> st.pending == [])
  {
  }

  lemma {:induction false} SpoiledBlock(text: seq<Byte>, at: nat, st: Scanner, block: seq<CodePoint>, first: int,
                                        done: nat)
    requires at < |text| && Loaded(text, at, st, block, first) && done <= |RawBlock(text, at)|
    requires Scan(st, RawBlock(text, at)[..done]).d.state == ERROR
    ensures !WellFormed(text)
  {
    hide Scan, WellFormed, CodePoints, Count, IsBlock;
    RawPrefix(text, at, done);
    BlockAdded(text, at, done, st);
    ErrorSpoilsText(text[..at + done], text[at + done..]);
  }

  lemma RawPrefix(text: seq<Byte>, at: nat, done: nat)
    requires at < |text| && done <= |RawBlock(text, at)|
    ensures at + done <= |text| && RawBlock(text, at)[..done] == text[at..at + done]
    ensures text[..at + done] + text[at + done..] == text
  {
  }

  lemma {:induction false} EndsShort(text: seq<Byte>, st: Scanner, block: seq<CodePoint>, first: int)
    requires Loaded(text, |text|, st, block, first) && st.d.state != ACCEPT
    ensures !WellFormed(text)
  {
    assert text[..|text|] == text;
    EndsAcceptingIff(text);
  }

  /** Reading a document to its end gives the code points and positions of decoding the whole text
      at once, wherever block boundaries and ASCII blocks fall, and succeeds exactly when the text is
      well-formed UTF-8. */
  method ReadDocument(source: seq<Byte>) returns (ok: bool, cps: seq<CodePoint>)
    ensures ok <==> WellFormed(Text(source))
    ensures ok ==> cps == CodePoints(ORIGIN, Text(source))
    ensures cps <= CodePoints(ORIGIN, Text(source))
  {
    hide CodePoints, WellFormed;
    var reader := new Reader(source);
    cps := [];
    while true
      invariant reader.Valid() && fresh(reader)
      invariant reader.taken <= |reader.Whole()| && cps == reader.Whole()[..reader.taken]
      decreases |reader.Whole()| - reader.taken
    {
      var r := reader.ReadNext();
      match r {
        case Got(cp) => cps := cps + [cp];
        case EndOfFile => return true, cps;
        case Malformed => return false, cps;
      }
    }
  }

  /** The bytes of the code points, followed by those of an unfinished one, are the text. */
  lemma {:induction false} BytesAreTheText(s: seq<Byte>)
    ensures Concat(BytesOf(CodePoints(ORIGIN, s))) + Scan(ORIGIN, s).pending == s
    decreases |s|
  {
    hide Next, Produced, Concat, BytesOf;
    if s == [] {
      BytesOfNone();
    } else {
      var n := |s| - 1;
      BytesAreTheText(s[..n]);
      BytesStep(CodePoints(ORIGIN, s[..n]), Scan(ORIGIN, s[..n]), s[n], s[..n]);
      assert s[..n] + [s[n]] == s;
    }
  }

  lemma BytesOfNone()
    ensures Concat(BytesOf([])) == []
  {
    assert BytesOf([]) == [];
  }

  lemma {:induction false} BytesStep(cs: seq<CodePoint>, st: Scanner, b: Byte, text: seq<Byte>)
    requires Concat(BytesOf(cs)) + st.pending == text
    ensures Concat(BytesOf(cs + Produced(st, b))) + Next(st, b).pending == text + [b]
  {
    hide Next, Produced, Concat, BytesOf;
    NextProduces(st, b);
    Assoc(Concat(BytesOf(cs)), st.pending, [b]);
    var more := Produced(st, b);
    if more == [] {
      assert cs + more == cs;
    } else {
      assert more == [more[0]];
      BytesAppend(cs, more[0]);
      assert text + [b] + [] == text + [b];
    }
  }

  lemma {:induction false} NextProduces(st: Scanner, b: Byte)
    ensures Produced(st, b) == [] ==> Next(st, b).pending == st.pending + [b]
    ensures Produced(st, b) != [] ==>
              |Produced(st, b)| == 1 && Produced(st, b)[0].bytes == st.pending + [b] && Next(st, b).pending == []
  {
    hide Fed;
  }

  lemma {:induction false} BytesAppend(cs: seq<CodePoint>, c: CodePoint)
    ensures Concat(BytesOf(cs + [c])) == Concat(BytesOf(cs)) + c.bytes
  {
    assert BytesOf(cs + [c])[..|cs|] == BytesOf(cs);
  }

  function BytesOf(cs: seq<CodePoint>): (r: seq<seq<Byte>>)
    ensures |r| == |cs| && forall i :: 0 <= i < |r| ==> r[i] == cs[i].bytes
  {
    seq(|cs|, i requires 0 <= i < |cs| => cs[i].bytes)
  }
}
