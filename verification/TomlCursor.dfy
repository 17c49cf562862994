/** The parser's view of a document: the current code point, held by pointer. Code points being
    replayed are held in the history, the furthest one in the reader's block of 32 slots, which the
    next block overwrites. */
module TomlCursor {
  import opened Prelude
  import opened Bytes
  import opened Utf8
  import R = Utf8Reader
  import Ring = ReplayRing

  // ---------------------------------------------------------------------------------------------
  // Where the blocks of 32 bytes fall in a text given by its scalar values.

  function Points(text: seq<Byte>): seq<nat> { Emitted(START, text) }

  function Width(v: nat): nat { if v < 0x80 then 1 else if v < 0x800 then 2 else if v < 0x1_0000 then 3 else 4 }

  /** Bytes taken by the first `k` code points. */
  function Off(vs: seq<nat>, k: nat): nat
    requires k <= |vs|
  {
    if k == 0 then 0 else Off(vs, k - 1) + Width(vs[k - 1])
  }

  /** How many of the first `n` code points end within the first `p` bytes. */
  function Fit(vs: seq<nat>, n: nat, p: nat): (r: nat)
    requires n <= |vs|
    ensures r <= n && Off(vs, r) <= p && (r < n ==> Off(vs, r + 1) > p)
  {
    if Off(vs, n) <= p then n else Fit(vs, n - 1, p)
  }

  /** The end of the block in which code point `k` ends. */
  function BlockEnd(vs: seq<nat>, k: nat): (e: nat)
    requires k < |vs|
    ensures e % R.BLOCK == 0 && e - R.BLOCK < Off(vs, k + 1) <= e
  {
    OffGrows(vs, k, k + 1);
    (Off(vs, k + 1) - 1) / R.BLOCK * R.BLOCK + R.BLOCK
  }

  /** Whether reading on from code point `k` makes the reader load another block. */
  predicate LoadsBlock(vs: seq<nat>, k: nat)
    requires k < |vs|
  {
    k + 1 < |vs| && Off(vs, k + 2) > BlockEnd(vs, k)
  }

  /** What a pointer to code point `k` in the reader's block shows once the next one has been read:
      when that took another block, whatever stands in the same slot now, or zero. */
  function Shown(vs: seq<nat>, k: nat): nat
    requires k < |vs|
  {
    if !LoadsBlock(vs, k) then vs[k]
    else
      var slot := k - Fit(vs, |vs|, BlockEnd(vs, k) - R.BLOCK);
      var now := k + 1 + slot;
      if k < now < Fit(vs, |vs|, BlockEnd(vs, k) + R.BLOCK) then vs[now] else 0
  }

  lemma {:induction false} OffGrows(vs: seq<nat>, j: nat, k: nat)
    requires j <= k <= |vs|
    ensures Off(vs, j) + (k - j) <= Off(vs, k)
  {
    if j < k {
      OffGrows(vs, j, k - 1);
    }
  }

  /** `Fit` is the only number that fits. */
  lemma {:induction false} FitIs(vs: seq<nat>, r: nat, p: nat)
    requires r <= |vs| && Off(vs, r) <= p && (r < |vs| ==> Off(vs, r + 1) > p)
    ensures Fit(vs, |vs|, p) == r
  {
    var f := Fit(vs, |vs|, p);
    if f < r {
      OffGrows(vs, f + 1, r);
    } else if r < f {
      OffGrows(vs, r + 1, f);
    }
  }

  lemma EncodedWidth(v: nat)
    requires IsScalar(v)
    ensures |Encode(v)| == Width(v)
  {
  }

  lemma {:induction false} OffIsLength(vs: seq<nat>, k: nat)
    requires k <= |vs| && AllScalar(vs)
    ensures |EncodeAll(vs[..k])| == Off(vs, k)
  {
    if k == 0 {
      assert vs[..0] == [];
    } else {
      hide Encode, IsScalar;
      OffIsLength(vs, k - 1);
      assert vs[..k] == vs[..k - 1] + [vs[k - 1]];
      EncodeAppend(vs[..k - 1], [vs[k - 1]]);
      EncodedWidth(vs[k - 1]);
      assert [vs[k - 1]][1..] == [] && EncodeAll([]) == [];
    }
  }

  /** A character that is not complete yields nothing. */
  lemma {:induction false} PartYieldsNothing(d: Decoder, v: nat, n: nat)
    requires d.state == ACCEPT && IsScalar(v) && n < |Encode(v)|
    ensures Emitted(d, Encode(v)[..n]) == []
  {
    EncodeIsChar(v);
    hide Fed, IsChar, Value, Encode, IsScalar, Run, Emitted;
    var c := Encode(v);
    CharIsRead(d, c);
    var m := |c| - 1;
    assert c == c[..m] + [c[m]] && c[..m] == c[..n] + c[n..m];
    RunAppend(d, c[..m], [c[m]]);
    OneByte(Run(d, c[..m]), c[m]);
    RunAppend(d, c[..n], c[n..m]);
    assert |Emitted(d, c)| == |Emitted(d, c[..n])| + |Emitted(Run(d, c[..n]), c[n..m])| + 1;
  }

  /** The code points read from the first `p` bytes of a well-formed text. */
  lemma {:induction false} CountIsFit(text: seq<Byte>, p: nat)
    requires WellFormed(text) && p <= |text|
    ensures R.Count(text, p) == Fit(Points(text), |Points(text)|, p)
  {
    var vs := Points(text);
    DecodedEncodes(START, text);
    OffIsLength(vs, |vs|);
    assert vs[..|vs|] == vs;
    hide Run, WellFormed, Fed, Fit, EncodeAll;
    EmittedUpTo(vs, p);
    R.ValuesAreEmitted(R.ORIGIN, text[..p]);
  }

  lemma {:induction false} EmittedUpTo(vs: seq<nat>, p: nat)
    requires AllScalar(vs) && p <= |EncodeAll(vs)|
    ensures Emitted(START, EncodeAll(vs)[..p]) == vs[..Fit(vs, |vs|, p)]
  {
    var j := Fit(vs, |vs|, p);
    hide Run, Emitted, Fed, Encode, IsScalar, EncodeAll, Fit, Off;
    OffIsLength(vs, |vs|);
    assert vs[..|vs|] == vs;
    EncodedDecodes(START, vs[..j]);
    if j == |vs| {
      assert vs[..j] == vs && EncodeAll(vs)[..p] == EncodeAll(vs);
    } else {
      var a, c := EncodeAll(vs[..j]), Encode(vs[j]);
      CutEncoded(vs, j, p);
      RunAppend(START, a, c[..p - Off(vs, j)]);
      PartYieldsNothing(Run(START, a), vs[j], p - Off(vs, j));
    }
  }

  lemma {:induction false} CutEncoded(vs: seq<nat>, j: nat, p: nat)
    requires AllScalar(vs) && j < |vs| && Off(vs, j) <= p < Off(vs, j + 1) && p <= |EncodeAll(vs)|
    ensures p - Off(vs, j) < |Encode(vs[j])|
    ensures EncodeAll(vs)[..p] == EncodeAll(vs[..j]) + Encode(vs[j])[..p - Off(vs, j)]
  {
    hide Encode, EncodeAll, Off, IsScalar;
    OffIsLength(vs, j);
    SplitAt(vs, j);
    EncodedWidth(vs[j]);
    Cut(EncodeAll(vs[..j]), Encode(vs[j]), EncodeAll(vs[j + 1..]), p - Off(vs, j));
  }

  lemma Cut(a: seq<Byte>, c: seq<Byte>, rest: seq<Byte>, n: nat)
    requires n <= |c|
    ensures (a + c + rest)[..|a| + n] == a + c[..n]
  {
  }

  lemma {:induction false} SplitAt(vs: seq<nat>, j: nat)
    requires j < |vs| && AllScalar(vs)
    ensures EncodeAll(vs) == EncodeAll(vs[..j]) + Encode(vs[j]) + EncodeAll(vs[j + 1..])
    ensures Off(vs, j + 1) == Off(vs, j) + Width(vs[j])
  {
    assert EncodeAll(vs[j..]) == Encode(vs[j]) + EncodeAll(vs[j + 1..]) by {
      assert vs[j..][1..] == vs[j + 1..];
    }
    hide EncodeAll, Encode;
    EncodeAppend(vs[..j], vs[j..]);
    assert vs[..j] + vs[j..] == vs;
  }

  // ---------------------------------------------------------------------------------------------
  // Pointers into the reader's block.

  /** What slot `i` of the block shows; slots that are not filled are zero. */
  function SlotValue(block: seq<R.CodePoint>, i: nat): nat {
    if i < |block| then block[i].value else 0
  }

  lemma {:induction false} PrefixValues(text: seq<Byte>, p: nat)
    requires p <= |text|
    ensures R.Count(text, p) <= |Points(text)|
    ensures forall i :: 0 <= i < R.Count(text, p) ==> R.CodePoints(R.ORIGIN, text[..p])[i].value == Points(text)[i]
  {
    hide Emitted, R.Scan, R.CodePoints;
    var whole := R.CodePoints(R.ORIGIN, text);
    R.ScanAppend(R.ORIGIN, text[..p], text[p..]);
    assert text[..p] + text[p..] == text;
    R.ValuesAreEmitted(R.ORIGIN, text);
    assert R.Values(whole) == Points(text);
  }

  lemma {:induction false} BlockValues(text: seq<Byte>, p: nat, block: seq<R.CodePoint>)
    requires p <= |text| && R.IsBlock(text, p, block)
    ensures var first := R.Count(text, R.BlockStart(p));
            && first + |block| == R.Count(text, p) <= |Points(text)|
            && (forall i :: 0 <= i < |block| ==> block[i].value == Points(text)[first + i])
  {
    hide Points, R.CodePoints, R.BlockStart;
    PrefixValues(text, p);
    var first, cs := R.Count(text, R.BlockStart(p)), R.CodePoints(R.ORIGIN, text[..p]);
    assert forall i :: 0 <= i < |block| ==> block[i] == cs[first + i];
  }

  /** A loaded block holds the code points from the first that ends after its start to the last that
      ends by its end. */
  lemma {:induction false} LoadedIs(text: seq<Byte>, p: nat, st: R.Scanner, block: seq<R.CodePoint>, first: int)
    requires WellFormed(text) && R.Loaded(text, p, st, block, first)
    ensures var vs := Points(text);
            && first == Fit(vs, |vs|, R.BlockStart(p)) && first + |block| == Fit(vs, |vs|, p)
            && (forall i :: 0 <= i < |block| ==> block[i].value == vs[first + i])
            && p <= |text| && (p % R.BLOCK == 0 || p == |text|)
  {
    hide Points, WellFormed, R.Count, R.IsBlock, Fit, R.AlikeScanners, R.Scan, R.BlockStart;
    CountIsFit(text, p);
    CountIsFit(text, R.BlockStart(p));
    BlockValues(text, p, block);
  }

  /** Multiples of the block size around the same byte. */
  lemma BlockIs(e: int, b: int, o: int)
    requires e % R.BLOCK == 0 && b % R.BLOCK == 0 && e - R.BLOCK < o <= e && b < o <= b + R.BLOCK
    ensures e == b + R.BLOCK
  {
  }

  lemma {:induction false} SameBlock(vs: seq<nat>, k: nat, p: nat)
    requires k + 1 < |vs| && R.BlockStart(p) < Off(vs, k + 1) && Off(vs, k + 2) <= p
    ensures Shown(vs, k) == vs[k]
  {
    OffGrows(vs, k + 1, k + 2);
    BlockIs(BlockEnd(vs, k), R.BlockStart(p), Off(vs, k + 1));
    hide Off, Fit;
  }

  lemma {:induction false} NextBlock(vs: seq<nat>, k: nat, p: nat, first: nat, m: nat)
    requires k + 1 < |vs| && p % R.BLOCK == 0 && p >= R.BLOCK && first <= k
    requires Fit(vs, |vs|, p - R.BLOCK) == first && Fit(vs, |vs|, p) == k + 1 && Fit(vs, |vs|, p + R.BLOCK) == m
    ensures Shown(vs, k) == if k + 1 + (k - first) < m then vs[k + 1 + (k - first)] else 0
  {
    hide Off, Fit, BlockEnd;
    OffGrows(vs, first + 1, k + 1);
    BlockIs(BlockEnd(vs, k), p - R.BLOCK, Off(vs, k + 1));
  }

  /** A pointer to a code point that is not the last of its block. */
  lemma {:induction false} StaysShown(text: seq<Byte>, p: nat, st: R.Scanner, block: seq<R.CodePoint>, first: int,
                                      i: nat)
    requires WellFormed(text) && R.Loaded(text, p, st, block, first) && i + 1 < |block|
    ensures var vs := Points(text); first + i < |vs| && Shown(vs, first + i) == vs[first + i] == SlotValue(block, i)
  {
    hide Points, WellFormed, R.Loaded, R.BlockStart, Fit, Off, Shown;
    LoadedIs(text, p, st, block, first);
    var vs := Points(text);
    OffGrows(vs, first + 1, first + i + 1);
    OffGrows(vs, first + i + 2, first + |block|);
    SameBlock(vs, first + i, p);
  }

  /** A pointer to the last code point of its block, when the next block has been loaded over it. */
  lemma {:induction false} IsOverwritten(text: seq<Byte>, p: nat, st: R.Scanner, block: seq<R.CodePoint>, first: int,
                                         st2: R.Scanner, next: seq<R.CodePoint>)
    requires WellFormed(text) && p < |text| && block != [] && next != []
    requires R.Loaded(text, p, st, block, first) && R.Loaded(text, R.NextEnd(text, p), st2, next, first + |block|)
    ensures first + |block| < |Points(text)|
    ensures Shown(Points(text), first + |block| - 1) == SlotValue(next, |block| - 1)
  {
    hide Points, WellFormed, R.Loaded, R.BlockStart, Off, Shown, Fit, R.NextEnd;
    var vs, e, k := Points(text), R.NextEnd(text, p), first + |block| - 1;
    LoadedIs(text, p, st, block, first);
    LoadedIs(text, e, st2, next, first + |block|);
    BlockBounds(text, p, block, first);
    WholeFits(text, p);
    NextBlock(vs, k, p, first, first + |block| + |next|);
  }

  /** Blocks other than the last are full. */
  lemma {:induction false} BlockBounds(text: seq<Byte>, p: nat, block: seq<R.CodePoint>, first: int)
    requires p < |text| && p % R.BLOCK == 0 && block != []
    requires first == Fit(Points(text), |Points(text)|, R.BlockStart(p))
    requires first + |block| == Fit(Points(text), |Points(text)|, p)
    ensures p >= R.BLOCK && R.BlockStart(p) == p - R.BLOCK
  {
    hide Points, Fit, Off;
  }

  lemma {:induction false} WholeFits(text: seq<Byte>, p: nat)
    requires WellFormed(text) && p < |text|
    ensures var vs := Points(text); Fit(vs, |vs|, R.NextEnd(text, p)) == Fit(vs, |vs|, p + R.BLOCK)
  {
    DecodedEncodes(START, text);
    var vs := Points(text);
    OffIsLength(vs, |vs|);
    assert vs[..|vs|] == vs;
    hide Points, Emitted, EncodeAll, WellFormed;
  }

  /** A pointer to the last code point of the text. */
  lemma LastStays(vs: seq<nat>)
    requires vs != []
    ensures Shown(vs, |vs| - 1) == vs[|vs| - 1]
  {
  }

  // ---------------------------------------------------------------------------------------------
  // The cursor.

  /** Where the current code point is held. */
  datatype Place = Kept(index: nat) | Slot(index: nat)

  /** utf8_buffered_reader over a block reader, together with the parser's current code point.
      `history` is all that was copied in front of the head; the ring keeps the last 127 of it. */
  class Cursor {
    const reader: R.Reader
    var history: seq<nat>
    var head: Option<nat>
    var back: nat

    ghost predicate Valid()
      reads this, reader
    {
      && reader.Valid() && back <= |history| && back <= Ring.HISTORY
      && history <= Points(reader.text)
      && (head == None ==> history == Points(reader.text) && reader.taken == |history|)
      && (head.Some? ==>
            && head.value + 1 == reader.current && reader.taken == |history| + 1
            && head.value < |reader.buffer| && |history| < |Points(reader.text)|
            && reader.buffer[head.value].value == Points(reader.text)[|history|])
    }

    constructor (source: seq<Byte>)
      ensures fresh(reader) && reader.text == R.Text(source) && reader.Valid() && reader.taken == 0
      ensures history == [] && head == None && back == 0
    {
      reader := new R.Reader(source);
      history, head, back := [], None, 0;
    }

    /** Reads the first code point. */
    method Start() returns (ok: bool)
      requires reader.Valid() && reader.taken == 0 && history == [] && head == None && back == 0
      modifies this, reader
      ensures !ok ==> !WellFormed(reader.text)
      ensures ok ==> Valid() && At() == 0 && history == []
    {
      hide Emitted, R.Loaded, R.CodePoints, WellFormed;
      R.ValuesAreEmitted(R.ORIGIN, reader.text);
      var r := reader.ReadNext();
      match r {
        case Malformed => return false;
        case EndOfFile => head := None;
        case Got(_) => head := Some(reader.current - 1);
      }
      ok := true;
    }

    /** The index of the current code point. */
    function At(): nat
      requires back <= |history|
      reads this
    {
      |history| - back
    }

    /** The pointer to the current code point; at end of file there is none. */
    function Current(): Option<Place>
      reads this
    {
      if 0 < back <= |history| then Some(Kept(|history| - back))
      else if head.Some? then Some(Slot(head.value))
      else None
    }

    /** What a pointer shows now. */
    function Deref(p: Place): nat
      requires p.Kept? ==> p.index < |history|
      reads this, reader
    {
      match p
      case Kept(i) => history[i]
      case Slot(i) => SlotValue(reader.buffer, i)
    }

    lemma CurrentIs()
      requires Valid()
      ensures At() <= |Points(reader.text)|
      ensures Current() == None <==> At() == |Points(reader.text)|
      ensures Current().Some? ==> Deref(Current().value) == Points(reader.text)[At()]
    {
      hide Emitted, R.Loaded;
    }

    /** Moves on by one code point. What the pointer held so far shows afterwards is told too. */
    method Advance() returns (ok: bool)
      requires Valid() && Current().Some?
      modifies this, reader
      ensures !ok ==> !WellFormed(reader.text)
      ensures ok ==> Valid() && At() == old(At()) + 1
      ensures ok ==> |history| == (if old(back) > 0 then old(|history|) else old(|history|) + 1)
      ensures ok && old(Current()).value.Kept? ==>
                |history| - Ring.HISTORY <= old(Current()).value.index < |history|
      ensures ok && WellFormed(reader.text) ==>
                Deref(old(Current()).value)
                == if old(back) > 0 then Points(reader.text)[old(At())] else Shown(Points(reader.text), old(At()))
    {
      hide Emitted, R.Loaded, Shown, R.CodePoints, WellFormed;
      if back > 0 {
        back := back - 1;
        return true;
      }
      ghost var p, st, block, first := reader.position, reader.scanner, reader.buffer, reader.taken - reader.current;
      ghost var i := head.value;
      R.ValuesAreEmitted(R.ORIGIN, reader.text);
      history := history + [reader.buffer[head.value].value];
      var r := reader.ReadNext();
      match r {
        case Malformed => return false;
        case EndOfFile =>
          head := None;
          LastStays(Points(reader.text));
        case Got(cp) =>
          head := Some(reader.current - 1);
          if WellFormed(reader.text) {
            if i + 1 < |block| {
              StaysShown(reader.text, p, st, block, first, i);
            } else {
              IsOverwritten(reader.text, p, st, block, first, reader.scanner, reader.buffer);
            }
          }
      }
      ok := true;
    }

    /** step_back, within the history. */
    method GoBack(n: nat)
      requires Valid() && back + n <= |history| && back + n <= Ring.HISTORY
      modifies this`back
      ensures Valid() && At() == old(At()) - n
    {
      back := back + n;
    }
  }
}
