/** The reader coroutine: every read appends at most 4096 bytes to the receive buffer, the receive
    loop peels whole frames off the front, and the tail is kept for the next read. */
module Reassembly {
  import opened Prelude
  import opened Bytes
  import opened Framing

  /** What a session has dispatched so far and the bytes it still holds. */
  datatype Stream = Stream(frames: seq<Frame>, kept: seq<Byte>)

  function Feed(w: Wire, st: Stream, chunk: seq<Byte>): Stream {
    Stream(st.frames + Peeled(w, st.kept + chunk), Left(w, st.kept + chunk))
  }

  /** The state after a whole run of reads. */
  function Run(w: Wire, chunks: seq<seq<Byte>>): Stream {
    if chunks == [] then Stream([], [])
    else Feed(w, Run(w, chunks[..|chunks| - 1]), chunks[|chunks| - 1])
  }

  /** The state a reader without narrowing would be in after receiving `s`. */
  function Ideal(w: Wire, s: seq<Byte>): Stream {
    Stream(Frames(w, s), Rest(w, s))
  }

  function Min(a: nat, b: nat): nat { if a <= b then a else b }

  /** Session::readerLoop with the receive loop of one wire installed as its data callback. */
  class Reader {
    const wire: Wire
    var hasDataProc: bool
    var recvBuffer: seq<Byte>
    var actions: seq<Action>
    ghost var frames: seq<Frame>

    ghost predicate Valid()
      reads this
    {
      actions == Actions(frames)
    }

    ghost function View(): Stream
      reads this
    {
      Stream(frames, recvBuffer)
    }

    constructor (w: Wire, hasDataProc: bool)
      ensures Valid() && wire == w && this.hasDataProc == hasDataProc
      ensures View() == Run(w, [])
    {
      wire := w;
      this.hasDataProc := hasDataProc;
      recvBuffer, actions, frames := [], [], [];
    }

    method OnRead(chunk: seq<Byte>)
      requires Valid() && |chunk| <= READ_SIZE
      modifies this
      ensures Valid() && hasDataProc == old(hasDataProc)
      ensures hasDataProc ==> View() == Feed(wire, old(View()), chunk)
      ensures !hasDataProc ==> View() == old(View()).(kept := [])
      ensures Handled(frames, actions)
    {
      ActionsHandle(frames);
      hide Peeled, Left, Decodable, Handled;
      recvBuffer := recvBuffer + chunk;
      if !hasDataProc {
        recvBuffer := [];
        return;
      }
      var before := |recvBuffer|;
      var remaining: nat;
      var performed: seq<Action>;
      if wire == Client {
        remaining, performed := OnRecvClientData(recvBuffer);
      } else {
        remaining, performed := OnRecvInnerData(recvBuffer);
      }
      actions := actions + performed;
      ghost var peeled := Peeled(wire, recvBuffer);
      ghost var left := Left(wire, recvBuffer);
      ActionsOfBoth(frames, peeled);
      frames := frames + peeled;
      ActionsHandle(frames);
      LeftIsSuffix(wire, recvBuffer);
      remaining := Min(remaining, before);
      var consumed := |recvBuffer| - remaining;
      if consumed > 0 {
        recvBuffer := recvBuffer[consumed..];
      }
    }
  }

  // ---------------------------------------------------------------------------------------------
  // One call of the receive loop.

  lemma {:induction false} EncodeAllAppend(w: Wire, a: seq<Frame>, b: seq<Frame>)
    ensures EncodeAll(w, a + b) == EncodeAll(w, a) + EncodeAll(w, b)
  {
    if a == [] {
      assert a + b == b;
    } else {
      assert (a + b)[1..] == a[1..] + b;
      EncodeAllAppend(w, a[1..], b);
    }
  }

  ghost predicate AllValid(w: Wire, fs: seq<Frame>) {
    forall i :: 0 <= i < |fs| ==> ValidFrame(w, fs[i])
  }

  ghost predicate PayloadsAtMost(fs: seq<Frame>, max: nat) {
    forall i :: 0 <= i < |fs| ==> |fs[i].payload| <= max
  }

  /** What is peeled, re-encoded, and what is left make up the buffer. */
  lemma {:induction false} PeeledPlusLeft(w: Wire, s: seq<Byte>)
    ensures EncodeAll(w, Peeled(w, s)) + Left(w, s) == s
    ensures AllValid(w, Peeled(w, s))
    decreases |s|
  {
    hide Announced, Encode, First, Decodable;
    if Decodable(w, s) {
      DecodableIsComplete(w, s);
      EncodeDecode(w, s);
      var f, rest := First(w, s), AfterFirst(w, s);
      PeeledPlusLeft(w, rest);
      assert Peeled(w, s) == [f] + Peeled(w, rest);
      Assoc(Encode(w, f), EncodeAll(w, Peeled(w, rest)), Left(w, rest));
    }
  }

  lemma ActionsOfBoth(a: seq<Frame>, b: seq<Frame>)
    ensures Actions(a + b) == Actions(a) + Actions(b)
  {
  }

  lemma {:induction false} LeftIsSuffix(w: Wire, s: seq<Byte>)
    ensures Left(w, s) == s[|s| - |Left(w, s)|..]
  {
    hide Peeled, Left, EncodeAll;
    PeeledPlusLeft(w, s);
  }

  /** Frames standing before other bytes are parsed first. */
  lemma {:induction false} FramesOfEncoded(w: Wire, fs: seq<Frame>, rest: seq<Byte>)
    requires AllValid(w, fs)
    ensures Frames(w, EncodeAll(w, fs) + rest) == fs + Frames(w, rest)
    ensures Rest(w, EncodeAll(w, fs) + rest) == Rest(w, rest)
  {
    hide Encode, Announced, Header, First, AfterFirst, Complete, ValidFrame;
    var s := EncodeAll(w, fs) + rest;
    if fs == [] {
      assert s == rest;
    } else {
      var tail := EncodeAll(w, fs[1..]) + rest;
      Assoc(Encode(w, fs[0]), EncodeAll(w, fs[1..]), rest);
      DecodeEncode(w, fs[0], tail);
      FramesOfEncoded(w, fs[1..], rest);
    }
  }

  // ---------------------------------------------------------------------------------------------
  // Whole runs: nothing is lost, reordered or invented, with or without the narrowing.

  /** Dispatched frames, re-encoded, followed by the kept bytes are exactly the bytes received. */
  lemma {:induction false} NothingLost(w: Wire, chunks: seq<seq<Byte>>)
    ensures var r := Run(w, chunks);
            && EncodeAll(w, r.frames) + r.kept == Concat(chunks)
            && AllValid(w, r.frames)
  {
    hide Peeled, Left;
    if chunks != [] {
      var n := |chunks| - 1;
      NothingLost(w, chunks[..n]);
      var p := Run(w, chunks[..n]);
      var buf := p.kept + chunks[n];
      PeeledPlusLeft(w, buf);
      EncodeAllAppend(w, p.frames, Peeled(w, buf));
      Assoc(EncodeAll(w, p.frames), EncodeAll(w, Peeled(w, buf)), Left(w, buf));
      Assoc(EncodeAll(w, p.frames), p.kept, chunks[n]);
    }
  }

  /** For every stream and every chunking the dispatched frames are a prefix of the true ones, and
      the kept bytes hold exactly the true frames that are still to come. */
  lemma DispatchedIsPrefix(w: Wire, chunks: seq<seq<Byte>>)
    ensures var r := Run(w, chunks);
            && r.frames <= Frames(w, Concat(chunks))
            && Frames(w, Concat(chunks)) == r.frames + Frames(w, r.kept)
            && Rest(w, Concat(chunks)) == Rest(w, r.kept)
  {
    var r := Run(w, chunks);
    NothingLost(w, chunks);
    FramesOfEncoded(w, r.frames, r.kept);
  }

  // ---------------------------------------------------------------------------------------------
  // When the narrowing is harmless.

  /** The largest payload for which a kept tail plus one read stays below the modulus:
      61434 for client frames, 4294963184 for inner ones. */
  function SafePayload(w: Wire): nat { Modulus(w) - READ_SIZE - HeaderSize(w) }

  ghost predicate ReadsFit(chunks: seq<seq<Byte>>) {
    forall i :: 0 <= i < |chunks| ==> |chunks[i]| <= READ_SIZE
  }

  /** Every header in the stream, also that of an incomplete last frame, announces at most `max`. */
  predicate SizesAtMost(w: Wire, s: seq<Byte>, max: nat)
    decreases |s|
  {
    |s| >= HeaderSize(w) ==>
      && Announced(w, s) <= max
      && (Complete(w, s) ==> SizesAtMost(w, AfterFirst(w, s), max))
  }

  lemma {:induction false} SizesAfterFrames(w: Wire, fs: seq<Frame>, rest: seq<Byte>, max: nat)
    requires AllValid(w, fs)
    ensures SizesAtMost(w, EncodeAll(w, fs) + rest, max)
       <==> PayloadsAtMost(fs, max) && SizesAtMost(w, rest, max)
  {
    var s := EncodeAll(w, fs) + rest;
    if fs == [] {
      assert s == rest;
    } else {
      var tail := EncodeAll(w, fs[1..]) + rest;
      Assoc(Encode(w, fs[0]), EncodeAll(w, fs[1..]), rest);
      DecodeEncode(w, fs[0], tail);
      SizesAfterFrames(w, fs[1..], rest, max);
      assert PayloadsAtMost(fs, max) <==> |fs[0].payload| <= max && PayloadsAtMost(fs[1..], max) by {
        assert forall i :: 0 < i < |fs| ==> fs[i] == fs[1..][i - 1];
      }
    }
  }

  /** An incomplete tail that announces at most `max` is short. */
  lemma {:induction false} RestIsShort(w: Wire, s: seq<Byte>, max: nat)
    requires SizesAtMost(w, s, max)
    ensures !Complete(w, Rest(w, s))
    ensures |Rest(w, s)| < HeaderSize(w) + max + 1
    ensures |Rest(w, s)| > 0 ==> |Rest(w, s)| < HeaderSize(w) + (if max == 0 then 1 else max)
    decreases |s|
  {
    if Complete(w, s) {
      RestIsShort(w, AfterFirst(w, s), max);
    }
  }

  /** Below the modulus the loop peels every complete frame. */
  lemma {:induction false} ShortBufferIsIdeal(w: Wire, s: seq<Byte>)
    requires |s| < Modulus(w)
    ensures Peeled(w, s) == Frames(w, s) && Left(w, s) == Rest(w, s)
    decreases |s|
  {
    assert s[..|s| % Modulus(w)] == s;
    if Complete(w, s) {
      ShortBufferIsIdeal(w, AfterFirst(w, s));
    }
  }

  lemma {:induction false} SizesOfPrefix(w: Wire, s: seq<Byte>, t: seq<Byte>, max: nat)
    requires SizesAtMost(w, s + t, max)
    ensures SizesAtMost(w, s, max)
    decreases |s|
  {
    var h := HeaderSize(w);
    if |s| >= h {
      assert (s + t)[h - SizeWidth(w)..h] == s[h - SizeWidth(w)..h];
      if Complete(w, s) {
        assert AfterFirst(w, s + t) == AfterFirst(w, s) + t;
        SizesOfPrefix(w, AfterFirst(w, s), t, max);
      }
    }
  }

  lemma ConcatSplit(chunks: seq<seq<Byte>>, k: nat)
    requires k <= |chunks|
    ensures Concat(chunks) == Concat(chunks[..k]) + Concat(chunks[k..])
  {
    ConcatAppend(chunks[..k], chunks[k..]);
    assert chunks[..k] + chunks[k..] == chunks;
  }

  lemma IdealOfNothing(w: Wire)
    ensures Ideal(w, []) == Stream([], [])
  {
  }

  /** With payloads up to the safe size the session is, after the run, where the ideal reader is:
      every complete frame has been dispatched and only the incomplete tail is kept. */
  lemma {:induction false} SafeRunIsIdeal(w: Wire, chunks: seq<seq<Byte>>, max: nat)
    requires ReadsFit(chunks) && max <= SafePayload(w)
    requires SizesAtMost(w, Concat(chunks), max)
    ensures Run(w, chunks) == Ideal(w, Concat(chunks))
  {
    hide Encode, Announced, First, AfterFirst, Complete, Decodable, Frames, Rest, Peeled, Left, SizesAtMost, ValidFrame;
    if chunks == [] {
      IdealOfNothing(w);
    } else {
      var n := |chunks| - 1;
      var before := Concat(chunks[..n]);
      SizesOfPrefix(w, before, chunks[n], max);
      SafeRunIsIdeal(w, chunks[..n], max);
      RestIsShort(w, before, max);
      var p := Run(w, chunks[..n]);
      ShortBufferIsIdeal(w, p.kept + chunks[n]);
      NothingLost(w, chunks[..n]);
      assert Concat(chunks) == EncodeAll(w, p.frames) + (p.kept + chunks[n]);
      FramesOfEncoded(w, p.frames, p.kept + chunks[n]);
    }
  }

  /** The same after every single read of the run, so the chunking never matters. */
  lemma SafeAfterEveryRead(w: Wire, chunks: seq<seq<Byte>>, k: nat)
    requires ReadsFit(chunks) && k <= |chunks|
    requires SizesAtMost(w, Concat(chunks), SafePayload(w))
    ensures Run(w, chunks[..k]) == Ideal(w, Concat(chunks[..k]))
  {
    ConcatSplit(chunks, k);
    SizesOfPrefix(w, Concat(chunks[..k]), Concat(chunks[k..]), SafePayload(w));
    SafeRunIsIdeal(w, chunks[..k], SafePayload(w));
  }

  // ---------------------------------------------------------------------------------------------
  // The bound is exact.

  ghost predicate AlwaysDispatched(w: Wire, max: nat) {
    forall chunks: seq<seq<Byte>> ::
      ReadsFit(chunks) && SizesAtMost(w, Concat(chunks), max) ==> Run(w, chunks) == Ideal(w, Concat(chunks))
  }

  function Singletons(s: seq<Byte>): (r: seq<seq<Byte>>)
    ensures |r| == |s| && forall i :: 0 <= i < |r| ==> r[i] == [s[i]]
  {
    seq(|s|, i requires 0 <= i < |s| => [s[i]])
  }

  ghost predicate NeverComplete(w: Wire, s: seq<Byte>) {
    forall k :: 0 <= k <= |s| ==> !Complete(w, s[..k])
  }

  lemma {:induction false} NothingPeeled(w: Wire, s: seq<Byte>)
    requires NeverComplete(w, s)
    ensures Peeled(w, s) == [] && Left(w, s) == s
    ensures s != [] ==> NeverComplete(w, s[..|s| - 1])
  {
    hide Complete;
    assert !Complete(w, s[..|s| % Modulus(w)]);
    if s != [] {
      var t := s[..|s| - 1];
      forall k | 0 <= k <= |t| ensures !Complete(w, t[..k]) {
        assert t[..k] == s[..k];
      }
    }
  }

  /** A frame that is still incomplete, fed byte by byte, is simply kept. */
  lemma {:induction false} IncompleteIsKept(w: Wire, s: seq<Byte>)
    requires NeverComplete(w, s)
    ensures Run(w, Singletons(s)) == Stream([], s)
    ensures Concat(Singletons(s)) == s
  {
    hide NeverComplete, Peeled, Left;
    if s != [] {
      var n := |s| - 1;
      NothingPeeled(w, s);
      IncompleteIsKept(w, s[..n]);
      assert Singletons(s)[..n] == Singletons(s[..n]);
      assert s[..n] + [s[n]] == s;
    }
  }

  lemma {:induction false} FrameAlone(w: Wire, f: Frame, k: nat)
    requires ValidFrame(w, f) && k < |Encode(w, f)|
    ensures !Complete(w, Encode(w, f)[..k])
  {
    var s := Encode(w, f);
    var h := HeaderSize(w);
    DecodeEncode(w, f, []);
    assert s + [] == s;
    if k >= h {
      assert s[..k][h - SizeWidth(w)..h] == s[h - SizeWidth(w)..h];
    }
  }

  lemma {:induction false} ZeroSizes(w: Wire, s: seq<Byte>, max: nat)
    requires forall i :: 0 <= i < |s| ==> s[i] == 0
    ensures SizesAtMost(w, s, max)
    decreases |s|
  {
    var h := HeaderSize(w);
    if |s| >= h {
      FromNetworkZeros(s[h - SizeWidth(w)..h]);
      ZeroSizes(w, AfterFirst(w, s), max);
    }
  }

  function Zeros(n: nat): (s: seq<Byte>)
    ensures |s| == n && forall i :: 0 <= i < n ==> s[i] == 0
  {
    seq(n, _ => 0)
  }

  lemma {:induction false} FrameThenZeros(w: Wire, f: Frame, z: seq<Byte>)
    requires ValidFrame(w, f) && forall i :: 0 <= i < |z| ==> z[i] == 0
    ensures SizesAtMost(w, Encode(w, f) + z, |f.payload|) && Frames(w, Encode(w, f) + z) != []
  {
    hide Encode, ValidFrame;
    DecodeEncode(w, f, z);
    ZeroSizes(w, z, |f.payload|);
  }

  /** When the bytes after a frame take the length past the modulus, the decoder is told of too few. */
  lemma {:induction false} WrappedIsUndecodable(w: Wire, f: Frame, z: seq<Byte>)
    requires ValidFrame(w, f)
    requires |z| < Modulus(w) <= |Encode(w, f)| + |z| && |Encode(w, f)| + |z| < 2 * Modulus(w)
    ensures !Decodable(w, Encode(w, f) + z)
  {
    hide Encode, Announced, ValidFrame;
    var s := Encode(w, f) + z;
    var m := |s| - Modulus(w);
    assert m == |s| % Modulus(w);
    assert s[..m] == Encode(w, f)[..m];
    FrameAlone(w, f, m);
  }

  lemma {:induction false} PrefixesIncomplete(w: Wire, f: Frame, n: nat)
    requires ValidFrame(w, f) && n < |Encode(w, f)|
    ensures NeverComplete(w, Encode(w, f)[..n])
  {
    hide Encode, Complete;
    var e := Encode(w, f);
    forall k | 0 <= k <= n ensures !Complete(w, e[..n][..k]) {
      assert e[..n][..k] == e[..k];
      FrameAlone(w, f, k);
    }
  }

  /** One byte above the safe size there is a stream and a chunking that leave a complete frame
      undispatched: the read that completes the frame wraps the length the decoder is told. */
  lemma {:induction false} UnsafeRun(w: Wire, max: nat) returns (chunks: seq<seq<Byte>>)
    requires SafePayload(w) < max < Modulus(w)
    ensures ReadsFit(chunks) && SizesAtMost(w, Concat(chunks), max)
    ensures Run(w, chunks).frames == [] && Frames(w, Concat(chunks)) != []
  {
    hide Encode, Announced, Complete, Decodable, SizesAtMost, Frames;
    var f := Frame(0, 0, Zeros(max));
    var z := Zeros(READ_SIZE - 1);
    var e := Encode(w, f);
    var n := |e| - 1;
    PrefixesIncomplete(w, f, n);
    IncompleteIsKept(w, e[..n]);
    var last := [e[n]] + z;
    chunks := Singletons(e[..n]) + [last];
    assert chunks[..|chunks| - 1] == Singletons(e[..n]);
    assert e[..n] + last == e + z;
    FrameThenZeros(w, f, z);
    WrappedIsUndecodable(w, f, z);
  }

  /** Every complete frame is always dispatched, whatever the chunking, exactly when payloads stay
      within the safe size. */
  lemma DispatchBoundIsExact(w: Wire, max: nat)
    requires max < Modulus(w)
    ensures AlwaysDispatched(w, max) <==> max <= SafePayload(w)
    ensures SafePayload(w) == if w == Client then 61434 else 4294963184
  {
    if max <= SafePayload(w) {
      forall chunks: seq<seq<Byte>> | ReadsFit(chunks) && SizesAtMost(w, Concat(chunks), max)
        ensures Run(w, chunks) == Ideal(w, Concat(chunks))
      {
        SafeRunIsIdeal(w, chunks, max);
      }
    } else {
      var chunks := UnsafeRun(w, max);
      assert Run(w, chunks) != Ideal(w, Concat(chunks));
    }
  }

  lemma {:induction false} DecodableIsSmall(w: Wire, s: seq<Byte>, t: seq<Byte>)
    requires Decodable(w, s)
    ensures |s| >= HeaderSize(w) && HeaderSize(w) + Announced(w, s + t) < Modulus(w)
  {
    var h := HeaderSize(w);
    DecodableIsComplete(w, s);
    assert (s + t)[h - SizeWidth(w)..h] == s[h - SizeWidth(w)..h];
  }

  /** Header and payload announced at the front of `s` reach the modulus. */
  ghost predicate Oversized(w: Wire, s: seq<Byte>) {
    |s| >= HeaderSize(w) && HeaderSize(w) + Announced(w, s) >= Modulus(w)
  }

  lemma {:induction false} FirstOfPrefix(w: Wire, s: seq<Byte>, t: seq<Byte>)
    requires Complete(w, s)
    ensures Complete(w, s + t) && First(w, s + t) == First(w, s) && AfterFirst(w, s + t) == AfterFirst(w, s) + t
  {
    var h := HeaderSize(w);
    assert (s + t)[h - SizeWidth(w)..h] == s[h - SizeWidth(w)..h];
    assert (s + t)[..4] == s[..4];
    if w == Inner {
      assert (s + t)[4..12] == s[4..12];
    }
  }

  /** A buffer at the front of good frames and an oversized one, however much of them it holds: only
      good frames are peeled off. */
  lemma {:induction false} PeelStops(w: Wire, buf: seq<Byte>, ahead: seq<Byte>, fs: seq<Frame>, s: seq<Byte>)
    requires AllValid(w, fs) && Oversized(w, s) && buf + ahead == EncodeAll(w, fs) + s
    ensures Peeled(w, buf) <= fs
    decreases |buf|
  {
    hide Announced, Encode, First, Oversized, ValidFrame, AfterFirst, Complete, Decodable;
    if Decodable(w, buf) {
      DecodableIsComplete(w, buf);
      FirstOfPrefix(w, buf, ahead);
      if fs == [] {
        assert buf + ahead == s;
        NotDecodable(w, buf, ahead);
        assert false;
      } else {
        var tail := EncodeAll(w, fs[1..]) + s;
        Assoc(Encode(w, fs[0]), EncodeAll(w, fs[1..]), s);
        DecodeEncode(w, fs[0], tail);
        PeelStops(w, AfterFirst(w, buf), ahead, fs[1..], s);
        assert [fs[0]] + fs[1..] == fs;
      }
    }
  }

  lemma NotDecodable(w: Wire, buf: seq<Byte>, ahead: seq<Byte>)
    requires Oversized(w, buf + ahead)
    ensures !Decodable(w, buf)
  {
    if Decodable(w, buf) {
      DecodableIsSmall(w, buf, ahead);
    }
  }

  /** What remains when the first `k` frames have been taken off. */
  lemma {:induction false} TakeOff(w: Wire, fs: seq<Frame>, k: nat, rest: seq<Byte>, s: seq<Byte>)
    requires k <= |fs| && EncodeAll(w, fs[..k]) + rest == EncodeAll(w, fs) + s
    ensures rest == EncodeAll(w, fs[k..]) + s
  {
    hide EncodeAll;
    EncodeAllAppend(w, fs[..k], fs[k..]);
    assert fs[..k] + fs[k..] == fs;
    var e := EncodeAll(w, fs[..k]);
    Assoc(e, EncodeAll(w, fs[k..]), s);
    assert (e + rest)[|e|..] == rest;
    assert (e + (EncodeAll(w, fs[k..]) + s))[|e|..] == EncodeAll(w, fs[k..]) + s;
  }

  /** A frame whose header and payload reach the modulus, behind any number of good ones, is never
      dispatched and blocks the session for good, however the stream goes on after it: only frames
      before it are dispatched, and it is kept with everything that follows. */
  lemma {:induction false} OversizedFrameBlocksForever(w: Wire, chunks: seq<seq<Byte>>, ahead: seq<Byte>,
                                                       fs: seq<Frame>, s: seq<Byte>)
    requires AllValid(w, fs) && Oversized(w, s) && Concat(chunks) + ahead == EncodeAll(w, fs) + s
    ensures var r := Run(w, chunks);
            && r.frames <= fs
            && r.kept + ahead == EncodeAll(w, fs[|r.frames|..]) + s
  {
    hide Oversized, ValidFrame, EncodeAll, Peeled, Left;
    var r := Run(w, chunks);
    if chunks != [] {
      var n := |chunks| - 1;
      var p := Run(w, chunks[..n]);
      var later := chunks[n] + ahead;
      assert Concat(chunks[..n]) + later == EncodeAll(w, fs) + s by {
        assert Concat(chunks) == Concat(chunks[..n]) + chunks[n];
        Assoc(Concat(chunks[..n]), chunks[n], ahead);
      }
      OversizedFrameBlocksForever(w, chunks[..n], later, fs, s);
      Assoc(p.kept, chunks[n], ahead);
      var gs := fs[|p.frames|..];
      PeelStops(w, p.kept + chunks[n], ahead, gs, s);
      Prefixes(fs, p.frames, Peeled(w, p.kept + chunks[n]));
    }
    NothingLost(w, chunks);
    Assoc(EncodeAll(w, r.frames), r.kept, ahead);
    assert r.frames == fs[..|r.frames|];
    TakeOff(w, fs, |r.frames|, r.kept + ahead, s);
  }

  lemma Prefixes(fs: seq<Frame>, a: seq<Frame>, b: seq<Frame>)
    requires a <= fs && b <= fs[|a|..]
    ensures a + b <= fs
  {
  }

  // ---------------------------------------------------------------------------------------------
  // Sender to receiver.

  /** `s` is what is left of a list of messages after `j` of them: nothing if none is left,
      otherwise a proper prefix of the next one. */
  ghost predicate IsTail(w: Wire, ms: seq<Frame>, j: nat, s: seq<Byte>) {
    j <= |ms| && if j == |ms| then s == [] else |s| < |Encode(w, ms[j])| && s == Encode(w, ms[j])[..|s|]
  }

  /** A prefix of an encoded list splits into whole messages and a tail. */
  lemma {:induction false} SplitPrefix(w: Wire, ms: seq<Frame>, s: seq<Byte>) returns (j: nat, tail: seq<Byte>)
    requires s <= EncodeAll(w, ms)
    ensures IsTail(w, ms, j, tail) && s == EncodeAll(w, ms[..j]) + tail
  {
    hide Encode;
    if ms == [] {
      return 0, [];
    }
    var e := Encode(w, ms[0]);
    if |s| < |e| {
      return 0, s;
    }
    DropPrefix(e, EncodeAll(w, ms[1..]), s);
    var j', t := SplitPrefix(w, ms[1..], s[|e|..]);
    j, tail := j' + 1, t;
    assert ms[..j][1..] == ms[1..][..j'] && ms[..j][0] == ms[0];
    Assoc(e, EncodeAll(w, ms[1..][..j']), t);
  }

  lemma DropPrefix(e: seq<Byte>, more: seq<Byte>, s: seq<Byte>)
    requires s <= e + more && |s| >= |e|
    ensures s == e + s[|e|..] && s[|e|..] <= more
  {
    assert s == (e + more)[..|s|];
    assert s[|e|..] == more[..|s| - |e|];
  }

  lemma {:induction false} TailIsIncomplete(w: Wire, ms: seq<Frame>, j: nat, tail: seq<Byte>)
    requires AllValid(w, ms) && IsTail(w, ms, j, tail)
    ensures j <= |ms| && AllValid(w, ms[..j])
    ensures Frames(w, tail) == [] && Rest(w, tail) == tail
  {
    hide Encode;
    if j < |ms| {
      FrameAlone(w, ms[j], |tail|);
    }
  }

  /** Messages encoded, concatenated and fed in any chunks come out as they went in: after every
      read the first `j` messages have been dispatched and the kept bytes are exactly the part of
      message `j` received so far. */
  lemma {:induction false} RoundTrip(w: Wire, ms: seq<Frame>, chunks: seq<seq<Byte>>, ahead: seq<Byte>) returns (j: nat)
    requires AllValid(w, ms) && PayloadsAtMost(ms, SafePayload(w))
    requires ReadsFit(chunks) && Concat(chunks) + ahead == EncodeAll(w, ms)
    ensures j <= |ms| && Run(w, chunks).frames == ms[..j]
    ensures IsTail(w, ms, j, Run(w, chunks).kept)
    ensures ahead == [] ==> Run(w, chunks) == Stream(ms, [])
  {
    hide Encode, EncodeAll, Frames, Rest, SizesAtMost, Run, ValidFrame, IsTail, PayloadsAtMost, AllValid;
    var s := Concat(chunks);
    var tail: seq<Byte>;
    j, tail := SplitPrefix(w, ms, s);
    var all := EncodeAll(w, ms);
    SizesAfterFrames(w, ms, [], SafePayload(w));
    ZeroSizes(w, [], SafePayload(w));
    assert all + [] == all;
    SizesOfPrefix(w, s, ahead, SafePayload(w));
    SafeRunIsIdeal(w, chunks, SafePayload(w));
    TailIsIncomplete(w, ms, j, tail);
    FramesOfEncoded(w, ms[..j], tail);
    assert ms[..j] + [] == ms[..j];
    if ahead == [] {
      assert s + [] == s;
      IdealOfNothing(w);
      FramesOfEncoded(w, ms, []);
      assert ms + [] == ms;
    }
  }
}
