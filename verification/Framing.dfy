/** The two frame layouts of the servers, their codecs, and the receive loops that cut a TCP
    stream back into frames.

    Client frames carry a 6-byte header (id, size); frames between servers carry a 16-byte header
    (id, transparent id, size). Both decoders take the number of available bytes in a parameter
    narrower than the caller's `size_t`: 16 bits for client frames, 32 bits for inner ones. That
    narrowing is kept here, and is what bounds the payloads the stream can carry. */
module Framing {
  import opened Bytes

  datatype Wire = Client | Inner

  /** A frame as the dispatchers see it. Client frames carry no transparent id: it is 0. */
  datatype Frame = Frame(id: nat, transID: nat, payload: seq<Byte>)

  /** MsgHeaderSize and InnerMsgHeaderSize. */
  function HeaderSize(w: Wire): nat { if w == Client then 6 else 16 }

  /** Width in bytes of the size field of the header. */
  function SizeWidth(w: Wire): nat { if w == Client then 2 else 4 }

  /** The values of the decoder's `len` parameter: uint16_t or uint32_t. */
  function Modulus(w: Wire): nat { if w == Client then 0x1_0000 else 0x1_0000_0000 }

  const READ_SIZE: nat := 4096
  const HEARTBEAT_REQ: nat := 20000
  const HEARTBEAT_ACK: nat := 20001

  ghost predicate ValidFrame(w: Wire, f: Frame) {
    && f.id < 0x1_0000_0000
    && f.transID < (if w == Client then 1 else 0x1_0000_0000_0000_0000)
    && |f.payload| < Modulus(w)
  }

  lemma {:induction false} Ranges()
    ensures Range(2) == 0x1_0000
    ensures Range(4) == 0x1_0000_0000
    ensures Range(8) == 0x1_0000_0000_0000_0000
  {
    assert Range(1) == 256;
    assert Range(3) == 256 * Range(2);
    assert Range(5) == 256 * Range(4);
    assert Range(6) == 256 * Range(5);
    assert Range(7) == 256 * Range(6);
  }

  function Header(w: Wire, f: Frame): (h: seq<Byte>)
    ensures |h| == HeaderSize(w)
  {
    match w
    case Client => ToNetwork(f.id, 4) + ToNetwork(|f.payload|, 2)
    case Inner => ToNetwork(f.id, 4) + ToNetwork(f.transID, 8) + ToNetwork(|f.payload|, 4)
  }

  function Encode(w: Wire, f: Frame): (s: seq<Byte>)
    ensures |s| == HeaderSize(w) + |f.payload|
  {
    Header(w, f) + f.payload
  }

  function EncodeAll(w: Wire, fs: seq<Frame>): seq<Byte> {
    if fs == [] then [] else Encode(w, fs[0]) + EncodeAll(w, fs[1..])
  }

  /** The payload size announced by the header at the front of `s`. */
  function Announced(w: Wire, s: seq<Byte>): (n: nat)
    requires |s| >= HeaderSize(w)
  {
    FromNetwork(s[HeaderSize(w) - SizeWidth(w)..HeaderSize(w)])
  }

  lemma {:induction false} AnnouncedBound(w: Wire, s: seq<Byte>)
    requires |s| >= HeaderSize(w)
    ensures Announced(w, s) < Modulus(w)
  {
    Ranges();
  }

  /** Whether a whole frame stands at the front of `s`. */
  predicate Complete(w: Wire, s: seq<Byte>) {
    |s| >= HeaderSize(w) && |s| >= HeaderSize(w) + Announced(w, s)
  }

  function First(w: Wire, s: seq<Byte>): Frame
    requires Complete(w, s)
  {
    Frame(FromNetwork(s[..4]),
          if w == Client then 0 else FromNetwork(s[4..12]),
          s[HeaderSize(w)..HeaderSize(w) + Announced(w, s)])
  }

  function AfterFirst(w: Wire, s: seq<Byte>): (t: seq<Byte>)
    requires Complete(w, s)
    ensures |t| < |s|
  {
    s[HeaderSize(w) + Announced(w, s)..]
  }

  /** The true frame sequence of a stream: what a reader without any narrowing would see. */
  function Frames(w: Wire, s: seq<Byte>): seq<Frame>
    decreases |s|
  {
    if Complete(w, s) then [First(w, s)] + Frames(w, AfterFirst(w, s)) else []
  }

  /** The bytes after the last complete frame. */
  function Rest(w: Wire, s: seq<Byte>): seq<Byte>
    decreases |s|
  {
    if Complete(w, s) then Rest(w, AfterFirst(w, s)) else s
  }

  /** The header fields are where the decoder looks for them. */
  lemma {:induction false} HeaderFields(w: Wire, f: Frame, rest: seq<Byte>)
    ensures var s := Encode(w, f) + rest;
            var h := HeaderSize(w);
            && s[..4] == ToNetwork(f.id, 4)
            && (w == Inner ==> s[4..12] == ToNetwork(f.transID, 8))
            && s[h - SizeWidth(w)..h] == ToNetwork(|f.payload|, SizeWidth(w))
            && s[h..h + |f.payload|] == f.payload
            && s[h + |f.payload|..] == rest
  {
    hide ToNetwork;
    var id, tid, sz := ToNetwork(f.id, 4), ToNetwork(f.transID, 8), ToNetwork(|f.payload|, SizeWidth(w));
    var s := Encode(w, f) + rest;
    if w == Client {
      assert s == id + sz + f.payload + rest;
    } else {
      assert s == id + tid + sz + f.payload + rest;
    }
  }

  /** A 32-bit number, most significant byte first. */
  function Long(n: nat): seq<Byte> { [n / 0x100_0000 % 256, n / 0x1_0000 % 256, n / 0x100 % 256, n % 256] }

  /** The bytes of a frame: id, transparent id if any, payload size, payload. */
  lemma {:induction false} WireLayout(f: Frame)
    ensures Encode(Client, f) == Long(f.id) + [|f.payload| / 0x100 % 256, |f.payload| % 256] + f.payload
    ensures Encode(Inner, f)
         == Long(f.id) + Long(f.transID / 0x1_0000_0000) + Long(f.transID) + Long(|f.payload|) + f.payload
  {
    FourBytes(f.id);
    FourBytes(|f.payload|);
    TwoBytes(|f.payload|);
    EightBytes(f.transID);
    FourBytes(f.transID / 0x1_0000_0000);
    FourBytes(f.transID);
    hide ToNetwork;
    assert Encode(Inner, f) == ToNetwork(f.id, 4) + ToNetwork(f.transID, 8) + ToNetwork(|f.payload|, 4) + f.payload;
  }

  /** Decoding undoes encoding, whatever bytes follow the frame. */
  lemma {:induction false} DecodeEncode(w: Wire, f: Frame, rest: seq<Byte>)
    requires ValidFrame(w, f)
    ensures var s := Encode(w, f) + rest;
            Complete(w, s) && First(w, s) == f && AfterFirst(w, s) == rest
  {
    HeaderFields(w, f, rest);
    Ranges();
    FromToNetwork(f.id, 4);
    FromToNetwork(f.transID, 8);
    FromToNetwork(|f.payload|, SizeWidth(w));
  }

  /** Encoding undoes decoding: a complete frame is exactly the encoding of what is decoded. */
  lemma {:induction false} EncodeDecode(w: Wire, s: seq<Byte>)
    requires Complete(w, s)
    ensures ValidFrame(w, First(w, s))
    ensures Encode(w, First(w, s)) + AfterFirst(w, s) == s
  {
    hide FromNetwork, ToNetwork;
    var h := HeaderSize(w);
    var f := First(w, s);
    Ranges();
    AnnouncedBound(w, s);
    ToFromNetwork(s[..4]);
    ToFromNetwork(s[h - SizeWidth(w)..h]);
    if w == Inner {
      ToFromNetwork(s[4..12]);
      assert s[..4] + s[4..12] + s[12..16] == s[..16];
    } else {
      assert s[..4] + s[4..6] == s[..6];
    }
    assert Header(w, f) == s[..h];
    assert s == s[..h] + s[h..h + Announced(w, s)] + s[h + Announced(w, s)..];
  }

  // ---------------------------------------------------------------------------------------------
  // The codecs: encode_packet, decode_packet and their inner counterparts.

  /** memcpy of `bytes` into `buf` at offset `at`. */
  method Put(buf: array<Byte>, at: nat, bytes: seq<Byte>)
    requires at + |bytes| <= buf.Length
    modifies buf
    ensures buf[..] == old(buf[..at]) + bytes + old(buf[at + |bytes|..])
  {
    forall i | 0 <= i < |bytes| { buf[at + i] := bytes[i]; }
  }

  method EncodePacket(msgId: nat, data: seq<Byte>, len: nat) returns (out: seq<Byte>)
    requires msgId < 0x1_0000_0000
    requires len < 0x1_0000 && len <= |data|
    ensures out == Encode(Client, Frame(msgId, 0, data[..len]))
  {
    var id, sz := ToNetwork(msgId, 4), ToNetwork(len, 2);
    var buf := new Byte[6 + len](_ => 0);
    Put(buf, 0, id);
    Put(buf, 4, sz);
    assert buf[..6] == id + sz;
    if len > 0 {
      Put(buf, 6, data[..len]);
    }
    out := buf[..];
    assert out == id + sz + data[..len];
  }

  method EncodeInnerPacket(msgId: nat, data: seq<Byte>, len: nat, transID: nat) returns (out: seq<Byte>)
    requires msgId < 0x1_0000_0000 && transID < 0x1_0000_0000_0000_0000
    requires len < 0x1_0000_0000 && len <= |data|
    ensures out == Encode(Inner, Frame(msgId, transID, data[..len]))
  {
    var id, tid, sz := ToNetwork(msgId, 4), ToNetwork(transID, 8), ToNetwork(len, 4);
    var buf := new Byte[16 + len](_ => 0);
    Put(buf, 0, id);
    Put(buf, 4, tid);
    assert buf[..12] == id + tid;
    Put(buf, 12, sz);
    assert buf[..16] == id + tid + sz;
    if len > 0 {
      Put(buf, 16, data[..len]);
    }
    out := buf[..];
    assert out == id + tid + sz + data[..len];
  }

  /** `data` is what the pointer reaches, `len` the narrowed number of bytes the callee is told of. */
  method DecodePacket(data: seq<Byte>, len: nat) returns (ok: bool, out: Frame)
    requires len < 0x1_0000 && len <= |data|
    ensures ok <==> Complete(Client, data[..len])
    ensures ok ==> Complete(Client, data) && out == First(Client, data)
  {
    out := Frame(0, 0, []);
    if len < 6 { return false, out; }
    assert data[..len][4..6] == data[4..6];
    var id := FromNetwork(data[..4]);
    var sz := FromNetwork(data[4..6]);
    out := Frame(id, 0, []);
    if len < 6 + sz { return false, out; }
    out := Frame(id, 0, data[6..6 + sz]);
    ok := true;
  }

  method DecodeInnerPacket(data: seq<Byte>, len: nat) returns (ok: bool, out: Frame)
    requires len < 0x1_0000_0000 && len <= |data|
    ensures ok <==> Complete(Inner, data[..len])
    ensures ok ==> Complete(Inner, data) && out == First(Inner, data)
  {
    out := Frame(0, 0, []);
    if len < 16 { return false, out; }
    assert data[..len][12..16] == data[12..16];
    var id := FromNetwork(data[..4]);
    var transID := FromNetwork(data[4..12]);
    var sz := FromNetwork(data[12..16]);
    out := Frame(id, transID, []);
    if len < 16 + sz { return false, out; }
    out := Frame(id, transID, data[16..16 + sz]);
    ok := true;
  }

  // ---------------------------------------------------------------------------------------------
  // The receive loops.

  /** What the loop does with a frame: heartbeats are answered or dropped, the rest is handed on. */
  datatype Action = ReplyPong | PongSeen | Deliver(frame: Frame)

  function ActionOf(f: Frame): Action {
    if f.id == HEARTBEAT_REQ then ReplyPong
    else if f.id == HEARTBEAT_ACK then PongSeen
    else Deliver(f)
  }

  function Actions(fs: seq<Frame>): (r: seq<Action>)
  {
    seq(|fs|, i requires 0 <= i < |fs| => ActionOf(fs[i]))
  }

  /** The frames handed on, in order. */
  function Delivered(acts: seq<Action>): seq<Frame> {
    if acts == [] then []
    else Delivered(acts[..|acts| - 1]) + (if acts[|acts| - 1].Deliver? then [acts[|acts| - 1].frame] else [])
  }

  /** How often an action is taken. */
  function Times(acts: seq<Action>, act: Action): nat {
    if acts == [] then 0 else Times(acts[..|acts| - 1], act) + (if acts[|acts| - 1] == act then 1 else 0)
  }

  /** The frames that are no heartbeats, in order. */
  function Ordinary(fs: seq<Frame>): seq<Frame> {
    if fs == [] then []
    else Ordinary(fs[..|fs| - 1]) + (if fs[|fs| - 1].id in {20000, 20001} then [] else [fs[|fs| - 1]])
  }

  /** How many frames have the message id. */
  function WithId(fs: seq<Frame>, id: nat): nat {
    if fs == [] then 0 else WithId(fs[..|fs| - 1], id) + (if fs[|fs| - 1].id == id then 1 else 0)
  }

  /** Every frame is handled as its id demands: requests are answered, answers noted, all others handed on, in
      the order they came. */
  ghost predicate Handled(fs: seq<Frame>, acts: seq<Action>) {
    && Delivered(acts) == Ordinary(fs)
    && Times(acts, ReplyPong) == WithId(fs, 20000) && Times(acts, PongSeen) == WithId(fs, 20001)
    && |acts| == |fs|
  }

  lemma {:induction false} ActionsHandle(fs: seq<Frame>)
    ensures Handled(fs, Actions(fs))
  {
    if fs != [] {
      var n := |fs| - 1;
      ActionsHandle(fs[..n]);
      assert Actions(fs)[..n] == Actions(fs[..n]) && Actions(fs)[n] == ActionOf(fs[n]);
    }
  }

  /** Whether the decoder accepts the front of `s` when told its length modulo the width. */
  predicate Decodable(w: Wire, s: seq<Byte>) {
    Complete(w, s[..|s| % Modulus(w)])
  }

  lemma {:induction false} DecodableIsComplete(w: Wire, s: seq<Byte>)
    requires Decodable(w, s)
    ensures Complete(w, s)
    ensures Announced(w, s) == Announced(w, s[..|s| % Modulus(w)])
  {
    var n := |s| % Modulus(w);
    var h := HeaderSize(w);
    assert s[..n][h - SizeWidth(w)..h] == s[h - SizeWidth(w)..h];
  }

  /** The frames peeled off a buffer by one call of the loop, and the bytes it leaves. */
  function Peeled(w: Wire, s: seq<Byte>): seq<Frame>
    decreases |s|
  {
    if Decodable(w, s) then
      DecodableIsComplete(w, s);
      [First(w, s)] + Peeled(w, AfterFirst(w, s))
    else []
  }

  function Left(w: Wire, s: seq<Byte>): (r: seq<Byte>)
    ensures |r| <= |s|
    decreases |s|
  {
    if Decodable(w, s) then
      DecodableIsComplete(w, s);
      Left(w, AfterFirst(w, s))
    else s
  }

  lemma {:induction false} PeelStep(w: Wire, s: seq<Byte>, done: seq<Frame>)
    requires Decodable(w, s)
    ensures Complete(w, s)
    ensures Left(w, s) == Left(w, AfterFirst(w, s))
    ensures done + Peeled(w, s) == done + [First(w, s)] + Peeled(w, AfterFirst(w, s))
  {
    hide Announced;
    DecodableIsComplete(w, s);
  }

  lemma NothingMore(w: Wire, s: seq<Byte>)
    ensures !Decodable(w, s) ==> Peeled(w, s) == [] && Left(w, s) == s
    ensures s == [] ==> !Decodable(w, s)
  {
  }

  lemma {:induction false} ActionsAppend(fs: seq<Frame>, f: Frame)
    ensures Actions(fs + [f]) == Actions(fs) + [ActionOf(f)]
  {
  }

  method OnRecvClientData(data: seq<Byte>) returns (remaining: nat, actions: seq<Action>)
    ensures remaining == |Left(Client, data)|
    ensures actions == Actions(Peeled(Client, data))
    ensures Handled(Peeled(Client, data), actions)
  {
    hide Handled, Peeled, Left;
    remaining := |data|;
    actions := [];
    var recvBuf := data;
    ghost var done: seq<Frame> := [];
    while remaining != 0
      invariant remaining == |recvBuf|
      invariant Left(Client, data) == Left(Client, recvBuf)
      invariant Peeled(Client, data) == done + Peeled(Client, recvBuf)
      invariant actions == Actions(done)
    {
      var ok, pack := DecodePacket(recvBuf, remaining % 0x1_0000);
      if !ok { break; }
      PeelStep(Client, recvBuf, done);
      ActionsAppend(done, pack);
      done := done + [pack];
      var size := 6 + |pack.payload|;
      remaining := remaining - size;
      recvBuf := recvBuf[size..];
      if pack.id == HEARTBEAT_REQ {
        actions := actions + [ReplyPong];
        continue;
      }
      if pack.id == HEARTBEAT_ACK {
        actions := actions + [PongSeen];
        continue;
      }
      actions := actions + [Deliver(pack)];
    }
    NothingMore(Client, recvBuf);
    ActionsHandle(Peeled(Client, data));
  }

  method OnRecvInnerData(data: seq<Byte>) returns (remaining: nat, actions: seq<Action>)
    ensures remaining == |Left(Inner, data)|
    ensures actions == Actions(Peeled(Inner, data))
    ensures Handled(Peeled(Inner, data), actions)
  {
    hide Handled, Peeled, Left;
    remaining := |data|;
    actions := [];
    var recvBuf := data;
    ghost var done: seq<Frame> := [];
    while remaining != 0
      invariant remaining == |recvBuf|
      invariant Left(Inner, data) == Left(Inner, recvBuf)
      invariant Peeled(Inner, data) == done + Peeled(Inner, recvBuf)
      invariant actions == Actions(done)
    {
      var ok, pack := DecodeInnerPacket(recvBuf, remaining % 0x1_0000_0000);
      if !ok { break; }
      PeelStep(Inner, recvBuf, done);
      ActionsAppend(done, pack);
      done := done + [pack];
      var size := 16 + |pack.payload|;
      remaining := remaining - size;
      recvBuf := recvBuf[size..];
      if pack.id == HEARTBEAT_REQ {
        actions := actions + [ReplyPong];
        continue;
      }
      if pack.id == HEARTBEAT_ACK {
        actions := actions + [PongSeen];
        continue;
      }
      actions := actions + [Deliver(pack)];
    }
    NothingMore(Inner, recvBuf);
    ActionsHandle(Peeled(Inner, data));
  }
}
