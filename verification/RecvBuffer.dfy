/** The receive side of AsioTcpSession: a growable byte buffer with read and write positions,
    compacted by an overlapping move, seen as a stream of received bytes minus consumed bytes. */
module RecvBuffer {
  import opened Bytes

  const FIRST_SIZE: nat := 16 * 1024
  const GROWTH: nat := 1024

  /** struct buffer_s and its operations. */
  class OxBuffer {
    var data: array<Byte>
    var readPos: nat
    var writePos: nat

    ghost predicate Valid()
      reads this
    {
      readPos <= writePos <= data.Length
    }

    /** The bytes written and not yet read. */
    ghost function Unread(): seq<Byte>
      requires Valid()
      reads this, data
    {
      data[readPos..writePos]
    }

    constructor (size: nat)
      ensures Valid() && fresh(data) && data.Length == size && readPos == 0 && Unread() == []
    {
      data := new Byte[size](_ => 0);
      readPos, writePos := 0, 0;
    }

    function WriteValidCount(): (n: nat)
      requires Valid()
      reads this
    {
      data.Length - writePos
    }

    function ReadValidCount(): (n: nat)
      requires Valid()
      reads this, data
      ensures n == |Unread()|
    {
      writePos - readPos
    }

    /** memcpy to the write position. */
    method Write(src: seq<Byte>)
      requires Valid() && |src| <= WriteValidCount()
      modifies this`writePos, data
      ensures Valid() && writePos == old(writePos) + |src|
      ensures Unread() == old(Unread()) + src
    {
      forall i | 0 <= i < |src| { data[writePos + i] := src[i]; }
      writePos := writePos + |src|;
    }

    method AddReadPos(n: nat)
      requires Valid() && n <= ReadValidCount()
      modifies this`readPos
      ensures Valid() && readPos == old(readPos) + n
      ensures Unread() == old(Unread())[n..]
    {
      readPos := readPos + n;
    }

    /** Moves the unread bytes to the front; source and destination may overlap. */
    method AdjustToHead()
      requires Valid()
      modifies this`readPos, this`writePos, data
      ensures Valid() && readPos == 0
      ensures Unread() == old(Unread())
    {
      if readPos > 0 {
        var valid := writePos - readPos;
        if valid > 0 {
          forall i | 0 <= i < valid { data[i] := data[readPos + i]; }
        }
        writePos := valid;
        readPos := 0;
      }
    }
  }

  // ---------------------------------------------------------------------------------------------
  // The stream the buffer stands for.

  datatype State = State(size: nat, readPos: nat, unread: seq<Byte>, received: seq<Byte>, consumed: seq<Byte>)

  /** One completed read: the bytes the socket delivered and what the data callback answers, if
      there is a callback. An answer larger than what is available is ignored. */
  datatype Read = Read(bytes: seq<Byte>, answer: Answer)
  datatype Answer = NoCallback | Processed(n: nat)

  function Room(s: State): int { s.size - s.readPos - |s.unread| }

  function Init(max: nat): State {
    State(if FIRST_SIZE <= max then FIRST_SIZE else max, 0, [], [], [])
  }

  function Taken(answer: Answer, available: nat): (n: nat)
    ensures n <= available
  {
    if answer.Processed? && answer.n <= available then answer.n else 0
  }

  function Grown(max: nat, size: nat, unread: nat): nat {
    if unread == size && size + GROWTH <= max then size + GROWTH else size
  }

  function Step(max: nat, s: State, r: Read): State {
    var all := s.unread + r.bytes;
    var n := Taken(r.answer, |all|);
    var size := Grown(max, s.size, |all|);
    var pos := (if size != s.size then 0 else s.readPos) + n;
    var left := all[n..];
    State(size, if pos + |left| == size || left == [] then 0 else pos, left,
          s.received + r.bytes, s.consumed + all[..n])
  }

  /** Zero, more than there is, or no callback at all. */
  predicate TakesNothing(answer: Answer, available: nat) {
    answer == NoCallback || answer.n == 0 || answer.n > available
  }

  ghost predicate Inv(max: nat, s: State) {
    && s.readPos + |s.unread| <= s.size <= max
    && s.received == s.consumed + s.unread
  }

  /** Every read fits in the room offered to the socket. */
  ghost predicate Fits(max: nat, s: State, rs: seq<Read>)
    decreases |rs|
  {
    rs != [] ==> |rs[0].bytes| <= Room(s) && Fits(max, Step(max, s, rs[0]), rs[1..])
  }

  function Run(max: nat, s: State, rs: seq<Read>): State
    decreases |rs|
  {
    if rs == [] then s else Run(max, Step(max, s, rs[0]), rs[1..])
  }

  lemma StepKeeps(max: nat, s: State, r: Read)
    requires Inv(max, s) && |r.bytes| <= Room(s)
    ensures Inv(max, Step(max, s, r))
  {
    var all := s.unread + r.bytes;
    var n := Taken(r.answer, |all|);
    assert all == all[..n] + all[n..];
    assert s.consumed + s.unread + r.bytes == s.consumed + all == s.consumed + all[..n] + all[n..];
  }

  function BytesOf(rs: seq<Read>): seq<Byte> {
    if rs == [] then [] else rs[0].bytes + BytesOf(rs[1..])
  }

  /** Across writes, growth, consumption and compaction, in every run: the buffer holds exactly the
      bytes received minus the bytes consumed, and its size never exceeds the limit. */
  lemma {:induction false} EveryRunIsAStream(max: nat, s: State, rs: seq<Read>)
    requires Inv(max, s) && Fits(max, s, rs)
    ensures var t := Run(max, s, rs);
            && Inv(max, t) && s.size <= t.size
            && t.received == s.received + BytesOf(rs)
            && s.consumed <= t.consumed
            && t.consumed + t.unread == s.consumed + s.unread + BytesOf(rs)
    decreases |rs|
  {
    if rs != [] {
      var u := Step(max, s, rs[0]);
      StepKeeps(max, s, rs[0]);
      EveryRunIsAStream(max, u, rs[1..]);
      assert s.received + rs[0].bytes + BytesOf(rs[1..]) == s.received + BytesOf(rs);
    }
  }

  /** A session starts with an empty buffer of 16 KiB, or as much as the limit allows. */
  lemma StartsEmpty(max: nat)
    ensures var s := Init(max);
            && Inv(max, s) && s.unread == s.received == s.consumed == [] && s.readPos == 0
            && s.size <= 16384 && (s.size == 16384 || s.size == max)
  {
  }

  /** After a read, what the callback says it took has left the front of the buffer, and nothing else; the
      buffer grows, by 1 KiB, exactly when the read filled all of it and the limit allows. */
  lemma ReadTakes(max: nat, s: State, r: Read)
    requires Inv(max, s) && |r.bytes| <= Room(s)
    ensures var all := s.unread + r.bytes;
            var t := Step(max, s, r);
            && (r.answer == NoCallback ==> t.unread == all)
            && (r.answer.Processed? && r.answer.n <= |all| ==> t.unread == all[r.answer.n..])
            && (r.answer.Processed? && r.answer.n > |all| ==> t.unread == all)
            && t.size == (if |all| == s.size && s.size + 1024 <= max then s.size + 1024 else s.size)
            && (t.unread == [] || t.readPos + |t.unread| == t.size ==> t.readPos == 0)
            && (t.readPos > 0 ==>
                  t.readPos == |all| - |t.unread| + (if t.size == s.size then s.readPos else 0))
  {
  }

  /** What the callback's answers take, when `unread` bytes are waiting before: an answer counts unless it is
      larger than what there is. */
  function Accepted(unread: nat, rs: seq<Read>): nat
    decreases |rs|
  {
    if rs == [] then 0
    else
      var all := unread + |rs[0].bytes|;
      match rs[0].answer
      case Processed(n) => if n <= all then n + Accepted(all - n, rs[1..]) else Accepted(all, rs[1..])
      case NoCallback => Accepted(all, rs[1..])
  }

  lemma StepCounts(max: nat, s: State, r: Read)
    ensures var all := |s.unread| + |r.bytes|;
            var n := if r.answer.Processed? && r.answer.n <= all then r.answer.n else 0;
            var t := Step(max, s, r);
            |t.unread| == all - n && |t.consumed| == |s.consumed| + n
  {
  }

  /** In every run the bytes consumed are as many as the accepted answers say. */
  lemma {:induction false} ConsumedIsAccepted(max: nat, s: State, rs: seq<Read>)
    requires Inv(max, s) && Fits(max, s, rs)
    ensures |Run(max, s, rs).consumed| == |s.consumed| + Accepted(|s.unread|, rs)
    decreases |rs|
  {
    if rs != [] {
      hide Step, Inv, Room;
      StepKeeps(max, s, rs[0]);
      StepCounts(max, s, rs[0]);
      ConsumedIsAccepted(max, Step(max, s, rs[0]), rs[1..]);
    }
  }

  /** The next read has no room exactly when this one filled the whole buffer, the buffer could not
      grow, and the callback took nothing. */
  lemma NoRoomIff(max: nat, s: State, r: Read)
    requires Inv(max, s) && |r.bytes| <= Room(s)
    ensures Room(Step(max, s, r)) >= 0
    ensures Room(Step(max, s, r)) == 0
       <==> |s.unread| + |r.bytes| == s.size && s.size + GROWTH > max && TakesNothing(r.answer, s.size)
  {
  }

  /** From then on reads deliver nothing and, as long as the callback takes nothing, nothing changes. */
  lemma {:induction false} FullBufferStaysFull(max: nat, s: State, rs: seq<Read>)
    requires Inv(max, s) && Fits(max, s, rs)
    requires |s.unread| == s.size && s.size + GROWTH > max
    requires forall i :: 0 <= i < |rs| ==> TakesNothing(rs[i].answer, s.size)
    ensures Run(max, s, rs) == s
    decreases |rs|
  {
    if rs != [] {
      assert s.unread + rs[0].bytes == s.unread;
      assert s.received + rs[0].bytes == s.received;
      assert s.consumed + s.unread[..0] == s.consumed;
      assert Step(max, s, rs[0]) == s;
      FullBufferStaysFull(max, s, rs[1..]);
    }
  }

  // ---------------------------------------------------------------------------------------------
  // The session.

  class Receiver {
    const maxRecvBufSize: nat
    var recvBuffers: OxBuffer
    ghost var received: seq<Byte>
    ghost var consumed: seq<Byte>

    ghost predicate Valid()
      reads this, recvBuffers, recvBuffers.data
    {
      recvBuffers.Valid() && Inv(maxRecvBufSize, View())
    }

    ghost function View(): State
      requires recvBuffers.Valid()
      reads this, recvBuffers, recvBuffers.data
    {
      State(recvBuffers.data.Length, recvBuffers.readPos, recvBuffers.Unread(), received, consumed)
    }

    constructor (max: nat)
      ensures Valid() && maxRecvBufSize == max && View() == Init(max)
      ensures fresh(recvBuffers) && fresh(recvBuffers.data)
    {
      maxRecvBufSize := max;
      recvBuffers := new OxBuffer(if FIRST_SIZE <= max then FIRST_SIZE else max);
      received, consumed := [], [];
    }

    method GrowRecvBuffer()
      requires recvBuffers.Valid()
      modifies this`recvBuffers
      ensures recvBuffers.Valid() && recvBuffers.Unread() == old(recvBuffers.Unread())
      ensures recvBuffers != old(recvBuffers) ==>
                fresh(recvBuffers) && fresh(recvBuffers.data) && recvBuffers.readPos == 0
      ensures recvBuffers == old(recvBuffers) <==> old(recvBuffers.data.Length) + GROWTH > maxRecvBufSize
      ensures recvBuffers != old(recvBuffers) ==> recvBuffers.data.Length == old(recvBuffers.data.Length) + GROWTH
    {
      var newSize := recvBuffers.data.Length + GROWTH;
      if newSize > maxRecvBufSize {
        return;
      }
      var newBuffer := new OxBuffer(newSize);
      newBuffer.Write(recvBuffers.data[recvBuffers.readPos..recvBuffers.writePos]);
      recvBuffers := newBuffer;
    }

    /** The bytes the socket has put at the write pointer; the buffer grows when they fill it. */
    method TakeIn(bytes: seq<Byte>)
      requires recvBuffers.Valid() && |bytes| <= recvBuffers.WriteValidCount()
      modifies this`recvBuffers, this`received, recvBuffers, recvBuffers.data
      ensures recvBuffers.Valid() && recvBuffers.Unread() == old(recvBuffers.Unread()) + bytes
      ensures received == old(received) + bytes
      ensures var size := old(recvBuffers.data.Length);
              && recvBuffers.data.Length == Grown(maxRecvBufSize, size, |recvBuffers.Unread()|)
              && recvBuffers.readPos == if recvBuffers.data.Length != size then 0 else old(recvBuffers.readPos)
      ensures recvBuffers == old(recvBuffers) || fresh(recvBuffers)
      ensures recvBuffers.data == old(recvBuffers.data) || fresh(recvBuffers.data)
    {
      recvBuffers.Write(bytes);
      received := received + bytes;
      if recvBuffers.ReadValidCount() == recvBuffers.data.Length {
        GrowRecvBuffer();
      }
    }

    /** The completion handler of a read. */
    method OnRecvCompleted(r: Read)
      requires Valid() && |r.bytes| <= recvBuffers.WriteValidCount()
      modifies this, recvBuffers, recvBuffers.data
      ensures Valid() && View() == Step(maxRecvBufSize, old(View()), r)
      ensures recvBuffers == old(recvBuffers) || fresh(recvBuffers)
      ensures recvBuffers.data == old(recvBuffers.data) || fresh(recvBuffers.data)
    {
      StepKeeps(maxRecvBufSize, View(), r);
      hide Inv, Grown;
      TakeIn(r.bytes);
      ghost var all := recvBuffers.Unread();
      consumed := consumed + all[..Taken(r.answer, |all|)];
      Process(r.answer);
    }

    /** The callback's answer is taken off the front, then the buffer is compacted if it is full or empty. */
    method Process(answer: Answer)
      requires recvBuffers.Valid()
      modifies recvBuffers`readPos, recvBuffers`writePos, recvBuffers.data
      ensures recvBuffers.Valid()
      ensures var was := old(recvBuffers.Unread());
              var n := if answer.Processed? && answer.n <= |was| then answer.n else 0;
              var pos := old(recvBuffers.readPos) + n;
              && recvBuffers.Unread() == was[n..]
              && recvBuffers.readPos ==
                 if pos + |was[n..]| == recvBuffers.data.Length || was[n..] == [] then 0 else pos
    {
      if answer.Processed? && answer.n <= recvBuffers.ReadValidCount() {
        recvBuffers.AddReadPos(answer.n);
      }
      if recvBuffers.WriteValidCount() == 0 || recvBuffers.ReadValidCount() == 0 {
        recvBuffers.AdjustToHead();
      }
    }
  }
}
