/** The buffered reader that lets the parser step back: a ring of the last 127 code points before the
    current one, seen as a plain cursor over the sequence of code points. */
module ReplayRing {
  import opened Prelude

  const HISTORY: nat := 127

  // ---------------------------------------------------------------------------------------------
  // The cursor. `at` is the index of the value last returned (-1 before the first read, the length
  // at end of file), `last` the furthest index reached.

  datatype Cursor = Cursor(at: int, last: int)

  datatype Op = Read | Back(n: nat)

  function ValueAt<T>(source: seq<T>, i: int): Option<T> {
    if 0 <= i < |source| then Some(source[i]) else None
  }

  /** Steps back reach as far as the history does: 127 code points before the furthest one. */
  predicate InRange(c: Cursor, op: Op) {
    op.Back? ==> c.last > 0 && c.at - op.n >= 0 && c.at - op.n >= c.last - HISTORY
  }

  function Moved(length: nat, c: Cursor, op: Op): Cursor {
    match op
    case Read => if c.at < length then Cursor(c.at + 1, if c.at == c.last then c.last + 1 else c.last) else c
    case Back(n) => c.(at := c.at - n)
  }

  /** Every step back of the sequence of operations is within the history. */
  predicate AllInRange(length: nat, c: Cursor, ops: seq<Op>)
    decreases |ops|
  {
    ops != [] ==> InRange(c, ops[0]) && AllInRange(length, Moved(length, c, ops[0]), ops[1..])
  }

  /** What a plain cursor returns for each operation. */
  function Returned<T>(source: seq<T>, c: Cursor, ops: seq<Op>): seq<Option<T>>
    decreases |ops|
  {
    if ops == [] then []
    else
      var d := Moved(|source|, c, ops[0]);
      [ValueAt(source, d.at)] + Returned(source, d, ops[1..])
  }

  // ---------------------------------------------------------------------------------------------
  // What that is.

  function Reads(n: nat): (ops: seq<Op>)
    ensures |ops| == n && forall i :: 0 <= i < n ==> ops[i] == Read
  {
    seq(n, _ => Read)
  }

  /** Where the cursor is after the operations. */
  function AfterOps(length: nat, c: Cursor, ops: seq<Op>): Cursor
    decreases |ops|
  {
    if ops == [] then c else AfterOps(length, Moved(length, c, ops[0]), ops[1..])
  }

  function Least(x: int, y: int): int { if x <= y then x else y }

  /** Reads return the values one after the other, and nothing from the end on. */
  lemma {:induction false} ReadsInOrder<T>(source: seq<T>, c: Cursor, n: nat)
    requires -1 <= c.at <= c.last <= |source|
    ensures var r := Returned(source, c, Reads(n));
            |r| == n && forall i :: 0 <= i < n ==>
              r[i] == if c.at + 1 + i < |source| then Some(source[c.at + 1 + i]) else None
    ensures var at := Least(c.at + n, |source|);
            AfterOps(|source|, c, Reads(n)) == Cursor(at, if at > c.last then at else c.last)
    decreases n
  {
    if n > 0 {
      ReadsInOrder(source, Moved(|source|, c, Read), n - 1);
      assert Reads(n)[1..] == Reads(n - 1);
    }
  }

  /** After a step back by `n`, the next `n` reads return the same values again, up to the one the cursor was
      on; then it stands where it stood. */
  lemma {:induction false} BackIsReplayed<T>(source: seq<T>, c: Cursor, n: nat)
    requires 0 <= c.at <= c.last <= |source| && InRange(c, Back(n))
    ensures var ops := [Back(n)] + Reads(n);
            var r := Returned(source, c, ops);
            && |r| == n + 1 && AfterOps(|source|, c, ops) == c
            && forall i :: 0 <= i <= n ==>
                 r[i] == if c.at - n + i < |source| then Some(source[c.at - n + i]) else None
  {
    var ops, d := [Back(n)] + Reads(n), Moved(|source|, c, Back(n));
    assert ops[1..] == Reads(n) && ops[0] == Back(n);
    ReadsInOrder(source, d, n);
  }

  /** A step back is in range if it stays within the 127 values before the furthest one read. */
  lemma BackInRange(c: Cursor, n: nat)
    requires c.last > 0
    ensures InRange(c, Back(n)) <==> n <= c.at && c.last - (c.at - n) <= 127
  {
  }

  // ---------------------------------------------------------------------------------------------
  // The ring.

  class BufferedReader<T(0)> {
    const source: seq<T>
    var pulled: nat
    var buffer: array<T>
    var count: nat
    var first: nat
    var head: Option<T>
    var negativeOffset: nat
    ghost var cursor: Cursor

    ghost predicate Valid()
      reads this, buffer
    {
      && pulled <= |source| && -1 <= cursor.last <= |source|
      && Remembers(if cursor.last < 0 then 0 else cursor.last)
      && negativeOffset <= count && cursor.at == cursor.last - negativeOffset
      && pulled == (if cursor.last + 1 <= |source| then cursor.last + 1 else |source|)
      && head == ValueAt(source, cursor.last)
    }

    constructor (source: seq<T>)
      ensures Valid() && this.source == source && cursor == Cursor(-1, -1) && fresh(buffer)
    {
      this.source := source;
      pulled, count, first, head, negativeOffset := 0, 0, 0, None, 0;
      buffer := new T[HISTORY];
      cursor := Cursor(-1, -1);
    }

    /** The underlying reader: the next code point, or nothing at end of file, again and again. */
    method Pull() returns (r: Option<T>)
      requires pulled <= |source|
      modifies this`pulled
      ensures r == ValueAt(source, old(pulled))
      ensures pulled == if old(pulled) < |source| then old(pulled) + 1 else old(pulled)
    {
      if pulled == |source| {
        return None;
      }
      r := Some(source[pulled]);
      pulled := pulled + 1;
    }

    /** The history as far as it goes: `end` is the index of the current code point. */
    ghost predicate Remembers(end: nat)
      reads this, buffer
    {
      && buffer.Length == HISTORY && end <= |source|
      && first + count == end && count <= HISTORY && (first > 0 ==> count == HISTORY)
      && forall i :: first <= i < end ==> buffer[i % HISTORY] == source[i]
    }

    /** Moves the current code point into the history, over the oldest entry once the ring is full. */
    method Remember(cp: T)
      requires Remembers(first + count) && first + count < |source| && cp == source[first + count]
      modifies this`count, this`first, buffer
      ensures Remembers(old(first + count) + 1)
    {
      if count < HISTORY {
        buffer[count] := cp;
        count := count + 1;
      } else {
        SlotOf(first);
        buffer[(first + HISTORY) % HISTORY] := cp;
        first := first + 1;
      }
    }

    method ReadNext() returns (r: Option<T>)
      requires Valid()
      modifies this, buffer
      ensures Valid() && buffer == old(buffer)
      ensures cursor == Moved(|source|, old(cursor), Read) && r == ValueAt(source, cursor.at)
    {
      if negativeOffset > 0 {
        negativeOffset := negativeOffset - 1;
        cursor := cursor.(at := cursor.at + 1);
        if negativeOffset == 0 {
          return head;
        }
        return Some(buffer[(first + count - negativeOffset) % HISTORY]);
      }
      if count == 0 && head == None {
        head := Pull();
        cursor := Moved(|source|, cursor, Read);
      } else if head.Some? {
        Remember(head.value);
        head := Pull();
        cursor := Moved(|source|, cursor, Read);
      }
      r := head;
    }

    method StepBack(n: nat) returns (r: Option<T>)
      requires Valid() && InRange(cursor, Back(n))
      modifies this
      ensures Valid() && buffer == old(buffer)
      ensures cursor == Moved(|source|, old(cursor), Back(n)) && r == ValueAt(source, cursor.at)
    {
      negativeOffset := negativeOffset + n;
      cursor := cursor.(at := cursor.at - n);
      r := if negativeOffset > 0 then Some(buffer[(first + count - negativeOffset) % HISTORY]) else head;
    }
  }

  /** The slot that is overwritten is the one of the oldest entry only. */
  lemma SlotOf(first: nat)
    ensures (first + HISTORY) % HISTORY == first % HISTORY
    ensures forall i :: first < i < first + HISTORY ==> i % HISTORY != first % HISTORY
  {
  }

  lemma {:induction false} OneOp<T>(source: seq<T>, c: Cursor, ops: seq<Op>, i: nat)
    requires i < |ops| && AllInRange(|source|, c, ops[i..])
    ensures var d := Moved(|source|, c, ops[i]);
            && InRange(c, ops[i]) && AllInRange(|source|, d, ops[i + 1..])
            && Returned(source, c, ops[i..]) == [ValueAt(source, d.at)] + Returned(source, d, ops[i + 1..])
  {
    assert ops[i..][1..] == ops[i + 1..] && ops[i..][0] == ops[i];
  }

  lemma NoOps<T>(source: seq<T>, c: Cursor, ops: seq<Op>)
    ensures Returned(source, c, ops[|ops|..]) == []
    ensures ops[0..] == ops && [] + Returned(source, c, ops) == Returned(source, c, ops)
  {
  }

  /** Under any interleaving of reads and steps back within the history, also at end of file, the ring
      returns what a plain cursor over the whole sequence would. */
  method Replay<T(0)>(source: seq<T>, ops: seq<Op>) returns (out: seq<Option<T>>)
    requires AllInRange(|source|, Cursor(-1, -1), ops)
    ensures out == Returned(source, Cursor(-1, -1), ops)
  {
    hide Returned, AllInRange, InRange, Moved, ValueAt;
    NoOps(source, Cursor(-1, -1), ops);
    var ring := new BufferedReader(source);
    out := [];
    for i := 0 to |ops|
      invariant ring.Valid() && fresh(ring) && fresh(ring.buffer) && ring.source == source
      invariant AllInRange(|source|, ring.cursor, ops[i..])
      invariant out + Returned(source, ring.cursor, ops[i..]) == Returned(source, Cursor(-1, -1), ops)
    {
      ghost var c := ring.cursor;
      OneOp(source, c, ops, i);
      var r: Option<T>;
      match ops[i] {
        case Read => r := ring.ReadNext();
        case Back(n) => r := ring.StepBack(n);
      }
      Assoc(out, [r], Returned(source, ring.cursor, ops[i + 1..]));
      out := out + [r];
    }
    NoOps(source, ring.cursor, ops);
    assert out + [] == out;
  }
}
