/** The send side of AsioTcpSession: a queue of messages under a lock, at most one scatter-send in
    flight, and completions that may cover any part of what was submitted. */
module SendQueue {
  import opened Prelude
  import opened Bytes

  datatype PendingMsg = PendingMsg(sendPos: nat, msg: seq<Byte>)

  type Pending = p: PendingMsg | p.sendPos <= |p.msg| witness PendingMsg(0, [])

  /** The bytes still to be sent, in order. */
  function Unsent(q: seq<Pending>): seq<Byte> {
    if q == [] then [] else q[0].msg[q[0].sendPos..] + Unsent(q[1..])
  }

  /** Only the front message can be partly sent, and a message sent in full has left the queue. */
  ghost predicate WellFormed(q: seq<Pending>) {
    && (forall i :: 0 < i < |q| ==> q[i].sendPos == 0)
    && (q != [] && q[0].sendPos > 0 ==> q[0].sendPos < |q[0].msg|)
  }

  /** The queue after `n` bytes have been acknowledged. */
  ghost function Acknowledge(q: seq<Pending>, n: nat): seq<Pending>
    decreases |q|
  {
    if n == 0 || q == [] then q
    else
      var room := |q[0].msg| - q[0].sendPos;
      if n < room then [q[0].(sendPos := q[0].sendPos + n)] + q[1..]
      else Acknowledge(q[1..], n - room)
  }

  lemma {:induction false} AcknowledgeDrops(q: seq<Pending>, n: nat)
    requires WellFormed(q) && n <= |Unsent(q)|
    ensures WellFormed(Acknowledge(q, n))
    ensures Unsent(Acknowledge(q, n)) == Unsent(q)[n..]
    decreases |q|
  {
    if n > 0 {
      var room := |q[0].msg| - q[0].sendPos;
      if n < room {
        var r := Acknowledge(q, n);
        assert r[1..] == q[1..];
        assert r[0].msg[r[0].sendPos..] == q[0].msg[q[0].sendPos..][n..];
      } else {
        AcknowledgeDrops(q[1..], n - room);
        assert Unsent(q)[n..] == Unsent(q[1..])[n - room..];
      }
    }
  }

  lemma {:induction false} UnsentAppend(q: seq<Pending>, p: Pending)
    requires p.sendPos == 0
    ensures Unsent(q + [p]) == Unsent(q) + p.msg
  {
    if q == [] {
      assert (q + [p])[1..] == [];
    } else {
      assert (q + [p])[1..] == q[1..] + [p];
      UnsentAppend(q[1..], p);
    }
  }

  // ---------------------------------------------------------------------------------------------
  // The protocol.

  /** `tickets` counts calls of trySend that are still to come, `pushed` and `wire` are history:
      all bytes given to send and all bytes the socket has accepted. */
  datatype State = State(pending: seq<Pending>, sending: bool, inFlight: seq<Byte>, outstanding: nat,
                         tickets: nat, pushed: seq<Byte>, wire: seq<Byte>)

  /** The critical sections: push_back in send, trySend, and the locked part of onSendCompleted for a
      completion without error that transferred `n` bytes. */
  datatype Event = Push(msg: seq<Byte>) | TrySend | Complete(n: nat)

  function Init(): State { State([], false, [], 0, 0, [], []) }

  ghost predicate Enabled(s: State, e: Event) {
    match e
    case Push(_) => true
    case TrySend => s.tickets > 0
    case Complete(n) => s.outstanding > 0 && n <= |s.inFlight|
  }

  ghost predicate Inv(s: State) {
    && WellFormed(s.pending)
    && s.wire + Unsent(s.pending) == s.pushed
    && s.inFlight <= Unsent(s.pending)
    && s.outstanding == (if s.sending then 1 else 0)
    && (!s.sending ==> s.inFlight == [])
    && (s.pending != [] ==> s.sending || s.tickets > 0)
  }

  ghost function Step(s: State, e: Event): State
    requires Enabled(s, e)
  {
    match e
    case Push(msg) =>
      s.(pending := s.pending + [PendingMsg(0, msg)], tickets := s.tickets + 1, pushed := s.pushed + msg)
    case TrySend =>
      if s.sending || s.pending == [] then s.(tickets := s.tickets - 1)
      else s.(tickets := s.tickets - 1, sending := true, inFlight := Unsent(s.pending),
              outstanding := s.outstanding + 1)
    case Complete(n) =>
      s.(pending := Acknowledge(s.pending, n), sending := false, inFlight := [], outstanding := s.outstanding - 1,
         tickets := s.tickets + 1, wire := s.wire + s.inFlight[..n])
  }

  lemma StepKeeps(s: State, e: Event)
    requires Inv(s) && Enabled(s, e)
    ensures Inv(Step(s, e))
  {
    match e
    case Push(msg) =>
      UnsentAppend(s.pending, PendingMsg(0, msg));
      assert s.wire + (Unsent(s.pending) + msg) == s.wire + Unsent(s.pending) + msg;
    case TrySend =>
    case Complete(n) =>
      var u := Unsent(s.pending);
      AcknowledgeDrops(s.pending, n);
      assert s.inFlight[..n] == u[..n];
      assert s.wire + u[..n] + u[n..] == s.wire + u;
  }

  /** A run is a sequence of states in which every step was possible. */
  ghost predicate IsRun(ss: seq<State>, es: seq<Event>) {
    && |ss| == |es| + 1
    && ss[0] == Init()
    && forall i :: 0 <= i < |es| ==> Enabled(ss[i], es[i]) && ss[i + 1] == Step(ss[i], es[i])
  }

  /** In every interleaving of sends and partial completions: the bytes on the wire followed by the
      unsent bytes are all messages in push order, at most one send is outstanding, and a non-empty
      queue has a send in flight or a trySend still to run. */
  lemma {:induction false} EveryRunKeepsOrder(ss: seq<State>, es: seq<Event>, k: nat)
    requires IsRun(ss, es) && k < |ss|
    ensures Inv(ss[k])
  {
    if k > 0 {
      EveryRunKeepsOrder(ss, es, k - 1);
      StepKeeps(ss[k - 1], es[k - 1]);
    }
  }

  /** The messages given to send, in order. */
  function PushedBy(es: seq<Event>): seq<Byte> {
    if es == [] then [] else PushedBy(es[..|es| - 1]) + (if es[|es| - 1].Push? then es[|es| - 1].msg else [])
  }

  /** Calls of trySend that are owed: one for each message given to send and for each completion. */
  function Owed(es: seq<Event>): int {
    if es == [] then 0 else Owed(es[..|es| - 1]) + (if es[|es| - 1] == TrySend then -1 else 1)
  }

  lemma {:induction false} RunPushes(ss: seq<State>, es: seq<Event>, k: nat)
    requires IsRun(ss, es) && k < |ss|
    ensures ss[k].pushed == PushedBy(es[..k]) && ss[k].tickets == Owed(es[..k])
  {
    if k > 0 {
      RunPushes(ss, es, k - 1);
      assert es[..k][..k - 1] == es[..k - 1];
    }
  }

  /** In every run: at most what was sent is on the wire, in order, and what is missing is queued. */
  lemma WireIsInOrder(ss: seq<State>, es: seq<Event>, k: nat)
    requires IsRun(ss, es) && k < |ss|
    ensures ss[k].wire + Unsent(ss[k].pending) == PushedBy(es[..k])
    ensures ss[k].inFlight <= Unsent(ss[k].pending)
  {
    EveryRunKeepsOrder(ss, es, k);
    RunPushes(ss, es, k);
  }

  /** With no trySend left to run and nothing in flight, everything has been sent. */
  lemma QuietMeansSent(ss: seq<State>, es: seq<Event>, k: nat)
    requires IsRun(ss, es) && k < |ss|
    requires Owed(es[..k]) == 0 && ss[k].outstanding == 0
    ensures ss[k].pending == [] && ss[k].wire == PushedBy(es[..k])
  {
    EveryRunKeepsOrder(ss, es, k);
    RunPushes(ss, es, k);
  }

  /** A trySend submits all that is unsent if nothing is in flight, and otherwise waits for the completion; a
      completion puts exactly the bytes it reports on the wire. */
  lemma SendsEverything(ss: seq<State>, es: seq<Event>, k: nat)
    requires IsRun(ss, es) && k < |es|
    ensures es[k] == TrySend ==>
              ss[k + 1].inFlight == (if ss[k].outstanding > 0 then ss[k].inFlight else Unsent(ss[k].pending))
    ensures es[k] == TrySend ==> (ss[k + 1].outstanding == 0 <==> ss[k].outstanding == 0 && ss[k].pending == [])
    ensures es[k].Complete? ==> es[k].n <= |ss[k].inFlight| && ss[k + 1].outstanding == 0
                                && ss[k + 1].wire == ss[k].wire + ss[k].inFlight[..es[k].n]
  {
    EveryRunKeepsOrder(ss, es, k);
  }

  // ---------------------------------------------------------------------------------------------
  // Empty messages.

  ghost predicate AllEmpty(q: seq<Pending>) {
    forall i :: 0 <= i < |q| ==> q[i].msg == []
  }

  lemma {:induction false} NothingUnsent(q: seq<Pending>)
    requires WellFormed(q)
    ensures Unsent(q) == [] <==> AllEmpty(q)
  {
    if q != [] {
      assert WellFormed(q[1..]);
      NothingUnsent(q[1..]);
      assert AllEmpty(q) <==> q[0].msg == [] && AllEmpty(q[1..]) by {
        assert forall i :: 0 < i < |q| ==> q[i] == q[1..][i - 1];
      }
    }
  }

  /** A completion that covers everything empties the queue exactly when the last message is not an
      empty string: what remains are the empty messages at its end. */
  lemma {:induction false} FullCompletionEmptiesIff(q: seq<Pending>)
    requires WellFormed(q)
    ensures var r := Acknowledge(q, |Unsent(q)|);
            AllEmpty(r) && (r == [] <==> q == [] || q[|q| - 1].msg != [])
    decreases |q|
  {
    if |Unsent(q)| == 0 {
      NothingUnsent(q);
    } else {
      assert WellFormed(q[1..]);
      FullCompletionEmptiesIff(q[1..]);
      if q[1..] != [] {
        assert q[1..][|q| - 2] == q[|q| - 1];
      }
    }
  }

  /** A queue of empty messages only is sent again and again: the zero-byte completion and the
      trySend after it lead back to the same queue with a zero-byte send in flight. */
  lemma ZeroByteSendsRepeat(s: State)
    requires Inv(s) && s.sending && s.pending != [] && AllEmpty(s.pending)
    ensures Enabled(s, Complete(0))
    ensures var t := Step(s, Complete(0));
            && Inv(t) && Enabled(t, TrySend)
            && Step(t, TrySend) == s
  {
    NothingUnsent(s.pending);
    StepKeeps(s, Complete(0));
  }

  // ---------------------------------------------------------------------------------------------
  // The object.

  class Sender {
    var pendingSendMsg: seq<Pending>
    var bSending: bool
    var buffers: seq<seq<Byte>>
    ghost var tickets: nat
    ghost var pushed: seq<Byte>
    ghost var wire: seq<Byte>

    ghost function View(): State
      reads this
    {
      State(pendingSendMsg, bSending, if bSending then Flatten(buffers) else [], if bSending then 1 else 0,
            tickets, pushed, wire)
    }

    constructor ()
      ensures View() == Init() && Inv(View())
    {
      pendingSendMsg, bSending, buffers := [], false, [];
      tickets, pushed, wire := 0, [], [];
    }

    /** The locked part of send; the trySend that follows it is a separate critical section. */
    method PushBack(msg: seq<Byte>)
      requires Inv(View())
      modifies this
      ensures Inv(View()) && View() == Step(old(View()), Push(msg))
    {
      StepKeeps(View(), Push(msg));
      pendingSendMsg := pendingSendMsg + [PendingMsg(0, msg)];
      tickets, pushed := tickets + 1, pushed + msg;
    }

    method TrySendNow()
      requires Inv(View()) && tickets > 0
      modifies this
      ensures Inv(View()) && View() == Step(old(View()), TrySend)
    {
      StepKeeps(View(), TrySend);
      tickets := tickets - 1;
      if bSending || pendingSendMsg == [] {
        return;
      }
      buffers := seq(|pendingSendMsg|, _ => []);
      var i := 0;
      while i != |pendingSendMsg|
        invariant i <= |pendingSendMsg| == |buffers|
        invariant unchanged(this`pendingSendMsg, this`bSending, this`pushed, this`wire) && tickets == old(tickets) - 1
        invariant forall k :: 0 <= k < i ==> buffers[k] == pendingSendMsg[k].msg[pendingSendMsg[k].sendPos..]
        decreases |pendingSendMsg| - i
      {
        var m := pendingSendMsg[i];
        buffers := buffers[i := m.msg[m.sendPos..]];
        i := i + 1;
      }
      GatherIsUnsent(buffers, pendingSendMsg);
      bSending := true;
    }

    /** The locked part of onSendCompleted. On an error nothing is acknowledged and nothing retried. */
    method OnSendCompleted(error: bool, bytesTransferred: nat)
      requires Inv(View()) && bSending
      requires bytesTransferred <= |View().inFlight|
      modifies this
      ensures !error ==> Inv(View()) && View() == Step(old(View()), Complete(bytesTransferred))
      ensures error ==> !bSending && pendingSendMsg == old(pendingSendMsg) && tickets == old(tickets)
                        && pushed == old(pushed) && wire == old(wire)
    {
      ghost var s := View();
      bSending := false;
      if error {
        return;
      }
      StepKeeps(s, Complete(bytesTransferred));
      wire := wire + s.inFlight[..bytesTransferred];
      tickets := tickets + 1;
      AdjustSendBuffer(bytesTransferred);
    }

    method AdjustSendBuffer(bytesTransferred: nat)
      requires WellFormed(pendingSendMsg) && bytesTransferred <= |Unsent(pendingSendMsg)|
      modifies this`pendingSendMsg
      ensures pendingSendMsg == Acknowledge(old(pendingSendMsg), bytesTransferred)
    {
      var left: nat := bytesTransferred;
      while left != 0
        invariant WellFormed(pendingSendMsg) && left <= |Unsent(pendingSendMsg)|
        invariant Acknowledge(old(pendingSendMsg), bytesTransferred) == Acknowledge(pendingSendMsg, left)
        decreases left + |pendingSendMsg|
      {
        var front: Pending := pendingSendMsg[0];
        var len := if left < |front.msg| - front.sendPos then left else |front.msg| - front.sendPos;
        front := front.(sendPos := front.sendPos + len);
        AcknowledgeStep(pendingSendMsg, left);
        pendingSendMsg := pendingSendMsg[0 := front];
        left := left - len;
        if front.sendPos == |front.msg| {
          pendingSendMsg := pendingSendMsg[1..];
        }
      }
    }
  }

  lemma AcknowledgeStep(q: seq<Pending>, n: nat)
    requires WellFormed(q) && 0 < n <= |Unsent(q)|
    ensures q != []
    ensures var room := |q[0].msg| - q[0].sendPos;
            if n < room then
              var r := q[0 := q[0].(sendPos := q[0].sendPos + n)];
              Acknowledge(q, n) == r && WellFormed(r)
            else
              WellFormed(q[1..]) && n - room <= |Unsent(q[1..])| && Acknowledge(q, n) == Acknowledge(q[1..], n - room)
  {
    if n < |q[0].msg| - q[0].sendPos {
      assert Acknowledge(q, n) == q[0 := q[0].(sendPos := q[0].sendPos + n)];
    }
  }

  lemma {:induction false} GatherIsUnsent(bs: seq<seq<Byte>>, q: seq<Pending>)
    requires |bs| == |q|
    requires forall k :: 0 <= k < |q| ==> bs[k] == q[k].msg[q[k].sendPos..]
    ensures Flatten(bs) == Unsent(q)
  {
    if q != [] {
      GatherIsUnsent(bs[1..], q[1..]);
    }
  }
}
