/** The write coroutine of a session: it parks on a timer that never expires while its queue is empty
    and is woken by a cancel. Steps are serialised on the session's executor; runs are before `stop`. */
module SessionWriter {
  import opened Prelude
  import opened Bytes

  /** Where the coroutine is: spawned but not yet run, parked on the timer (and possibly already
      cancelled, with its resumption queued), or writing the front message. */
  datatype Pc = Spawned | Parked(notified: bool) | Writing(sent: nat)

  /** `delivered` and `wire` are history: all bytes queued, all bytes the socket has accepted. */
  datatype State = State(queue: seq<seq<Byte>>, pc: Pc, delivered: seq<Byte>, wire: seq<Byte>)

  /** A posted deliver, the coroutine being resumed, or progress of the write in flight. */
  datatype Event = Deliver(msg: seq<Byte>) | Resume | Transfer(n: nat)

  function Init(): State { State([], Spawned, [], []) }

  /** The coroutine's loop head: park if there is nothing to write, else start on the front message. */
  function LoopHead(queue: seq<seq<Byte>>): Pc { if queue == [] then Parked(false) else Writing(0) }

  predicate Enabled(s: State, e: Event) {
    match e
    case Deliver(_) => true
    case Resume => s.pc == Spawned || s.pc == Parked(true)
    case Transfer(n) => s.pc.Writing? && s.queue != [] && s.pc.sent + n <= |s.queue[0]|
  }

  function Step(s: State, e: Event): State
    requires Enabled(s, e)
  {
    match e
    case Deliver(msg) =>
      s.(queue := s.queue + [msg], pc := if s.pc == Parked(false) then Parked(true) else s.pc,
         delivered := s.delivered + msg)
    case Resume => s.(pc := LoopHead(s.queue))
    case Transfer(n) =>
      var front := s.queue[0];
      var sent := s.pc.sent + n;
      var wire := s.wire + front[s.pc.sent..sent];
      if sent < |front| then s.(pc := Writing(sent), wire := wire)
      else s.(queue := s.queue[1..], pc := LoopHead(s.queue[1..]), wire := wire)
  }

  function Unsent(s: State): seq<Byte> {
    if s.pc.Writing? && s.queue != [] && s.pc.sent <= |s.queue[0]|
    then s.queue[0][s.pc.sent..] + Flatten(s.queue[1..])
    else Flatten(s.queue)
  }

  ghost predicate Inv(s: State) {
    && (s.pc.Writing? ==> s.queue != [] && s.pc.sent <= |s.queue[0]|)
    && (s.pc == Parked(false) ==> s.queue == [])
    && s.wire + Unsent(s) == s.delivered
  }

  lemma {:induction false} StepKeeps(s: State, e: Event)
    requires Inv(s) && Enabled(s, e)
    ensures Inv(Step(s, e))
  {
    match e
    case Deliver(msg) => DeliverKeeps(s, msg);
    case Resume => AtHead(Step(s, e));
    case Transfer(n) => TransferKeeps(s, n);
  }

  lemma {:induction false} DeliverKeeps(s: State, msg: seq<Byte>)
    requires Inv(s)
    ensures Inv(Step(s, Deliver(msg)))
  {
    hide Flatten;
    FlattenMore(s.queue, msg);
    if s.pc.Writing? {
      assert (s.queue + [msg])[1..] == s.queue[1..] + [msg] && (s.queue + [msg])[0] == s.queue[0];
      FlattenMore(s.queue[1..], msg);
      Assoc(s.queue[0][s.pc.sent..], Flatten(s.queue[1..]), msg);
    }
    Assoc(s.wire, Unsent(s), msg);
  }

  lemma {:induction false} TransferKeeps(s: State, n: nat)
    requires Inv(s) && Enabled(s, Transfer(n))
    ensures Inv(Step(s, Transfer(n)))
  {
    hide Flatten;
    var front, later := s.queue[0], Flatten(s.queue[1..]);
    var sent, t := s.pc.sent + n, Step(s, Transfer(n));
    Moved(s.wire, front, s.pc.sent, sent, later);
    assert Unsent(s) == front[s.pc.sent..] + later;
    if sent < |front| {
      assert Unsent(t) == front[sent..] + later;
    } else {
      AtHead(t);
    }
    hide Unsent;
  }

  /** Bytes `a` to `b` of the front message pass from the queue to the wire. */
  lemma Moved(wire: seq<Byte>, front: seq<Byte>, a: nat, b: nat, later: seq<Byte>)
    requires a <= b <= |front|
    ensures wire + (front[a..] + later) == wire + front[a..b] + (front[b..] + later)
    ensures b == |front| ==> front[b..] + later == later
  {
  }

  lemma AtHead(s: State)
    requires s.pc == LoopHead(s.queue)
    ensures Unsent(s) == Flatten(s.queue)
  {
    if s.queue != [] {
      assert s.queue[0][0..] == s.queue[0];
    }
  }

  ghost predicate Possible(s: State, es: seq<Event>)
    decreases |es|
  {
    es != [] ==> Enabled(s, es[0]) && Possible(Step(s, es[0]), es[1..])
  }

  ghost function Run(s: State, es: seq<Event>): State
    requires Possible(s, es)
    decreases |es|
  {
    if es == [] then s else Run(Step(s, es[0]), es[1..])
  }

  lemma {:induction false} EveryRunKeeps(s: State, es: seq<Event>)
    requires Inv(s) && Possible(s, es)
    ensures Inv(Run(s, es))
    decreases |es|
  {
    if es != [] {
      StepKeeps(s, es[0]);
      EveryRunKeeps(Step(s, es[0]), es[1..]);
    }
  }

  function DeliveredBy(es: seq<Event>): seq<Byte> {
    if es == [] then [] else (if es[0].Deliver? then es[0].msg else []) + DeliveredBy(es[1..])
  }

  lemma {:induction false} RunDelivers(s: State, es: seq<Event>)
    requires Possible(s, es)
    ensures Run(s, es).delivered == s.delivered + DeliveredBy(es)
    decreases |es|
  {
    if es != [] {
      RunDelivers(Step(s, es[0]), es[1..]);
      assert Step(s, es[0]).delivered == s.delivered + (if es[0].Deliver? then es[0].msg else []);
    }
  }

  /** In every run the bytes written followed by what is queued are all delivered messages in order,
      and a non-empty queue never waits for a parked, un-notified writer: some step is possible that
      writes on. */
  lemma WritesInOrderAndNeverSleeps(es: seq<Event>)
    requires Possible(Init(), es)
    ensures var s := Run(Init(), es);
            && s.wire + Unsent(s) == DeliveredBy(es)
            && (s.queue != [] ==> Enabled(s, Resume) || (s.pc.Writing? && s.pc.sent <= |s.queue[0]|))
            && (s.pc == Parked(false) ==> s.wire == DeliveredBy(es))
  {
    EveryRunKeeps(Init(), es);
    RunDelivers(Init(), es);
  }

  /** The same, as the object the coroutine works on. */
  class Writer {
    var sendQueue: seq<seq<Byte>>
    var stopped: bool
    var pc: Pc
    ghost var delivered: seq<Byte>
    ghost var wire: seq<Byte>

    ghost function View(): State
      reads this
    {
      State(sendQueue, pc, delivered, wire)
    }

    constructor ()
      ensures View() == Init() && Inv(View()) && !stopped
    {
      sendQueue, stopped, pc, delivered, wire := [], false, Spawned, [], [];
    }

    method DeliverMsg(msg: seq<Byte>)
      requires Inv(View())
      modifies this
      ensures Inv(View()) && stopped == old(stopped)
      ensures View() == if stopped then old(View()) else Step(old(View()), Deliver(msg))
    {
      StepKeeps(View(), Deliver(msg));
      hide Inv;
      if stopped {
        return;
      }
      sendQueue := sendQueue + [msg];
      delivered := delivered + msg;
      if pc == Parked(false) {
        pc := Parked(true);
      }
    }

    method Continue()
      requires Inv(View()) && (pc == Spawned || pc == Parked(true))
      modifies this`pc
      ensures Inv(View()) && View() == Step(old(View()), Resume)
    {
      StepKeeps(View(), Resume);
      hide Inv;
      pc := if sendQueue == [] then Parked(false) else Writing(0);
    }

    method OnTransferred(n: nat)
      requires Inv(View()) && Enabled(View(), Transfer(n))
      modifies this
      ensures Inv(View()) && stopped == old(stopped) && View() == Step(old(View()), Transfer(n))
    {
      StepKeeps(View(), Transfer(n));
      hide Inv;
      var sent := pc.sent + n;
      wire := wire + sendQueue[0][pc.sent..sent];
      pc := Writing(sent);
      if sent == |sendQueue[0]| {
        sendQueue := sendQueue[1..];
        pc := if sendQueue == [] then Parked(false) else Writing(0);
      }
    }
  }
}
