/** The heartbeat loop of a session, alone and against a peer that runs the same loop.

    Time is in milliseconds. The loop reads a clock that shows whole seconds only, and the clocks of
    two hosts need not turn over at the same instant: each end has a `phase` of its own. Ticks are on
    time and a message is written the moment it is queued. */
module Heartbeat {

  /** Interval and timeout as given to startHeartbeat, and the longest delivery time, in seconds. */
  datatype Params = Params(interval: nat, timeout: nat, delay: nat)

  datatype Verdict = TimedOut | Ping | Quiet

  /** The body of heartbeatLoop after the timer fired, on clock readings in seconds. */
  function Decide(p: Params, now: int, lastRecv: int, lastSend: int): Verdict {
    if now - lastRecv >= p.timeout then TimedOut
    else if now - lastSend >= p.interval then Ping
    else Quiet
  }

  // ---------------------------------------------------------------------------------------------
  // One end.

  datatype End = End(phase: nat, lastSend: nat, lastRecv: nat, nextTick: nat, stopped: bool)

  function Sec(x: End, t: nat): nat { (t + x.phase) / 1000 }

  function Verdicts(p: Params, x: End, now: nat): Verdict {
    Decide(p, Sec(x, now), Sec(x, x.lastRecv), Sec(x, x.lastSend))
  }

  function Ticked(p: Params, x: End, now: nat): End {
    match Verdicts(p, x, now)
    case TimedOut => x.(stopped := true)
    case Ping => x.(lastSend := now, nextTick := now + 1000 * p.interval)
    case Quiet => x.(nextTick := now + 1000 * p.interval)
  }

  /** A session created at `created` whose heartbeat starts at `started`, less than an interval later. */
  function NewEnd(p: Params, phase: nat, created: nat, started: nat): End {
    End(phase, created, created, started + 1000 * p.interval, false)
  }

  ghost predicate Started(p: Params, phase: nat, created: nat, started: nat) {
    && p.interval > 0 && p.timeout > 0 && created <= started
    && (started + phase) / 1000 - (created + phase) / 1000 < p.interval
    && started - created < 1000 * p.timeout
  }

  ghost predicate EndOk(p: Params, x: End, now: nat) {
    && x.lastSend <= now <= x.nextTick && x.lastRecv <= now
    && Sec(x, x.nextTick) < Sec(x, x.lastSend) + 2 * p.interval
    && x.nextTick - x.lastRecv < 1000 * (p.timeout + p.interval)
  }

  lemma SecShift(x: End, t: nat, k: nat)
    ensures Sec(x, t + 1000 * k) == Sec(x, t) + k
  {
  }

  lemma SecMonotone(x: End, t: nat, u: nat)
    requires t <= u
    ensures Sec(x, t) <= Sec(x, u)
  {
  }

  lemma TickKeeps(p: Params, x: End, now: nat)
    requires p.interval > 0 && EndOk(p, x, now) && now == x.nextTick
    ensures Ticked(p, x, now).stopped || EndOk(p, Ticked(p, x, now), now)
  {
    SecShift(x, now, p.interval);
    if now - x.lastRecv >= 1000 * p.timeout {
      SecShift(x, x.lastRecv, p.timeout);
      SecMonotone(x, x.lastRecv + 1000 * p.timeout, now);
    }
  }

  /** What happens at one end whose peer may do anything: time passes up to the next tick, the tick
      runs, the application sends, bytes arrive. */
  datatype Event = Advance(ms: nat) | Tick | Send | Recv

  datatype Solo = Solo(now: nat, x: End)

  predicate SoloEnabled(s: Solo, e: Event) {
    match e
    case Advance(ms) => s.x.stopped || s.now + ms <= s.x.nextTick
    case Tick => !s.x.stopped && s.now == s.x.nextTick
    case Send => !s.x.stopped
    case Recv => !s.x.stopped
  }

  function SoloStep(p: Params, s: Solo, e: Event): Solo {
    match e
    case Advance(ms) => s.(now := s.now + ms)
    case Tick => s.(x := Ticked(p, s.x, s.now))
    case Send => s.(x := s.x.(lastSend := s.now))
    case Recv => s.(x := s.x.(lastRecv := s.now))
  }

  /** The object, together with the millisecond times its clock readings stand for. */
  class Monitor {
    const params: Params
    var lastRecvTime: int
    var lastSendTime: int
    var stopped: bool
    var pings: nat
    ghost var view: Solo

    ghost predicate Valid()
      reads this
    {
      && params.interval > 0 && stopped == view.x.stopped
      && lastRecvTime == Sec(view.x, view.x.lastRecv) && lastSendTime == Sec(view.x, view.x.lastSend)
      && (stopped || EndOk(params, view.x, view.now))
    }

    /** What the clock shows now. */
    ghost function Clock(): int
      reads this
    {
      Sec(view.x, view.now)
    }

    constructor (params: Params, now: int, ghost phase: nat, ghost created: nat, ghost started: nat)
      requires Started(params, phase, created, started) && now == (created + phase) / 1000
      ensures Valid() && this.params == params && !stopped && pings == 0
      ensures view == Solo(started, NewEnd(params, phase, created, started))
    {
      this.params := params;
      lastRecvTime, lastSendTime, stopped, pings := now, now, false, 0;
      view := Solo(started, NewEnd(params, phase, created, started));
      SecShift(NewEnd(params, phase, created, started), started, params.interval);
    }

    /** Time passes, at most up to the next tick. */
    ghost method Pass(ms: nat)
      requires Valid() && SoloEnabled(view, Advance(ms))
      modifies this`view
      ensures Valid() && view == SoloStep(params, old(view), Advance(ms))
    {
      view := view.(now := view.now + ms);
    }

    method OnTimer(now: int) returns (goOn: bool)
      requires Valid() && now == Clock() && (!stopped ==> SoloEnabled(view, Tick))
      modifies this
      ensures Valid() && goOn == !stopped
      ensures view == if old(stopped) then old(view) else SoloStep(params, old(view), Tick)
      ensures var pinged := !old(stopped) && Verdicts(params, old(view.x), old(view.now)) == Ping;
              pings == old(pings) + (if pinged then 1 else 0)
    {
      if stopped {
        return false;
      }
      TickKeeps(params, view.x, view.now);
      hide EndOk;
      view := SoloStep(params, view, Tick);
      if now - lastRecvTime >= params.timeout {
        stopped := true;
        return false;
      }
      if now - lastSendTime >= params.interval {
        pings := pings + 1;
        lastSendTime := now;
      }
      goOn := true;
    }

    /** The read loop has received bytes. */
    method OnReceived(now: int)
      requires Valid() && !stopped && now == Clock()
      modifies this
      ensures Valid() && !stopped && pings == old(pings) && view == SoloStep(params, old(view), Recv)
    {
      lastRecvTime := now;
      view := SoloStep(params, view, Recv);
    }

    /** The write loop has written a message. */
    method OnSent(now: int)
      requires Valid() && !stopped && now == Clock()
      modifies this
      ensures Valid() && !stopped && pings == old(pings) && view == SoloStep(params, old(view), Send)
    {
      SecMonotone(view.x, view.x.lastSend, view.now);
      lastSendTime := now;
      view := SoloStep(params, view, Send);
    }
  }

  ghost predicate SoloRun(p: Params, ss: seq<Solo>, es: seq<Event>) {
    && |ss| == |es| + 1
    && forall i :: 0 <= i < |es| ==> SoloEnabled(ss[i], es[i]) && ss[i + 1] == SoloStep(p, ss[i], es[i])
  }

  lemma {:induction false} SoloKeeps(p: Params, ss: seq<Solo>, es: seq<Event>, k: nat)
    requires SoloRun(p, ss, es) && k < |ss|
    requires p.interval > 0 && EndOk(p, ss[0].x, ss[0].now) && !ss[0].x.stopped
    ensures ss[k].x.stopped || EndOk(p, ss[k].x, ss[k].now)
  {
    if k > 0 {
      SoloKeeps(p, ss, es, k - 1);
      var s := ss[k - 1];
      if !s.x.stopped {
        match es[k - 1]
        case Tick => TickKeeps(p, s.x, s.now);
        case Send => SecMonotone(s.x, s.x.lastSend, s.now);
        case _ =>
      }
    }
  }

  /** While a session runs it has sent something less than two intervals ago, and received something
      less than timeout plus interval ago: a silent peer is dropped by then. */
  lemma SoloBounds(p: Params, phase: nat, created: nat, started: nat, ss: seq<Solo>, es: seq<Event>, k: nat)
    requires Started(p, phase, created, started)
    requires SoloRun(p, ss, es) && k < |ss| && ss[0] == Solo(started, NewEnd(p, phase, created, started))
    ensures !ss[k].x.stopped ==>
              && ss[k].now - ss[k].x.lastSend < 2000 * p.interval
              && ss[k].now - ss[k].x.lastRecv < 1000 * (p.timeout + p.interval)
  {
    var x := ss[0].x;
    SecShift(x, started, p.interval);
    SoloKeeps(p, ss, es, k);
    if !ss[k].x.stopped {
      SecMonotone(ss[k].x, ss[k].now, ss[k].x.nextTick);
    }
  }

  /** When a run last heard something before step `k`: a read, or its creation. */
  function HeardAt(created: nat, ss: seq<Solo>, es: seq<Event>, k: nat): nat
    requires k <= |es| <= |ss|
  {
    if k == 0 then created else if es[k - 1] == Recv then ss[k - 1].now else HeardAt(created, ss, es, k - 1)
  }

  /** The clock shows a gap of `n` seconds. */
  predicate Shows(phase: nat, from: nat, to: nat, n: nat) { (to + phase) / 1000 - (from + phase) / 1000 >= n }

  /** When it last wrote something: a message, or a ping at a tick that comes a whole interval after the
      last. */
  function WroteAt(p: Params, phase: nat, created: nat, ss: seq<Solo>, es: seq<Event>, k: nat): nat
    requires k <= |es| <= |ss|
  {
    if k == 0 then created
    else
      var last := WroteAt(p, phase, created, ss, es, k - 1);
      if es[k - 1] == Send || (es[k - 1] == Tick && Shows(phase, last, ss[k - 1].now, p.interval)) then ss[k - 1].now
      else last
  }

  function TickCount(es: seq<Event>, k: nat): nat
    requires k <= |es|
  {
    if k == 0 then 0 else TickCount(es, k - 1) + (if es[k - 1] == Tick then 1 else 0)
  }

  /** The time that has passed. */
  function Elapsed(es: seq<Event>, k: nat): nat
    requires k <= |es|
  {
    if k == 0 then 0 else Elapsed(es, k - 1) + (if es[k - 1].Advance? then es[k - 1].ms else 0)
  }

  /** Step `k` is a tick at which the clock shows that nothing was heard for the timeout. */
  predicate Overdue(p: Params, phase: nat, created: nat, ss: seq<Solo>, es: seq<Event>, k: nat)
    requires k < |es| <= |ss|
  {
    es[k] == Tick && Shows(phase, HeardAt(created, ss, es, k), ss[k].now, p.timeout)
  }

  /** What a running session remembers is when it last heard and wrote something; it ticks once an interval,
      and stops exactly at the first tick at which it has heard nothing for the timeout. */
  lemma {:induction false} StopsIff(p: Params, phase: nat, created: nat, started: nat, ss: seq<Solo>, es: seq<Event>,
                                    k: nat)
    requires SoloRun(p, ss, es) && k < |ss| && ss[0] == Solo(started, NewEnd(p, phase, created, started))
    ensures ss[k].x.stopped <==> exists j :: 0 <= j < k && Overdue(p, phase, created, ss, es, j)
    ensures !ss[k].x.stopped ==>
              && ss[k].x.lastRecv == HeardAt(created, ss, es, k)
              && ss[k].x.lastSend == WroteAt(p, phase, created, ss, es, k)
              && ss[k].x.nextTick == started + 1000 * p.interval * (1 + TickCount(es, k))
    ensures ss[k].x.phase == phase && ss[k].now == started + Elapsed(es, k)
  {
    if k > 0 {
      hide SoloStep, SoloEnabled, Shows, HeardAt, WroteAt, TickCount, Elapsed;
      StopsIff(p, phase, created, started, ss, es, k - 1);
      var s, e := ss[k - 1], es[k - 1];
      assert SoloEnabled(s, e) && ss[k] == SoloStep(p, s, e);
      hide SoloRun;
      StepTells(p, s, e);
      if !s.x.stopped && ss[k].x.stopped {
        assert Overdue(p, phase, created, ss, es, k - 1);
      }
      NextTickAt(started, 1000 * p.interval, TickCount(es, k - 1));
      Unrolled(p, phase, created, ss, es, k);
    } else {
      hide SoloRun;
    }
  }

  /** What one step does to what a session remembers. */
  lemma StepTells(p: Params, s: Solo, e: Event)
    requires SoloEnabled(s, e)
    ensures var x, t := s.x, SoloStep(p, s, e).x;
            && t.phase == x.phase && (x.stopped ==> t.stopped)
            && SoloStep(p, s, e).now == s.now + (if e.Advance? then e.ms else 0)
            && (!x.stopped ==> (t.stopped <==> e == Tick && Shows(x.phase, x.lastRecv, s.now, p.timeout)))
            && (!t.stopped ==>
                  && t.lastRecv == (if e == Recv then s.now else x.lastRecv)
                  && t.lastSend == (if e == Send || (e == Tick && Shows(x.phase, x.lastSend, s.now, p.interval))
                                    then s.now else x.lastSend)
                  && t.nextTick == x.nextTick + (if e == Tick then 1000 * p.interval else 0))
  {
  }

  lemma Unrolled(p: Params, phase: nat, created: nat, ss: seq<Solo>, es: seq<Event>, k: nat)
    requires 0 < k <= |es| <= |ss|
    ensures HeardAt(created, ss, es, k) == if es[k - 1] == Recv then ss[k - 1].now else HeardAt(created, ss, es, k - 1)
    ensures var last := WroteAt(p, phase, created, ss, es, k - 1);
            WroteAt(p, phase, created, ss, es, k)
            == if es[k - 1] == Send || (es[k - 1] == Tick && Shows(phase, last, ss[k - 1].now, p.interval))
               then ss[k - 1].now else last
    ensures TickCount(es, k) == TickCount(es, k - 1) + (if es[k - 1] == Tick then 1 else 0)
    ensures Elapsed(es, k) == Elapsed(es, k - 1) + (if es[k - 1].Advance? then es[k - 1].ms else 0)
  {
  }

  lemma NextTickAt(started: nat, m: nat, n: nat)
    ensures started + m * (1 + n) + m == started + m * (1 + (n + 1))
  {
  }

  /** A session that, at each tick, heard something at least a second less than the timeout ago never stops. */
  lemma HeardOftenNeverStops(p: Params, phase: nat, created: nat, started: nat, ss: seq<Solo>, es: seq<Event>, k: nat)
    requires p.timeout > 0 && SoloRun(p, ss, es) && k < |ss|
    requires ss[0] == Solo(started, NewEnd(p, phase, created, started))
    requires forall j :: 0 <= j < k && es[j] == Tick ==>
               ss[j].now <= HeardAt(created, ss, es, j) + 1000 * (p.timeout - 1)
    ensures !ss[k].x.stopped
  {
    StopsIff(p, phase, created, started, ss, es, k);
    forall j | 0 <= j < k ensures !Overdue(p, phase, created, ss, es, j) {
      var x := NewEnd(p, phase, created, started);
      var h := HeardAt(created, ss, es, j);
      SecShift(x, h, p.timeout - 1);
      if es[j] == Tick {
        SecMonotone(x, ss[j].now, h + 1000 * (p.timeout - 1));
      }
    }
  }

  // ---------------------------------------------------------------------------------------------
  // Two ends. Messages arrive in order, each within the delivery time, and a heartbeat request is
  // answered the moment it arrives.

  /** When it was written, and whether it is a heartbeat request. */
  datatype Message = Message(at: nat, ping: bool)

  /** `base` is when the last delivered message was written, `flight` holds those under way. */
  datatype Link = Link(base: nat, flight: seq<Message>)

  datatype Side = A | B

  datatype Pair = Pair(now: nat, a: End, b: End, ab: Link, ba: Link)

  datatype PairEvent = Pass(ms: nat) | TickOf(side: Side) | SendBy(side: Side) | ArriveAt(side: Side)

  function Sent(l: Link, now: nat, ping: bool): Link { l.(flight := l.flight + [Message(now, ping)]) }

  function Arrived(l: Link): Link
    requires l.flight != []
  {
    Link(l.flight[0].at, l.flight[1..])
  }

  predicate InTime(p: Params, l: Link, t: nat) { l.flight != [] ==> t <= l.flight[0].at + 1000 * p.delay }

  predicate PairEnabled(p: Params, s: Pair, e: PairEvent) {
    match e
    case Pass(ms) =>
      && s.now + ms <= s.a.nextTick && s.now + ms <= s.b.nextTick
      && InTime(p, s.ab, s.now + ms) && InTime(p, s.ba, s.now + ms)
    case TickOf(side) => if side == A then s.now == s.a.nextTick else s.now == s.b.nextTick
    case SendBy(_) => true
    case ArriveAt(side) => if side == A then s.ba.flight != [] else s.ab.flight != []
  }

  function PairStep(p: Params, s: Pair, e: PairEvent): Pair
    requires PairEnabled(p, s, e)
  {
    match e
    case Pass(ms) => s.(now := s.now + ms)
    case TickOf(side) =>
      if side == A then
        s.(a := Ticked(p, s.a, s.now), ab := Asked(p, s.a, s.ab, s.now))
      else
        s.(b := Ticked(p, s.b, s.now), ba := Asked(p, s.b, s.ba, s.now))
    case SendBy(side) => Wrote(s, side)
    case ArriveAt(side) =>
      var l := if side == A then s.ba else s.ab;
      if l.flight[0].ping then Wrote(Heard(s, side), side) else Heard(s, side)
  }

  /** The link after a tick of the end that writes to it. */
  function Asked(p: Params, x: End, l: Link, now: nat): Link {
    if Verdicts(p, x, now) == Ping then Sent(l, now, true) else l
  }

  /** An end writes a message other than a heartbeat request. */
  function Wrote(s: Pair, side: Side): Pair {
    if side == A then s.(a := s.a.(lastSend := s.now), ab := Sent(s.ab, s.now, false))
    else s.(b := s.b.(lastSend := s.now), ba := Sent(s.ba, s.now, false))
  }

  /** An end reads a message. */
  function Heard(s: Pair, side: Side): Pair
    requires if side == A then s.ba.flight != [] else s.ab.flight != []
  {
    if side == A then s.(a := s.a.(lastRecv := s.now), ba := Arrived(s.ba))
    else s.(b := s.b.(lastRecv := s.now), ab := Arrived(s.ab))
  }

  /** The send times known to the link: of the last delivered message and of those under way. */
  function Times(l: Link): seq<nat> {
    [l.base] + seq<nat>(|l.flight|, i requires 0 <= i < |l.flight| => l.flight[i].at)
  }

  /** From sender `x` to receiver `y`. */
  ghost predicate LinkOk(p: Params, x: End, y: End, l: Link, now: nat) {
    var ts := Times(l);
    && ts[|ts| - 1] == x.lastSend
    && l.base <= y.lastRecv
    && (forall i :: 0 <= i < |ts| ==> ts[i] <= now)
    && (forall i :: 0 <= i < |l.flight| ==> now <= l.flight[i].at + 1000 * p.delay)
    && (forall i :: 0 <= i < |ts| - 1 ==> ts[i] <= ts[i + 1] && Sec(x, ts[i + 1]) < Sec(x, ts[i]) + 2 * p.interval)
  }

  ghost predicate PairOk(p: Params, s: Pair) {
    && EndOk(p, s.a, s.now) && EndOk(p, s.b, s.now) && !s.a.stopped && !s.b.stopped
    && LinkOk(p, s.a, s.b, s.ab, s.now) && LinkOk(p, s.b, s.a, s.ba, s.now)
  }

  /** The second lost when two clocks do not turn over together. */
  function Slack(pa: nat, pb: nat): nat { if pa % 1000 == pb % 1000 then 0 else 1 }

  /** Twice the interval and the delivery time fit in the timeout. */
  ghost predicate Patient(p: Params, s: Pair) {
    p.interval > 0 && 2 * p.interval + p.delay + Slack(s.a.phase, s.b.phase) <= p.timeout
  }

  /** The receiver has heard from the sender recently enough. */
  lemma HeardRecently(p: Params, x: End, y: End, l: Link, now: nat)
    requires p.interval > 0 && EndOk(p, x, now) && LinkOk(p, x, y, l, now) && y.lastRecv <= now
    requires 2 * p.interval + p.delay + Slack(x.phase, y.phase) <= p.timeout
    ensures Verdicts(p, y, now) != TimedOut
  {
    var ts := Times(l);
    assert Sec(x, now) < Sec(x, l.base) + 2 * p.interval + p.delay by {
      if l.flight == [] {
        SecMonotone(x, now, x.nextTick);
      } else {
        assert ts[0] == l.base && ts[1] == l.flight[0].at;
        SecMonotone(x, now, l.flight[0].at + 1000 * p.delay);
        SecShift(x, l.flight[0].at, p.delay);
      }
    }
    SecMonotone(y, l.base, y.lastRecv);
    ClocksAgree(x, y, l.base, now);
  }

  lemma ClocksAgree(x: End, y: End, t: nat, u: nat)
    requires t <= u
    ensures Sec(y, u) - Sec(y, t) <= Sec(x, u) - Sec(x, t) + Slack(x.phase, y.phase)
  {
    if x.phase % 1000 == y.phase % 1000 {
      var q, r, n := x.phase / 1000, y.phase / 1000, x.phase % 1000;
      assert t + x.phase == t + n + 1000 * q && u + x.phase == u + n + 1000 * q;
      assert t + y.phase == t + n + 1000 * r && u + y.phase == u + n + 1000 * r;
    }
  }

  lemma SendKeeps(p: Params, x: End, y: End, l: Link, now: nat, ping: bool)
    requires EndOk(p, x, now) && LinkOk(p, x, y, l, now)
    ensures EndOk(p, x.(lastSend := now), now)
    ensures LinkOk(p, x.(lastSend := now), y, Sent(l, now, ping), now)
  {
    var ts := Times(l);
    var us := Times(Sent(l, now, ping));
    assert us == ts + [now];
    SecMonotone(x, x.lastSend, now);
    SecMonotone(x, now, x.nextTick);
    hide Sec, Times, Sent;
    var z := x.(lastSend := now);
    assert forall t: nat :: Sec(z, t) == Sec(x, t) by { SameClock(x, z); }
    SentIs(l, now, ping);
  }

  lemma SameClock(x: End, y: End)
    requires x.phase == y.phase
    ensures forall t: nat :: Sec(x, t) == Sec(y, t)
  {
  }

  lemma SentIs(l: Link, now: nat, ping: bool)
    ensures Sent(l, now, ping) == Link(l.base, l.flight + [Message(now, ping)])
  {
  }

  lemma ArriveKeeps(p: Params, x: End, y: End, l: Link, now: nat)
    requires EndOk(p, y, now) && LinkOk(p, x, y, l, now) && l.flight != []
    ensures EndOk(p, y.(lastRecv := now), now) && y.lastRecv <= now
    ensures LinkOk(p, x, y.(lastRecv := now), Arrived(l), now)
  {
    var ts := Times(l);
    assert ts[1] == l.flight[0].at;
    assert Times(Arrived(l)) == ts[1..];
  }

  /** A tick of the receiving end `x` (receiving over `inward`, sending over `outward`). */
  lemma TickPairKeeps(p: Params, x: End, y: End, outward: Link, inward: Link, now: nat)
    requires p.interval > 0 && EndOk(p, x, now) && EndOk(p, y, now) && !x.stopped && now == x.nextTick
    requires LinkOk(p, x, y, outward, now) && LinkOk(p, y, x, inward, now)
    requires 2 * p.interval + p.delay + Slack(x.phase, y.phase) <= p.timeout
    ensures var x' := Ticked(p, x, now);
            && !x'.stopped && EndOk(p, x', now)
            && LinkOk(p, x', y, Asked(p, x, outward, now), now)
            && LinkOk(p, y, x', inward, now)
  {
    HeardRecently(p, y, x, inward, now);
    TickKeeps(p, x, now);
    SendKeeps(p, x, y, outward, now, true);
    var x' := Ticked(p, x, now);
    LinkFrame(p, x, x', y, y, outward, now);
    LinkFrame(p, x.(lastSend := now), x', y, y, Sent(outward, now, true), now);
    LinkFrame(p, y, y, x, x', inward, now);
    hide LinkOk, EndOk;
  }

  lemma LinkFrame(p: Params, x: End, x': End, y: End, y': End, l: Link, now: nat)
    ensures LinkOk(p, x, y, l, now) && x'.phase == x.phase && x'.lastSend == x.lastSend && y.lastRecv <= y'.lastRecv
        ==> LinkOk(p, x', y', l, now)
  {
  }

  lemma PairStepKeeps(p: Params, s: Pair, e: PairEvent)
    requires Patient(p, s) && PairOk(p, s) && PairEnabled(p, s, e)
    ensures PairOk(p, PairStep(p, s, e)) && Patient(p, PairStep(p, s, e))
  {
    hide LinkOk, EndOk, Sent, Verdicts, Asked, Wrote, Heard;
    match e
    case Pass(ms) =>
      PassKeeps(p, s.a, s.b, s.ab, s.now, ms);
      PassKeeps(p, s.b, s.a, s.ba, s.now, ms);
    case TickOf(side) =>
      if side == A {
        TickPairKeeps(p, s.a, s.b, s.ab, s.ba, s.now);
      } else {
        TickPairKeeps(p, s.b, s.a, s.ba, s.ab, s.now);
      }
    case SendBy(side) =>
      WroteKeeps(p, s, side);
    case ArriveAt(side) =>
      HeardKeeps(p, s, side);
      WroteKeeps(p, Heard(s, side), side);
  }

  lemma WroteKeeps(p: Params, s: Pair, side: Side)
    requires PairOk(p, s)
    ensures PairOk(p, Wrote(s, side)) && (Patient(p, s) ==> Patient(p, Wrote(s, side)))
  {
    hide LinkOk, EndOk, Sent;
    if side == A {
      SendKeeps(p, s.a, s.b, s.ab, s.now, false);
      LinkFrame(p, s.b, s.b, s.a, s.a.(lastSend := s.now), s.ba, s.now);
    } else {
      SendKeeps(p, s.b, s.a, s.ba, s.now, false);
      LinkFrame(p, s.a, s.a, s.b, s.b.(lastSend := s.now), s.ab, s.now);
    }
  }

  lemma HeardKeeps(p: Params, s: Pair, side: Side)
    requires PairOk(p, s) && if side == A then s.ba.flight != [] else s.ab.flight != []
    ensures PairOk(p, Heard(s, side)) && (Patient(p, s) ==> Patient(p, Heard(s, side)))
  {
    hide LinkOk, EndOk;
    if side == A {
      ArriveKeeps(p, s.b, s.a, s.ba, s.now);
      LinkFrame(p, s.a, s.a.(lastRecv := s.now), s.b, s.b, s.ab, s.now);
    } else {
      ArriveKeeps(p, s.a, s.b, s.ab, s.now);
      LinkFrame(p, s.b, s.b.(lastRecv := s.now), s.a, s.a, s.ba, s.now);
    }
  }

  lemma PassKeeps(p: Params, x: End, y: End, l: Link, now: nat, ms: nat)
    requires EndOk(p, x, now) && now + ms <= x.nextTick
    requires LinkOk(p, x, y, l, now) && InTime(p, l, now + ms)
    ensures EndOk(p, x, now + ms) && LinkOk(p, x, y, l, now + ms)
  {
    FlightOrdered(p, x, y, l, now);
  }

  /** What was sent later is due later. */
  lemma FlightOrdered(p: Params, x: End, y: End, l: Link, now: nat)
    requires LinkOk(p, x, y, l, now)
    ensures forall i :: 0 <= i < |l.flight| ==> l.flight[0].at <= l.flight[i].at
  {
    var i := 1;
    var ts := Times(l);
    while i < |l.flight|
      invariant 1 <= i
      invariant forall k :: 0 <= k < i && k < |l.flight| ==> l.flight[0].at <= l.flight[k].at
    {
      assert ts[i] == l.flight[i - 1].at && ts[i + 1] == l.flight[i].at;
      i := i + 1;
    }
  }

  function NewPair(p: Params, pa: nat, pb: nat, created: nat, startA: nat, startB: nat): Pair {
    Pair(created, NewEnd(p, pa, created, startA), NewEnd(p, pb, created, startB), Link(created, []), Link(created, []))
  }

  ghost predicate PairPossible(p: Params, s: Pair, es: seq<PairEvent>)
    decreases |es|
  {
    es != [] ==> PairEnabled(p, s, es[0]) && PairPossible(p, PairStep(p, s, es[0]), es[1..])
  }

  ghost function PairRun(p: Params, s: Pair, es: seq<PairEvent>): Pair
    requires PairPossible(p, s, es)
    decreases |es|
  {
    if es == [] then s else PairRun(p, PairStep(p, s, es[0]), es[1..])
  }

  lemma {:induction false} PairRunKeeps(p: Params, s: Pair, es: seq<PairEvent>)
    requires Patient(p, s) && PairOk(p, s) && PairPossible(p, s, es)
    ensures PairOk(p, PairRun(p, s, es))
    decreases |es|
  {
    if es != [] {
      PairStepKeeps(p, s, es[0]);
      PairRunKeeps(p, PairStep(p, s, es[0]), es[1..]);
    }
  }

  /** Two sessions that keep each other company never time out, when twice the interval plus the
      delivery time fits in the timeout, with a second to spare unless their clocks run in step. */
  lemma NeitherTimesOut(p: Params, pa: nat, pb: nat, created: nat, startA: nat, startB: nat, es: seq<PairEvent>)
    requires Started(p, pa, created, startA) && Started(p, pb, created, startB)
    requires Patient(p, NewPair(p, pa, pb, created, startA, startB))
    requires PairPossible(p, NewPair(p, pa, pb, created, startA, startB), es)
    ensures var s := PairRun(p, NewPair(p, pa, pb, created, startA, startB), es);
            !s.a.stopped && !s.b.stopped
  {
    var s := NewPair(p, pa, pb, created, startA, startB);
    SecShift(s.a, startA, p.interval);
    SecShift(s.b, startB, p.interval);
    PairRunKeeps(p, s, es);
  }

  lemma PairNil(p: Params, s: Pair)
    ensures PairPossible(p, s, []) && PairRun(p, s, []) == s
  {
  }

  lemma PairCons(p: Params, s: Pair, t: Pair, e: PairEvent, es: seq<PairEvent>) returns (r: seq<PairEvent>)
    requires PairEnabled(p, s, e) && t == PairStep(p, s, e) && PairPossible(p, t, es)
    ensures r == [e] + es && PairPossible(p, s, r) && PairRun(p, s, r) == PairRun(p, t, es)
  {
    r := [e] + es;
    assert r[1..] == es;
  }

  function Other(side: Side): Side { if side == A then B else A }

  function EndOf(s: Pair, side: Side): End { if side == A then s.a else s.b }

  /** An end whose clock shows that it wrote nothing for an interval, but heard something within the timeout,
      pings at its tick; the other end answers when the ping arrives, and so both have heard each other. */
  lemma {:induction false} PingIsAnswered(p: Params, s: Pair, side: Side)
    requires var x := EndOf(s, side);
             && s.now == x.nextTick && s.ab.flight == s.ba.flight == []
             && Shows(x.phase, x.lastSend, s.now, p.interval) && !Shows(x.phase, x.lastRecv, s.now, p.timeout)
    ensures var es := [TickOf(side), ArriveAt(Other(side)), ArriveAt(side)];
            && PairPossible(p, s, es)
            && var t := PairRun(p, s, es);
               && EndOf(t, side).lastSend == EndOf(t, side).lastRecv == s.now
               && EndOf(t, Other(side)).lastSend == EndOf(t, Other(side)).lastRecv == s.now
               && t.ab.flight == t.ba.flight == []
  {
    var t := PairStep(p, s, TickOf(side));
    var u := PairStep(p, t, ArriveAt(Other(side)));
    var v := PairStep(p, u, ArriveAt(side));
    hide PairPossible, PairRun;
    PairNil(p, v);
    var es := PairCons(p, u, v, ArriveAt(side), []);
    es := PairCons(p, t, u, ArriveAt(Other(side)), es);
    es := PairCons(p, s, t, TickOf(side), es);
    assert es == [TickOf(side), ArriveAt(Other(side)), ArriveAt(side)];
  }

  // ---------------------------------------------------------------------------------------------
  // The condition is exact: otherwise there are start times and a run in which an end times out.

  function Millis(p: Params): nat { 1000 * p.interval }

  /** `k` intervals. */
  function Span(p: Params, k: nat): nat { if k == 0 then 0 else Millis(p) + Span(p, k - 1) }

  /** End A wrote at `sent`, one millisecond after its ticks fall due and on the stroke of its clock's
      second; nothing it writes later reaches B before `target`, when B's clock will show a gap of the
      timeout. B has `k` ticks to go after its next one. */
  ghost predicate Starving(p: Params, s: Pair, sent: nat, target: nat, k: nat) {
    && !s.a.stopped && !s.b.stopped && s.ba.flight == []
    && sent <= s.now <= s.a.nextTick && s.now <= s.b.nextTick
    && s.b.nextTick + Span(p, k) == target
    && s.b.lastRecv == sent && (sent + s.a.phase) % 1000 == 0
    && (s.ab.flight == [] ==>
          && s.a.lastSend == sent
          && (s.a.nextTick == sent + Millis(p) - 1 || s.a.nextTick == sent + 2 * Millis(p) - 1))
    && (s.ab.flight != [] ==> target <= s.ab.flight[0].at + 1000 * p.delay)
    && target <= sent + 2 * Millis(p) - 1 + 1000 * p.delay
    && Sec(s.b, target) - Sec(s.b, sent) >= p.timeout
  }

  /** B writes and A hears it at once, so that A has no reason to give up and B none to ping. */
  lemma {:induction false} ReassureA(p: Params, s: Pair, es: seq<PairEvent>) returns (r: seq<PairEvent>)
    requires s.ba.flight == []
    requires PairPossible(p, Reassured(s), es)
    ensures PairPossible(p, s, r) && PairRun(p, s, r) == PairRun(p, Reassured(s), es)
  {
    hide PairPossible, PairRun;
    var t := PairStep(p, s, SendBy(B));
    assert t.ba.flight == [Message(s.now, false)];
    assert Arrived(t.ba) == Link(s.now, []);
    r := PairCons(p, t, Reassured(s), ArriveAt(A), es);
    r := PairCons(p, s, t, SendBy(B), r);
  }

  function Reassured(s: Pair): Pair {
    s.(a := s.a.(lastRecv := s.now), b := s.b.(lastSend := s.now), ba := Link(s.now, []))
  }

  /** A's tick: it does not time out, and does not write before two intervals have passed. */
  lemma {:induction false} StarvingTickA(p: Params, s: Pair, sent: nat, target: nat, k: nat)
    requires p.interval > 0 && p.timeout > 0
    requires Starving(p, s, sent, target, k) && s.now == s.a.nextTick < s.b.nextTick && s.a.lastRecv == s.now
    ensures Starving(p, PairStep(p, s, TickOf(A)), sent, target, k)
    ensures PairStep(p, s, TickOf(A)).a.nextTick == s.now + Millis(p)
    ensures PairStep(p, s, TickOf(A)).b.nextTick == s.b.nextTick
  {
    var m := Millis(p);
    var at := (sent + s.a.phase) / 1000;
    assert Verdicts(p, s.a, s.now) != TimedOut;
    if s.ab.flight == [] && s.now == sent + m - 1 {
      assert Sec(s.a, s.now) == at + p.interval - 1;
      assert Verdicts(p, s.a, s.now) == Quiet;
    } else if s.ab.flight == [] {
      assert Sec(s.a, s.now) == at + 2 * p.interval - 1;
      assert Verdicts(p, s.a, s.now) == Ping;
    }
  }

  /** B's tick, right after it wrote: it times out or, if it was not the last one, goes on without a ping. */
  lemma {:induction false} StarvingTickB(p: Params, s: Pair, sent: nat, target: nat, k: nat)
    requires p.interval > 0 && Starving(p, s, sent, target, k) && s.now == s.b.nextTick == s.b.lastSend
    ensures var t := PairStep(p, s, TickOf(B)); t.b.stopped || (k > 0 && Starving(p, t, sent, target, k - 1))
  {
    var t := PairStep(p, s, TickOf(B));
    SameClock(s.b, t.b);
    if k == 0 {
      assert Verdicts(p, s.b, s.now) == TimedOut;
    }
    hide Sec;
  }

  lemma {:induction false} Starve(p: Params, s: Pair, sent: nat, target: nat, k: nat) returns (es: seq<PairEvent>)
    requires p.interval > 0 && p.timeout > 0 && Starving(p, s, sent, target, k)
    ensures PairPossible(p, s, es) && PairRun(p, s, es).b.stopped
    decreases k, if s.a.nextTick < target then target - s.a.nextTick else 0
  {
    hide PairPossible, PairRun, Ticked, Asked, Verdicts, Sec;
    var t := if s.a.nextTick < s.b.nextTick then s.a.nextTick else s.b.nextTick;
    var u := s.(now := t);
    assert Starving(p, u, sent, target, k);
    var v := Reassured(u);
    assert Starving(p, v, sent, target, k) by { SameClock(u.b, v.b); SameClock(u.a, v.a); }
    var side := if s.a.nextTick < s.b.nextTick then A else B;
    var w := PairStep(p, v, TickOf(side));
    if side == A {
      StarvingTickA(p, v, sent, target, k);
      es := Starve(p, w, sent, target, k);
    } else {
      StarvingTickB(p, v, sent, target, k);
      if w.b.stopped {
        PairNil(p, w);
        es := [];
      } else {
        es := Starve(p, w, sent, target, k - 1);
      }
    }
    es := PairCons(p, v, w, TickOf(side), es);
    es := ReassureA(p, u, es);
    es := PairCons(p, s, u, Pass(t - s.now), es);
  }

  /** The delivery time as whole intervals and a remainder. */
  lemma {:induction false} SplitDelay(p: Params, d: nat) returns (r: nat, k: nat)
    requires p.interval > 0
    ensures r < p.interval && Span(p, k) == 1000 * (p.interval + d - r)
  {
    if d < p.interval {
      r, k := d, 1;
      assert Span(p, 0) == 0;
    } else {
      r, k := SplitDelay(p, d - p.interval);
      k := k + 1;
    }
  }

  lemma Quotient(t: nat, q: nat, f: nat)
    requires t == 1000 * q + f && f < 1000
    ensures t / 1000 == q && t % 1000 == f
  {
  }

  lemma SumOfRests(t: nat, u: nat)
    ensures (t + u) % 1000 == if t % 1000 + u % 1000 < 1000 then t % 1000 + u % 1000 else t % 1000 + u % 1000 - 1000
  {
    var f, q := t % 1000 + u % 1000, t / 1000 + u / 1000;
    if f < 1000 {
      Quotient(t + u, q, f);
    } else {
      Quotient(t + u, q + 1, f - 1000);
    }
  }

  /** How far B's clock moves from A's stroke of a second to the last moment before another. */
  lemma GapSeen(x: End, pa: nat, sent: nat, n: nat)
    requires (sent + pa) % 1000 == 0 && n > 0
    ensures Sec(x, sent + 1000 * n - 1) - Sec(x, sent) == n - 1 + Slack(pa, x.phase)
  {
    var t := sent + x.phase;
    var q, f := t / 1000, t % 1000;
    SumOfRests(sent, pa);
    SumOfRests(sent, x.phase);
    if f == 0 {
      Quotient(t + 1000 * n - 1, q + n - 1, 999);
    } else {
      Quotient(t + 1000 * n - 1, q + n, f - 1);
    }
  }

  /** From the moment both ends exist: A writes once, and then keeps B waiting. */
  lemma {:induction false} StarveFromStart(p: Params, pa: nat, pb: nat, c: nat, startB: nat, target: nat, k: nat)
    returns (es: seq<PairEvent>)
    requires p.interval > 0 && p.timeout > 0 && (c + 1 + pa) % 1000 == 0 && c <= startB
    requires startB + Millis(p) + Span(p, k) == target <= c + 2 * Millis(p) + 1000 * p.delay
    requires (target + pb) / 1000 - (c + 1 + pb) / 1000 >= p.timeout
    ensures PairPossible(p, NewPair(p, pa, pb, c, c, startB), es)
    ensures PairRun(p, NewPair(p, pa, pb, c, c, startB), es).b.stopped
  {
    var s := NewPair(p, pa, pb, c, c, startB);
    var s1 := s.(now := c + 1);
    var s2 := PairStep(p, s1, SendBy(A));
    var s3 := PairStep(p, s2, ArriveAt(B));
    assert s2.ab.flight == [Message(c + 1, false)];
    assert s3.ab == Link(c + 1, []);
    es := Starve(p, s3, c + 1, target, k);
    hide PairPossible, PairRun;
    es := PairCons(p, s2, s3, ArriveAt(B), es);
    es := PairCons(p, s1, s2, SendBy(A), es);
    es := PairCons(p, s, s1, Pass(1), es);
  }

  lemma {:induction false} ImpatientTimesOut(p: Params, pa: nat, pb: nat)
    returns (c: nat, startB: nat, es: seq<PairEvent>)
    requires p.interval > 0 && p.timeout > 0
    requires 2 * p.interval + p.delay + Slack(pa, pb) > p.timeout
    ensures Started(p, pa, c, c) && Started(p, pb, c, startB)
    ensures PairPossible(p, NewPair(p, pa, pb, c, c, startB), es)
    ensures PairRun(p, NewPair(p, pa, pb, c, c, startB), es).b.stopped
  {
    c := 999 - pa % 1000;
    var b := End(pb, 0, 0, 0, false);
    var r, k := SplitDelay(p, p.delay);
    if r < p.timeout {
      startB := c + 1000 * r;
      SecShift(b, c, r);
      GapSeen(b, pa, c + 1, 2 * p.interval + p.delay);
    } else {
      startB, k := c, 0;
      GapSeen(b, pa, c + 1, p.interval);
    }
    es := StarveFromStart(p, pa, pb, c, startB, startB + Millis(p) + Span(p, k), k);
  }

  ghost predicate NeverTimesOut(p: Params, pa: nat, pb: nat) {
    forall c: nat, startA: nat, startB: nat, es ::
      && Started(p, pa, c, startA) && Started(p, pb, c, startB)
      && PairPossible(p, NewPair(p, pa, pb, c, startA, startB), es)
      ==> var s := PairRun(p, NewPair(p, pa, pb, c, startA, startB), es); !s.a.stopped && !s.b.stopped
  }

  /** For each pair of clocks: no run ever times out exactly when twice the interval plus the delivery
      time, and a second more if the clocks do not turn over together, fits in the timeout. */
  lemma NeverTimesOutIff(p: Params, pa: nat, pb: nat)
    requires p.interval > 0 && p.timeout > 0
    ensures NeverTimesOut(p, pa, pb) <==> 2 * p.interval + p.delay + Slack(pa, pb) <= p.timeout
  {
    hide PairPossible, PairRun, Started;
    if 2 * p.interval + p.delay + Slack(pa, pb) <= p.timeout {
      forall c: nat, startA: nat, startB: nat, es
        | Started(p, pa, c, startA) && Started(p, pb, c, startB)
          && PairPossible(p, NewPair(p, pa, pb, c, startA, startB), es)
        ensures var s := PairRun(p, NewPair(p, pa, pb, c, startA, startB), es); !s.a.stopped && !s.b.stopped
      {
        NeitherTimesOut(p, pa, pb, c, startA, startB, es);
      }
    } else {
      var c, startB, es := ImpatientTimesOut(p, pa, pb);
      assert PairRun(p, NewPair(p, pa, pb, c, c, startB), es).b.stopped;
    }
  }

  /** With an interval of 1, a timeout of 2 and instant delivery, twice the interval plus the delivery
      time fits in the timeout, and yet clocks 0.6 s out of step can time out. */
  lemma UnevenClocksTimeOut()
    ensures NeverTimesOut(Params(1, 2, 0), 0, 1000) && !NeverTimesOut(Params(1, 2, 0), 0, 600)
  {
    NeverTimesOutIff(Params(1, 2, 0), 0, 1000);
    NeverTimesOutIff(Params(1, 2, 0), 0, 600);
    hide NeverTimesOut;
  }
}
