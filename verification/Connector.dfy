/** The reconnecting connector: numbered attempts, a completion flag per attempt that decides the
    race between connect and timeout, and capped exponential backoff.

    Handlers run one at a time on the connector's executor. The connect and timeout handlers of an
    attempt may run at any time after it was started, in any order, even after a cancel (a handler
    that is already queued runs all the same) and even repeatedly: only the completion flag and the
    attempt number protect the connector. The retry timer is kept in two stages, armed and expired,
    because only an armed one can be cancelled. An attempt's number also identifies its session. */
module Connector {
  import opened Prelude

  const INITIAL_DELAY: nat := 1
  const MAX_DELAY: nat := 30

  /** What a user callback may do to the connector before it returns. */
  datatype Reentry = Nothing | CallStop | CallConnect(eps: bool)

  /** A retry that was scheduled: how many had been before it in a row, and its delay. */
  datatype Retry = Retry(k: nat, delay: nat)

  /** `completed` holds the attempts whose flag has been raised, `hooked` the sessions with
      a disconnect handler, `dead` the sessions already stopped. `streak`, `acted` and `retries` are history:
      retries since the last success or asyncConnect, and what was done. */
  datatype State = State(auto: bool, connected: bool, session: Option<nat>, attempts: nat, delay: nat,
                         endpoints: bool, completed: set<nat>, hooked: set<nat>, dead: set<nat>,
                         retryArmed: bool, retryExpired: nat,
                         streak: nat, acted: seq<nat>, retries: seq<Retry>)

  datatype Event =
    | AsyncConnect(eps: bool)
    | Stop
    | ConnectOk(a: nat, re: Reentry)
    | ConnectFail(a: nat, re: Reentry)
    | ConnectTimeout(a: nat, re: Reentry)
    | Disconnect(a: nat, re: Reentry)
    | ExpireRetry
    | RetryFire

  function Init(): State {
    State(false, false, None, 0, INITIAL_DELAY, false, {}, {}, {}, false, 0, 0, [], [])
  }

  function StartConnect(s: State): State {
    if !s.auto || !s.endpoints then s
    else
      var a := s.attempts + 1;
      s.(connected := false, session := Some(a), attempts := a)
  }

  function Connect(s: State, eps: bool): State {
    StartConnect(s.(endpoints := eps, delay := INITIAL_DELAY, streak := 0, auto := true))
  }

  /** Connector::stop. The session is let go before it is stopped, so its handler finds nothing. */
  function StopAll(s: State): State {
    s.(auto := false, connected := false, retryArmed := false, session := None,
       dead := if s.session.Some? then s.dead + {s.session.value} else s.dead)
  }

  function Callback(s: State, re: Reentry): State {
    match re
    case Nothing => s
    case CallStop => StopAll(s)
    case CallConnect(eps) => Connect(s, eps)
  }

  function ScheduleReconnect(s: State): State {
    if !s.auto then s
    else s.(delay := if 2 * s.delay <= MAX_DELAY then 2 * s.delay else MAX_DELAY, retryArmed := true,
            streak := s.streak + 1, retries := s.retries + [Retry(s.streak, s.delay)])
  }

  function HandleFailure(s: State, re: Reentry): State {
    ScheduleReconnect(Callback(s.(connected := false, session := None), re))
  }

  function OnConnected(s: State, a: nat, re: Reentry): State {
    Callback(s.(connected := true, delay := INITIAL_DELAY, streak := 0, hooked := s.hooked + {a}), re)
  }

  /** Session::stop of one session, with the disconnect handler installed by onConnected. */
  function StopSession(s: State, a: nat, re: Reentry): State {
    if a in s.dead then s
    else
      var t := s.(dead := s.dead + {a});
      if a in s.hooked && s.session == Some(a)
      then ScheduleReconnect(Callback(t.(connected := false, session := None), re))
      else t
  }

  /** The first two tests of every completion: raise the flag, then compare attempt numbers. */
  predicate Wins(s: State, a: nat) { a !in s.completed && a == s.attempts }

  function Raise(s: State, a: nat): State {
    if Wins(s, a) then s.(completed := s.completed + {a}, acted := s.acted + [a])
    else s.(completed := s.completed + {a})
  }

  function DialCompleted(s: State, a: nat, ok: bool, re: Reentry): State {
    var t := Raise(s, a);
    if !Wins(s, a) then t
    else if ok then OnConnected(t, a, re)
    else HandleFailure(t, re)
  }

  function TimedOut(s: State, a: nat, re: Reentry): State {
    var t := Raise(s, a);
    if Wins(s, a) then HandleFailure(StopSession(t, a, Nothing), re) else t
  }

  predicate Enabled(s: State, e: Event) {
    match e
    case ConnectOk(a, _) => 1 <= a <= s.attempts
    case ConnectFail(a, _) => 1 <= a <= s.attempts
    case ConnectTimeout(a, _) => 1 <= a <= s.attempts
    case Disconnect(a, _) => 1 <= a <= s.attempts
    case ExpireRetry => s.retryArmed
    case RetryFire => s.retryExpired > 0
    case _ => true
  }

  function Step(s: State, e: Event): State
    requires Enabled(s, e)
  {
    match e
    case AsyncConnect(eps) => Connect(s, eps)
    case Stop => StopAll(s)
    case ConnectOk(a, re) => DialCompleted(s, a, true, re)
    case ConnectFail(a, re) => DialCompleted(s, a, false, re)
    case ConnectTimeout(a, re) => TimedOut(s, a, re)
    case Disconnect(a, re) => StopSession(s, a, re)
    case ExpireRetry => s.(retryArmed := false, retryExpired := s.retryExpired + 1)
    case RetryFire => StartConnect(s.(retryExpired := s.retryExpired - 1))
  }

  /** The k-th consecutive retry waits min(2^k, 30) seconds. */
  function Backoff(k: nat): nat {
    match k
    case 0 => INITIAL_DELAY
    case 1 => 2
    case 2 => 4
    case 3 => 8
    case 4 => 16
    case _ => MAX_DELAY
  }

  function Power2(k: nat): nat { if k == 0 then 1 else 2 * Power2(k - 1) }

  lemma {:induction false} BackoffIsCappedPower(k: nat)
    ensures Backoff(k) == if Power2(k) <= 30 then Power2(k) else 30
  {
    if k >= 5 {
      PowerAtLeast(k);
    } else {
      assert Power2(0) == 1 && Power2(1) == 2 && Power2(2) == 4 && Power2(3) == 8 && Power2(4) == 16;
    }
  }

  lemma {:induction false} PowerAtLeast(k: nat)
    requires k >= 5
    ensures Power2(k) >= 32
  {
    if k > 5 {
      PowerAtLeast(k - 1);
    } else {
      assert Power2(3) == 8 && Power2(4) == 16 && Power2(5) == 32;
    }
  }

  // ---------------------------------------------------------------------------------------------
  // What every step keeps.

  /** Whether the current attempt can still lead to a retry. */
  predicate Live(s: State) {
    s.attempts > 0 && (s.attempts !in s.completed || s.session == Some(s.attempts))
  }

  ghost predicate Numbered(s: State) {
    && (forall a :: a in s.completed || a in s.hooked || a in s.dead ==> 1 <= a <= s.attempts)
    && (s.session.Some? ==> s.session.value == s.attempts && s.attempts > 0 && s.auto)
  }

  ghost predicate Flags(s: State) {
    && (forall a :: a in s.hooked ==> a in s.completed)
    && (s.attempts !in s.completed ==> !s.connected)
  }

  ghost predicate Logged(s: State) {
    && (forall i :: 0 <= i < |s.acted| ==> s.acted[i] in s.completed)
    && (forall i, j :: 0 <= i < j < |s.acted| ==> s.acted[i] != s.acted[j])
    && |s.retries| + (if Live(s) then 1 else 0) <= s.attempts
    && s.delay == Backoff(s.streak)
    && (forall i :: 0 <= i < |s.retries| ==> s.retries[i].delay == Backoff(s.retries[i].k))
  }

  ghost predicate Inv(s: State) { Numbered(s) && Flags(s) && Logged(s) }

  /** One more retry can be scheduled without exceeding the number of attempts. */
  ghost predicate Spare(s: State) {
    |s.retries| + (if Live(s) then 1 else 0) < s.attempts
  }

  lemma StepKeeps(s: State, e: Event)
    requires Inv(s) && Enabled(s, e)
    ensures Inv(Step(s, e))
  {
    match e
    case AsyncConnect(eps) => ConnectKeeps(s, eps);
    case Stop => CallbackKeeps(s, CallStop);
    case ConnectOk(a, re) => DialKeeps(s, a, true, re);
    case ConnectFail(a, re) => DialKeeps(s, a, false, re);
    case ConnectTimeout(a, re) => TimeoutKeeps(s, a, re);
    case Disconnect(a, re) => StopSessionKeeps(s, a, re);
    case RetryFire =>
      assert Inv(s.(retryExpired := s.retryExpired - 1));
      StartKeeps(s.(retryExpired := s.retryExpired - 1));
    case _ =>
  }

  // ---------------------------------------------------------------------------------------------
  // Whole runs.

  ghost predicate Possible(s: State, es: seq<Event>)
    decreases |es|
  {
    es != [] ==> Enabled(s, es[0]) && Possible(Step(s, es[0]), es[1..])
  }

  ghost function Run(s: State, es: seq<Event>): State
    requires Possible(s, es)
    decreases |es|
  {
    if es == [] then s else Run(Step(s, es[0]), es[1..])
  }

  lemma {:induction false} EveryRunKeeps(s: State, es: seq<Event>)
    requires Inv(s) && Possible(s, es)
    ensures Inv(Run(s, es))
    decreases |es|
  {
    if es != [] {
      StepKeeps(s, es[0]);
      EveryRunKeeps(Step(s, es[0]), es[1..]);
    }
  }

  /** In every run each attempt's outcome is acted on at most once, no more retries are scheduled than
      attempts started, and the retry after `k` consecutive ones waits min(2^k, 30) seconds. */
  lemma OutcomesAndRetries(es: seq<Event>)
    requires Possible(Init(), es)
    ensures var s := Run(Init(), es);
            && (forall i, j :: 0 <= i < j < |s.acted| ==> s.acted[i] != s.acted[j])
            && |s.retries| <= s.attempts
            && (forall i :: 0 <= i < |s.retries| ==>
                  s.retries[i].delay == if Power2(s.retries[i].k) <= 30 then Power2(s.retries[i].k) else 30)
  {
    EveryRunKeeps(Init(), es);
    var s := Run(Init(), es);
    forall i | 0 <= i < |s.retries|
      ensures s.retries[i].delay == if Power2(s.retries[i].k) <= 30 then Power2(s.retries[i].k) else 30
    {
      BackoffIsCappedPower(s.retries[i].k);
    }
  }

  /** Whatever happens to a superseded attempt or its session, the connector's own state stays. */
  lemma SupersededIsIgnored(es: seq<Event>, e: Event)
    requires Possible(Init(), es) && Enabled(Run(Init(), es), e)
    requires e.ConnectOk? || e.ConnectFail? || e.ConnectTimeout? || e.Disconnect?
    requires e.a != Run(Init(), es).attempts
    ensures var s := Run(Init(), es);
            var t := Step(s, e);
            && t.connected == s.connected && t.session == s.session && t.attempts == s.attempts
            && t.delay == s.delay && t.retryArmed == s.retryArmed && t.auto == s.auto
            && t.acted == s.acted && t.retries == s.retries
  {
    EveryRunKeeps(Init(), es);
  }

  // ---------------------------------------------------------------------------------------------
  // How long a connection lasts.

  predicate Up(s: State) { s.connected && s.session.Some? }

  /** The event neither ends the connection of attempt `n` nor asks the connector to. */
  predicate Spares(n: nat, e: Event) {
    match e
    case AsyncConnect(_) => false
    case Stop => false
    case Disconnect(a, _) => a != n
    case _ => true
  }

  predicate AllSpare(n: nat, es: seq<Event>) { forall i :: 0 <= i < |es| ==> Spares(n, es[i]) }

  /** In `t` the connection of `s` is still there. */
  predicate StillUp(s: State, t: State) { Up(t) && t.session == s.session && t.attempts == s.attempts }

  lemma {:induction false} SparedRun(s: State, es: seq<Event>)
    requires Inv(s) && Up(s) && !(s.endpoints && (s.retryArmed || s.retryExpired > 0))
    requires Possible(s, es) && AllSpare(s.attempts, es)
    ensures StillUp(s, Run(s, es))
    decreases |es|
  {
    if es != [] {
      assert Spares(s.attempts, es[0]);
      SparedStep(s, es[0]);
      StepKeeps(s, es[0]);
      SparedRun(Step(s, es[0]), es[1..]);
    }
  }

  /** The events that bring a retry left over from before to its handler. */
  function Leftover(s: State): seq<Event> {
    if s.retryExpired > 0 then [RetryFire] else [ExpireRetry, RetryFire]
  }

  /** A retry left over from before replaces the connection. */
  lemma {:induction false} LeftoverRetry(s: State)
    requires Inv(s) && Up(s) && s.endpoints && (s.retryArmed || s.retryExpired > 0)
    ensures Possible(s, Leftover(s)) && AllSpare(s.attempts, Leftover(s))
    ensures !Run(s, Leftover(s)).connected && Run(s, Leftover(s)).attempts == s.attempts + 1
  {
    var t := if s.retryExpired > 0 then s else Step(s, ExpireRetry);
    assert Possible(Step(t, RetryFire), []) && Run(Step(t, RetryFire), []) == Step(t, RetryFire);
    RunCons(t, RetryFire, []);
    assert [RetryFire] + [] == [RetryFire];
    if s.retryExpired == 0 {
      RunCons(s, ExpireRetry, [RetryFire]);
      assert [ExpireRetry] + [RetryFire] == [ExpireRetry, RetryFire];
    }
  }

  /** In every run, a connection that is up lasts until its session disconnects or the user calls stop
      or asyncConnect, exactly when no retry is armed or expired, or there is nowhere to retry. */
  lemma ConnectionLastsIff(es: seq<Event>)
    requires Possible(Init(), es) && Up(Run(Init(), es))
    ensures var s := Run(Init(), es);
            (forall more :: Possible(s, more) && AllSpare(s.attempts, more) ==> StillUp(s, Run(s, more)))
            <==> !(s.endpoints && (s.retryArmed || s.retryExpired > 0))
  {
    EveryRunKeeps(Init(), es);
    var s := Run(Init(), es);
    if s.endpoints && (s.retryArmed || s.retryExpired > 0) {
      LeftoverRetry(s);
      assert !StillUp(s, Run(s, Leftover(s)));
    } else {
      forall more | Possible(s, more) && AllSpare(s.attempts, more) ensures StillUp(s, Run(s, more)) {
        SparedRun(s, more);
      }
    }
  }

  /** A disconnect callback that calls asyncConnect: the new attempt connects, and then the retry
      scheduled after the callback starts another attempt over the live connection. */
  lemma {:induction false} RetryReplacesConnection()
    ensures var es := [AsyncConnect(true), ConnectOk(1, Nothing),
                       Disconnect(1, CallConnect(true)), ConnectOk(2, Nothing)];
            && Possible(Init(), es) && Up(Run(Init(), es))
            && Run(Init(), es).endpoints && Run(Init(), es).retryArmed
  {
    var e1, e2 := AsyncConnect(true), ConnectOk(1, Nothing);
    var e3, e4 := Disconnect(1, CallConnect(true)), ConnectOk(2, Nothing);
    var s1 := Step(Init(), e1);
    var s2 := Step(s1, e2);
    var s3 := Step(s2, e3);
    var s4 := Step(s3, e4);
    assert s4.connected && s4.session == Some(2) && s4.retryArmed && s4.endpoints;
    hide Step, Enabled;
    assert Possible(s4, []) && Run(s4, []) == s4;
    RunCons(s3, e4, []);
    RunCons(s2, e3, [e4]);
    RunCons(s1, e2, [e3, e4]);
    RunCons(Init(), e1, [e2, e3, e4]);
  }

  // ---------------------------------------------------------------------------------------------
  // After stop.

  predicate Asks(re: Reentry) { re.CallConnect? }

  /** No event of the run calls asyncConnect, directly or from a callback. */
  predicate NoRequest(es: seq<Event>) {
    forall i :: 0 <= i < |es| ==>
      match es[i]
      case AsyncConnect(_) => false
      case ConnectOk(_, re) => !Asks(re)
      case ConnectFail(_, re) => !Asks(re)
      case ConnectTimeout(_, re) => !Asks(re)
      case Disconnect(_, re) => !Asks(re)
      case _ => true
  }

  /** Once stopped, nothing starts an attempt or arms a retry until asyncConnect is called. */
  lemma {:induction false} StoppedStartsNothing(s: State, es: seq<Event>)
    requires Inv(s) && Possible(s, es) && NoRequest(es)
    requires !s.auto && !s.retryArmed
    ensures Idle(s, Run(s, es))
    decreases |es|
  {
    if es != [] {
      var t := Step(s, es[0]);
      StepKeeps(s, es[0]);
      assert NoRequest([es[0]]) by { assert es[0] == [es[0]][0]; }
      StoppedStep(s, es[0]);
      assert NoRequest(es[1..]);
      StoppedStartsNothing(t, es[1..]);
    }
  }

  /** What a stopped connector keeps. */
  ghost predicate Idle(s: State, t: State) {
    !t.auto && t.attempts == s.attempts && !t.retryArmed && |t.retries| == |s.retries|
  }

  /** A stop is final for `connected_` when no connect was pending at that moment. */
  lemma {:induction false} NothingPendingStaysDown(s: State, es: seq<Event>)
    requires Inv(s) && Possible(s, es) && NoRequest(es)
    requires !s.auto && !s.retryArmed && !s.connected
    requires s.attempts == 0 || s.attempts in s.completed
    ensures !Run(s, es).connected
    decreases |es|
  {
    if es != [] {
      var e := es[0];
      StepKeeps(s, e);
      assert NoRequest([e]) by { assert e == [e][0]; }
      StoppedStep(s, e);
      DownStep(s, e);
      assert NoRequest(es[1..]);
      NothingPendingStaysDown(Step(s, e), es[1..]);
    }
  }

  /** After `stop`, some continuation without asyncConnect leaves the connector reporting a connection
      it has no session for, exactly when a connect was still pending when `stop` was called: its
      success may already be queued, and nothing tells its handler that the connector was stopped. */
  lemma StopIsFinalIff(es: seq<Event>)
    requires Possible(Init(), es)
    ensures var s := StopAll(Run(Init(), es));
            (exists more :: Possible(s, more) && NoRequest(more) && Run(s, more).connected)
            <==> (s.attempts > 0 && s.attempts !in s.completed)
  {
    EveryRunKeeps(Init(), es);
    var r := Run(Init(), es);
    var s := StopAll(r);
    StepKeeps(r, Stop);
    if s.attempts > 0 && s.attempts !in s.completed {
      var late := [ConnectOk(s.attempts, Nothing)];
      assert late[1..] == [];
      assert Possible(Step(s, late[0]), late[1..]);
      assert Possible(s, late) && NoRequest(late);
      assert Run(Step(s, late[0]), late[1..]) == Step(s, late[0]);
      assert Run(s, late).connected && Run(s, late).session == None;
    } else {
      forall more | Possible(s, more) && NoRequest(more) ensures !Run(s, more).connected {
        NothingPendingStaysDown(s, more);
      }
    }
  }

  // ---------------------------------------------------------------------------------------------
  // The steps one by one.

  lemma StartKeeps(s: State)
    requires Inv(s)
    ensures Inv(StartConnect(s))
  {
  }

  lemma ConnectKeeps(s: State, eps: bool)
    requires Inv(s)
    ensures Inv(Connect(s, eps))
  {
    StartKeeps(s.(endpoints := eps, delay := INITIAL_DELAY, streak := 0, auto := true));
  }

  lemma CallbackKeeps(s: State, re: Reentry)
    requires Inv(s)
    ensures Inv(Callback(s, re))
    ensures Spare(s) ==> Spare(Callback(s, re))
  {
    match re
    case CallConnect(eps) => ConnectKeeps(s, eps);
    case _ =>
  }

  lemma ScheduleKeeps(s: State)
    requires Inv(s) && Spare(s)
    ensures Inv(ScheduleReconnect(s))
  {
    BackoffStep(s.streak);
  }

  lemma BackoffStep(k: nat)
    ensures Backoff(k + 1) == if 2 * Backoff(k) <= MAX_DELAY then 2 * Backoff(k) else MAX_DELAY
  {
  }

  /** Letting go of a concluded attempt leaves room for its retry. */
  lemma FailureKeeps(s: State, re: Reentry)
    requires Inv(s) && Live(s) && s.attempts in s.completed
    ensures Inv(HandleFailure(s, re))
  {
    var t := s.(connected := false, session := None);
    assert Inv(t) && Spare(t);
    CallbackKeeps(t, re);
    ScheduleKeeps(Callback(t, re));
  }

  lemma RaiseKeeps(s: State, a: nat)
    requires Inv(s) && 1 <= a <= s.attempts
    ensures Inv(Raise(s, a))
  {
    RaiseFlags(s, a);
    RaiseLogged(s, a);
  }

  lemma RaiseFlags(s: State, a: nat)
    requires Numbered(s) && Flags(s) && 1 <= a <= s.attempts
    ensures Numbered(Raise(s, a)) && Flags(Raise(s, a))
  {
  }

  lemma RaiseLogged(s: State, a: nat)
    requires Logged(s)
    ensures Logged(Raise(s, a))
  {
    var t := Raise(s, a);
    hide Backoff;
    assert Live(t) ==> Live(s);
  }

  lemma OnConnectedKeeps(s: State, a: nat, re: Reentry)
    requires Inv(s) && a == s.attempts && a in s.completed
    requires |s.retries| < s.attempts
    ensures Inv(OnConnected(s, a, re))
  {
    var t := s.(connected := true, delay := INITIAL_DELAY, streak := 0, hooked := s.hooked + {a});
    assert Inv(t);
    CallbackKeeps(t, re);
  }

  lemma StopSessionKeeps(s: State, a: nat, re: Reentry)
    requires Inv(s) && 1 <= a <= s.attempts
    ensures Inv(StopSession(s, a, re))
  {
    if a !in s.dead {
      var t := s.(dead := s.dead + {a});
      assert Inv(t);
      if a in s.hooked && s.session == Some(a) {
        FailureKeeps(t, re);
      }
    }
  }

  lemma DialKeeps(s: State, a: nat, ok: bool, re: Reentry)
    requires Inv(s) && 1 <= a <= s.attempts
    ensures Inv(DialCompleted(s, a, ok, re))
  {
    var t := Raise(s, a);
    RaiseKeeps(s, a);
    if Wins(s, a) {
      assert |t.retries| < t.attempts && a in t.completed;
      hide Inv, OnConnected, HandleFailure;
      OnConnectedKeeps(t, a, re);
      LostKeeps(t, re);
    }
  }

  /** A failed attempt is concluded whether or not its session is still the current one. */
  lemma LostKeeps(s: State, re: Reentry)
    requires Inv(s) && s.attempts in s.completed && |s.retries| < s.attempts
    ensures Inv(HandleFailure(s, re))
  {
    var t := s.(connected := false, session := None);
    assert Inv(t) && Spare(t);
    CallbackKeeps(t, re);
    ScheduleKeeps(Callback(t, re));
  }

  lemma TimeoutKeeps(s: State, a: nat, re: Reentry)
    requires Inv(s) && 1 <= a <= s.attempts
    ensures Inv(TimedOut(s, a, re))
  {
    RaiseKeeps(s, a);
    var t := Raise(s, a);
    if Wins(s, a) {
      assert a !in t.hooked && |t.retries| < t.attempts;
      hide Inv, HandleFailure;
      StopSessionKeeps(t, a, Nothing);
      LostKeeps(StopSession(t, a, Nothing), re);
    }
  }

  lemma SparedStep(s: State, e: Event)
    requires Inv(s) && Up(s) && !(s.endpoints && (s.retryArmed || s.retryExpired > 0))
    requires Enabled(s, e) && Spares(s.attempts, e)
    ensures var t := Step(s, e); StillUp(s, t) && !(t.endpoints && (t.retryArmed || t.retryExpired > 0))
  {
  }

  lemma RunCons(s: State, e: Event, es: seq<Event>)
    requires Enabled(s, e) && Possible(Step(s, e), es)
    ensures Possible(s, [e] + es) && Run(s, [e] + es) == Run(Step(s, e), es)
  {
    assert ([e] + es)[1..] == es;
  }

  /** A timeout step by step. */
  lemma TimeoutSteps(s: State, a: nat, re: Reentry)
    requires 1 <= a <= s.attempts
    ensures var t := Raise(s, a);
            && t.attempts == s.attempts
            && Step(t, Disconnect(a, Nothing)) == StopSession(t, a, Nothing)
            && Step(s, ConnectTimeout(a, re))
               == (if Wins(s, a) then HandleFailure(StopSession(t, a, Nothing), re) else t)
  {
    hide HandleFailure, StopSession;
  }

  lemma DownStep(s: State, e: Event)
    requires Inv(s) && Enabled(s, e) && NoRequest([e])
    requires !s.auto && !s.connected && (s.attempts == 0 || s.attempts in s.completed)
    ensures var t := Step(s, e); !t.connected && (t.attempts == 0 || t.attempts in t.completed)
  {
    assert e == [e][0];
  }

  lemma StoppedFailure(s: State, t: State, re: Reentry)
    requires Idle(s, t) && !Asks(re)
    ensures Idle(s, HandleFailure(t, re))
  {
  }

  lemma StoppedDial(s: State, a: nat, ok: bool, re: Reentry)
    requires !s.auto && !s.retryArmed && !Asks(re)
    ensures Idle(s, DialCompleted(s, a, ok, re))
  {
    hide HandleFailure;
    StoppedFailure(s, Raise(s, a), re);
  }

  lemma StoppedTimeout(s: State, a: nat, re: Reentry)
    requires !s.auto && !s.retryArmed && !Asks(re)
    ensures Idle(s, TimedOut(s, a, re))
  {
    hide HandleFailure;
    StoppedFailure(s, StopSession(Raise(s, a), a, Nothing), re);
  }

  lemma StoppedStep(s: State, e: Event)
    requires Enabled(s, e) && NoRequest([e])
    requires !s.auto && !s.retryArmed
    ensures Idle(s, Step(s, e))
  {
    assert e == [e][0];
    hide DialCompleted, TimedOut;
    match e
    case ConnectOk(a, re) => StoppedDial(s, a, true, re);
    case ConnectFail(a, re) => StoppedDial(s, a, false, re);
    case ConnectTimeout(a, re) => StoppedTimeout(s, a, re);
    case _ =>
  }

  // ---------------------------------------------------------------------------------------------
  // The object. The sets stand for flags and handlers kept by the attempts' closures and sessions.

  class Client {
    var autoReconnect: bool
    var connected: bool
    var session: Option<nat>
    var connectAttempt: nat
    var retryDelay: nat
    var hasEndpoints: bool
    var completed: set<nat>
    var hooked: set<nat>
    var dead: set<nat>
    var retryArmed: bool
    var retryExpired: nat
    ghost var streak: nat
    ghost var acted: seq<nat>
    ghost var retries: seq<Retry>

    ghost function View(): State
      reads this
    {
      State(autoReconnect, connected, session, connectAttempt, retryDelay, hasEndpoints,
            completed, hooked, dead, retryArmed, retryExpired, streak, acted, retries)
    }

    constructor ()
      ensures View() == Init() && Inv(View())
    {
      autoReconnect, connected, session, connectAttempt, retryDelay := false, false, None, 0, INITIAL_DELAY;
      hasEndpoints, completed, hooked, dead := false, {}, {}, {};
      retryArmed, retryExpired := false, 0;
      streak, acted, retries := 0, [], [];
    }

    method StartConnecting()
      modifies this
      ensures View() == StartConnect(old(View()))
    {
      if !autoReconnect || !hasEndpoints {
        return;
      }
      connected := false;
      connectAttempt := connectAttempt + 1;
      var attempt := connectAttempt;
      session := Some(attempt);
    }

    method AsyncConnectTo(eps: bool)
      modifies this
      ensures View() == Step(old(View()), AsyncConnect(eps))
      ensures old(Inv(View())) ==> Inv(View())
    {
      if Inv(View()) {
        StepKeeps(View(), AsyncConnect(eps));
      }
      hide Inv;
      hasEndpoints := eps;
      retryDelay, streak := INITIAL_DELAY, 0;
      autoReconnect := true;
      StartConnecting();
    }

    method StopNow()
      modifies this
      ensures View() == Step(old(View()), Stop)
      ensures old(Inv(View())) ==> Inv(View())
    {
      if Inv(View()) {
        StepKeeps(View(), Stop);
      }
      hide Inv;
      autoReconnect := false;
      connected := false;
      retryArmed := false;
      var moved := session;
      session := None;
      if moved.Some? {
        dead := dead + {moved.value};
      }
    }

    method UserCallback(re: Reentry)
      modifies this
      ensures View() == Callback(old(View()), re)
    {
      match re {
        case Nothing =>
        case CallStop => StopNow();
        case CallConnect(eps) => AsyncConnectTo(eps);
      }
    }

    method Reschedule()
      modifies this
      ensures View() == ScheduleReconnect(old(View()))
    {
      if !autoReconnect {
        return;
      }
      var delay := retryDelay;
      retryDelay := if 2 * retryDelay <= MAX_DELAY then 2 * retryDelay else MAX_DELAY;
      retries := retries + [Retry(streak, delay)];
      streak := streak + 1;
      retryArmed := true;
    }

    method HandleConnectFailure(re: Reentry)
      modifies this
      ensures View() == HandleFailure(old(View()), re)
    {
      connected := false;
      session := None;
      UserCallback(re);
      Reschedule();
    }

    /** completed->exchange(true) and the comparison with the current attempt. */
    method TestAndRaise(a: nat) returns (wins: bool)
      modifies this`completed, this`acted
      ensures View() == Raise(old(View()), a) && wins == Wins(old(View()), a)
    {
      var raised := a in completed;
      completed := completed + {a};
      if raised || a != connectAttempt {
        return false;
      }
      acted := acted + [a];
      wins := true;
    }

    /** The connect handler of attempt `a`. */
    method OnDialCompleted(a: nat, ok: bool, re: Reentry)
      requires Inv(View()) && 1 <= a <= connectAttempt
      modifies this
      ensures Inv(View())
      ensures View() == Step(old(View()), if ok then ConnectOk(a, re) else ConnectFail(a, re))
    {
      StepKeeps(View(), if ok then ConnectOk(a, re) else ConnectFail(a, re));
      hide Inv, Callback, HandleFailure;
      var wins := TestAndRaise(a);
      if !wins {
        return;
      }
      if ok {
        connected := true;
        retryDelay, streak := INITIAL_DELAY, 0;
        hooked := hooked + {a};
        UserCallback(re);
      } else {
        HandleConnectFailure(re);
      }
    }

    /** The timeout handler of attempt `a`. */
    method OnConnectTimeout(a: nat, re: Reentry)
      requires Inv(View()) && 1 <= a <= connectAttempt
      modifies this
      ensures Inv(View()) && View() == Step(old(View()), ConnectTimeout(a, re))
    {
      hide Inv, HandleFailure, StopSession, Step, Raise, TimedOut, Wins;
      StepKeeps(View(), ConnectTimeout(a, re));
      RaiseKeeps(View(), a);
      TimeoutSteps(View(), a, re);
      var wins := TestAndRaise(a);
      if !wins {
        return;
      }
      StopOne(a, Nothing);
      HandleConnectFailure(re);
    }

    /** Session::stop of attempt `a`'s session and its disconnect handler. */
    method StopOne(a: nat, re: Reentry)
      requires Inv(View()) && 1 <= a <= connectAttempt
      modifies this
      ensures Inv(View()) && View() == Step(old(View()), Disconnect(a, re))
    {
      StepKeeps(View(), Disconnect(a, re));
      hide Inv, Callback, ScheduleReconnect;
      if a in dead {
        return;
      }
      dead := dead + {a};
      if a !in hooked || session != Some(a) {
        return;
      }
      connected := false;
      session := None;
      UserCallback(re);
      Reschedule();
    }

    /** The retry timer's wait is over; its handler is queued. */
    method OnRetryExpired()
      requires Inv(View()) && retryArmed
      modifies this
      ensures Inv(View()) && View() == Step(old(View()), ExpireRetry)
    {
      StepKeeps(View(), ExpireRetry);
      hide Inv;
      retryArmed := false;
      retryExpired := retryExpired + 1;
    }

    method OnRetryTimer()
      requires Inv(View()) && retryExpired > 0
      modifies this
      ensures Inv(View()) && View() == Step(old(View()), RetryFire)
    {
      StepKeeps(View(), RetryFire);
      hide Inv;
      retryExpired := retryExpired - 1;
      StartConnecting();
    }
  }
}
