/** The connector keeps trying: what a lost or failed attempt leads to, and that a connector that wants a
    connection always has one, or a way to the next attempt. */
module ConnectorRecovery {
  import opened Prelude
  import opened Connector

  /** The user has asked for a connection, and there is somewhere to connect to. */
  predicate Wants(s: State) { s.auto && s.endpoints }

  /** The current attempt has had no outcome yet. */
  predicate Pending(s: State) { s.attempts > 0 && s.attempts !in s.completed }

  /** A connection, or something that leads to the next attempt. */
  predicate OnItsWay(s: State) { s.retryArmed || s.retryExpired > 0 || Pending(s) || Up(s) }

  ghost predicate Trying(s: State) {
    && (Wants(s) ==> OnItsWay(s))
    && (Wants(s) && Pending(s) ==> s.session == Some(s.attempts))
    && (Up(s) ==> s.session.value in s.hooked)
  }

  // ---------------------------------------------------------------------------------------------
  // What an outcome that is acted on does.

  /** The first outcome of the current attempt, or the first loss of the current session. */
  predicate ActedOn(s: State, e: Event) {
    match e
    case ConnectFail(a, _) => a == s.attempts && a !in s.completed
    case ConnectTimeout(a, _) => a == s.attempts && a !in s.completed
    case Disconnect(a, _) => a !in s.dead && a in s.hooked && s.session == Some(a)
    case _ => false
  }

  /** Whether the connector is still asked to connect after the user's callback. */
  predicate GoesOn(s: State, re: Reentry) {
    match re
    case Nothing => s.auto
    case CallStop => false
    case CallConnect(_) => true
  }

  /** The retry that is scheduled then: after asyncConnect the delays start from one second again. */
  function NextRetry(s: State, re: Reentry): Retry {
    if re.CallConnect? then Retry(0, 1) else Retry(s.streak, s.delay)
  }

  /** The attempt or connection is let go, the callback runs, and exactly one retry is scheduled unless the
      connector was stopped. */
  ghost predicate Scheduled(s: State, t: State, re: Reentry) {
    && !t.connected && t.auto == GoesOn(s, re)
    && t.session == (if re == CallConnect(true) then Some(s.attempts + 1) else None)
    && t.attempts == s.attempts + (if re == CallConnect(true) then 1 else 0)
    && t.retries == s.retries + (if GoesOn(s, re) then [NextRetry(s, re)] else [])
    && (GoesOn(s, re) ==> t.retryArmed)
  }

  lemma FailureSchedules(s: State, u: State, re: Reentry)
    requires u == s.(completed := u.completed, dead := u.dead, acted := u.acted)
    ensures Scheduled(s, HandleFailure(u, re), re) && HandleFailure(u, re).dead >= u.dead
  {
  }

  /** A failure, timeout or loss that is acted on schedules exactly one retry, unless the connector was
      stopped. */
  lemma OutcomeSchedules(es: seq<Event>, e: Event)
    requires Possible(Init(), es) && Enabled(Run(Init(), es), e) && ActedOn(Run(Init(), es), e)
    ensures var s := Run(Init(), es);
            var t := Step(s, e);
            Scheduled(s, t, e.re) && (e.ConnectTimeout? || e.Disconnect? ==> e.a in t.dead)
  {
    EveryRunKeeps(Init(), es);
    var s := Run(Init(), es);
    hide Run, Scheduled, HandleFailure, Logged;
    var u := if e.Disconnect? then s else Raise(s, e.a);
    var v := if e.ConnectFail? then u else u.(dead := u.dead + {e.a});
    FailureSchedules(s, v, e.re);
    match e
    case ConnectFail(a, re) =>
    case ConnectTimeout(a, re) => assert StopSession(u, a, Nothing) == v || a in u.dead; FailureSchedules(s, u, re);
    case Disconnect(a, re) => LossIsFailure(s, a, re);
  }

  lemma LossIsFailure(s: State, a: nat, re: Reentry)
    requires ActedOn(s, Disconnect(a, re))
    ensures StopSession(s, a, re) == HandleFailure(s.(dead := s.dead + {a}), re)
  {
  }

  /** Any other outcome schedules nothing. */
  lemma OthersScheduleNothing(es: seq<Event>, e: Event)
    requires Possible(Init(), es) && Enabled(Run(Init(), es), e) && !ActedOn(Run(Init(), es), e)
    ensures var s := Run(Init(), es); var t := Step(s, e); t.retries == s.retries && (t.retryArmed ==> s.retryArmed)
  {
    EveryRunKeeps(Init(), es);
    hide Run;
  }

  /** The first success of the current attempt brings the connection up, with the delays reset. */
  lemma SuccessConnects(es: seq<Event>, a: nat)
    requires Possible(Init(), es) && Enabled(Run(Init(), es), ConnectOk(a, Nothing))
    requires a == Run(Init(), es).attempts && a !in Run(Init(), es).completed && Wants(Run(Init(), es))
    ensures var t := Step(Run(Init(), es), ConnectOk(a, Nothing)); Up(t) && t.session == Some(a) && t.delay == 1
  {
    EveryRunTries(Init(), es);
    hide Run;
  }

  /** The loss of a connection is noticed: it is down, and a retry is on its way. */
  lemma LossIsNoticed(es: seq<Event>)
    requires Possible(Init(), es) && Up(Run(Init(), es)) && Run(Init(), es).attempts !in Run(Init(), es).dead
    ensures Run(Init(), es).attempts > 0
    ensures var s := Run(Init(), es);
            var t := Step(s, Disconnect(s.attempts, Nothing));
            !t.connected && t.session == None && t.retryArmed && t.retries == s.retries + [Retry(s.streak, s.delay)]
  {
    EveryRunKeeps(Init(), es);
    EveryRunTries(Init(), es);
    hide Run;
  }

  /** A stop lets go of the session and the retry, and stays a stop until asyncConnect is called. */
  lemma StopEnds(es: seq<Event>, more: seq<Event>)
    requires Possible(Init(), es) && Possible(Step(Run(Init(), es), Stop), more) && NoRequest(more)
    ensures var s := Run(Init(), es);
            var t := Step(s, Stop);
            && !t.connected && t.session == None && !t.retryArmed && (s.session.Some? ==> s.session.value in t.dead)
            && Idle(s, Run(t, more))
  {
    EveryRunKeeps(Init(), es);
    var s := Run(Init(), es);
    StepKeeps(s, Stop);
    StoppedStartsNothing(Step(s, Stop), more);
  }

  // ---------------------------------------------------------------------------------------------
  // Each retry fires once.

  function Waiting(s: State): nat { s.retryExpired + (if s.retryArmed then 1 else 0) }

  /** How often the retry timer's handler ran. */
  function Fired(es: seq<Event>): nat {
    if es == [] then 0 else (if es[0] == RetryFire then 1 else 0) + Fired(es[1..])
  }

  predicate MayAsk(e: Event) {
    match e
    case AsyncConnect(_) => true
    case ConnectOk(_, re) => Asks(re)
    case ConnectFail(_, re) => Asks(re)
    case ConnectTimeout(_, re) => Asks(re)
    case Disconnect(_, re) => Asks(re)
    case _ => false
  }

  /** How often asyncConnect may have been called, by the user or by a callback. */
  function Asked(es: seq<Event>): nat {
    if es == [] then 0 else (if MayAsk(es[0]) then 1 else 0) + Asked(es[1..])
  }

  /** Between `s` and `t` at most `n` attempts are started; no retry comes from nowhere, and the record of
      outcomes stays. */
  predicate Spends(s: State, t: State, n: nat) {
    && Waiting(t) + |s.retries| <= Waiting(s) + |t.retries| && t.attempts <= s.attempts + n
    && t.completed == s.completed && t.acted == s.acted
  }

  function Asking(re: Reentry): nat { if Asks(re) then 1 else 0 }

  lemma CallbackSpends(s: State, re: Reentry)
    ensures Spends(s, Callback(s, re), Asking(re))
  {
  }

  lemma ScheduleSpends(s: State)
    ensures Spends(s, ScheduleReconnect(s), 0)
  {
  }

  lemma FailureSpends(s: State, re: Reentry)
    ensures Spends(s, HandleFailure(s, re), Asking(re))
  {
    hide Callback, ScheduleReconnect;
    var t := s.(connected := false, session := None);
    CallbackSpends(t, re);
    ScheduleSpends(Callback(t, re));
  }

  lemma StopSessionSpends(s: State, a: nat, re: Reentry)
    ensures Spends(s, StopSession(s, a, re), Asking(re))
  {
    var t := s.(dead := s.dead + {a});
    FailureSpends(t, re);
    LossOrNothing(s, a, re);
    hide StopSession, HandleFailure;
  }

  lemma LossOrNothing(s: State, a: nat, re: Reentry)
    ensures var t := s.(dead := s.dead + {a});
            StopSession(s, a, re) == s || StopSession(s, a, re) == t || StopSession(s, a, re) == HandleFailure(t, re)
  {
    hide Callback, ScheduleReconnect;
  }

  lemma DialSpends(s: State, a: nat, ok: bool, re: Reentry)
    ensures Spends(Raise(s, a), DialCompleted(s, a, ok, re), Asking(re))
  {
    var t := Raise(s, a);
    hide Raise, Callback, HandleFailure;
    FailureSpends(t, re);
    CallbackSpends(t.(connected := true, delay := INITIAL_DELAY, streak := 0, hooked := t.hooked + {a}), re);
  }

  lemma TimeoutSpends(s: State, a: nat, re: Reentry)
    ensures Spends(Raise(s, a), TimedOut(s, a, re), Asking(re))
  {
    var t := Raise(s, a);
    hide Raise, StopSession, HandleFailure;
    StopSessionSpends(t, a, Nothing);
    FailureSpends(StopSession(t, a, Nothing), re);
  }

  lemma StepFires(s: State, e: Event)
    requires Enabled(s, e)
    ensures var t := Step(s, e);
            && Waiting(t) + (if e == RetryFire then 1 else 0) + |s.retries| <= Waiting(s) + |t.retries|
            && t.attempts <= s.attempts + (if MayAsk(e) || e == RetryFire then 1 else 0)
  {
    hide DialCompleted, TimedOut, StopSession;
    match e
    case ConnectOk(a, re) => DialSpends(s, a, true, re);
    case ConnectFail(a, re) => DialSpends(s, a, false, re);
    case ConnectTimeout(a, re) => TimeoutSpends(s, a, re);
    case Disconnect(a, re) => StopSessionSpends(s, a, re);
    case _ =>
  }

  lemma {:induction false} RunFires(s: State, es: seq<Event>)
    requires Possible(s, es)
    ensures var t := Run(s, es);
            Waiting(t) + Fired(es) + |s.retries| <= Waiting(s) + |t.retries|
            && t.attempts <= s.attempts + Asked(es) + Fired(es)
    decreases |es|
  {
    hide Step, Waiting;
    if es != [] {
      StepFires(s, es[0]);
      RunFires(Step(s, es[0]), es[1..]);
    }
  }

  /** In every run: a retry that is scheduled fires at most once, and attempts are started only by asyncConnect
      and by retries that fire. */
  lemma EachRetryFiresOnce(es: seq<Event>)
    requires Possible(Init(), es)
    ensures var t := Run(Init(), es); Fired(es) + Waiting(t) <= |t.retries| && t.attempts <= Asked(es) + Fired(es)
  {
    RunFires(Init(), es);
  }

  /** Every outcome raises its attempt's flag, and is acted on if it is the first one of the current attempt. */
  lemma OutcomeRaises(es: seq<Event>, e: Event)
    requires Possible(Init(), es) && Enabled(Run(Init(), es), e)
    requires e.ConnectOk? || e.ConnectFail? || e.ConnectTimeout?
    ensures var s := Run(Init(), es);
            var t := Step(s, e);
            && t.completed == s.completed + {e.a}
            && t.acted == s.acted + (if e.a == s.attempts && e.a !in s.completed then [e.a] else [])
  {
    var s := Run(Init(), es);
    hide Run, DialCompleted, TimedOut;
    DialSpends(s, e.a, e.ConnectOk?, e.re);
    TimeoutSpends(s, e.a, e.re);
  }

  // ---------------------------------------------------------------------------------------------
  // It never gives up.

  lemma StartTries(s: State)
    requires Inv(s) && (Up(s) ==> s.session.value in s.hooked)
    requires !Wants(s) ==> Trying(s)
    ensures Trying(StartConnect(s))
  {
  }

  lemma CallbackTries(s: State, re: Reentry)
    requires Inv(s) && (Up(s) ==> s.session.value in s.hooked)
    requires re == Nothing ==> (Wants(s) && Pending(s) ==> s.session == Some(s.attempts))
    ensures var t := Callback(s, re);
            && (Up(t) ==> t.session.value in t.hooked)
            && (Wants(t) && Pending(t) ==> t.session == Some(t.attempts))
            && (t.auto && re == Nothing ==> s.auto)
  {
  }

  lemma ScheduleTries(s: State)
    requires (Up(s) ==> s.session.value in s.hooked) && (Wants(s) && Pending(s) ==> s.session == Some(s.attempts))
    ensures Trying(ScheduleReconnect(s))
  {
  }

  lemma FailureTries(s: State, re: Reentry)
    requires Inv(s) && s.attempts in s.completed
    ensures Trying(HandleFailure(s, re))
  {
    var t := s.(connected := false, session := None);
    assert Inv(t);
    CallbackTries(t, re);
    ScheduleTries(Callback(t, re));
  }

  lemma StopSessionTries(s: State, a: nat, re: Reentry)
    requires Inv(s) && Trying(s) && 1 <= a <= s.attempts
    ensures Trying(StopSession(s, a, re))
  {
    var t := s.(dead := s.dead + {a});
    if a !in s.dead && a in s.hooked && s.session == Some(a) {
      assert Inv(t);
      FailureTries(t, re);
    }
  }

  lemma OnConnectedTries(s: State, a: nat, re: Reentry)
    requires Inv(s) && a == s.attempts && a in s.completed && (Wants(s) ==> s.session == Some(a))
    requires |s.retries| < s.attempts
    ensures Trying(OnConnected(s, a, re))
  {
    var t := s.(connected := true, delay := INITIAL_DELAY, streak := 0, hooked := s.hooked + {a});
    assert Inv(t);
    CallbackTries(t, re);
  }

  lemma DialTries(s: State, a: nat, ok: bool, re: Reentry)
    requires Inv(s) && Trying(s) && 1 <= a <= s.attempts
    ensures Trying(DialCompleted(s, a, ok, re))
  {
    var t := Raise(s, a);
    RaiseKeeps(s, a);
    if Wins(s, a) {
      assert |t.retries| < t.attempts;
      hide Inv, OnConnected, HandleFailure;
      OnConnectedTries(t, a, re);
      FailureTries(t, re);
    }
  }

  lemma TimeoutTries(s: State, a: nat, re: Reentry)
    requires Inv(s) && Trying(s) && 1 <= a <= s.attempts
    ensures Trying(TimedOut(s, a, re))
  {
    var t := Raise(s, a);
    RaiseKeeps(s, a);
    if Wins(s, a) {
      assert a !in t.hooked && a in t.completed;
      hide Inv, HandleFailure;
      StopSessionKeeps(t, a, Nothing);
      FailureTries(StopSession(t, a, Nothing), re);
    }
  }

  lemma StepTries(s: State, e: Event)
    requires Inv(s) && Trying(s) && Enabled(s, e)
    ensures Trying(Step(s, e))
  {
    hide DialCompleted, TimedOut, StopSession;
    match e
    case ConnectOk(a, re) => DialTries(s, a, true, re);
    case ConnectFail(a, re) => DialTries(s, a, false, re);
    case ConnectTimeout(a, re) => TimeoutTries(s, a, re);
    case Disconnect(a, re) => StopSessionTries(s, a, re);
    case RetryFire =>
      assert Inv(s.(retryExpired := s.retryExpired - 1));
      StartTries(s.(retryExpired := s.retryExpired - 1));
    case _ =>
  }

  lemma {:induction false} RunTries(s: State, es: seq<Event>)
    requires Inv(s) && Trying(s) && Possible(s, es)
    ensures Inv(Run(s, es)) && Trying(Run(s, es))
    decreases |es|
  {
    if es != [] {
      StepKeeps(s, es[0]);
      StepTries(s, es[0]);
      RunTries(Step(s, es[0]), es[1..]);
    }
  }

  /** In every run: a connector that is asked to connect and has somewhere to connect to has a connection, an
      attempt without an outcome, or a retry that is armed or about to run. */
  lemma EveryRunTries(s: State, es: seq<Event>)
    requires s == Init() && Possible(s, es)
    ensures Inv(Run(s, es)) && Trying(Run(s, es))
  {
    RunTries(s, es);
  }

  /** What leads to the next connection, if the network lets it. */
  function Recovery(s: State): seq<Event> {
    if Up(s) then []
    else if Pending(s) then [ConnectOk(s.attempts, Nothing)]
    else if s.retryExpired > 0 then [RetryFire, ConnectOk(s.attempts + 1, Nothing)]
    else [ExpireRetry, RetryFire, ConnectOk(s.attempts + 1, Nothing)]
  }

  /** From every state that a run can reach, it can come up again without any help of the user. */
  lemma {:induction false} CanAlwaysConnect(es: seq<Event>)
    requires Possible(Init(), es) && Wants(Run(Init(), es))
    ensures var s := Run(Init(), es); Possible(s, Recovery(s)) && Up(Run(s, Recovery(s)))
  {
    EveryRunTries(Init(), es);
    var s := Run(Init(), es);
    hide Run, Possible;
    if Up(s) {
      RunNil(s);
    } else if Pending(s) {
      Connects(s);
    } else if s.retryExpired > 0 {
      Fires(s);
    } else {
      var t := Step(s, ExpireRetry);
      StepKeeps(s, ExpireRetry);
      Fires(t);
      RunCons(s, ExpireRetry, [RetryFire, ConnectOk(s.attempts + 1, Nothing)]);
      assert [ExpireRetry] + [RetryFire, ConnectOk(s.attempts + 1, Nothing)] == Recovery(s);
    }
  }

  lemma RunNil(s: State)
    ensures Possible(s, []) && Run(s, []) == s
  {
  }

  lemma {:induction false} Connects(s: State)
    requires Inv(s) && Pending(s) && s.session == Some(s.attempts)
    ensures var more := [ConnectOk(s.attempts, Nothing)]; Possible(s, more) && Up(Run(s, more))
  {
    var t := Step(s, ConnectOk(s.attempts, Nothing));
    RunNil(t);
    RunCons(s, ConnectOk(s.attempts, Nothing), []);
    assert [ConnectOk(s.attempts, Nothing)] + [] == [ConnectOk(s.attempts, Nothing)];
  }

  lemma {:induction false} Fires(s: State)
    requires Inv(s) && Wants(s) && s.retryExpired > 0
    ensures var more := [RetryFire, ConnectOk(s.attempts + 1, Nothing)]; Possible(s, more) && Up(Run(s, more))
  {
    var t := Step(s, RetryFire);
    StepKeeps(s, RetryFire);
    hide Run, Possible;
    Connects(t);
    RunCons(s, RetryFire, [ConnectOk(s.attempts + 1, Nothing)]);
    assert [RetryFire] + [ConnectOk(s.attempts + 1, Nothing)] == [RetryFire, ConnectOk(s.attempts + 1, Nothing)];
  }
}
