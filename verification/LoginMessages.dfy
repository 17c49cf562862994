/** Who hears from the login server, and which messages from outside end a player. */
module LoginMessages {
  import opened Prelude
  import opened LoginModel
  import opened LoginTheorems

  // ---------------------------------------------------------------------------------------------
  // Gates.

  /** The last thing heard of gate session `fd` is that it is up. */
  predicate Connected(es: seq<Event>, fd: nat) {
    if es == [] then false
    else
      match es[|es| - 1]
      case GateUp(g) => g == fd || Connected(es[..|es| - 1], fd)
      case GateDown(g) => g != fd && Connected(es[..|es| - 1], fd)
      case _ => Connected(es[..|es| - 1], fd)
  }

  /** What a step may send. */
  ghost predicate SendsToOpen(s: State, t: State) {
    s.out <= t.out && forall i :: |s.out| <= i < |t.out| ==> t.out[i].fd in s.gates
  }

  lemma KickOffSends(s: State, ptid: string)
    ensures SendsToOpen(s, KickOff(s, ptid)) && KickOff(s, ptid).gates == s.gates
  {
  }

  lemma AdmitSends(s: State, id: nat, ptid: string)
    requires id in s.players
    ensures SendsToOpen(s, Admit(s, id, ptid)) && Admit(s, id, ptid).gates == s.gates
  {
    KickOffSends(s, ptid);
    hide KickOff;
  }

  lemma LoginFailSends(s: State, id: nat, error: int)
    requires id in s.players
    ensures SendsToOpen(s, LoginFail(s, id, error)) && LoginFail(s, id, error).gates == s.gates
  {
  }

  lemma RecvSends(cfg: Config, s: State, fd: nat, transID: nat, req: Option<Request>)
    ensures var t := RecvLogin(cfg, s, fd, transID, req); SendsToOpen(s, t) && t.gates == s.gates
  {
    if req.Some? {
      var f := Fetch(s, fd, transID);
      var u := SetLoginData(f, s.lastId + 1, req.value);
      var p := u.players[s.lastId + 1];
      var ptid := if '_' in p.ptid then p.ptid else FormatPtid(p.areaGroup, p.apType, p.authenID);
      hide Admit, LoginFail, FormatPtid;
      LoginFailSends(f, s.lastId + 1, OLD_CLIENT);
      AdmitSends(u, s.lastId + 1, ptid);
    }
  }

  lemma ProcessSends(s: State, msg: ApMsg, now: int)
    ensures var t := ProcessAp(s, msg, now); SendsToOpen(s, t) && t.gates == s.gates
  {
    if msg.auth.Some? && msg.auth.value.handle in s.players {
      var u, id := Requeue(s, msg, now), msg.auth.value.handle;
      var p := s.players[id];
      hide Admit, LoginFail, FormatPtid;
      LoginFailSends(u, id, msg.error);
      AdmitSends(u, id, FormatPtid(p.areaGroup, p.apType, p.authenID));
    }
  }

  lemma StepSends(cfg: Config, s: State, e: Event)
    ensures var t := Step(cfg, s, e);
            && SendsToOpen(s, t)
            && t.gates == (match e case GateUp(g) => s.gates + {g} case GateDown(g) => s.gates - {g} case _ => s.gates)
  {
    hide RecvLogin, ProcessAp, KickOff;
    match e
    case LoginReq(fd, transID, req) => RecvSends(cfg, s, fd, transID, req);
    case Kick(ptid) => KickOffSends(s, ptid);
    case ApMessage(msg, now) => ProcessSends(s, msg, now);
    case _ =>
  }

  lemma {:induction false} OpenGates(cfg: Config, es: seq<Event>, fd: nat)
    ensures fd in Run(cfg, es).gates <==> Connected(es, fd)
  {
    if es != [] {
      var n := |es| - 1;
      OpenGates(cfg, es[..n], fd);
      StepSends(cfg, Run(cfg, es[..n]), es[n]);
      assert Run(cfg, es) == Step(cfg, Run(cfg, es[..n]), es[n]);
      hide Step, Run, RunFrom;
    }
  }

  /** In every run: messages once sent stay sent, and each goes to a gate session that is connected at that
      moment. */
  lemma OnlyOpenGatesHear(cfg: Config, es: seq<Event>, e: Event, i: nat)
    requires |Run(cfg, es).out| <= i < |Run(cfg, es + [e]).out|
    ensures Run(cfg, es).out <= Run(cfg, es + [e]).out
    ensures Connected(es, Run(cfg, es + [e]).out[i].fd)
  {
    RunOn(cfg, es, e);
    StepSends(cfg, Run(cfg, es), e);
    OpenGates(cfg, es, Run(cfg, es + [e]).out[i].fd);
    hide Step, Run;
  }

  // ---------------------------------------------------------------------------------------------
  // Ends from outside.

  /** In every run, a kick frees the account: its holder is destroyed and told so if its gate is up, and nobody
      else is touched. */
  lemma KickEndsHolder(cfg: Config, es: seq<Event>, ptid: string)
    ensures var s := Run(cfg, es);
            var t := Step(cfg, s, Kick(ptid));
            && ptid !in t.ptids && (ptid in s.ptids ==> Stage(s, s.ptids[ptid]) == 2 && Stage(t, s.ptids[ptid]) == 3)
            && OthersStay(s, t, 0, ptid) && t.out == s.out + KickNotice(s, ptid)
  {
    EveryRunKeeps(cfg, es);
    hide Run;
    var s := Run(cfg, es);
    KickOffKeeps(s, ptid);
    KickOffEffect(s, ptid);
    HoldersExist(s);
  }

  /** In every run, a global event ends a player exactly when it is a logout or a kick-off, and sends nothing. */
  lemma GlobalEndsIff(cfg: Config, es: seq<Event>, id: nat, kind: GlobalEvent)
    requires id in Run(cfg, es).players
    ensures var s := Run(cfg, es);
            var t := Step(cfg, s, Global(id, kind));
            && (Stage(t, id) == 3 <==> kind == LogoutNtf || kind == KickoffLs)
            && (Stage(t, id) != 3 ==> t == s) && OnlyEnds(s, t, id) && t.out == s.out
  {
    EveryRunKeeps(cfg, es);
  }

  // ---------------------------------------------------------------------------------------------
  // The queue of replies.

  /** Replies that have come since the queue was last taken, and the time-outs queued in between. */
  function Waiting(es: seq<Event>): seq<ApMsg> {
    if es == [] then []
    else
      var before := Waiting(es[..|es| - 1]);
      match es[|es| - 1]
      case ApPush(msg) => before + [msg]
      case ApTake => []
      case ApMessage(msg, now) =>
        before + (if msg.auth.Some? && now - msg.tick > 10000
                  then [ApMsg(msg.auth, msg.operation, TimeOut, 2, now)] else [])
      case _ => before
  }

  /** No other event touches the queue. */
  lemma StepQueue(cfg: Config, s: State, e: Event)
    requires !e.ApPush? && !e.ApTake? && !e.ApMessage?
    ensures Step(cfg, s, e).apQueue == s.apQueue
  {
    if e.LoginReq? && e.req.Some? {
      var u := SetLoginData(Fetch(s, e.fd, e.transID), s.lastId + 1, e.req.value);
      var p := u.players[s.lastId + 1];
      AdmitQueue(u, s.lastId + 1, if '_' in p.ptid then p.ptid else FormatPtid(p.areaGroup, p.apType, p.authenID));
      hide Admit, FormatPtid;
    }
  }

  /** In every run the queue holds the replies not yet taken, in the order they came. */
  lemma {:induction false} QueueIsWaiting(cfg: Config, es: seq<Event>)
    ensures Run(cfg, es).apQueue == Waiting(es)
  {
    if es != [] {
      var n := |es| - 1;
      QueueIsWaiting(cfg, es[..n]);
      assert Run(cfg, es) == Step(cfg, Run(cfg, es[..n]), es[n]);
      hide Run, RunFrom, ProcessAp;
      match es[n]
      case ApPush(_) =>
      case ApTake =>
      case ApMessage(msg, now) => OtherRepliesChangeNothing(cfg, es[..n], msg, now);
      case _ => StepQueue(cfg, Run(cfg, es[..n]), es[n]);
    }
  }
}
