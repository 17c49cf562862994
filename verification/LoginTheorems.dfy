/** What holds of the login server in every run. */
module LoginTheorems {
  import opened Prelude
  import opened LoginModel

  /** `pTIDMap_` maps an account to a player exactly when that player is live, online and holds it. */
  lemma IndexIsExact(cfg: Config, es: seq<Event>, ptid: string, id: nat)
    ensures var s := Run(cfg, es);
            (ptid in s.ptids && s.ptids[ptid] == id)
            <==> (id in s.players && s.players[id].phase == Online && s.players[id].ptid == ptid)
  {
    EveryRunKeeps(cfg, es);
  }

  /** No account is ever online twice. */
  lemma NoTwoOnline(cfg: Config, es: seq<Event>, a: nat, b: nat)
    requires var s := Run(cfg, es);
             && a in s.players && b in s.players
             && s.players[a].phase == Online && s.players[b].phase == Online
             && s.players[a].ptid == s.players[b].ptid
    ensures a == b
  {
    EveryRunKeeps(cfg, es);
  }

  predicate IsAckFor(m: Message, id: nat) { m.LoginAck? && m.player == id }

  /** How many login answers have been sent for player `id`. */
  function AckCount(out: seq<Message>, id: nat): nat {
    if out == [] then 0
    else AckCount(out[..|out| - 1], id) + (if IsAckFor(out[|out| - 1], id) then 1 else 0)
  }

  lemma {:induction false} NoneCounted(out: seq<Message>, id: nat)
    requires forall i :: 0 <= i < |out| ==> !IsAckFor(out[i], id)
    ensures AckCount(out, id) == 0
  {
    if out != [] {
      NoneCounted(out[..|out| - 1], id);
    }
  }

  lemma {:induction false} OneCounted(out: seq<Message>, id: nat)
    requires forall i, j :: 0 <= i < j < |out| && IsAckFor(out[i], id) ==> !IsAckFor(out[j], id)
    ensures AckCount(out, id) <= 1
  {
    if out != [] {
      var n := |out| - 1;
      OneCounted(out[..n], id);
      if IsAckFor(out[n], id) {
        NoneCounted(out[..n], id);
      }
    }
  }

  /** Each login request is answered at most once, and not before the player leaves the login state,
      whatever stale, repeated or mismatched replies arrive. */
  lemma AtMostOneAnswer(cfg: Config, es: seq<Event>, id: nat)
    ensures var s := Run(cfg, es);
            && AckCount(s.out, id) <= 1
            && (id in s.players && s.players[id].phase == Login ==> AckCount(s.out, id) == 0)
  {
    EveryRunKeeps(cfg, es);
    hide Run, AckCount;
    var s := Run(cfg, es);
    OneCounted(s.out, id);
    if id in s.players && s.players[id].phase == Login {
      NoneCounted(s.out, id);
    }
  }

  // ---------------------------------------------------------------------------------------------
  // Where messages go.

  /** The gate session and the client id, in full, of each login request that was parsed. */
  function Requests(es: seq<Event>): seq<(nat, nat)> {
    if es == [] then [] else Requests(es[..|es| - 1]) + FromRequest(es[|es| - 1])
  }

  /** The request of each player ever created. */
  ghost predicate Sourced(s: State, rs: seq<(nat, nat)>) {
    && s.lastId == |rs| && (forall id: nat :: id in s.origin <==> 1 <= id <= |rs|)
    && (forall id: nat :: 1 <= id <= |rs| ==> s.origin[id] == rs[id - 1])
  }

  function FromRequest(e: Event): seq<(nat, nat)> {
    if e.LoginReq? && e.req.Some? then [(e.fd, e.transID)] else []
  }

  /** No operation other than fetching a player touches the record of where it came from. */
  lemma StepSources(cfg: Config, s: State, e: Event)
    ensures var t := Step(cfg, s, e);
            if FromRequest(e) == [] then t.origin == s.origin && t.lastId == s.lastId
            else t.origin == s.origin[s.lastId + 1 := (e.fd, e.transID)] && t.lastId == s.lastId + 1
  {
    hide Admit, FormatPtid, KickOff, RecvLogin, ProcessAp;
    match e
    case LoginReq(fd, transID, req) => RecvSources(cfg, s, fd, transID, req);
    case Kick(ptid) => KickOffSources(s, ptid);
    case ApMessage(msg, now) => ProcessSources(s, msg, now);
    case _ =>
  }

  lemma RecvSources(cfg: Config, s: State, fd: nat, transID: nat, req: Option<Request>)
    ensures var t := RecvLogin(cfg, s, fd, transID, req);
            if req == None then t == s
            else t.origin == s.origin[s.lastId + 1 := (fd, transID)] && t.lastId == s.lastId + 1
  {
    if req.Some? {
      var t := SetLoginData(Fetch(s, fd, transID), s.lastId + 1, req.value);
      var p := t.players[s.lastId + 1];
      var ptid := if '_' in p.ptid then p.ptid else FormatPtid(p.areaGroup, p.apType, p.authenID);
      AdmitSources(t, s.lastId + 1, ptid);
      hide Admit, FormatPtid;
    }
  }

  lemma ProcessSources(s: State, msg: ApMsg, now: int)
    ensures var t := ProcessAp(s, msg, now); t.origin == s.origin && t.lastId == s.lastId
  {
    if msg.auth.Some? && msg.auth.value.handle in s.players {
      var p := s.players[msg.auth.value.handle];
      AdmitSources(Requeue(s, msg, now), msg.auth.value.handle, FormatPtid(p.areaGroup, p.apType, p.authenID));
      hide Admit, FormatPtid;
    }
  }

  lemma KickOffSources(s: State, ptid: string)
    ensures KickOff(s, ptid).origin == s.origin && KickOff(s, ptid).lastId == s.lastId
  {
  }

  lemma AdmitSources(s: State, id: nat, ptid: string)
    requires id in s.players
    ensures Admit(s, id, ptid).origin == s.origin && Admit(s, id, ptid).lastId == s.lastId
  {
    KickOffSources(s, ptid);
  }

  lemma {:induction false} EveryRunSources(cfg: Config, es: seq<Event>)
    ensures Sourced(Run(cfg, es), Requests(es))
  {
    if es != [] {
      var n := |es| - 1;
      EveryRunSources(cfg, es[..n]);
      StepSources(cfg, Run(cfg, es[..n]), es[n]);
      assert Run(cfg, es) == Step(cfg, Run(cfg, es[..n]), es[n]);
      hide Step, Run, RunFrom, FromRequest;
      SourcedOn(Run(cfg, es[..n]), Run(cfg, es), Requests(es[..n]), es[n]);
    }
  }

  lemma SourcedOn(s: State, t: State, rs: seq<(nat, nat)>, e: Event)
    requires Sourced(s, rs)
    requires if FromRequest(e) == [] then t.origin == s.origin && t.lastId == s.lastId
             else t.origin == s.origin[s.lastId + 1 := (e.fd, e.transID)] && t.lastId == s.lastId + 1
    ensures Sourced(t, rs + FromRequest(e))
  {
  }

  /** In every run, every answer and kick-off notice for the player of the n-th login request goes to
      that request's gate session. It names that request's client exactly when the client id fits in
      32 bits; a wider one is answered to the client named by its low half. */
  lemma MessageReachesItsClientIff(cfg: Config, es: seq<Event>, i: nat)
    requires i < |Run(cfg, es).out|
    ensures var m := Run(cfg, es).out[i];
            && 1 <= m.player <= |Requests(es)|
            && var r := Requests(es)[m.player - 1];
            && m.fd == r.0 && m.transID == r.1 % 0x1_0000_0000
            && (m.transID == r.1 <==> r.1 < 0x1_0000_0000)
  {
    EveryRunKeeps(cfg, es);
    EveryRunSources(cfg, es);
    hide Run, Requests, IdsInRange, PlayersIndexed, IndexLive, AnsweredOnce;
    var m := Run(cfg, es).out[i];
    assert Comes(Run(cfg, es), m.player, m.fd, m.transID);
    hide AcksAddressed;
  }

  /** Client 2^32 + 5 asks to log in with an old client, and client 5 is told so. */
  lemma {:induction false} WideClientIsMisaddressed(cfg: Config, r: Request)
    requires r.clientVersion < cfg.minVersion
    ensures Run(cfg, [GateUp(1), LoginReq(1, 0x1_0000_0005, Some(r))]).out
         == [LoginAck(1, 1, 5, false, "", OLD_CLIENT)]
  {
    var es := [GateUp(1), LoginReq(1, 0x1_0000_0005, Some(r))];
    assert es[..1] == [GateUp(1)];
    assert es[..1][..0] == [];
    assert RunFrom(cfg, Init(), es[..1][..0]) == Init();
    assert Run(cfg, es[..1]) == Init().(gates := {1});
  }

  // ---------------------------------------------------------------------------------------------
  // A player's life: not created, logging in, online, destroyed.

  function Stage(s: State, id: nat): nat {
    if id == 0 || id > s.lastId then 0
    else if id !in s.players then 3
    else if s.players[id].phase == Login then 1
    else 2
  }

  /** Same player and same account data, apart from what admission fills in. */
  ghost predicate SamePerson(a: Player, b: Player) {
    && a.authenID == b.authenID && a.areaGroup == b.areaGroup && a.apType == b.apType
    && a.gateFd == b.gateFd && a.transID == b.transID
    && (a.phase == b.phase ==> a.ptid == b.ptid && a.authID == b.authID)
  }

  ghost predicate LifeGoesOn(s: State, t: State) {
    && s.lastId <= t.lastId
    && (forall id: nat :: Stage(s, id) <= Stage(t, id))
    && (forall id :: id in s.players && id in t.players ==> SamePerson(s.players[id], t.players[id]))
  }

  lemma KickOffLife(s: State, ptid: string)
    requires Inv(s)
    ensures LifeGoesOn(s, KickOff(s, ptid))
  {
  }

  lemma AdmitLife(s: State, id: nat, ptid: string)
    requires Inv(s) && id in s.players && s.players[id].phase == Login
    ensures LifeGoesOn(s, Admit(s, id, ptid))
  {
    KickOffLife(s, ptid);
  }

  lemma LoginFailLife(s: State, id: nat, error: int)
    requires Inv(s) && id in s.players
    ensures LifeGoesOn(s, LoginFail(s, id, error))
  {
  }

  lemma RecvLoginLife(cfg: Config, s: State, fd: nat, transID: nat, req: Option<Request>)
    requires Inv(s)
    ensures LifeGoesOn(s, RecvLogin(cfg, s, fd, transID, req))
  {
    if req.Some? {
      var t := Fetch(s, fd, transID);
      var id := t.lastId;
      FetchKeeps(s, fd, transID);
      FetchLife(s, fd, transID, req.value);
      hide LoginFail, HandleLoginReq, LifeGoesOn, Inv;
      if req.value.clientVersion < cfg.minVersion {
        LoginFailLife(t, id, OLD_CLIENT);
        LifeTransitive(s, t, LoginFail(t, id, OLD_CLIENT));
      } else {
        SetLoginDataKeeps(t, id, req.value);
        RequestLife(cfg, s, SetLoginData(t, id, req.value), id);
      }
    }
  }

  lemma FetchLife(s: State, fd: nat, transID: nat, r: Request)
    requires Inv(s)
    ensures var t := Fetch(s, fd, transID);
            LifeGoesOn(s, t) && LifeGoesOn(s, SetLoginData(t, t.lastId, r))
  {
  }

  lemma RequestLife(cfg: Config, s: State, u: State, id: nat)
    requires Inv(s) && Inv(u) && LifeGoesOn(s, u)
    requires id in u.players && u.players[id].phase == Login && id !in s.players
    ensures LifeGoesOn(s, HandleLoginReq(cfg, u, id))
  {
    var p := u.players[id];
    assert p.ptid == "";
    var ptid := FormatPtid(p.areaGroup, p.apType, p.authenID);
    hide Inv, LifeGoesOn, Admit, FormatPtid, CheckApLogin;
    AdmitKeeps(u, id, ptid);
    AdmitLife(u, id, ptid);
    var v := if cfg.localTest then Admit(u, id, ptid) else u;
    if cfg.localTest {
      LifeTransitive(s, u, v);
    }
    CheckApOthers(s, v, id);
  }

  lemma CheckApOthers(s: State, v: State, id: nat)
    requires LifeGoesOn(s, v) && id in v.players && id !in s.players
    ensures LifeGoesOn(s, CheckApLogin(v, id))
  {
  }

  lemma RequeueLife(s: State, msg: ApMsg, now: int)
    ensures LifeGoesOn(s, Requeue(s, msg, now))
  {
  }

  lemma ProcessApLife(s: State, msg: ApMsg, now: int)
    requires Inv(s)
    ensures LifeGoesOn(s, ProcessAp(s, msg, now))
  {
    RequeueLife(s, msg, now);
    var t := Requeue(s, msg, now);
    QueueKeeps(s, t.apQueue);
    var u := ProcessAp(s, msg, now);
    assert LifeGoesOn(s, s);
    hide Inv, Admit, LoginFail, FormatPtid, LifeGoesOn;
    if msg.auth.Some? {
      var id := msg.auth.value.handle;
      if id in t.players && t.players[id].phase == Login && u != t {
        var p := t.players[id];
        AdmitLife(t, id, FormatPtid(p.areaGroup, p.apType, p.authenID));
        LoginFailLife(t, id, msg.error);
        LifeTransitive(s, t, u);
      }
    }
  }

  lemma StepLife(cfg: Config, s: State, e: Event)
    requires Inv(s)
    ensures LifeGoesOn(s, Step(cfg, s, e))
  {
    match e
    case LoginReq(fd, transID, req) => RecvLoginLife(cfg, s, fd, transID, req);
    case Logoff(_, _, _) =>
    case Kick(ptid) => KickOffLife(s, ptid);
    case Global(id, kind) =>
    case ApMessage(msg, now) => ProcessApLife(s, msg, now);
    case _ =>
  }

  /** Over any run and any continuation of it, a player's stage never goes back, its request data
      never changes, and once destroyed it stays destroyed. */
  lemma {:induction false} LifeNeverGoesBack(cfg: Config, es: seq<Event>, more: seq<Event>)
    ensures LifeGoesOn(Run(cfg, es), Run(cfg, es + more))
  {
    if more == [] {
      assert es + more == es;
    } else {
      var n := |more| - 1;
      LifeNeverGoesBack(cfg, es, more[..n]);
      assert (es + more)[..|es + more| - 1] == es + more[..n];
      var mid := Run(cfg, es + more[..n]);
      EveryRunKeeps(cfg, es);
      EveryRunKeeps(cfg, es + more[..n]);
      EveryRunKeeps(cfg, es + more);
      StepLife(cfg, mid, more[n]);
      LifeTransitive(Run(cfg, es), mid, Run(cfg, es + more));
    }
  }

  lemma LifeTransitive(s: State, t: State, u: State)
    requires LifeGoesOn(s, t) && LifeGoesOn(t, u) && Inv(s)
    ensures LifeGoesOn(s, u)
  {
    forall id | id in s.players && id in u.players
      ensures SamePerson(s.players[id], u.players[id])
    {
      assert Stage(t, id) <= Stage(u, id) && Stage(s, id) <= Stage(t, id);
    }
  }

  // ---------------------------------------------------------------------------------------------
  // Taking an account over.

  /** The notice an earlier holder of the account gets, if there is one whose gate is connected. */
  function KickNotice(s: State, ptid: string): seq<Message> {
    if ptid in s.ptids && s.ptids[ptid] in s.players && s.players[s.ptids[ptid]].gateFd in s.gates then
      var h := s.players[s.ptids[ptid]];
      [KickoffNtf(s.ptids[ptid], h.gateFd, h.transID, ptid)]
    else []
  }

  /** Everybody but player `id` and the earlier holder of the account stays as it is. */
  ghost predicate OthersStay(s: State, t: State, id: nat, ptid: string) {
    forall k :: k in s.players && k != id && !(ptid in s.ptids && s.ptids[ptid] == k) ==>
      k in t.players && t.players[k] == s.players[k]
  }

  /** Player `id` has come online under the account: it alone holds it, an earlier holder is destroyed and,
      if its gate is connected, told so before the new one is answered. */
  ghost predicate TookOver(s: State, t: State, id: nat, ptid: string)
    requires id in s.players
  {
    var p := s.players[id];
    && id in t.players && t.players[id] == p.(phase := Online, ptid := ptid)
    && ptid in t.ptids && t.ptids[ptid] == id
    && (ptid in s.ptids ==> s.ptids[ptid] != id && s.ptids[ptid] !in t.players) && OthersStay(s, t, id, ptid)
    && (t.lastId, t.issued, t.nextAuth, t.gates) == (s.lastId, s.issued, s.nextAuth, s.gates)
    && t.out == s.out + KickNotice(s, ptid)
                + (if p.gateFd in s.gates then [LoginAck(id, p.gateFd, p.transID, true, ptid, 0)] else [])
  }

  /** A success that matches the waiting player makes it the only holder of its account. */
  lemma TakeOver(cfg: Config, es: seq<Event>, msg: ApMsg, now: int, id: nat)
    requires Stage(Run(cfg, es), id) == 1 && Judges(msg, id) && msg.result == Success
    requires Matches(Run(cfg, es), msg, id)
    ensures var s := Run(cfg, es);
            var p := s.players[id];
            var ptid := FormatPtid(p.areaGroup, p.apType, p.authenID);
            TookOver(s, Step(cfg, s, ApMessage(msg, now)), id, ptid)
  {
    var s := Run(cfg, es);
    EveryRunKeeps(cfg, es);
    var p := s.players[id];
    var ptid := FormatPtid(p.areaGroup, p.apType, p.authenID);
    var u := Requeue(s, msg, now);
    hide Run, FormatPtid, Admit, TookOver, Inv, IdsInRange, PlayersIndexed, IndexLive, AnsweredOnce, AcksAddressed,
         Requeue;
    Requeued(s, msg, now);
    AdmitEffect(u, id, ptid);
    QueueAside(s, u, Admit(u, id, ptid), id, ptid);
  }

  lemma QueueAside(s: State, u: State, t: State, id: nat, ptid: string)
    requires u == s.(apQueue := u.apQueue) && id in s.players && TookOver(u, t, id, ptid)
    ensures TookOver(s, t, id, ptid)
  {
  }

  lemma Requeued(s: State, msg: ApMsg, now: int)
    requires Inv(s)
    ensures var u := Requeue(s, msg, now); u == s.(apQueue := u.apQueue) && Inv(u)
  {
    QueueKeeps(s, Requeue(s, msg, now).apQueue);
  }

  lemma AdmitEffect(s: State, id: nat, ptid: string)
    requires Inv(s) && id in s.players && s.players[id].phase == Login && ptid != ""
    ensures TookOver(s, Admit(s, id, ptid), id, ptid)
  {
    hide KickOff, KickNotice, Inv, Admit, LoginSucc, SetPtid;
    KickOffKeeps(s, ptid);
    KickOffEffect(s, ptid);
    HolderIsOnline(s, id, ptid);
    Settled(s, KickOff(s, ptid), id, ptid);
  }

  /** Once the account is free, the player is put online under it and answered. */
  lemma Settled(s: State, t: State, id: nat, ptid: string)
    requires id in t.players && ptid !in t.ptids && t == KickOff(s, ptid)
    ensures var p := t.players[id];
            Admit(s, id, ptid) == t.(players := t.players[id := p.(phase := Online, ptid := ptid)],
                                     ptids := t.ptids[ptid := id],
                                     out := t.out + To(t, p.gateFd, LoginAck(id, p.gateFd, p.transID, true, ptid, 0)))
  {
    hide KickOff;
  }

  lemma HolderIsOnline(s: State, id: nat, ptid: string)
    requires Inv(s) && id in s.players && s.players[id].phase == Login
    ensures ptid in s.ptids ==> s.ptids[ptid] != id && s.ptids[ptid] <= s.lastId
    ensures 0 !in s.players
  {
  }

  lemma KickOffEffect(s: State, ptid: string)
    requires Inv(s)
    ensures var t := KickOff(s, ptid);
            && t.out == s.out + KickNotice(s, ptid) && t.gates == s.gates && t.lastId == s.lastId
            && (ptid in s.ptids ==> s.ptids[ptid] !in t.players) && OthersStay(s, t, 0, ptid)
            && t.issued == s.issued && t.nextAuth == s.nextAuth
  {
  }

  // ---------------------------------------------------------------------------------------------
  // What decides on a login.

  /** The reply is a verdict on the login of player `id`. */
  predicate Judges(msg: ApMsg, id: nat) {
    msg.operation == AuthenAp && msg.auth.Some? && msg.auth.value.handle == id
  }

  /** The reply is about the very request that player `id` waits for. */
  predicate Matches(s: State, msg: ApMsg, id: nat)
    requires id in s.players && msg.auth.Some?
  {
    s.players[id].authenID == msg.auth.value.authenID && s.players[id].authID == msg.auth.value.authID
  }

  /** The refusal a player gets if its gate is up. */
  function Refusal(s: State, id: nat, error: int): seq<Message>
    requires id in s.players
  {
    var p := s.players[id];
    if p.gateFd in s.gates then [LoginAck(id, p.gateFd, p.transID, false, "", error)] else []
  }

  /** In every run: a reply logs a waiting player in if and only if it is a success of the authentication
      and matches its account name and record; every other verdict on it ends it, with one refusal. */
  lemma ReplyDecides(cfg: Config, es: seq<Event>, msg: ApMsg, now: int, id: nat)
    requires Stage(Run(cfg, es), id) == 1
    ensures var s := Run(cfg, es);
            var t := Step(cfg, s, ApMessage(msg, now));
            && (Stage(t, id) == 2 <==> Judges(msg, id) && msg.result == Success && Matches(s, msg, id))
            && (Stage(t, id) == 3 <==> Judges(msg, id) && msg.result != Success)
            && (Judges(msg, id) && msg.result != Success ==>
                  && OnlyEnds(s, t, id) && t.ptids == s.ptids && t.out == s.out + Refusal(s, id, msg.error))
            && (Judges(msg, id) && msg.result == Success && !Matches(s, msg, id) ==>
                  t.players == s.players && t.ptids == s.ptids && t.out == s.out)
  {
    hide Run, Admit, FormatPtid, Inv, IdsInRange, PlayersIndexed, IndexLive, AnsweredOnce, AcksAddressed;
    var s := Run(cfg, es);
    EveryRunKeeps(cfg, es);
    var u := Requeue(s, msg, now);
    QueueKeeps(s, u.apQueue);
    assert u == s.(apQueue := u.apQueue);
    if Judges(msg, id) && msg.result == Success && Matches(s, msg, id) {
      var p := s.players[id];
      AdmitKeeps(u, id, FormatPtid(p.areaGroup, p.apType, p.authenID));
      AdmitSources(u, id, FormatPtid(p.areaGroup, p.apType, p.authenID));
    } else if Judges(msg, id) {
      NobodyIsNamed(s);
    } else {
      OthersWait(s, u, msg, id);
    }
  }

  lemma NobodyIsNamed(s: State)
    requires Inv(s)
    ensures "" !in s.ptids && forall id :: id in s.players && s.players[id].phase == Login ==> s.players[id].ptid == ""
  {
  }

  /** A verdict on somebody else leaves a player that is logging in alone. */
  lemma OthersWait(s: State, u: State, msg: ApMsg, id: nat)
    requires Inv(s) && u == s.(apQueue := u.apQueue) && Inv(u) && Stage(s, id) == 1
    requires msg.auth.Some? && msg.operation == AuthenAp ==> msg.auth.value.handle != id
    ensures msg.auth.Some? && msg.operation == AuthenAp ==>
              Stage(OnApSucc(u, msg.auth.value), id) == 1 && Stage(OnApError(u, msg.auth.value, msg.error), id) == 1
  {
    hide Inv, Admit, FormatPtid;
    if msg.auth.Some? && msg.operation == AuthenAp && msg.auth.value.handle in s.players {
      var p := s.players[msg.auth.value.handle];
      var ptid := FormatPtid(p.areaGroup, p.apType, p.authenID);
      AdmitSpares(u, msg.auth.value.handle, ptid, id);
    }
  }

  lemma AdmitSpares(s: State, x: nat, ptid: string, id: nat)
    requires Inv(s) && x in s.players && id != x && Stage(s, id) == 1 && ptid != ""
    ensures Stage(Admit(s, x, ptid), id) == 1
  {
    KickOffKeeps(s, ptid);
    AdmitSources(s, x, ptid);
  }

  /** In every run: a reply that is no verdict on anybody, or on nobody who waits, leaves all players and the
      messages as they are; and one that is older than ten seconds is queued again as a time-out. */
  lemma OtherRepliesChangeNothing(cfg: Config, es: seq<Event>, msg: ApMsg, now: int)
    ensures var s := Run(cfg, es);
            var t := Step(cfg, s, ApMessage(msg, now));
            && t.apQueue == s.apQueue + (if msg.auth.Some? && now - msg.tick > 10000
                                         then [ApMsg(msg.auth, msg.operation, TimeOut, 2, now)] else [])
            && ((forall id :: Stage(s, id) == 1 ==> !Judges(msg, id)) ==> t == s.(apQueue := t.apQueue))
  {
    hide Run, Admit, FormatPtid;
    EveryRunKeeps(cfg, es);
    var s := Run(cfg, es);
    if msg.auth.Some? && msg.auth.value.handle in s.players {
      var p := s.players[msg.auth.value.handle];
      AdmitQueue(Requeue(s, msg, now), msg.auth.value.handle, FormatPtid(p.areaGroup, p.apType, p.authenID));
      assert p.phase == Login ==> Stage(s, msg.auth.value.handle) == 1;
    }
  }

  lemma AdmitQueue(s: State, id: nat, ptid: string)
    requires id in s.players
    ensures Admit(s, id, ptid).apQueue == s.apQueue
  {
  }

  /** A destroyed player is reached by no lookup, and no reply or event addressed to it changes a player or
      sends anything. */
  lemma DestroyedIsUnreachable(cfg: Config, es: seq<Event>, id: nat, msg: ApMsg, now: int, kind: GlobalEvent)
    requires Stage(Run(cfg, es), id) == 3 && (msg.auth.Some? ==> msg.auth.value.handle == id)
    ensures var s := Run(cfg, es);
            var t := Step(cfg, s, ApMessage(msg, now));
            && (forall ptid :: ptid in s.ptids ==> s.ptids[ptid] != id)
            && t == s.(apQueue := t.apQueue) && Step(cfg, s, Global(id, kind)) == s
  {
    EveryRunKeeps(cfg, es);
    OtherRepliesChangeNothing(cfg, es, msg, now);
    hide Run, ProcessAp;
    assert forall k :: Stage(Run(cfg, es), k) == 1 ==> !Judges(msg, k);
  }

  // ---------------------------------------------------------------------------------------------
  // Logging off.

  /** Everybody but player `id` stays as it is. */
  ghost predicate OnlyEnds(s: State, t: State, id: nat) {
    forall k :: k in s.players && k != id ==> k in t.players && t.players[k] == s.players[k]
  }

  /** A logoff for an account ends the player that holds it now, whoever sent it, and nobody else. */
  lemma LogoffEndsHolder(s: State, fd: nat, transID: nat, ptid: string)
    requires Inv(s)
    ensures var t := RecvLogoff(s, fd, transID, Some(ptid));
            && (ptid !in s.ptids ==> t == s)
            && (ptid in s.ptids ==> Stage(s, s.ptids[ptid]) == 2 && Stage(t, s.ptids[ptid]) == 3)
            && (ptid in s.ptids ==> OnlyEnds(s, t, s.ptids[ptid]) && t.ptids == s.ptids - {ptid} && t.out == s.out)
  {
  }

  /** All players a step ends were logged in by this client. */
  ghost predicate EndsOwn(s: State, t: State, rs: seq<(nat, nat)>, fd: nat, transID: nat) {
    forall k :: k in s.players && k !in t.players ==> 1 <= k <= |rs| && rs[k - 1] == (fd, transID)
  }

  /** A logoff ends only players of the client that sent it if and only if the account is held by none,
      or by a player of that client. */
  lemma LogoffEndsOwnIff(cfg: Config, es: seq<Event>, fd: nat, transID: nat, ptid: string)
    ensures var s := Run(cfg, es);
            && (ptid in s.ptids ==> 1 <= s.ptids[ptid] <= |Requests(es)|)
            && (EndsOwn(s, Step(cfg, s, Logoff(fd, transID, Some(ptid))), Requests(es), fd, transID)
                <==> ptid !in s.ptids || Requests(es)[s.ptids[ptid] - 1] == (fd, transID))
  {
    hide Run, Requests, PlayersIndexed, IndexLive, AnsweredOnce, AcksAddressed, RecvLogoff, Step;
    var s := Run(cfg, es);
    EveryRunSources(cfg, es);
    EveryRunKeeps(cfg, es);
    LogoffEndsHolder(s, fd, transID, ptid);
    LogoffIs(cfg, s, fd, transID, ptid);
  }

  /** Player `id` was logged in under an account, and later its client logs off. That ends no player but
      `id` if and only if `id` is still online, or nobody is online under the account any more. */
  lemma LogoffEndsOnlyItsOwnIff(cfg: Config, es: seq<Event>, more: seq<Event>, id: nat)
    requires Stage(Run(cfg, es), id) == 2
    ensures 0 < id <= |Requests(es)|
    ensures var ptid := Run(cfg, es).players[id].ptid;
            var (fd, transID) := Requests(es)[id - 1];
            var s := Run(cfg, es + more);
            var t := Step(cfg, s, Logoff(fd, transID, Some(ptid)));
            && Stage(t, id) == 3
            && (OnlyEnds(s, t, id) <==> Stage(s, id) == 2 || ptid !in s.ptids)
  {
    var ptid := Run(cfg, es).players[id].ptid;
    EveryRunSources(cfg, es);
    EveryRunKeeps(cfg, es + more);
    LifeNeverGoesBack(cfg, es, more);
    IndexIsExact(cfg, es + more, ptid, id);
    var (fd, transID) := Requests(es)[id - 1];
    LogoffEndsHolder(Run(cfg, es + more), fd, transID, ptid);
    hide Run, Requests, IdsInRange, PlayersIndexed, AnsweredOnce, AcksAddressed;
    assert Stage(Run(cfg, es), id) <= Stage(Run(cfg, es + more), id);
  }

  /** After a takeover, a logoff for the account ends the new holder, also when the client that was kicked
      off sends it, and nobody is told. */
  lemma LateLogoffEndsSuccessor(cfg: Config, es: seq<Event>, msg: ApMsg, now: int, id: nat, fd: nat, transID: nat)
    requires Stage(Run(cfg, es), id) == 1 && Judges(msg, id) && msg.result == Success
    requires Matches(Run(cfg, es), msg, id)
    ensures var p := Run(cfg, es).players[id];
            var ptid := FormatPtid(p.areaGroup, p.apType, p.authenID);
            var t := Step(cfg, Run(cfg, es), ApMessage(msg, now));
            var u := Step(cfg, t, Logoff(fd, transID, Some(ptid)));
            Stage(t, id) == 2 && Stage(u, id) == 3 && u.out == t.out
  {
    EveryRunKeeps(cfg, es);
    TakeOver(cfg, es, msg, now, id);
    StepKeeps(cfg, Run(cfg, es), ApMessage(msg, now));
    hide Run, FormatPtid, Inv, ProcessAp, RecvLogoff;
    var p := Run(cfg, es).players[id];
    var t := Step(cfg, Run(cfg, es), ApMessage(msg, now));
    LogoffEndsHolder(t, fd, transID, FormatPtid(p.areaGroup, p.apType, p.authenID));
    LogoffIs(cfg, t, fd, transID, FormatPtid(p.areaGroup, p.apType, p.authenID));
  }

  /** The account a request logs in under. */
  function PtidOf(r: Request): string { FormatPtid(r.areaGroup, r.apType % 0x1_0000, r.authAct) }

  /** In every run, what becomes of a login request: nothing if it cannot be parsed, a refusal for an old
      client; otherwise a new player, which takes the account over at once in local test mode and waits
      otherwise; and unless the white list is open a record is issued for it, under the next number. */
  lemma RequestDecides(cfg: Config, es: seq<Event>, fd: nat, transID: nat, req: Option<Request>)
    ensures var s := Run(cfg, es);
            var t := Step(cfg, s, LoginReq(fd, transID, req));
            var id := s.lastId + 1;
            && (req == None ==> t == s)
            && (req.Some? && req.value.clientVersion < cfg.minVersion ==>
                  && Stage(t, id) == 3 && t.players == s.players && t.ptids == s.ptids && t.issued == s.issued
                  && t.out == s.out + To(s, fd, LoginAck(id, fd, transID % 0x1_0000_0000, false, "", 1)))
            && (req.Some? && req.value.clientVersion >= cfg.minVersion ==>
                  Entered(cfg, s, t, fd, transID, req.value) && Recorded(cfg, s, t, id))
  {
    var s := Run(cfg, es);
    EveryRunKeeps(cfg, es);
    hide Run, FormatPtid, RecvLogin, Entered, Recorded, Inv;
    match req
    case None => RecvSources(cfg, s, fd, transID, None);
    case Some(r) =>
      if r.clientVersion < cfg.minVersion {
        Refused(cfg, s, fd, transID, r);
      } else {
        Accepted(cfg, s, fd, transID, r);
      }
  }

  /** How an accepted request changes the server. */
  ghost predicate Entered(cfg: Config, s: State, t: State, fd: nat, transID: nat, r: Request) {
    var id := s.lastId + 1;
    && t.lastId == id && id in t.players
    && (t.players[id].gateFd, t.players[id].transID) == (fd, transID % 0x1_0000_0000)
    && t.players[id].authenID == r.authAct
    && (t.players[id].areaGroup, t.players[id].apType) == (r.areaGroup, r.apType % 0x1_0000)
    && (if cfg.localTest then EnteredOnline(s, t, fd, transID, PtidOf(r))
        else
          && t.players[id].phase == Login && t.players[id].ptid == "" && OthersStay(s, t, id, "")
          && t.ptids == s.ptids && t.out == s.out)
  }

  ghost predicate EnteredOnline(s: State, t: State, fd: nat, transID: nat, ptid: string) {
    var id := s.lastId + 1;
    && id in t.players && t.players[id].phase == Online && t.players[id].ptid == ptid && OthersStay(s, t, id, ptid)
    && ptid in t.ptids && t.ptids[ptid] == id && (ptid in s.ptids ==> s.ptids[ptid] !in t.players)
    && t.out == s.out + KickNotice(s, ptid) + To(s, fd, LoginAck(id, fd, transID % 0x1_0000_0000, true, ptid, 0))
  }

  /** Whether a record has been issued for player `id`. */
  ghost predicate Recorded(cfg: Config, s: State, t: State, id: nat) {
    && t.issued == s.issued + (if cfg.openWhitePt then [] else [Auth(id, "", s.nextAuth)])
    && (!cfg.openWhitePt ==>
          id in t.players && t.players[id].authID == s.nextAuth && t.nextAuth == (s.nextAuth + 1) % 0x1_0000_0000)
  }

  lemma Accepted(cfg: Config, s: State, fd: nat, transID: nat, r: Request)
    requires Inv(s) && r.clientVersion >= cfg.minVersion
    ensures var t := RecvLogin(cfg, s, fd, transID, Some(r));
            Entered(cfg, s, t, fd, transID, r) && Recorded(cfg, s, t, s.lastId + 1)
  {
    var id := s.lastId + 1;
    var u := SetLoginData(Fetch(s, fd, transID), id, r);
    FetchKeeps(s, fd, transID);
    SetLoginDataKeeps(Fetch(s, fd, transID), id, r);
    Fetched(cfg, s, fd, transID, r);
    var v := if cfg.localTest then Admit(u, id, PtidOf(r)) else u;
    assert v.issued == s.issued && v.nextAuth == s.nextAuth && Entered(cfg, s, v, fd, transID, r) by {
      if cfg.localTest {
        hide Inv, Admit, FormatPtid, KickNotice;
        AdmitEffect(u, id, PtidOf(r));
        FetchedOnline(s, u, v, fd, transID, PtidOf(r));
      }
    }
    hide Inv, Admit, FormatPtid;
    Checked(cfg, s, v, fd, transID, r);
  }

  /** Issuing a record changes nothing else. */
  lemma Checked(cfg: Config, s: State, v: State, fd: nat, transID: nat, r: Request)
    requires Entered(cfg, s, v, fd, transID, r) && v.issued == s.issued && v.nextAuth == s.nextAuth
    requires forall k :: k in s.players ==> k <= s.lastId
    ensures var t := if cfg.openWhitePt then v else CheckApLogin(v, s.lastId + 1);
            Entered(cfg, s, t, fd, transID, r) && Recorded(cfg, s, t, s.lastId + 1)
  {
    hide FormatPtid, KickNotice;
  }

  lemma FetchedOnline(s: State, u: State, v: State, fd: nat, transID: nat, ptid: string)
    requires u.ptids == s.ptids && u.out == s.out && u.gates == s.gates && OthersStay(s, u, s.lastId + 1, "")
    requires "" !in s.ptids && KickNotice(u, ptid) == KickNotice(s, ptid)
    requires var id := s.lastId + 1;
             && id in u.players && id !in s.players && u.players[id].gateFd == fd
             && u.players[id].transID == transID % 0x1_0000_0000 && TookOver(u, v, id, ptid)
    ensures EnteredOnline(s, v, fd, transID, ptid)
  {
    hide KickNotice;
  }

  lemma Fetched(cfg: Config, s: State, fd: nat, transID: nat, r: Request)
    requires Inv(s)
    ensures var id := s.lastId + 1;
            var u := SetLoginData(Fetch(s, fd, transID), id, r);
            && u.ptids == s.ptids && u.out == s.out && u.gates == s.gates && OthersStay(s, u, id, "")
            && u.issued == s.issued && u.nextAuth == s.nextAuth && u.lastId == id
            && u.players[id] == Player(Login, "", r.authAct, r.areaGroup, r.apType % 0x1_0000, 0, fd,
                                       transID % 0x1_0000_0000)
            && KickNotice(u, PtidOf(r)) == KickNotice(s, PtidOf(r))
    ensures "" !in s.ptids && forall k :: k in s.players ==> k <= s.lastId
  {
  }

  /** What is sent to a gate if it is up. */
  function To(s: State, fd: nat, m: Message): seq<Message> { if fd in s.gates then [m] else [] }

  lemma Refused(cfg: Config, s: State, fd: nat, transID: nat, r: Request)
    requires Inv(s) && r.clientVersion < cfg.minVersion
    ensures var t := RecvLogin(cfg, s, fd, transID, Some(r));
            && Stage(t, s.lastId + 1) == 3 && t.players == s.players && t.ptids == s.ptids && t.issued == s.issued
            && t.out == s.out + To(s, fd, LoginAck(s.lastId + 1, fd, transID % 0x1_0000_0000, false, "", 1))
  {
    NobodyIsNamed(s);
  }

  /** In local test mode a login takes the account over at once. */
  lemma LocalLogin(cfg: Config, s: State, fd: nat, transID: nat, r: Request)
    requires Inv(s) && cfg.localTest && r.clientVersion >= cfg.minVersion
    ensures var t := Step(cfg, s, LoginReq(fd, transID, Some(r)));
            && t.lastId == s.lastId + 1 && PtidOf(r) in t.ptids && t.ptids[PtidOf(r)] == t.lastId
            && Stage(t, t.lastId) == 2
            && (PtidOf(r) in s.ptids ==> s.ptids[PtidOf(r)] !in t.players)
  {
    hide Inv, FormatPtid, RecvLogin;
    Accepted(cfg, s, fd, transID, r);
    HoldersExist(s);
  }

  lemma HoldersExist(s: State)
    requires Inv(s)
    ensures forall ptid :: ptid in s.ptids ==> s.ptids[ptid] <= s.lastId
  {
  }

  /** One login after another for the same account, and then a logoff that either client may send. */
  lemma LoginTwice(cfg: Config, s: State, a: (nat, nat), b: (nat, nat), r: Request)
    requires Inv(s) && cfg.localTest && r.clientVersion >= cfg.minVersion
    ensures var t := Step(cfg, s, LoginReq(a.0, a.1, Some(r)));
            var u := Step(cfg, t, LoginReq(b.0, b.1, Some(r)));
            var v := Step(cfg, u, Logoff(a.0, a.1, Some(PtidOf(r))));
            Stage(u, s.lastId + 1) == 3 && Stage(u, s.lastId + 2) == 2 && Stage(v, s.lastId + 2) == 3
  {
    hide Inv, PtidOf, Step, RecvLogoff;
    var e1, e2 := LoginReq(a.0, a.1, Some(r)), LoginReq(b.0, b.1, Some(r));
    var t := Step(cfg, s, e1);
    var u := Step(cfg, t, e2);
    StepKeeps(cfg, s, e1);
    StepKeeps(cfg, t, e2);
    LocalLogin(cfg, s, a.0, a.1, r);
    LocalLogin(cfg, t, b.0, b.1, r);
    LogoffEndsHolder(u, a.0, a.1, PtidOf(r));
    LogoffIs(cfg, u, a.0, a.1, PtidOf(r));
  }

  /** In local test mode, after any run: client `a` logs in, client `b` takes the account over, and the
      logoff of client `a` ends the player of client `b`. */
  lemma {:induction false} LateLogoffRun(cfg: Config, es: seq<Event>, a: (nat, nat), b: (nat, nat), r: Request)
    requires cfg.localTest && r.clientVersion >= cfg.minVersion
    ensures var more := es + [LoginReq(a.0, a.1, Some(r))] + [LoginReq(b.0, b.1, Some(r))];
            var n := |Requests(es)|;
            && Requests(more) == Requests(es) + [a, b]
            && Stage(Run(cfg, more), n + 1) == 3 && Stage(Run(cfg, more), n + 2) == 2
            && Stage(Run(cfg, more + [Logoff(a.0, a.1, Some(PtidOf(r)))]), n + 2) == 3
  {
    hide Run, Requests, PtidOf, Inv, Step, Stage;
    var e1, e2 := LoginReq(a.0, a.1, Some(r)), LoginReq(b.0, b.1, Some(r));
    EveryRunSources(cfg, es);
    RunOn(cfg, es, e1);
    RunOn(cfg, es + [e1], e2);
    RunOn(cfg, es + [e1] + [e2], Logoff(a.0, a.1, Some(PtidOf(r))));
    LoginTwice(cfg, Run(cfg, es), a, b, r);
  }

  lemma LogoffIs(cfg: Config, s: State, fd: nat, transID: nat, ptid: string)
    ensures Step(cfg, s, Logoff(fd, transID, Some(ptid))) == RecvLogoff(s, fd, transID, Some(ptid))
  {
  }

  lemma RunOn(cfg: Config, es: seq<Event>, e: Event)
    ensures Inv(Run(cfg, es)) && Run(cfg, es + [e]) == Step(cfg, Run(cfg, es), e)
    ensures Requests(es + [e]) == Requests(es) + FromRequest(e)
  {
    EveryRunKeeps(cfg, es);
    hide Step, FromRequest, Inv;
    assert (es + [e])[..|es|] == es;
  }

  // ---------------------------------------------------------------------------------------------
  // Replies that echo the record the server itself issued.

  ghost predicate IssuedBlank(s: State) {
    forall i :: 0 <= i < |s.issued| ==> s.issued[i].authenID == ""
  }

  lemma StepIssued(cfg: Config, s: State, e: Event)
    requires IssuedBlank(s)
    ensures IssuedBlank(Step(cfg, s, e))
  {
    forall t: State, id: nat, ptid: string | id in t.players
      ensures Admit(t, id, ptid).issued == t.issued
    {
      AdmitIssues(t, id, ptid);
    }
    hide Admit, FormatPtid, KickOff;
    match e
    case Kick(ptid) => KickOffIssues(s, ptid);
    case _ =>
  }

  lemma KickOffIssues(s: State, ptid: string)
    ensures KickOff(s, ptid).issued == s.issued
  {
  }

  lemma AdmitIssues(s: State, id: nat, ptid: string)
    requires id in s.players
    ensures Admit(s, id, ptid).issued == s.issued
  {
    KickOffIssues(s, ptid);
  }

  lemma {:induction false} EveryRunIssuesBlank(cfg: Config, es: seq<Event>)
    ensures IssuedBlank(Run(cfg, es))
  {
    if es != [] {
      EveryRunIssuesBlank(cfg, es[..|es| - 1]);
      StepIssued(cfg, Run(cfg, es[..|es| - 1]), es[|es| - 1]);
    }
  }

  /** A success that carries the issued record back unchanged. */
  function Echo(auth: Auth, error: int, tick: int): ApMsg { ApMsg(Some(auth), AuthenAp, Success, error, tick) }

  /** Such a reply logs a waiting player in exactly when the player's own account name is empty: the record
      never carries the account name. */
  lemma EchoedReplyAdmitsIff(cfg: Config, es: seq<Event>, i: nat, error: int, tick: int, now: int)
    requires var s := Run(cfg, es);
             && i < |s.issued| && s.issued[i].handle in s.players
             && s.players[s.issued[i].handle].phase == Login
             && s.players[s.issued[i].handle].authID == s.issued[i].authID
    ensures var s := Run(cfg, es);
            var id := s.issued[i].handle;
            var t := Step(cfg, s, ApMessage(Echo(s.issued[i], error, tick), now));
            && (Stage(t, id) == 2 <==> s.players[id].authenID == "")
            && (s.players[id].authenID != "" ==> t.players == s.players && t.ptids == s.ptids && t.out == s.out)
  {
    EveryRunKeeps(cfg, es);
    EveryRunIssuesBlank(cfg, es);
    var s := Run(cfg, es);
    assert Stage(s, s.issued[i].handle) == 1;
    hide Run, Inv, ProcessAp;
    ReplyDecides(cfg, es, Echo(s.issued[i], error, tick), now, s.issued[i].handle);
  }

  /** Such a record is issued for the first request of any client, whatever its account name. */
  lemma {:induction false} FirstRequestWaits(cfg: Config, r: Request)
    requires !cfg.localTest && !cfg.openWhitePt && r.clientVersion >= cfg.minVersion
    ensures var s := Run(cfg, [GateUp(1), LoginReq(1, 5, Some(r))]);
            && |s.issued| == 1 && s.issued[0].handle == 1 && 1 in s.players && s.players[1].phase == Login
            && s.players[1].authID == s.issued[0].authID && s.players[1].authenID == r.authAct
            && (r.authAct != "" ==>
                  forall error, tick, now ::
                    Step(cfg, s, ApMessage(Echo(s.issued[0], error, tick), now)).players == s.players)
  {
    var es := [GateUp(1), LoginReq(1, 5, Some(r))];
    assert es[..1] == [GateUp(1)] && es[..1][..0] == [];
    assert Run(cfg, []) == Init();
    assert Run(cfg, es[..1]) == Init().(gates := {1});
    assert Run(cfg, es) == Step(cfg, Run(cfg, es[..1]), es[1]);
    hide Step, Run;
    forall error, tick, now | r.authAct != ""
      ensures Step(cfg, Run(cfg, es), ApMessage(Echo(Run(cfg, es).issued[0], error, tick), now)).players
              == Run(cfg, es).players
    {
      EchoedReplyAdmitsIff(cfg, es, 0, error, tick, now);
    }
  }
}
