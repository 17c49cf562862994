/** The player lifecycle of the login server, as a transition system: the player state machine, the
    two indexes of the player manager, and the replies of the authentication platform. */
module LoginModel {
  import opened Prelude

  /** The states a live player can be in. Logout and destroy remove the player. */
  datatype Phase = Login | Online

  datatype Player = Player(phase: Phase, ptid: string, authenID: string, areaGroup: nat, apType: nat,
                           authID: nat, gateFd: nat, transID: nat)

  datatype Request = Request(clientVersion: int, authAct: string, areaGroup: nat, apType: nat)

  /** What an authentication reply carries; `handle` is the player id it was issued for. */
  datatype Auth = Auth(handle: nat, authenID: string, authID: nat)

  datatype Operation = Regist | AuthenAp | ChangePwd | LastOperation
  datatype Outcome = Success | Failed | SysError | TimeOut | MissPwd | NoUser | NotOpen | LastResult
  datatype ApMsg = ApMsg(auth: Option<Auth>, operation: Operation, result: Outcome, error: int, tick: int)

  datatype Message =
    | LoginAck(player: nat, fd: nat, transID: nat, ok: bool, ptid: string, error: int)
    | KickoffNtf(player: nat, fd: nat, transID: nat, ptid: string)

  datatype Config = Config(localTest: bool, openWhitePt: bool, minVersion: int)

  /** `origin` is history: the gate session and client each player id was created for. */
  datatype State = State(players: map<nat, Player>, ptids: map<string, nat>, lastId: nat, nextAuth: nat,
                         gates: set<nat>, apQueue: seq<ApMsg>, issued: seq<Auth>, out: seq<Message>,
                         origin: map<nat, (nat, nat)>)

  datatype GlobalEvent = Timeout | LogoutNtf | KickoffLs | Normal

  datatype Event =
    | GateUp(fd: nat)
    | GateDown(fd: nat)
    | LoginReq(fd: nat, transID: nat, req: Option<Request>)
    | Logoff(fd: nat, transID: nat, ntf: Option<string>)
    | Kick(ptid: string)
    | Global(id: nat, kind: GlobalEvent)
    | ApPush(msg: ApMsg)
    | ApTake
    | ApMessage(msg: ApMsg, now: int)

  const OLD_CLIENT: int := 1
  const STALE_AFTER: int := 10000

  // ---------------------------------------------------------------------------------------------
  // PTID text: "%d_%d_%s" printed into a 64-byte buffer.

  function Digits(n: nat): string {
    if n < 10 then [('0' as int + n) as char] else Digits(n / 10) + [('0' as int + n % 10) as char]
  }

  function Decimal(n: int): string { if n < 0 then "-" + Digits(-n) else Digits(n) }

  function AsInt32(n: nat): int { var m := n % 0x1_0000_0000; if m < 0x8000_0000 then m else m - 0x1_0000_0000 }

  /** What `%s` prints: the text up to a NUL. */
  function CString(s: string): string {
    if s == "" || s[0] == '\0' then "" else [s[0]] + CString(s[1..])
  }

  function FormatPtid(area: nat, apType: nat, authenID: string): (s: string)
    ensures 0 < |s| <= 63
  {
    var full := Decimal(AsInt32(area)) + "_" + Decimal(apType) + "_" + CString(authenID);
    if |full| <= 63 then full else full[..63]
  }

  // ---------------------------------------------------------------------------------------------
  // Operations of the manager and of a player.

  function Init(): State {
    State(map[], map[], 0, 0, {}, [], [], [], map[])
  }

  /** Client ids have 64 bits on the wire; the handler of login requests takes them in 32. */
  function Narrow(transID: nat): nat { transID % 0x1_0000_0000 }

  /** PlayerMgr::fetchPlayer, with the gate session and client the request came from. */
  function Fetch(s: State, fd: nat, transID: nat): State {
    var id := s.lastId + 1;
    s.(players := s.players[id := Player(Login, "", "", 0, 0, 0, fd, Narrow(transID))], lastId := id,
       origin := s.origin[id := (fd, transID)])
  }

  /** PlayerMgr::releasePlayer: both indexes are erased by the player's own keys. */
  function Release(s: State, id: nat): State
    requires id in s.players
  {
    s.(ptids := s.ptids - {s.players[id].ptid}, players := s.players - {id})
  }

  /** Player::send reaches the gate only while its session is registered. */
  function Send(s: State, p: Player, msg: Message): State {
    if p.gateFd in s.gates then s.(out := s.out + [msg]) else s
  }

  /** PlayerMgr::kickOffPlayer. */
  function KickOff(s: State, ptid: string): State {
    if ptid in s.ptids && s.ptids[ptid] in s.players then
      var id := s.ptids[ptid];
      var p := s.players[id];
      Release(Send(s, p, KickoffNtf(id, p.gateFd, p.transID, ptid)), id)
    else s
  }

  /** Player::setPTID: emplace keeps an entry that is already there. */
  function SetPtid(s: State, id: nat, ptid: string): State
    requires id in s.players
  {
    s.(players := s.players[id := s.players[id].(ptid := ptid)],
       ptids := if ptid in s.ptids then s.ptids else s.ptids[ptid := id])
  }

  /** Player::sendGateLoginSucc. */
  function LoginSucc(s: State, id: nat): State
    requires id in s.players
  {
    var p := s.players[id];
    var t := Send(s, p, LoginAck(id, p.gateFd, p.transID, true, p.ptid, 0));
    t.(players := t.players[id := p.(phase := Online)])
  }

  /** Player::sendGateLoginFail. */
  function LoginFail(s: State, id: nat, error: int): State
    requires id in s.players
  {
    var p := s.players[id];
    Release(Send(s, p, LoginAck(id, p.gateFd, p.transID, false, "", error)), id)
  }

  /** APMgr::checkApLoginData: a fresh auth record is sent to the worker threads. The record's
      AuthenID key is never set, so reading it back gives the empty string. */
  function CheckApLogin(s: State, id: nat): State
    requires id in s.players
  {
    s.(players := s.players[id := s.players[id].(authID := s.nextAuth)],
       issued := s.issued + [Auth(id, "", s.nextAuth)],
       nextAuth := (s.nextAuth + 1) % 0x1_0000_0000)
  }

  /** The login sequence shared by the local test mode and an accepted reply. */
  function Admit(s: State, id: nat, ptid: string): State
    requires id in s.players
  {
    var t := KickOff(s, ptid);
    if id in t.players then LoginSucc(SetPtid(t, id, ptid), id) else t
  }

  /** LoginState::HandleAPLoginReq. */
  function HandleLoginReq(cfg: Config, s: State, id: nat): State
    requires id in s.players
  {
    var p := s.players[id];
    var t := if cfg.localTest
             then Admit(s, id, if '_' in p.ptid then p.ptid else FormatPtid(p.areaGroup, p.apType, p.authenID))
             else s;
    if cfg.openWhitePt || id !in t.players then t else CheckApLogin(t, id)
  }

  function SetLoginData(s: State, id: nat, r: Request): State
    requires id in s.players
  {
    var p := s.players[id].(authenID := r.authAct, areaGroup := r.areaGroup, apType := r.apType % 0x1_0000);
    s.(players := s.players[id := p])
  }

  /** PacketParser::RecvGgLoginReq. */
  function RecvLogin(cfg: Config, s: State, fd: nat, transID: nat, req: Option<Request>): State {
    match req
    case None => s
    case Some(r) =>
      var t := Fetch(s, fd, transID);
      var id := t.lastId;
      if r.clientVersion < cfg.minVersion then LoginFail(t, id, OLD_CLIENT)
      else
        HandleLoginReq(cfg, SetLoginData(t, id, r), id)
  }

  /** PlayerFSM::onEvent with a global event. */
  function OnGlobal(s: State, id: nat, kind: GlobalEvent): State {
    if id in s.players && (kind == LogoutNtf || kind == KickoffLs) then Release(s, id) else s
  }

  /** PacketParser::OnLogoffNtf. The player is found by the account alone: neither the gate session nor
      the client that sent the message is looked at. */
  function RecvLogoff(s: State, fd: nat, transID: nat, ptid: Option<string>): State {
    if ptid.Some? && ptid.value in s.ptids then OnGlobal(s, s.ptids[ptid.value], LogoutNtf) else s
  }

  /** APMgr::onAPSucc and LoginState::onEvent. */
  function OnApSucc(s: State, auth: Auth): State {
    if auth.handle in s.players && s.players[auth.handle].phase == Login then
      var p := s.players[auth.handle];
      if p.authenID == auth.authenID && p.authID == auth.authID
      then Admit(s, auth.handle, FormatPtid(p.areaGroup, p.apType, p.authenID))
      else s
    else s
  }

  /** APMgr::onAPError and LoginState::onEvent. */
  function OnApError(s: State, auth: Auth, error: int): State {
    if auth.handle in s.players && s.players[auth.handle].phase == Login
    then LoginFail(s, auth.handle, error) else s
  }

  function Requeue(s: State, msg: ApMsg, now: int): State {
    if now - msg.tick > STALE_AFTER
    then s.(apQueue := s.apQueue + [ApMsg(msg.auth, msg.operation, TimeOut, 2, now)]) else s
  }

  /** APMgr::processApMsg: a stale message also queues a time_out, and is then processed as well. */
  function ProcessAp(s: State, msg: ApMsg, now: int): State {
    match msg.auth
    case None => s
    case Some(auth) =>
      var t := Requeue(s, msg, now);
      if msg.operation != AuthenAp then t
      else if msg.result == Success then OnApSucc(t, auth)
      else OnApError(t, auth, msg.error)
  }

  function Step(cfg: Config, s: State, e: Event): State {
    match e
    case GateUp(fd) => s.(gates := s.gates + {fd})
    case GateDown(fd) => s.(gates := s.gates - {fd})
    case LoginReq(fd, transID, req) => RecvLogin(cfg, s, fd, transID, req)
    case Logoff(fd, transID, ptid) => RecvLogoff(s, fd, transID, ptid)
    case Kick(ptid) => KickOff(s, ptid)
    case Global(id, kind) => OnGlobal(s, id, kind)
    case ApPush(msg) => s.(apQueue := s.apQueue + [msg])
    case ApTake => s.(apQueue := [])
    case ApMessage(msg, now) => ProcessAp(s, msg, now)
  }

  function RunFrom(cfg: Config, s: State, es: seq<Event>): State {
    if es == [] then s else Step(cfg, RunFrom(cfg, s, es[..|es| - 1]), es[|es| - 1])
  }

  function Run(cfg: Config, es: seq<Event>): State { RunFrom(cfg, Init(), es) }

  // ---------------------------------------------------------------------------------------------
  // What every step keeps.

  /** `fd` and `transID` are what is kept of the request that created player `id`. */
  predicate Comes(s: State, id: nat, fd: nat, transID: nat) {
    id in s.origin && s.origin[id].0 == fd && Narrow(s.origin[id].1) == transID
  }

  ghost predicate IdsInRange(s: State) {
    && (forall id :: id in s.players ==> 1 <= id <= s.lastId)
    && (forall id :: id in s.origin <==> 1 <= id <= s.lastId)
    && (forall id :: id in s.players ==> Comes(s, id, s.players[id].gateFd, s.players[id].transID))
  }

  /** A player holds an account id exactly when it is online, and then the index maps it back. */
  ghost predicate PlayersIndexed(s: State) {
    forall id :: id in s.players ==>
      var p := s.players[id];
      if p.phase == Login then p.ptid == ""
      else p.ptid != "" && p.ptid in s.ptids && s.ptids[p.ptid] == id
  }

  /** No entry of the account index is stale. */
  ghost predicate IndexLive(s: State) {
    forall ptid :: ptid in s.ptids ==>
      && s.ptids[ptid] in s.players
      && s.players[s.ptids[ptid]].phase == Online
      && s.players[s.ptids[ptid]].ptid == ptid
  }

  /** Nobody is answered twice, and nobody who is still logging in has been answered. */
  ghost predicate AnsweredOnce(s: State) {
    && (forall i, j :: 0 <= i < j < |s.out| && s.out[i].LoginAck? && s.out[j].LoginAck? ==>
          s.out[i].player != s.out[j].player)
    && (forall i :: 0 <= i < |s.out| && s.out[i].LoginAck? && s.out[i].player in s.players ==>
          s.players[s.out[i].player].phase == Online)
  }

  /** Every message went to the gate session of the request that created the player, for the client
      named by the low half of the request's client id, and a success names the account of the player
      if it is still there. */
  ghost predicate AcksAddressed(s: State) {
    forall i :: 0 <= i < |s.out| ==>
      && Comes(s, s.out[i].player, s.out[i].fd, s.out[i].transID)
      && (s.out[i].LoginAck? && s.out[i].player in s.players ==>
            s.out[i].ok && s.out[i].ptid == s.players[s.out[i].player].ptid)
  }

  ghost predicate Inv(s: State) {
    IdsInRange(s) && PlayersIndexed(s) && IndexLive(s) && AnsweredOnce(s) && AcksAddressed(s)
  }

  lemma FetchKeeps(s: State, fd: nat, transID: nat)
    requires Inv(s)
    ensures Inv(Fetch(s, fd, transID))
  {
  }

  lemma ReleaseKeeps(s: State, id: nat)
    requires Inv(s) && id in s.players
    ensures Inv(Release(s, id))
  {
  }

  lemma SendKickoffKeeps(s: State, p: Player, id: nat, ptid: string)
    requires Inv(s) && Comes(s, id, p.gateFd, p.transID)
    ensures Inv(Send(s, p, KickoffNtf(id, p.gateFd, p.transID, ptid)))
  {
  }

  /** After a kick nobody holds the account; players in the login state are untouched. */
  lemma KickOffKeeps(s: State, ptid: string)
    requires Inv(s)
    ensures Inv(KickOff(s, ptid))
    ensures ptid !in KickOff(s, ptid).ptids
    ensures forall id :: id in s.players && s.players[id].phase == Login ==>
              id in KickOff(s, ptid).players && KickOff(s, ptid).players[id] == s.players[id]
  {
    if ptid in s.ptids {
      var id := s.ptids[ptid];
      var p := s.players[id];
      SendKickoffKeeps(s, p, id, ptid);
      ReleaseKeeps(Send(s, p, KickoffNtf(id, p.gateFd, p.transID, ptid)), id);
    }
  }

  lemma AdmitKeeps(s: State, id: nat, ptid: string)
    requires Inv(s) && id in s.players && s.players[id].phase == Login && ptid != ""
    ensures Inv(Admit(s, id, ptid))
    ensures id in Admit(s, id, ptid).players
    ensures Admit(s, id, ptid).players[id] == s.players[id].(phase := Online, ptid := ptid)
  {
    KickOffKeeps(s, ptid);
    var t := KickOff(s, ptid);
    AdmitFree(t, id, ptid);
  }

  lemma AdmitFree(t: State, id: nat, ptid: string)
    requires Inv(t) && id in t.players && t.players[id].phase == Login && ptid != "" && ptid !in t.ptids
    ensures Inv(LoginSucc(SetPtid(t, id, ptid), id))
  {
    AdmitIndexes(t, id, ptid);
    AdmitAcks(t, id, ptid);
  }

  lemma AdmitIndexes(t: State, id: nat, ptid: string)
    requires IdsInRange(t) && PlayersIndexed(t) && IndexLive(t)
    requires id in t.players && t.players[id].phase == Login && ptid != "" && ptid !in t.ptids
    ensures var r := LoginSucc(SetPtid(t, id, ptid), id);
            IdsInRange(r) && PlayersIndexed(r) && IndexLive(r)
  {
  }

  lemma AdmitAcks(t: State, id: nat, ptid: string)
    requires IdsInRange(t) && AnsweredOnce(t) && AcksAddressed(t)
    requires id in t.players && t.players[id].phase == Login
    ensures var r := LoginSucc(SetPtid(t, id, ptid), id); AnsweredOnce(r) && AcksAddressed(r)
  {
  }

  lemma LoginFailKeeps(s: State, id: nat, error: int)
    requires Inv(s) && id in s.players && s.players[id].phase == Login
    ensures Inv(LoginFail(s, id, error))
  {
    LoginFailIndexes(s, id, error);
    LoginFailAcks(s, id, error);
  }

  lemma LoginFailIndexes(s: State, id: nat, error: int)
    requires IdsInRange(s) && PlayersIndexed(s) && IndexLive(s) && id in s.players && s.players[id].phase == Login
    ensures var r := LoginFail(s, id, error); IdsInRange(r) && PlayersIndexed(r) && IndexLive(r)
  {
  }

  lemma LoginFailAcks(s: State, id: nat, error: int)
    requires IdsInRange(s) && AnsweredOnce(s) && AcksAddressed(s) && id in s.players && s.players[id].phase == Login
    ensures var r := LoginFail(s, id, error); AnsweredOnce(r) && AcksAddressed(r)
  {
  }

  lemma CheckApLoginKeeps(s: State, id: nat)
    requires Inv(s) && id in s.players
    ensures Inv(CheckApLogin(s, id))
  {
    var r := CheckApLogin(s, id);
    assert IdsInRange(r) && PlayersIndexed(r);
    assert AnsweredOnce(r) && AcksAddressed(r);
  }

  lemma SetLoginDataKeeps(s: State, id: nat, r: Request)
    requires Inv(s) && id in s.players
    ensures Inv(SetLoginData(s, id, r))
  {
    var t := SetLoginData(s, id, r);
    assert IdsInRange(t) && PlayersIndexed(t);
    assert AnsweredOnce(t) && AcksAddressed(t);
  }

  lemma HandleLoginReqKeeps(cfg: Config, s: State, id: nat)
    requires Inv(s) && id in s.players && s.players[id].phase == Login
    ensures Inv(HandleLoginReq(cfg, s, id))
  {
    var p := s.players[id];
    var ptid := FormatPtid(p.areaGroup, p.apType, p.authenID);
    var t := if cfg.localTest then Admit(s, id, ptid) else s;
    assert p.ptid == "";
    hide Inv, Admit, FormatPtid, CheckApLogin;
    AdmitKeeps(s, id, ptid);
    CheckApLoginKeeps(t, id);
  }

  lemma RecvLoginKeeps(cfg: Config, s: State, fd: nat, transID: nat, req: Option<Request>)
    requires Inv(s)
    ensures Inv(RecvLogin(cfg, s, fd, transID, req))
  {
    hide Inv, LoginFail, HandleLoginReq;
    if req.Some? {
      FetchKeeps(s, fd, transID);
      var t := Fetch(s, fd, transID);
      if req.value.clientVersion < cfg.minVersion {
        LoginFailKeeps(t, t.lastId, OLD_CLIENT);
      } else {
        SetLoginDataKeeps(t, t.lastId, req.value);
        HandleLoginReqKeeps(cfg, SetLoginData(t, t.lastId, req.value), t.lastId);
      }
    }
  }

  lemma QueueKeeps(s: State, q: seq<ApMsg>)
    requires Inv(s)
    ensures Inv(s.(apQueue := q))
  {
  }

  lemma ProcessApKeeps(s: State, msg: ApMsg, now: int)
    requires Inv(s)
    ensures Inv(ProcessAp(s, msg, now))
  {
    hide Inv, Admit, LoginFail, FormatPtid;
    if msg.auth.Some? {
      var t := Requeue(s, msg, now);
      QueueKeeps(s, t.apQueue);
      var id := msg.auth.value.handle;
      if id in t.players && t.players[id].phase == Login {
        var p := t.players[id];
        AdmitKeeps(t, id, FormatPtid(p.areaGroup, p.apType, p.authenID));
        LoginFailKeeps(t, id, msg.error);
      }
    }
  }

  lemma OnGlobalKeeps(s: State, id: nat, kind: GlobalEvent)
    requires Inv(s)
    ensures Inv(OnGlobal(s, id, kind))
  {
    if id in s.players {
      ReleaseKeeps(s, id);
    }
  }

  lemma StepKeeps(cfg: Config, s: State, e: Event)
    requires Inv(s)
    ensures Inv(Step(cfg, s, e))
  {
    match e
    case LoginReq(fd, transID, req) => RecvLoginKeeps(cfg, s, fd, transID, req);
    case Logoff(_, _, ptid) =>
      if ptid.Some? && ptid.value in s.ptids {
        OnGlobalKeeps(s, s.ptids[ptid.value], LogoutNtf);
      }
    case Kick(ptid) => KickOffKeeps(s, ptid);
    case Global(id, kind) => OnGlobalKeeps(s, id, kind);
    case ApMessage(msg, now) => ProcessApKeeps(s, msg, now);
    case _ =>
  }

  /** The invariant holds after every run of events, in any order. */
  lemma {:induction false} EveryRunKeeps(cfg: Config, es: seq<Event>)
    ensures Inv(Run(cfg, es))
  {
    if es != [] {
      EveryRunKeeps(cfg, es[..|es| - 1]);
      StepKeeps(cfg, Run(cfg, es[..|es| - 1]), es[|es| - 1]);
    }
  }
}
