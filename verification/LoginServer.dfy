/** The login server itself: player objects, the manager that indexes them, and the handlers, each
    proved to do what the transition system says. */
module LoginServer {
  import opened Prelude
  import opened LoginModel

  /** FsmStateType: the targets of a state change. */
  datatype FsmState = ToLogin | ToOnline | ToLogout | ToGlobal | ToDestroy | ToDummy

  class Player {
    const id: nat
    var current: Phase
    var previous: Phase
    var owned: bool
    var ptid: string
    var authenID: string
    var areaGroup: nat
    var apType: nat
    var authID: nat
    var gateFd: nat
    var transID: nat

    constructor (id: nat, fd: nat, transID: nat)
      ensures this.id == id && owned
      ensures Data() == LoginModel.Player(Login, "", "", 0, 0, 0, fd, transID)
    {
      this.id := id;
      current, previous, owned := Login, Login, true;
      ptid, authenID, areaGroup, apType, authID := "", "", 0, 0, 0;
      gateFd, this.transID := fd, transID;
    }

    ghost function Data(): LoginModel.Player
      reads this
    {
      LoginModel.Player(current, ptid, authenID, areaGroup, apType, authID, gateFd, transID)
    }
  }

  class Server {
    const cfg: Config
    var playerMap: map<nat, Player>
    var ptidMap: map<string, nat>
    var playerIdx: nat
    var authIdx: nat
    var gates: set<nat>
    var apgList: seq<ApMsg>
    var handler: seq<Auth>
    var out: seq<Message>
    ghost var origin: map<nat, (nat, nat)>

    constructor (cfg: Config)
      ensures Valid() && this.cfg == cfg && View() == Run(cfg, [])
    {
      this.cfg := cfg;
      playerMap, ptidMap, playerIdx, authIdx, gates := map[], map[], 0, 0, {};
      apgList, handler, out, origin := [], [], [], map[];
    }

    ghost predicate Valid()
      reads this, playerMap.Values
    {
      forall id :: id in playerMap ==> playerMap[id].id == id && playerMap[id].owned
    }

    ghost function View(): State
      reads this, playerMap.Values
    {
      State(map id | id in playerMap :: playerMap[id].Data(), ptidMap, playerIdx, authIdx, gates,
            apgList, handler, out, origin)
    }

    ghost predicate Holds(p: Player)
      reads this
    {
      p.id in playerMap && playerMap[p.id] == p
    }

    /** Objects stay under the ids they were created with, and none is added. */
    twostate predicate SameObjects()
      reads this
    {
      forall id :: id in playerMap ==> id in old(playerMap) && playerMap[id] == old(playerMap)[id]
    }

    /** Changing the fields of one player changes the view at its id only. */
    twostate lemma OneChanged(p: Player)
      requires old(Valid()) && old(Holds(p)) && playerMap == old(playerMap) && p.owned
      requires forall id :: id in playerMap && playerMap[id] != p ==> unchanged(playerMap[id])
      ensures Valid()
      ensures View().players == old(View()).players[p.id := p.Data()]
    {
    }

    method FetchPlayer(fd: nat, transID: nat) returns (p: Player)
      requires Valid()
      modifies this
      ensures Valid() && fresh(p) && p.id == playerIdx && playerMap == old(playerMap)[p.id := p]
      ensures View() == Fetch(old(View()), fd, transID)
    {
      playerIdx := playerIdx + 1;
      p := new Player(playerIdx, fd, Narrow(transID));
      playerMap := playerMap[playerIdx := p];
      origin := origin[playerIdx := (fd, transID)];
    }

    method ReleasePlayer(p: Player)
      requires Valid() && Holds(p)
      modifies this
      ensures Valid() && SameObjects()
      ensures View() == Release(old(View()), p.id)
    {
      ptidMap := ptidMap - {p.ptid};
      playerMap := playerMap - {p.id};
    }

    method SendTo(p: Player, msg: Message)
      requires Valid()
      modifies this`out
      ensures Valid()
      ensures View() == Send(old(View()), p.Data(), msg)
    {
      if p.gateFd in gates {
        out := out + [msg];
      }
    }

    /** PlayerFSM::changeState, setState and notifyOwnerDestroy. */
    method ChangeState(p: Player, state: FsmState) returns (changed: bool)
      requires Valid() && Holds(p)
      modifies this, p
      ensures Valid() && SameObjects()
      ensures state == ToOnline ==>
                View() == old(View()).(players := old(View()).players[p.id := old(p.Data()).(phase := Online)])
      ensures state == ToLogout || state == ToDestroy ==> View() == Release(old(View()), p.id) && !p.owned
      ensures state != ToLogout && state != ToDestroy ==> playerMap == old(playerMap)
      ensures state == ToLogin || state == ToGlobal || state == ToDummy ==> View() == old(View())
    {
      if state == ToDummy {
        return false;
      }
      if state == (if p.current == Login then ToLogin else ToOnline) {
        return false;
      }
      match state {
        case ToOnline =>
          p.previous := p.current;
          p.current := Online;
          OneChanged(p);
        case ToLogout | ToDestroy =>
          ReleasePlayer(p);
          p.owned := false;
        case _ =>
      }
      changed := true;
    }

    method KickOffPlayer(ptid: string)
      requires Valid()
      modifies this, playerMap.Values
      ensures Valid() && SameObjects()
      ensures View() == KickOff(old(View()), ptid)
    {
      hide Release;
      if ptid in ptidMap && ptidMap[ptid] in playerMap {
        var p := playerMap[ptidMap[ptid]];
        SendTo(p, KickoffNtf(p.id, p.gateFd, p.transID, ptid));
        var _ := ChangeState(p, ToLogout);
      }
    }

    method SetPTID(p: Player, ptid: string)
      requires Valid() && Holds(p)
      modifies this, p
      ensures Valid() && playerMap == old(playerMap)
      ensures View() == SetPtid(old(View()), p.id, ptid)
    {
      p.ptid := ptid;
      OneChanged(p);
      if ptid !in ptidMap {
        ptidMap := ptidMap[ptid := p.id];
      }
    }

    method SendGateLoginFail(p: Player, error: int)
      requires Valid() && Holds(p)
      modifies this, p
      ensures Valid() && SameObjects()
      ensures View() == LoginFail(old(View()), p.id, error)
    {
      hide Release;
      SendTo(p, LoginAck(p.id, p.gateFd, p.transID, false, "", error));
      var _ := ChangeState(p, ToLogout);
    }

    method SendGateLoginSucc(p: Player)
      requires Valid() && Holds(p)
      modifies this, p
      ensures Valid() && playerMap == old(playerMap)
      ensures View() == LoginSucc(old(View()), p.id)
    {
      SendTo(p, LoginAck(p.id, p.gateFd, p.transID, true, p.ptid, 0));
      var _ := ChangeState(p, ToOnline);
    }

    method CheckApLoginData(p: Player)
      requires Valid() && Holds(p)
      modifies this, p
      ensures Valid() && playerMap == old(playerMap)
      ensures View() == CheckApLogin(old(View()), p.id)
    {
      var auth := Auth(p.id, "", authIdx);
      authIdx := (authIdx + 1) % 0x1_0000_0000;
      p.authID := auth.authID;
      OneChanged(p);
      handler := handler + [auth];
    }

    /** The sequence kickOffPlayer, setPTID, sendGateLoginSucc shared by both ways to log in. */
    method AdmitPlayer(p: Player, ptid: string)
      requires Valid() && Holds(p) && Inv(View()) && p.current == Login
      modifies this, playerMap.Values
      ensures Valid() && SameObjects() && Holds(p)
      ensures View() == Admit(old(View()), p.id, ptid)
    {
      hide Inv, KickOff, SetPtid, LoginSucc, Admit;
      assert View().players[p.id].phase == Login;
      AdmitSteps(View(), p.id, ptid);
      KickOffPlayer(ptid);
      assert p.id in View().players && Holds(p);
      SetPTID(p, ptid);
      SendGateLoginSucc(p);
    }

    method HandleAPLoginReq(p: Player)
      requires Valid() && Holds(p) && Inv(View()) && p.current == Login
      modifies this, playerMap.Values
      ensures Valid() && SameObjects()
      ensures View() == HandleLoginReq(cfg, old(View()), p.id)
    {
      hide Inv, Admit, CheckApLogin, FormatPtid;
      if cfg.localTest {
        var ptid := p.ptid;
        if '_' !in ptid {
          ptid := FormatPtid(p.areaGroup, p.apType, p.authenID);
        }
        AdmitPlayer(p, ptid);
      }
      if cfg.openWhitePt {
        return;
      }
      CheckApLoginData(p);
    }

    method RecvGgLoginReq(req: Option<Request>, fd: nat, transID: nat)
      requires Valid() && Inv(View())
      modifies this, playerMap.Values
      ensures Valid() && Inv(View())
      ensures forall id :: id in playerMap ==>
                if id in old(playerMap) then playerMap[id] == old(playerMap)[id] else fresh(playerMap[id])
      ensures View() == RecvLogin(cfg, old(View()), fd, transID, req)
    {
      hide Inv, LoginFail, HandleLoginReq, SetLoginData, Fetch;
      NextIsFree(View(), fd, transID);
      RecvLoginKeeps(cfg, View(), fd, transID, req);
      if req == None {
        return;
      }
      FetchKeeps(View(), fd, transID);
      var p := FetchPlayer(fd, transID);
      StartLogin(p, req.value);
    }

    /** The part of RecvGgLoginReq that works on the player just fetched. */
    method StartLogin(p: Player, r: Request)
      requires Valid() && Holds(p) && Inv(View()) && p.current == Login
      modifies this, playerMap.Values
      ensures Valid() && SameObjects()
      ensures View() == if r.clientVersion < cfg.minVersion then LoginFail(old(View()), p.id, OLD_CLIENT)
                        else HandleLoginReq(cfg, SetLoginData(old(View()), p.id, r), p.id)
    {
      hide Inv, LoginFail, HandleLoginReq, SetLoginData;
      if r.clientVersion < cfg.minVersion {
        SendGateLoginFail(p, OLD_CLIENT);
        return;
      }
      SetLoginDataKeeps(View(), p.id, r);
      SetLogin(p, r);
      HandleAPLoginReq(p);
    }

    method SetLogin(p: Player, r: Request)
      requires Valid() && Holds(p)
      modifies p
      ensures Valid() && p.current == old(p.current)
      ensures View() == SetLoginData(old(View()), p.id, r)
    {
      p.authenID, p.areaGroup, p.apType := r.authAct, r.areaGroup, r.apType % 0x1_0000;
      OneChanged(p);
    }

    method OnLogoffNtf(gateFd: nat, transID: nat, ntf: Option<string>)
      requires Valid() && Inv(View())
      modifies this, playerMap.Values
      ensures Valid() && SameObjects() && Inv(View())
      ensures View() == RecvLogoff(old(View()), gateFd, transID, ntf)
    {
      hide Inv, Release, Step;
      NoPlayerZero(View());
      LogoffIsStep(cfg, View(), gateFd, transID, ntf);
      StepKeeps(cfg, View(), Logoff(gateFd, transID, ntf));
      if ntf == None || ntf.value !in ptidMap {
        return;
      }
      var id := ptidMap[ntf.value];
      if id == 0 || id !in playerMap {
        return;
      }
      var _ := ChangeState(playerMap[id], ToLogout);
    }

    method OnAPSucc(auth: Auth)
      requires Valid() && Inv(View())
      modifies this, playerMap.Values
      ensures Valid() && SameObjects()
      ensures View() == OnApSucc(old(View()), auth)
    {
      hide Inv, Admit, FormatPtid;
      if auth.handle !in playerMap {
        return;
      }
      var p := playerMap[auth.handle];
      if p.current == Login && p.authenID == auth.authenID && p.authID == auth.authID {
        AdmitPlayer(p, FormatPtid(p.areaGroup, p.apType, p.authenID));
      }
    }

    method OnAPError(auth: Auth, error: int)
      requires Valid()
      modifies this, playerMap.Values
      ensures Valid() && SameObjects()
      ensures View() == OnApError(old(View()), auth, error)
    {
      hide LoginFail;
      if auth.handle !in playerMap {
        return;
      }
      var p := playerMap[auth.handle];
      if p.current == Login {
        SendGateLoginFail(p, error);
      }
    }

    method ProcessApMsg(msg: ApMsg, now: int)
      requires Valid() && Inv(View())
      modifies this, playerMap.Values
      ensures Valid() && SameObjects() && Inv(View())
      ensures View() == ProcessAp(old(View()), msg, now)
    {
      hide Inv, OnApSucc, OnApError;
      ProcessApKeeps(View(), msg, now);
      if msg.auth == None {
        return;
      }
      QueueKeeps(View(), apgList + [ApMsg(msg.auth, msg.operation, TimeOut, 2, now)]);
      if now - msg.tick > STALE_AFTER {
        apgList := apgList + [ApMsg(msg.auth, msg.operation, TimeOut, 2, now)];
      }
      assert View() == Requeue(old(View()), msg, now);
      if msg.operation == AuthenAp {
        if msg.result == Success {
          OnAPSucc(msg.auth.value);
        } else {
          OnAPError(msg.auth.value, msg.error);
        }
      }
    }

    /** APMgr::onUpdate: take the queue, then process what was taken, in order. */
    method OnUpdate(now: int)
      requires Valid() && Inv(View())
      modifies this, playerMap.Values
      ensures Valid() && SameObjects() && Inv(View())
      ensures View() == RunFrom(cfg, old(View()), [ApTake] + Messages(old(apgList), now))
    {
      hide Inv, ProcessAp, Messages, RunFrom;
      var taken := apgList;
      ghost var before := View();
      QueueKeeps(before, []);
      TakeIsFirst(cfg, before, taken, now);
      apgList := [];
      assert View() == before.(apQueue := []);
      for i := 0 to |taken|
        invariant Valid() && SameObjects() && Inv(View())
        invariant View() == RunFrom(cfg, old(View()), [ApTake] + Messages(taken[..i], now))
      {
        ProcessApMsg(taken[i], now);
        MessagesStep(cfg, before, taken, i, now);
      }
      assert taken[..|taken|] == taken;
    }
  }

  function Messages(msgs: seq<ApMsg>, now: int): (es: seq<Event>)
    ensures |es| == |msgs| && forall i :: 0 <= i < |es| ==> es[i] == ApMessage(msgs[i], now)
  {
    seq(|msgs|, i requires 0 <= i < |msgs| => ApMessage(msgs[i], now))
  }

  lemma LogoffIsStep(cfg: Config, s: State, fd: nat, transID: nat, ntf: Option<string>)
    ensures Step(cfg, s, Logoff(fd, transID, ntf)) == RecvLogoff(s, fd, transID, ntf)
  {
  }

  lemma NoPlayerZero(s: State)
    requires Inv(s)
    ensures 0 !in s.players
  {
  }

  lemma NextIsFree(s: State, fd: nat, transID: nat)
    requires Inv(s)
    ensures s.lastId + 1 !in s.players
    ensures var t := Fetch(s, fd, transID);
            t.lastId == s.lastId + 1 && t.lastId in t.players && t.players[t.lastId].phase == Login
  {
  }

  lemma AdmitSteps(s: State, id: nat, ptid: string)
    requires Inv(s) && id in s.players && s.players[id].phase == Login
    ensures id in KickOff(s, ptid).players
    ensures Admit(s, id, ptid) == LoginSucc(SetPtid(KickOff(s, ptid), id, ptid), id)
  {
    hide Inv, KickOff, LoginSucc, SetPtid;
    KickOffKeeps(s, ptid);
  }

  lemma TakeIsFirst(cfg: Config, s: State, msgs: seq<ApMsg>, now: int)
    ensures RunFrom(cfg, s, [ApTake] + Messages(msgs[..0], now)) == s.(apQueue := [])
  {
    assert [ApTake] + Messages(msgs[..0], now) == [ApTake];
    assert [ApTake][..0] == [];
  }

  lemma MessagesStep(cfg: Config, s: State, msgs: seq<ApMsg>, i: nat, now: int)
    requires i < |msgs|
    ensures RunFrom(cfg, s, [ApTake] + Messages(msgs[..i + 1], now))
            == ProcessAp(RunFrom(cfg, s, [ApTake] + Messages(msgs[..i], now)), msgs[i], now)
  {
    var es := [ApTake] + Messages(msgs[..i + 1], now);
    assert es[..|es| - 1] == [ApTake] + Messages(msgs[..i], now) && es[|es| - 1] == ApMessage(msgs[i], now);
    hide ProcessAp, Messages;
  }
}
