/** The daemon itself: records updated in place, tables scanned by timers, counters shared by all
    logins. Each method is proved against the step functions of AaaSession, AaaOnline and AaaTable. */
module AaaServer {
  import opened AaaTypes
  import opened IdAllocator
  import S = AaaSession
  import T = AaaTable
  import O = AaaOnline

  class AuthingInfo {
    const user: string
    const password: string
    var authOrder: int
    var authFinished: bool
    var aaaResult: AaaResult
    var authRetryTimes: nat
    var acctRetryTimes: nat
    var authenTimeleft: nat
    var authorTimeleft: nat
    var acctTimeleft: nat
    ghost var history: History

    ghost function View(): Authing
      reads this
    {
      Authing(user, password, authOrder, authFinished, aaaResult, authRetryTimes, acctRetryTimes,
              authenTimeleft, authorTimeleft, acctTimeleft, history)
    }

    constructor (cfg: Config, user: string, password: string, ghost serial: nat)
      ensures View() == T.NewAuthing(cfg, user, password, serial)
    {
      this.user, this.password := user, password;
      authOrder, authFinished, aaaResult := 1, false, AuthenInvalid;
      authRetryTimes, acctRetryTimes := cfg.retryTimes % 256, cfg.retryTimes % 256;
      authenTimeleft, authorTimeleft, acctTimeleft := TAC_RSP_TIMEOUT, TAC_RSP_TIMEOUT, TAC_RSP_TIMEOUT;
      history := History(serial, {}, []);
    }

    /** Stands for the packet that goes out here. */
    ghost method Sent(r: Request)
      modifies this`history
      ensures View() == S.Ask(old(View()), r)
    {
      history := history.(asked := history.asked + {r});
    }

    /** The "switch to the next method" block that the checks repeat. */
    method SwitchMethod(why: AaaResult)
      modifies this
      ensures View() == S.NextMethod(old(View()), why)
    {
      aaaResult := why;
      authOrder := authOrder + 1;
      if authOrder > 4 {
        aaaResult := AuthenFailed;
        authFinished := true;
      }
    }

    /** What the receive functions of the two protocols write for an answer. */
    method Receive(r: Reply)
      modifies this
      ensures View() == S.ApplyReply(old(View()), r)
    {
      match r {
        case RadAccept => aaaResult := AuthenSuccess; authRetryTimes := 0;
        case RadReject => aaaResult := AuthenFailed; authRetryTimes := 0;
        case RadChallenge => authRetryTimes := 0;
        case RadAcctResponse => authRetryTimes := 0; aaaResult := AcctSuccess;
        case TacAuthenPass => aaaResult := AuthenSuccess;
        case TacAuthenFail => aaaResult := AuthenFailed;
        case TacAuthorPass => aaaResult := AuthorSuccess;
        case TacAuthorFail => aaaResult := AuthorFailed;
        case TacAcctOk => acctTimeleft := TAC_RSP_TIMEOUT; aaaResult := AcctSuccess;
        case TacAcctFail => acctTimeleft := TAC_RSP_TIMEOUT; aaaResult := AcctFailed;
        case TacAcctGarbled => aaaResult := AcctFailed;
      }
      history := history.(replies := history.replies + [r]);
    }
  }

  class OnlineInfo {
    const userId: nat
    const user: string
    const password: string
    const logMethod: Method
    var aliveTime: nat
    var acctTimeleftRetry: nat
    var acctTimeleftResponse: nat
    var acctSendFlag: bool
    var acctFailedCnt: nat
    var tacUpdateTime: int
    var tacTimeleftResponse: int
    var tacSendFlag: bool
    var tacFailedFlag: bool
    ghost const history: History

    ghost function View(): Online
      reads this
    {
      Online(userId, user, password, logMethod, aliveTime, acctTimeleftRetry, acctTimeleftResponse, acctSendFlag,
             acctFailedCnt, tacUpdateTime, tacTimeleftResponse, tacSendFlag, tacFailedFlag, history)
    }

    constructor (cfg: Config, p: AuthingInfo, id: nat, m: Method)
      ensures View() == T.NewOnline(cfg, p.View(), id, m)
    {
      userId, user, password, logMethod := id, p.user, p.password, m;
      aliveTime, acctTimeleftRetry, acctTimeleftResponse := cfg.aliveMax, cfg.rspTimeout, RADIUS_ACCT_TIMEOUT;
      acctSendFlag, acctFailedCnt := false, 0;
      tacUpdateTime, tacTimeleftResponse, tacSendFlag, tacFailedFlag := cfg.tacUpdate, 0, false, false;
      history := p.history;
    }

    method RadiusAccounting(cfg: Config)
      modifies this
      ensures View() == O.RadiusAccounting(cfg, old(View()))
    {
      if !acctSendFlag {
        if acctTimeleftRetry == 1 {
          acctSendFlag := true;
        }
        acctTimeleftRetry := O.Down(acctTimeleftRetry);
        if acctTimeleftRetry == 0 {
          acctTimeleftRetry := cfg.radiusUpdate;
        }
      } else {
        acctTimeleftResponse := O.Down(acctTimeleftResponse);
        if acctTimeleftResponse == 0 {
          acctTimeleftResponse := RADIUS_ACCT_TIMEOUT;
          acctFailedCnt := acctFailedCnt + 1;
        }
      }
    }

    method TacacsAccounting(cfg: Config)
      modifies this
      ensures View() == O.TacacsAccounting(cfg, old(View()))
    {
      if tacUpdateTime == 1 {
        tacTimeleftResponse := TAC_ACCT_TIMEOUT;
        tacSendFlag := true;
      }
      tacUpdateTime := tacUpdateTime - 1;
      if tacUpdateTime == 0 {
        tacUpdateTime := cfg.tacUpdate;
      }
      if tacSendFlag {
        tacTimeleftResponse := tacTimeleftResponse - 1;
        if tacTimeleftResponse == 0 {
          tacFailedFlag := true;
        }
      }
    }

    method Echo(cfg: Config)
      modifies this
      ensures View() == O.Echo(cfg, old(View()))
    {
      aliveTime := cfg.aliveMax;
    }

    /** What the receive functions write for an accounting response. */
    method AcctResponse(cfg: Config)
      modifies this
      ensures View() == O.AcctResponse(cfg, old(View()))
    {
      if logMethod == Radius {
        acctSendFlag, acctFailedCnt := false, 0;
      } else {
        tacUpdateTime, tacSendFlag := cfg.tacUpdate, false;
      }
    }

    /** One session's share of the 1 s timer. */
    method Tick(cfg: Config) returns (keep: bool)
      modifies this
      ensures keep == O.Tick(cfg, old(View())).Keep?
      ensures keep ==> View() == O.Tick(cfg, old(View())).session
      ensures !keep ==> View().id == old(View()).id
    {
      if aliveTime == 0 {
        return false;
      }
      aliveTime := aliveTime - 1;
      if logMethod == Radius {
        if !cfg.radiusAcct {
          return true;
        }
        if acctFailedCnt >= RADIUS_ACCT_FAILURES && !cfg.onlineAcctFailed {
          return false;
        }
        RadiusAccounting(cfg);
      } else if logMethod == Tacacs {
        if !cfg.tacAcct {
          return true;
        }
        if tacFailedFlag && !cfg.onlineAcctFailed {
          return false;
        }
        TacacsAccounting(cfg);
      }
      return true;
    }
  }

  ghost function AuthingView(m: map<nat, AuthingInfo>): map<nat, Authing>
    reads m.Values
  {
    map id | id in m :: m[id].View()
  }

  ghost function OnlineView(os: seq<OnlineInfo>): (v: seq<Online>)
    reads os
    ensures |v| == |os| && forall i :: 0 <= i < |os| ==> v[i] == os[i].View()
  {
    seq(|os|, i requires 0 <= i < |os| reads os => os[i].View())
  }

  function Unlinked(m: map<nat, AuthingInfo>, id: nat): (r: map<nat, AuthingInfo>)
    ensures r.Keys == m.Keys - {id} && r.Values <= m.Values
  {
    map k | k in m && k != id :: m[k]
  }

  lemma ViewUnlinked(m: map<nat, AuthingInfo>, id: nat)
    ensures AuthingView(Unlinked(m, id)) == T.Remove(AuthingView(m), id)
  {
  }

  lemma ViewExtended(os: seq<OnlineInfo>, o: OnlineInfo)
    ensures OnlineView(os + [o]) == OnlineView(os) + [o.View()]
  {
  }

  /** The tables after the check of the login with this id. */
  function Checked(cfg: Config, s: T.State, id: nat): T.State
    requires id in s.authing && 1 <= s.authing[id].order <= 4
  {
    var (q, u) := S.Check(cfg, s.authing[id], s.timers);
    s.(authing := s.authing[id := q], timers := u)
  }

  /** The tables after the result of the login with this id has been handled. */
  function Settled(cfg: Config, s: T.State, id: nat, m: Method, ack: bool): T.State
    requires id in s.authing
  {
    var t := s.(authing := T.Remove(s.authing, id));
    match S.VerdictOf(cfg, s.authing[id])
    case Pending => s
    case Rejected => t
    case Admitted => T.Admit(cfg, t, s.authing[id], m, ack)
  }

  /** Dropping the login and letting the session in can be done in either order. */
  lemma RemovedThenAdmitted(cfg: Config, s: T.State, id: nat, m: Method, ack: bool)
    requires id in s.authing
    ensures T.Admit(cfg, s.(authing := T.Remove(s.authing, id)), s.authing[id], m, ack)
         == T.Admit(cfg, s, s.authing[id], m, ack).(authing := T.Remove(s.authing, id))
  {
  }

  lemma VisitSettlesChecked(cfg: Config, s: T.State, id: nat, ack: bool)
    requires id in s.authing && 1 <= s.authing[id].order <= 4
    requires !T.LoginRepeated(cfg, s.online, s.authing[id].user, S.Selected(cfg, s.authing[id]))
    ensures T.VisitLogin(cfg, s, id, ack)
         == T.Visit(Settled(cfg, Checked(cfg, s, id), id, S.Selected(cfg, s.authing[id]), ack), false)
  {
    assert T.Remove(Checked(cfg, s, id).authing, id) == T.Remove(s.authing, id);
  }

  predicate Among(part: seq<OnlineInfo>, whole: seq<OnlineInfo>) {
    forall i :: 0 <= i < |part| ==> part[i] in whole
  }

  class Server {
    const cfg: Config
    var authing: map<nat, AuthingInfo>
    var online: seq<OnlineInfo>
    var live: set<nat>  // what the online id buffer holds, as IdBuffer specifies it
    var authTimer: nat
    var acctTimer: nat
    var authenCnt: nat
    var authorCnt: nat
    var acctCnt: nat
    ghost var logins: nat

    ghost function TimersView(): Timers
      reads this
    {
      Timers(authTimer, acctTimer, authenCnt, authorCnt, acctCnt)
    }

    ghost function View(): T.State
      reads this, authing.Values, online
    {
      T.State(AuthingView(authing), OnlineView(online), live, TimersView(), logins)
    }

    /** No record is in a table twice. */
    ghost predicate Valid()
      reads this
    {
      && (forall i, j :: i in authing && j in authing && i != j ==> authing[i] != authing[j])
      && (forall i, j :: 0 <= i < j < |online| ==> online[i] != online[j])
    }

    constructor (cfg: Config)
      ensures Valid() && View() == T.START && this.cfg == cfg
    {
      this.cfg := cfg;
      authing, online, live := map[], [], {};
      authTimer, acctTimer, authenCnt, authorCnt, acctCnt := 0, 0, 0, 0, 0;
      logins := 0;
    }

    // ----- the four method checks -----

    method RadiusProcessCheck(p: AuthingInfo)
      modifies p, this`authTimer, this`acctTimer
      ensures (p.View(), TimersView()) == S.RadiusCheck(cfg, old(p.View()), old(TimersView()))
    {
      match p.aaaResult {
        case AuthenInvalid | AuthenNoServer | AuthenNoUser =>
          if p.authRetryTimes == 0 {
            p.SwitchMethod(AuthenNoServer);
            authTimer := 0;
          } else {
            authTimer := authTimer + 1;
            if authTimer >= cfg.retryInterval / CHECK_INTERVAL {
              p.Sent(RadAuth);
              p.authRetryTimes := p.authRetryTimes - 1;
              authTimer := 0;
            }
          }
        case AuthenFailed =>
          p.authFinished := true;
          authTimer := 0;
        case AuthenSuccess =>
          authTimer := 0;
          if cfg.radiusAcct {
            if p.acctRetryTimes == 0 {
              p.aaaResult := AcctNoServer;
              p.authFinished := true;
            } else {
              acctTimer := acctTimer + 1;
              if acctTimer >= cfg.retryInterval / CHECK_INTERVAL {
                p.Sent(RadAcct);
                p.acctRetryTimes := p.acctRetryTimes - 1;
                acctTimer := 0;
              }
            }
          } else if !cfg.onlineAcctFailed {
            p.SwitchMethod(AuthenNoServer);
          } else {
            p.aaaResult := AcctFailed;
            p.authFinished := true;
          }
        case AuthorNoServer | AuthorFailed | AuthorSuccess =>
        case AcctNoServer | AcctFailed | AcctSuccess =>
          acctTimer := 0;
          p.authFinished := true;
      }
    }

    method TacacsSendAccounting(p: AuthingInfo)
      modifies p, this`acctCnt
      ensures (p.View(), TimersView()) == S.TacacsAccounting(old(p.View()), old(TimersView()))
    {
      if acctCnt == 0 {
        p.Sent(TacAcct);
        acctCnt := acctCnt + 1;
      }
      if p.acctTimeleft == 0 {
        p.aaaResult := AcctNoServer;
        p.authFinished := true;
      } else {
        p.acctTimeleft := p.acctTimeleft - 1;
      }
    }

    method TacacsAuthorized(p: AuthingInfo)
      modifies p, this`acctCnt
      ensures (p.View(), TimersView()) == S.TacacsAuthorized(cfg, old(p.View()), old(TimersView()))
    {
      if cfg.tacAcct {
        TacacsSendAccounting(p);
      } else if !cfg.onlineAcctFailed {
        p.SwitchMethod(AuthenNoServer);
      } else {
        p.aaaResult := AcctFailed;
        p.authFinished := true;
      }
    }

    method TacacsAuthenticating(p: AuthingInfo)
      modifies p, this`authenCnt
      ensures (p.View(), TimersView()) == S.TacacsAuthenticating(old(p.View()), old(TimersView()))
    {
      if authenCnt == 0 {
        p.Sent(TacAuthen);
        authenCnt := authenCnt + 1;
      }
      if p.authenTimeleft == 0 {
        p.SwitchMethod(AuthenNoServer);
        authenCnt := 0;
      } else {
        p.authenTimeleft := p.authenTimeleft - 1;
      }
    }

    method TacacsAuthorizing(p: AuthingInfo)
      modifies p, this`authorCnt, this`acctCnt
      ensures (p.View(), TimersView()) == S.TacacsAuthorizing(cfg, old(p.View()), old(TimersView()))
    {
      if cfg.tacAuthor {
        if authorCnt == 0 {
          p.Sent(TacAuthor);
          authorCnt := authorCnt + 1;
        }
        if p.authorTimeleft == 0 {
          p.aaaResult := AuthorNoServer;
          if !cfg.onlineAuthorFailed {
            p.authFinished := true;
          }
        } else {
          p.authorTimeleft := p.authorTimeleft - 1;
        }
      } else if !cfg.onlineAuthorFailed {
        p.SwitchMethod(AuthenNoServer);
      } else if cfg.tacAcct {
        TacacsSendAccounting(p);
      } else if !cfg.onlineAcctFailed {
        p.SwitchMethod(AuthenNoServer);
      } else {
        p.authFinished := true;
      }
    }

    method TacacsProcessCheck(p: AuthingInfo)
      modifies p, this`authenCnt, this`authorCnt, this`acctCnt
      ensures (p.View(), TimersView()) == S.TacacsCheck(cfg, old(p.View()), old(TimersView()))
    {
      match p.aaaResult {
        case AuthenInvalid | AuthenNoServer | AuthenNoUser => TacacsAuthenticating(p);
        case AuthenSuccess => TacacsAuthorizing(p);
        case AuthorNoServer | AuthorFailed =>
          if cfg.onlineAuthorFailed {
            TacacsAuthorized(p);
          } else {
            p.authFinished := true;
          }
        case AuthorSuccess => TacacsAuthorized(p);
        case AuthenFailed | AcctNoServer | AcctFailed | AcctSuccess => p.authFinished := true;
      }
      if p.authFinished {
        authenCnt, authorCnt, acctCnt := 0, 0, 0;
      }
    }

    method LocalProcessCheck(p: AuthingInfo)
      modifies p
      ensures p.View() == S.LocalCheck(cfg, old(p.View()))
    {
      if p.aaaResult == AuthenInvalid || p.aaaResult == AuthenNoServer || p.aaaResult == AuthenNoUser {
        if p.user !in cfg.localUsers {
          p.SwitchMethod(AuthenNoUser);
        } else {
          var configured := cfg.localUsers[p.user].password;
          if |configured| > 0 && configured != p.password {
            p.aaaResult := AuthenFailed;
          } else {
            p.aaaResult := AuthenSuccess;
          }
          p.authFinished := true;
        }
      }
    }

    method NoneProcessCheck(p: AuthingInfo)
      modifies p
      ensures p.View() == S.Finish(old(p.View()), AuthenSuccess)
    {
      p.aaaResult := AuthenSuccess;
      p.authFinished := true;
    }

    /** The dispatch of the timer, for a login that is not a repeated one. */
    method ProcessCheck(p: AuthingInfo)
      requires 1 <= p.authOrder <= 4
      modifies p, this`authTimer, this`acctTimer, this`authenCnt, this`authorCnt, this`acctCnt
      ensures (p.View(), TimersView()) == S.Check(cfg, old(p.View()), old(TimersView()))
    {
      if p.user == SUPER_USER {
        LocalProcessCheck(p);
        return;
      }
      match GetAuthOrder(cfg, p.authOrder) {
        case Invalid =>
          p.aaaResult := AuthenFailed;
          p.authFinished := true;
        case Radius => RadiusProcessCheck(p);
        case Tacacs => TacacsProcessCheck(p);
        case Local => LocalProcessCheck(p);
        case NoAuth => NoneProcessCheck(p);
        case Unknown =>
      }
    }

    // ----- repeated logins -----

    method LoginRepeat(user: string, m: Method) returns (repeated: bool)
      ensures repeated == T.LoginRepeated(cfg, OnlineView(online), user, m)
    {
      ghost var view := OnlineView(online);
      ghost var total := T.Count(view, user, m);
      if m == Local && user !in cfg.localUsers {
        return false;
      }
      var repeatNum := 0;
      for i := 0 to |online|
        invariant repeatNum == T.Count(view[..i], user, m)
        invariant m == Radius || m == Tacacs ==> repeatNum == 0
      {
        CountNext(view, i, user, m);
        assert view[i].user == online[i].user && view[i].logMethod == online[i].logMethod;
        if online[i].user == user && online[i].logMethod == m {
          if m == Radius || m == Tacacs {
            assert total > 0;
            return true;
          }
          repeatNum := repeatNum + 1;
        }
      }
      assert view[..|online|] == view;
      assert repeatNum == total;
      return m == Local && repeatNum + 1 > cfg.localUsers[user].maxRepeat;
    }

    // ----- tables -----

    method AuthingDel(id: nat)
      requires Valid() && id in authing
      modifies this`authing
      ensures Valid() && authing == Unlinked(old(authing), id)
      ensures View() == old(View()).(authing := T.Remove(old(View()).authing, id))
    {
      ViewUnlinked(authing, id);
      authing := Unlinked(authing, id);
    }

    /** A full table keeps its sessions and drops the new one. */
    method OnlineAdd(o: OnlineInfo)
      requires Valid() && o !in online
      modifies this`online
      ensures Valid()
      ensures online == if old(|online|) < TABLE_MAX then old(online) + [o] else old(online)
    {
      if |online| < TABLE_MAX {
        online := online + [o];
      }
    }

    method OnlineDel(k: nat)
      requires Valid() && k < |online|
      modifies this`online, this`live
      ensures Valid() && online == old(online[..k] + online[k + 1..])
      ensures View() == T.Drop(old(View()), k)
    {
      live := live - {Number(online[k].userId)};
      online := online[..k] + online[k + 1..];
      assert OnlineView(online) == old(OnlineView(online)[..k] + OnlineView(online)[k + 1..]);
    }

    // ----- the timers -----

    method NewSession(p: AuthingInfo, m: Method) returns (o: OnlineInfo)
      modifies this`live
      ensures fresh(o) && p.View() == old(p.View())
      ensures var n := SmallestFree(old(live), 1, TABLE_MAX);
        && o.View() == T.NewOnline(cfg, p.View(), Tagged(MethodCode(m), n), m)
        && live == if n == 0 then old(live) else old(live) + {n}
    {
      var n := SmallestFree(live, 1, TABLE_MAX);
      if n != 0 {
        live := live + {n};
      }
      o := new OnlineInfo(cfg, p, Tagged(MethodCode(m), n), m);
    }

    /** The success branch of aaa_handle_auth_result; `ack` says whether the terminal answered. */
    method AdmitLogin(p: AuthingInfo, m: Method, ack: bool)
      requires Valid()
      modifies this`online, this`live
      ensures Valid()
      ensures View() == T.Admit(cfg, old(View()), old(p.View()), m, ack)
    {
      var session := NewSession(p, m);
      if ack {
        OnlineAdd(session);
        ViewExtended(old(online), session);
      }
      assert OnlineView(old(online)) == old(OnlineView(online));
      assert AuthingView(authing) == old(AuthingView(authing));
    }

    method Succeeded(p: AuthingInfo) returns (success: bool)
      requires p.authFinished
      ensures success == S.VerdictOf(cfg, p.View()).Admitted?
      ensures !success == S.VerdictOf(cfg, p.View()).Rejected?
    {
      match p.aaaResult {
        case AuthenInvalid | AuthenNoServer | AuthenNoUser | AuthenFailed => return false;
        case AuthorNoServer | AuthorFailed => return cfg.onlineAuthorFailed;
        case AcctNoServer | AcctFailed => return cfg.onlineAcctFailed;
        case AuthenSuccess | AuthorSuccess | AcctSuccess => return true;
      }
    }

    /** aaa_handle_auth_result: what becomes of a login after its check. */
    method HandleAuthResult(id: nat, m: Method, ack: bool)
      requires Valid() && id in authing
      modifies this`authing, this`online, this`live
      ensures Valid() && authing.Values <= old(authing.Values)
      ensures View() == Settled(cfg, old(View()), id, m, ack)
    {
      var p := authing[id];
      if !p.authFinished {
        return;
      }
      ghost var s := View();
      assert s.authing[id] == p.View();
      var success := Succeeded(p);
      if success {
        RemovedThenAdmitted(cfg, s, id, m, ack);
        AdmitLogin(p, m, ack);
        s := T.Admit(cfg, s, s.authing[id], m, ack);
      }
      assert View() == s;
      AuthingDel(id);
    }

    /** The check of one login, seen from the table. */
    method CheckLogin(id: nat)
      requires Valid() && id in authing && 1 <= authing[id].authOrder <= 4
      modifies authing[id], this`authTimer, this`acctTimer, this`authenCnt, this`authorCnt, this`acctCnt
      ensures Valid()
      ensures View() == Checked(cfg, old(View()), id)
    {
      ProcessCheck(authing[id]);
      assert AuthingView(authing) == old(AuthingView(authing))[id := authing[id].View()];
      assert OnlineView(online) == old(OnlineView(online));
    }

    /** The check of a login that is not a repeated one, and what becomes of it. */
    method CheckAndSettle(id: nat, m: Method, ack: bool)
      requires Valid() && id in authing && 1 <= authing[id].authOrder <= 4
      modifies this`authing, this`online, this`authTimer, this`acctTimer, this`authenCnt, this`authorCnt, this`acctCnt
      modifies this`live, authing[id]
      ensures Valid() && authing.Values <= old(authing.Values)
      ensures View() == Settled(cfg, Checked(cfg, old(View()), id), id, m, ack)
    {
      CheckLogin(id);
      HandleAuthResult(id, m, ack);
    }

    method Visit(id: nat, ack: bool) returns (stop: bool)
      requires Valid() && T.OrdersInRange(View())
      modifies this`authing, this`online, this`authTimer, this`acctTimer, this`authenCnt, this`authorCnt, this`acctCnt
      modifies this`live, authing.Values
      ensures Valid() && authing.Values <= old(authing.Values)
      ensures T.Visit(View(), stop) == T.VisitLogin(cfg, old(View()), id, ack)
    {
      if id !in authing {
        return false;
      }
      var p := authing[id];
      assert AuthingView(authing)[id] == p.View();
      assert 1 <= View().authing[id].order <= 4;
      var m := if p.user == SUPER_USER then Local else GetAuthOrder(cfg, p.authOrder);
      var repeated := LoginRepeat(p.user, m);
      if repeated {
        AuthingDel(id);
        return true;
      }
      VisitSettlesChecked(cfg, View(), id, ack);
      CheckAndSettle(id, m, ack);
      return false;
    }

    /** The 200 ms timer: one scan of the pending logins, ended early by a repeated one. */
    method AuthProcessCheck(acks: set<nat>)
      requires Valid() && T.OrdersInRange(View())
      modifies this`authing, this`online, this`authTimer, this`acctTimer, this`authenCnt, this`authorCnt, this`acctCnt
      modifies this`live, authing.Values
      ensures Valid() && T.OrdersInRange(View())
      ensures View() == T.Scan(cfg, old(View()), acks, 1)
    {
      var id := 1;
      ghost var now := View();
      ghost var goal := T.Scan(cfg, now, acks, id);
      T.ScanKeepsOrders(cfg, now, acks, id);
      while id <= TABLE_MAX
        invariant 1 <= id <= TABLE_MAX + 1
        invariant Valid() && authing.Values <= old(authing.Values)
        invariant View() == now && T.OrdersInRange(now) && T.Scan(cfg, now, acks, id) == goal
      {
        T.ScanNext(cfg, now, acks, id);
        var stop := Visit(id, id in acks);
        now := T.VisitLogin(cfg, now, id, id in acks).state;
        if stop {
          return;
        }
        id := id + 1;
      }
      T.ScanOver(cfg, now, acks, id);
    }

    /** The 1 s timer: one scan of the online sessions. */
    method OnlineUserStatusCheck()
      requires Valid()
      modifies this`online, this`live, online
      ensures Valid()
      ensures View() == T.OnlineScan(cfg, old(View()), 0)
    {
      var k := 0;
      while k < |online|
        invariant 0 <= k <= |online|
        invariant Valid() && Among(online, old(online))
        invariant T.OnlineScan(cfg, View(), k) == T.OnlineScan(cfg, old(View()), 0)
        decreases |online| - k
      {
        k := TickAt(k);
      }
    }

    method TickAt(k: nat) returns (next: nat)
      requires Valid() && k < |online|
      modifies this`online, this`live, online[k]
      ensures Valid() && Among(online, old(online))
      ensures T.Ticked(View(), next) == T.TickedAt(cfg, old(View()), k)
    {
      var keep := online[k].Tick(cfg);
      assert AuthingView(authing) == old(AuthingView(authing));
      assert OnlineView(online) == old(OnlineView(online))[k := online[k].View()];
      if keep {
        return k + 1;
      }
      OnlineDel(k);
      return k;
    }

    // ----- messages -----

    method FindOnline(id: nat) returns (k: nat)
      ensures k == T.Find(OnlineView(online), id)
      ensures k <= |online|
    {
      ghost var view := OnlineView(online);
      k := |online|;
      assert view[..k] == view;
      while k > 0
        invariant k <= |online|
        invariant T.Find(view, id) == if T.Find(view[..k], id) < k then T.Find(view[..k], id) else |online|
      {
        assert view[..k][..k - 1] == view[..k - 1];
        if online[k - 1].userId == id {
          return k - 1;
        }
        k := k - 1;
      }
      return |online|;
    }

    method AuthingAdd(id: nat, info: AuthingInfo)
      requires Valid() && forall k :: k in authing ==> authing[k] != info
      modifies this`authing, this`logins
      ensures Valid()
      ensures View()
        == old(View()).(authing := old(View()).authing[id := info.View()], logins := old(View()).logins + 1)
    {
      authing := authing[id := info];
      logins := logins + 1;
      assert AuthingView(authing) == old(AuthingView(authing))[id := info.View()];
    }

    method LoginRequest(user: string, password: string)
      requires Valid() && T.OrdersInRange(View())
      modifies this`authing, this`logins
      ensures Valid() && View() == T.Step(cfg, old(View()), T.LoginRequest(user, password))
    {
      if user == "" || |online| >= cfg.loginMax {
        return;
      }
      assert AuthingView(authing).Keys == authing.Keys;
      var id := SmallestFree(authing.Keys, 1, TABLE_MAX);
      if id == 0 {
        return;
      }
      var info := new AuthingInfo(cfg, user, password, logins);
      assert View() == old(View());
      AuthingAdd(id, info);
    }

    method LoginExit(id: nat)
      requires Valid() && T.OrdersInRange(View())
      modifies this`online, this`live
      ensures Valid() && View() == T.Step(cfg, old(View()), T.LoginExit(id))
    {
      var k := FindOnline(id);
      if k < |online| {
        OnlineDel(k);
      }
    }

    method EchoRequest(id: nat, idle: nat)
      requires Valid() && T.OrdersInRange(View())
      modifies this`online, this`live, online
      ensures Valid() && View() == T.Step(cfg, old(View()), T.EchoRequest(id, idle))
    {
      var k := FindOnline(id);
      if k < |online| {
        if cfg.idleMax != 0 && idle >= cfg.idleMax {
          OnlineDel(k);
        } else {
          EchoAt(k);
        }
      }
    }

    method EchoAt(k: nat)
      requires Valid() && k < |online|
      modifies online
      ensures Valid()
      ensures View() == old(View()).(online := old(View()).online[k := O.Echo(cfg, old(View()).online[k])])
    {
      assert online[k] in online;
      online[k].Echo(cfg);
      OneSessionChanged(k);
    }

    method AcctReply(id: nat)
      requires Valid() && T.OrdersInRange(View())
      modifies online
      ensures Valid() && View() == T.Step(cfg, old(View()), T.AcctReply(id))
    {
      var k := FindOnline(id);
      if k < |online| {
        assert online[k] in online;
        online[k].AcctResponse(cfg);
        OneSessionChanged(k);
      }
    }

    twostate lemma OneSessionChanged(k: nat)
      requires old(Valid()) && unchanged(this) && k < |online|
      requires forall i :: 0 <= i < |online| && i != k ==> unchanged(online[i])
      requires forall id :: id in authing ==> unchanged(authing[id])
      ensures View() == old(View()).(online := old(View()).online[k := online[k].View()])
    {
      assert AuthingView(authing) == old(AuthingView(authing));
      assert OnlineView(online) == old(OnlineView(online))[k := online[k].View()];
    }

    /** An answer that was matched to this login, whatever method the login is at by now. */
    method ServerReply(login: nat, reply: Reply)
      requires Valid() && T.OrdersInRange(View())
      modifies authing.Values
      ensures Valid() && View() == T.Step(cfg, old(View()), T.ServerReply(login, reply))
    {
      if login in authing {
        authing[login].Receive(reply);
        assert AuthingView(authing) == old(AuthingView(authing))[login := authing[login].View()];
        assert OnlineView(online) == old(OnlineView(online));
      }
    }

    /** The terminal server restarted: all its logins and sessions go. */
    method TerminalReset()
      requires Valid() && T.OrdersInRange(View())
      modifies this`authing, this`online, this`live
      ensures Valid() && View() == T.Step(cfg, old(View()), T.TerminalReset)
    {
      ghost var view := OnlineView(online);
      authing := map[];
      var k := 0;
      while k < |online|
        invariant 0 <= k <= |online| && authing == map[] && online == old(online)
        invariant live == old(live) - set i | 0 <= i < k :: Number(view[i].id)
      {
        live := live - {Number(online[k].userId)};
        k := k + 1;
      }
      online := [];
    }
  }

  lemma CountNext(view: seq<Online>, i: nat, user: string, m: Method)
    requires i < |view|
    ensures T.Count(view[..i + 1], user, m)
         == T.Count(view[..i], user, m) + (if view[i].user == user && view[i].logMethod == m then 1 else 0)
    ensures T.Count(view[..i + 1], user, m) <= T.Count(view, user, m)
  {
    assert view[..i + 1][..i] == view[..i];
    assert view == view[..i + 1] + view[i + 1..];
    T.CountSplit(view[..i + 1], view[i + 1..], user, m);
  }
}
