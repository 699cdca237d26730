/** What a visit of the timer makes of a login, told by the tables before and after. */
module AaaOutcome {
  import opened AaaTypes
  import opened AaaSession
  import opened AaaTable
  import opened AaaRuns
  import opened AaaSolo
  import opened IdAllocator

  // ----- what can become of a login -----

  /** The login is gone from the authing table, which is otherwise as it was. */
  predicate Left(s: State, t: State, id: nat) {
    && t.authing.Keys == s.authing.Keys - {id}
    && forall k :: k in t.authing ==> t.authing[k] == s.authing[k]
  }

  predicate SameSessions(s: State, t: State) {
    t.online == s.online && t.live == s.live
  }

  /** It is gone, and nobody has come online or gone. */
  predicate TurnedAway(s: State, t: State, id: nat) {
    Left(s, t, id) && SameSessions(s, t)
  }

  /** It is gone, and there is a session more, with its name and password and under this method, if the
      terminal acknowledges and 32 are not online already. The smallest free number is taken either way; the
      session's id has it below the method, or is 0 when there was none; its timers begin at the start. */
  predicate LetIn(cfg: Config, s: State, t: State, id: nat, m: Method, ack: bool)
    requires id in s.authing
  {
    var n := SmallestFree(s.live, 1, 32);
    && Left(s, t, id)
    && t.live == (if n == 0 then s.live else s.live + {n})
    && if ack && |s.online| < 32 then
         && |t.online| == |s.online| + 1 && t.online[..|s.online|] == s.online
         && var o, p := t.online[|s.online|], s.authing[id];
            o.user == p.user && o.password == p.password && o.logMethod == m
            && o.id == (if n == 0 then 0 else MethodCode(m) * 0x100_0000 + n)
            && o.history.serial == p.history.serial && o.history.replies == p.history.replies
            && o.alive == cfg.aliveMax && o.retryLeft == cfg.rspTimeout && o.responseLeft == 5 && o.failures == 0
            && o.tacUpdateLeft == cfg.tacUpdate && !o.sendFlag && !o.tacSendFlag && !o.tacFailed
       else t.online == s.online
  }

  /** It waits at the next position of the list, or has been turned away at the last one. */
  predicate PassedOn(s: State, t: State, id: nat)
    requires id in s.authing
  {
    var p := s.authing[id];
    if p.order == 4 then TurnedAway(s, t, id)
    else
      && SameSessions(s, t) && t.authing.Keys == s.authing.Keys
      && (forall k :: k in s.authing && k != id ==> t.authing[k] == s.authing[k])
      && var q := t.authing[id];
         q.order == p.order + 1 && !q.finished && q.user == p.user && q.password == p.password
         && (q.result == AuthenNoServer || q.result == AuthenNoUser)
         && q.history.replies == p.history.replies
  }

  /** It stays where it is on the list. */
  predicate StaysOn(s: State, t: State, id: nat)
    requires id in s.authing
  {
    && SameSessions(s, t) && t.authing.Keys == s.authing.Keys
    && (forall k :: k in s.authing && k != id ==> t.authing[k] == s.authing[k])
    && var p, q := s.authing[id], t.authing[id];
       q.order == p.order && !q.finished && q.user == p.user && q.password == p.password
       && q.history.replies == p.history.replies
  }

  /** A login in the table, unfinished and at a position of the list. */
  predicate Visited(s: State, id: nat) {
    OrdersInRange(s) && id in s.authing && EntryInv(s.authing[id])
  }

  /** Its method is the list's at its position; the hidden super user's is always the local check. */
  predicate IsAt(cfg: Config, p: Authing, m: Method)
    requires 1 <= p.order <= 4
  {
    if p.user == "nmsuser" then m == Local else GetAuthOrder(cfg, p.order) == m
  }

  datatype Fate = In | Away | On | Stay

  predicate Becomes(cfg: Config, s: State, t: State, id: nat, m: Method, ack: bool, fate: Fate)
    requires id in s.authing
  {
    match fate
    case In => LetIn(cfg, s, t, id, m, ack)
    case Away => TurnedAway(s, t, id)
    case On => PassedOn(s, t, id)
    case Stay => StaysOn(s, t, id)
  }

  /** The same, of the login alone. */
  predicate Made(cfg: Config, p: Authing, q: Authing, fate: Fate) {
    var same := q.user == p.user && q.password == p.password && q.history.replies == p.history.replies;
    match fate
    case In => VerdictOf(cfg, q) == Admitted
    case Away => VerdictOf(cfg, q) == Rejected
    case On =>
      if p.order == 4 then VerdictOf(cfg, q) == Rejected
      else !q.finished && same && q.order == p.order + 1 && (q.result == AuthenNoServer || q.result == AuthenNoUser)
    case Stay => !q.finished && same && q.order == p.order
  }

  lemma VisitBecomes(cfg: Config, s: State, id: nat, ack: bool)
    requires Visited(s, id)
    requires !LoginRepeated(cfg, s.online, s.authing[id].user, Selected(cfg, s.authing[id]))
    ensures var p, t := s.authing[id], VisitLogin(cfg, s, id, ack).state;
      forall fate :: Made(cfg, p, Check(cfg, p, s.timers).0, fate) ==>
        Becomes(cfg, s, t, id, Selected(cfg, p), ack, fate)
  {
    CheckKeepsLogin(cfg, s.authing[id], s.timers);
  }

  /** A repeated login is turned away whatever it has been told, and ends the scan. */
  lemma RepeatedTurnedAway(cfg: Config, s: State, id: nat, ack: bool)
    requires Visited(s, id)
    requires LoginRepeated(cfg, s.online, s.authing[id].user, Selected(cfg, s.authing[id]))
    ensures TurnedAway(s, VisitLogin(cfg, s, id, ack).state, id) && VisitLogin(cfg, s, id, ack).stop
  {
  }

  // ----- method by method -----

  /** The local check of a login that still waits and is not one too many: a configured user gets in exactly
      with an empty password on record or the one on record, and is turned away with any other, whatever the
      rest of the list; a user that is not configured goes on to the next method. */
  lemma LocalOutcome(cfg: Config, s: State, id: nat, ack: bool)
    requires Visited(s, id) && IsAt(cfg, s.authing[id], Local)
    requires var r := s.authing[id].result; r == AuthenInvalid || r == AuthenNoServer || r == AuthenNoUser
    requires var user := s.authing[id].user; user in cfg.localUsers ==>
      |SessionsOf(s.online, user, Local)| < cfg.localUsers[user].maxRepeat
    ensures var p := s.authing[id];
      var fate :=
        if p.user !in cfg.localUsers then On
        else if cfg.localUsers[p.user].password == "" || cfg.localUsers[p.user].password == p.password then In
        else Away;
      Becomes(cfg, s, VisitLogin(cfg, s, id, ack).state, id, Local, ack, fate)
  {
    CountIsSessions(s.online, s.authing[id].user, Local);
    VisitBecomes(cfg, s, id, ack);
  }

  /** From the start: with the local check first on the list and sessions allowed, the first login of a
      configured user is online after one check exactly if its password is right, and settled either way. */
  lemma LocalLoginExactly(cfg: Config, user: string, password: string)
    requires GetAuthOrder(cfg, 1) == Local && cfg.loginMax > 0 && user != ""
    requires user in cfg.localUsers && cfg.localUsers[user].maxRepeat >= 1
    ensures var s := Run(cfg, [LoginRequest(user, password), AuthTick({1})]);
      && s.authing == map[]
      && (cfg.localUsers[user].password == "" || cfg.localUsers[user].password == password ==>
            |s.online| == 1 && s.online[0].user == user && s.online[0].logMethod == Local)
      && (cfg.localUsers[user].password != "" && cfg.localUsers[user].password != password ==> s.online == [])
  {
    var events := [LoginRequest(user, password)];
    var before := Alone(NewAuthing(cfg, user, password, 0), START.timers);
    SmallestFreeUnique(START.authing.Keys, 1, TABLE_MAX, 1);
    assert events[..0] == [] && Run(cfg, events) == before;
    assert [LoginRequest(user, password), AuthTick({1})][..1] == events;
    FirstVisitOnly(cfg, before, {1});
    assert SessionsOf([], user, Local) == {};
    LocalOutcome(cfg, before, 1, true);
  }

  lemma FirstVisitOnly(cfg: Config, s: State, acks: set<nat>)
    requires OrdersInRange(s) && s.authing.Keys == {1}
    ensures VisitLogin(cfg, s, 1, 1 in acks).state.authing == map[] ==>
      Step(cfg, s, AuthTick(acks)) == VisitLogin(cfg, s, 1, 1 in acks).state
  {
    VisitKeepsOrders(cfg, s, 1, 1 in acks);
    var t := VisitLogin(cfg, s, 1, 1 in acks).state;
    if t.authing == map[] { ScanNoneAbove(cfg, t, acks, 2); }
  }

  /** Without authentication everyone gets in; at a place of the list that is not set, no one. */
  lemma NoCheckOutcome(cfg: Config, s: State, id: nat, ack: bool, m: Method)
    requires Visited(s, id) && IsAt(cfg, s.authing[id], m) && (m == NoAuth || m == Invalid)
    ensures Becomes(cfg, s, VisitLogin(cfg, s, id, ack).state, id, m, ack, if m == NoAuth then In else Away)
  {
    VisitBecomes(cfg, s, id, ack);
  }

  lemma RadiusWaitingMakes(cfg: Config, p: Authing, t: Timers)
    requires EntryInv(p) && Waiting(p.result)
    ensures Made(cfg, p, RadiusCheck(cfg, p, t).0, if p.authRetry == 0 then On else Stay)
  {
  }

  lemma RadiusAcceptedMakes(cfg: Config, p: Authing, t: Timers)
    requires EntryInv(p) && p.result == AuthenSuccess
    ensures Made(cfg, p, RadiusCheck(cfg, p, t).0,
                 if cfg.radiusAcct && p.acctRetry > 0 then Stay
                 else if cfg.onlineAcctFailed then In
                 else if cfg.radiusAcct then Away
                 else On)
  {
  }

  /** At RADIUS: a rejection turns the login away, and does not send it on to the next method; silence sends
      it on once its resends are used up. An acceptance lets it in once accounting has been answered, or,
      with accounting unanswered or off, exactly if that is waived; off and not waived, it is passed on. */
  lemma RadiusOutcome(cfg: Config, s: State, id: nat, ack: bool)
    requires Visited(s, id) && IsAt(cfg, s.authing[id], Radius)
    requires SessionsOf(s.online, s.authing[id].user, Radius) == {}
    ensures var p := s.authing[id];
      var fate :=
        match p.result
        case AuthenInvalid | AuthenNoServer | AuthenNoUser => if p.authRetry == 0 then On else Stay
        case AuthenFailed => Away
        case AuthenSuccess =>
          if cfg.radiusAcct && p.acctRetry > 0 then Stay
          else if cfg.onlineAcctFailed then In
          else if cfg.radiusAcct then Away
          else On
        case AcctSuccess => In
        case AcctNoServer | AcctFailed => if cfg.onlineAcctFailed then In else Away
        case AuthorNoServer | AuthorFailed | AuthorSuccess => Stay;
      Becomes(cfg, s, VisitLogin(cfg, s, id, ack).state, id, Radius, ack, fate)
  {
    var p, t := s.authing[id], s.timers;
    CountIsSessions(s.online, p.user, Radius);
    VisitBecomes(cfg, s, id, ack);
    match p.result
    case AuthenInvalid | AuthenNoServer | AuthenNoUser => RadiusWaitingMakes(cfg, p, t);
    case AuthenSuccess => RadiusAcceptedMakes(cfg, p, t);
    case _ =>
  }

  lemma AuthenticatingMakes(cfg: Config, p: Authing, t: Timers)
    requires EntryInv(p)
    ensures Made(cfg, p, TacacsAuthenticating(p, t).0, if p.authenLeft == 0 then On else Stay)
  {
  }

  lemma AuthorizedMakes(cfg: Config, p: Authing, t: Timers)
    requires EntryInv(p)
    ensures Made(cfg, p, TacacsAuthorized(cfg, p, t).0,
                 if cfg.tacAcct && p.acctLeft > 0 then Stay
                 else if cfg.onlineAcctFailed then In
                 else if cfg.tacAcct then Away
                 else On)
  {
  }

  lemma AuthorizingMakes(cfg: Config, p: Authing, t: Timers)
    requires EntryInv(p) && p.result == AuthenSuccess
    ensures Made(cfg, p, TacacsAuthorizing(cfg, p, t).0,
                 if cfg.tacAuthor then (if p.authorLeft > 0 || cfg.onlineAuthorFailed then Stay else Away)
                 else if !cfg.onlineAuthorFailed then On
                 else if cfg.tacAcct && p.acctLeft > 0 then Stay
                 else if cfg.onlineAcctFailed then In
                 else if cfg.tacAcct then Away
                 else On)
  {
  }

  /** At TACACS+: likewise for authentication. Then authorization has to be given, or be denied or unanswered
      and waived; then accounting answered, or unanswered or off and waived. A phase that is off and not
      waived passes the login on; one that is on, failed and not waived turns it away. */
  lemma TacacsOutcome(cfg: Config, s: State, id: nat, ack: bool)
    requires Visited(s, id) && IsAt(cfg, s.authing[id], Tacacs)
    requires SessionsOf(s.online, s.authing[id].user, Tacacs) == {}
    ensures var p := s.authing[id];
      var accounts :=
        if cfg.tacAcct && p.acctLeft > 0 then Stay
        else if cfg.onlineAcctFailed then In
        else if cfg.tacAcct then Away
        else On;
      var fate :=
        match p.result
        case AuthenInvalid | AuthenNoServer | AuthenNoUser => if p.authenLeft == 0 then On else Stay
        case AuthenFailed => Away
        case AuthenSuccess =>
          if cfg.tacAuthor then (if p.authorLeft > 0 || cfg.onlineAuthorFailed then Stay else Away)
          else if cfg.onlineAuthorFailed then accounts
          else On
        case AuthorSuccess => accounts
        case AuthorNoServer | AuthorFailed => if cfg.onlineAuthorFailed then accounts else Away
        case AcctSuccess => In
        case AcctNoServer | AcctFailed => if cfg.onlineAcctFailed then In else Away;
      Becomes(cfg, s, VisitLogin(cfg, s, id, ack).state, id, Tacacs, ack, fate)
  {
    var p, t := s.authing[id], s.timers;
    CountIsSessions(s.online, p.user, Tacacs);
    VisitBecomes(cfg, s, id, ack);
    match p.result
    case AuthenInvalid | AuthenNoServer | AuthenNoUser => AuthenticatingMakes(cfg, p, t);
    case AuthenSuccess => AuthorizingMakes(cfg, p, t);
    case AuthorSuccess | AuthorNoServer | AuthorFailed => AuthorizedMakes(cfg, p, t);
    case _ =>
  }
}
