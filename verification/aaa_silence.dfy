/** What the timer sends for a login and when, and how long a login lasts that no server answers. */
module AaaSilence {
  import opened AaaTypes
  import opened AaaSession
  import opened AaaTable
  import opened AaaRuns
  import opened AaaSolo
  import opened IdAllocator

  // ----- what a check sends -----

  /** Checks between two sendings of a RADIUS request. */
  function Interval(cfg: Config): (n: nat)
    ensures n >= 1
  {
    if cfg.retryInterval < 200 then 1 else cfg.retryInterval / 200
  }

  /** A RADIUS check sends the authentication request exactly when the login waits, has a resend left and the
      shared counter completes an interval with this check; likewise the accounting request of one that has
      been accepted. Each sending uses up one resend and starts the counter again. */
  lemma RadiusSends(cfg: Config, p: Authing, t: Timers)
    requires 1 <= p.order <= 4
    ensures var (q, u) := RadiusCheck(cfg, p, t);
      var waits := Waiting(p.result) && p.authRetry > 0;
      var accounts := p.result == AuthenSuccess && cfg.radiusAcct && p.acctRetry > 0;
      var auth, acct := waits && t.auth + 1 >= Interval(cfg), accounts && t.acct + 1 >= Interval(cfg);
      && q.history.asked == p.history.asked + (if auth then {RadAuth} else {}) + (if acct then {RadAcct} else {})
      && q.authRetry == p.authRetry - (if auth then 1 else 0) && q.acctRetry == p.acctRetry - (if acct then 1 else 0)
      && u.auth == (if waits && !auth then t.auth + 1 else if IsAuthor(p.result) || IsAcct(p.result) then t.auth else 0)
      && u.acct == (if accounts then (if acct then 0 else t.acct + 1) else if IsAcct(p.result) then 0 else t.acct)
      && u == t.(auth := u.auth, acct := u.acct)
  {
  }

  /** A TACACS+ check sends a request exactly when its phase is the login's and no login has sent one of that
      phase since the counters were last cleared: which happens to all three whenever a login is settled at
      TACACS+, and to that of authentication when a login is passed on unanswered. */
  lemma TacacsSends(cfg: Config, p: Authing, t: Timers)
    requires 1 <= p.order <= 4
    ensures var (q, u) := TacacsCheck(cfg, p, t);
      var authenticates := Waiting(p.result);
      var authorizes := p.result == AuthenSuccess && cfg.tacAuthor;
      var accounts := cfg.tacAcct &&
        ( || p.result == AuthorSuccess
          || (cfg.onlineAuthorFailed && (p.result == AuthorFailed || p.result == AuthorNoServer))
          || (cfg.onlineAuthorFailed && p.result == AuthenSuccess && !cfg.tacAuthor));
      && q.history.asked == p.history.asked
           + (if authenticates && t.authenCnt == 0 then {TacAuthen} else {})
           + (if authorizes && t.authorCnt == 0 then {TacAuthor} else {})
           + (if accounts && t.acctCnt == 0 then {TacAcct} else {})
      && u.auth == t.auth && u.acct == t.acct
      && (q.finished ==> u.authenCnt == 0 && u.authorCnt == 0 && u.acctCnt == 0)
      && (!q.finished && authenticates ==>
            u == t.(authenCnt := if p.authenLeft == 0 then 0 else if t.authenCnt == 0 then 1 else t.authenCnt))
      && (!q.finished && authorizes ==> u == t.(authorCnt := if t.authorCnt == 0 then 1 else t.authorCnt))
      && (!q.finished && accounts ==> u == t.(acctCnt := if t.acctCnt == 0 then 1 else t.acctCnt))
  {
    match p.result
    case AuthenInvalid | AuthenNoServer | AuthenNoUser =>
      assert TacacsStep(cfg, p, t) == TacacsAuthenticating(p, t);
    case AuthenSuccess => assert TacacsStep(cfg, p, t) == TacacsAuthorizing(cfg, p, t);
    case _ =>
  }

  // ----- a login that nobody answers -----

  /** Checks until the login is settled, from this position on: at RADIUS an interval for each resend left, less
      what has gone of the current one; at TACACS+ the timeout; one check to go past either, and past the local
      check of a user that is not configured. Neither resends nor timeout are given anew at a second position
      of the same kind. */
  function SilentChecks(cfg: Config, order: int, retry: nat, left: nat, auth: nat): int
    requires 1 <= order <= 5
    decreases 5 - order
  {
    if order == 5 then 0
    else
      match GetAuthOrder(cfg, order)
      case Radius =>
        (if retry == 0 then 1 else retry * Interval(cfg) - auth + 1) + SilentChecks(cfg, order + 1, 0, left, 0)
      case Tacacs => left + 1 + SilentChecks(cfg, order + 1, retry, 0, auth)
      case Local => 1 + SilentChecks(cfg, order + 1, retry, left, auth)
      case _ => 1
  }

  predicate Silent(cfg: Config, p: Authing, t: Timers) {
    && EntryInv(p) && Waiting(p.result) && p.user != SUPER_USER && p.user !in cfg.localUsers
    && t.auth < Interval(cfg)
  }

  function ChecksFor(cfg: Config, p: Authing, t: Timers): int
    requires 1 <= p.order <= 4
  {
    SilentChecks(cfg, p.order, p.authRetry, p.authenLeft, t.auth)
  }

  lemma {:induction false} SomeChecks(cfg: Config, order: int, retry: nat, left: nat, auth: nat)
    requires 1 <= order <= 5 && auth < Interval(cfg)
    ensures SilentChecks(cfg, order, retry, left, auth) >= if order == 5 then 0 else 1
    decreases 5 - order
  {
    if order < 5 {
      match GetAuthOrder(cfg, order)
      case Radius =>
        if retry > 0 { OneIntervalLess(retry, Interval(cfg)); }
        SomeChecks(cfg, order + 1, 0, left, 0);
      case Tacacs => SomeChecks(cfg, order + 1, retry, 0, auth);
      case Local => SomeChecks(cfg, order + 1, retry, left, auth);
      case _ =>
    }
  }

  lemma OneIntervalLess(retry: nat, interval: nat)
    requires retry > 0
    ensures retry * interval == (retry - 1) * interval + interval && (retry - 1) * interval >= 0
  {
  }

  /** One check brings such a login one check nearer to its end. */
  lemma SilentNearer(cfg: Config, p: Authing, t: Timers)
    requires Silent(cfg, p, t) && GetAuthOrder(cfg, p.order) != Unknown
    ensures var (q, u) := Check(cfg, p, t);
      if ChecksFor(cfg, p, t) > 1
      then VerdictOf(cfg, q) == Pending && Silent(cfg, q, u) && ChecksFor(cfg, q, u) == ChecksFor(cfg, p, t) - 1
      else VerdictOf(cfg, q) != Pending
  {
    match GetAuthOrder(cfg, p.order)
    case Radius => SilentAtRadius(cfg, p, t);
    case Tacacs => SilentAtTacacs(cfg, p, t);
    case Local => SomeChecks(cfg, p.order + 1, p.authRetry, p.authenLeft, t.auth);
    case _ =>
  }

  lemma SilentAtRadius(cfg: Config, p: Authing, t: Timers)
    requires Silent(cfg, p, t) && GetAuthOrder(cfg, p.order) == Radius
    ensures var (q, u) := RadiusCheck(cfg, p, t);
      if ChecksFor(cfg, p, t) > 1
      then VerdictOf(cfg, q) == Pending && Silent(cfg, q, u) && ChecksFor(cfg, q, u) == ChecksFor(cfg, p, t) - 1
      else VerdictOf(cfg, q) != Pending
  {
    SomeChecks(cfg, p.order + 1, 0, p.authenLeft, 0);
    if p.authRetry > 0 { OneIntervalLess(p.authRetry, Interval(cfg)); }
  }

  lemma SilentAtTacacs(cfg: Config, p: Authing, t: Timers)
    requires Silent(cfg, p, t) && GetAuthOrder(cfg, p.order) == Tacacs
    ensures var (q, u) := TacacsCheck(cfg, p, t);
      if ChecksFor(cfg, p, t) > 1
      then VerdictOf(cfg, q) == Pending && Silent(cfg, q, u) && ChecksFor(cfg, q, u) == ChecksFor(cfg, p, t) - 1
      else VerdictOf(cfg, q) != Pending
  {
    SomeChecks(cfg, p.order + 1, p.authRetry, 0, t.auth);
    assert TacacsStep(cfg, p, t) == TacacsAuthenticating(p, t);
  }

  function SilentRun(user: string, password: string, n: nat): (events: seq<Event>)
    ensures |events| == n + 1
  {
    if n == 0 then [LoginRequest(user, password)] else SilentRun(user, password, n - 1) + [AuthTick({1})]
  }

  lemma RunOneMore(cfg: Config, events: seq<Event>, e: Event)
    ensures Run(cfg, events + [e]) == Step(cfg, Run(cfg, events), e)
  {
    assert (events + [e])[..|events|] == events;
  }

  /** A first login that nobody knows, as it comes in. */
  predicate Comes(cfg: Config, p: Authing, t: Timers) {
    && ValidOrder(cfg) && cfg.loginMax > 0 && p.user != "" && p.user != SUPER_USER && p.user !in cfg.localUsers
    && p == NewAuthing(cfg, p.user, p.password, 0) && t == START.timers
  }

  lemma SilentBegins(cfg: Config, p: Authing, t: Timers)
    requires Comes(cfg, p, t)
    ensures Run(cfg, SilentRun(p.user, p.password, 0)) == Alone(p, t) && Silent(cfg, p, t)
  {
    RunOneMore(cfg, [], LoginRequest(p.user, p.password));
    assert [] + [LoginRequest(p.user, p.password)] == [LoginRequest(p.user, p.password)];
    SmallestFreeUnique(START.authing.Keys, 1, TABLE_MAX, 1);
  }

  lemma SilentNext(cfg: Config, user: string, password: string, n: nat, s: State)
    requires n > 0 && s == Run(cfg, SilentRun(user, password, n - 1))
    ensures Run(cfg, SilentRun(user, password, n)) == Step(cfg, s, AuthTick({1}))
  {
    RunOneMore(cfg, SilentRun(user, password, n - 1), AuthTick({1}));
  }

  lemma {:induction false} SilentLasts(cfg: Config, p: Authing, t: Timers, n: nat, s: State)
    returns (q: Authing, u: Timers)
    requires Comes(cfg, p, t) && n < ChecksFor(cfg, p, t)
    requires s == Run(cfg, SilentRun(p.user, p.password, n))
    ensures s == Alone(q, u) && Silent(cfg, q, u) && ChecksFor(cfg, q, u) == ChecksFor(cfg, p, t) - n
    decreases n
  {
    if n == 0 {
      SilentBegins(cfg, p, t);
      q, u := p, t;
    } else {
      var before := Run(cfg, SilentRun(p.user, p.password, n - 1));
      q, u := SilentLasts(cfg, p, t, n - 1, before);
      SilentNext(cfg, p.user, p.password, n, before);
      q, u := SilentTick(cfg, q, u);
    }
  }

  lemma SilentTick(cfg: Config, p: Authing, t: Timers) returns (q: Authing, u: Timers)
    requires Silent(cfg, p, t) && ValidOrder(cfg) && ChecksFor(cfg, p, t) > 1
    ensures Step(cfg, Alone(p, t), AuthTick({1})) == Alone(q, u) && Silent(cfg, q, u)
    ensures ChecksFor(cfg, q, u) == ChecksFor(cfg, p, t) - 1
  {
    assert GetAuthOrder(cfg, p.order) != Unknown;
    SilentNearer(cfg, p, t);
    ScanAlone(cfg, p, t);
    q, u := Check(cfg, p, t).0, Check(cfg, p, t).1;
  }

  lemma LastTick(cfg: Config, p: Authing, t: Timers)
    requires Silent(cfg, p, t) && ValidOrder(cfg) && ChecksFor(cfg, p, t) <= 1
    ensures Step(cfg, Alone(p, t), AuthTick({1})).authing == map[]
  {
    var s := Alone(p, t);
    assert GetAuthOrder(cfg, p.order) != Unknown;
    SilentNearer(cfg, p, t);
    VisitKeepsOrders(cfg, s, 1, true);
    ScanNoneAbove(cfg, VisitLogin(cfg, s, 1, true).state, {1}, 2);
  }

  lemma NothingToCheck(cfg: Config, s: State)
    requires s.authing == map[]
    ensures Step(cfg, s, AuthTick({1})) == s
  {
    ScanKeepsOrders(cfg, s, {1}, 1);
  }

  lemma SilentOver(cfg: Config, p: Authing, t: Timers, n: nat, s: State)
    requires Comes(cfg, p, t) && n > 0 && n == ChecksFor(cfg, p, t)
    requires s == Run(cfg, SilentRun(p.user, p.password, n))
    ensures s.authing == map[]
  {
    var before := Run(cfg, SilentRun(p.user, p.password, n - 1));
    var q, u := SilentLasts(cfg, p, t, n - 1, before);
    SilentNext(cfg, p.user, p.password, n, before);
    LastTick(cfg, q, u);
  }

  lemma {:induction false} SilentEnds(cfg: Config, p: Authing, t: Timers, n: nat, s: State)
    requires Comes(cfg, p, t) && n >= ChecksFor(cfg, p, t) >= 1
    requires s == Run(cfg, SilentRun(p.user, p.password, n))
    ensures s.authing == map[]
    decreases n
  {
    if n == ChecksFor(cfg, p, t) {
      SilentOver(cfg, p, t, n, s);
    } else {
      var before := Run(cfg, SilentRun(p.user, p.password, n - 1));
      SilentEnds(cfg, p, t, n - 1, before);
      SilentNext(cfg, p.user, p.password, n, before);
      NothingToCheck(cfg, before);
    }
  }

  /** A login that comes alone and that no server ever answers is settled, for every list, number of resends and
      resend interval, at exactly that check of the timer and not before. */
  lemma SilentLoginEndsExactly(cfg: Config, user: string, password: string, n: nat)
    requires ValidOrder(cfg) && user != "" && user != SUPER_USER && user !in cfg.localUsers && cfg.loginMax > 0
    ensures Run(cfg, SilentRun(user, password, n)).authing != map[] <==>
      n < SilentChecks(cfg, 1, cfg.retryTimes % 256, 6, 0)
  {
    var p, t := NewAuthing(cfg, user, password, 0), START.timers;
    assert ChecksFor(cfg, p, t) == SilentChecks(cfg, 1, cfg.retryTimes % 256, 6, 0);
    SomeChecks(cfg, p.order, p.authRetry, p.authenLeft, t.auth);
    var s := Run(cfg, SilentRun(user, password, n));
    if n < ChecksFor(cfg, p, t) {
      var q, u := SilentLasts(cfg, p, t, n, s);
      assert 1 in Alone(q, u).authing;
    } else {
      SilentEnds(cfg, p, t, n, s);
    }
  }
}
