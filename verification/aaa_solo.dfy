/** Runs with a single login, built event by event: what such a run can be made to reach. */
module AaaSolo {
  import opened AaaTypes
  import opened AaaSession
  import opened AaaSoundness
  import opened AaaTable
  import opened AaaRuns
  import opened AaaAdmission
  import opened IdAllocator

  /** The state in which the first login ever is pending and nobody is online. */
  function Alone(p: Authing, t: Timers): State {
    State(map[1 := p], [], {}, t, 1)
  }

  /** What else is asked of the answers of a run: that this one never comes, or that none comes late. */
  datatype Limits = Without(answer: Reply) | NoneLate

  ghost predicate Unheard(events: seq<Event>, x: Reply) {
    forall i :: 0 <= i < |events| && events[i].ServerReply? ==> events[i].reply != x
  }

  ghost predicate Within(cfg: Config, events: seq<Event>, limits: Limits) {
    match limits
    case Without(x) => Unheard(events, x)
    case NoneLate => CurrentAnswers(cfg, events)
  }

  predicate Permits(cfg: Config, p: Authing, r: Reply, limits: Limits)
    requires 1 <= p.order <= 4
  {
    match limits
    case Without(x) => r != x
    case NoneLate => AtCurrent(cfg, p, r)
  }

  /** The events lead to that state, with every answer to a request sent, and within the limits. */
  ghost predicate Reached(cfg: Config, events: seq<Event>, p: Authing, t: Timers, limits: Limits) {
    && HonestAnswers(cfg, events) && Within(cfg, events, limits)
    && Run(cfg, events) == Alone(p, t) && EntryInv(p)
  }

  lemma OneMore(cfg: Config, events: seq<Event>, e: Event)
    requires HonestAnswers(cfg, events)
    requires var s := Run(cfg, events); e.ServerReply? && e.login in s.authing ==> Asked(s.authing[e.login], e.reply)
    ensures HonestAnswers(cfg, events + [e]) && Run(cfg, events + [e]) == Step(cfg, Run(cfg, events), e)
  {
    var n := |events|;
    var more := events + [e];
    assert more[..n] == events;
    forall i | 0 <= i < n + 1 ensures HonestAt(cfg, more, i) {
      if i < n { assert HonestAt(cfg, events, i) && events[..i] == more[..i]; }
    }
  }

  lemma StaysWithin(cfg: Config, events: seq<Event>, e: Event, limits: Limits)
    requires Within(cfg, events, limits)
    requires limits.Without? ==> !e.ServerReply? || e.reply != limits.answer
    requires var s := Run(cfg, events);
      limits.NoneLate? && e.ServerReply? && e.login in s.authing ==> AtCurrent(cfg, s.authing[e.login], e.reply)
    ensures Within(cfg, events + [e], limits)
  {
    var n := |events|;
    var more := events + [e];
    if limits.NoneLate? {
      assert more[..n] == events;
      forall i | 0 <= i < n + 1 ensures CurrentAt(cfg, more, i) {
        if i < n { assert CurrentAt(cfg, events, i) && events[..i] == more[..i]; }
      }
    }
  }

  lemma {:induction false} ScanNoneAbove(cfg: Config, s: State, acks: set<nat>, id: nat)
    requires OrdersInRange(s) && forall k :: k in s.authing ==> k < id
    ensures Scan(cfg, s, acks, id) == s
    decreases TABLE_MAX + 1 - id
  {
    if id <= TABLE_MAX { ScanNoneAbove(cfg, s, acks, id + 1); }
  }

  /** The login is checked by a server, or by a list of local users that does not have it. */
  predicate Elsewhere(cfg: Config, p: Authing)
    requires 1 <= p.order <= 4
  {
    Selected(cfg, p) == Local ==> p.user !in cfg.localUsers
  }

  lemma ScanAlone(cfg: Config, p: Authing, t: Timers)
    requires EntryInv(p) && Elsewhere(cfg, p)
    ensures var (q, u) := Check(cfg, p, t); var s := Scan(cfg, Alone(p, t), {1}, 1);
      && (VerdictOf(cfg, q) == Pending ==> s == Alone(q, u))
      && (VerdictOf(cfg, q) == Admitted ==>
            |s.online| == 1 && s.online[0].logMethod == Selected(cfg, p) && s.online[0].user == q.user)
  {
    var s := Alone(p, t);
    VisitKeepsOrders(cfg, s, 1, true);
    ScanNoneAbove(cfg, VisitLogin(cfg, s, 1, true).state, {1}, 2);
    assert s.authing[1 := Check(cfg, p, t).0] == map[1 := Check(cfg, p, t).0];
  }

  lemma FirstLogin(cfg: Config, s: State, user: string)
    requires s.authing == map[] && |s.online| < cfg.loginMax && user != ""
    ensures Login(cfg, s, user, "")
         == s.(authing := map[1 := NewAuthing(cfg, user, "", s.logins)], logins := s.logins + 1)
  {
    SmallestFreeUnique(s.authing.Keys, 1, TABLE_MAX, 1);
  }

  lemma LoginReached(cfg: Config, events: seq<Event>, s: State, user: string, limits: Limits)
    requires s == Run(cfg, events) && s.authing == map[] && s.online == [] && s.live == {} && s.logins == 0
    requires HonestAnswers(cfg, events) && Within(cfg, events, limits) && cfg.loginMax > 0 && user != ""
    ensures Reached(cfg, events + [LoginRequest(user, "")], NewAuthing(cfg, user, "", 0), s.timers, limits)
  {
    OneMore(cfg, events, LoginRequest(user, ""));
    StaysWithin(cfg, events, LoginRequest(user, ""), limits);
    FirstLogin(cfg, s, user);
  }

  lemma Begin(cfg: Config, user: string, limits: Limits)
    requires cfg.loginMax > 0 && user != ""
    ensures Reached(cfg, [LoginRequest(user, "")], NewAuthing(cfg, user, "", 0), START.timers, limits)
  {
    LoginReached(cfg, [], Run(cfg, []), user, limits);
    assert [] + [LoginRequest(user, "")] == [LoginRequest(user, "")];
  }

  lemma TickTo(cfg: Config, events: seq<Event>, p: Authing, t: Timers, limits: Limits)
    requires Reached(cfg, events, p, t, limits) && Elsewhere(cfg, p)
    requires VerdictOf(cfg, Check(cfg, p, t).0) == Pending
    ensures var (q, u) := Check(cfg, p, t); Reached(cfg, events + [AuthTick({1})], q, u, limits)
  {
    OneMore(cfg, events, AuthTick({1}));
    StaysWithin(cfg, events, AuthTick({1}), limits);
    ScanAlone(cfg, p, t);
    CheckKeepsLogin(cfg, p, t);
  }

  lemma AnswerTo(cfg: Config, events: seq<Event>, p: Authing, t: Timers, limits: Limits, r: Reply)
    requires Reached(cfg, events, p, t, limits) && Asked(p, r) && Permits(cfg, p, r, limits)
    ensures Reached(cfg, events + [ServerReply(1, r)], ApplyReply(p, r), t, limits)
  {
    OneMore(cfg, events, ServerReply(1, r));
    StaysWithin(cfg, events, ServerReply(1, r), limits);
    assert map[1 := p][1 := ApplyReply(p, r)] == map[1 := ApplyReply(p, r)];
  }

  /** The tick that lets the login in. */
  lemma LetIn(cfg: Config, events: seq<Event>, p: Authing, t: Timers, x: Reply)
    requires Reached(cfg, events, p, t, Without(x)) && Elsewhere(cfg, p)
    requires VerdictOf(cfg, Check(cfg, p, t).0) == Admitted
    ensures InWithout(cfg, events + [AuthTick({1})], Selected(cfg, p), x)
  {
    OneMore(cfg, events, AuthTick({1}));
    ScanAlone(cfg, p, t);
  }

  /** Someone is online under `m`, and the answer `x` never came. */
  ghost predicate InWithout(cfg: Config, events: seq<Event>, m: Method, x: Reply) {
    && HonestAnswers(cfg, events)
    && Unheard(events, x)
    && |Run(cfg, events).online| == 1
    && Run(cfg, events).online[0].logMethod == m
  }

  // ----- walking down the list, unanswered -----

  /** A login that nobody knows, waiting at its place; what it has not asked yet it still can ask. */
  predicate Underway(cfg: Config, p: Authing, t: Timers) {
    && p.user != SUPER_USER && p.user !in cfg.localUsers
    && Waiting(p.result)
    && (t.authenCnt == 0 || TacAuthen in p.history.asked)
    && (TacAuthen !in p.history.asked ==> p.authenLeft > 0)
    && (RadAuth !in p.history.asked ==> p.authRetry == Attempts(cfg))
    && p.acctRetry == Attempts(cfg)
  }

  /** Nor has it begun with the phases behind authentication. */
  predicate Fresh(p: Authing, t: Timers) {
    t.authorCnt == 0 && t.acctCnt == 0 && p.authorLeft > 0 && p.acctLeft > 0
  }

  /** `q` is that login further down the list, having asked at least what `p` had. */
  predicate Further(p: Authing, t: Timers, q: Authing, u: Timers) {
    && q.user == p.user && p.history.asked <= q.history.asked
    && (Fresh(p, t) ==> Fresh(q, u))
  }

  lemma PassRadius(cfg: Config, events: seq<Event>, p: Authing, t: Timers, limits: Limits)
    returns (more: seq<Event>, q: Authing, u: Timers)
    requires Reached(cfg, events, p, t, limits) && Underway(cfg, p, t) && Selected(cfg, p) == Radius && p.order < 4
    ensures Reached(cfg, more, q, u, limits) && Underway(cfg, q, u) && Further(p, t, q, u) && q.order == p.order + 1
    ensures Attempts(cfg) > 0 ==> RadAuth in q.history.asked
    decreases p.authRetry, Distance(cfg, t.auth)
  {
    more := events + [AuthTick({1})];
    q, u := Check(cfg, p, t).0, Check(cfg, p, t).1;
    TickTo(cfg, events, p, t, limits);
    if q.order == p.order {
      more, q, u := PassRadius(cfg, more, q, u, limits);
    }
  }

  /** One tick of waiting for TACACS+. */
  lemma UnansweredTacacs(cfg: Config, p: Authing, t: Timers)
    requires 1 <= p.order <= 4 && Underway(cfg, p, t) && Selected(cfg, p) == Tacacs && !p.finished
    requires p.order < 4 || p.authenLeft > 0
    ensures var (q, u) := Check(cfg, p, t);
      && !q.finished && Underway(cfg, q, u) && Further(p, t, q, u) && TacAuthen in q.history.asked
      && q.order == (if p.authenLeft == 0 then p.order + 1 else p.order)
      && (p.authenLeft > 0 ==> q.authenLeft < p.authenLeft)
  {
    assert TacacsStep(cfg, p, t) == TacacsAuthenticating(p, t);
  }

  lemma PassTacacs(cfg: Config, events: seq<Event>, p: Authing, t: Timers, limits: Limits)
    returns (more: seq<Event>, q: Authing, u: Timers)
    requires Reached(cfg, events, p, t, limits) && Underway(cfg, p, t) && Selected(cfg, p) == Tacacs && p.order < 4
    ensures Reached(cfg, more, q, u, limits) && Underway(cfg, q, u) && Further(p, t, q, u) && q.order == p.order + 1
    ensures TacAuthen in q.history.asked
    decreases p.authenLeft
  {
    more := events + [AuthTick({1})];
    q, u := Check(cfg, p, t).0, Check(cfg, p, t).1;
    UnansweredTacacs(cfg, p, t);
    TickTo(cfg, events, p, t, limits);
    if p.authenLeft > 0 {
      more, q, u := PassTacacs(cfg, more, q, u, limits);
    }
  }

  lemma PassLocal(cfg: Config, events: seq<Event>, p: Authing, t: Timers, limits: Limits)
    returns (more: seq<Event>, q: Authing, u: Timers)
    requires Reached(cfg, events, p, t, limits) && Underway(cfg, p, t) && Selected(cfg, p) == Local && p.order < 4
    ensures Reached(cfg, more, q, u, limits) && Underway(cfg, q, u) && Further(p, t, q, u) && q.order == p.order + 1
  {
    more := events + [AuthTick({1})];
    q, u := Check(cfg, p, t).0, Check(cfg, p, t).1;
    TickTo(cfg, events, p, t, limits);
  }

  predicate HasAsked(cfg: Config, asked: set<Request>, k: int)
    requires 1 <= k <= 4
  {
    match GetAuthOrder(cfg, k)
    case Radius => Attempts(cfg) > 0 ==> RadAuth in asked
    case Tacacs => TacAuthen in asked
    case _ => true
  }

  /** A login gets to any position behind passable ones, and has asked every server on the way. */
  lemma Walk(cfg: Config, events: seq<Event>, p: Authing, t: Timers, j: int, limits: Limits)
    returns (more: seq<Event>, q: Authing, u: Timers)
    requires Reached(cfg, events, p, t, limits) && Underway(cfg, p, t) && p.order <= j <= 4
    requires forall k | p.order <= k < j :: Passable(cfg, k)
    ensures Reached(cfg, more, q, u, limits) && Underway(cfg, q, u) && Further(p, t, q, u) && q.order == j
    ensures forall k | p.order <= k < j :: HasAsked(cfg, q.history.asked, k)
    decreases j - p.order
  {
    more, q, u := events, p, t;
    if p.order < j {
      assert Passable(cfg, p.order);
      match GetAuthOrder(cfg, p.order) {
        case Radius => more, q, u := PassRadius(cfg, events, p, t, limits);
        case Tacacs => more, q, u := PassTacacs(cfg, events, p, t, limits);
        case Local => more, q, u := PassLocal(cfg, events, p, t, limits);
      }
      var asked := q.history.asked;
      assert HasAsked(cfg, asked, p.order);
      more, q, u := Walk(cfg, more, q, u, j, limits);
      assert asked <= q.history.asked;
    }
  }

  /** A first login gets there from the start. */
  lemma WalkFromStart(cfg: Config, user: string, j: int, limits: Limits)
    returns (events: seq<Event>, q: Authing, u: Timers)
    requires cfg.loginMax > 0 && user != "" && user != SUPER_USER && user !in cfg.localUsers
    requires 1 <= j <= 4 && PassableUpTo(cfg, j)
    ensures Reached(cfg, events, q, u, limits) && Underway(cfg, q, u) && Fresh(q, u) && q.order == j
    ensures forall k | 1 <= k < j :: HasAsked(cfg, q.history.asked, k)
  {
    Begin(cfg, user, limits);
    events, q, u := Walk(cfg, [LoginRequest(user, "")], NewAuthing(cfg, user, "", 0), START.timers, j, limits);
  }

  // ----- a user that nobody knows -----

  lemma {:induction false} LongestName(names: set<string>) returns (n: nat)
    ensures forall s :: s in names ==> |s| <= n
    decreases names
  {
    n := 0;
    if names != {} {
      var s :| s in names;
      var m := LongestName(names - {s});
      n := if m < |s| then |s| else m;
    }
  }

  lemma UnknownUser(cfg: Config) returns (user: string)
    ensures user != "" && user != SUPER_USER && user !in cfg.localUsers
  {
    var n := LongestName(cfg.localUsers.Keys);
    user := seq(n + 8, _ => 'x');
    assert |user| > |SUPER_USER|;
    assert user in cfg.localUsers.Keys ==> |user| <= n;
  }
}
