/** Which lists of methods can lose a login, and on which the authing table always empties, over runs in which
    answers are to requests sent. */
module AaaLostLogins {
  import opened AaaTypes
  import opened AaaSession
  import opened AaaSoundness
  import opened AaaTable
  import opened AaaRuns
  import opened AaaAdmission
  import opened AaaSettling
  import opened AaaEmptying
  import opened AaaStranding
  import opened AaaSolo

  // ----- the conditions -----

  /** A server asked at position i can still answer when the login waits for the local check at j. */
  predicate LosesAt(cfg: Config, i: int, j: int)
    requires 1 <= i < j <= 4
  {
    && PassableUpTo(cfg, j)
    && GetAuthOrder(cfg, j) == Local
    && (GetAuthOrder(cfg, i) == Tacacs || (GetAuthOrder(cfg, i) == Radius && Attempts(cfg) > 0))
  }

  predicate Loses(cfg: Config) {
    cfg.loginMax > 0 && exists i, j | 1 <= i < j <= 4 :: LosesAt(cfg, i, j)
  }

  /** A login that TACACS+ authorizes goes on to RADIUS, because accounting is neither on nor waived. */
  predicate ParksAt(cfg: Config, i: int, j: int)
    requires 1 <= i < j <= 4
  {
    PassableUpTo(cfg, j) && GetAuthOrder(cfg, i) == Tacacs && GetAuthOrder(cfg, j) == Radius
  }

  predicate Parks(cfg: Config) {
    && cfg.loginMax > 0 && cfg.tacAuthor && !cfg.tacAcct && !cfg.onlineAcctFailed
    && exists i, j | 1 <= i < j <= 4 :: ParksAt(cfg, i, j)
  }

  // ----- where neither holds -----

  lemma NotAskedAtLocalCheck(cfg: Config, p: Authing)
    requires LoginInv(cfg, p) && !Loses(cfg) && Selected(cfg, p) == Local
    ensures p.history.asked == {}
  {
    if p.user != SUPER_USER {
      forall m | m == Tacacs || (m == Radius && Attempts(cfg) > 0) ensures !HasUpTo(cfg, p.order, m) {
        if HasUpTo(cfg, p.order, m) {
          var i :| 1 <= i <= p.order && GetAuthOrder(cfg, i) == m;
          assert LosesAt(cfg, i, p.order);
        }
      }
      assert RadAuth !in p.history.asked && TacAuthen !in p.history.asked;
      forall r: Request ensures r !in p.history.asked {
        assert r == RadAuth || r == RadAcct || r == TacAuthen || r == TacAuthor || r == TacAcct;
      }
    }
  }

  lemma NotAuthorizedAtRadius(cfg: Config, p: Authing)
    requires LoginInv(cfg, p) && !Parks(cfg) && Selected(cfg, p) == Radius
    ensures !IsAuthor(p.result)
  {
    if IsAuthor(p.result) {
      assert HasUpTo(cfg, p.order, Tacacs) && !TacacsAdmits(cfg);
      var i :| 1 <= i <= p.order && GetAuthOrder(cfg, i) == Tacacs;
      assert ParksAt(cfg, i, p.order);
    }
  }

  lemma NeverStuck(cfg: Config, p: Authing)
    requires ValidOrder(cfg) && LoginInv(cfg, p) && !Loses(cfg) && !Parks(cfg)
    ensures !Stuck(cfg, p)
  {
    assert GetAuthOrder(cfg, p.order) != Unknown;
    if Selected(cfg, p) == Local {
      NotAskedAtLocalCheck(cfg, p);
    } else if Selected(cfg, p) == Radius {
      NotAuthorizedAtRadius(cfg, p);
    }
  }

  // ----- a stuck login alone -----

  function Acknowledged(n: nat): seq<set<nat>> { seq(n, _ => {1}) }

  lemma {:induction false} StuckAlone(cfg: Config, p: Authing, t: Timers, n: nat)
    requires EntryInv(p) && Elsewhere(cfg, p) && Stuck(cfg, p)
    ensures AfterTicks(cfg, Alone(p, t), Acknowledged(n)) == Alone(p, t)
  {
    if n > 0 {
      TickIdleExactlyWhenStuck(cfg, p, t);
      ScanAlone(cfg, p, t);
      assert Acknowledged(n)[1..] == Acknowledged(n - 1);
      StuckAlone(cfg, p, t, n - 1);
    }
  }

  lemma {:induction false} ToldBeyondHelp(cfg: Config, p: Authing, answers: seq<Reply>)
    requires EntryInv(p) && BeyondHelp(cfg, p) && forall r :: r in answers ==> Asked(p, r)
    ensures var q := Told(p, answers); q.user == p.user && EntryInv(q) && BeyondHelp(cfg, q)
    decreases |answers|
  {
    if answers != [] {
      assert Asked(p, answers[0]);
      forall r | r in answers[1..] ensures Asked(ApplyReply(p, answers[0]), r) {
        assert r in answers && Asked(p, r);
      }
      ToldBeyondHelp(cfg, ApplyReply(p, answers[0]), answers[1..]);
    }
  }

  lemma LostAlone(cfg: Config, p: Authing, t: Timers)
    requires EntryInv(p) && Elsewhere(cfg, p) && BeyondHelp(cfg, p)
    ensures !CanStillFinish(cfg, Alone(p, t), 1)
  {
    var s := Alone(p, t);
    forall answers | forall r :: r in answers ==> Asked(p, r) ensures !SettledByTicks(cfg, ToldAt(s, 1, answers), 1) {
      ToldBeyondHelp(cfg, p, answers);
      var told := ToldAt(s, 1, answers);
      assert told == Alone(Told(p, answers), t);
      var ticks := Acknowledged(Potential(cfg, told, WithAnswers));
      StuckAlone(cfg, Told(p, answers), t, |ticks|);
      assert Enough(cfg, told, ticks);
    }
  }

  /** A late answer reaches a login at the local check, which then does nothing with it ever again. */
  lemma LosingRun(cfg: Config) returns (events: seq<Event>)
    requires ValidOrder(cfg) && Loses(cfg)
    ensures HonestAnswers(cfg, events) && 1 in Run(cfg, events).authing
    ensures LeftForGood(cfg, Run(cfg, events).authing[1]) && !CanStillFinish(cfg, Run(cfg, events), 1)
  {
    var i, j :| 1 <= i < j <= 4 && LosesAt(cfg, i, j);
    var user := UnknownUser(cfg);
    var q, u;
    events, q, u := WalkFromStart(cfg, user, j, Without(RadChallenge));
    assert HasAsked(cfg, q.history.asked, i);
    var r := if GetAuthOrder(cfg, i) == Tacacs then TacAuthenPass else RadAccept;
    AnswerTo(cfg, events, q, u, Without(RadChallenge), r);
    events := events + [ServerReply(1, r)];
    LeftForGoodExactly(cfg, ApplyReply(q, r));
    LostAlone(cfg, ApplyReply(q, r), u);
  }

  ghost predicate LosesNobody(cfg: Config) {
    forall events, id :: HonestAnswers(cfg, events) && id in Run(cfg, events).authing ==>
      CanStillFinish(cfg, Run(cfg, events), id)
  }

  /** In every run in which servers answer only what they were asked, each pending login can still finish under
      the daemon's own counters, exactly when the list has no local check behind a server that is asked before
      it. */
  lemma LosingExactly(cfg: Config)
    requires ValidOrder(cfg)
    ensures LosesNobody(cfg) <==> !Loses(cfg)
  {
    if Loses(cfg) {
      var events := LosingRun(cfg);
    } else {
      forall events, id | HonestAnswers(cfg, events) && id in Run(cfg, events).authing
        ensures CanStillFinish(cfg, Run(cfg, events), id)
      {
        RunKeeps(cfg, events);
        RunInOrder(cfg, events);
        var p := Run(cfg, events).authing[id];
        if Selected(cfg, p) == Local { NotAskedAtLocalCheck(cfg, p); }
        LostExactlyAtLocalCheck(cfg, Run(cfg, events), id);
      }
    }
  }

  // ----- when the table always empties -----

  /** From TACACS+, authorized, to the next method, with the authorization still open to be answered again. */
  lemma AuthorizedGoesOn(cfg: Config, events: seq<Event>, p: Authing, t: Timers, limits: Limits)
    returns (more: seq<Event>, q: Authing, u: Timers)
    requires Reached(cfg, events, p, t, limits) && Underway(cfg, p, t) && Fresh(p, t) && limits == Without(RadChallenge)
    requires Selected(cfg, p) == Tacacs && p.order < 4 && TacAuthen in p.history.asked
    requires cfg.tacAuthor && !cfg.tacAcct && !cfg.onlineAcctFailed
    ensures Reached(cfg, more, q, u, limits) && Underway(cfg, q, u) && q.user == p.user && q.order == p.order + 1
    ensures TacAuthor in q.history.asked
  {
    AnswerTo(cfg, events, p, t, limits, TacAuthenPass);
    more, q, u := events + [ServerReply(1, TacAuthenPass)], ApplyReply(p, TacAuthenPass), t;
    assert TacacsStep(cfg, q, u) == TacacsAuthorizing(cfg, q, u);
    TickTo(cfg, more, q, u, limits);
    more, q, u := more + [AuthTick({1})], Check(cfg, q, u).0, Check(cfg, q, u).1;
    AnswerTo(cfg, more, q, u, limits, TacAuthorPass);
    more, q := more + [ServerReply(1, TacAuthorPass)], ApplyReply(q, TacAuthorPass);
    assert TacacsStep(cfg, q, u) == TacacsAuthorized(cfg, q, u);
    TickTo(cfg, more, q, u, limits);
    more, q, u := more + [AuthTick({1})], Check(cfg, q, u).0, Check(cfg, q, u).1;
  }

  /** A repeated authorization answer reaches a login at RADIUS, where ticks do nothing until another answer. */
  lemma ParkingRun(cfg: Config) returns (events: seq<Event>, p: Authing, t: Timers)
    requires ValidOrder(cfg) && Parks(cfg)
    ensures Reached(cfg, events, p, t, Without(RadChallenge)) && Elsewhere(cfg, p) && Stuck(cfg, p)
  {
    var i, j :| 1 <= i < j <= 4 && ParksAt(cfg, i, j);
    var limits := Without(RadChallenge);
    var user := UnknownUser(cfg);
    events, p, t := WalkFromStart(cfg, user, i, limits);
    if TacAuthen !in p.history.asked {
      events, p, t := AuthenticationAsked(cfg, events, p, t, limits);
    }
    events, p, t := AuthorizedGoesOn(cfg, events, p, t, limits);
    events, p, t := Walk(cfg, events, p, t, j, limits);
    AnswerTo(cfg, events, p, t, limits, TacAuthorPass);
    events, p := events + [ServerReply(1, TacAuthorPass)], ApplyReply(p, TacAuthorPass);
  }

  lemma AuthenticationAsked(cfg: Config, events: seq<Event>, p: Authing, t: Timers, limits: Limits)
    returns (more: seq<Event>, q: Authing, u: Timers)
    requires Reached(cfg, events, p, t, limits) && Underway(cfg, p, t) && Fresh(p, t)
    requires Selected(cfg, p) == Tacacs && TacAuthen !in p.history.asked
    ensures Reached(cfg, more, q, u, limits) && Underway(cfg, q, u) && Fresh(q, u) && TacAuthen in q.history.asked
    ensures q.user == p.user && q.order == p.order
  {
    UnansweredTacacs(cfg, p, t);
    TickTo(cfg, events, p, t, limits);
    more, q, u := events + [AuthTick({1})], Check(cfg, p, t).0, Check(cfg, p, t).1;
  }

  ghost predicate AlwaysEmpties(cfg: Config) {
    forall events, ticks :: HonestAnswers(cfg, events) && Enough(cfg, Run(cfg, events), ticks) ==>
      AfterTicks(cfg, Run(cfg, events), ticks).authing == map[]
  }

  /** Whatever logins, answers and timers a run has had, with answers only to requests sent: once no more
      logins and answers come, the authing table is empty within the potential, exactly when the list loses
      nobody at the local check and parks nobody at RADIUS. */
  lemma EmptyingExactly(cfg: Config)
    requires ValidOrder(cfg)
    ensures AlwaysEmpties(cfg) <==> !Loses(cfg) && !Parks(cfg)
  {
    if Loses(cfg) {
      var events := LosingRun(cfg);
      NotEmptied(cfg, events);
    } else if Parks(cfg) {
      var events, p, t := ParkingRun(cfg);
      var ticks := Acknowledged(Potential(cfg, Run(cfg, events), WithAnswers));
      StuckAlone(cfg, p, t, |ticks|);
      assert Enough(cfg, Run(cfg, events), ticks);
    } else {
      forall events, ticks | HonestAnswers(cfg, events) && Enough(cfg, Run(cfg, events), ticks)
        ensures AfterTicks(cfg, Run(cfg, events), ticks).authing == map[]
      {
        RunKeeps(cfg, events);
        RunInOrder(cfg, events);
        forall k | k in Run(cfg, events).authing ensures !Stuck(cfg, Run(cfg, events).authing[k]) {
          NeverStuck(cfg, Run(cfg, events).authing[k]);
        }
        TicksSettleEveryone(cfg, Run(cfg, events), ticks);
      }
    }
  }

  lemma NotEmptied(cfg: Config, events: seq<Event>)
    requires HonestAnswers(cfg, events) && 1 in Run(cfg, events).authing && !CanStillFinish(cfg, Run(cfg, events), 1)
    ensures !AlwaysEmpties(cfg)
  {
    var s := Run(cfg, events);
    assert ToldAt(s, 1, []) == s;
    assert !SettledByTicks(cfg, s, 1);
    var ticks :| Enough(cfg, s, ticks) && 1 in AfterTicks(cfg, s, ticks).authing;
  }

  /** Setting a list never makes it park anyone, because it switches accounting on unless that is waived. */
  lemma ConfiguredNeverParks(cfg: Config, m1: Method, m2: Method, m3: Method, m4: Method)
    requires !Lists(Unknown, m1, m2, m3, m4)
    ensures !Parks(SetAuthOrder(cfg, m1, m2, m3, m4))
  {
    var c := SetAuthOrder(cfg, m1, m2, m3, m4);
    SetAuthOrderReadsBack(cfg, m1, m2, m3, m4);
    if !Lists(Tacacs, m1, m2, m3, m4) {
      forall i | 1 <= i <= 4 ensures GetAuthOrder(c, i) != Tacacs {
        assert i == 1 || i == 2 || i == 3 || i == 4;
      }
    }
  }

  // ----- with no answer late -----

  lemma CurrentReplyKeepsMoving(cfg: Config, s: State, login: nat, r: Reply, k: nat)
    requires OrdersInRange(s) && Moving(cfg, s, k) && (k in s.authing ==> EntryInv(s.authing[k]))
    requires login in s.authing ==> AtCurrent(cfg, s.authing[login], r)
    ensures OrdersInRange(Step(cfg, s, ServerReply(login, r)))
    ensures Moving(cfg, Step(cfg, s, ServerReply(login, r)), k)
  {
    StepKeepsOrders(cfg, s, ServerReply(login, r));
    if login == k && k in s.authing { LateReplyStrands(cfg, s.authing[k], r); }
  }

  lemma LoginKeepsMoving(cfg: Config, s: State, user: string, password: string, k: nat)
    requires ValidOrder(cfg) && OrdersInRange(s) && Moving(cfg, s, k)
    ensures OrdersInRange(Login(cfg, s, user, password)) && Moving(cfg, Login(cfg, s, user, password), k)
  {
    assert GetAuthOrder(cfg, 1) != Unknown;
  }

  lemma OnlineEventKeepsMoving(cfg: Config, s: State, e: Event, k: nat)
    requires OrdersInRange(s) && Moving(cfg, s, k)
    requires e.LoginExit? || e.EchoRequest? || e.AcctReply? || e.OnlineTick?
    ensures OrdersInRange(Step(cfg, s, e)) && Moving(cfg, Step(cfg, s, e), k)
  {
    if e.OnlineTick? { OnlineScanKeepsAuthing(cfg, s, 0); }
    assert Step(cfg, s, e).authing == s.authing;
  }

  lemma StepKeepsMoving(cfg: Config, s: State, e: Event, k: nat)
    requires ValidOrder(cfg) && TableInv(cfg, s) && Moving(cfg, s, k)
    requires e.ServerReply? && e.login in s.authing ==> AtCurrent(cfg, s.authing[e.login], e.reply)
    ensures OrdersInRange(Step(cfg, s, e)) && Moving(cfg, Step(cfg, s, e), k)
  {
    match e
    case LoginRequest(user, password) => LoginKeepsMoving(cfg, s, user, password, k);
    case ServerReply(login, reply) => CurrentReplyKeepsMoving(cfg, s, login, reply, k);
    case TerminalReset =>
    case AuthTick(acks) => ScanKeepsMoving(cfg, s, acks, 1, k);
    case _ => OnlineEventKeepsMoving(cfg, s, e, k);
  }

  lemma {:induction false} CurrentRunsMove(cfg: Config, events: seq<Event>, k: nat)
    requires ValidOrder(cfg) && CurrentAnswers(cfg, events)
    ensures Moving(cfg, Run(cfg, events), k)
  {
    if events != [] {
      var n := |events| - 1;
      CurrentEarlier(cfg, events, n);
      CurrentRunsMove(cfg, events[..n], k);
      RunKeeps(cfg, events[..n]);
      assert CurrentAt(cfg, events, n);
      StepKeepsMoving(cfg, Run(cfg, events[..n]), events[n], k);
    }
  }

  /** If every answer of a run was for the method that its login was at, then on every list and under every
      policy the authing table is empty within the potential, once no more logins and answers come. */
  lemma CurrentRunsEmpty(cfg: Config, events: seq<Event>, ticks: seq<set<nat>>)
    requires ValidOrder(cfg) && CurrentAnswers(cfg, events) && Enough(cfg, Run(cfg, events), ticks)
    ensures AfterTicks(cfg, Run(cfg, events), ticks).authing == map[]
  {
    RunKeeps(cfg, events);
    forall k | k in Run(cfg, events).authing ensures !Stuck(cfg, Run(cfg, events).authing[k]) {
      CurrentRunsMove(cfg, events, k);
    }
    TicksSettleEveryone(cfg, Run(cfg, events), ticks);
  }
}
