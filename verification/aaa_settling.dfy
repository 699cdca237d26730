/** Pending logins get settled: bounds on the timer ticks that can pass while some login is pending and not
    stuck, over every run, although the resend timers are shared by all logins. */
module AaaSettling {
  import opened AaaTypes
  import opened AaaSession
  import opened AaaTable
  import opened AaaRuns
  import opened AaaSoundness
  import opened AaaAdmission

  // ----- a potential for the whole authing table -----

  predicate Listed(authing: map<nat, Authing>) {
    forall id :: id in authing ==> 1 <= authing[id].order <= 4
  }

  /** Work left for the logins with ids 1..n. */
  function TotalWork(authing: map<nat, Authing>, n: nat, how: Reckoning): nat
    requires Listed(authing)
    decreases n, |authing|
  {
    if n == 0 then 0 else TotalWork(authing, n - 1, how) + if n in authing then Work(authing[n], how) else 0
  }

  /** Lexicographic rank of (w, a, b) for a, b < base: w times the square of the base, and a times base. */
  function Rank(base: nat, w: nat, a: nat, b: nat): nat
    decreases w
  {
    if w == 0 then a * base + b else Rank(base, w - 1, a, b) + base * base
  }

  lemma {:induction false} RankAdds(base: nat, w: nat, more: nat, a: nat, b: nat)
    ensures Rank(base, w + more, a, b) == Rank(base, w, a, b) + Rank(base, more, 0, 0)
    decreases more
  {
    if more > 0 { RankAdds(base, w, more - 1, a, b); }
  }

  lemma RankOrder(base: nat, w: nat, a: nat, b: nat, w': nat, a': nat, b': nat)
    requires a' < base && b' < base
    requires w' < w || (w' == w && a' < a) || (w' == w && a' == a && b' < b)
    ensures Rank(base, w', a', b') < Rank(base, w, a, b)
  {
    RankAdds(base, 0, w', a', b');
    RankAdds(base, 0, w, a, b);
    MulStep(a', base, base);
    if w' < w {
      RankAdds(base, 1, w', 0, 0);
      RankAdds(base, w' + 1, w - w' - 1, 0, 0);
    } else if a' < a {
      MulStep(a', a, base);
    }
  }

  lemma MulStep(x: nat, y: nat, base: nat)
    requires x < y
    ensures x * base + base <= y * base
  {
    assert (y - x - 1) * base >= 0;
    assert y * base == x * base + base + (y - x - 1) * base;
  }

  function Base(cfg: Config): nat { ResendTicks(cfg) + 1 }

  /** The potential of so much work by itself. */
  function Cost(cfg: Config, work: nat): nat { Rank(Base(cfg), work, 0, 0) }

  function Potential(cfg: Config, s: State, how: Reckoning): nat
    requires OrdersInRange(s)
  {
    Rank(Base(cfg), TotalWork(s.authing, TABLE_MAX, how), Distance(cfg, s.timers.acct), Distance(cfg, s.timers.auth))
  }

  lemma {:induction false} TotalWithout(authing: map<nat, Authing>, id: nat, n: nat, how: Reckoning)
    requires Listed(authing)
    ensures TotalWork(Remove(authing, id), n, how)
         == TotalWork(authing, n, how) - (if 1 <= id <= n && id in authing then Work(authing[id], how) else 0)
  {
    if n > 0 { TotalWithout(authing, id, n - 1, how); }
  }

  lemma {:induction false} TotalWith(authing: map<nat, Authing>, id: nat, p: Authing, n: nat, how: Reckoning)
    requires Listed(authing) && 1 <= p.order <= 4
    ensures TotalWork(authing[id := p], n, how)
         == TotalWork(Remove(authing, id), n, how) + (if 1 <= id <= n then Work(p, how) else 0)
  {
    if n > 0 { TotalWith(authing, id, p, n - 1, how); }
  }

  lemma {:induction false} TotalNone(n: nat, how: Reckoning)
    ensures TotalWork(map[], n, how) == 0
  {
    if n > 0 { TotalNone(n - 1, how); }
  }

  // ----- ticks -----

  /** Some pending login with an id from `from` on is not stuck. */
  ghost predicate AnyMoving(cfg: Config, s: State, from: nat)
    requires OrdersInRange(s)
  {
    exists k :: k in s.authing && from <= k && !Stuck(cfg, s.authing[k])
  }

  lemma PotentialOrder(cfg: Config, s: State, t: State, how: Reckoning)
    requires OrdersInRange(s) && OrdersInRange(t)
    requires var w, w' := TotalWork(s.authing, TABLE_MAX, how), TotalWork(t.authing, TABLE_MAX, how);
      var a, a' := Distance(cfg, s.timers.acct), Distance(cfg, t.timers.acct);
      w' < w || (w' == w && (a' < a || (a' == a && Distance(cfg, t.timers.auth) < Distance(cfg, s.timers.auth))))
    ensures Potential(cfg, t, how) < Potential(cfg, s, how)
  {
    RankOrder(Base(cfg),
      TotalWork(s.authing, TABLE_MAX, how), Distance(cfg, s.timers.acct), Distance(cfg, s.timers.auth),
      TotalWork(t.authing, TABLE_MAX, how), Distance(cfg, t.timers.acct), Distance(cfg, t.timers.auth));
  }

  lemma RemovalAdvances(cfg: Config, s: State, t: State, id: nat, how: Reckoning)
    requires OrdersInRange(s) && 1 <= id <= TABLE_MAX && id in s.authing && t.authing == Remove(s.authing, id)
    ensures OrdersInRange(t) && Potential(cfg, t, how) < Potential(cfg, s, how)
  {
    TotalWithout(s.authing, id, TABLE_MAX, how);
    PotentialOrder(cfg, s, t, how);
  }

  /** An answer can keep a login going for ever: some login can get to TACACS+ and be taken back there. */
  predicate Reverts(cfg: Config) {
    cfg.loginMax > 0 && Revertible(cfg) && exists j | 1 <= j <= 4 :: RevertsAt(cfg, j)
  }

  predicate RevertsAt(cfg: Config, j: int)
    requires 1 <= j <= 4
  {
    PassableUpTo(cfg, j) && GetAuthOrder(cfg, j) == Tacacs
  }

  /** The tables are such that every tick pays, on that reckoning. */
  ghost predicate Payable(cfg: Config, s: State, how: Reckoning) {
    TableInv(cfg, s) && (how == LoginsAlone ==> AllInOrder(cfg, s) && !Reverts(cfg))
  }

  lemma PendingIsReckoned(cfg: Config, p: Authing)
    requires LoginInv(cfg, p) && !Reverts(cfg)
    ensures Reckoned(cfg, p, LoginsAlone)
  {
    if Selected(cfg, p) == Tacacs { assert p.user != SUPER_USER && RevertsAt(cfg, p.order); }
  }

  lemma DroppingVisitAdvances(cfg: Config, s: State, id: nat, ack: bool, how: Reckoning)
    requires OrdersInRange(s) && 1 <= id <= TABLE_MAX && id in s.authing
    requires id !in VisitLogin(cfg, s, id, ack).state.authing
    ensures OrdersInRange(VisitLogin(cfg, s, id, ack).state)
    ensures Potential(cfg, VisitLogin(cfg, s, id, ack).state, how) < Potential(cfg, s, how)
  {
    assert VisitLogin(cfg, s, id, ack).state.authing == Remove(s.authing, id);
    RemovalAdvances(cfg, s, VisitLogin(cfg, s, id, ack).state, id, how);
  }

  lemma StuckVisitIdles(cfg: Config, s: State, id: nat, ack: bool)
    requires OrdersInRange(s) && id in s.authing && EntryInv(s.authing[id]) && Stuck(cfg, s.authing[id])
    requires id in VisitLogin(cfg, s, id, ack).state.authing
    ensures VisitLogin(cfg, s, id, ack) == Visit(s, false)
  {
    TickIdleExactlyWhenStuck(cfg, s.authing[id], s.timers);
    assert s.authing[id := s.authing[id]] == s.authing;
  }

  /** A visit lowers the potential of the whole table, unless it is to a stuck login: to that it does
      nothing, save for dropping it as a repeated one. */
  lemma VisitAdvances(cfg: Config, s: State, id: nat, ack: bool, how: Reckoning)
    requires Payable(cfg, s, how)
    ensures var v := VisitLogin(cfg, s, id, ack);
      && OrdersInRange(v.state)
      && (v == Visit(s, false) || Potential(cfg, v.state, how) < Potential(cfg, s, how))
      && (v == Visit(s, false) && id in s.authing ==> Stuck(cfg, s.authing[id]))
  {
    if id in s.authing {
      if id !in VisitLogin(cfg, s, id, ack).state.authing {
        DroppingVisitAdvances(cfg, s, id, ack, how);
      } else if Stuck(cfg, s.authing[id]) {
        StuckVisitIdles(cfg, s, id, ack);
      } else {
        KeptVisitAdvances(cfg, s, id, ack, how);
      }
    }
  }

  lemma KeptVisitAdvances(cfg: Config, s: State, id: nat, ack: bool, how: Reckoning)
    requires Payable(cfg, s, how) && id in s.authing && !Stuck(cfg, s.authing[id])
    requires id in VisitLogin(cfg, s, id, ack).state.authing
    ensures OrdersInRange(VisitLogin(cfg, s, id, ack).state)
    ensures Potential(cfg, VisitLogin(cfg, s, id, ack).state, how) < Potential(cfg, s, how)
  {
    var p := s.authing[id];
    if how == LoginsAlone { PendingIsReckoned(cfg, p); }
    CheckProgress(cfg, p, s.timers, how);
    KeptVisitProgresses(cfg, s, id, ack, how);
  }

  lemma KeptVisitProgresses(cfg: Config, s: State, id: nat, ack: bool, how: Reckoning)
    requires OrdersInRange(s) && 1 <= id <= TABLE_MAX && id in s.authing
    requires var (q, u) := Check(cfg, s.authing[id], s.timers);
      Progressed(cfg, s.authing[id], s.timers, q, u, how)
    requires id in VisitLogin(cfg, s, id, ack).state.authing
    ensures OrdersInRange(VisitLogin(cfg, s, id, ack).state)
    ensures Potential(cfg, VisitLogin(cfg, s, id, ack).state, how) < Potential(cfg, s, how)
  {
    VisitKeepsOrders(cfg, s, id, ack);
    var t := VisitLogin(cfg, s, id, ack).state;
    var (q, u) := Check(cfg, s.authing[id], s.timers);
    assert t.authing == s.authing[id := q] && t.timers == u && !q.finished;
    TotalWithout(s.authing, id, TABLE_MAX, how);
    TotalWith(s.authing, id, q, TABLE_MAX, how);
    PotentialOrder(cfg, s, t, how);
  }

  lemma VisitKeepsPayable(cfg: Config, s: State, id: nat, ack: bool, how: Reckoning)
    requires Payable(cfg, s, how)
    ensures Payable(cfg, VisitLogin(cfg, s, id, ack).state, how)
  {
    VisitKeeps(cfg, s, id, ack);
    if how == LoginsAlone { VisitKeepsInOrder(cfg, s, id, ack); }
  }

  lemma AbsentIsNotMoving(cfg: Config, s: State, id: nat)
    requires OrdersInRange(s) && (id in s.authing ==> Stuck(cfg, s.authing[id]))
    ensures AnyMoving(cfg, s, id) ==> AnyMoving(cfg, s, id + 1)
  {
    if AnyMoving(cfg, s, id) {
      var k :| k in s.authing && id <= k && !Stuck(cfg, s.authing[k]);
      assert k in s.authing && id + 1 <= k;
    }
  }

  /** The scan from `id` on lowers the potential if a login from there on moves, and never raises it. */
  ghost predicate ScanPays(cfg: Config, s: State, acks: set<nat>, id: nat, how: Reckoning)
    requires OrdersInRange(s)
  {
    var t := Scan(cfg, s, acks, id);
    && OrdersInRange(t)
    && Potential(cfg, t, how) + (if AnyMoving(cfg, s, id) then 1 else 0) <= Potential(cfg, s, how)
  }

  lemma IdleVisitPays(cfg: Config, s: State, acks: set<nat>, id: nat, how: Reckoning)
    requires OrdersInRange(s) && id <= TABLE_MAX && VisitLogin(cfg, s, id, id in acks) == Visit(s, false)
    requires (id in s.authing ==> Stuck(cfg, s.authing[id])) && ScanPays(cfg, s, acks, id + 1, how)
    ensures ScanPays(cfg, s, acks, id, how)
  {
    AbsentIsNotMoving(cfg, s, id);
    ScanNext(cfg, s, acks, id);
    assert Scan(cfg, s, acks, id) == Scan(cfg, s, acks, id + 1);
  }

  lemma MovingVisitPays(cfg: Config, s: State, acks: set<nat>, id: nat, v: Visit, how: Reckoning)
    requires OrdersInRange(s) && id <= TABLE_MAX && VisitLogin(cfg, s, id, id in acks) == v
    requires OrdersInRange(v.state) && Potential(cfg, v.state, how) < Potential(cfg, s, how)
    requires !v.stop ==> ScanPays(cfg, v.state, acks, id + 1, how)
    ensures ScanPays(cfg, s, acks, id, how)
  {
    ScanNext(cfg, s, acks, id);
    assert Scan(cfg, s, acks, id) == if v.stop then v.state else Scan(cfg, v.state, acks, id + 1);
  }

  /** One turn of the scan, and what is left to show of the rest. */
  lemma ScanTurnPays(cfg: Config, s: State, acks: set<nat>, id: nat, how: Reckoning) returns (v: Visit)
    requires Payable(cfg, s, how) && id <= TABLE_MAX
    ensures Payable(cfg, v.state, how)
    ensures v.stop ==> ScanPays(cfg, s, acks, id, how)
    ensures !v.stop && ScanPays(cfg, v.state, acks, id + 1, how) ==> ScanPays(cfg, s, acks, id, how)
  {
    v := VisitLogin(cfg, s, id, id in acks);
    VisitAdvances(cfg, s, id, id in acks, how);
    VisitKeepsPayable(cfg, s, id, id in acks, how);
    if v.stop || ScanPays(cfg, v.state, acks, id + 1, how) {
      if v == Visit(s, false) {
        IdleVisitPays(cfg, s, acks, id, how);
      } else {
        MovingVisitPays(cfg, s, acks, id, v, how);
      }
    }
  }

  lemma {:induction false} ScanAdvances(cfg: Config, s: State, acks: set<nat>, id: nat, how: Reckoning)
    requires Payable(cfg, s, how) && 1 <= id
    ensures ScanPays(cfg, s, acks, id, how)
    decreases TABLE_MAX + 1 - id
  {
    if id <= TABLE_MAX {
      var v := ScanTurnPays(cfg, s, acks, id, how);
      if !v.stop { ScanAdvances(cfg, v.state, acks, id + 1, how); }
    } else {
      NoneAbove(cfg, s, id);
      ScanOver(cfg, s, acks, id);
    }
  }

  lemma NoneAbove(cfg: Config, s: State, id: nat)
    requires TableInv(cfg, s) && id > TABLE_MAX
    ensures !AnyMoving(cfg, s, id)
  {
  }

  // ----- runs -----

  function LoginWork(cfg: Config, how: Reckoning): nat { Work(NewAuthing(cfg, "", "", 0), how) }

  /** What one event may add to the work: a login its own, an answer at most a phase change and a restarted
      accounting timeout, where answers are reckoned; nothing else adds anything. */
  function Added(cfg: Config, s: State, e: Event, how: Reckoning): nat {
    match e
    case LoginRequest(user, password) => if Login(cfg, s, user, password) == s then 0 else LoginWork(cfg, how)
    case ServerReply(_, _) => if how == WithAnswers then TAC_RSP_TIMEOUT + 1 else 0
    case _ => 0
  }

  /** A tick at which some pending login is waiting for something that ticks bring nearer. */
  ghost predicate BusyTick(cfg: Config, s: State, e: Event)
    requires OrdersInRange(s)
  {
    e.AuthTick? && AnyMoving(cfg, s, 1)
  }

  lemma PotentialGrowth(cfg: Config, s: State, t: State, more: nat, how: Reckoning)
    requires OrdersInRange(s) && OrdersInRange(t) && t.timers == s.timers
    requires TotalWork(t.authing, TABLE_MAX, how) <= TotalWork(s.authing, TABLE_MAX, how) + more
    ensures Potential(cfg, t, how) <= Potential(cfg, s, how) + Cost(cfg, more)
  {
    var b, w, w' := Base(cfg), TotalWork(s.authing, TABLE_MAX, how), TotalWork(t.authing, TABLE_MAX, how);
    var a, c := Distance(cfg, s.timers.acct), Distance(cfg, s.timers.auth);
    RankAdds(b, w, more, a, c);
    if w' < w + more { RankOrder(b, w + more, a, c, w', a, c); }
  }

  /** What the event does to the potential is paid for, busy tick included. */
  ghost predicate Pays(cfg: Config, s: State, e: Event, how: Reckoning)
    requires OrdersInRange(s)
  {
    var t := Step(cfg, s, e);
    && OrdersInRange(t)
    && Potential(cfg, t, how) + (if BusyTick(cfg, s, e) then 1 else 0)
       <= Potential(cfg, s, how) + Cost(cfg, Added(cfg, s, e, how))
  }

  /** An event that leaves the counters alone pays by the work that it adds. */
  lemma WorkPays(cfg: Config, s: State, e: Event, t: State, how: Reckoning)
    requires OrdersInRange(s) && OrdersInRange(t) && t == Step(cfg, s, e) && t.timers == s.timers && !e.AuthTick?
    requires TotalWork(t.authing, TABLE_MAX, how) <= TotalWork(s.authing, TABLE_MAX, how) + Added(cfg, s, e, how)
    ensures Pays(cfg, s, e, how)
  {
    PotentialGrowth(cfg, s, t, Added(cfg, s, e, how), how);
  }

  lemma EntryAdds(authing: map<nat, Authing>, id: nat, p: Authing, n: nat, more: nat, how: Reckoning)
    requires Listed(authing) && 1 <= p.order <= 4
    requires Work(p, how) <= (if id in authing then Work(authing[id], how) else 0) + more
    ensures TotalWork(authing[id := p], n, how) <= TotalWork(authing, n, how) + more
  {
    TotalWithout(authing, id, n, how);
    TotalWith(authing, id, p, n, how);
  }

  lemma LoginPays(cfg: Config, s: State, user: string, password: string, how: Reckoning)
    requires OrdersInRange(s)
    ensures Pays(cfg, s, LoginRequest(user, password), how)
  {
    var t := Login(cfg, s, user, password);
    if t != s {
      var id :| id !in s.authing && t.authing == s.authing[id := NewAuthing(cfg, user, password, s.logins)];
      EntryAdds(s.authing, id, NewAuthing(cfg, user, password, s.logins), TABLE_MAX, LoginWork(cfg, how), how);
    }
    WorkPays(cfg, s, LoginRequest(user, password), t, how);
  }

  lemma ReplyPays(cfg: Config, s: State, login: nat, r: Reply, how: Reckoning)
    requires OrdersInRange(s)
    ensures Pays(cfg, s, ServerReply(login, r), how)
  {
    var t := Step(cfg, s, ServerReply(login, r));
    if login in s.authing {
      var added := Added(cfg, s, ServerReply(login, r), how);
      EntryAdds(s.authing, login, ApplyReply(s.authing[login], r), TABLE_MAX, added, how);
    }
    WorkPays(cfg, s, ServerReply(login, r), t, how);
  }

  lemma ResetPays(cfg: Config, s: State, how: Reckoning)
    requires OrdersInRange(s)
    ensures Pays(cfg, s, TerminalReset, how)
  {
    TotalNone(TABLE_MAX, how);
    WorkPays(cfg, s, TerminalReset, Step(cfg, s, TerminalReset), how);
  }

  lemma OnlineEventPays(cfg: Config, s: State, e: Event, how: Reckoning)
    requires OrdersInRange(s) && (e.LoginExit? || e.EchoRequest? || e.AcctReply? || e.OnlineTick?)
    ensures Pays(cfg, s, e, how)
  {
    if e.OnlineTick? { OnlineScanKeepsAuthing(cfg, s, 0); }
    WorkPays(cfg, s, e, Step(cfg, s, e), how);
  }

  lemma TickPays(cfg: Config, s: State, acks: set<nat>, how: Reckoning)
    requires Payable(cfg, s, how)
    ensures Pays(cfg, s, AuthTick(acks), how)
  {
    ScanAdvances(cfg, s, acks, 1, how);
  }

  /** Every event pays: it adds no more than its own, and a busy tick takes something off. */
  lemma StepPays(cfg: Config, s: State, e: Event, how: Reckoning)
    requires Payable(cfg, s, how)
    ensures Pays(cfg, s, e, how)
  {
    match e
    case LoginRequest(user, password) => LoginPays(cfg, s, user, password, how);
    case TerminalReset => ResetPays(cfg, s, how);
    case ServerReply(login, reply) => ReplyPays(cfg, s, login, reply, how);
    case AuthTick(acks) => TickPays(cfg, s, acks, how);
    case _ => OnlineEventPays(cfg, s, e, how);
  }

  ghost function BusyTicks(cfg: Config, events: seq<Event>): nat {
    if events == [] then 0
    else
      var n := |events| - 1;
      BusyTicks(cfg, events[..n]) + if BusyTick(cfg, Run(cfg, events[..n]), events[n]) then 1 else 0
  }

  function Answers(events: seq<Event>): nat {
    if events == [] then 0
    else Answers(events[..|events| - 1]) + if events[|events| - 1].ServerReply? then 1 else 0
  }

  /** The work that so many logins and answers bring in, with a unit for where the counters start. */
  function Income(cfg: Config, logins: nat, answers: nat, how: Reckoning): nat {
    1 + logins * LoginWork(cfg, how) + (if how == WithAnswers then (TAC_RSP_TIMEOUT + 1) * answers else 0)
  }

  ghost predicate PaidFor(cfg: Config, events: seq<Event>, how: Reckoning) {
    BusyTicks(cfg, events) + Potential(cfg, Run(cfg, events), how)
      <= Cost(cfg, Income(cfg, Run(cfg, events).logins, Answers(events), how))
  }

  lemma IncomeGrows(cfg: Config, s: State, e: Event, answers: nat, how: Reckoning)
    requires OrdersInRange(s)
    ensures Step(cfg, s, e).logins >= s.logins
    ensures Income(cfg, Step(cfg, s, e).logins, answers + (if e.ServerReply? then 1 else 0), how)
         == Income(cfg, s.logins, answers, how) + Added(cfg, s, e, how)
  {
    match e
    case AuthTick(acks) => ScanKeepsLogins(cfg, s, acks, 1);
    case OnlineTick => OnlineScanKeepsAuthing(cfg, s, 0);
    case LoginRequest(user, password) =>
      var w := LoginWork(cfg, how);
      assert (s.logins + 1) * w == s.logins * w + w;
    case _ =>
  }

  lemma {:induction false} ScanKeepsLogins(cfg: Config, s: State, acks: set<nat>, id: nat)
    requires OrdersInRange(s)
    ensures Scan(cfg, s, acks, id).logins == s.logins
    decreases TABLE_MAX + 1 - id
  {
    if id <= TABLE_MAX {
      ScanNext(cfg, s, acks, id);
      var v := VisitLogin(cfg, s, id, id in acks);
      if !v.stop { ScanKeepsLogins(cfg, v.state, acks, id + 1); }
    }
  }

  lemma NothingPaidYet(cfg: Config, how: Reckoning)
    ensures PaidFor(cfg, [], how)
  {
    TotalNone(TABLE_MAX, how);
    RankOrder(Base(cfg), 1, 0, 0, 0, Distance(cfg, 0), Distance(cfg, 0));
  }

  lemma StepStaysPaid(cfg: Config, events: seq<Event>, how: Reckoning)
    requires events != [] && PaidFor(cfg, events[..|events| - 1], how)
    requires Payable(cfg, Run(cfg, events[..|events| - 1]), how)
    ensures PaidFor(cfg, events, how)
  {
    var n := |events| - 1;
    StepPays(cfg, Run(cfg, events[..n]), events[n], how);
    PaysOnwards(cfg, events, n, how);
  }

  lemma PaysOnwards(cfg: Config, events: seq<Event>, n: nat, how: Reckoning)
    requires |events| == n + 1 && PaidFor(cfg, events[..n], how) && Pays(cfg, Run(cfg, events[..n]), events[n], how)
    ensures PaidFor(cfg, events, how)
  {
    var s, e := Run(cfg, events[..n]), events[n];
    IncomeGrows(cfg, s, e, Answers(events[..n]), how);
    RankAdds(Base(cfg), Income(cfg, s.logins, Answers(events[..n]), how), Added(cfg, s, e, how), 0, 0);
  }

  /** Over any run, with any mix of logins, answers to anything, exits and timers, the ticks spent with a
      login pending that is not stuck are bounded by what the logins and answers brought in. */
  lemma {:induction false} BusyTicksBounded(cfg: Config, events: seq<Event>)
    ensures PaidFor(cfg, events, WithAnswers)
  {
    if events == [] {
      NothingPaidYet(cfg, WithAnswers);
    } else {
      BusyTicksBounded(cfg, events[..|events| - 1]);
      RunKeeps(cfg, events[..|events| - 1]);
      StepStaysPaid(cfg, events, WithAnswers);
    }
  }

  /** Where no answer can take a login back, answers to requests that were sent need not be counted: the
      logins alone bound those ticks. */
  lemma {:induction false} LoginsBoundBusyTicks(cfg: Config, events: seq<Event>)
    requires HonestAnswers(cfg, events) && !Reverts(cfg)
    ensures PaidFor(cfg, events, LoginsAlone)
  {
    if events == [] {
      NothingPaidYet(cfg, LoginsAlone);
    } else {
      var before := events[..|events| - 1];
      HonestEarlier(cfg, events, |events| - 1);
      LoginsBoundBusyTicks(cfg, before);
      RunKeeps(cfg, before);
      RunInOrder(cfg, before);
      StepStaysPaid(cfg, events, LoginsAlone);
    }
  }
}
