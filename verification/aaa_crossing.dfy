/** On a list that crosses methods a late answer of the first lets a login in at the second: the run that
    shows it, and so exactly which configurations let in only whom their own method accepted. */
module AaaCrossing {
  import opened AaaTypes
  import opened AaaSession
  import opened AaaSoundness
  import opened AaaTable
  import opened AaaRuns
  import opened AaaAdmission
  import opened AaaSolo

  // ----- let in at TACACS+ on RADIUS's word -----

  /** Where authorization is over, accounting is answered or not asked for, and the login is in. */
  lemma TacacsAccounts(cfg: Config, events: seq<Event>, p: Authing, t: Timers, x: Reply) returns (more: seq<Event>)
    requires Reached(cfg, events, p, t, Without(x)) && x == TacAuthenPass
    requires Selected(cfg, p) == Tacacs && TacacsAdmits(cfg)
    requires p.result == AuthorSuccess || (p.result == AuthenSuccess && !cfg.tacAuthor)
    requires t.acctCnt == 0 && p.acctLeft > 0
    ensures InWithout(cfg, more, Tacacs, x)
  {
    if cfg.tacAcct {
      var (q, u) := Check(cfg, p, t);
      TickTo(cfg, events, p, t, Without(x));
      more := events + [AuthTick({1})];
      AnswerTo(cfg, more, q, u, Without(x), TacAcctOk);
      more := more + [ServerReply(1, TacAcctOk)];
      LetIn(cfg, more, ApplyReply(q, TacAcctOk), u, x);
    } else {
      more := events;
      LetIn(cfg, events, p, t, x);
    }
    more := more + [AuthTick({1})];
  }

  lemma TacacsLetsIn(cfg: Config, events: seq<Event>, p: Authing, t: Timers, x: Reply) returns (more: seq<Event>)
    requires Reached(cfg, events, p, t, Without(x)) && Underway(cfg, p, t) && Fresh(p, t) && Selected(cfg, p) == Tacacs
    requires TacacsAdmits(cfg) && RadAuth in p.history.asked && x == TacAuthenPass
    ensures InWithout(cfg, more, Tacacs, x)
  {
    AnswerTo(cfg, events, p, t, Without(x), RadAccept);
    more := events + [ServerReply(1, RadAccept)];
    var accepted := ApplyReply(p, RadAccept);
    if cfg.tacAuthor {
      var (q, u) := Check(cfg, accepted, t);
      TickTo(cfg, more, accepted, t, Without(x));
      more := more + [AuthTick({1})];
      AnswerTo(cfg, more, q, u, Without(x), TacAuthorPass);
      more := more + [ServerReply(1, TacAuthorPass)];
      more := TacacsAccounts(cfg, more, ApplyReply(q, TacAuthorPass), u, x);
    } else {
      more := TacacsAccounts(cfg, more, accepted, t, x);
    }
  }

  // ----- let in at RADIUS on TACACS+'s word -----

  /** The accounting request goes out when the shared counter says so, is answered, and the login is in. */
  lemma RadiusAccounts(cfg: Config, events: seq<Event>, p: Authing, t: Timers, x: Reply) returns (more: seq<Event>)
    requires Reached(cfg, events, p, t, Without(x)) && Selected(cfg, p) == Radius && x == RadAccept
    requires p.result == AuthenSuccess && cfg.radiusAcct && p.acctRetry > 0
    ensures InWithout(cfg, more, Radius, x)
    decreases Distance(cfg, t.acct)
  {
    var (q, u) := Check(cfg, p, t);
    TickTo(cfg, events, p, t, Without(x));
    more := events + [AuthTick({1})];
    if t.acct + 1 >= ResendTicks(cfg) {
      AnswerTo(cfg, more, q, u, Without(x), RadAcctResponse);
      more := more + [ServerReply(1, RadAcctResponse)];
      LetIn(cfg, more, ApplyReply(q, RadAcctResponse), u, x);
      more := more + [AuthTick({1})];
    } else {
      more := RadiusAccounts(cfg, more, q, u, x);
    }
  }

  lemma RadiusLetsIn(cfg: Config, events: seq<Event>, p: Authing, t: Timers, x: Reply) returns (more: seq<Event>)
    requires Reached(cfg, events, p, t, Without(x)) && Underway(cfg, p, t) && Fresh(p, t) && Selected(cfg, p) == Radius
    requires RadiusAdmits(cfg) && TacAuthen in p.history.asked && x == RadAccept
    ensures InWithout(cfg, more, Radius, x)
  {
    AnswerTo(cfg, events, p, t, Without(x), TacAuthenPass);
    more := events + [ServerReply(1, TacAuthenPass)];
    var accepted := ApplyReply(p, TacAuthenPass);
    if cfg.radiusAcct && accepted.acctRetry > 0 {
      more := RadiusAccounts(cfg, more, accepted, t, x);
    } else {
      LetIn(cfg, more, accepted, t, x);
      more := more + [AuthTick({1})];
    }
  }

  // ----- the claim -----

  /** With every answer to a request sent, someone is online under a method that never accepted anyone. */
  lemma CrossedRun(cfg: Config) returns (events: seq<Event>, m: Method, x: Reply)
    requires Crosses(cfg)
    ensures InWithout(cfg, events, m, x)
    ensures (m == Tacacs && x == TacAuthenPass) || (m == Radius && x == RadAccept)
  {
    var i, j :| 1 <= i < j <= 4 && CrossesAt(cfg, i, j);
    m := GetAuthOrder(cfg, j);
    x := if m == Tacacs then TacAuthenPass else RadAccept;
    var user := UnknownUser(cfg);
    var q, u;
    events, q, u := WalkFromStart(cfg, user, j, Without(x));
    assert HasAsked(cfg, q.history.asked, i);
    if m == Tacacs {
      events := TacacsLetsIn(cfg, events, q, u, x);
    } else {
      events := RadiusLetsIn(cfg, events, q, u, x);
    }
  }

  lemma UnheardIsNotAccepted(cfg: Config, events: seq<Event>, m: Method, x: Reply)
    requires InWithout(cfg, events, m, x)
    requires (m == Tacacs && x == TacAuthenPass) || (m == Radius && x == RadAccept)
    ensures !Accepted(cfg, events, Run(cfg, events).online[0])
  {
  }

  ghost predicate AlwaysAccepted(cfg: Config) {
    forall events, k: nat :: HonestAnswers(cfg, events) && k < |Run(cfg, events).online| ==>
      Accepted(cfg, events, Run(cfg, events).online[k])
  }

  /** In every run in which servers answer only what they were asked, each session's own login was accepted
      by the session's method, exactly when no login can carry an acceptance from one server method of the
      list to a later one of the other kind. */
  lemma AdmissionExactly(cfg: Config)
    ensures AlwaysAccepted(cfg) <==> !Crosses(cfg)
  {
    if Crosses(cfg) {
      var events, m, x := CrossedRun(cfg);
      UnheardIsNotAccepted(cfg, events, m, x);
      assert HonestAnswers(cfg, events) && 0 < |Run(cfg, events).online|;
    } else {
      forall events, k: nat | HonestAnswers(cfg, events) && k < |Run(cfg, events).online|
        ensures Accepted(cfg, events, Run(cfg, events).online[k])
      {
        OnlineWasAccepted(cfg, events, k);
      }
    }
  }

  /** Configuring both servers, in either order, is always such a list, because setting it switches on the
      services that letting a login in needs. */
  lemma BothServersCross(cfg: Config, m3: Method, m4: Method)
    requires m3 != Unknown && m4 != Unknown && cfg.loginMax > 0 && Attempts(cfg) > 0
    ensures Crosses(SetAuthOrder(cfg, Radius, Tacacs, m3, m4))
    ensures Crosses(SetAuthOrder(cfg, Tacacs, Radius, m3, m4))
  {
    SetAuthOrderReadsBack(cfg, Radius, Tacacs, m3, m4);
    SetAuthOrderReadsBack(cfg, Tacacs, Radius, m3, m4);
    assert CrossesAt(SetAuthOrder(cfg, Radius, Tacacs, m3, m4), 1, 2);
    assert CrossesAt(SetAuthOrder(cfg, Tacacs, Radius, m3, m4), 1, 2);
  }
}
