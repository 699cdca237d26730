/** When pending logins are sure to be settled: exactly on which configurations the logins alone bound the
    ticks of a run, however often servers answer what they were asked. */
module AaaTermination {
  import opened AaaTypes
  import opened AaaSession
  import opened AaaTable
  import opened AaaRuns
  import opened AaaAdmission
  import opened AaaSolo
  import opened AaaSettling

  // ----- a login taken back again and again -----

  predicate AtTacacs(cfg: Config, p: Authing) {
    EntryInv(p) && p.user != SUPER_USER && Selected(cfg, p) == Tacacs
  }

  /** Authorization has timed out and that is waived; the acceptance repeated takes the login back. */
  predicate CaughtAuthorizing(cfg: Config, p: Authing) {
    && AtTacacs(cfg, p) && cfg.tacAuthor && cfg.onlineAuthorFailed
    && p.result == AuthorNoServer && p.authorLeft == 0
    && TacAuthen in p.history.asked
  }

  /** Accounting has been asked for; its answer restarts the timeout, and the answer that comes before it,
      repeated, takes the login back to wait for accounting again. */
  predicate CaughtAccounting(cfg: Config, p: Authing) {
    && AtTacacs(cfg, p) && cfg.tacAcct && TacAcct in p.history.asked
    && (if cfg.tacAuthor then TacAuthor in p.history.asked else cfg.onlineAuthorFailed && TacAuthen in p.history.asked)
  }

  predicate Caught(cfg: Config, p: Authing) {
    CaughtAuthorizing(cfg, p) || CaughtAccounting(cfg, p)
  }

  lemma OneMoreBusy(cfg: Config, events: seq<Event>, p: Authing, t: Timers)
    requires Run(cfg, events) == Alone(p, t) && EntryInv(p) && !Stuck(cfg, p)
    ensures BusyTicks(cfg, events + [AuthTick({1})]) == BusyTicks(cfg, events) + 1
  {
    var more := events + [AuthTick({1})];
    assert more[..|events|] == events;
    assert 1 in Run(cfg, events).authing && !Stuck(cfg, Run(cfg, events).authing[1]);
  }

  lemma AnswerIsNotBusy(cfg: Config, events: seq<Event>, r: Reply)
    ensures BusyTicks(cfg, events + [ServerReply(1, r)]) == BusyTicks(cfg, events)
  {
    assert (events + [ServerReply(1, r)])[..|events|] == events;
  }

  lemma TickAt(cfg: Config, events: seq<Event>, p: Authing, t: Timers) returns (more: seq<Event>, q: Authing, u: Timers)
    requires Reached(cfg, events, p, t, NoneLate) && AtTacacs(cfg, p)
    requires VerdictOf(cfg, Check(cfg, p, t).0) == Pending
    ensures (q, u) == Check(cfg, p, t) && Reached(cfg, more, q, u, NoneLate)
    ensures BusyTicks(cfg, more) == BusyTicks(cfg, events) + 1
  {
    more := events + [AuthTick({1})];
    q, u := Check(cfg, p, t).0, Check(cfg, p, t).1;
    TickTo(cfg, events, p, t, NoneLate);
    OneMoreBusy(cfg, events, p, t);
  }

  lemma AnswerAt(cfg: Config, events: seq<Event>, p: Authing, t: Timers, r: Reply) returns (more: seq<Event>)
    requires Reached(cfg, events, p, t, NoneLate) && AtTacacs(cfg, p) && Asked(p, r) && ServerOf(RequestOf(r)) == Tacacs
    ensures Reached(cfg, more, ApplyReply(p, r), t, NoneLate) && BusyTicks(cfg, more) == BusyTicks(cfg, events)
  {
    more := events + [ServerReply(1, r)];
    AnswerTo(cfg, events, p, t, NoneLate, r);
    AnswerIsNotBusy(cfg, events, r);
  }

  /** A tick of waiting for authorization, and in the end its timeout. */
  lemma AuthorizationTick(cfg: Config, p: Authing, t: Timers)
    requires AtTacacs(cfg, p) && cfg.tacAuthor && cfg.onlineAuthorFailed && p.result == AuthenSuccess
    ensures var q := Check(cfg, p, t).0;
      && AtTacacs(cfg, q) && p.history.asked <= q.history.asked
      && (if p.authorLeft == 0 then q.result == AuthorNoServer && q.authorLeft == 0
          else q.result == AuthenSuccess && q.authorLeft == p.authorLeft - 1)
  {
    assert TacacsStep(cfg, p, t) == TacacsAuthorizing(cfg, p, t);
  }

  /** A tick of waiting for accounting that has time left. */
  lemma AccountingTick(cfg: Config, p: Authing, t: Timers)
    requires AtTacacs(cfg, p) && cfg.tacAcct && p.acctLeft > 0
    requires p.result == AuthorSuccess || (p.result == AuthenSuccess && !cfg.tacAuthor && cfg.onlineAuthorFailed)
    ensures var q := Check(cfg, p, t).0;
      && AtTacacs(cfg, q) && p.history.asked <= q.history.asked
      && (t.acctCnt == 0 ==> TacAcct in q.history.asked)
  {
    assert TacacsStep(cfg, p, t) == TacacsAccounting(p, t);
  }

  lemma AuthorizingAgain(cfg: Config, events: seq<Event>, p: Authing, t: Timers)
    returns (more: seq<Event>, q: Authing, u: Timers)
    requires Reached(cfg, events, p, t, NoneLate) && CaughtAuthorizing(cfg, p)
    ensures Reached(cfg, more, q, u, NoneLate) && CaughtAuthorizing(cfg, q)
    ensures BusyTicks(cfg, more) == BusyTicks(cfg, events) + 1
  {
    var accepted := ApplyReply(p, TacAuthenPass);
    more := AnswerAt(cfg, events, p, t, TacAuthenPass);
    AuthorizationTick(cfg, accepted, t);
    more, q, u := TickAt(cfg, more, accepted, t);
  }

  lemma AccountingAgain(cfg: Config, events: seq<Event>, p: Authing, t: Timers)
    returns (more: seq<Event>, q: Authing, u: Timers)
    requires Reached(cfg, events, p, t, NoneLate) && CaughtAccounting(cfg, p)
    ensures Reached(cfg, more, q, u, NoneLate) && CaughtAccounting(cfg, q)
    ensures BusyTicks(cfg, more) == BusyTicks(cfg, events) + 1
  {
    var back := if cfg.tacAuthor then TacAuthorPass else TacAuthenPass;
    var accounted := ApplyReply(p, TacAcctOk);
    var before := ApplyReply(accounted, back);
    more := AnswerAt(cfg, events, p, t, TacAcctOk);
    more := AnswerAt(cfg, more, accounted, t, back);
    AccountingTick(cfg, before, t);
    more, q, u := TickAt(cfg, more, before, t);
  }

  /** The answers that took it back once take it back n times, a tick each. */
  lemma {:induction false} CaughtForLong(cfg: Config, events: seq<Event>, p: Authing, t: Timers, n: nat)
    returns (more: seq<Event>, q: Authing, u: Timers)
    requires Reached(cfg, events, p, t, NoneLate) && Caught(cfg, p)
    ensures Reached(cfg, more, q, u, NoneLate) && BusyTicks(cfg, more) == BusyTicks(cfg, events) + n
    decreases n
  {
    more, q, u := events, p, t;
    if n > 0 {
      if CaughtAuthorizing(cfg, p) {
        more, q, u := AuthorizingAgain(cfg, events, p, t);
      } else {
        more, q, u := AccountingAgain(cfg, events, p, t);
      }
      more, q, u := CaughtForLong(cfg, more, q, u, n - 1);
    }
  }

  // ----- getting there from the start -----

  lemma AuthorizationTimesOut(cfg: Config, events: seq<Event>, p: Authing, t: Timers)
    returns (more: seq<Event>, q: Authing, u: Timers)
    requires Reached(cfg, events, p, t, NoneLate) && AtTacacs(cfg, p) && cfg.tacAuthor && cfg.onlineAuthorFailed
    requires p.result == AuthenSuccess && TacAuthen in p.history.asked
    ensures Reached(cfg, more, q, u, NoneLate) && CaughtAuthorizing(cfg, q)
    decreases p.authorLeft
  {
    AuthorizationTick(cfg, p, t);
    more, q, u := TickAt(cfg, events, p, t);
    if p.authorLeft > 0 {
      more, q, u := AuthorizationTimesOut(cfg, more, q, u);
    }
  }

  /** Authorization asked for and given, where accounting is asked for too. */
  lemma Authorized(cfg: Config, events: seq<Event>, p: Authing, t: Timers)
    returns (more: seq<Event>, q: Authing, u: Timers)
    requires Reached(cfg, events, p, t, NoneLate) && AtTacacs(cfg, p) && cfg.tacAuthor && cfg.tacAcct
    requires p.result == AuthenSuccess && Fresh(p, t)
    ensures Reached(cfg, more, q, u, NoneLate) && AtTacacs(cfg, q) && TacAuthor in q.history.asked
    ensures q.result == AuthorSuccess && q.acctLeft > 0 && u.acctCnt == 0
  {
    assert TacacsStep(cfg, p, t) == TacacsAuthorizing(cfg, p, t);
    more, q, u := TickAt(cfg, events, p, t);
    more := AnswerAt(cfg, more, q, u, TacAuthorPass);
    q := ApplyReply(q, TacAuthorPass);
  }

  /** From an acceptance at TACACS+ a login gets caught, if answers can take it back at all. */
  lemma AcceptedGetsCaught(cfg: Config, events: seq<Event>, p: Authing, t: Timers)
    returns (more: seq<Event>, q: Authing, u: Timers)
    requires Reached(cfg, events, p, t, NoneLate) && AtTacacs(cfg, p) && Revertible(cfg)
    requires p.result == AuthenSuccess && TacAuthen in p.history.asked && Fresh(p, t)
    ensures Reached(cfg, more, q, u, NoneLate) && Caught(cfg, q)
  {
    if cfg.tacAuthor && cfg.onlineAuthorFailed {
      more, q, u := AuthorizationTimesOut(cfg, events, p, t);
    } else if cfg.tacAuthor {
      more, q, u := Authorized(cfg, events, p, t);
      AccountingTick(cfg, q, u);
      more, q, u := TickAt(cfg, more, q, u);
    } else {
      AccountingTick(cfg, p, t);
      more, q, u := TickAt(cfg, events, p, t);
    }
  }

  lemma GetsCaught(cfg: Config) returns (events: seq<Event>, q: Authing, u: Timers)
    requires Reverts(cfg)
    ensures Reached(cfg, events, q, u, NoneLate) && Caught(cfg, q)
  {
    var j :| 1 <= j <= 4 && RevertsAt(cfg, j);
    var user := UnknownUser(cfg);
    events, q, u := WalkFromStart(cfg, user, j, NoneLate);
    if TacAuthen !in q.history.asked {
      UnansweredTacacs(cfg, q, u);
      events, q, u := TickAt(cfg, events, q, u);
    }
    events := AnswerAt(cfg, events, q, u, TacAuthenPass);
    q := ApplyReply(q, TacAuthenPass);
    events, q, u := AcceptedGetsCaught(cfg, events, q, u);
  }

  /** For every n there is a run, from the start, in which every answer is to a request that was sent, and from
      the server of the method that the login is at, and the one login is still pending after n busy ticks. */
  lemma RepeatedAnswersLivelock(cfg: Config, n: nat) returns (events: seq<Event>)
    requires Reverts(cfg)
    ensures HonestAnswers(cfg, events) && CurrentAnswers(cfg, events) && BusyTicks(cfg, events) >= n
    ensures Run(cfg, events).authing.Keys == {1} && Run(cfg, events).logins == 1
  {
    var q, u;
    events, q, u := GetsCaught(cfg);
    events, q, u := CaughtForLong(cfg, events, q, u, n);
  }

  // ----- the claim -----

  /** The busy ticks of a run are bounded by its number of logins, if its answers are to requests sent. */
  ghost predicate BoundedBy(cfg: Config, bound: nat -> nat) {
    forall events :: HonestAnswers(cfg, events) ==> BusyTicks(cfg, events) <= bound(Run(cfg, events).logins)
  }

  /** Likewise, if moreover none of them comes late. */
  ghost predicate CurrentBoundedBy(cfg: Config, bound: nat -> nat) {
    forall events :: HonestAnswers(cfg, events) && CurrentAnswers(cfg, events) ==>
      BusyTicks(cfg, events) <= bound(Run(cfg, events).logins)
  }

  /** The logins of a run alone bound the ticks at which some login is pending and not stuck, whatever their
      servers answer to what they were asked, exactly when no login can get to TACACS+ under a policy by
      which an answer takes it back; and late answers make no difference to that. */
  lemma TerminationExactly(cfg: Config)
    ensures (exists bound: nat -> nat :: BoundedBy(cfg, bound)) <==> !Reverts(cfg)
    ensures (exists bound: nat -> nat :: CurrentBoundedBy(cfg, bound)) <==> !Reverts(cfg)
  {
    if Reverts(cfg) {
      forall bound: nat -> nat ensures !BoundedBy(cfg, bound) && !CurrentBoundedBy(cfg, bound) {
        var events := RepeatedAnswersLivelock(cfg, bound(1) + 1);
        assert HonestAnswers(cfg, events) && CurrentAnswers(cfg, events);
      }
    } else {
      var bound: nat -> nat := logins => Cost(cfg, Income(cfg, logins, 0, LoginsAlone));
      forall events | HonestAnswers(cfg, events) ensures BusyTicks(cfg, events) <= bound(Run(cfg, events).logins) {
        LoginsBoundBusyTicks(cfg, events);
      }
      assert BoundedBy(cfg, bound) && CurrentBoundedBy(cfg, bound);
    }
  }

  /** Configuring TACACS+ first, with no failure waived, always makes for such a policy, because setting the
      list switches authorization and accounting on. */
  lemma StrictTacacsReverts(cfg: Config, m2: Method, m3: Method, m4: Method)
    requires m2 != Unknown && m3 != Unknown && m4 != Unknown && cfg.loginMax > 0
    requires !cfg.onlineAuthorFailed && !cfg.onlineAcctFailed
    ensures Reverts(SetAuthOrder(cfg, Tacacs, m2, m3, m4))
  {
    SetAuthOrderReadsBack(cfg, Tacacs, m2, m3, m4);
    assert RevertsAt(SetAuthOrder(cfg, Tacacs, m2, m3, m4), 1);
  }
}
