/** One online session: keep-alive and accounting timers (aaa_online_user_status_check). */
module AaaOnline {
  import opened AaaTypes

  datatype ExitReason = EchoTimeout | AcctFail

  datatype Fate = Keep(session: Online) | Evict(reason: ExitReason)

  /** Decrement of an unsigned 32-bit counter. */
  function Down(x: nat): nat {
    if x == 0 then 0xffff_ffff else x - 1
  }

  function RadiusAccounting(cfg: Config, o: Online): Online {
    if !o.sendFlag then
      var left := Down(o.retryLeft);
      o.(sendFlag := o.retryLeft == 1, retryLeft := if left == 0 then cfg.radiusUpdate else left)
    else
      var left := Down(o.responseLeft);
      if left == 0 then o.(responseLeft := RADIUS_ACCT_TIMEOUT, failures := o.failures + 1)
      else o.(responseLeft := left)
  }

  function TacacsAccounting(cfg: Config, o: Online): Online {
    var sent := if o.tacUpdateLeft == 1 then o.(tacResponseLeft := TAC_ACCT_TIMEOUT, tacSendFlag := true) else o;
    var left := o.tacUpdateLeft - 1;
    var q := sent.(tacUpdateLeft := if left == 0 then cfg.tacUpdate else left);
    if q.tacSendFlag then
      q.(tacResponseLeft := q.tacResponseLeft - 1, tacFailed := q.tacFailed || q.tacResponseLeft == 1)
    else q
  }

  function Tick(cfg: Config, o: Online): Fate {
    if o.alive == 0 then Evict(EchoTimeout)
    else
      var q := o.(alive := o.alive - 1);
      match o.logMethod
      case Radius =>
        if !cfg.radiusAcct then Keep(q)
        else if q.failures >= RADIUS_ACCT_FAILURES && !cfg.onlineAcctFailed then Evict(AcctFail)
        else Keep(RadiusAccounting(cfg, q))
      case Tacacs =>
        if !cfg.tacAcct then Keep(q)
        else if q.tacFailed && !cfg.onlineAcctFailed then Evict(AcctFail)
        else Keep(TacacsAccounting(cfg, q))
      case _ => Keep(q)
  }

  /** A keep-alive message from the terminal. */
  function Echo(cfg: Config, o: Online): Online { o.(alive := cfg.aliveMax) }

  /** An accounting response for this session, from its own kind of server. */
  function AcctResponse(cfg: Config, o: Online): Online {
    if o.logMethod == Radius then o.(failures := 0, sendFlag := false)
    else o.(tacUpdateLeft := cfg.tacUpdate, tacSendFlag := false)
  }

  /** Ticks with, before each, a keep-alive message or none; it stops at an eviction. */
  function Ticks(cfg: Config, o: Online, echoes: seq<bool>): Fate
    decreases |echoes|
  {
    if echoes == [] then Keep(o)
    else
      match Tick(cfg, if echoes[0] then Echo(cfg, o) else o)
      case Evict(reason) => Evict(reason)
      case Keep(q) => Ticks(cfg, q, echoes[1..])
  }

  // ----- keep-alive -----

  /** Silence for alive_time_max ticks is tolerated, one more tick is not; and a session evicted for
      keep-alive has been silent for all of that. */
  lemma {:induction false} SilenceEvictsExactly(cfg: Config, o: Online, silent: seq<bool>)
    requires forall i :: 0 <= i < |silent| ==> !silent[i]
    ensures Ticks(cfg, o, silent).Keep? ==> |silent| <= o.alive
    ensures Ticks(cfg, o, silent) == Evict(EchoTimeout) ==> |silent| > o.alive
    ensures o.logMethod != Radius && o.logMethod != Tacacs ==>
      Ticks(cfg, o, silent)
        == if |silent| <= o.alive then Keep(o.(alive := o.alive - |silent|)) else Evict(EchoTimeout)
    decreases |silent|
  {
    if silent != [] {
      match Tick(cfg, o)
      case Evict(_) =>
      case Keep(q) =>
        SilenceEvictsExactly(cfg, q, silent[1..]);
    }
  }

  /** After a keep-alive message the whole tolerance is there again: counting the tick
      after it, the session lasts alive_time_max ticks, unless accounting ends it, and goes at the next. */
  lemma EchoRestoresTolerance(cfg: Config, o: Online, silent: seq<bool>)
    requires forall i :: 0 <= i < |silent| ==> !silent[i]
    ensures var after := Ticks(cfg, o, [true] + silent);
      && (|silent| < cfg.aliveMax ==> after != Evict(EchoTimeout))
      && (|silent| >= cfg.aliveMax ==> after.Evict?)
  {
    var p := o.(alive := cfg.aliveMax);
    assert ([true] + silent)[1..] == silent;
    match Tick(cfg, p)
    case Evict(_) =>
    case Keep(q) => SilenceEvictsExactly(cfg, q, silent);
  }

  // ----- timers in range -----

  /** What the commands and defaults can set: intervals of 1 to 60 minutes, and a first update interval
      that is the response timeout. */
  predicate Configurable(cfg: Config) {
    && 60 <= cfg.radiusUpdate <= 3600
    && 60 <= cfg.tacUpdate <= 3600
    && 1 <= cfg.rspTimeout <= 3600
  }

  /** No RADIUS timer is about to wrap, and a session not waiting for a response has no failures counted. */
  predicate RadiusTimersInv(o: Online) {
    && 1 <= o.retryLeft <= 3600
    && 1 <= o.responseLeft <= RADIUS_ACCT_TIMEOUT
    && (!o.sendFlag ==> o.failures == 0)
  }

  /** While a TACACS+ update waits for its answer the next one is further off than the timeout. */
  predicate TacacsTimersInv(o: Online) {
    && 1 <= o.tacUpdateLeft <= 3600
    && (o.tacSendFlag && !o.tacFailed ==>
          1 <= o.tacResponseLeft < TAC_ACCT_TIMEOUT && o.tacResponseLeft < o.tacUpdateLeft)
  }

  predicate TimersInv(o: Online) { RadiusTimersInv(o) && TacacsTimersInv(o) }

  /** Under every configuration that can be set, no message and no tick takes a timer out of range. */
  lemma TimersStayInRange(cfg: Config, o: Online)
    requires Configurable(cfg) && TimersInv(o)
    ensures Tick(cfg, o).Keep? ==> TimersInv(Tick(cfg, o).session)
    ensures TimersInv(Echo(cfg, o)) && TimersInv(AcctResponse(cfg, o))
  {
  }

  /** Why that needs an interval of at least 1: after an update interval of 0 the next update would be
      2^32 - 1 ticks late. */
  lemma ZeroIntervalUnderflows(cfg: Config, o: Online)
    requires cfg.radiusAcct && o.logMethod == Radius && RadiusTimersInv(o)
    requires !o.sendFlag && o.retryLeft == 1 && o.alive > 1
    requires cfg.radiusUpdate == 0
    ensures var q := AcctResponse(cfg, Tick(cfg, o).session);
      Tick(cfg, o).Keep? && !q.sendFlag && Tick(cfg, q) == Keep(q.(alive := q.alive - 1, retryLeft := 0xffff_ffff))
  {
  }

  // ----- RADIUS accounting -----

  predicate Enforced(cfg: Config, o: Online) {
    o.logMethod == Radius && cfg.radiusAcct && !cfg.onlineAcctFailed
  }

  /** Ticks to go, counting the one that evicts, for a session whose update stays unanswered. */
  function TicksToEviction(o: Online): int {
    if o.failures >= RADIUS_ACCT_FAILURES then 1
    else RADIUS_ACCT_TIMEOUT * (RADIUS_ACCT_FAILURES - 1 - o.failures) + o.responseLeft + 1
  }

  /** However the keep-alive messages fall, an unanswered update is not held against the session
      before that tick, and the session is gone by it. */
  lemma {:induction false} UnansweredUpdateEvictsExactly(cfg: Config, o: Online, echoes: seq<bool>)
    requires Enforced(cfg, o) && o.sendFlag && 1 <= o.responseLeft <= RADIUS_ACCT_TIMEOUT
    ensures Ticks(cfg, o, echoes) == Evict(AcctFail) ==> |echoes| >= TicksToEviction(o)
    ensures Ticks(cfg, o, echoes).Keep? ==> |echoes| < TicksToEviction(o)
    decreases |echoes|
  {
    if echoes != [] {
      var p := if echoes[0] then Echo(cfg, o) else o;
      match Tick(cfg, p)
      case Evict(_) =>
      case Keep(q) =>
        UnansweredUpdateEvictsExactly(cfg, q, echoes[1..]);
    }
  }

  /** The update goes out when the interval has run down, and a session it then loses for want of an
      answer is lost between 22 and 26 ticks after sending it. */
  lemma UpdateSentThenLost(cfg: Config, o: Online, echoes: seq<bool>)
    requires Enforced(cfg, o) && RadiusTimersInv(o) && !o.sendFlag && o.retryLeft == 1 && o.alive >= 1
    ensures Tick(cfg, o).Keep? && Tick(cfg, o).session.sendFlag
    ensures Ticks(cfg, Tick(cfg, o).session, echoes) == Evict(AcctFail) ==> |echoes| >= 22
    ensures |echoes| >= 26 ==> Ticks(cfg, Tick(cfg, o).session, echoes).Evict?
  {
    UnansweredUpdateEvictsExactly(cfg, Tick(cfg, o).session, echoes);
  }

  /** A response wipes the failures, so the count starts again at the next update. */
  lemma ResponseStartsAgain(cfg: Config, o: Online)
    requires Enforced(cfg, o) && RadiusTimersInv(o) && o.alive > 0
    ensures var q := AcctResponse(cfg, o);
      RadiusTimersInv(q) && q.failures == 0 && !q.sendFlag && Tick(cfg, q).Keep?
      && (Tick(cfg, q).session.sendFlag ==> TicksToEviction(Tick(cfg, q).session) == 21 + o.responseLeft)
  {
  }

  // ----- TACACS+ accounting -----

  predicate TacacsEnforced(cfg: Config, o: Online) {
    o.logMethod == Tacacs && cfg.tacAcct && !cfg.onlineAcctFailed
  }

  /** With the next update further off than the timeout, an unanswered update evicts exactly one tick
      after the timeout. */
  lemma {:induction false} TacacsUpdateEvictsExactly(cfg: Config, o: Online, echoes: seq<bool>)
    requires TacacsEnforced(cfg, o) && o.tacSendFlag
    requires o.tacFailed || (o.tacResponseLeft >= 1 && (o.tacUpdateLeft < 1 || o.tacUpdateLeft > o.tacResponseLeft))
    ensures var last := if o.tacFailed then 1 else o.tacResponseLeft + 1;
      && (Ticks(cfg, o, echoes) == Evict(AcctFail) ==> |echoes| >= last)
      && (Ticks(cfg, o, echoes).Keep? ==> |echoes| < last)
    decreases |echoes|
  {
    if echoes != [] {
      var p := if echoes[0] then Echo(cfg, o) else o;
      match Tick(cfg, p)
      case Evict(_) =>
      case Keep(q) =>
        TacacsUpdateEvictsExactly(cfg, q, echoes[1..]);
    }
  }

  /** Why that needs the minimum interval: with updates closer together than the timeout every update
      would restart it, and no number of unanswered updates would ever evict. */
  lemma {:induction false} FrequentTacacsUpdatesNeverEvict(cfg: Config, o: Online, echoes: seq<bool>)
    requires TacacsEnforced(cfg, o) && o.tacSendFlag && !o.tacFailed
    requires 1 <= cfg.tacUpdate < TAC_ACCT_TIMEOUT && 1 <= o.tacUpdateLeft <= o.tacResponseLeft
    ensures Ticks(cfg, o, echoes) != Evict(AcctFail)
    decreases |echoes|
  {
    if echoes != [] {
      var p := if echoes[0] then Echo(cfg, o) else o;
      match Tick(cfg, p)
      case Evict(_) =>
      case Keep(q) =>
        FrequentTacacsUpdatesNeverEvict(cfg, q, echoes[1..]);
    }
  }

  /** An unanswered TACACS+ update is held against the session, 30 ticks on, exactly when the interval is
      not in 1..29. */
  lemma TacacsUpdateSentThenLost(cfg: Config, o: Online, echoes: seq<bool>)
    requires TacacsEnforced(cfg, o) && !o.tacFailed && o.tacUpdateLeft == 1 && o.alive >= 1
    ensures Tick(cfg, o).Keep?
    ensures 1 <= cfg.tacUpdate < TAC_ACCT_TIMEOUT ==>
      Ticks(cfg, Tick(cfg, o).session, echoes) != Evict(AcctFail)
    ensures !(1 <= cfg.tacUpdate < TAC_ACCT_TIMEOUT) ==>
      && (Ticks(cfg, Tick(cfg, o).session, echoes) == Evict(AcctFail) ==> |echoes| >= TAC_ACCT_TIMEOUT)
      && (|echoes| >= TAC_ACCT_TIMEOUT ==> Ticks(cfg, Tick(cfg, o).session, echoes).Evict?)
  {
    var sent := Tick(cfg, o).session;
    if 1 <= cfg.tacUpdate < TAC_ACCT_TIMEOUT {
      FrequentTacacsUpdatesNeverEvict(cfg, sent, echoes);
    } else {
      TacacsUpdateEvictsExactly(cfg, sent, echoes);
    }
  }

  /** With every interval that can be set, a TACACS+ update is sent at the end of the interval and, left
      unanswered, evicts the session exactly 30 ticks later, unless silence has evicted it before. */
  lemma ConfiguredUpdateSentThenLost(cfg: Config, o: Online, echoes: seq<bool>)
    requires Configurable(cfg) && TacacsEnforced(cfg, o) && TimersInv(o) && !o.tacFailed
    requires o.tacUpdateLeft == 1 && o.alive >= 1
    ensures Tick(cfg, o).Keep? && Tick(cfg, o).session.tacSendFlag
    ensures Ticks(cfg, Tick(cfg, o).session, echoes) == Evict(AcctFail) ==> |echoes| >= TAC_ACCT_TIMEOUT
    ensures |echoes| >= TAC_ACCT_TIMEOUT ==> Ticks(cfg, Tick(cfg, o).session, echoes).Evict?
  {
    TacacsUpdateSentThenLost(cfg, o, echoes);
  }

  // ----- lost for want of accounting, from any state -----

  /** Accounting is on for the session's method, and its failure is not waived. */
  predicate AcctEnforced(cfg: Config, o: Online) {
    !cfg.onlineAcctFailed && ((o.logMethod == Radius && cfg.radiusAcct) || (o.logMethod == Tacacs && cfg.tacAcct))
  }

  /** Ticks to go, counting the one that evicts, for a session that gets no accounting answer any more. */
  function TicksToLoss(o: Online): int {
    if o.logMethod == Radius then (if o.sendFlag then 0 else o.retryLeft) + TicksToEviction(o)
    else if o.tacFailed then 1
    else if o.tacSendFlag then o.tacResponseLeft + 1
    else o.tacUpdateLeft + TAC_ACCT_TIMEOUT
  }

  lemma LossNearer(cfg: Config, o: Online)
    requires Configurable(cfg) && TimersInv(o) && AcctEnforced(cfg, o) && o.alive > 0
    ensures TicksToLoss(o) >= 1
    ensures TicksToLoss(o) == 1 ==> Tick(cfg, o) == Evict(AcctFail)
    ensures TicksToLoss(o) > 1 ==>
      && Tick(cfg, o).Keep? && TimersInv(Tick(cfg, o).session) && AcctEnforced(cfg, Tick(cfg, o).session)
      && TicksToLoss(Tick(cfg, o).session) == TicksToLoss(o) - 1
  {
    TimersStayInRange(cfg, o);
  }

  /** From any state of its timers, a session whose accounting is enforced and unanswered is lost for it at
      one computed tick, the keep-alive messages falling as they may. */
  lemma {:induction false} UnansweredLossExactly(cfg: Config, o: Online, echoes: seq<bool>)
    requires Configurable(cfg) && TimersInv(o) && AcctEnforced(cfg, o)
    ensures Ticks(cfg, o, echoes) == Evict(AcctFail) ==> |echoes| >= TicksToLoss(o)
    ensures Ticks(cfg, o, echoes).Keep? ==> |echoes| < TicksToLoss(o)
    decreases |echoes|
  {
    var p := if echoes != [] && echoes[0] then Echo(cfg, o) else o;
    if p.alive > 0 {
      LossNearer(cfg, p);
      if echoes != [] && TicksToLoss(p) > 1 { UnansweredLossExactly(cfg, Tick(cfg, p).session, echoes[1..]); }
    } else {
      LossNearer(cfg, o.(alive := 1));
    }
  }

  /** An answer in time is as good as a new start: the session is not lost for accounting before its next
      update has gone out at the end of the interval and gone unanswered in turn, which for TACACS+ is the
      update interval and 30 ticks. Only a TACACS+ answer that comes after the timeout is too late. */
  lemma AnsweredUpdateForgiven(cfg: Config, o: Online, echoes: seq<bool>)
    requires Configurable(cfg) && TimersInv(o) && AcctEnforced(cfg, o)
    ensures var after := Ticks(cfg, AcctResponse(cfg, o), echoes);
      var last :=
        if o.logMethod == Radius then o.retryLeft + 5 * 4 + o.responseLeft + 1
        else if o.tacFailed then 1
        else cfg.tacUpdate + 30;
      && (after == Evict(AcctFail) ==> |echoes| >= last)
      && (after.Keep? ==> |echoes| < last)
  {
    TimersStayInRange(cfg, o);
    UnansweredLossExactly(cfg, AcctResponse(cfg, o), echoes);
  }

  /** RADIUS updates keep their interval: after one that was sent and answered the next is sent, and if it goes
      unanswered held against the session, as long after the first as the interval says. */
  lemma RadiusUpdatesKeepInterval(cfg: Config, o: Online, echoes: seq<bool>)
    requires Configurable(cfg) && TimersInv(o) && Enforced(cfg, o) && !o.sendFlag && o.retryLeft == 1 && o.alive > 0
    ensures Tick(cfg, o).Keep? && Tick(cfg, o).session.sendFlag
    ensures var after := Ticks(cfg, AcctResponse(cfg, Tick(cfg, o).session), echoes);
      var last := cfg.radiusUpdate + 5 * 4 + o.responseLeft + 1;
      && (after == Evict(AcctFail) ==> |echoes| >= last)
      && (after.Keep? ==> |echoes| < last)
  {
    TimersStayInRange(cfg, o);
    AnsweredUpdateForgiven(cfg, Tick(cfg, o).session, echoes);
  }

  /** With the failure waived, or accounting off for the session's method, nobody is put out for it. */
  lemma {:induction false} WaivedNeverLost(cfg: Config, o: Online, echoes: seq<bool>)
    requires cfg.onlineAcctFailed || (o.logMethod == Radius && !cfg.radiusAcct)
      || (o.logMethod == Tacacs && !cfg.tacAcct) || (o.logMethod != Radius && o.logMethod != Tacacs)
    ensures Ticks(cfg, o, echoes) != Evict(AcctFail)
    decreases |echoes|
  {
    if echoes != [] {
      var p := if echoes[0] then Echo(cfg, o) else o;
      match Tick(cfg, p)
      case Evict(_) =>
      case Keep(q) => WaivedNeverLost(cfg, q, echoes[1..]);
    }
  }

  lemma {:induction false} AlwaysEchoed(cfg: Config, o: Online, n: nat)
    requires cfg.aliveMax > 0
    ensures Ticks(cfg, o, seq(n, _ => true)) != Evict(EchoTimeout)
    decreases n
  {
    if n > 0 {
      assert seq(n, _ => true)[1..] == seq(n - 1, _ => true);
      match Tick(cfg, Echo(cfg, o))
      case Evict(_) =>
      case Keep(q) => AlwaysEchoed(cfg, q, n - 1);
    }
  }

  lemma EnforcedIsLost(cfg: Config, o: Online) returns (echoes: seq<bool>)
    requires Configurable(cfg) && TimersInv(o) && AcctEnforced(cfg, o) && cfg.aliveMax > 0
    ensures Ticks(cfg, o, echoes) == Evict(AcctFail)
  {
    LossNearer(cfg, o.(alive := 1));
    echoes := seq(TicksToLoss(o), _ => true);
    AlwaysEchoed(cfg, o, TicksToLoss(o));
    UnansweredLossExactly(cfg, o, echoes);
    var fate := Ticks(cfg, o, echoes);
    assert fate.Evict? && fate != Evict(EchoTimeout);
    assert fate.reason == EchoTimeout || fate.reason == AcctFail;
  }

  ghost predicate CanBeLost(cfg: Config, o: Online) {
    exists echoes :: Ticks(cfg, o, echoes) == Evict(AcctFail)
  }

  /** So a session can be lost for accounting exactly when accounting is on for its method and the failure is
      not waived. */
  lemma LostOnlyIfEnforcedExactly(cfg: Config, o: Online)
    requires Configurable(cfg) && TimersInv(o) && cfg.aliveMax > 0
    ensures CanBeLost(cfg, o) <==>
      && !cfg.onlineAcctFailed
      && ((o.logMethod == Radius && cfg.radiusAcct) || (o.logMethod == Tacacs && cfg.tacAcct))
  {
    if AcctEnforced(cfg, o) {
      var echoes := EnforcedIsLost(cfg, o);
    } else {
      forall echoes ensures Ticks(cfg, o, echoes) != Evict(AcctFail) { WaivedNeverLost(cfg, o, echoes); }
    }
  }
}
