/** Why the bounds are for the whole table: the RADIUS resend counter is shared, so logins that come and go can
    keep the ones before them from ever sending a request. */
module AaaStarvation {
  import opened AaaTypes
  import opened AaaSession
  import opened AaaSoundness
  import opened AaaTable
  import opened AaaRuns
  import opened AaaAdmission
  import opened AaaSettling
  import opened AaaSolo
  import opened IdAllocator
  import opened Basics

  const ZERO := Timers(0, 0, 0, 0, 0)

  /** RADIUS comes first, with requests sent every 2 to 32 ticks. */
  predicate ResendsSlowly(cfg: Config) {
    GetAuthOrder(cfg, 1) == Radius && Attempts(cfg) > 0 && cfg.loginMax > 0 && 2 <= ResendTicks(cfg) <= TABLE_MAX
  }

  function Ids(k: nat): (ids: set<nat>)
    ensures forall i :: i in ids <==> 1 <= i <= k
  {
    if k == 0 then {} else Ids(k - 1) + {k}
  }

  /** A crowd of k logins, each just as it came in, and the counters at zero. */
  function Crowd(cfg: Config, user: string, k: nat, logins: nat): State {
    State(map i | i in Ids(k) :: NewAuthing(cfg, user, "", i - 1), [], {}, ZERO, logins)
  }

  /** The same with one more login behind it. */
  function CrowdAnd(cfg: Config, user: string, k: nat, logins: nat, p: Authing): State {
    Crowd(cfg, user, k, logins).(authing := Crowd(cfg, user, k, logins).authing[k + 1 := p])
  }

  predicate WaitsToSend(cfg: Config, p: Authing) {
    EntryInv(p) && p.order == 1 && p.user != SUPER_USER && Waiting(p.result) && p.authRetry > 0
  }

  /** Every login of the crowd moves the shared counter on by one and stays as it is. */
  lemma {:induction false} CrowdPasses(cfg: Config, s: State, acks: set<nat>, k: nat)
    requires ResendsSlowly(cfg) && OrdersInRange(s) && s.online == []
    requires 1 <= k <= ResendTicks(cfg) && s.timers.auth == k - 1
    requires forall i :: k <= i < ResendTicks(cfg) ==> i in s.authing && WaitsToSend(cfg, s.authing[i])
    ensures Scan(cfg, s, acks, k)
         == Scan(cfg, s.(timers := s.timers.(auth := ResendTicks(cfg) - 1)), acks, ResendTicks(cfg))
    decreases ResendTicks(cfg) - k
  {
    if k < ResendTicks(cfg) {
      var t := s.(timers := s.timers.(auth := k));
      assert s.authing[k := s.authing[k]] == s.authing;
      assert VisitLogin(cfg, s, k, k in acks) == Visit(t, false);
      ScanNext(cfg, s, acks, k);
      CrowdPasses(cfg, t, acks, k + 1);
    } else {
      assert s.timers.(auth := k - 1) == s.timers;
    }
  }

  lemma LastOneSends(cfg: Config, s: State, k: nat, ack: bool)
    requires ResendsSlowly(cfg) && OrdersInRange(s) && s.online == [] && s.timers.auth == ResendTicks(cfg) - 1
    requires k in s.authing && WaitsToSend(cfg, s.authing[k])
    ensures var p := s.authing[k];
      VisitLogin(cfg, s, k, ack)
        == Visit(s.(authing := s.authing[k := Ask(p.(authRetry := p.authRetry - 1), RadAuth)],
                    timers := s.timers.(auth := 0)), false)
  {
  }

  lemma LastOneGoes(cfg: Config, s: State, k: nat, ack: bool)
    requires ResendsSlowly(cfg) && OrdersInRange(s) && s.online == []
    requires k in s.authing && s.authing[k].user != SUPER_USER && s.authing[k].order == 1
    requires s.authing[k].result == AuthenFailed
    ensures VisitLogin(cfg, s, k, ack)
         == Visit(s.(authing := Remove(s.authing, k), timers := s.timers.(auth := 0)), false)
  {
  }

  /** What a tick makes of the login behind the crowd, where the counter runs out. */
  function Turned(p: Authing): Option<Authing> {
    if p.result == AuthenFailed then None
    else if p.authRetry == 0 then Some(p) else Some(Ask(p.(authRetry := p.authRetry - 1), RadAuth))
  }

  function CrowdWith(cfg: Config, user: string, k: nat, logins: nat, last: Option<Authing>): State {
    match last
    case None => Crowd(cfg, user, k, logins)
    case Some(p) => CrowdAnd(cfg, user, k, logins, p)
  }

  predicate BehindCrowd(cfg: Config, p: Authing) {
    EntryInv(p) && p.order == 1 && p.user != SUPER_USER && (p.result == AuthenFailed || WaitsToSend(cfg, p))
  }

  lemma CrowdWaits(cfg: Config, user: string, k: nat, logins: nat, p: Authing)
    requires ResendsSlowly(cfg) && user != SUPER_USER && BehindCrowd(cfg, p)
    ensures var s := CrowdAnd(cfg, user, k, logins, p);
      && OrdersInRange(s)
      && (forall i :: 1 <= i <= k ==> i in s.authing && WaitsToSend(cfg, s.authing[i]))
      && (forall i :: i in s.authing ==> i <= k + 1)
      && Remove(s.authing, k + 1) == Crowd(cfg, user, k, logins).authing
  {
  }

  lemma LastTurn(cfg: Config, user: string, logins: nat, p: Authing, k: nat, t: State)
    requires ResendsSlowly(cfg) && user != SUPER_USER && BehindCrowd(cfg, p) && k + 1 == ResendTicks(cfg)
    requires t == CrowdAnd(cfg, user, k, logins, p).(timers := ZERO.(auth := k)) && OrdersInRange(t)
    ensures Scan(cfg, t, {}, k + 1) == CrowdWith(cfg, user, k, logins, Turned(p))
  {
    CrowdWaits(cfg, user, k, logins, p);
    var v := VisitLogin(cfg, t, k + 1, false);
    LastVisit(cfg, user, logins, p, k, t);
    ScanNext(cfg, t, {}, k + 1);
    ScanNoneAbove(cfg, v.state, {}, k + 2);
  }

  lemma LastVisit(cfg: Config, user: string, logins: nat, p: Authing, k: nat, t: State)
    requires ResendsSlowly(cfg) && user != SUPER_USER && BehindCrowd(cfg, p) && k + 1 == ResendTicks(cfg)
    requires t == CrowdAnd(cfg, user, k, logins, p).(timers := ZERO.(auth := k)) && OrdersInRange(t)
    ensures VisitLogin(cfg, t, k + 1, false) == Visit(CrowdWith(cfg, user, k, logins, Turned(p)), false)
    ensures forall i :: i in CrowdWith(cfg, user, k, logins, Turned(p)).authing ==> i <= k + 1
  {
    CrowdWaits(cfg, user, k, logins, p);
    if p.result == AuthenFailed {
      LastOneGoes(cfg, t, k + 1, false);
    } else {
      LastOneSends(cfg, t, k + 1, false);
      var crowd: map<nat, Authing> := Crowd(cfg, user, k, logins).authing;
      var q := Ask(p.(authRetry := p.authRetry - 1), RadAuth);
      assert crowd[k + 1 := p][k + 1 := q] == crowd[k + 1 := q];
    }
  }

  lemma LastOneTurns(cfg: Config, user: string, logins: nat, p: Authing, k: nat)
    requires ResendsSlowly(cfg) && user != SUPER_USER && BehindCrowd(cfg, p) && k + 1 == ResendTicks(cfg)
    ensures OrdersInRange(CrowdAnd(cfg, user, k, logins, p))
    ensures Scan(cfg, CrowdAnd(cfg, user, k, logins, p), {}, 1) == CrowdWith(cfg, user, k, logins, Turned(p))
  {
    var s := CrowdAnd(cfg, user, k, logins, p);
    CrowdWaits(cfg, user, k, logins, p);
    CrowdPasses(cfg, s, {}, 1);
    LastTurn(cfg, user, logins, p, k, s.(timers := s.timers.(auth := k)));
  }

  lemma OneMoreLogin(cfg: Config, user: string, k: nat, logins: nat)
    requires ResendsSlowly(cfg) && user != "" && k < TABLE_MAX
    ensures Login(cfg, Crowd(cfg, user, k, logins), user, "")
         == CrowdAnd(cfg, user, k, logins + 1, NewAuthing(cfg, user, "", logins))
  {
    SmallestFreeUnique(Crowd(cfg, user, k, logins).authing.Keys, 1, TABLE_MAX, k + 1);
  }

  lemma CrowdGrows(cfg: Config, user: string, k: nat, logins: nat)
    ensures CrowdAnd(cfg, user, k, logins, NewAuthing(cfg, user, "", k)) == Crowd(cfg, user, k + 1, logins)
  {
    var after := Crowd(cfg, user, k + 1, logins).authing;
    assert after.Keys == Crowd(cfg, user, k, logins).authing.Keys + {k + 1};
  }

  /** The events lead to that state, answered honestly and in time, with so many busy ticks. */
  ghost predicate Stands(cfg: Config, events: seq<Event>, s: State, busy: nat) {
    && HonestAnswers(cfg, events) && CurrentAnswers(cfg, events)
    && Run(cfg, events) == s && BusyTicks(cfg, events) == busy
  }

  lemma StandsAfter(cfg: Config, events: seq<Event>, s: State, busy: nat, e: Event)
    requires Stands(cfg, events, s, busy) && OrdersInRange(s)
    requires e.ServerReply? && e.login in s.authing ==>
      Asked(s.authing[e.login], e.reply) && AtCurrent(cfg, s.authing[e.login], e.reply)
    ensures Stands(cfg, events + [e], Step(cfg, s, e), busy + if BusyTick(cfg, s, e) then 1 else 0)
  {
    OneMore(cfg, events, e);
    StaysWithin(cfg, events, e, NoneLate);
    assert (events + [e])[..|events|] == events;
  }

  lemma NobodyYet(cfg: Config, user: string, k: nat)
    requires k == 0
    ensures Stands(cfg, [], Crowd(cfg, user, k, k), 0)
  {
    assert Crowd(cfg, user, k, k).authing == map[];
  }

  lemma OneComes(cfg: Config, events: seq<Event>, user: string, k: nat) returns (more: seq<Event>)
    requires ResendsSlowly(cfg) && user != "" && k < TABLE_MAX && Stands(cfg, events, Crowd(cfg, user, k, k), 0)
    ensures Stands(cfg, more, Crowd(cfg, user, k + 1, k + 1), 0)
  {
    OneMoreLogin(cfg, user, k, k);
    CrowdGrows(cfg, user, k, k + 1);
    more := LoginStands(cfg, events, Crowd(cfg, user, k, k), 0, user);
  }

  /** The crowd comes in, one login after the other. */
  lemma {:induction false} CrowdComes(cfg: Config, user: string, k: nat) returns (events: seq<Event>)
    requires ResendsSlowly(cfg) && user != "" && k <= TABLE_MAX
    ensures Stands(cfg, events, Crowd(cfg, user, k, k), 0)
  {
    if k == 0 {
      events := [];
      NobodyYet(cfg, user, k);
    } else {
      events := CrowdComes(cfg, user, k - 1);
      events := OneComes(cfg, events, user, k - 1);
    }
  }

  lemma LoginStands(cfg: Config, events: seq<Event>, s: State, busy: nat, user: string) returns (more: seq<Event>)
    requires Stands(cfg, events, s, busy)
    ensures Stands(cfg, more, Login(cfg, s, user, ""), busy)
  {
    more := events + [LoginRequest(user, "")];
    StandsAfter(cfg, events, s, busy, LoginRequest(user, ""));
  }

  lemma CrowdIsBusy(cfg: Config, user: string, logins: nat, p: Authing, k: nat)
    requires ResendsSlowly(cfg) && user != SUPER_USER && BehindCrowd(cfg, p) && k >= 1
    ensures OrdersInRange(CrowdAnd(cfg, user, k, logins, p))
    ensures BusyTick(cfg, CrowdAnd(cfg, user, k, logins, p), AuthTick({}))
  {
    var s := CrowdAnd(cfg, user, k, logins, p);
    CrowdWaits(cfg, user, k, logins, p);
    assert 1 in s.authing && !Stuck(cfg, s.authing[1]);
  }

  lemma TickStands(
      cfg: Config, events: seq<Event>, user: string, logins: nat, p: Authing, k: nat, busy: nat)
    returns (more: seq<Event>)
    requires ResendsSlowly(cfg) && user != SUPER_USER && BehindCrowd(cfg, p) && k + 1 == ResendTicks(cfg)
    requires Stands(cfg, events, CrowdAnd(cfg, user, k, logins, p), busy)
    ensures Stands(cfg, more, CrowdWith(cfg, user, k, logins, Turned(p)), busy + 1)
  {
    more := events + [AuthTick({})];
    CrowdIsBusy(cfg, user, logins, p, k);
    LastOneTurns(cfg, user, logins, p, k);
    StandsAfter(cfg, events, CrowdAnd(cfg, user, k, logins, p), busy, AuthTick({}));
  }

  lemma RejectionStands(cfg: Config, events: seq<Event>, user: string, logins: nat, p: Authing, k: nat, busy: nat)
    returns (more: seq<Event>)
    requires ResendsSlowly(cfg) && EntryInv(p) && p.order == 1 && p.user != SUPER_USER && RadAuth in p.history.asked
    requires user != SUPER_USER && Stands(cfg, events, CrowdAnd(cfg, user, k, logins, p), busy)
    ensures Stands(cfg, more, CrowdAnd(cfg, user, k, logins, ApplyReply(p, RadReject)), busy)
  {
    more := events + [ServerReply(k + 1, RadReject)];
    StandsAfter(cfg, events, CrowdAnd(cfg, user, k, logins, p), busy, ServerReply(k + 1, RadReject));
  }

  /** A login that has just come in and sent its first request. */
  function Sender(cfg: Config, user: string, serial: nat): Authing
    requires Attempts(cfg) > 0
  {
    Ask(NewAuthing(cfg, user, "", serial).(authRetry := Attempts(cfg) - 1), RadAuth)
  }

  lemma ArrivalTurns(cfg: Config, user: string, serial: nat)
    requires ResendsSlowly(cfg) && user != SUPER_USER
    ensures BehindCrowd(cfg, NewAuthing(cfg, user, "", serial))
    ensures Turned(NewAuthing(cfg, user, "", serial)) == Some(Sender(cfg, user, serial))
  {
  }

  lemma NewcomerSends(cfg: Config, events: seq<Event>, user: string, logins: nat, k: nat, busy: nat)
    returns (more: seq<Event>)
    requires ResendsSlowly(cfg) && user != "" && user != SUPER_USER && k + 1 == ResendTicks(cfg)
    requires Stands(cfg, events, Crowd(cfg, user, k, logins), busy)
    ensures Stands(cfg, more, CrowdAnd(cfg, user, k, logins + 1, Sender(cfg, user, logins)), busy + 1)
  {
    ArrivalTurns(cfg, user, logins);
    var come := NewcomerComes(cfg, events, user, logins, k, busy);
    more := TickStands(cfg, come, user, logins + 1, NewAuthing(cfg, user, "", logins), k, busy);
  }

  lemma NewcomerComes(cfg: Config, events: seq<Event>, user: string, logins: nat, k: nat, busy: nat)
    returns (more: seq<Event>)
    requires ResendsSlowly(cfg) && user != "" && k < TABLE_MAX
    requires Stands(cfg, events, Crowd(cfg, user, k, logins), busy)
    ensures Stands(cfg, more, CrowdAnd(cfg, user, k, logins + 1, NewAuthing(cfg, user, "", logins)), busy)
  {
    OneMoreLogin(cfg, user, k, logins);
    more := LoginStands(cfg, events, Crowd(cfg, user, k, logins), busy, user);
  }

  /** One more login comes, sends its request, is rejected and goes: two ticks that leave the crowd as it was. */
  lemma ComesAndGoes(cfg: Config, events: seq<Event>, user: string, logins: nat, k: nat, busy: nat)
    returns (more: seq<Event>)
    requires ResendsSlowly(cfg) && user != "" && user != SUPER_USER && k + 1 == ResendTicks(cfg)
    requires Stands(cfg, events, Crowd(cfg, user, k, logins), busy)
    ensures Stands(cfg, more, Crowd(cfg, user, k, logins + 1), busy + 2)
  {
    var sent := NewcomerSends(cfg, events, user, logins, k, busy);
    more := SentIsRejected(cfg, sent, user, logins + 1, Sender(cfg, user, logins), k, busy + 1);
  }

  lemma SentIsRejected(cfg: Config, events: seq<Event>, user: string, logins: nat, p: Authing, k: nat, busy: nat)
    returns (more: seq<Event>)
    requires ResendsSlowly(cfg) && user != SUPER_USER && k + 1 == ResendTicks(cfg)
    requires EntryInv(p) && p.order == 1 && p.user != SUPER_USER && RadAuth in p.history.asked
    requires Stands(cfg, events, CrowdAnd(cfg, user, k, logins, p), busy)
    ensures Stands(cfg, more, Crowd(cfg, user, k, logins), busy + 1)
  {
    more := RejectionStands(cfg, events, user, logins, p, k, busy);
    more := TickStands(cfg, more, user, logins, ApplyReply(p, RadReject), k, busy);
  }

  /** For every n there is a run from the start, with every answer honest and in time, in which a crowd of one
      login less than there are ticks to a resend is still as it came in after 2n ticks, its first request not
      sent: further logins have come, sent theirs, been rejected and gone. */
  lemma {:induction false} SharedTimerStarves(cfg: Config, user: string, n: nat) returns (events: seq<Event>)
    requires ResendsSlowly(cfg) && user != "" && user != SUPER_USER
    ensures HonestAnswers(cfg, events) && CurrentAnswers(cfg, events) && BusyTicks(cfg, events) == 2 * n
    ensures Run(cfg, events) == Crowd(cfg, user, ResendTicks(cfg) - 1, ResendTicks(cfg) - 1 + n)
    ensures 1 in Run(cfg, events).authing && Run(cfg, events).authing[1] == NewAuthing(cfg, user, "", 0)
  {
    if n == 0 {
      events := CrowdComes(cfg, user, ResendTicks(cfg) - 1);
    } else {
      events := SharedTimerStarves(cfg, user, n - 1);
      events := ComesAndGoes(cfg, events, user, ResendTicks(cfg) - 1 + (n - 1), ResendTicks(cfg) - 1, 2 * (n - 1));
    }
  }
}
