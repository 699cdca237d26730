/** What timer ticks alone make of the authing table, from any state: once nothing else arrives, every login
    that is not stuck is settled within the potential of the state. */
module AaaEmptying {
  import opened AaaTypes
  import opened AaaSession
  import opened AaaTable
  import opened AaaRuns
  import opened AaaSettling

  function AfterTicks(cfg: Config, s: State, ticks: seq<set<nat>>): State
    requires OrdersInRange(s)
    decreases |ticks|
  {
    if ticks == [] then s
    else
      ScanKeepsOrders(cfg, s, ticks[0], 1);
      AfterTicks(cfg, Scan(cfg, s, ticks[0], 1), ticks[1..])
  }

  /** Enough ticks for the state, as its potential says. */
  ghost predicate Enough(cfg: Config, s: State, ticks: seq<set<nat>>)
    requires OrdersInRange(s)
  {
    |ticks| >= Potential(cfg, s, WithAnswers)
  }

  /** Once no more logins or answers come, every login left pending is stuck within `Potential` ticks. */
  lemma {:induction false} TicksSettleMoving(cfg: Config, s: State, ticks: seq<set<nat>>)
    requires TableInv(cfg, s) && Enough(cfg, s, ticks)
    ensures TableInv(cfg, AfterTicks(cfg, s, ticks))
    ensures !AnyMoving(cfg, AfterTicks(cfg, s, ticks), 1)
    decreases |ticks|
  {
    if ticks == [] {
      ScanAdvances(cfg, s, {}, 1, WithAnswers);
    } else {
      ScanKeeps(cfg, s, ticks[0], 1);
      ScanAdvances(cfg, s, ticks[0], 1, WithAnswers);
      if AnyMoving(cfg, s, 1) {
        TicksSettleMoving(cfg, Scan(cfg, s, ticks[0], 1), ticks[1..]);
      } else {
        StillTable(cfg, s, ticks);
      }
    }
  }

  ghost predicate Still(cfg: Config, s: State)
    requires OrdersInRange(s)
  {
    forall k :: k in s.authing ==> Stuck(cfg, s.authing[k])
  }

  lemma StillVisit(cfg: Config, s: State, id: nat, ack: bool)
    requires OrdersInRange(s) && (forall k :: k in s.authing ==> EntryInv(s.authing[k])) && Still(cfg, s)
    ensures OrdersInRange(VisitLogin(cfg, s, id, ack).state) && Still(cfg, VisitLogin(cfg, s, id, ack).state)
  {
    VisitKeepsOrders(cfg, s, id, ack);
    if id in s.authing { TickIdleExactlyWhenStuck(cfg, s.authing[id], s.timers); }
  }

  lemma {:induction false} StillScan(cfg: Config, s: State, acks: set<nat>, id: nat)
    requires TableInv(cfg, s) && Still(cfg, s)
    ensures OrdersInRange(Scan(cfg, s, acks, id)) && Still(cfg, Scan(cfg, s, acks, id))
    decreases TABLE_MAX + 1 - id
  {
    if id <= TABLE_MAX {
      var v := VisitLogin(cfg, s, id, id in acks);
      VisitKeeps(cfg, s, id, id in acks);
      StillVisit(cfg, s, id, id in acks);
      if !v.stop { StillScan(cfg, v.state, acks, id + 1); }
    }
  }

  lemma {:induction false} StillTable(cfg: Config, s: State, ticks: seq<set<nat>>)
    requires TableInv(cfg, s) && !AnyMoving(cfg, s, 1)
    ensures TableInv(cfg, AfterTicks(cfg, s, ticks)) && !AnyMoving(cfg, AfterTicks(cfg, s, ticks), 1)
    decreases |ticks|
  {
    if ticks != [] {
      ScanKeeps(cfg, s, ticks[0], 1);
      StillScan(cfg, s, ticks[0], 1);
      StillTable(cfg, Scan(cfg, s, ticks[0], 1), ticks[1..]);
    }
  }

  // ----- one login among others -----

  /** The login with this id, if it is still there, is not stuck. */
  predicate Moving(cfg: Config, s: State, k: nat)
    requires OrdersInRange(s)
  {
    k in s.authing ==> !Stuck(cfg, s.authing[k])
  }

  lemma VisitKeepsMoving(cfg: Config, s: State, id: nat, ack: bool, k: nat)
    requires ValidOrder(cfg) && OrdersInRange(s) && Moving(cfg, s, k)
    requires forall i :: i in s.authing ==> EntryInv(s.authing[i])
    ensures OrdersInRange(VisitLogin(cfg, s, id, ack).state) && Moving(cfg, VisitLogin(cfg, s, id, ack).state, k)
  {
    VisitKeepsOrders(cfg, s, id, ack);
    if id in s.authing && id == k { CheckNeverStrands(cfg, s.authing[id], s.timers); }
  }

  lemma {:induction false} ScanKeepsMoving(cfg: Config, s: State, acks: set<nat>, id: nat, k: nat)
    requires ValidOrder(cfg) && TableInv(cfg, s) && Moving(cfg, s, k)
    ensures OrdersInRange(Scan(cfg, s, acks, id)) && Moving(cfg, Scan(cfg, s, acks, id), k)
    decreases TABLE_MAX + 1 - id
  {
    if id <= TABLE_MAX {
      var v := VisitLogin(cfg, s, id, id in acks);
      VisitKeeps(cfg, s, id, id in acks);
      VisitKeepsMoving(cfg, s, id, id in acks, k);
      if !v.stop { ScanKeepsMoving(cfg, v.state, acks, id + 1, k); }
    }
  }

  lemma {:induction false} TicksKeepMoving(cfg: Config, s: State, ticks: seq<set<nat>>, k: nat)
    requires ValidOrder(cfg) && TableInv(cfg, s) && Moving(cfg, s, k)
    ensures OrdersInRange(AfterTicks(cfg, s, ticks)) && Moving(cfg, AfterTicks(cfg, s, ticks), k)
    decreases |ticks|
  {
    if ticks != [] {
      ScanKeeps(cfg, s, ticks[0], 1);
      ScanKeepsMoving(cfg, s, ticks[0], 1, k);
      TicksKeepMoving(cfg, Scan(cfg, s, ticks[0], 1), ticks[1..], k);
    }
  }

  /** A login that is not stuck is settled by then, whatever other logins are pending, under the counters that
      it shares with them. */
  lemma TicksSettleLogin(cfg: Config, s: State, ticks: seq<set<nat>>, k: nat)
    requires ValidOrder(cfg) && TableInv(cfg, s) && Moving(cfg, s, k) && Enough(cfg, s, ticks)
    ensures k !in AfterTicks(cfg, s, ticks).authing
  {
    TicksSettleMoving(cfg, s, ticks);
    TicksKeepMoving(cfg, s, ticks, k);
    var t := AfterTicks(cfg, s, ticks);
    assert k in t.authing ==> 1 <= k;
  }

  /** So if no login is stuck, the table is empty by then. */
  lemma TicksSettleEveryone(cfg: Config, s: State, ticks: seq<set<nat>>)
    requires ValidOrder(cfg) && TableInv(cfg, s) && Enough(cfg, s, ticks)
    requires forall k :: k in s.authing ==> !Stuck(cfg, s.authing[k])
    ensures AfterTicks(cfg, s, ticks).authing == map[]
  {
    forall k ensures k !in AfterTicks(cfg, s, ticks).authing {
      TicksSettleLogin(cfg, s, ticks, k);
    }
  }
}
