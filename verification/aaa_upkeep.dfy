/** What holds of every online session in every reachable state: its timers are in range. */
module AaaUpkeep {
  import opened AaaTypes
  import opened AaaSession
  import opened AaaTable
  import opened AaaRuns
  import opened AaaOnline
  import opened IdAllocator

  ghost predicate AllInRange(s: State) {
    forall k :: 0 <= k < |s.online| ==> TimersInv(s.online[k])
  }

  lemma NewSessionInRange(cfg: Config, p: Authing, id: nat, m: Method)
    requires Configurable(cfg)
    ensures TimersInv(NewOnline(cfg, p, id, m))
  {
  }

  lemma {:induction false} ScanKeepsRange(cfg: Config, s: State, acks: set<nat>, id: nat)
    requires Configurable(cfg) && OrdersInRange(s) && AllInRange(s)
    ensures AllInRange(Scan(cfg, s, acks, id))
    decreases TABLE_MAX + 1 - id
  {
    if id <= TABLE_MAX {
      VisitKeepsOrders(cfg, s, id, id in acks);
      VisitKeepsRange(cfg, s, id, id in acks);
      ScanKeepsRange(cfg, VisitLogin(cfg, s, id, id in acks).state, acks, id + 1);
    }
  }

  lemma VisitKeepsRange(cfg: Config, s: State, id: nat, ack: bool)
    requires Configurable(cfg) && OrdersInRange(s) && AllInRange(s)
    ensures AllInRange(VisitLogin(cfg, s, id, ack).state)
  {
    var t := VisitLogin(cfg, s, id, ack).state;
    if id in s.authing {
      var m := Selected(cfg, s.authing[id]);
      var session := Tagged(MethodCode(m), SmallestFree(s.live, 1, TABLE_MAX));
      NewSessionInRange(cfg, Check(cfg, s.authing[id], s.timers).0, session, m);
    }
    forall k | 0 <= k < |t.online| ensures TimersInv(t.online[k]) {
      assert k >= |s.online| || t.online[k] == s.online[k];
    }
  }

  lemma {:induction false} OnlineScanKeepsRange(cfg: Config, s: State, k: nat)
    requires Configurable(cfg) && AllInRange(s) && k <= |s.online|
    ensures AllInRange(OnlineScan(cfg, s, k))
    decreases |s.online| - k
  {
    if k < |s.online| {
      TimersStayInRange(cfg, s.online[k]);
      OnlineScanKeepsRange(cfg, TickedAt(cfg, s, k).state, TickedAt(cfg, s, k).next);
    }
  }

  lemma StepKeepsRange(cfg: Config, s: State, e: Event)
    requires Configurable(cfg) && OrdersInRange(s) && AllInRange(s)
    ensures AllInRange(Step(cfg, s, e))
  {
    match e
    case AuthTick(acks) => ScanKeepsRange(cfg, s, acks, 1);
    case OnlineTick => OnlineScanKeepsRange(cfg, s, 0);
    case LoginExit(id) =>
    case EchoRequest(id, _) =>
      var k := Find(s.online, id);
      if k < |s.online| { TimersStayInRange(cfg, s.online[k]); }
    case AcctReply(id) =>
      var k := Find(s.online, id);
      if k < |s.online| { TimersStayInRange(cfg, s.online[k]); }
    case _ =>
  }

  /** Admission starts a session with its timers in range and nothing takes them out of it: in every
      reachable state, under every configuration that can be set, no timer of a session wraps. */
  lemma {:induction false} TimersInRangeAlways(cfg: Config, events: seq<Event>)
    requires Configurable(cfg)
    ensures forall k :: 0 <= k < |Run(cfg, events).online| ==> TimersInv(Run(cfg, events).online[k])
  {
    if events != [] {
      var n := |events| - 1;
      TimersInRangeAlways(cfg, events[..n]);
      StepKeepsRange(cfg, Run(cfg, events[..n]), events[n]);
    }
  }

  /** So in every reachable state a session whose accounting is enforced is lost for want of an answer at one
      computed tick: RADIUS or TACACS+, waiting for an answer already or not, whatever keep-alive messages
      come meanwhile. */
  lemma SessionLostExactly(cfg: Config, events: seq<Event>, k: nat, echoes: seq<bool>)
    requires Configurable(cfg) && k < |Run(cfg, events).online| && AcctEnforced(cfg, Run(cfg, events).online[k])
    ensures var o := Run(cfg, events).online[k];
      var last :=
        if o.logMethod == Radius && !o.sendFlag then o.retryLeft + 5 * 4 + o.responseLeft + 1
        else if o.logMethod == Radius && o.failures < 5 then 5 * (4 - o.failures) + o.responseLeft + 1
        else if o.logMethod == Radius || o.tacFailed then 1
        else if o.tacSendFlag then o.tacResponseLeft + 1
        else o.tacUpdateLeft + 30;
      && (Ticks(cfg, o, echoes) == Evict(AcctFail) ==> |echoes| >= last)
      && (Ticks(cfg, o, echoes).Keep? ==> |echoes| < last)
      && ((o.logMethod == Radius && o.sendFlag) || (o.logMethod == Tacacs && o.tacSendFlag) ==> 1 <= last <= 30)
  {
    TimersInRangeAlways(cfg, events);
    var o := Run(cfg, events).online[k];
    UnansweredLossExactly(cfg, o, echoes);
    LossNearer(cfg, o.(alive := 1));
  }
}
