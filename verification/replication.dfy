/** Master to slave replication of the current-alarm table (gpnAlmMasterSlaveSync.c): a power-on snapshot
    followed by queued changes. Insert and remove are keyed on the alarm; rows are in AlignedSheets. */
module Replication {
  import opened Basics
  import opened Snapshot

  const SYNC_DELAY := 17  // GPN_ALM_TIM_CLC_SPAN_LIMIT + 5
  const CACHE_TIME := 3

  datatype Role = NoRole | Master | Slave

  datatype Power = PowerInvalid | PowerNew | PowerDone

  datatype Action = Rise | Clean | Other

  datatype Delta = Delta(key: Key, action: Action)

  // ----- what the slave makes of a message -----

  /** Applies the records of one message in order; an unknown action drops the rest of it. */
  function Replay(base: set<Key>, deltas: seq<Delta>): set<Key>
    decreases |deltas|
  {
    if deltas == [] then base
    else
      match deltas[0].action
      case Rise => Replay(base + {deltas[0].key}, deltas[1..])
      case Clean => Replay(base - {deltas[0].key}, deltas[1..])
      case Other => base
  }

  predicate Plain(deltas: seq<Delta>) {
    forall d :: d in deltas ==> !d.action.Other?
  }

  function ReplayAll(base: set<Key>, messages: seq<seq<Delta>>): set<Key> {
    if messages == [] then base
    else Replay(ReplayAll(base, messages[..|messages| - 1]), messages[|messages| - 1])
  }

  function LastAction(deltas: seq<Delta>, key: Key): Option<Action> {
    if deltas == [] then None
    else if deltas[|deltas| - 1].key == key then Some(deltas[|deltas| - 1].action)
    else LastAction(deltas[..|deltas| - 1], key)
  }

  lemma {:induction false} ReplaySplit(base: set<Key>, a: seq<Delta>, b: seq<Delta>)
    requires Plain(a)
    ensures Replay(base, a + b) == Replay(Replay(base, a), b)
    decreases |a|
  {
    if a == [] {
      assert a + b == b;
    } else {
      assert a[0] in a && (a + b)[1..] == a[1..] + b;
      ReplaySplit(base + {a[0].key}, a[1..], b);
      ReplaySplit(base - {a[0].key}, a[1..], b);
    }
  }

  /** An action that the slave does not know ends the message: what stands behind it is not applied. */
  lemma {:induction false} UnknownActionEndsMessage(base: set<Key>, a: seq<Delta>, key: Key, b: seq<Delta>)
    ensures Replay(base, a + [Delta(key, Other)] + b) == Replay(base, a)
    decreases |a|
  {
    var all := a + [Delta(key, Other)] + b;
    if a != [] {
      assert all[0] == a[0] && all[1..] == a[1..] + [Delta(key, Other)] + b;
      UnknownActionEndsMessage(base + {a[0].key}, a[1..], key, b);
      UnknownActionEndsMessage(base - {a[0].key}, a[1..], key, b);
    }
  }

  /** Replaying asks only for each key's last action: earlier ones, and the base where there is one, are
      overridden, so replaying twice or over a base that already has the changes does no harm. */
  lemma {:induction false} ReplayIsLastAction(base: set<Key>, deltas: seq<Delta>, key: Key)
    requires Plain(deltas)
    ensures key in Replay(base, deltas) <==>
      match LastAction(deltas, key)
      case None => key in base
      case Some(action) => action == Rise
    decreases |deltas|
  {
    if deltas != [] {
      var n := |deltas| - 1;
      assert deltas == deltas[..n] + [deltas[n]] && deltas[n] in deltas;
      ReplaySplit(base, deltas[..n], [deltas[n]]);
      ReplayIsLastAction(base, deltas[..n], key);
      var before := Replay(base, deltas[..n]);
      assert Replay(before, [deltas[n]])
          == if deltas[n].action == Rise then before + {deltas[n].key} else before - {deltas[n].key};
    }
  }

  lemma ReplayTwice(base: set<Key>, deltas: seq<Delta>)
    requires Plain(deltas)
    ensures Replay(Replay(base, deltas), deltas) == Replay(base, deltas)
  {
    forall key ensures key in Replay(Replay(base, deltas), deltas) <==> key in Replay(base, deltas) {
      ReplayIsLastAction(base, deltas, key);
      ReplayIsLastAction(Replay(base, deltas), deltas, key);
    }
  }

  /** How the records are split over messages makes no difference. */
  lemma {:induction false} ReplayOfMessages(base: set<Key>, messages: seq<seq<Delta>>)
    requires Plain(Flatten(messages))
    ensures ReplayAll(base, messages) == Replay(base, Flatten(messages))
  {
    if messages != [] {
      var n := |messages| - 1;
      var a, b := Flatten(messages[..n]), messages[n];
      assert Plain(a) by { assert forall d :: d in a ==> d in Flatten(messages); }
      ReplayOfMessages(base, messages[..n]);
      ReplaySplit(base, a, b);
    }
  }

  // ----- the board -----

  datatype Board = Board(
    mySlot: nat,
    mainSlot: nat,
    slaveSlot: nat,
    role: Role,
    power: Power,
    delay: nat,
    queue: seq<Delta>,
    added: int)

  const BOOT := Board(0, 0, 0, NoRole, PowerInvalid, 0, [], 0)

  /** A board reported its boot state; `ha` is the role it reported for its own slot. */
  function OnBootState(b: Board, slot: nat, ha: Role, main: nat, slave: nat): Board {
    if b.mySlot == slot then
      if ha == Master && b.role == Slave then b.(role := Master, mainSlot := main, slaveSlot := slave)
      else if ha == Slave && b.role == Master then b.(role := Slave, mainSlot := main, slaveSlot := slave)
      else b
    else if b.mySlot == 0 then
      var c := b.(mySlot := slot, mainSlot := main, slaveSlot := slave);
      if slot != main then c.(role := Slave)
      else if slave != 0 then c.(role := Master, power := PowerNew, delay := SYNC_DELAY)
      else c.(role := Master)
    else if b.slaveSlot == slot then b
    else
      var c := b.(mainSlot := main, slaveSlot := slave);
      if b.mySlot == main then c.(role := Master, power := PowerNew, delay := SYNC_DELAY) else c.(role := Slave)
  }

  function OnSlotDelete(b: Board, slot: nat, slave: nat): Board {
    if slot == slave then b.(power := PowerInvalid, mainSlot := b.mySlot, slaveSlot := 0, role := Master) else b
  }

  /** The 30 s check on a shelf device. */
  function OnStatusCheck(b: Board, my: nat, main: nat, slave: nat): Board {
    b.(mySlot := my, mainSlot := main, role := if main == my then Master else Slave,
       slaveSlot := if b.power == PowerDone then slave else b.slaveSlot)
  }

  predicate Queues(b: Board) {
    b.role == Master && b.slaveSlot != 0 && b.power == PowerDone
  }

  function OnChange(b: Board, d: Delta, now: int): Board {
    if Queues(b) then b.(queue := b.queue + [d], added := if b.queue == [] then now else b.added) else b
  }

  /** After a message about the board's own slot it has the role that the message gives it, with the slots
      the message names if that is a change; a queue and a snapshot under way are left as they are. */
  lemma RoleAfterOwnBoot(b: Board, ha: Role, main: nat, slave: nat)
    ensures var c := OnBootState(b, b.mySlot, ha, main, slave);
      && (b.role != NoRole && ha != NoRole ==> c.role == ha)
      && (b.role == NoRole || ha == NoRole || ha == b.role ==> c == b)
      && (c.role != b.role ==> c.mainSlot == main && c.slaveSlot == slave)
      && c.mySlot == b.mySlot && c.power == b.power && c.delay == b.delay && c.queue == b.queue
  {
  }

  /** A board that learns its own slot, or hears of a slave other than the one it knows, is master exactly
      when it is the main board, and starts the countdown to a snapshot exactly when it is and has a slave. */
  lemma RoleAfterOtherBoot(b: Board, slot: nat, ha: Role, main: nat, slave: nat)
    requires b.mySlot != slot && (b.mySlot == 0 || b.slaveSlot != slot)
    ensures var c := OnBootState(b, slot, ha, main, slave);
      && c.mySlot == (if b.mySlot == 0 then slot else b.mySlot) && c.mainSlot == main && c.slaveSlot == slave
      && c.role == (if c.mySlot == main then Master else Slave) && c.queue == b.queue
      && (c.mySlot == main && (b.mySlot != 0 || slave != 0) ==> c.power == PowerNew && c.delay == 17)
      && (c.mySlot != main || (b.mySlot == 0 && slave == 0) ==> c.power == b.power && c.delay == b.delay)
  {
  }

  datatype Sent = Nothing | WholeTable | Changes(deltas: seq<Delta>)

  /** The 1 s timer. */
  function OnTick(b: Board, now: int): (Board, Sent) {
    if b.role != Master then (b, Nothing)
    else
      match b.power
      case PowerInvalid => (b.(queue := []), Nothing)
      case PowerNew =>
        var left := if b.delay == 0 then 0xFFFF_FFFF else b.delay - 1;
        if left == 1 then (b.(delay := left, power := PowerDone), WholeTable) else (b.(delay := left), Nothing)
      case PowerDone =>
        if b.queue != [] && now - b.added > CACHE_TIME then (b.(queue := []), Changes(b.queue)) else (b, Nothing)
  }

  // ----- two boards -----

  /** `master` and `slave` are the keys in the two tables. `stale` is proof-only: the keys on which the
      boards will still differ once the queue has been sent. */
  datatype System = System(board: Board, master: set<Key>, slave: set<Key>, stale: set<Key>)

  const START := System(BOOT, {}, {}, {})

  datatype Event =
    | Change(key: Key, now: int)  // the scan finds an alarm new, or gone
    | Tick(now: int)
    | BootState(slot: nat, ha: Role, main: nat, slave: nat)
    | SlotDelete(slot: nat, slave: nat)
    | StatusCheck(my: nat, main: nat, slave: nat)
    | SlaveRestart

  function Keys(deltas: seq<Delta>): set<Key> {
    set d | d in deltas :: d.key
  }

  /** The keys about which the queue, or the slave where the queue is silent, will contradict the master. */
  function StaleAt(master: set<Key>, slave: set<Key>, queue: seq<Delta>): set<Key> {
    set key | key in master + slave + Keys(queue) &&
      (match LastAction(queue, key)
       case None => (key in slave) != (key in master)
       case Some(action) => (action == Rise) != (key in master))
  }

  function Toggle(s: set<Key>, key: Key): set<Key> {
    if key in s then s - {key} else s + {key}
  }

  function Step(s: System, e: Event): System {
    match e
    case Change(key, now) =>
      var d := Delta(key, if key in s.master then Clean else Rise);
      System(OnChange(s.board, d, now), Toggle(s.master, key), s.slave,
             if Queues(s.board) then s.stale - {key} else Toggle(s.stale, key))
    case Tick(now) =>
      var (b, sent) := OnTick(s.board, now);
      (match sent
       case Nothing => s.(board := b)
       case WholeTable =>
         var slave := s.slave + s.master;
         System(b, s.master, slave, StaleAt(s.master, slave, b.queue))
       case Changes(deltas) => s.(board := b, slave := Replay(s.slave, deltas)))
    case BootState(slot, ha, main, slave) => s.(board := OnBootState(s.board, slot, ha, main, slave))
    case SlotDelete(slot, slave) => s.(board := OnSlotDelete(s.board, slot, slave))
    case StatusCheck(my, main, slave) => s.(board := OnStatusCheck(s.board, my, main, slave))
    case SlaveRestart => s.(slave := {}, stale := StaleAt(s.master, {}, s.board.queue))
  }

  /** After the queue has been replayed the boards differ on this key. */
  predicate Differs(s: System, key: Key) {
    (key in Replay(s.slave, s.board.queue)) != (key in s.master)
  }

  ghost predicate StaleIsExact(s: System) {
    && Plain(s.board.queue)
    && (s.board.power == PowerDone ==> forall key :: Differs(s, key) <==> key in s.stale)
  }

  lemma {:induction false} LastActionKnown(deltas: seq<Delta>, key: Key)
    ensures LastAction(deltas, key).Some? ==> key in Keys(deltas)
  {
    if deltas != [] {
      var n := |deltas| - 1;
      LastActionKnown(deltas[..n], key);
      assert deltas[n] in deltas;
      assert Keys(deltas[..n]) <= Keys(deltas);
    }
  }

  lemma StaleAtIsExact(master: set<Key>, slave: set<Key>, queue: seq<Delta>, key: Key)
    requires Plain(queue)
    ensures (key in Replay(slave, queue)) != (key in master) <==> key in StaleAt(master, slave, queue)
  {
    ReplayIsLastAction(slave, queue, key);
    LastActionKnown(queue, key);
  }

  lemma ChangeKeepsExact(s: System, key: Key, now: int)
    requires StaleIsExact(s)
    ensures StaleIsExact(Step(s, Change(key, now)))
  {
    var t := Step(s, Change(key, now));
    if Queues(s.board) {
      var d := Delta(key, if key in s.master then Clean else Rise);
      ReplaySplit(s.slave, s.board.queue, [d]);
      var before := Replay(s.slave, s.board.queue);
      assert Replay(before, [d]) == if d.action == Rise then before + {key} else before - {key};
    }
    if t.board.power == PowerDone {
      forall k ensures Differs(t, k) <==> k in t.stale {
        assert Differs(s, k) <==> k in s.stale;
      }
    }
  }

  lemma StepKeepsExact(s: System, e: Event)
    requires StaleIsExact(s)
    ensures StaleIsExact(Step(s, e))
  {
    var t := Step(s, e);
    match e
    case Change(key, now) => ChangeKeepsExact(s, key, now);
    case Tick(now) =>
      if OnTick(s.board, now).1 == WholeTable {
        forall key ensures Differs(t, key) <==> key in t.stale {
          StaleAtIsExact(s.master, s.slave + s.master, s.board.queue, key);
        }
      } else if t.board.power == PowerDone {
        forall key ensures Differs(t, key) <==> key in t.stale {
          assert Differs(s, key) <==> key in s.stale;
        }
      }
    case SlaveRestart =>
      forall key ensures Differs(t, key) <==> key in t.stale {
        StaleAtIsExact(s.master, {}, s.board.queue, key);
      }
    case _ =>
      forall key ensures Differs(t, key) <==> Differs(s, key) {
      }
  }

  function Run(events: seq<Event>): System {
    if events == [] then START else Step(Run(events[..|events| - 1]), events[|events| - 1])
  }

  /** Over every run: once the queued changes are replayed, master and slave differ on exactly the stale
      keys, which are those the last snapshot or restart left contradicted, less those changed since in
      a queued way, each unqueued change flipping its own. */
  lemma {:induction false} DivergenceIsExactlyStale(events: seq<Event>)
    ensures StaleIsExact(Run(events))
  {
    if events != [] {
      DivergenceIsExactlyStale(events[..|events| - 1]);
      StepKeepsExact(Run(events[..|events| - 1]), events[|events| - 1]);
    }
  }

  /** So with an empty queue the two tables have the same keys exactly when nothing is stale. */
  lemma TablesAgreeExactly(events: seq<Event>)
    requires Run(events).board.power == PowerDone && Run(events).board.queue == []
    ensures Run(events).slave == Run(events).master <==> Run(events).stale == {}
  {
    var s := Run(events);
    DivergenceIsExactlyStale(events);
    if s.slave == s.master {
      forall key ensures key !in s.stale { assert !Differs(s, key); }
    }
    if s.stale == {} {
      forall key ensures key in s.slave <==> key in s.master { assert !Differs(s, key); }
    }
  }

  // ----- the ordinary course: boot, snapshot, changes -----

  /** Alarms changing, time passing, and status checks that find this board the main one, with a slave. */
  predicate Steady(events: seq<Event>) {
    forall e :: e in events ==> e.Change? || e.Tick? || (e.StatusCheck? && e.main == e.my && e.slave != 0)
  }

  function StepAll(s: System, events: seq<Event>): System {
    if events == [] then s else Step(StepAll(s, events[..|events| - 1]), events[|events| - 1])
  }

  predicate Tracking(s: System) {
    && s.board.role == Master && s.board.slaveSlot != 0
    && (s.board.power == PowerNew ==> s.board.queue == [] && s.slave == {})
    && (s.board.power == PowerDone ==> s.stale == {})
    && s.board.power != PowerInvalid
  }

  /** Snapshot then overlapping replay converges: from the boot of an empty slave, with nothing left in
      the queue from before, the slave equals the master whenever the queue is empty, and replaying the
      queue makes it equal whenever it is not. */
  lemma {:induction false} SteadyConverges(s: System, events: seq<Event>)
    requires Steady(events) && StaleIsExact(s) && Tracking(s)
    ensures var t := StepAll(s, events);
      && StaleIsExact(t) && Tracking(t)
      && (t.board.power == PowerDone ==> Replay(t.slave, t.board.queue) == t.master)
      && (t.board.power == PowerDone && t.board.queue == [] ==> t.slave == t.master)
  {
    if events != [] {
      var n := |events| - 1;
      SteadyConverges(s, events[..n]);
      assert events[n] in events;
      StepKeepsExact(StepAll(s, events[..n]), events[n]);
    }
    var t := StepAll(s, events);
    if t.board.power == PowerDone {
      forall key ensures key in Replay(t.slave, t.board.queue) <==> key in t.master {
        assert !Differs(t, key);
      }
    }
  }

  // ----- when the changes are sent -----

  /** The records of the changes among the events, in order: an alarm that the master has by then is
      cleared, one that it has not rises. */
  function Changed(s: System, events: seq<Event>): seq<Delta> {
    if events == [] then []
    else
      var n := |events| - 1;
      var before := Changed(s, events[..n]);
      match events[n]
      case Change(key, _) => before + [Delta(key, if key in StepAll(s, events[..n]).master then Clean else Rise)]
      case _ => before
  }

  /** A master whose slave has been sent the snapshot. */
  predicate InOperation(s: System) {
    s.board.role == Master && s.board.slaveSlot != 0 && s.board.power == PowerDone
  }

  /** No tick among the events comes more than 3 seconds after `since`. */
  predicate TicksBy(events: seq<Event>, since: int) {
    forall e :: e in events && e.Tick? ==> e.now - since <= 3
  }

  lemma {:induction false} ChangedIsPlain(s: System, events: seq<Event>)
    ensures Plain(Changed(s, events))
    ensures events != [] && events[0].Change? ==> Changed(s, events) != []
  {
    if events != [] { ChangedIsPlain(s, events[..|events| - 1]); }
  }

  /** The records of the changes make of the keys that the master had those that it has now. */
  lemma {:induction false} ChangedReplays(s: System, events: seq<Event>)
    ensures Replay(s.master, Changed(s, events)) == StepAll(s, events).master
  {
    if events != [] {
      var n := |events| - 1;
      ChangedReplays(s, events[..n]);
      ChangedIsPlain(s, events[..n]);
      if events[n].Change? {
        var before, d := StepAll(s, events[..n]).master, Changed(s, events)[|Changed(s, events)| - 1];
        ReplaySplit(s.master, Changed(s, events[..n]), [d]);
        assert Replay(before, [d]) == if d.action == Rise then before + {d.key} else before - {d.key};
      }
    }
  }

  lemma {:induction false} ChangesAreQueued(s: System, since: int, events: seq<Event>)
    requires InOperation(s) && s.board.queue == [] && Steady(events)
    requires events != [] && events[0].Change? && events[0].now == since && TicksBy(events, since)
    ensures var t := StepAll(s, events);
      && InOperation(t) && t.slave == s.slave && t.board.queue == Changed(s, events) && t.board.added == since
  {
    var n := |events| - 1;
    assert events[n] in events;
    ChangedIsPlain(s, events[..n]);
    if n == 0 {
      assert StepAll(s, events[..n]) == s;
    } else {
      ChangesAreQueued(s, since, events[..n]);
    }
  }

  /** A change is queued exactly by a master that has a slave and has sent it the snapshot; otherwise the
      slave never hears of it, unless a snapshot follows. */
  lemma ChangeQueuedExactly(s: System, key: Key, now: int)
    ensures var t := Step(s, Change(key, now));
      && t.master == (if key in s.master then s.master - {key} else s.master + {key}) && t.slave == s.slave
      && t.board.queue == s.board.queue +
           (if s.board.role == Master && s.board.slaveSlot != 0 && s.board.power == PowerDone
            then [Delta(key, if key in s.master then Clean else Rise)] else [])
      && t.board.(queue := s.board.queue, added := s.board.added) == s.board
  {
  }

  /** A board that is not master neither queues nor sends nor counts down. */
  lemma OnlyMasterActs(s: System, key: Key, now: int)
    requires s.board.role != Master
    ensures Step(s, Tick(now)) == s
    ensures Step(s, Change(key, now)).board == s.board && Step(s, Change(key, now)).slave == s.slave
  {
  }

  /** With its slave taken out a board stands alone as master: whatever is left in the queue goes at the next
      tick, nothing is sent, and no change is queued before another slave has been sent its snapshot. */
  lemma SlaveTakenOut(s: System, slot: nat, key: Key, now: int)
    ensures var t := Step(s, SlotDelete(slot, slot)); var u := Step(t, Tick(now));
      && t.board.role == Master && t.board.mainSlot == s.board.mySlot && t.board.slaveSlot == 0
      && u.board.queue == [] && u.slave == s.slave && u.master == s.master
      && Step(u, Change(key, now)).board == u.board
  {
  }

  /** Another board's removal changes nothing; and a status check makes the board master exactly when it is
      the main one, taking on a slave only once a snapshot has been sent to one. */
  lemma StatusDecidesRole(s: System, my: nat, main: nat, slave: nat)
    ensures slave != my ==> Step(s, SlotDelete(my, slave)) == s
    ensures var t := Step(s, StatusCheck(my, main, slave));
      && (t.board.role == Master <==> main == my) && (t.board.role == Slave <==> main != my)
      && t.board.mySlot == my && t.board.mainSlot == main
      && t.board.slaveSlot == (if s.board.power == PowerDone then slave else s.board.slaveSlot)
      && t == s.(board := s.board.(mySlot := my, mainSlot := main,
                                   role := t.board.role, slaveSlot := t.board.slaveSlot))
  {
  }

  /** With nothing queued, the first change opens a batch. Whatever changes, ticks and status checks follow,
      nothing is sent as long as 3 seconds have not gone by since that first one; the first tick after that
      sends every change so far, in order, and leaves the slave with the master's keys if it had them when
      the batch began. */
  lemma ChangesSentExactlyWhenDue(s: System, events: seq<Event>, now: int)
    requires InOperation(s) && s.board.queue == [] && Steady(events)
    requires events != [] && events[0].Change? && TicksBy(events, events[0].now)
    ensures var mid := StepAll(s, events); var end := Step(mid, Tick(now));
      && mid.slave == s.slave && mid.board.queue == Changed(s, events) && end.master == mid.master
      && (now - events[0].now <= 3 ==> end == mid)
      && (now - events[0].now > 3 ==>
            && end.board.queue == [] && end.slave == Replay(s.slave, Changed(s, events))
            && (s.slave == s.master ==> end.slave == end.master))
  {
    ChangesAreQueued(s, events[0].now, events);
    ChangedIsPlain(s, events);
    ChangedReplays(s, events);
  }

  // ----- a queue from before -----

  /** A queue that outlived the slave it was meant for is not cleared by the boot of the next one unless a
      tick came in between, and is replayed over the snapshot: the result is right exactly when every
      key in the queue last changed to what the master now has. */
  lemma LeftoverQueueConvergesExactly(s: System, now: int)
    requires s.board.role == Master && s.board.power == PowerNew && s.board.delay == 2
    requires Plain(s.board.queue) && s.slave == {}
    ensures var t := Step(s, Tick(now));
      && t.board.power == PowerDone && t.slave == s.master
      && (Replay(t.slave, t.board.queue) == s.master <==>
            forall key :: key in Keys(s.board.queue) ==>
              && LastAction(s.board.queue, key).Some?
               && (LastAction(s.board.queue, key).value == Rise <==> key in s.master))
  {
    var t := Step(s, Tick(now));
    forall key
      ensures key in Keys(s.board.queue) ==> LastAction(s.board.queue, key).Some?
      ensures key !in Keys(s.board.queue) ==> LastAction(s.board.queue, key) == None
      ensures key in Replay(t.slave, t.board.queue) <==>
        match LastAction(s.board.queue, key)
        case None => key in s.master
        case Some(action) => action == Rise
    {
      ReplayIsLastAction(t.slave, s.board.queue, key);
      LastActionKnown(s.board.queue, key);
      KnownLastAction(s.board.queue, key);
    }
  }

  lemma {:induction false} KnownLastAction(deltas: seq<Delta>, key: Key)
    ensures key in Keys(deltas) ==> LastAction(deltas, key).Some?
  {
    if deltas != [] {
      var n := |deltas| - 1;
      KnownLastAction(deltas[..n], key);
      assert forall d :: d in deltas <==> d in deltas[..n] || d == deltas[n];
    }
  }

  /** A slave that restarts in the slot the master knows it by goes unnoticed: its boot state changes
      nothing, and everything on the master that is not queued is stale from then on. */
  lemma KnownSlaveRestartUnnoticed(s: System, ha: Role, main: nat, key: Key)
    requires StaleIsExact(s) && s.board.mySlot != 0 && s.board.slaveSlot != s.board.mySlot
    ensures Step(s, BootState(s.board.slaveSlot, ha, main, s.board.slaveSlot)) == s
    ensures key in s.master && key !in Keys(s.board.queue) ==> key in Step(s, SlaveRestart).stale
  {
    LastActionKnown(s.board.queue, key);
  }

  /** The queue does not grow while a new slave is waited for, and a tick without a slave empties it. */
  lemma NothingQueuedBeforeSnapshot(s: System, e: Event)
    requires s.board.power != PowerDone
    ensures Step(s, e).board.queue == s.board.queue || Step(s, e).board.queue == []
    ensures e.Tick? && s.board.role == Master && s.board.power == PowerInvalid ==> Step(s, e).board.queue == []
  {
  }

  function Waiting(s: System, nows: seq<int>): System {
    if nows == [] then s else Step(Waiting(s, nows[..|nows| - 1]), Tick(nows[|nows| - 1]))
  }

  /** The snapshot goes out at exactly the 16th tick after the boot. */
  lemma {:induction false} SnapshotAtSixteenthTick(s: System, nows: seq<int>)
    requires s.board.role == Master && s.board.power == PowerNew && s.board.delay == SYNC_DELAY
    requires |nows| <= 16
    ensures var t := Waiting(s, nows);
      && t.board.role == Master
      && (|nows| < 16 ==>
            t == s.(board := s.board.(delay := SYNC_DELAY - |nows|)))
      && (|nows| == 16 ==>
            && t.board == s.board.(delay := 1, power := PowerDone)
            && t.master == s.master && t.slave == s.slave + s.master)
  {
    if nows != [] { SnapshotAtSixteenthTick(s, nows[..|nows| - 1]); }
  }

  /** Such a run exists from the start: the slave is pulled and replaced within one tick while a rise is
      queued, the alarm clears before the snapshot, and the new slave ends up with an alarm that the
      master has not. */
  lemma LeftoverQueueDiverges(key: Key, first: seq<int>, second: seq<int>)
    requires |first| == |second| == 16
    ensures var synced := Waiting(Step(START, BootState(1, NoRole, 1, 2)), first);
      var replaced := Step(Step(Step(synced, Change(key, 0)), SlotDelete(2, 2)), BootState(3, Slave, 1, 3));
      var again := Waiting(Step(Step(replaced, SlaveRestart), Change(key, 0)), second);
      var end := Step(again, Tick(CACHE_TIME + 1));
      && again.board.power == PowerDone && again.slave == again.master == {}
      && end.board.queue == [] && end.slave == {key} && end.master == {}
  {
    var queue := [Delta(key, Rise)];
    var synced := Waiting(Step(START, BootState(1, NoRole, 1, 2)), first);
    SnapshotAtSixteenthTick(Step(START, BootState(1, NoRole, 1, 2)), first);
    assert synced.board == Board(1, 1, 2, Master, PowerDone, 1, [], 0);
    var replaced := Step(Step(Step(synced, Change(key, 0)), SlotDelete(2, 2)), BootState(3, Slave, 1, 3));
    assert replaced.board == Board(1, 1, 3, Master, PowerNew, SYNC_DELAY, queue, 0);
    LeftoverQueueReplayed(replaced, key, second);
  }

  lemma LeftoverQueueReplayed(replaced: System, key: Key, second: seq<int>)
    requires replaced.board == Board(1, 1, 3, Master, PowerNew, SYNC_DELAY, [Delta(key, Rise)], 0)
    requires replaced.master == {key} && |second| == 16
    ensures var again := Waiting(Step(Step(replaced, SlaveRestart), Change(key, 0)), second);
      var end := Step(again, Tick(CACHE_TIME + 1));
      && again.board.power == PowerDone && again.slave == again.master == {}
      && end.board.queue == [] && end.slave == {key} && end.master == {}
  {
    SnapshotAtSixteenthTick(Step(Step(replaced, SlaveRestart), Change(key, 0)), second);
    assert [Delta(key, Rise)][1..] == [];
    assert Replay({}, [Delta(key, Rise)]) == {key};
  }
}
