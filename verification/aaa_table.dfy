/** The daemon's tables, and what each message and timer does to them (aaa_msg_handle.c). */
module AaaTable {
  import opened AaaTypes
  import opened AaaSession
  import opened IdAllocator
  import AaaOnline

  /** `authing` is keyed by id and scanned in ascending id order: the hash table keeps one id per
      bucket. `live` is the set of numbers that the online id buffer has given out. `logins`, proof-only,
      counts the logins taken so far. */
  datatype State = State(
    authing: map<nat, Authing>,
    online: seq<Online>,
    live: set<nat>,
    timers: Timers,
    logins: nat)

  const START := State(map[], [], {}, Timers(0, 0, 0, 0, 0), 0)

  // ----- admission -----

  function Count(online: seq<Online>, user: string, m: Method): nat {
    if online == [] then 0
    else
      var last := online[|online| - 1];
      Count(online[..|online| - 1], user, m) + if last.user == user && last.logMethod == m then 1 else 0
  }

  lemma {:induction false} CountSplit(a: seq<Online>, b: seq<Online>, user: string, m: Method)
    ensures Count(a + b, user, m) == Count(a, user, m) + Count(b, user, m)
  {
    if b == [] {
      assert a + b == a;
    } else {
      var n := |b| - 1;
      assert (a + b)[..|a + b| - 1] == a + b[..n];
      CountSplit(a, b[..n], user, m);
    }
  }

  function SessionsOf(online: seq<Online>, user: string, m: Method): set<nat> {
    set k: nat | k < |online| && online[k].user == user && online[k].logMethod == m
  }

  /** Which is the number of the user's sessions under the method. */
  lemma {:induction false} CountIsSessions(online: seq<Online>, user: string, m: Method)
    ensures Count(online, user, m) == |SessionsOf(online, user, m)|
  {
    if online != [] {
      var n := |online| - 1;
      CountIsSessions(online[..n], user, m);
      var before := SessionsOf(online[..n], user, m);
      if online[n].user == user && online[n].logMethod == m {
        assert SessionsOf(online, user, m) == before + {n} && n !in before;
      } else {
        assert SessionsOf(online, user, m) == before;
      }
    }
  }

  function LoginRepeated(cfg: Config, online: seq<Online>, user: string, m: Method): bool {
    match m
    case Radius | Tacacs => Count(online, user, m) > 0
    case Local => user in cfg.localUsers && Count(online, user, m) + 1 > cfg.localUsers[user].maxRepeat
    case _ => false
  }

  function NewOnline(cfg: Config, p: Authing, id: nat, m: Method): Online {
    Online(id, p.user, p.password, m, cfg.aliveMax, cfg.rspTimeout, RADIUS_ACCT_TIMEOUT, false, 0,
           cfg.tacUpdate, 0, false, false, p.history)
  }

  function Remove(authing: map<nat, Authing>, id: nat): map<nat, Authing> {
    map k | k in authing && k != id :: authing[k]
  }

  /** Moves a settled login over; the id stays allocated when the terminal does not acknowledge, and a
      full table refuses the session. */
  function Admit(cfg: Config, s: State, p: Authing, m: Method, ack: bool): State {
    var n := SmallestFree(s.live, 1, TABLE_MAX);
    var session := NewOnline(cfg, p, Tagged(MethodCode(m), n), m);
    s.(live := if n == 0 then s.live else s.live + {n},
       online := if ack && |s.online| < TABLE_MAX then s.online + [session] else s.online)
  }

  // ----- the 200 ms timer -----

  datatype Visit = Visit(state: State, stop: bool)

  /** One entry of the authing table; a repeated login ends the scan. */
  function VisitLogin(cfg: Config, s: State, id: nat, ack: bool): Visit
    requires id in s.authing ==> 1 <= s.authing[id].order <= 4
  {
    if id !in s.authing then Visit(s, false)
    else
      var p := s.authing[id];
      var m := Selected(cfg, p);
      if LoginRepeated(cfg, s.online, p.user, m) then Visit(s.(authing := Remove(s.authing, id)), true)
      else
        var (q, u) := Check(cfg, p, s.timers);
        match VerdictOf(cfg, q)
        case Pending => Visit(s.(authing := s.authing[id := q], timers := u), false)
        case Rejected => Visit(s.(authing := Remove(s.authing, id), timers := u), false)
        case Admitted =>
          var t := s.(authing := Remove(s.authing, id), timers := u);
          Visit(Admit(cfg, t, q, m, ack), false)
  }

  predicate OrdersInRange(s: State) {
    forall id :: id in s.authing ==> 1 <= s.authing[id].order <= 4
  }

  /** The scan from `id` on. A login that leaves the list is settled in the same visit, so the list
      is never read beyond its fourth entry. */
  function Scan(cfg: Config, s: State, acks: set<nat>, id: nat): State
    requires OrdersInRange(s)
    decreases TABLE_MAX + 1 - id, |s.authing|
  {
    if id > TABLE_MAX then s
    else
      var v := VisitLogin(cfg, s, id, id in acks);
      VisitKeepsOrders(cfg, s, id, id in acks);
      if v.stop then v.state else Scan(cfg, v.state, acks, id + 1)
  }

  lemma CheckKeepsOrder(cfg: Config, p: Authing, t: Timers)
    requires 1 <= p.order <= 4
    ensures var q := Check(cfg, p, t).0; VerdictOf(cfg, q) == Pending ==> 1 <= q.order <= 4
  {
  }

  lemma VisitKeepsOrders(cfg: Config, s: State, id: nat, ack: bool)
    requires OrdersInRange(s)
    ensures OrdersInRange(VisitLogin(cfg, s, id, ack).state)
  {
    if id in s.authing { CheckKeepsOrder(cfg, s.authing[id], s.timers); }
  }

  lemma {:induction false} ScanKeepsOrders(cfg: Config, s: State, acks: set<nat>, id: nat)
    requires OrdersInRange(s)
    ensures OrdersInRange(Scan(cfg, s, acks, id))
    ensures s.authing == map[] ==> Scan(cfg, s, acks, id) == s
    decreases TABLE_MAX + 1 - id
  {
    if id <= TABLE_MAX {
      VisitKeepsOrders(cfg, s, id, id in acks);
      if !VisitLogin(cfg, s, id, id in acks).stop {
        ScanKeepsOrders(cfg, VisitLogin(cfg, s, id, id in acks).state, acks, id + 1);
      }
    }
  }

  /** One turn of the scan. */
  lemma ScanNext(cfg: Config, s: State, acks: set<nat>, id: nat)
    requires OrdersInRange(s) && id <= TABLE_MAX
    ensures var v := VisitLogin(cfg, s, id, id in acks);
      OrdersInRange(v.state) && Scan(cfg, s, acks, id) == if v.stop then v.state else Scan(cfg, v.state, acks, id + 1)
  {
    VisitKeepsOrders(cfg, s, id, id in acks);
  }

  lemma ScanOver(cfg: Config, s: State, acks: set<nat>, id: nat)
    requires OrdersInRange(s) && id > TABLE_MAX
    ensures Scan(cfg, s, acks, id) == s
  {
  }

  // ----- the 1 s timer -----

  /** Deletes the session at position k and frees its id. */
  function Drop(s: State, k: nat): State
    requires k < |s.online|
  {
    s.(online := s.online[..k] + s.online[k + 1..], live := s.live - {Number(s.online[k].id)})
  }

  datatype Ticked = Ticked(state: State, next: nat)

  /** The timer at position k, and where it goes on. */
  function TickedAt(cfg: Config, s: State, k: nat): (t: Ticked)
    requires k < |s.online|
    ensures k <= t.next <= |t.state.online| && |t.state.online| - t.next == |s.online| - k - 1
  {
    match AaaOnline.Tick(cfg, s.online[k])
    case Keep(o) => Ticked(s.(online := s.online[k := o]), k + 1)
    case Evict(_) => Ticked(Drop(s, k), k)
  }

  /** The scan of the online table from position k on. */
  function OnlineScan(cfg: Config, s: State, k: nat): State
    requires k <= |s.online|
    decreases |s.online| - k
  {
    if k == |s.online| then s
    else
      var t := TickedAt(cfg, s, k);
      OnlineScan(cfg, t.state, t.next)
  }

  // ----- messages -----

  function NewAuthing(cfg: Config, user: string, password: string, serial: nat): Authing {
    Authing(user, password, 1, false, AuthenInvalid, cfg.retryTimes % 256, cfg.retryTimes % 256,
            TAC_RSP_TIMEOUT, TAC_RSP_TIMEOUT, TAC_RSP_TIMEOUT, History(serial, {}, []))
  }

  function Login(cfg: Config, s: State, user: string, password: string): State {
    if user == "" || |s.online| >= cfg.loginMax then s
    else
      var id := SmallestFree(s.authing.Keys, 1, TABLE_MAX);
      if id == 0 then s
      else s.(authing := s.authing[id := NewAuthing(cfg, user, password, s.logins)], logins := s.logins + 1)
  }

  /** The position of the session with this id; the newest one where the id is not unique. */
  function Find(online: seq<Online>, id: nat): (k: nat)
    ensures k <= |online|
    ensures k < |online| ==> online[k].id == id
    ensures k >= |online| ==> forall i :: 0 <= i < |online| ==> online[i].id != id
  {
    if online == [] then 0
    else if online[|online| - 1].id == id then |online| - 1
    else var k := Find(online[..|online| - 1], id); if k == |online| - 1 then |online| else k
  }

  datatype Event =
    | LoginRequest(user: string, password: string)
    | LoginExit(id: nat)
    | EchoRequest(id: nat, idle: nat)
    | TerminalReset
    | ServerReply(login: nat, reply: Reply)
    | AcctReply(id: nat)
    | AuthTick(acks: set<nat>)
    | OnlineTick

  function Step(cfg: Config, s: State, e: Event): State
    requires OrdersInRange(s)
  {
    match e
    case LoginRequest(user, password) => Login(cfg, s, user, password)
    case LoginExit(id) =>
      var k := Find(s.online, id);
      if k < |s.online| then Drop(s, k) else s
    case EchoRequest(id, idle) =>
      var k := Find(s.online, id);
      if k >= |s.online| then s
      else if cfg.idleMax != 0 && idle >= cfg.idleMax then Drop(s, k)
      else s.(online := s.online[k := AaaOnline.Echo(cfg, s.online[k])])
    case TerminalReset =>
      s.(authing := map[], online := [], live := s.live - (set i | 0 <= i < |s.online| :: Number(s.online[i].id)))
    case ServerReply(login, reply) =>
      if login in s.authing
      then s.(authing := s.authing[login := ApplyReply(s.authing[login], reply)])
      else s
    case AcctReply(id) =>
      var k := Find(s.online, id);
      if k < |s.online| then s.(online := s.online[k := AaaOnline.AcctResponse(cfg, s.online[k])]) else s
    case AuthTick(acks) => Scan(cfg, s, acks, 1)
    case OnlineTick => OnlineScan(cfg, s, 0)
  }
}
