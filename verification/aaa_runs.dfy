/** What holds over whole runs of the daemon: who is online and why, and that logins get settled. */
module AaaRuns {
  import opened AaaTypes
  import opened AaaSession
  import opened AaaTable
  import opened IdAllocator
  import AaaOnline

  // ----- invariant of the tables -----

  /** How many online sessions the login check allows one user under one method. */
  predicate WithinLimit(cfg: Config, online: seq<Online>, user: string, m: Method) {
    match m
    case Radius | Tacacs => Count(online, user, m) <= 1
    case Local =>
      Count(online, user, m) <= (if user in cfg.localUsers && cfg.localUsers[user].maxRepeat > 0
                                 then cfg.localUsers[user].maxRepeat else 0)
    case _ => true
  }

  /** The list has the session's method, and a method that needs no server let the user in itself. */
  predicate SessionLocal(cfg: Config, o: Online) {
    match o.logMethod
    case Local => PasswordAccepted(cfg, o.user, o.password)
    case Radius | Tacacs | NoAuth =>
      o.user != SUPER_USER && exists i | 1 <= i <= 4 :: GetAuthOrder(cfg, i) == o.logMethod
    case Invalid | Unknown => false
  }

  /** The id of an online session names its method, and its number is allocated and its own; id 0 is
      what the allocator gives when it has run out. */
  predicate IdsInOrder(online: seq<Online>, live: set<nat>) {
    && (forall i :: 0 <= i < |online| && online[i].id != 0 ==>
          && Number(online[i].id) in live
          && TagOf(online[i].id) == MethodCode(online[i].logMethod))
    && (forall i, j :: 0 <= i < j < |online| && online[i].id != 0 ==> Number(online[i].id) != Number(online[j].id))
  }

  /** No login is in the tables twice: not as two pending ones, not as two sessions, not as both. */
  ghost predicate SerialsDistinct(s: State) {
    && (forall id :: id in s.authing ==> s.authing[id].history.serial < s.logins)
    && (forall o :: o in s.online ==> o.history.serial < s.logins)
    && (forall i, j :: i in s.authing && j in s.authing && i != j ==>
          s.authing[i].history.serial != s.authing[j].history.serial)
    && (forall i, k :: i in s.authing && 0 <= k < |s.online| ==>
          s.authing[i].history.serial != s.online[k].history.serial)
    && (forall i, j :: 0 <= i < j < |s.online| ==> s.online[i].history.serial != s.online[j].history.serial)
  }

  predicate EntryInv(p: Authing) { 1 <= p.order <= 4 && !p.finished }

  /** Holds between events, whatever answers come. */
  ghost predicate TableInv(cfg: Config, s: State) {
    && (forall id :: id in s.authing ==> 1 <= id <= TABLE_MAX && EntryInv(s.authing[id]))
    && (forall o :: o in s.online ==> SessionLocal(cfg, o))
    && (forall user, m :: WithinLimit(cfg, s.online, user, m))
    && IdsInOrder(s.online, s.live)
    && (forall n :: n in s.live ==> 1 <= n <= TABLE_MAX)
    && |s.online| <= TABLE_MAX
    && SerialsDistinct(s)
  }

  // ----- counting -----

  lemma CountDrop(online: seq<Online>, k: nat, user: string, m: Method)
    requires k < |online|
    ensures Count(online[..k] + online[k + 1..], user, m) <= Count(online, user, m)
  {
    assert online == online[..k] + ([online[k]] + online[k + 1..]);
    CountSplit(online[..k], [online[k]] + online[k + 1..], user, m);
    CountSplit([online[k]], online[k + 1..], user, m);
    CountSplit(online[..k], online[k + 1..], user, m);
  }

  lemma CountUpdate(online: seq<Online>, k: nat, o: Online, user: string, m: Method)
    requires k < |online| && o.user == online[k].user && o.logMethod == online[k].logMethod
    ensures Count(online[k := o], user, m) == Count(online, user, m)
  {
    assert online == online[..k] + ([online[k]] + online[k + 1..]);
    assert online[k := o] == online[..k] + ([o] + online[k + 1..]);
    CountSplit(online[..k], [online[k]] + online[k + 1..], user, m);
    CountSplit(online[..k], [o] + online[k + 1..], user, m);
    CountSplit([online[k]], online[k + 1..], user, m);
    CountSplit([o], online[k + 1..], user, m);
    assert Count([o], user, m) == Count([], user, m) + (if o.user == user && o.logMethod == m then 1 else 0);
    assert Count([online[k]], user, m)
        == Count([], user, m) + (if online[k].user == user && online[k].logMethod == m then 1 else 0);
  }

  // ----- every step keeps the invariant -----

  lemma DropKeepsIds(s: State, k: nat)
    requires k < |s.online| && forall n :: n in s.live ==> 1 <= n <= TABLE_MAX
    ensures IdsInOrder(s.online, s.live) ==> IdsInOrder(Drop(s, k).online, Drop(s, k).live)
    ensures SerialsDistinct(s) ==> SerialsDistinct(Drop(s, k))
  {
    var t := Drop(s, k);
    forall i | 0 <= i < |t.online|
      ensures t.online[i] == s.online[if i < k then i else i + 1]
    {
    }
  }

  lemma DropKeeps(cfg: Config, s: State, k: nat)
    requires TableInv(cfg, s) && k < |s.online|
    ensures TableInv(cfg, Drop(s, k))
  {
    var t := Drop(s, k);
    DropKeepsIds(s, k);
    forall user, m ensures WithinLimit(cfg, t.online, user, m) {
      assert WithinLimit(cfg, s.online, user, m);
      CountDrop(s.online, k, user, m);
    }
  }

  lemma UpdateKeeps(cfg: Config, s: State, k: nat, o: Online)
    requires TableInv(cfg, s) && k < |s.online|
    requires var p := s.online[k];
      && o.id == p.id && o.user == p.user && o.password == p.password
      && o.logMethod == p.logMethod && o.history == p.history
    ensures TableInv(cfg, s.(online := s.online[k := o]))
  {
    var t := s.online[k := o];
    forall user, m ensures WithinLimit(cfg, t, user, m) {
      assert WithinLimit(cfg, s.online, user, m);
      CountUpdate(s.online, k, o, user, m);
    }
    forall x | x in t ensures SessionLocal(cfg, x) {
      assert SessionLocal(cfg, s.online[k]);
    }
  }

  lemma AdmitKeepsLimits(cfg: Config, s: State, p: Authing, m: Method, ack: bool, user: string, m': Method)
    requires WithinLimit(cfg, s.online, user, m')
    requires user == p.user && m' == m ==> !LoginRepeated(cfg, s.online, p.user, m)
    requires m == Local ==> p.user in cfg.localUsers
    ensures WithinLimit(cfg, Admit(cfg, s, p, m, ack).online, user, m')
  {
    var t := Admit(cfg, s, p, m, ack);
    if t.online != s.online { assert t.online[..|t.online| - 1] == s.online; }
  }

  lemma AdmitKeepsIds(cfg: Config, s: State, p: Authing, m: Method, ack: bool)
    requires IdsInOrder(s.online, s.live) && forall n :: n in s.live ==> 1 <= n <= TABLE_MAX
    ensures IdsInOrder(Admit(cfg, s, p, m, ack).online, Admit(cfg, s, p, m, ack).live)
  {
    var n := SmallestFree(s.live, 1, TABLE_MAX);
    if n != 0 { TagReadsBack(MethodCode(m), n); }
  }

  lemma AdmitKeeps(cfg: Config, s: State, p: Authing, m: Method, ack: bool)
    requires TableInv(cfg, s) && !LoginRepeated(cfg, s.online, p.user, m)
    requires forall id :: SessionLocal(cfg, NewOnline(cfg, p, id, m))
    requires p.history.serial < s.logins
    requires forall i :: i in s.authing ==> s.authing[i].history.serial != p.history.serial
    requires forall o :: o in s.online ==> o.history.serial != p.history.serial
    ensures TableInv(cfg, Admit(cfg, s, p, m, ack))
  {
    var t := Admit(cfg, s, p, m, ack);
    var id := Tagged(MethodCode(m), SmallestFree(s.live, 1, TABLE_MAX));
    assert SessionLocal(cfg, NewOnline(cfg, p, id, m));
    forall user, m' ensures WithinLimit(cfg, t.online, user, m') {
      AdmitKeepsLimits(cfg, s, p, m, ack, user, m');
    }
    AdmitKeepsIds(cfg, s, p, m, ack);
  }

  /** A check changes neither who logs in nor the login's number, and admits only where the list says. */
  predicate SameLogin(p: Authing, q: Authing) {
    q.user == p.user && q.password == p.password && q.history.serial == p.history.serial
  }

  lemma CheckKeepsLogin(cfg: Config, p: Authing, t: Timers)
    requires EntryInv(p)
    ensures var q := Check(cfg, p, t).0;
      && SameLogin(p, q)
      && q.history.replies == p.history.replies
      && (VerdictOf(cfg, q) == Pending ==> EntryInv(q))
      && (VerdictOf(cfg, q) == Admitted ==> forall id :: SessionLocal(cfg, NewOnline(cfg, q, id, Selected(cfg, p))))
  {
    CheckKeepsOrder(cfg, p, t);
    if Selected(cfg, p) == Tacacs { TacacsKeepsLogin(cfg, p, t); }
  }

  predicate KeepsReplies(p: Authing, q: Authing) {
    SameLogin(p, q) && q.history.replies == p.history.replies
  }

  lemma TacacsAuthorizedKeepsLogin(cfg: Config, p: Authing, t: Timers)
    ensures KeepsReplies(p, TacacsAuthorized(cfg, p, t).0) && KeepsReplies(p, TacacsAuthorizing(cfg, p, t).0)
  {
  }

  lemma TacacsKeepsLogin(cfg: Config, p: Authing, t: Timers)
    ensures KeepsReplies(p, TacacsStep(cfg, p, t).0)
  {
    TacacsAuthorizedKeepsLogin(cfg, p, t);
    assert KeepsReplies(p, TacacsAuthenticating(p, t).0);
  }

  lemma VisitKeeps(cfg: Config, s: State, id: nat, ack: bool)
    requires TableInv(cfg, s)
    ensures TableInv(cfg, VisitLogin(cfg, s, id, ack).state)
  {
    if id in s.authing {
      var p := s.authing[id];
      var m := Selected(cfg, p);
      if !LoginRepeated(cfg, s.online, p.user, m) {
        var (q, u) := Check(cfg, p, s.timers);
        CheckKeepsLogin(cfg, p, s.timers);
        if VerdictOf(cfg, q) == Admitted {
          var t := s.(authing := Remove(s.authing, id), timers := u);
          assert TableInv(cfg, t);
          AdmitKeeps(cfg, t, q, m, ack);
        }
      }
    }
  }

  lemma {:induction false} ScanKeeps(cfg: Config, s: State, acks: set<nat>, id: nat)
    requires TableInv(cfg, s)
    ensures TableInv(cfg, Scan(cfg, s, acks, id))
    decreases TABLE_MAX + 1 - id
  {
    if id <= TABLE_MAX {
      VisitKeeps(cfg, s, id, id in acks);
      ScanKeeps(cfg, VisitLogin(cfg, s, id, id in acks).state, acks, id + 1);
    }
  }

  lemma {:induction false} OnlineScanKeeps(cfg: Config, s: State, k: nat)
    requires TableInv(cfg, s) && k <= |s.online|
    ensures TableInv(cfg, OnlineScan(cfg, s, k))
    decreases |s.online| - k
  {
    if k < |s.online| {
      match AaaOnline.Tick(cfg, s.online[k])
      case Keep(o) =>
        UpdateKeeps(cfg, s, k, o);
        OnlineScanKeeps(cfg, s.(online := s.online[k := o]), k + 1);
      case Evict(_) =>
        DropKeeps(cfg, s, k);
        OnlineScanKeeps(cfg, Drop(s, k), k);
    }
  }

  lemma StepKeeps(cfg: Config, s: State, e: Event)
    requires TableInv(cfg, s)
    ensures TableInv(cfg, Step(cfg, s, e))
  {
    match e
    case LoginRequest(user, password) => LoginKeeps(cfg, s, user, password);
    case LoginExit(id) =>
      var k := Find(s.online, id);
      if k < |s.online| { DropKeeps(cfg, s, k); }
    case EchoRequest(id, idle) =>
      var k := Find(s.online, id);
      if k < |s.online| {
        DropKeeps(cfg, s, k);
        UpdateKeeps(cfg, s, k, AaaOnline.Echo(cfg, s.online[k]));
      }
    case TerminalReset => ResetKeeps(cfg, s);
    case ServerReply(login, reply) => ReplyKeeps(cfg, s, login, reply);
    case AcctReply(id) =>
      var k := Find(s.online, id);
      if k < |s.online| { UpdateKeeps(cfg, s, k, AaaOnline.AcctResponse(cfg, s.online[k])); }
    case AuthTick(acks) => ScanKeeps(cfg, s, acks, 1);
    case OnlineTick => OnlineScanKeeps(cfg, s, 0);
  }

  lemma ResetKeeps(cfg: Config, s: State)
    requires TableInv(cfg, s)
    ensures TableInv(cfg, Step(cfg, s, TerminalReset))
  {
  }

  lemma ReplyKeeps(cfg: Config, s: State, login: nat, reply: Reply)
    requires TableInv(cfg, s)
    ensures TableInv(cfg, Step(cfg, s, ServerReply(login, reply)))
  {
  }

  lemma LoginKeeps(cfg: Config, s: State, user: string, password: string)
    requires TableInv(cfg, s)
    ensures TableInv(cfg, Login(cfg, s, user, password))
  {
  }

  // ----- runs -----

  lemma {:induction false} OnlineScanKeepsAuthing(cfg: Config, s: State, k: nat)
    requires k <= |s.online|
    ensures var t := OnlineScan(cfg, s, k); t.authing == s.authing && t.timers == s.timers && t.logins == s.logins
    decreases |s.online| - k
  {
    if k < |s.online| {
      var t := TickedAt(cfg, s, k);
      OnlineScanKeepsAuthing(cfg, t.state, t.next);
    }
  }

  lemma StepKeepsOrders(cfg: Config, s: State, e: Event)
    requires OrdersInRange(s)
    ensures OrdersInRange(Step(cfg, s, e))
  {
    match e
    case AuthTick(acks) => ScanKeepsOrders(cfg, s, acks, 1);
    case OnlineTick => OnlineScanKeepsAuthing(cfg, s, 0);
    case _ =>
  }

  /** The state after these events, from the start, whatever they are. */
  ghost function Run(cfg: Config, events: seq<Event>): (s: State)
    ensures OrdersInRange(s)
  {
    if events == [] then START
    else
      var s := Run(cfg, events[..|events| - 1]);
      StepKeepsOrders(cfg, s, events[|events| - 1]);
      Step(cfg, s, events[|events| - 1])
  }

  lemma {:induction false} RunKeeps(cfg: Config, events: seq<Event>)
    ensures TableInv(cfg, Run(cfg, events))
  {
    if events != [] {
      RunKeeps(cfg, events[..|events| - 1]);
      StepKeeps(cfg, Run(cfg, events[..|events| - 1]), events[|events| - 1]);
    }
  }

  // ----- the claims, over every run and whatever answers come -----

  predicate Alike(o: Online, p: Online) {
    o.user == p.user && o.logMethod == p.logMethod
  }

  /** In every reachable state: no two RADIUS sessions and no two TACACS+ sessions of one user name, and no
      more local ones than configured. */
  lemma SessionCounts(cfg: Config, events: seq<Event>, user: string)
    ensures var online := Run(cfg, events).online;
      && (forall i, j :: 0 <= i < j < |online| && Alike(online[i], online[j]) ==>
            online[i].logMethod != Radius && online[i].logMethod != Tacacs)
      && (user in cfg.localUsers && cfg.localUsers[user].maxRepeat >= 0 ==>
            |SessionsOf(online, user, Local)| <= cfg.localUsers[user].maxRepeat)
      && (user !in cfg.localUsers ==> SessionsOf(online, user, Local) == {})
  {
    RunKeeps(cfg, events);
    var online := Run(cfg, events).online;
    assert WithinLimit(cfg, online, user, Local);
    CountIsSessions(online, user, Local);
    forall i, j | 0 <= i < j < |online| && Alike(online[i], online[j])
      ensures online[i].logMethod != Radius && online[i].logMethod != Tacacs
    {
      assert WithinLimit(cfg, online, online[i].user, online[i].logMethod);
      if online[i].logMethod == Radius || online[i].logMethod == Tacacs { OneSessionAtMost(online, i, j); }
    }
  }

  lemma OneSessionAtMost(online: seq<Online>, i: nat, j: nat)
    requires i < j < |online| && online[i].logMethod == online[j].logMethod
    requires Count(online, online[i].user, online[i].logMethod) <= 1
    ensures online[i].user != online[j].user
  {
    var sessions := SessionsOf(online, online[i].user, online[i].logMethod);
    CountIsSessions(online, online[i].user, online[i].logMethod);
    if online[i].user == online[j].user {
      assert {i, j} <= sessions;
      SubsetSize({i, j}, sessions);
    }
  }

  lemma {:induction false} SubsetSize(a: set<nat>, b: set<nat>)
    requires a <= b
    ensures |a| <= |b|
  {
    if a != {} {
      var x :| x in a;
      SubsetSize(a - {x}, b - {x});
    }
  }

  /** What the check for a repeated login answers: yes exactly when one session more would be one too many for
      that bound. The methods that need no server and local users that are not configured know no bound. */
  lemma RepeatedExactly(cfg: Config, online: seq<Online>, o: Online)
    ensures LoginRepeated(cfg, online, o.user, o.logMethod) <==>
      var sessions := |SessionsOf(online + [o], o.user, o.logMethod)|;
      match o.logMethod
      case Radius | Tacacs => sessions > 1
      case Local => o.user in cfg.localUsers && sessions > cfg.localUsers[o.user].maxRepeat
      case _ => false
  {
    CountIsSessions(online + [o], o.user, o.logMethod);
    assert (online + [o])[..|online|] == online;
  }

  /** Two sessions that both have an id never share its number, and the number is allocated. */
  lemma SessionIds(cfg: Config, events: seq<Event>, i: nat, j: nat)
    requires i < j < |Run(cfg, events).online|
    requires Run(cfg, events).online[i].id != 0 && Run(cfg, events).online[j].id != 0
    ensures var s := Run(cfg, events);
      && Number(s.online[i].id) != Number(s.online[j].id)
      && Number(s.online[i].id) in s.live
      && s.online[i].id / 0x100_0000 == match s.online[i].logMethod
           case Radius => 1 case Tacacs => 2 case Local => 3 case NoAuth => 4 case Invalid => 0 case Unknown => 15
  {
    RunKeeps(cfg, events);
  }

  /** In every reachable state: a local session is of a configured user whose password is empty or is the one
      that came with the login; every other session stands on a list that has its method, and is not the
      hidden super user's. */
  lemma LocalSessions(cfg: Config, events: seq<Event>, k: nat)
    requires k < |Run(cfg, events).online|
    ensures var o := Run(cfg, events).online[k];
      && (o.logMethod == Local ==>
            && o.user in cfg.localUsers
            && (cfg.localUsers[o.user].password == "" || cfg.localUsers[o.user].password == o.password))
      && (o.logMethod != Local ==>
            && (o.logMethod == Radius || o.logMethod == Tacacs || o.logMethod == NoAuth)
            && o.user != "nmsuser" && exists i | 1 <= i <= 4 :: GetAuthOrder(cfg, i) == o.logMethod)
  {
    RunKeeps(cfg, events);
    assert Run(cfg, events).online[k] in Run(cfg, events).online;
  }

  /** Neither table ever holds more than 32 entries. */
  lemma TablesBounded(cfg: Config, events: seq<Event>)
    ensures |Run(cfg, events).online| <= 32
    ensures forall id :: id in Run(cfg, events).authing ==> 1 <= id <= 32
  {
    RunKeeps(cfg, events);
  }
}
