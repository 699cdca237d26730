/** Where a session comes from, told by the events of the run alone: the one login request that began it,
    the answers that reached that very login, and the tick that let it in. */
module AaaProvenance {
  import opened AaaTypes
  import opened AaaTable
  import opened AaaRuns
  import AaaOnline

  // ----- the life of a login -----

  /** After d events, the login numbered `serial` is pending under this id. */
  ghost predicate PendingAt(cfg: Config, events: seq<Event>, d: nat, id: nat, serial: nat)
    requires d <= |events|
  {
    var s := Run(cfg, events[..d]);
    id in s.authing && s.authing[id].history.serial == serial
  }

  /** A login: the id it is pending under, who asked for it, and its number. */
  datatype Identity = Identity(id: nat, user: string, password: string, serial: nat)

  function PendingIdentity(id: nat, p: Authing): Identity {
    Identity(id, p.user, p.password, p.history.serial)
  }

  function SessionIdentity(id: nat, o: Online): Identity {
    Identity(id, o.user, o.password, o.history.serial)
  }

  /** Event a is the request that began this login: it found the id free and was numbered so. */
  ghost predicate BeganAt(cfg: Config, events: seq<Event>, a: nat, who: Identity)
    requires a < |events|
  {
    var s := Run(cfg, events[..a]);
    events[a] == LoginRequest(who.user, who.password) && who.id !in s.authing && s.logins == who.serial
  }

  /** The login began at event a and has been pending under its id ever since, up to event c. */
  ghost predicate PendingSince(cfg: Config, events: seq<Event>, a: nat, c: nat, who: Identity)
    requires a < c <= |events|
  {
    && BeganAt(cfg, events, a, who)
    && forall d :: a < d <= c ==> PendingAt(cfg, events, d, who.id, who.serial)
  }

  /** Strictly between events a and c, the answer `r` was delivered to this id. */
  ghost predicate Answered(events: seq<Event>, a: nat, c: nat, id: nat, r: Reply)
    requires c <= |events|
  {
    exists b :: a < b < c && events[b] == ServerReply(id, r)
  }

  ghost predicate AllAnswered(events: seq<Event>, a: nat, c: nat, id: nat, replies: seq<Reply>)
    requires c <= |events|
  {
    forall r :: r in replies ==> Answered(events, a, c, id, r)
  }

  ghost predicate LoginOrigin(cfg: Config, events: seq<Event>, a: nat, id: nat, p: Authing) {
    && a < |events|
    && PendingSince(cfg, events, a, |events|, PendingIdentity(id, p))
    && AllAnswered(events, a, |events|, id, p.history.replies)
  }

  /** Event c is the tick that ended the login under this id and brought the session in. */
  ghost predicate AdmittedAt(cfg: Config, events: seq<Event>, c: nat, id: nat, o: Online)
    requires c < |events|
  {
    && events[c].AuthTick?
    && !PendingAt(cfg, events, c + 1, id, o.history.serial)
    && Carried(Run(cfg, events[..c + 1]).online, o)
  }

  /** The session's own login began at event a, stayed pending until the tick at event c admitted it, and
      every answer that counts for it came in between. */
  ghost predicate SessionOrigin(cfg: Config, events: seq<Event>, a: nat, c: nat, id: nat, o: Online) {
    && a < c < |events|
    && PendingSince(cfg, events, a, c, SessionIdentity(id, o))
    && AdmittedAt(cfg, events, c, id, o)
    && AllAnswered(events, a, c, id, o.history.replies)
  }

  ghost predicate HasLoginOrigin(cfg: Config, events: seq<Event>, id: nat, p: Authing) {
    exists a :: LoginOrigin(cfg, events, a, id, p)
  }

  ghost predicate HasSessionOrigin(cfg: Config, events: seq<Event>, o: Online) {
    exists a, c, id :: SessionOrigin(cfg, events, a, c, id, o)
  }

  // ----- what one event does to the tables -----

  predicate SameSession(x: Online, o: Online) {
    && o.id == x.id && o.user == x.user && o.password == x.password
    && o.logMethod == x.logMethod && o.history == x.history
  }

  ghost predicate Carried(online: seq<Online>, o: Online) {
    exists x :: x in online && SameSession(x, o)
  }

  predicate FromLogin(p: Authing, o: Online) {
    && o.user == p.user && o.password == p.password
    && o.history.serial == p.history.serial && o.history.replies == p.history.replies
  }

  ghost predicate SessionFrom(s: State, t: State, o: Online) {
    || Carried(s.online, o)
    || (exists id :: id in s.authing && id !in t.authing && FromLogin(s.authing[id], o))
  }

  /** Between `s` and `t` logins were only checked, dropped and admitted. */
  ghost predicate Ticked(s: State, t: State) {
    && (forall id :: id in t.authing ==> id in s.authing && KeepsReplies(s.authing[id], t.authing[id]))
    && (forall o :: o in t.online ==> SessionFrom(s, t, o))
  }

  lemma TickedTwice(s: State, t: State, u: State)
    requires Ticked(s, t) && Ticked(t, u)
    ensures Ticked(s, u)
  {
    forall o | o in u.online ensures SessionFrom(s, u, o) {
      assert SessionFrom(t, u, o);
      if x :| x in t.online && SameSession(x, o) {
        assert SessionFrom(s, t, x);
        if y :| y in s.online && SameSession(y, x) {
          assert SameSession(y, o);
        } else {
          var id :| id in s.authing && id !in t.authing && FromLogin(s.authing[id], x);
          assert FromLogin(s.authing[id], o);
        }
      } else {
        var id :| id in t.authing && id !in u.authing && FromLogin(t.authing[id], o);
        assert id in s.authing && FromLogin(s.authing[id], o);
      }
    }
  }

  lemma VisitTicked(cfg: Config, s: State, id: nat, ack: bool)
    requires TableInv(cfg, s)
    ensures Ticked(s, VisitLogin(cfg, s, id, ack).state)
  {
    var t := VisitLogin(cfg, s, id, ack).state;
    if id in s.authing { CheckKeepsLogin(cfg, s.authing[id], s.timers); }
    forall o | o in t.online ensures SessionFrom(s, t, o) {
      if o in s.online {
        assert SameSession(o, o);
      } else {
        assert id in s.authing && id !in t.authing && FromLogin(s.authing[id], o);
      }
    }
  }

  lemma {:induction false} ScanTicked(cfg: Config, s: State, acks: set<nat>, id: nat)
    requires TableInv(cfg, s)
    ensures Ticked(s, Scan(cfg, s, acks, id))
    decreases TABLE_MAX + 1 - id
  {
    if id <= TABLE_MAX {
      var v := VisitLogin(cfg, s, id, id in acks);
      VisitKeeps(cfg, s, id, id in acks);
      VisitTicked(cfg, s, id, id in acks);
      if !v.stop {
        ScanTicked(cfg, v.state, acks, id + 1);
        TickedTwice(s, v.state, Scan(cfg, v.state, acks, id + 1));
      }
    } else {
      forall o | o in s.online ensures SessionFrom(s, s, o) { assert SameSession(o, o); }
    }
  }

  /** Every session of `t` is one of `s`, its timers apart. */
  ghost predicate NoNewSession(s: State, t: State) {
    && t.authing == s.authing
    && forall o :: o in t.online ==> Carried(s.online, o)
  }

  lemma OneSessionChanged(cfg: Config, s: State, k: nat, o: Online)
    requires k < |s.online| && SameSession(s.online[k], o)
    ensures NoNewSession(s, Drop(s, k)) && NoNewSession(s, s.(online := s.online[k := o]))
  {
    forall y | y in Drop(s, k).online ensures Carried(s.online, y) {
      assert y in s.online && SameSession(y, y);
    }
    forall y | y in s.online[k := o] ensures Carried(s.online, y) {
      if y in s.online { assert SameSession(y, y); } else { assert s.online[k] in s.online; }
    }
  }

  lemma {:induction false} OnlineScanNoNewSession(cfg: Config, s: State, k: nat)
    requires k <= |s.online|
    ensures NoNewSession(s, OnlineScan(cfg, s, k))
    decreases |s.online| - k
  {
    if k < |s.online| {
      var t := TickedAt(cfg, s, k);
      match AaaOnline.Tick(cfg, s.online[k]) {
        case Keep(o) => OneSessionChanged(cfg, s, k, o);
        case Evict(_) => OneSessionChanged(cfg, s, k, s.online[k]);
      }
      OnlineScanNoNewSession(cfg, t.state, t.next);
      forall o | o in OnlineScan(cfg, s, k).online ensures Carried(s.online, o) {
        var y :| y in t.state.online && SameSession(y, o);
        var x :| x in s.online && SameSession(x, y);
        assert SameSession(x, o);
      }
    } else {
      forall o | o in s.online ensures SameSession(o, o) {}
    }
  }

  /** What a pending login was before the event: itself, short of at most the answer just delivered, or
      the request just made. */
  ghost predicate LoginFrom(s: State, e: Event, id: nat, p: Authing) {
    || (id in s.authing && SameLogin(s.authing[id], p)
        && forall r :: r in p.history.replies ==> r in s.authing[id].history.replies || e == ServerReply(id, r))
    || (id !in s.authing && e == LoginRequest(p.user, p.password)
        && p.history.serial == s.logins && p.history.replies == [])
  }

  ghost predicate StepOrigins(s: State, t: State, e: Event) {
    && (forall id :: id in t.authing ==> LoginFrom(s, e, id, t.authing[id]))
    && (forall o :: o in t.online ==>
          || Carried(s.online, o)
          || (e.AuthTick? && SessionFrom(s, t, o)))
  }

  lemma OnlineEventHasOrigins(cfg: Config, s: State, e: Event)
    requires TableInv(cfg, s) && (e.LoginExit? || e.EchoRequest? || e.AcctReply? || e.OnlineTick?)
    ensures NoNewSession(s, Step(cfg, s, e))
  {
    forall o | o in s.online ensures SameSession(o, o) {}
    match e
    case LoginExit(id) =>
      var k := Find(s.online, id);
      if k < |s.online| { OneSessionChanged(cfg, s, k, s.online[k]); }
    case EchoRequest(id, _) =>
      var k := Find(s.online, id);
      if k < |s.online| { OneSessionChanged(cfg, s, k, AaaOnline.Echo(cfg, s.online[k])); }
    case AcctReply(id) =>
      var k := Find(s.online, id);
      if k < |s.online| { OneSessionChanged(cfg, s, k, AaaOnline.AcctResponse(cfg, s.online[k])); }
    case OnlineTick => OnlineScanNoNewSession(cfg, s, 0);
    case _ =>
  }

  lemma LoginEventHasOrigins(cfg: Config, s: State, e: Event)
    requires TableInv(cfg, s) && (e.LoginRequest? || e.ServerReply?)
    ensures Step(cfg, s, e).online == s.online
    ensures forall id :: id in Step(cfg, s, e).authing ==> LoginFrom(s, e, id, Step(cfg, s, e).authing[id])
  {
  }

  lemma StepHasOrigins(cfg: Config, s: State, e: Event)
    requires TableInv(cfg, s)
    ensures StepOrigins(s, Step(cfg, s, e), e)
  {
    forall o | o in s.online ensures SameSession(o, o) {}
    match e
    case AuthTick(acks) => ScanTicked(cfg, s, acks, 1);
    case LoginRequest(_, _) | ServerReply(_, _) => LoginEventHasOrigins(cfg, s, e);
    case TerminalReset =>
    case _ => OnlineEventHasOrigins(cfg, s, e);
  }

  // ----- over runs -----

  lemma SinceLater(cfg: Config, events: seq<Event>, n: nat, a: nat, c: nat, who: Identity)
    requires n <= |events| && a < c <= n && PendingSince(cfg, events[..n], a, c, who)
    ensures PendingSince(cfg, events, a, c, who)
  {
    assert events[..n][..a] == events[..a];
    forall d | a < d <= c ensures PendingAt(cfg, events, d, who.id, who.serial) {
      assert events[..n][..d] == events[..d];
      assert PendingAt(cfg, events[..n], d, who.id, who.serial);
    }
  }

  lemma AnsweredLater(events: seq<Event>, n: nat, a: nat, c: nat, c': nat, id: nat, replies: seq<Reply>)
    requires n <= |events| && c <= n && c <= c' <= |events| && AllAnswered(events[..n], a, c, id, replies)
    ensures AllAnswered(events, a, c', id, replies)
  {
    forall r | r in replies ensures Answered(events, a, c', id, r) {
      var b :| a < b < c && events[..n][b] == ServerReply(id, r);
      assert events[b] == ServerReply(id, r);
    }
  }

  lemma SessionLater(cfg: Config, events: seq<Event>, n: nat, a: nat, c: nat, id: nat, x: Online, o: Online)
    requires n <= |events| && SessionOrigin(cfg, events[..n], a, c, id, x) && SameSession(x, o)
    ensures SessionOrigin(cfg, events, a, c, id, o)
  {
    SinceLater(cfg, events, n, a, c, SessionIdentity(id, x));
    AdmittedLater(cfg, events, n, c, id, x, o);
    AnsweredLater(events, n, a, c, c, id, x.history.replies);
  }

  lemma AdmittedLater(cfg: Config, events: seq<Event>, n: nat, c: nat, id: nat, x: Online, o: Online)
    requires c < n <= |events| && AdmittedAt(cfg, events[..n], c, id, x) && SameSession(x, o)
    ensures AdmittedAt(cfg, events, c, id, o)
  {
    assert events[..n][..c + 1] == events[..c + 1];
    var y :| y in Run(cfg, events[..c + 1]).online && SameSession(y, x);
    assert SameSession(y, o);
  }

  /** One more event after which the login is still pending. */
  lemma LoginOriginKept(cfg: Config, events: seq<Event>, a: nat, id: nat, p: Authing, q: Authing)
    requires events != [] && LoginOrigin(cfg, events[..|events| - 1], a, id, p)
    requires SameLogin(p, q) && PendingAt(cfg, events, |events|, id, q.history.serial)
    requires forall r :: r in q.history.replies ==>
      r in p.history.replies || events[|events| - 1] == ServerReply(id, r)
    ensures LoginOrigin(cfg, events, a, id, q)
  {
    var n := |events| - 1;
    SinceLater(cfg, events, n, a, n, PendingIdentity(id, p));
    AnsweredLater(events, n, a, n, n + 1, id, p.history.replies);
    forall r | r in q.history.replies ensures Answered(events, a, n + 1, id, r) {
      if r !in p.history.replies { assert events[n] == ServerReply(id, r); }
    }
  }

  /** One more event, the tick that admits the login. */
  lemma SessionBegun(cfg: Config, events: seq<Event>, a: nat, id: nat, p: Authing, o: Online)
    requires events != [] && LoginOrigin(cfg, events[..|events| - 1], a, id, p) && FromLogin(p, o)
    requires events[|events| - 1].AuthTick? && !PendingAt(cfg, events, |events|, id, o.history.serial)
    requires o in Run(cfg, events).online
    ensures SessionOrigin(cfg, events, a, |events| - 1, id, o)
  {
    var n := |events| - 1;
    SinceLater(cfg, events, n, a, n, PendingIdentity(id, p));
    AnsweredLater(events, n, a, n, n, id, o.history.replies);
    assert events[..n + 1] == events;
    assert SameSession(o, o);
  }

  lemma LoginOriginNext(cfg: Config, events: seq<Event>, s: State, t: State, id: nat)
    requires events != [] && s == Run(cfg, events[..|events| - 1]) && t == Run(cfg, events) && id in t.authing
    requires id in s.authing ==> HasLoginOrigin(cfg, events[..|events| - 1], id, s.authing[id])
    requires LoginFrom(s, events[|events| - 1], id, t.authing[id])
    ensures HasLoginOrigin(cfg, events, id, t.authing[id])
  {
    var n := |events| - 1;
    assert events[..n + 1] == events;
    var p := t.authing[id];
    if id in s.authing {
      var a :| LoginOrigin(cfg, events[..n], a, id, s.authing[id]);
      LoginOriginKept(cfg, events, a, id, s.authing[id], p);
    } else {
      assert BeganAt(cfg, events, n, PendingIdentity(id, p));
      assert LoginOrigin(cfg, events, n, id, p);
    }
  }

  lemma SessionOriginNext(cfg: Config, events: seq<Event>, s: State, t: State, o: Online)
    requires events != [] && s == Run(cfg, events[..|events| - 1]) && t == Run(cfg, events) && o in t.online
    requires forall id :: id in s.authing ==> HasLoginOrigin(cfg, events[..|events| - 1], id, s.authing[id])
    requires forall x :: x in s.online ==> HasSessionOrigin(cfg, events[..|events| - 1], x)
    requires Carried(s.online, o) || (events[|events| - 1].AuthTick? && SessionFrom(s, t, o))
    ensures HasSessionOrigin(cfg, events, o)
  {
    var n := |events| - 1;
    assert events[..n + 1] == events;
    if x :| x in s.online && SameSession(x, o) {
      var a, c, id :| SessionOrigin(cfg, events[..n], a, c, id, x);
      SessionLater(cfg, events, n, a, c, id, x, o);
    } else {
      var id :| id in s.authing && id !in t.authing && FromLogin(s.authing[id], o);
      var a :| LoginOrigin(cfg, events[..n], a, id, s.authing[id]);
      SessionBegun(cfg, events, a, id, s.authing[id], o);
    }
  }

  lemma {:induction false} AllHaveOrigins(cfg: Config, events: seq<Event>)
    ensures var s := Run(cfg, events);
      && (forall id :: id in s.authing ==> HasLoginOrigin(cfg, events, id, s.authing[id]))
      && (forall o :: o in s.online ==> HasSessionOrigin(cfg, events, o))
  {
    if events != [] {
      var before := events[..|events| - 1];
      AllHaveOrigins(cfg, before);
      var s, t := Run(cfg, before), Run(cfg, events);
      RunKeeps(cfg, before);
      StepHasOrigins(cfg, s, events[|events| - 1]);
      forall id | id in t.authing ensures HasLoginOrigin(cfg, events, id, t.authing[id]) {
        LoginOriginNext(cfg, events, s, t, id);
      }
      forall o | o in t.online ensures HasSessionOrigin(cfg, events, o) {
        SessionOriginNext(cfg, events, s, t, o);
      }
    }
  }

  // ----- the claims -----

  /** In every reachable state, whatever answers came, every session goes back to one login request with
      its user name and password, through a login that was pending without a break until a tick let it
      in, and the answers in its history were delivered to that login meanwhile. */
  lemma SessionHasOrigin(cfg: Config, events: seq<Event>, k: nat) returns (a: nat, c: nat, id: nat)
    requires k < |Run(cfg, events).online|
    ensures SessionOrigin(cfg, events, a, c, id, Run(cfg, events).online[k])
  {
    AllHaveOrigins(cfg, events);
    var o := Run(cfg, events).online[k];
    assert o in Run(cfg, events).online;
    a, c, id :| SessionOrigin(cfg, events, a, c, id, o);
  }

  /** And no two sessions go back to the same request. */
  lemma OriginsDiffer(
      cfg: Config, events: seq<Event>, i: nat, j: nat, a: nat, c: nat, id: nat, a': nat, c': nat, id': nat)
    requires i < j < |Run(cfg, events).online|
    requires SessionOrigin(cfg, events, a, c, id, Run(cfg, events).online[i])
    requires SessionOrigin(cfg, events, a', c', id', Run(cfg, events).online[j])
    ensures a != a'
  {
    RunKeeps(cfg, events);
  }
}
