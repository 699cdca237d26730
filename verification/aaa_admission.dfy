/** Who gets online on whose word, over every run in which answers are to requests that were sent. */
module AaaAdmission {
  import opened AaaTypes
  import opened AaaSession
  import opened AaaSoundness
  import opened AaaTable
  import opened AaaRuns
  import opened AaaProvenance

  /** What event i delivers, if it is an answer to a pending login, answers a request that login sent. */
  ghost predicate HonestAt(cfg: Config, events: seq<Event>, i: nat)
    requires i < |events|
  {
    var s := Run(cfg, events[..i]);
    events[i].ServerReply? && events[i].login in s.authing ==> Asked(s.authing[events[i].login], events[i].reply)
  }

  /** Servers answer what they were asked: as late and as often as they like, and in any order. */
  ghost predicate HonestAnswers(cfg: Config, events: seq<Event>) {
    forall i :: 0 <= i < |events| ==> HonestAt(cfg, events, i)
  }

  /** What event i delivers is from the server of the method that the login is at by then. */
  ghost predicate CurrentAt(cfg: Config, events: seq<Event>, i: nat)
    requires i < |events|
  {
    var s := Run(cfg, events[..i]);
    events[i].ServerReply? && events[i].login in s.authing ==>
      AtCurrent(cfg, s.authing[events[i].login], events[i].reply)
  }

  /** No answer comes late: each is for the method that its login is at. */
  ghost predicate CurrentAnswers(cfg: Config, events: seq<Event>) {
    forall i :: 0 <= i < |events| ==> CurrentAt(cfg, events, i)
  }

  lemma CurrentEarlier(cfg: Config, events: seq<Event>, n: nat)
    requires CurrentAnswers(cfg, events) && n <= |events|
    ensures CurrentAnswers(cfg, events[..n])
  {
    forall i | 0 <= i < n ensures CurrentAt(cfg, events[..n], i) {
      assert CurrentAt(cfg, events, i) && events[..n][..i] == events[..i];
    }
  }

  lemma HonestEarlier(cfg: Config, events: seq<Event>, n: nat)
    requires HonestAnswers(cfg, events) && n <= |events|
    ensures HonestAnswers(cfg, events[..n])
  {
    forall i | 0 <= i < n ensures HonestAt(cfg, events[..n], i) {
      assert HonestAt(cfg, events, i) && events[..n][..i] == events[..i];
    }
  }

  // ----- the tables in order -----

  ghost predicate AllInOrder(cfg: Config, s: State) {
    && (forall id :: id in s.authing ==> LoginInv(cfg, s.authing[id]))
    && (forall o :: o in s.online && !Crosses(cfg) ==> Justified(cfg, o.logMethod, o.history.replies))
  }

  lemma VisitKeepsInOrder(cfg: Config, s: State, id: nat, ack: bool)
    requires AllInOrder(cfg, s)
    ensures AllInOrder(cfg, VisitLogin(cfg, s, id, ack).state)
  {
    if id in s.authing { CheckIsSound(cfg, s.authing[id], s.timers); }
  }

  lemma {:induction false} ScanKeepsInOrder(cfg: Config, s: State, acks: set<nat>, id: nat)
    requires AllInOrder(cfg, s)
    ensures AllInOrder(cfg, Scan(cfg, s, acks, id))
    decreases TABLE_MAX + 1 - id
  {
    if id <= TABLE_MAX {
      VisitKeepsInOrder(cfg, s, id, id in acks);
      ScanKeepsInOrder(cfg, VisitLogin(cfg, s, id, id in acks).state, acks, id + 1);
    }
  }

  lemma LoginKeepsInOrder(cfg: Config, s: State, user: string, password: string)
    requires AllInOrder(cfg, s)
    ensures AllInOrder(cfg, Login(cfg, s, user, password))
  {
    if |s.online| < cfg.loginMax { assert LoginInv(cfg, NewAuthing(cfg, user, password, s.logins)); }
  }

  lemma CarriedKeepsInOrder(cfg: Config, s: State, t: State)
    requires AllInOrder(cfg, s) && NoNewSession(s, t)
    ensures AllInOrder(cfg, t)
  {
    forall o | o in t.online && !Crosses(cfg) ensures Justified(cfg, o.logMethod, o.history.replies) {
      assert Carried(s.online, o);
    }
  }

  lemma StepKeepsInOrder(cfg: Config, s: State, e: Event)
    requires TableInv(cfg, s) && AllInOrder(cfg, s)
    requires e.ServerReply? && e.login in s.authing ==> Asked(s.authing[e.login], e.reply)
    ensures AllInOrder(cfg, Step(cfg, s, e))
  {
    match e
    case LoginRequest(user, password) => LoginKeepsInOrder(cfg, s, user, password);
    case ServerReply(login, reply) =>
      if login in s.authing { ReplyKeepsLogin(cfg, s.authing[login], reply); }
    case AuthTick(acks) => ScanKeepsInOrder(cfg, s, acks, 1);
    case TerminalReset =>
    case _ =>
      OnlineEventHasOrigins(cfg, s, e);
      CarriedKeepsInOrder(cfg, s, Step(cfg, s, e));
  }

  /** In every state that such a run reaches, every pending login and every session is in order. */
  lemma {:induction false} RunInOrder(cfg: Config, events: seq<Event>)
    requires HonestAnswers(cfg, events)
    ensures AllInOrder(cfg, Run(cfg, events))
  {
    if events != [] {
      var n := |events| - 1;
      HonestEarlier(cfg, events, n);
      RunInOrder(cfg, events[..n]);
      RunKeeps(cfg, events[..n]);
      assert HonestAt(cfg, events, n);
      StepKeepsInOrder(cfg, Run(cfg, events[..n]), events[n]);
    }
  }

  // ----- the claim -----

  /** The login behind the session was told, while it was pending, all that the session's own method has
      to say before it lets anyone in; what it was not told, a policy switch waives. */
  ghost predicate AcceptedBetween(cfg: Config, events: seq<Event>, a: nat, c: nat, id: nat, m: Method)
    requires c <= |events|
  {
    match m
    case Radius =>
      && Answered(events, a, c, id, RadAccept)
      && (Answered(events, a, c, id, RadAcctResponse) || cfg.onlineAcctFailed)
    case Tacacs =>
      && Answered(events, a, c, id, TacAuthenPass)
      && (Answered(events, a, c, id, TacAuthorPass) || cfg.onlineAuthorFailed)
      && (Answered(events, a, c, id, TacAcctOk) || cfg.onlineAcctFailed)
    case _ => true
  }

  ghost predicate Accepted(cfg: Config, events: seq<Event>, o: Online) {
    exists a, c, id ::
      SessionOrigin(cfg, events, a, c, id, o) && AcceptedBetween(cfg, events, a, c, id, o.logMethod)
  }

  /** Unless the list crosses methods, nobody is online whose own login was not accepted by the method that
      he is online with. */
  lemma OnlineWasAccepted(cfg: Config, events: seq<Event>, k: nat)
    requires !Crosses(cfg) && HonestAnswers(cfg, events) && k < |Run(cfg, events).online|
    ensures Accepted(cfg, events, Run(cfg, events).online[k])
  {
    var o := Run(cfg, events).online[k];
    RunInOrder(cfg, events);
    assert o in Run(cfg, events).online;
    var a, c, id := SessionHasOrigin(cfg, events, k);
    assert AcceptedBetween(cfg, events, a, c, id, o.logMethod);
  }
}
