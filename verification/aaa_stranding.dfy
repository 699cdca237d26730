/** Pending logins that nothing but a reset or a repeated login ends any more, and all the others, which the
    daemon's own ticks settle. */
module AaaStranding {
  import opened AaaTypes
  import opened AaaSession
  import opened AaaSoundness
  import opened AaaTable
  import opened AaaRuns
  import opened AaaEmptying

  /** What can still happen to one pending login: ticks, whatever the shared counters are, and answers. */
  datatype Move = Tick(timers: Timers) | Answer(reply: Reply)

  /** A login after some moves. It stops when it is finished; answers to what it never asked do not come. */
  function After(cfg: Config, p: Authing, moves: seq<Move>): Authing
    decreases |moves|
  {
    if moves == [] || p.finished || !(1 <= p.order <= 4) then p
    else
      match moves[0]
      case Tick(t) => After(cfg, Check(cfg, p, t).0, moves[1..])
      case Answer(r) => After(cfg, if Asked(p, r) then ApplyReply(p, r) else p, moves[1..])
  }

  ghost predicate LeftForGood(cfg: Config, p: Authing) {
    forall moves :: !After(cfg, p, moves).finished
  }

  /** Stuck, and no answer to anything it has asked changes that. */
  predicate BeyondHelp(cfg: Config, p: Authing)
    requires 1 <= p.order <= 4
  {
    match Selected(cfg, p)
    case Local => !Waiting(p.result)
    case Radius => IsAuthor(p.result) && p.history.asked <= {TacAuthor}
    case Unknown => true
    case _ => false
  }

  lemma {:induction false} BeyondHelpStays(cfg: Config, p: Authing, moves: seq<Move>)
    requires 1 <= p.order <= 4 && !p.finished && BeyondHelp(cfg, p)
    ensures !After(cfg, p, moves).finished
    decreases |moves|
  {
    if moves != [] {
      match moves[0]
      case Tick(t) => BeyondHelpStays(cfg, Check(cfg, p, t).0, moves[1..]);
      case Answer(r) => BeyondHelpStays(cfg, if Asked(p, r) then ApplyReply(p, r) else p, moves[1..]);
    }
  }

  /** Counters at which every tick resends, so that ticks alone use up the login's work. */
  function Due(cfg: Config): Timers { Timers(ResendTicks(cfg), ResendTicks(cfg), 1, 1, 1) }

  lemma {:induction false} TicksFinish(cfg: Config, p: Authing) returns (moves: seq<Move>)
    requires ValidOrder(cfg) && 1 <= p.order <= 4 && !p.finished && !Stuck(cfg, p)
    ensures After(cfg, p, moves).finished
    decreases Work(p, WithAnswers)
  {
    var q := Check(cfg, p, Due(cfg)).0;
    CheckProgress(cfg, p, Due(cfg), WithAnswers);
    CheckNeverStrands(cfg, p, Due(cfg));
    var rest := [];
    if !q.finished { rest := TicksFinish(cfg, q); }
    moves := [Tick(Due(cfg))] + rest;
    assert moves[1..] == rest;
  }

  /** Of a stuck login that is not beyond help some request is still open whose answer frees it. */
  lemma AnswerFrees(cfg: Config, p: Authing) returns (r: Reply)
    requires ValidOrder(cfg) && 1 <= p.order <= 4 && !p.finished && Stuck(cfg, p) && !BeyondHelp(cfg, p)
    ensures Asked(p, r) && !Stuck(cfg, ApplyReply(p, r))
  {
    assert GetAuthOrder(cfg, p.order) != Unknown;
    var q :| q in p.history.asked && q != TacAuthor;
    match q
    case RadAuth => r := RadReject;
    case RadAcct => r := RadAcctResponse;
    case TacAuthen => r := TacAuthenFail;
    case TacAcct => r := TacAcctFail;
  }

  /** A pending login can never finish again, whatever ticks and answers to its requests still come,
      exactly when an answer has reached it at the local check, or a TACACS+ authorization answer at
      RADIUS while authorization is all that it has ever asked for. */
  lemma LeftForGoodExactly(cfg: Config, p: Authing)
    requires ValidOrder(cfg) && 1 <= p.order <= 4 && !p.finished
    ensures LeftForGood(cfg, p) <==>
      || (Selected(cfg, p) == Local && !Waiting(p.result))
      || (Selected(cfg, p) == Radius && IsAuthor(p.result) && p.history.asked <= {TacAuthor})
  {
    assert GetAuthOrder(cfg, p.order) != Unknown;
    if BeyondHelp(cfg, p) {
      forall moves ensures !After(cfg, p, moves).finished { BeyondHelpStays(cfg, p, moves); }
    } else if Stuck(cfg, p) {
      var r := AnswerFrees(cfg, p);
      var rest := TicksFinish(cfg, ApplyReply(p, r));
      var moves := [Answer(r)] + rest;
      assert moves[1..] == rest;
      assert After(cfg, p, moves).finished;
    } else {
      var moves := TicksFinish(cfg, p);
    }
  }

  // ----- among other logins, under the counters shared with them -----

  function Told(p: Authing, answers: seq<Reply>): (q: Authing)
    ensures q.order == p.order && q.finished == p.finished
    decreases |answers|
  {
    if answers == [] then p else Told(ApplyReply(p, answers[0]), answers[1..])
  }

  /** The tables after these answers to the login with this id. */
  function ToldAt(s: State, id: nat, answers: seq<Reply>): (t: State)
    requires OrdersInRange(s) && id in s.authing
    ensures OrdersInRange(t)
  {
    s.(authing := s.authing[id := Told(s.authing[id], answers)])
  }

  /** With some answers to what it has asked, or none, the daemon's ticks settle the login in time, however
      the counters stand and whatever other logins are pending. */
  ghost predicate CanStillFinish(cfg: Config, s: State, id: nat)
    requires OrdersInRange(s) && id in s.authing
  {
    exists answers ::
      && (forall r :: r in answers ==> Asked(s.authing[id], r))
      && SettledByTicks(cfg, ToldAt(s, id, answers), id)
  }

  ghost predicate SettledByTicks(cfg: Config, s: State, id: nat)
    requires OrdersInRange(s)
  {
    forall ticks :: Enough(cfg, s, ticks) ==> id !in AfterTicks(cfg, s, ticks).authing
  }

  lemma MovingIsSettled(cfg: Config, s: State, id: nat)
    requires ValidOrder(cfg) && TableInv(cfg, s) && Moving(cfg, s, id)
    ensures SettledByTicks(cfg, s, id)
  {
    forall ticks | Enough(cfg, s, ticks) ensures id !in AfterTicks(cfg, s, ticks).authing {
      TicksSettleLogin(cfg, s, ticks, id);
    }
  }

  lemma HelpedLoginFinishes(cfg: Config, s: State, id: nat)
    requires ValidOrder(cfg) && TableInv(cfg, s) && id in s.authing && !BeyondHelp(cfg, s.authing[id])
    ensures CanStillFinish(cfg, s, id)
  {
    var p := s.authing[id];
    if Stuck(cfg, p) {
      var r := AnswerFrees(cfg, p);
      ReplyKeeps(cfg, s, id, r);
      assert Told(p, [r]) == ApplyReply(p, r);
      MovingIsSettled(cfg, ToldAt(s, id, [r]), id);
    } else {
      assert ToldAt(s, id, []) == s;
      MovingIsSettled(cfg, s, id);
    }
  }

  /** Of the logins that get answers to their own requests alone, the local check is where they are lost, and
      nowhere else: at RADIUS an answer to the request that accepted the login can still come, after which
      the daemon's ticks settle it. */
  lemma LostExactlyAtLocalCheck(cfg: Config, s: State, id: nat)
    requires ValidOrder(cfg) && TableInv(cfg, s) && id in s.authing && LoginInv(cfg, s.authing[id])
    ensures var p := s.authing[id];
      if Selected(cfg, p) == Local && !Waiting(p.result) then LeftForGood(cfg, p) else CanStillFinish(cfg, s, id)
  {
    var p := s.authing[id];
    if Selected(cfg, p) == Local && !Waiting(p.result) {
      LeftForGoodExactly(cfg, p);
    } else {
      assert GetAuthOrder(cfg, p.order) != Unknown;
      HelpedLoginFinishes(cfg, s, id);
    }
  }
}
