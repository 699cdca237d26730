/** What each message, answer and timer makes of the tables, told by the tables before and after. */
module AaaMessages {
  import opened AaaTypes
  import opened AaaSession
  import opened AaaTable
  import opened IdAllocator
  import AaaOnline

  // ----- the terminal's messages -----

  /** A login request is taken exactly when it names a user, fewer sessions than allowed are online, and one
      of the 32 ids is free: under the smallest free one, at the first position of the list, with all its
      resends and timeouts before it. Otherwise nothing changes. */
  lemma LoginOutcome(cfg: Config, s: State, user: string, password: string)
    requires OrdersInRange(s)
    ensures var t := Step(cfg, s, LoginRequest(user, password));
      if user != "" && |s.online| < cfg.loginMax && (exists id :: 1 <= id <= 32 && id !in s.authing) then
        exists id :: 1 <= id <= 32 && id !in s.authing && (forall k :: 1 <= k < id ==> k in s.authing)
          && t == s.(logins := s.logins + 1, authing := s.authing[id :=
               Authing(user, password, 1, false, AuthenInvalid, cfg.retryTimes % 256, cfg.retryTimes % 256, 6, 6, 6,
                       History(s.logins, {}, []))])
      else t == s
  {
    var id := SmallestFree(s.authing.Keys, 1, TABLE_MAX);
    assert id != 0 ==> id !in s.authing && forall k :: 1 <= k < id ==> k in s.authing;
  }

  /** Exactly the session that was online last with this id is gone, and its number is free. */
  predicate OneGone(s: State, t: State, id: nat) {
    exists k ::
      && 0 <= k < |s.online| && s.online[k].id == id && (forall i :: k < i < |s.online| ==> s.online[i].id != id)
      && t == s.(online := s.online[..k] + s.online[k + 1..], live := s.live - {id % 0x100_0000})
  }

  ghost predicate Known(s: State, id: nat) {
    exists k :: 0 <= k < |s.online| && s.online[k].id == id
  }

  lemma {:induction false} FindIsLast(online: seq<Online>, id: nat)
    ensures forall i :: Find(online, id) < i < |online| ==> online[i].id != id
  {
    if online != [] { FindIsLast(online[..|online| - 1], id); }
  }

  lemma ExitOutcome(cfg: Config, s: State, id: nat)
    requires OrdersInRange(s)
    ensures var t := Step(cfg, s, LoginExit(id)); if Known(s, id) then OneGone(s, t, id) else t == s
  {
    FindIsLast(s.online, id);
  }

  /** A keep-alive message that says the user has been idle for as long as is allowed ends the session; any
      other gives it the full tolerance of silence again, and changes nothing else. */
  lemma EchoOutcome(cfg: Config, s: State, id: nat, idle: nat)
    requires OrdersInRange(s)
    ensures var t := Step(cfg, s, EchoRequest(id, idle));
      if !Known(s, id) then t == s
      else if cfg.idleMax != 0 && idle >= cfg.idleMax then OneGone(s, t, id)
      else exists k ::
        && 0 <= k < |s.online| && s.online[k].id == id
        && t == s.(online := s.online[k := s.online[k].(alive := cfg.aliveMax)])
  {
    FindIsLast(s.online, id);
    var k := Find(s.online, id);
    if k < |s.online| { assert AaaOnline.Echo(cfg, s.online[k]) == s.online[k].(alive := cfg.aliveMax); }
  }

  /** A restarted terminal server: no login and no session is left, and no number of a session is taken. */
  lemma ResetOutcome(cfg: Config, s: State)
    requires OrdersInRange(s)
    ensures var t := Step(cfg, s, TerminalReset);
      && t.authing == map[] && t.online == [] && t.timers == s.timers && t.logins == s.logins
      && forall n :: n in t.live <==>
           n in s.live && forall k :: 0 <= k < |s.online| ==> s.online[k].id % 0x100_0000 != n
  {
  }

  // ----- answers -----

  /** An answer to a pending login goes into its result and history and to no other login. It ends the resends
      of authentication if it comes from RADIUS, and restarts the accounting timeout if it is a readable
      accounting answer of TACACS+; a challenge has no result. */
  lemma AnswerOutcome(cfg: Config, s: State, login: nat, r: Reply)
    requires OrdersInRange(s)
    ensures var t := Step(cfg, s, ServerReply(login, r));
      if login !in s.authing then t == s
      else
        && t == s.(authing := s.authing[login := t.authing[login]])
        && var p, q := s.authing[login], t.authing[login];
           && q == p.(result := q.result, authRetry := q.authRetry, acctLeft := q.acctLeft, history := q.history)
           && q.history == p.history.(replies := p.history.replies + [r])
           && q.authRetry ==
                (if r.RadAccept? || r.RadReject? || r.RadChallenge? || r.RadAcctResponse? then 0 else p.authRetry)
           && q.acctLeft == (if r.TacAcctOk? || r.TacAcctFail? then 6 else p.acctLeft)
           && (r.RadAccept? || r.TacAuthenPass? ==> q.result == AuthenSuccess)
           && (r.RadReject? || r.TacAuthenFail? ==> q.result == AuthenFailed)
           && (r.RadChallenge? ==> q.result == p.result)
           && (r.TacAuthorPass? ==> q.result == AuthorSuccess)
           && (r.TacAuthorFail? ==> q.result == AuthorFailed)
           && (r.RadAcctResponse? || r.TacAcctOk? ==> q.result == AcctSuccess)
           && (r.TacAcctFail? || r.TacAcctGarbled? ==> q.result == AcctFailed)
  {
    if login in s.authing {
      assert s.authing[login := ApplyReply(s.authing[login], r)][login] == ApplyReply(s.authing[login], r);
    }
  }

  /** An accounting answer for a session ends its wait for one: of a RADIUS session it wipes the failures, of
      another it puts the next update a whole interval off. Nothing else changes. */
  lemma AcctOutcome(cfg: Config, s: State, id: nat)
    requires OrdersInRange(s)
    ensures var t := Step(cfg, s, AcctReply(id));
      if !Known(s, id) then t == s
      else exists k ::
        && 0 <= k < |s.online| && s.online[k].id == id
        && var o := s.online[k];
           t == s.(online := s.online[k :=
             if o.logMethod == Radius then o.(failures := 0, sendFlag := false)
             else o.(tacUpdateLeft := cfg.tacUpdate, tacSendFlag := false)])
  {
    FindIsLast(s.online, id);
  }

  // ----- the one-second timer -----

  /** What a tick leaves of one session. */
  function Ticked(cfg: Config, o: Online): seq<Online> {
    match AaaOnline.Tick(cfg, o) case Keep(q) => [q] case Evict(_) => []
  }

  /** The sessions that it leaves, each one ticked once, in order. */
  function Remaining(cfg: Config, online: seq<Online>): seq<Online> {
    if online == [] then [] else Ticked(cfg, online[0]) + Remaining(cfg, online[1..])
  }

  /** The numbers of those that it does not leave. */
  function Released(cfg: Config, online: seq<Online>): set<nat> {
    set k | 0 <= k < |online| && Ticked(cfg, online[k]) == [] :: online[k].id % 0x100_0000
  }

  lemma OneTicked(cfg: Config, s: State, done: seq<Online>, rest: seq<Online>)
    requires rest != [] && s.online == done + rest
    ensures var t := TickedAt(cfg, s, |done|); var more := done + Ticked(cfg, rest[0]);
      && t.next == |more| && t.state.online == more + rest[1..]
      && t.state.live == s.live - (if Ticked(cfg, rest[0]) == [] then {rest[0].id % 0x100_0000} else {})
      && t.state == s.(online := t.state.online, live := t.state.live)
  {
    var n := |done|;
    assert s.online[n] == rest[0] && s.online[..n] == done && s.online[n + 1..] == rest[1..];
    match AaaOnline.Tick(cfg, rest[0])
    case Keep(o) => assert s.online[n := o] == (done + [o]) + rest[1..];
    case Evict(_) => assert done + [] == done;
  }

  lemma ReleasedFirst(cfg: Config, rest: seq<Online>)
    requires rest != []
    ensures Released(cfg, rest)
         == (if Ticked(cfg, rest[0]) == [] then {rest[0].id % 0x100_0000} else {}) + Released(cfg, rest[1..])
  {
    var more := rest[1..];
    forall n | n in Released(cfg, more) ensures n in Released(cfg, rest) {
      var k :| 0 <= k < |more| && Ticked(cfg, more[k]) == [] && more[k].id % 0x100_0000 == n;
      assert rest[k + 1] == more[k];
    }
    forall n | n in Released(cfg, rest)
      ensures n in Released(cfg, more) || (Ticked(cfg, rest[0]) == [] && n == rest[0].id % 0x100_0000)
    {
      var k :| 0 <= k < |rest| && Ticked(cfg, rest[k]) == [] && rest[k].id % 0x100_0000 == n;
      if k > 0 { assert more[k - 1] == rest[k]; }
    }
  }

  lemma {:induction false} OnlineTickFrom(cfg: Config, s: State, done: seq<Online>, rest: seq<Online>)
    requires s.online == done + rest
    ensures OnlineScan(cfg, s, |done|)
         == s.(online := done + Remaining(cfg, rest), live := s.live - Released(cfg, rest))
    decreases |rest|
  {
    if rest == [] {
      assert done + [] == done;
    } else {
      OneTicked(cfg, s, done, rest);
      ReleasedFirst(cfg, rest);
      var more := done + Ticked(cfg, rest[0]);
      OnlineTickFrom(cfg, TickedAt(cfg, s, |done|).state, more, rest[1..]);
      assert more + Remaining(cfg, rest[1..]) == done + Remaining(cfg, rest);
    }
  }

  /** Although sessions are removed while the table is gone through, each one online is ticked exactly once:
      those evicted are gone and their numbers free, the others stand ticked in their order. */
  lemma OnlineTickOutcome(cfg: Config, s: State)
    requires OrdersInRange(s)
    ensures Step(cfg, s, OnlineTick)
         == s.(online := Remaining(cfg, s.online), live := s.live - Released(cfg, s.online))
  {
    OnlineTickFrom(cfg, s, [], s.online);
    assert [] + s.online == s.online && [] + Remaining(cfg, s.online) == Remaining(cfg, s.online);
  }
}
