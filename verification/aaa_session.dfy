/** One pending login: what a timer tick and a server's answer do to it (aaa_msg_handle.c). */
module AaaSession {
  import opened AaaTypes

  predicate Waiting(r: AaaResult) {
    r == AuthenInvalid || r == AuthenNoServer || r == AuthenNoUser
  }

  /** The hidden super user is always checked locally; everyone else follows the list. */
  function Selected(cfg: Config, p: Authing): Method
    requires 1 <= p.order <= 4
  {
    if p.user == SUPER_USER then Local else GetAuthOrder(cfg, p.order)
  }

  function Ask(p: Authing, r: Request): Authing {
    p.(history := p.history.(asked := p.history.asked + {r}))
  }

  /** Moves on to the next method; after the fourth one the login has failed. */
  function NextMethod(p: Authing, why: AaaResult): Authing {
    if p.order + 1 > 4
    then p.(order := p.order + 1, result := AuthenFailed, finished := true)
    else p.(order := p.order + 1, result := why)
  }

  function Finish(p: Authing, r: AaaResult): Authing {
    p.(result := r, finished := true)
  }

  function ResendTicks(cfg: Config): nat {
    cfg.retryInterval / CHECK_INTERVAL
  }

  // ----- one tick under each method -----

  function RadiusCheck(cfg: Config, p: Authing, t: Timers): (Authing, Timers) {
    match p.result
    case AuthenInvalid | AuthenNoServer | AuthenNoUser =>
      if p.authRetry == 0 then (NextMethod(p, AuthenNoServer), t.(auth := 0))
      else if t.auth + 1 >= ResendTicks(cfg) then (Ask(p.(authRetry := p.authRetry - 1), RadAuth), t.(auth := 0))
      else (p, t.(auth := t.auth + 1))
    case AuthenFailed => (Finish(p, p.result), t.(auth := 0))
    case AuthenSuccess =>
      if !cfg.radiusAcct then
        (if !cfg.onlineAcctFailed then NextMethod(p, AuthenNoServer) else Finish(p, AcctFailed), t.(auth := 0))
      else if p.acctRetry == 0 then (Finish(p, AcctNoServer), t.(auth := 0))
      else if t.acct + 1 >= ResendTicks(cfg) then
        (Ask(p.(acctRetry := p.acctRetry - 1), RadAcct), t.(auth := 0, acct := 0))
      else (p, t.(auth := 0, acct := t.acct + 1))
    case AuthorNoServer | AuthorFailed | AuthorSuccess => (p, t)
    case AcctNoServer | AcctFailed | AcctSuccess => (Finish(p, p.result), t.(acct := 0))
  }

  function TacacsAccounting(p: Authing, t: Timers): (Authing, Timers) {
    var q := if t.acctCnt == 0 then Ask(p, TacAcct) else p;
    var u := if t.acctCnt == 0 then t.(acctCnt := 1) else t;
    (if q.acctLeft == 0 then Finish(q, AcctNoServer) else q.(acctLeft := q.acctLeft - 1), u)
  }

  function TacacsAuthorized(cfg: Config, p: Authing, t: Timers): (Authing, Timers) {
    if cfg.tacAcct then TacacsAccounting(p, t)
    else if !cfg.onlineAcctFailed then (NextMethod(p, AuthenNoServer), t)
    else (Finish(p, AcctFailed), t)
  }

  function TacacsAuthenticating(p: Authing, t: Timers): (Authing, Timers) {
    var q := if t.authenCnt == 0 then Ask(p, TacAuthen) else p;
    var u := if t.authenCnt == 0 then t.(authenCnt := 1) else t;
    if q.authenLeft == 0 then (NextMethod(q, AuthenNoServer), u.(authenCnt := 0))
    else (q.(authenLeft := q.authenLeft - 1), u)
  }

  function TacacsAuthorizing(cfg: Config, p: Authing, t: Timers): (Authing, Timers) {
    if cfg.tacAuthor then
      var q := if t.authorCnt == 0 then Ask(p, TacAuthor) else p;
      var u := if t.authorCnt == 0 then t.(authorCnt := 1) else t;
      if q.authorLeft == 0 then
        (if !cfg.onlineAuthorFailed then Finish(q, AuthorNoServer) else q.(result := AuthorNoServer), u)
      else (q.(authorLeft := q.authorLeft - 1), u)
    else if !cfg.onlineAuthorFailed then (NextMethod(p, AuthenNoServer), t)
    else if cfg.tacAcct then TacacsAccounting(p, t)
    else if !cfg.onlineAcctFailed then (NextMethod(p, AuthenNoServer), t)
    else (Finish(p, p.result), t)
  }

  function TacacsStep(cfg: Config, p: Authing, t: Timers): (Authing, Timers) {
    match p.result
    case AuthenInvalid | AuthenNoServer | AuthenNoUser => TacacsAuthenticating(p, t)
    case AuthenSuccess => TacacsAuthorizing(cfg, p, t)
    case AuthorNoServer | AuthorFailed =>
      if cfg.onlineAuthorFailed then TacacsAuthorized(cfg, p, t) else (Finish(p, p.result), t)
    case AuthorSuccess => TacacsAuthorized(cfg, p, t)
    case AuthenFailed | AcctNoServer | AcctFailed | AcctSuccess => (Finish(p, p.result), t)
  }

  function TacacsCheck(cfg: Config, p: Authing, t: Timers): (Authing, Timers) {
    var (q, u) := TacacsStep(cfg, p, t);
    (q, if q.finished then u.(authenCnt := 0, authorCnt := 0, acctCnt := 0) else u)
  }

  predicate PasswordAccepted(cfg: Config, user: string, password: string) {
    && user in cfg.localUsers
    && (cfg.localUsers[user].password == "" || cfg.localUsers[user].password == password)
  }

  function LocalCheck(cfg: Config, p: Authing): Authing {
    if !Waiting(p.result) then p
    else if p.user !in cfg.localUsers then NextMethod(p, AuthenNoUser)
    else Finish(p, if PasswordAccepted(cfg, p.user, p.password) then AuthenSuccess else AuthenFailed)
  }

  /** The tick's work on one login, under the method its position in the list selects. */
  function Check(cfg: Config, p: Authing, t: Timers): (Authing, Timers)
    requires 1 <= p.order <= 4
  {
    match Selected(cfg, p)
    case Invalid => (Finish(p, AuthenFailed), t)
    case Radius => RadiusCheck(cfg, p, t)
    case Tacacs => TacacsCheck(cfg, p, t)
    case Local => (LocalCheck(cfg, p), t)
    case NoAuth => (Finish(p, AuthenSuccess), t)
    case Unknown => (p, t)
  }

  datatype Verdict = Pending | Admitted | Rejected

  function VerdictOf(cfg: Config, p: Authing): Verdict {
    if !p.finished then Pending else
    match p.result
    case AuthenInvalid | AuthenNoServer | AuthenNoUser | AuthenFailed => Rejected
    case AuthorNoServer | AuthorFailed => if cfg.onlineAuthorFailed then Admitted else Rejected
    case AcctNoServer | AcctFailed => if cfg.onlineAcctFailed then Admitted else Rejected
    case AuthenSuccess | AuthorSuccess | AcctSuccess => Admitted
  }

  // ----- answers -----

  function RequestOf(r: Reply): Request {
    match r
    case RadAccept | RadReject | RadChallenge => RadAuth
    case RadAcctResponse => RadAcct
    case TacAuthenPass | TacAuthenFail => TacAuthen
    case TacAuthorPass | TacAuthorFail => TacAuthor
    case TacAcctOk | TacAcctFail | TacAcctGarbled => TacAcct
  }

  function ServerOf(r: Request): Method {
    if r == RadAuth || r == RadAcct then Radius else Tacacs
  }

  /** What the receive functions write. They match an answer to a login by the packet id or session id of
      its request alone, so it takes effect whatever method the login has moved on to. */
  function ReplyEffect(p: Authing, r: Reply): Authing {
    match r
    case RadAccept => p.(result := AuthenSuccess, authRetry := 0)
    case RadReject => p.(result := AuthenFailed, authRetry := 0)
    case RadChallenge => p.(authRetry := 0)
    case RadAcctResponse => p.(result := AcctSuccess, authRetry := 0)
    case TacAuthenPass => p.(result := AuthenSuccess)
    case TacAuthenFail => p.(result := AuthenFailed)
    case TacAuthorPass => p.(result := AuthorSuccess)
    case TacAuthorFail => p.(result := AuthorFailed)
    case TacAcctOk => p.(result := AcctSuccess, acctLeft := TAC_RSP_TIMEOUT)
    case TacAcctFail => p.(result := AcctFailed, acctLeft := TAC_RSP_TIMEOUT)
    case TacAcctGarbled => p.(result := AcctFailed)
  }

  function ApplyReply(p: Authing, r: Reply): Authing {
    ReplyEffect(p, r).(history := p.history.(replies := p.history.replies + [r]))
  }

  /** The answer is to a request that this login has sent, under whichever method. */
  predicate Asked(p: Authing, r: Reply) {
    RequestOf(r) in p.history.asked
  }

  /** The answer comes from the server of the method that the login is at. */
  predicate AtCurrent(cfg: Config, p: Authing, r: Reply)
    requires 1 <= p.order <= 4
  {
    ServerOf(RequestOf(r)) == Selected(cfg, p)
  }

  predicate IsAuthor(r: AaaResult) { r == AuthorNoServer || r == AuthorFailed || r == AuthorSuccess }

  predicate IsAcct(r: AaaResult) { r == AcctNoServer || r == AcctFailed || r == AcctSuccess }

  // ----- progress -----

  /** The states of an unfinished login in which a tick does nothing at all. */
  predicate Stuck(cfg: Config, p: Authing)
    requires 1 <= p.order <= 4
  {
    match Selected(cfg, p)
    case Local => !Waiting(p.result)
    case Radius => IsAuthor(p.result)
    case Unknown => true
    case _ => false
  }

  /** How the work left for a login is reckoned: either with what an answer can add to it, a phase change
      and a restarted accounting timeout, or without, so that no answer adds anything. */
  datatype Reckoning = WithAnswers | LoginsAlone

  /** What is left to do for a login: methods, resends and timeouts, and what answers can bring back. */
  function Work(p: Authing, how: Reckoning): nat
    requires p.order <= 4
  {
    3 * (5 - p.order) + p.authRetry + p.acctRetry + p.authenLeft + p.authorLeft
    + (if how == WithAnswers then p.acctLeft + (if p.result == AuthenSuccess then 1 else 0) else 0)
  }

  function Distance(cfg: Config, x: nat): nat {
    if x < ResendTicks(cfg) then ResendTicks(cfg) - x else 0
  }

  /** A repeated answer can take a login at TACACS+ back to a phase that it has left, without end: to
      authorization after its waived timeout, or to whatever comes before accounting, whose answer restarts
      the accounting timeout. */
  predicate Revertible(cfg: Config) {
    (cfg.tacAuthor && (cfg.onlineAuthorFailed || cfg.tacAcct)) || (cfg.tacAcct && cfg.onlineAuthorFailed)
  }

  /** Checks of this login are progress on that reckoning. */
  predicate Reckoned(cfg: Config, p: Authing, how: Reckoning)
    requires 1 <= p.order <= 4
  {
    how == LoginsAlone && Selected(cfg, p) == Tacacs ==>
      !Revertible(cfg) && (IsAuthor(p.result) ==> cfg.tacAuthor)
  }

  /** A check either settled the login, or used up work, or moved a shared resend timer on. */
  predicate Progressed(cfg: Config, p: Authing, t: Timers, q: Authing, u: Timers, how: Reckoning)
    requires p.order <= 4
  {
    || q.finished
    || (q.order <= 4 && Work(q, how) < Work(p, how))
    || (q == p && Distance(cfg, u.acct) < Distance(cfg, t.acct))
    || (q == p && u.acct == t.acct && Distance(cfg, u.auth) < Distance(cfg, t.auth))
  }

  lemma NextMethodProgress(cfg: Config, p: Authing, why: AaaResult, t: Timers, u: Timers, how: Reckoning)
    requires 1 <= p.order <= 4 && Waiting(why)
    ensures Progressed(cfg, p, t, NextMethod(p, why), u, how)
  {
  }

  lemma RadiusProgress(cfg: Config, p: Authing, t: Timers, how: Reckoning)
    requires 1 <= p.order <= 4 && !IsAuthor(p.result)
    ensures var (q, u) := RadiusCheck(cfg, p, t); Progressed(cfg, p, t, q, u, how)
  {
    var (q, u) := RadiusCheck(cfg, p, t);
    NextMethodProgress(cfg, p, AuthenNoServer, t, u, how);
  }

  predicate TacacsAdvanced(p: Authing, q: Authing, how: Reckoning)
    requires p.order <= 4
  {
    q.finished || (q.order <= 4 && Work(q, how) < Work(p, how))
  }

  lemma TacacsAccountingProgress(p: Authing, t: Timers)
    requires 1 <= p.order <= 4
    ensures TacacsAdvanced(p, TacacsAccounting(p, t).0, WithAnswers)
  {
  }

  lemma TacacsAuthorizedProgress(cfg: Config, p: Authing, t: Timers, how: Reckoning)
    requires 1 <= p.order <= 4 && (how == LoginsAlone ==> !cfg.tacAcct)
    ensures TacacsAdvanced(p, TacacsAuthorized(cfg, p, t).0, how)
  {
    if how == WithAnswers { TacacsAccountingProgress(p, t); }
  }

  lemma TacacsAuthenticatingProgress(p: Authing, t: Timers, how: Reckoning)
    requires 1 <= p.order <= 4
    ensures TacacsAdvanced(p, TacacsAuthenticating(p, t).0, how)
  {
  }

  lemma TacacsAuthorizingProgress(cfg: Config, p: Authing, t: Timers, how: Reckoning)
    requires 1 <= p.order <= 4 && p.result == AuthenSuccess && (how == LoginsAlone ==> !Revertible(cfg))
    ensures TacacsAdvanced(p, TacacsAuthorizing(cfg, p, t).0, how)
  {
    if how == WithAnswers { TacacsAccountingProgress(p, t); }
  }

  lemma TacacsProgress(cfg: Config, p: Authing, t: Timers, how: Reckoning)
    requires 1 <= p.order <= 4 && Selected(cfg, p) == Tacacs && Reckoned(cfg, p, how)
    ensures TacacsAdvanced(p, TacacsStep(cfg, p, t).0, how)
  {
    match p.result
    case AuthenInvalid | AuthenNoServer | AuthenNoUser => TacacsAuthenticatingProgress(p, t, how);
    case AuthenSuccess => TacacsAuthorizingProgress(cfg, p, t, how);
    case AuthorNoServer | AuthorFailed => if cfg.onlineAuthorFailed { TacacsAuthorizedProgress(cfg, p, t, how); }
    case AuthorSuccess => TacacsAuthorizedProgress(cfg, p, t, how);
    case AuthenFailed | AcctNoServer | AcctFailed | AcctSuccess =>
  }

  /** Whatever answers a login has had, a tick that does anything to it brings it nearer to being settled;
      where no answer can take it back, it does so on the reckoning that no answer adds to. */
  lemma CheckProgress(cfg: Config, p: Authing, t: Timers, how: Reckoning)
    requires 1 <= p.order <= 4 && !p.finished && !Stuck(cfg, p) && Reckoned(cfg, p, how)
    ensures var (q, u) := Check(cfg, p, t); Progressed(cfg, p, t, q, u, how)
  {
    match Selected(cfg, p)
    case Radius => RadiusProgress(cfg, p, t, how);
    case Tacacs => TacacsProgress(cfg, p, t, how);
    case Local => NextMethodProgress(cfg, p, AuthenNoUser, t, t, how);
    case _ =>
  }

  lemma TickIdleExactlyWhenStuck(cfg: Config, p: Authing, t: Timers)
    requires 1 <= p.order <= 4 && !p.finished
    ensures Check(cfg, p, t) == (p, t) <==> Stuck(cfg, p)
  {
  }

  /** A tick by itself strands nobody, on a list without unknown methods. */
  lemma CheckNeverStrands(cfg: Config, p: Authing, t: Timers)
    requires ValidOrder(cfg) && 1 <= p.order <= 4 && !p.finished && !Stuck(cfg, p)
    ensures var q := Check(cfg, p, t).0; q.finished || (1 <= q.order <= 4 && !Stuck(cfg, q))
  {
    if p.order < 4 { assert GetAuthOrder(cfg, p.order + 1) != Unknown; }
    if Selected(cfg, p) == Tacacs { TacacsMovesOnWaiting(cfg, p, t); }
  }

  /** A step stays at its place, unless it is over or goes to the next place to wait there. */
  predicate MovesOnWaiting(p: Authing, q: Authing) {
    q.user == p.user && (q.finished || q.order == p.order || (q.order == p.order + 1 <= 4 && Waiting(q.result)))
  }

  lemma TacacsAuthorizedMovesOn(cfg: Config, p: Authing, t: Timers)
    requires 1 <= p.order <= 4
    ensures MovesOnWaiting(p, TacacsAuthorized(cfg, p, t).0) && MovesOnWaiting(p, TacacsAccounting(p, t).0)
  {
  }

  lemma TacacsAuthorizingMovesOn(cfg: Config, p: Authing, t: Timers)
    requires 1 <= p.order <= 4
    ensures MovesOnWaiting(p, TacacsAuthorizing(cfg, p, t).0)
  {
    TacacsAuthorizedMovesOn(cfg, p, t);
  }

  lemma TacacsMovesOnWaiting(cfg: Config, p: Authing, t: Timers)
    requires 1 <= p.order <= 4
    ensures MovesOnWaiting(p, TacacsStep(cfg, p, t).0)
  {
    match p.result
    case AuthenInvalid | AuthenNoServer | AuthenNoUser => assert MovesOnWaiting(p, TacacsAuthenticating(p, t).0);
    case AuthenSuccess => TacacsAuthorizingMovesOn(cfg, p, t);
    case AuthorNoServer | AuthorFailed | AuthorSuccess => TacacsAuthorizedMovesOn(cfg, p, t);
    case AuthenFailed | AcctNoServer | AcctFailed | AcctSuccess =>
  }

  /** An answer leaves a login to which ticks then do nothing exactly when it reaches the login at the
      local check, or is a TACACS+ authorization answer that reaches it at RADIUS. */
  lemma LateReplyStrands(cfg: Config, p: Authing, r: Reply)
    requires 1 <= p.order <= 4 && !p.finished && !Stuck(cfg, p)
    ensures Stuck(cfg, ApplyReply(p, r)) <==>
      || (Selected(cfg, p) == Local && r != RadChallenge)
      || (Selected(cfg, p) == Radius && (r == TacAuthorPass || r == TacAuthorFail))
  {
  }

  /** A configured list never skips over a method that has accepted the user: the switches that would
      make it do so were corrected when the list was set. */
  lemma AcceptedNeverSkipped(cfg: Config, m1: Method, m2: Method, m3: Method, m4: Method, p: Authing, t: Timers)
    requires !Lists(Unknown, m1, m2, m3, m4)
    requires 1 <= p.order <= 4 && !p.finished && !Waiting(p.result)
    ensures Check(SetAuthOrder(cfg, m1, m2, m3, m4), p, t).0.order == p.order
  {
    SelectedIsListed(cfg, m1, m2, m3, m4, p);
    var c := SetAuthOrder(cfg, m1, m2, m3, m4);
    AcceptedKeepsPlace(c, p, t, Selected(c, p));
  }

  lemma SelectedIsListed(cfg: Config, m1: Method, m2: Method, m3: Method, m4: Method, p: Authing)
    requires !Lists(Unknown, m1, m2, m3, m4) && 1 <= p.order <= 4
    ensures var m := Selected(SetAuthOrder(cfg, m1, m2, m3, m4), p); m == Local || Lists(m, m1, m2, m3, m4)
  {
    SetAuthOrderReadsBack(cfg, m1, m2, m3, m4);
    assert p.order == 1 || p.order == 2 || p.order == 3 || p.order == 4;
  }

  lemma AcceptedKeepsPlace(c: Config, p: Authing, t: Timers, m: Method)
    requires 1 <= p.order <= 4 && !p.finished && !Waiting(p.result) && m == Selected(c, p)
    requires m == Radius && !c.onlineAcctFailed ==> c.radiusAcct
    requires m == Tacacs && !c.onlineAuthorFailed ==> c.tacAuthor
    requires m == Tacacs && !c.onlineAcctFailed ==> c.tacAcct
    ensures Check(c, p, t).0.order == p.order
  {
    if m == Tacacs { assert TacacsStep(c, p, t).0.order == p.order; }
    if m == Radius { assert RadiusCheck(c, p, t).0.order == p.order; }
  }
}
