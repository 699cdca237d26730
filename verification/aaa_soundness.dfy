/** Which lists of methods let a login in only on its own method's word: the per-login invariant. */
module AaaSoundness {
  import opened AaaTypes
  import opened AaaSession

  // ----- when a list crosses methods -----

  /** A login that has been accepted at TACACS+ can get in: no needed service is switched off. */
  predicate TacacsAdmits(cfg: Config) {
    (cfg.tacAuthor || cfg.onlineAuthorFailed) && (cfg.tacAcct || cfg.onlineAcctFailed)
  }

  /** Likewise at RADIUS. */
  predicate RadiusAdmits(cfg: Config) {
    cfg.onlineAcctFailed || (cfg.radiusAcct && Attempts(cfg) > 0)
  }

  /** How often a request is sent; a byte counts it. */
  function Attempts(cfg: Config): nat { cfg.retryTimes % 256 }

  /** A login can go past position k: its server may not answer, or may not know the user. */
  predicate Passable(cfg: Config, k: int)
    requires 1 <= k <= 4
  {
    var m := GetAuthOrder(cfg, k);
    m == Radius || m == Tacacs || m == Local
  }

  predicate PassableUpTo(cfg: Config, order: int)
    requires order <= 4
  {
    forall k | 1 <= k < order :: Passable(cfg, k)
  }

  /** A login at position j can hold an acceptance that it asked for at position i, and use it. */
  predicate CrossesAt(cfg: Config, i: int, j: int)
    requires 1 <= i < j <= 4
  {
    && PassableUpTo(cfg, j)
    && match GetAuthOrder(cfg, j)
       case Tacacs => GetAuthOrder(cfg, i) == Radius && Attempts(cfg) > 0 && TacacsAdmits(cfg)
       case Radius => GetAuthOrder(cfg, i) == Tacacs && RadiusAdmits(cfg)
       case _ => false
  }

  predicate Crosses(cfg: Config) {
    cfg.loginMax > 0 && exists i, j | 1 <= i < j <= 4 :: CrossesAt(cfg, i, j)
  }

  // ----- what an admission rests on -----

  /** The answers seen, with the policy switches, justify letting the user in under `m`. */
  predicate Justified(cfg: Config, m: Method, replies: seq<Reply>) {
    match m
    case Radius => RadAccept in replies && (RadAcctResponse in replies || cfg.onlineAcctFailed)
    case Tacacs =>
      && TacAuthenPass in replies
      && (TacAuthorPass in replies || cfg.onlineAuthorFailed)
      && (TacAcctOk in replies || cfg.onlineAcctFailed)
    case _ => true
  }

  // ----- the invariant of a pending login -----

  predicate HasUpTo(cfg: Config, order: int, m: Method)
    requires order <= 4
  {
    exists i | 1 <= i <= order :: GetAuthOrder(cfg, i) == m
  }

  /** Where a login must be if it has sent a request. */
  predicate AskedInOrder(cfg: Config, p: Authing)
    requires 1 <= p.order <= 4
  {
    var asked, m := p.history.asked, Selected(cfg, p);
    && (p.user == SUPER_USER ==> asked == {} && Waiting(p.result))
    && (RadAuth in asked ==> Attempts(cfg) > 0 && HasUpTo(cfg, p.order, Radius))
    && (TacAuthen in asked ==> HasUpTo(cfg, p.order, Tacacs))
    && (RadAcct in asked ==> m == Radius && !Waiting(p.result) && cfg.radiusAcct && Attempts(cfg) > 0)
    && (TacAcct in asked ==> m == Tacacs && !Waiting(p.result) && cfg.tacAcct && TacacsAdmits(cfg))
    && (TacAuthor in asked ==>
          && cfg.tacAuthor && HasUpTo(cfg, p.order, Tacacs)
          && (RadAuth in asked || TacAuthen in asked))
    && (TacAuthor in asked && TacacsAdmits(cfg) ==> m == Tacacs && !Waiting(p.result))
  }

  /** What a result tells about the requests sent. */
  predicate ResultInOrder(cfg: Config, p: Authing)
    requires 1 <= p.order <= 4
  {
    var asked, m := p.history.asked, Selected(cfg, p);
    && (m == Tacacs && IsAuthor(p.result) ==> cfg.tacAuthor)
    && (m == Tacacs && IsAcct(p.result) ==> TacAcct in asked)
    && (m == Radius && IsAcct(p.result) ==> RadAcct in asked)
    && (m == Radius && IsAuthor(p.result) ==> TacAuthor in asked)
    && (m == Local && asked == {} ==> Waiting(p.result))
    && (p.result == AuthenSuccess ==> RadAuth in asked || TacAuthen in asked)
  }

  predicate RadiusInv(p: Authing) {
    var h := p.history;
    && (RadAcct in h.asked || p.result == AuthenSuccess || IsAcct(p.result) ==> RadAccept in h.replies)
    && (p.result == AcctSuccess ==> RadAcctResponse in h.replies)
  }

  predicate TacacsInv(cfg: Config, p: Authing) {
    var h := p.history;
    && (TacAuthor in h.asked || TacAcct in h.asked ==> TacAuthenPass in h.replies)
    && (p.result == AuthenSuccess || IsAuthor(p.result) || IsAcct(p.result) ==> TacAuthenPass in h.replies)
    && (p.result == AuthorSuccess ==> TacAuthorPass in h.replies)
    && (TacAcct in h.asked || IsAcct(p.result) ==> TacAuthorPass in h.replies || cfg.onlineAuthorFailed)
    && (p.result == AcctSuccess ==> TacAcctOk in h.replies)
  }

  /** On a list that does not cross methods: what the answers so far must hold. */
  predicate AnswersInOrder(cfg: Config, p: Authing)
    requires 1 <= p.order <= 4
  {
    match Selected(cfg, p)
    case Radius => RadiusAdmits(cfg) ==> RadiusInv(p)
    case Tacacs => TacacsAdmits(cfg) ==> TacacsInv(cfg, p)
    case _ => true
  }

  /** Holds of every pending login between events, when answers are to requests it sent. */
  predicate LoginInv(cfg: Config, p: Authing) {
    && 1 <= p.order <= 4
    && !p.finished
    && cfg.loginMax > 0
    && (p.user != SUPER_USER ==> PassableUpTo(cfg, p.order))
    && p.authRetry <= Attempts(cfg) && p.acctRetry <= Attempts(cfg)
    && AskedInOrder(cfg, p)
    && ResultInOrder(cfg, p)
    && (!Crosses(cfg) ==> AnswersInOrder(cfg, p))
  }

  /** `q` is what a check made of `p`: still pending in order, or admitted with reason. */
  predicate SoundStep(cfg: Config, p: Authing, q: Authing)
    requires 1 <= p.order <= 4
  {
    && (VerdictOf(cfg, q) == Pending ==> LoginInv(cfg, q))
    && (VerdictOf(cfg, q) == Admitted && !Crosses(cfg) ==> Justified(cfg, Selected(cfg, p), q.history.replies))
  }

  lemma StaysBehind(cfg: Config, order: int, m: Method)
    requires 1 <= order < 4
    ensures HasUpTo(cfg, order, m) ==> HasUpTo(cfg, order + 1, m)
  {
  }

  /** A login that may go on, having asked nothing that binds it to its place. */
  predicate FreeToGo(cfg: Config, p: Authing)
    requires 1 <= p.order <= 4
  {
    var asked := p.history.asked;
    && RadAcct !in asked && TacAcct !in asked && (TacAuthor in asked ==> !TacacsAdmits(cfg))
    && (p.user != SUPER_USER ==> Passable(cfg, p.order))
  }

  lemma NextKeepsAsked(cfg: Config, p: Authing, why: AaaResult)
    requires LoginInv(cfg, p) && Waiting(why) && FreeToGo(cfg, p) && p.order < 4
    ensures AskedInOrder(cfg, NextMethod(p, why))
  {
    StaysBehind(cfg, p.order, Radius);
    StaysBehind(cfg, p.order, Tacacs);
  }

  lemma NextMethodIsSound(cfg: Config, p: Authing, why: AaaResult)
    requires LoginInv(cfg, p) && Waiting(why) && FreeToGo(cfg, p)
    ensures SoundStep(cfg, p, NextMethod(p, why))
  {
    if p.order < 4 {
      NextKeepsAsked(cfg, p, why);
      assert p.user != SUPER_USER ==> PassableUpTo(cfg, p.order + 1);
    }
  }

  lemma RadiusWaitingIsSound(cfg: Config, p: Authing, t: Timers)
    requires LoginInv(cfg, p) && Selected(cfg, p) == Radius && Waiting(p.result)
    ensures SoundStep(cfg, p, RadiusCheck(cfg, p, t).0)
  {
    assert HasUpTo(cfg, p.order, Radius);
    if p.authRetry == 0 {
      NextMethodIsSound(cfg, p, AuthenNoServer);
    }
  }

  lemma RadiusAcceptedIsSound(cfg: Config, p: Authing, t: Timers)
    requires LoginInv(cfg, p) && Selected(cfg, p) == Radius && p.result == AuthenSuccess
    ensures SoundStep(cfg, p, RadiusCheck(cfg, p, t).0)
  {
    if !cfg.radiusAcct {
      NextMethodIsSound(cfg, p, AuthenNoServer);
    }
  }

  lemma RadiusIsSound(cfg: Config, p: Authing, t: Timers)
    requires LoginInv(cfg, p) && Selected(cfg, p) == Radius
    ensures SoundStep(cfg, p, RadiusCheck(cfg, p, t).0)
  {
    match p.result
    case AuthenInvalid | AuthenNoServer | AuthenNoUser => RadiusWaitingIsSound(cfg, p, t);
    case AuthenSuccess => RadiusAcceptedIsSound(cfg, p, t);
    case _ =>
  }

  lemma TacacsAccountingIsSound(cfg: Config, p: Authing, t: Timers)
    requires LoginInv(cfg, p) && Selected(cfg, p) == Tacacs && !Waiting(p.result) && cfg.tacAcct && TacacsAdmits(cfg)
    requires !Crosses(cfg) ==> TacAuthenPass in p.history.replies
    requires !Crosses(cfg) ==> TacAuthorPass in p.history.replies || cfg.onlineAuthorFailed
    ensures SoundStep(cfg, p, TacacsAccounting(p, t).0)
  {
  }

  lemma TacacsAuthorizedIsSound(cfg: Config, p: Authing, t: Timers)
    requires LoginInv(cfg, p) && Selected(cfg, p) == Tacacs && IsAuthor(p.result)
    requires p.result == AuthorSuccess || cfg.onlineAuthorFailed
    ensures SoundStep(cfg, p, TacacsAuthorized(cfg, p, t).0)
  {
    if cfg.tacAcct {
      TacacsAccountingIsSound(cfg, p, t);
    } else if !cfg.onlineAcctFailed {
      NextMethodIsSound(cfg, p, AuthenNoServer);
    }
  }

  lemma TacacsAuthenticatingIsSound(cfg: Config, p: Authing, t: Timers)
    requires LoginInv(cfg, p) && Selected(cfg, p) == Tacacs && Waiting(p.result)
    ensures SoundStep(cfg, p, TacacsAuthenticating(p, t).0)
  {
    assert HasUpTo(cfg, p.order, Tacacs);
    NextMethodIsSound(cfg, p, AuthenNoServer);
    NextMethodIsSound(cfg, Ask(p, TacAuthen), AuthenNoServer);
  }

  lemma TacacsAuthorizingIsSound(cfg: Config, p: Authing, t: Timers)
    requires LoginInv(cfg, p) && Selected(cfg, p) == Tacacs && p.result == AuthenSuccess
    ensures SoundStep(cfg, p, TacacsAuthorizing(cfg, p, t).0)
  {
    if cfg.tacAuthor {
    } else if !cfg.onlineAuthorFailed || (!cfg.tacAcct && !cfg.onlineAcctFailed) {
      NextMethodIsSound(cfg, p, AuthenNoServer);
    } else if cfg.tacAcct {
      TacacsAccountingIsSound(cfg, p, t);
    }
  }

  lemma TacacsIsSound(cfg: Config, p: Authing, t: Timers)
    requires LoginInv(cfg, p) && Selected(cfg, p) == Tacacs
    ensures SoundStep(cfg, p, TacacsStep(cfg, p, t).0)
  {
    match p.result
    case AuthenInvalid | AuthenNoServer | AuthenNoUser => TacacsAuthenticatingIsSound(cfg, p, t);
    case AuthenSuccess => TacacsAuthorizingIsSound(cfg, p, t);
    case AuthorNoServer | AuthorFailed => if cfg.onlineAuthorFailed { TacacsAuthorizedIsSound(cfg, p, t); }
    case AuthorSuccess => TacacsAuthorizedIsSound(cfg, p, t);
    case AuthenFailed | AcctNoServer | AcctFailed | AcctSuccess =>
  }

  /** Every login that a tick leaves pending is in order; and on a list that does not cross methods no
      tick lets anyone in without the word of the method that the login is at. */
  lemma CheckIsSound(cfg: Config, p: Authing, t: Timers)
    requires LoginInv(cfg, p)
    ensures SoundStep(cfg, p, Check(cfg, p, t).0)
  {
    match Selected(cfg, p)
    case Radius => RadiusIsSound(cfg, p, t);
    case Tacacs => TacacsIsSound(cfg, p, t);
    case Local => if Waiting(p.result) { NextMethodIsSound(cfg, p, AuthenNoUser); }
    case _ =>
  }

  /** An answer to any request the login has sent, under whichever method, leaves it in order. */
  lemma ReplyKeepsLogin(cfg: Config, p: Authing, r: Reply)
    requires LoginInv(cfg, p) && Asked(p, r)
    ensures LoginInv(cfg, ApplyReply(p, r))
  {
    ReplyKeepsAsked(cfg, p, r);
    if !Crosses(cfg) {
      match Selected(cfg, p) {
        case Radius => if RadiusAdmits(cfg) { ReplyKeepsRadius(cfg, p, r); }
        case Tacacs => if TacacsAdmits(cfg) { ReplyKeepsTacacs(cfg, p, r); }
        case _ =>
      }
    }
  }

  lemma ReplyKeepsAsked(cfg: Config, p: Authing, r: Reply)
    requires LoginInv(cfg, p) && Asked(p, r)
    ensures AskedInOrder(cfg, ApplyReply(p, r)) && ResultInOrder(cfg, ApplyReply(p, r))
  {
  }

  lemma ReplyKeepsRadius(cfg: Config, p: Authing, r: Reply)
    requires LoginInv(cfg, p) && Asked(p, r) && !Crosses(cfg) && Selected(cfg, p) == Radius && RadiusAdmits(cfg)
    ensures RadiusInv(ApplyReply(p, r))
  {
    NotAskedAcross(cfg, p, Tacacs);
  }

  lemma ReplyKeepsTacacs(cfg: Config, p: Authing, r: Reply)
    requires LoginInv(cfg, p) && Asked(p, r) && !Crosses(cfg) && Selected(cfg, p) == Tacacs && TacacsAdmits(cfg)
    ensures TacacsInv(cfg, ApplyReply(p, r))
  {
    if Attempts(cfg) > 0 { NotAskedAcross(cfg, p, Radius); }
  }

  lemma NotAskedAcross(cfg: Config, p: Authing, m: Method)
    requires LoginInv(cfg, p) && !Crosses(cfg)
    requires
      || (Selected(cfg, p) == Radius && RadiusAdmits(cfg) && m == Tacacs)
      || (Selected(cfg, p) == Tacacs && TacacsAdmits(cfg) && Attempts(cfg) > 0 && m == Radius)
    ensures !HasUpTo(cfg, p.order, m)
  {
    if HasUpTo(cfg, p.order, m) {
      var i :| 1 <= i <= p.order && GetAuthOrder(cfg, i) == m;
      assert p.user != SUPER_USER && i < p.order;
      assert CrossesAt(cfg, i, p.order);
    }
  }
}
