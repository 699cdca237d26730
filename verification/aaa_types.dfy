/** Configuration and records of the AAA daemon (aaa.h, aaa_config.h, aaa_user_manager.h). */
module AaaTypes {

  // aaa.h: table sizes, timer period and the hidden super user.
  const TABLE_MAX := 32
  const CHECK_INTERVAL := 200
  const SUPER_USER := "nmsuser"

  // aaa_tac_plus_common.h and aaa_radius_common.h: timeouts, in ticks of the timer that counts them.
  const TAC_RSP_TIMEOUT := 6
  const TAC_ACCT_TIMEOUT := 30
  const RADIUS_ACCT_TIMEOUT := 5
  const RADIUS_ACCT_FAILURES := 5

  /** `Unknown` stands for a nibble that is none of the enumeration's five values. */
  datatype Method = Invalid | Radius | Tacacs | Local | NoAuth | Unknown

  datatype AaaResult =
    | AuthenInvalid | AuthenNoServer | AuthenNoUser | AuthenFailed | AuthenSuccess
    | AuthorNoServer | AuthorFailed | AuthorSuccess
    | AcctNoServer | AcctFailed | AcctSuccess

  /** A request the daemon sends to a server on behalf of a pending login. */
  datatype Request = RadAuth | RadAcct | TacAuthen | TacAuthor | TacAcct

  /** What a server's answer amounts to once the receive functions have decoded it. */
  datatype Reply =
    | RadAccept | RadReject | RadChallenge | RadAcctResponse
    | TacAuthenPass | TacAuthenFail
    | TacAuthorPass | TacAuthorFail
    | TacAcctOk | TacAcctFail | TacAcctGarbled

  datatype LocalUser = LocalUser(password: string, maxRepeat: int)

  datatype Config = Config(
    authOrder: nat,              // four nibbles, the first method in the highest
    onlineAuthorFailed: bool,
    onlineAcctFailed: bool,
    radiusAcct: bool,
    tacAuthor: bool,
    tacAcct: bool,
    retryTimes: nat,
    retryInterval: nat,
    rspTimeout: nat,
    radiusUpdate: nat,
    tacUpdate: nat,
    aliveMax: nat,
    idleMax: nat,
    loginMax: nat,
    localUsers: map<string, LocalUser>)

  /** Proof-only history of a login: its number among all logins ever taken, what it has asked the
      servers under any method, and what they have answered, in order. */
  datatype History = History(serial: nat, asked: set<Request>, replies: seq<Reply>)

  /** A login in the authing table. */
  datatype Authing = Authing(
    user: string,
    password: string,
    order: int,
    finished: bool,
    result: AaaResult,
    authRetry: nat,
    acctRetry: nat,
    authenLeft: nat,
    authorLeft: nat,
    acctLeft: nat,
    history: History)

  /** A session in the online table; `history` is what its login had seen when it was admitted. */
  datatype Online = Online(
    id: nat,
    user: string,
    password: string,
    logMethod: Method,
    alive: nat,
    retryLeft: nat,
    responseLeft: nat,
    sendFlag: bool,
    failures: nat,
    tacUpdateLeft: int,
    tacResponseLeft: int,
    tacSendFlag: bool,
    tacFailed: bool,
    history: History)

  /** The counters that the radius and tacacs checks keep in static variables: one set for the
      whole daemon, not one per login. */
  datatype Timers = Timers(auth: nat, acct: nat, authenCnt: nat, authorCnt: nat, acctCnt: nat)

  function MethodCode(m: Method): (n: nat)
    ensures n < 16
  {
    match m
    case Invalid => 0
    case Radius => 1
    case Tacacs => 2
    case Local => 3
    case NoAuth => 4
    case Unknown => 15
  }

  /** The method at position `order` of the configured list; nibbles above 4 name no method. */
  function Nibble(word: nat, order: int): (n: nat)
    requires 1 <= order <= 4
    ensures n < 16
    decreases 4 - order
  {
    if order == 4 then word % 16 else Nibble(word / 16, order + 1)
  }

  predicate ValidOrder(cfg: Config) {
    forall i | 1 <= i <= 4 :: GetAuthOrder(cfg, i) != Unknown
  }

  function GetAuthOrder(cfg: Config, order: int): Method
    requires 1 <= order <= 4
  {
    MethodOf(Nibble(cfg.authOrder, order))
  }

  function MethodOf(code: nat): Method {
    match code
    case 1 => Radius
    case 2 => Tacacs
    case 3 => Local
    case 4 => NoAuth
    case 0 => Invalid
    case _ => Unknown
  }

  function Packed(a: nat, b: nat, c: nat, d: nat): nat {
    ((a * 16 + b) * 16 + c) * 16 + d
  }

  predicate Lists(m: Method, m1: Method, m2: Method, m3: Method, m4: Method) {
    m == m1 || m == m2 || m == m3 || m == m4
  }

  /** Configuring the method list also switches on the services that the list relies on. */
  function SetAuthOrder(cfg: Config, m1: Method, m2: Method, m3: Method, m4: Method): Config {
    cfg.(authOrder := Packed(MethodCode(m1), MethodCode(m2), MethodCode(m3), MethodCode(m4)),
         tacAuthor := cfg.tacAuthor || (Lists(Tacacs, m1, m2, m3, m4) && !cfg.onlineAuthorFailed),
         tacAcct := cfg.tacAcct || (Lists(Tacacs, m1, m2, m3, m4) && !cfg.onlineAcctFailed),
         radiusAcct := cfg.radiusAcct || (Lists(Radius, m1, m2, m3, m4) && !cfg.onlineAcctFailed))
  }

  lemma NibbleOfPacked(a: nat, b: nat, c: nat, d: nat)
    requires a < 16 && b < 16 && c < 16 && d < 16
    ensures Nibble(Packed(a, b, c, d), 1) == a && Nibble(Packed(a, b, c, d), 2) == b
    ensures Nibble(Packed(a, b, c, d), 3) == c && Nibble(Packed(a, b, c, d), 4) == d
  {
    var w := Packed(a, b, c, d);
    assert w / 16 == (a * 16 + b) * 16 + c && w % 16 == d;
    assert w / 16 / 16 == a * 16 + b && w / 16 % 16 == c;
    assert w / 16 / 16 / 16 == a && w / 16 / 16 % 16 == b && a % 16 == a;
    assert Nibble(w, 4) == d;
    assert Nibble(w, 3) == Nibble(w / 16, 4) == c;
    assert Nibble(w, 2) == Nibble(w / 16, 3) == Nibble(w / 16 / 16, 4) == b;
    assert Nibble(w, 1) == Nibble(w / 16, 2) == Nibble(w / 16 / 16, 3) == Nibble(w / 16 / 16 / 16, 4) == a;
  }

  /** Packing loses nothing: position i reads back the i-th method, whatever the rest was. */
  lemma SetAuthOrderReadsBack(cfg: Config, m1: Method, m2: Method, m3: Method, m4: Method)
    requires !Lists(Unknown, m1, m2, m3, m4)
    ensures var c := SetAuthOrder(cfg, m1, m2, m3, m4);
      && ValidOrder(c)
      && c.authOrder == 4096 * MethodCode(m1) + 256 * MethodCode(m2) + 16 * MethodCode(m3) + MethodCode(m4)
      && GetAuthOrder(c, 1) == m1 && GetAuthOrder(c, 2) == m2
      && GetAuthOrder(c, 3) == m3 && GetAuthOrder(c, 4) == m4
  {
    NibbleOfPacked(MethodCode(m1), MethodCode(m2), MethodCode(m3), MethodCode(m4));
    NibblesAreMethods(SetAuthOrder(cfg, m1, m2, m3, m4), m1, m2, m3, m4);
  }

  /** The services that setting the list turns on: TACACS+ authorization and accounting and RADIUS accounting,
      each if the list has its protocol and its failure is not waived. Nothing is turned off, and nothing else
      is touched. */
  lemma SetAuthOrderServices(cfg: Config, m1: Method, m2: Method, m3: Method, m4: Method)
    ensures var c, listed := SetAuthOrder(cfg, m1, m2, m3, m4), {m1, m2, m3, m4};
      && (c.tacAuthor <==> cfg.tacAuthor || (Tacacs in listed && !cfg.onlineAuthorFailed))
      && (c.tacAcct <==> cfg.tacAcct || (Tacacs in listed && !cfg.onlineAcctFailed))
      && (c.radiusAcct <==> cfg.radiusAcct || (Radius in listed && !cfg.onlineAcctFailed))
      && c == cfg.(authOrder := c.authOrder, tacAuthor := c.tacAuthor, tacAcct := c.tacAcct, radiusAcct := c.radiusAcct)
  {
  }

  lemma NibblesAreMethods(c: Config, m1: Method, m2: Method, m3: Method, m4: Method)
    requires !Lists(Unknown, m1, m2, m3, m4)
    requires Nibble(c.authOrder, 1) == MethodCode(m1) && Nibble(c.authOrder, 2) == MethodCode(m2)
    requires Nibble(c.authOrder, 3) == MethodCode(m3) && Nibble(c.authOrder, 4) == MethodCode(m4)
    ensures ValidOrder(c)
    ensures GetAuthOrder(c, 1) == m1 && GetAuthOrder(c, 2) == m2
    ensures GetAuthOrder(c, 3) == m3 && GetAuthOrder(c, 4) == m4
  {
    forall i | 1 <= i <= 4
      ensures GetAuthOrder(c, i) != Unknown
    {
    }
  }
}
