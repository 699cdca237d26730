/** TACACS+ authorization bodies: the request (section 6.1 of RFC 8907) and the reply (section 6.2), as
    tac_plus_author.c and tac_plus_attrib.c write and read them. */
module TacacsAuthor {
  import opened Basics

  const DATA_ROOM := 1024
  const REQUEST_FIXED := 8
  const REPLY_FIXED := 6
  const MAX_PACKET := 128000
  const MAX_ARGS := 100

  /** A string whose length fits the byte that the protocol gives it. */
  type Field = s: seq<Octet> | |s| < 256

  function Lengths(args: seq<Field>): (lens: seq<Octet>)
    ensures |lens| == |args| && forall i :: 0 <= i < |args| ==> lens[i] == |args[i]|
  {
    seq(|args|, i requires 0 <= i < |args| => |args[i]|)
  }

  function Sum(lens: seq<Octet>): nat {
    if lens == [] then 0 else Sum(lens[..|lens| - 1]) + lens[|lens| - 1]
  }

  function Concat(args: seq<Field>): (s: seq<Octet>)
    ensures |s| == Sum(Lengths(args))
  {
    if args == [] then []
    else
      var n := |args| - 1;
      assert Lengths(args)[..n] == Lengths(args[..n]);
      Concat(args[..n]) + args[n]
  }

  /** Cuts bytes into strings of the given lengths. */
  function Cut(bytes: seq<Octet>, lens: seq<Octet>): (args: seq<Field>)
    requires Sum(lens) == |bytes|
    ensures |args| == |lens|
    decreases |lens|
  {
    if lens == [] then []
    else
      var n := |lens| - 1;
      Cut(bytes[..|bytes| - lens[n]], lens[..n]) + [bytes[|bytes| - lens[n]..]]
  }

  lemma CutLast(head: seq<Octet>, last: Field, lens: seq<Octet>)
    requires lens != [] && Sum(lens) == |head + last| && lens[|lens| - 1] == |last|
    ensures Sum(lens[..|lens| - 1]) == |head| && Cut(head + last, lens) == Cut(head, lens[..|lens| - 1]) + [last]
  {
    assert (head + last)[..|head|] == head && (head + last)[|head|..] == last;
  }

  lemma ConcatUnfolds(args: seq<Field>, n: nat)
    requires |args| == n + 1
    ensures Concat(args) == Concat(args[..n]) + args[n]
    ensures Lengths(args)[..n] == Lengths(args[..n]) && |Lengths(args)| == n + 1 && Lengths(args)[n] == |args[n]|
  {
  }

  lemma CutConcatNext(args: seq<Field>, n: nat, front: seq<Field>, last: Field)
    requires |args| == n + 1 && front == args[..n] && last == args[n]
    requires Cut(Concat(front), Lengths(front)) == front
    ensures Cut(Concat(args), Lengths(args)) == front + [last]
  {
    ConcatUnfolds(args, n);
    CutLast(Concat(front), last, Lengths(args));
  }

  lemma {:induction false} CutConcat(args: seq<Field>)
    ensures Cut(Concat(args), Lengths(args)) == args
    decreases |args|
  {
    if args != [] {
      var n := |args| - 1;
      CutConcat(args[..n]);
      CutConcatNext(args, n, args[..n], args[n]);
      assert args == args[..n] + [args[n]];
    }
  }

  lemma {:induction false} SumSplit(a: seq<Octet>, b: seq<Octet>)
    ensures Sum(a + b) == Sum(a) + Sum(b)
  {
    if b == [] {
      assert a + b == a;
    } else {
      assert (a + b)[..|a + b| - 1] == a + b[..|b| - 1];
      SumSplit(a, b[..|b| - 1]);
    }
  }

  // ----- the request -----

  datatype Request = Request(user: Field, port: Field, addr: Field, args: seq<Field>)

  /** What is stored for sending: the header's length, the fixed fields and the data. */
  datatype Recorded = Recorded(datalength: nat, fixed: seq<Octet>, data: seq<Octet>)

  function DataLength(q: Request): nat {
    |q.user| + |q.port| + |q.addr| + |q.args| + Sum(Lengths(q.args))
  }

  function DataOf(q: Request): (d: seq<Octet>)
    ensures |d| == DataLength(q)
  {
    Lengths(q.args) + q.user + q.port + q.addr + Concat(q.args)
  }

  /** method TACACS+, privilege user, type PAP, no service; then the four counts, the last one a byte */
  function FixedOf(q: Request): (f: seq<Octet>)
    ensures |f| == REQUEST_FIXED
  {
    [6, 1, 2, 0, |q.user|, |q.port|, |q.addr|, |q.args| % 256]
  }

  function Record(q: Request): Option<Recorded> {
    if DataLength(q) > DATA_ROOM then None
    else Some(Recorded(REQUEST_FIXED + DataLength(q), FixedOf(q), DataOf(q)))
  }

  /** memcpy at a running offset. */
  method Put(buf: array<Octet>, at: nat, s: seq<Octet>) returns (next: nat)
    requires at + |s| <= buf.Length
    modifies buf
    ensures next == at + |s| && buf[..next] == old(buf[..at]) + s
  {
    for i := 0 to |s|
      invariant buf[..at] == old(buf[..at])
      invariant forall j :: 0 <= j < i ==> buf[at + j] == s[j]
    {
      buf[at + i] := s[i];
    }
    return at + |s|;
  }

  /** tac_record_author_info */
  method RecordAuthorInfo(q: Request) returns (r: Option<Recorded>)
    ensures r == Record(q)
  {
    var dataLen, cnt := |q.user| + |q.port| + |q.addr|, 0;
    for i := 0 to |q.args|
      invariant dataLen == |q.user| + |q.port| + |q.addr| + i + Sum(Lengths(q.args)[..i])
      invariant cnt == i % 256
    {
      assert Lengths(q.args)[..i + 1][..i] == Lengths(q.args)[..i];
      dataLen := dataLen + 1 + |q.args[i]|;
      cnt := (cnt + 1) % 256;
    }
    assert Lengths(q.args)[..|q.args|] == Lengths(q.args);
    if dataLen > DATA_ROOM {
      return None;
    }
    var data := RecordData(q);
    return Some(Recorded(REQUEST_FIXED + dataLen, [6, 1, 2, 0, |q.user|, |q.port|, |q.addr|, cnt], data[..dataLen]));
  }

  method RecordData(q: Request) returns (data: array<Octet>)
    requires DataLength(q) <= DATA_ROOM
    ensures data.Length == DATA_ROOM && data[..DataLength(q)] == DataOf(q)
  {
    data := new Octet[DATA_ROOM](_ => 0);
    var len := PutLengths(data, q.args);
    len := Put(data, len, q.user);
    len := Put(data, len, q.port);
    len := Put(data, len, q.addr);
    len := PutArgs(data, len, q.args);
  }

  method PutLengths(data: array<Octet>, args: seq<Field>) returns (len: nat)
    requires |args| <= data.Length
    modifies data
    ensures len == |args| && data[..len] == Lengths(args)
  {
    len := 0;
    for i := 0 to |args|
      invariant len == i && data[..len] == Lengths(args)[..i]
    {
      len := Put(data, len, [|args[i]|]);
      assert Lengths(args)[..i + 1] == Lengths(args)[..i] + [|args[i]|];
    }
    assert Lengths(args)[..|args|] == Lengths(args);
  }

  method PutArgs(data: array<Octet>, at: nat, args: seq<Field>) returns (len: nat)
    requires at + |Concat(args)| <= data.Length
    modifies data
    ensures len == at + |Concat(args)| && data[..len] == old(data[..at]) + Concat(args)
  {
    len := at;
    for i := 0 to |args|
      invariant len == at + |Concat(args[..i])| <= data.Length
      invariant data[..len] == old(data[..at]) + Concat(args[..i])
    {
      ConcatNext(args, i);
      Regroup(old(data[..at]), Concat(args[..i]), args[i]);
      len := Put(data, len, args[i]);
    }
    assert args[..|args|] == args;
  }

  lemma ConcatNext(args: seq<Field>, i: nat)
    requires i < |args|
    ensures Concat(args[..i + 1]) == Concat(args[..i]) + args[i]
    ensures |Concat(args[..i + 1])| <= |Concat(args)|
  {
    assert args[..i + 1][..i] == args[..i];
    assert Lengths(args) == Lengths(args[..i + 1]) + Lengths(args[i + 1..]);
    SumSplit(Lengths(args[..i + 1]), Lengths(args[i + 1..]));
  }

  /** The recomputation before sending: counts from the fixed fields, argument lengths from the data. */
  method SendLength(r: Recorded) returns (ok: bool)
    requires |r.fixed| == REQUEST_FIXED && r.fixed[7] <= |r.data|
    ensures ok <==>
      r.datalength == REQUEST_FIXED + r.fixed[4] + r.fixed[5] + r.fixed[6] + r.fixed[7] + Sum(r.data[..r.fixed[7]])
  {
    var dataLen: int := r.fixed[4];
    dataLen := dataLen + r.fixed[5] + r.fixed[6];
    for i := 0 to r.fixed[7]
      invariant dataLen == r.fixed[4] + r.fixed[5] + r.fixed[6] + i + Sum(r.data[..i])
    {
      assert r.data[..i + 1][..i] == r.data[..i];
      dataLen := dataLen + 1 + r.data[i];
    }
    return dataLen + REQUEST_FIXED == r.datalength;
  }

  lemma LengthsLead(q: Request, n: nat)
    requires n <= |q.args|
    ensures DataOf(q)[..n] == Lengths(q.args)[..n]
  {
  }

  /** Leaving lengths out leaves at least one per argument out. */
  lemma SumOfPart(lens: seq<Octet>, n: nat)
    requires n <= |lens|
    ensures n + Sum(lens[..n]) <= |lens| + Sum(lens)
    ensures n + Sum(lens[..n]) == |lens| + Sum(lens) <==> n == |lens|
  {
    assert lens == lens[..n] + lens[n..];
    SumSplit(lens[..n], lens[n..]);
    assert lens[..|lens|] == lens;
  }

  /** A request is recorded exactly when its strings and a byte for each argument fit in 1024 bytes. */
  lemma RecordedExactly(q: Request)
    ensures Record(q).Some? <==>
      |q.user| + |q.port| + |q.addr| + |q.args| + |Concat(q.args)| <= 1024
  {
  }

  /** A recorded request passes that check exactly when the number of arguments fits its byte. */
  lemma SendLengthAgreesExactly(q: Request)
    requires Record(q).Some?
    ensures var r := Record(q).value;
      && r.fixed[7] <= |r.data|
      && (r.datalength == REQUEST_FIXED + r.fixed[4] + r.fixed[5] + r.fixed[6] + r.fixed[7] + Sum(r.data[..r.fixed[7]])
          <==> |q.args| < 256)
  {
    LengthsLead(q, |q.args| % 256);
    SumOfPart(Lengths(q.args), |q.args| % 256);
  }

  /** What a request says to a reader of section 6.1: how the user was authenticated, at what privilege, by
      which type and for which service, and the request proper. */
  datatype Heard = Heard(authenMethod: Octet, privLvl: Octet, authenType: Octet, service: Octet, request: Request)

  /** Such a reader: None when the counts do not add up to the body. */
  function Decode(body: seq<Octet>): Option<Heard> {
    if |body| < REQUEST_FIXED then None
    else
      match Parts(body[REQUEST_FIXED..], body[7], body[4], body[5], body[6])
      case None => None
      case Some(request) => Some(Heard(body[0], body[1], body[2], body[3], request))
  }

  function Parts(rest: seq<Octet>, n: Octet, u: Octet, p: Octet, a: Octet): Option<Request> {
    if |rest| < n || |rest| != n + u + p + a + Sum(rest[..n]) then None
    else
      Some(Request(rest[n..n + u], rest[n + u..n + u + p], rest[n + u + p..n + u + p + a],
                   Cut(rest[n + u + p + a..], rest[..n])))
  }

  lemma Slices(a: seq<Octet>, b: seq<Octet>, c: seq<Octet>, d: seq<Octet>, e: seq<Octet>)
    ensures var s, i, j, k := a + b + c + d + e, |a| + |b|, |a| + |b| + |c|, |a| + |b| + |c| + |d|;
      s[..|a|] == a && s[|a|..i] == b && s[i..j] == c && s[j..k] == d && s[k..] == e
  {
  }

  lemma PartsOfData(q: Request)
    requires |q.args| < 256
    ensures Parts(DataOf(q), |q.args|, |q.user|, |q.port|, |q.addr|) == Some(q)
  {
    Slices(Lengths(q.args), q.user, q.port, q.addr, Concat(q.args));
    CutConcat(q.args);
  }

  lemma DecodeIs(fixed: seq<Octet>, data: seq<Octet>, q: Request)
    requires |fixed| == REQUEST_FIXED && Parts(data, fixed[7], fixed[4], fixed[5], fixed[6]) == Some(q)
    ensures Decode(fixed + data) == Some(Heard(fixed[0], fixed[1], fixed[2], fixed[3], q))
  {
    assert (fixed + data)[REQUEST_FIXED..] == data;
    assert forall i :: 0 <= i < REQUEST_FIXED ==> (fixed + data)[i] == fixed[i];
  }

  lemma RequestRoundTrip(q: Request)
    requires |q.args| < 256
    ensures Decode(FixedOf(q) + DataOf(q)) == Some(Heard(6, 1, 2, 0, q))
  {
    PartsOfData(q);
    DecodeIs(FixedOf(q), DataOf(q), q);
  }

  /** The reader learns that a user (level 1) was authenticated by TACACS+ (method 6) with PAP (type 2) for no
      service in particular (0), and recovers user, port, address and arguments, exactly when the arguments
      can be counted. */
  lemma RequestRoundTripExactly(q: Request)
    requires Record(q).Some?
    ensures Decode(Record(q).value.fixed + Record(q).value.data) == Some(Heard(6, 1, 2, 0, q)) <==> |q.args| < 256
  {
    if |q.args| < 256 { RequestRoundTrip(q); }
  }

  // ----- the reply -----

  datatype Reply = Reply(status: Octet, msg: seq<Octet>, data: seq<Octet>, args: seq<Field>)

  datatype Parsed = ProtocolError | Parsed(reply: Reply)

  function Word(hi: Octet, lo: Octet): nat { hi * 256 + lo }

  /** The parser's reads: inside the body, or whatever memory holds behind it. */
  function At(body: seq<Octet>, behind: nat -> Octet, i: nat): Octet {
    if i < |body| then body[i] else behind(i)
  }

  function Checked(argCnt: Octet): (n: nat)
    ensures n <= argCnt && n <= MAX_ARGS && (argCnt <= MAX_ARGS ==> n == argCnt)
  {
    if argCnt < MAX_ARGS then argCnt else MAX_ARGS
  }

  /** The body is as long as its counts say, as far as the parser counts. */
  predicate Consistent(body: seq<Octet>) {
    && REPLY_FIXED <= |body| <= MAX_PACKET
    && var n := Checked(body[1]);
       && REPLY_FIXED + n <= |body|
       && |body| == REPLY_FIXED + Word(body[2], body[3]) + Word(body[4], body[5]) + n
                    + Sum(body[REPLY_FIXED..REPLY_FIXED + n])
  }

  /** The consistency check of tac_author_rcv_process accepts exactly the consistent bodies, whatever lies
      behind the body; its own loop checks let it read at most the one byte there. */
  method CheckReply(body: seq<Octet>, behind: nat -> Octet) returns (ok: bool)
    ensures ok <==> Consistent(body)
  {
    if |body| > MAX_PACKET {
      return false;
    }
    var argCnt := At(body, behind, 1);
    var msgLen := Word(At(body, behind, 2), At(body, behind, 3));
    var dataLen := Word(At(body, behind, 4), At(body, behind, 5));
    var lenFromBody := REPLY_FIXED + msgLen + dataLen;
    var r := 0;
    while r < argCnt && r < MAX_ARGS
      invariant 0 <= r <= Checked(argCnt) && lenFromBody >= REPLY_FIXED + msgLen + dataLen + r
      invariant REPLY_FIXED + r <= |body| ==>
        lenFromBody == REPLY_FIXED + msgLen + dataLen + r + Sum(body[REPLY_FIXED..REPLY_FIXED + r])
    {
      if lenFromBody > |body| || REPLY_FIXED + r > |body| {
        TooLong(body, r);
        return false;
      }
      lenFromBody := lenFromBody + 1 + At(body, behind, REPLY_FIXED + r);
      r := r + 1;
      if REPLY_FIXED + r <= |body| {
        assert body[REPLY_FIXED..REPLY_FIXED + r][..r - 1] == body[REPLY_FIXED..REPLY_FIXED + r - 1];
      }
    }
    return |body| == lenFromBody;
  }

  /** Counts only grow: too long after r arguments is too long after all. */
  lemma TooLong(body: seq<Octet>, r: nat)
    requires |body| >= REPLY_FIXED ==> r < Checked(body[1])
    requires REPLY_FIXED + r <= |body| ==>
      |body| < REPLY_FIXED + Word(body[2], body[3]) + Word(body[4], body[5]) + r
        + Sum(body[REPLY_FIXED..REPLY_FIXED + r])
    ensures !Consistent(body)
  {
    if |body| >= REPLY_FIXED && REPLY_FIXED + Checked(body[1]) <= |body| {
      var n := Checked(body[1]);
      var all, some := body[REPLY_FIXED..REPLY_FIXED + n], body[REPLY_FIXED..REPLY_FIXED + r];
      assert all == some + all[r..];
      SumSplit(some, all[r..]);
    }
  }

  /** Where the parser takes argument r from. */
  function ArgStart(body: seq<Octet>, r: nat): nat
    requires Consistent(body) && r <= Checked(body[1])
  {
    REPLY_FIXED + body[1] + Word(body[2], body[3]) + Word(body[4], body[5]) + Sum(body[REPLY_FIXED..REPLY_FIXED + r])
  }

  /** Of an accepted reply, everything taken from the body is inside it exactly when it has at most 100
      arguments: beyond that their lengths are not counted but their length bytes are skipped. */
  lemma SlicesInsideExactly(body: seq<Octet>)
    requires Consistent(body)
    ensures ArgStart(body, Checked(body[1])) <= |body| <==> body[1] <= MAX_ARGS
    ensures body[1] <= MAX_ARGS ==> ArgStart(body, body[1]) == |body|
  {
  }

  /** A body as section 6.2 lays it out. */
  function EncodeReply(reply: Reply): (body: seq<Octet>)
    requires |reply.args| < 256 && |reply.msg| < 0x1_0000 && |reply.data| < 0x1_0000
    ensures |body| == REPLY_FIXED + |reply.args| + |reply.msg| + |reply.data| + Sum(Lengths(reply.args))
  {
    HeaderOf(reply) + Lengths(reply.args) + reply.msg + reply.data + Concat(reply.args)
  }

  function HeaderOf(reply: Reply): (h: seq<Octet>)
    requires |reply.args| < 256 && |reply.msg| < 0x1_0000 && |reply.data| < 0x1_0000
    ensures |h| == REPLY_FIXED
  {
    [reply.status, |reply.args|, |reply.msg| / 256, |reply.msg| % 256, |reply.data| / 256, |reply.data| % 256]
  }

  lemma WordOf(n: nat)
    requires n < 0x1_0000
    ensures Word(n / 256, n % 256) == n
  {
  }

  lemma ReplyHeader(reply: Reply)
    requires |reply.args| < 256 && |reply.msg| < 0x1_0000 && |reply.data| < 0x1_0000
    ensures var body := EncodeReply(reply);
      && body[0] == reply.status && body[1] == |reply.args|
      && Word(body[2], body[3]) == |reply.msg| && Word(body[4], body[5]) == |reply.data|
  {
    WordOf(|reply.msg|);
    WordOf(|reply.data|);
    var body, h := EncodeReply(reply), HeaderOf(reply);
    assert body[0] == h[0] && body[1] == h[1] && body[2] == h[2];
    assert body[3] == h[3] && body[4] == h[4] && body[5] == h[5];
  }

  /** A well-formed reply is accepted exactly when it has at most 100 arguments and 128000 bytes. */
  lemma WellFormedAcceptedExactly(reply: Reply)
    requires |reply.args| < 256 && |reply.msg| < 0x1_0000 && |reply.data| < 0x1_0000
    ensures Consistent(EncodeReply(reply)) <==> |reply.args| <= 100 && |EncodeReply(reply)| <= 128000
  {
    ReplyHeader(reply);
    ReplyLengthsLead(reply, Checked(|reply.args|));
    SumOfPart(Lengths(reply.args), Checked(|reply.args|));
  }

  lemma ReplyLengthsLead(reply: Reply, n: nat)
    requires |reply.args| < 256 && |reply.msg| < 0x1_0000 && |reply.data| < 0x1_0000 && n <= |reply.args|
    ensures EncodeReply(reply)[REPLY_FIXED..REPLY_FIXED + n] == Lengths(reply.args)[..n]
  {
  }

  /** What an accepted reply of at most 100 arguments says. */
  function Contents(body: seq<Octet>): Reply
    requires Consistent(body) && body[1] <= MAX_ARGS
  {
    var n, m, d := body[1], Word(body[2], body[3]), Word(body[4], body[5]);
    var at := REPLY_FIXED + n;
    Reply(body[0], body[at..at + m], body[at + m..at + m + d],
          Cut(body[at + m + d..], body[REPLY_FIXED..REPLY_FIXED + n]))
  }

  lemma ReplyRoundTrip(reply: Reply)
    requires |reply.args| <= MAX_ARGS && |reply.msg| < 0x1_0000 && |reply.data| < 0x1_0000
    requires |EncodeReply(reply)| <= MAX_PACKET
    ensures Consistent(EncodeReply(reply)) && Contents(EncodeReply(reply)) == reply
  {
    var body, lens, block := EncodeReply(reply), Lengths(reply.args), Concat(reply.args);
    WellFormedAcceptedExactly(reply);
    ReplyHeader(reply);
    ReplySlices(reply);
    CutConcat(reply.args);
    ContentsAre(body, lens, reply.msg, reply.data, block);
  }

  lemma ContentsAre(body: seq<Octet>, lens: seq<Octet>, msg: seq<Octet>, data: seq<Octet>, block: seq<Octet>)
    requires Consistent(body) && body[1] <= MAX_ARGS && Sum(lens) == |block|
    requires var n, m, d := body[1], Word(body[2], body[3]), Word(body[4], body[5]);
      var at := REPLY_FIXED + n;
      && body[REPLY_FIXED..REPLY_FIXED + n] == lens
      && body[at..at + m] == msg && body[at + m..at + m + d] == data && body[at + m + d..] == block
    ensures Contents(body) == Reply(body[0], msg, data, Cut(block, lens))
  {
  }

  lemma ReplySlices(reply: Reply)
    requires |reply.args| < 256 && |reply.msg| < 0x1_0000 && |reply.data| < 0x1_0000
    ensures var body, at, m, d := EncodeReply(reply), REPLY_FIXED + |reply.args|, |reply.msg|, |reply.data|;
      && body[REPLY_FIXED..at] == Lengths(reply.args)
      && body[at..at + m] == reply.msg && body[at + m..at + m + d] == reply.data
      && body[at + m + d..] == Concat(reply.args)
  {
    var body := EncodeReply(reply);
    Slices(body[..REPLY_FIXED], Lengths(reply.args), reply.msg, reply.data, Concat(reply.args));
  }

  /** Argument r as the parser takes it, from the body or from what lies behind it. */
  function Taken(body: seq<Octet>, behind: nat -> Octet, r: nat): (arg: Field)
    requires Consistent(body) && r < Checked(body[1])
    ensures |arg| == body[REPLY_FIXED + r]
  {
    Read(body, behind, ArgStart(body, r), body[REPLY_FIXED + r])
  }

  function Read(body: seq<Octet>, behind: nat -> Octet, from: nat, n: nat): (arg: seq<Octet>)
    ensures |arg| == n && forall j :: 0 <= j < n ==> arg[j] == At(body, behind, from + j)
  {
    seq<Octet>(n, j requires 0 <= j < n => At(body, behind, from + j))
  }

  /** The argument loop of an accepted reply: one pointer moves through the lengths, one through the
      arguments. Of a reply of at most 100 arguments it takes just what the reply says. */
  method TakeArgs(body: seq<Octet>, behind: nat -> Octet) returns (args: seq<Field>)
    requires Consistent(body)
    ensures |args| == Checked(body[1])
    ensures forall r :: 0 <= r < |args| ==> args[r] == Taken(body, behind, r)
    ensures body[1] <= MAX_ARGS ==> args == Contents(body).args
  {
    var pktp: nat, r: nat := REPLY_FIXED, 0;
    var argp: nat := pktp + body[1] + Word(body[2], body[3]) + Word(body[4], body[5]);
    args := [];
    while r < body[1] && r < MAX_ARGS
      invariant 0 <= r <= Checked(body[1]) && pktp == REPLY_FIXED + r && argp == ArgStart(body, r)
      invariant |args| == r && forall k :: 0 <= k < r ==> args[k] == Taken(body, behind, k)
    {
      NextStart(body, r);
      args := args + [Read(body, behind, argp, body[pktp])];
      argp := argp + body[pktp];
      pktp := pktp + 1;
      r := r + 1;
    }
    if body[1] <= MAX_ARGS { TakenIsContents(body, behind, args); }
  }

  lemma NextStart(body: seq<Octet>, r: nat)
    requires Consistent(body) && r < Checked(body[1])
    ensures ArgStart(body, r + 1) == ArgStart(body, r) + body[REPLY_FIXED + r]
  {
    assert body[REPLY_FIXED..REPLY_FIXED + r + 1][..r] == body[REPLY_FIXED..REPLY_FIXED + r];
  }

  function LensOf(body: seq<Octet>): seq<Octet>
    requires Consistent(body) && body[1] <= MAX_ARGS
  {
    body[REPLY_FIXED..REPLY_FIXED + body[1]]
  }

  function BlockOf(body: seq<Octet>): (block: seq<Octet>)
    requires Consistent(body) && body[1] <= MAX_ARGS
    ensures |block| == Sum(LensOf(body))
  {
    body[REPLY_FIXED + body[1] + Word(body[2], body[3]) + Word(body[4], body[5])..]
  }

  /** Argument k is what its length cuts out of the block. */
  predicate PieceIs(block: seq<Octet>, lens: seq<Octet>, k: nat, arg: Field)
    requires k < |lens|
  {
    var from := Sum(lens[..k]);
    from + lens[k] <= |block| && arg == block[from..from + lens[k]]
  }

  lemma TakenInside(body: seq<Octet>, behind: nat -> Octet, r: nat)
    requires Consistent(body) && r < body[1] <= MAX_ARGS
    ensures PieceIs(BlockOf(body), LensOf(body), r, Taken(body, behind, r))
  {
    var lens, block := LensOf(body), BlockOf(body);
    SumUpTo(lens, r);
    assert lens[..r] == body[REPLY_FIXED..REPLY_FIXED + r];
    var k: nat, from: nat := Sum(lens[..r]), |body| - |block|;
    assert ArgStart(body, r) == from + k;
    forall j | 0 <= j < lens[r] ensures Taken(body, behind, r)[j] == block[k..k + lens[r]][j] {
      assert block[k + j] == body[from + k + j];
    }
  }

  lemma {:induction false} CutIs(block: seq<Octet>, lens: seq<Octet>, args: seq<Field>, r: nat)
    requires r <= |args| == |lens| && Sum(lens) == |block|
    requires forall k :: 0 <= k < |args| ==> PieceIs(block, lens, k, args[k])
    ensures Sum(lens[..r]) <= |block| && args[..r] == Cut(block[..Sum(lens[..r])], lens[..r])
  {
    if r > 0 {
      CutIs(block, lens, args, r - 1);
      CutIsNext(block, lens, args[..r - 1], args[r - 1], r - 1);
      assert args[..r] == args[..r - 1] + [args[r - 1]];
    }
  }

  lemma CutIsNext(block: seq<Octet>, lens: seq<Octet>, front: seq<Field>, arg: Field, r: nat)
    requires r < |lens| && Sum(lens) == |block| && PieceIs(block, lens, r, arg)
    requires front == Cut(block[..Sum(lens[..r])], lens[..r])
    ensures Sum(lens[..r + 1]) <= |block| && front + [arg] == Cut(block[..Sum(lens[..r + 1])], lens[..r + 1])
  {
    SumUpTo(lens, r);
    CutNext(block, lens, r);
  }

  lemma ContentsCut(body: seq<Octet>)
    requires Consistent(body) && body[1] <= MAX_ARGS
    ensures Contents(body).args == Cut(BlockOf(body), LensOf(body))
  {
  }

  lemma TakenIsContents(body: seq<Octet>, behind: nat -> Octet, args: seq<Field>)
    requires Consistent(body) && |args| == body[1] <= MAX_ARGS
    requires forall k :: 0 <= k < |args| ==> args[k] == Taken(body, behind, k)
    ensures args == Contents(body).args
  {
    var lens, block := LensOf(body), BlockOf(body);
    forall k | 0 <= k < |args| ensures PieceIs(block, lens, k, args[k]) {
      TakenInside(body, behind, k);
    }
    CutWhole(block, lens, args);
    ContentsCut(body);
  }

  lemma CutWhole(block: seq<Octet>, lens: seq<Octet>, args: seq<Field>)
    requires |args| == |lens| && Sum(lens) == |block|
    requires forall k :: 0 <= k < |args| ==> PieceIs(block, lens, k, args[k])
    ensures args == Cut(block, lens)
  {
    CutIs(block, lens, args, |args|);
    assert lens[..|args|] == lens && block[..Sum(lens)] == block && args[..|args|] == args;
  }

  lemma CutNext(block: seq<Octet>, lens: seq<Octet>, r: nat)
    requires r < |lens| && Sum(lens[..r + 1]) == Sum(lens[..r]) + lens[r] <= |block|
    ensures var k := Sum(lens[..r]);
      Cut(block[..k + lens[r]], lens[..r + 1]) == Cut(block[..k], lens[..r]) + [block[k..k + lens[r]]]
  {
    var k := Sum(lens[..r]);
    var part := block[..k + lens[r]];
    assert lens[..r + 1][..r] == lens[..r] && lens[..r + 1][r] == lens[r];
    assert part[..k] == block[..k] && part[k..] == block[k..k + lens[r]];
  }

  lemma SumUpTo(lens: seq<Octet>, r: nat)
    requires r < |lens|
    ensures Sum(lens[..r + 1]) == Sum(lens[..r]) + lens[r] <= Sum(lens)
  {
    assert lens[..r + 1][..r] == lens[..r];
    assert lens == lens[..r + 1] + lens[r + 1..];
    SumSplit(lens[..r + 1], lens[r + 1..]);
  }

  // ----- arguments -----

  const EQUALS: Octet := 61
  const STAR: Octet := 42

  function Index(s: seq<Octet>, c: Octet): (k: nat)
    ensures k <= |s| && c !in s[..k] && (k < |s| ==> s[k] == c)
    ensures k < |s| <==> c in s
  {
    if s == [] || s[0] == c then 0 else 1 + Index(s[1..], c)
  }

  /** The string a C reader sees. */
  function Text(arg: seq<Octet>): seq<Octet> { arg[..Index(arg, 0)] }

  datatype Pair = Pair(name: seq<Octet>, sep: Octet, value: Option<seq<Octet>>)

  /** At the first `=`, else at the first `*`; a name alone has no value. */
  function Split(arg: Field): Pair {
    var s := Text(arg);
    var e, t := Index(s, EQUALS), Index(s, STAR);
    if e < |s| then Pair(s[..e], EQUALS, Some(s[e + 1..]))
    else if t < |s| then Pair(s[..t], STAR, Some(s[t + 1..]))
    else Pair(s, EQUALS, None)
  }

  /** tac_add_attrib_pair on the end of the list; pairs over 255 bytes are left out. */
  function AddPair(list: seq<seq<Octet>>, p: Pair): seq<seq<Octet>> {
    var value := if p.value.Some? then p.value.value else [];
    if |p.name| + |value| + 1 > 255 then list else list + [p.name + [p.sep] + value]
  }

  lemma CutAt(s: seq<Octet>, c: Octet)
    requires c in s
    ensures s == s[..Index(s, c)] + [c] + s[Index(s, c) + 1..]
  {
  }

  lemma SplitRejoins(arg: Field)
    requires 0 !in arg
    ensures Text(arg) == arg
    ensures EQUALS in arg || STAR in arg ==>
      Split(arg).value.Some? && Split(arg).name + [Split(arg).sep] + Split(arg).value.value == arg
    ensures EQUALS !in arg && STAR !in arg ==> Split(arg) == Pair(arg, EQUALS, None)
  {
    if EQUALS in arg { CutAt(arg, EQUALS); }
    else if STAR in arg { CutAt(arg, STAR); }
  }

  /** An argument is mandatory, and split at its first `=`, if it has one; optional, and split at its first
      `*`, if it has only that; and a name alone otherwise. */
  lemma SplitExactly(arg: Field)
    ensures var s, p := Text(arg), Split(arg);
      && (61 in s ==> p.sep == 61 && 61 !in p.name)
      && (61 !in s && 42 in s ==> p.sep == 42 && 42 !in p.name)
      && (61 in s || 42 in s ==> p.value.Some? && p.name + [p.sep] + p.value.value == s)
      && (61 !in s && 42 !in s ==> p == Pair(s, 61, None))
  {
    var s := Text(arg);
    if EQUALS in s { CutAt(s, EQUALS); } else if STAR in s { CutAt(s, STAR); }
  }

  /** What is read of an argument with a zero byte stops there, so it cannot come back. */
  lemma ZeroCuts(arg: Field)
    requires 0 in arg
    ensures var p := Split(arg);
      p.name + [p.sep] + (if p.value.Some? then p.value.value else []) != arg
  {
    var s, p := Text(arg), Split(arg);
    var joined := p.name + [p.sep] + if p.value.Some? then p.value.value else [];
    if p.value.Some? {
      CutAt(s, p.sep);
      assert joined == s;
    } else {
      assert joined[|s|] == EQUALS && arg[|s|] == 0;
    }
  }

  lemma LastDiffers(list: seq<seq<Octet>>, x: seq<Octet>, y: seq<Octet>)
    requires x != y
    ensures list + [x] != list + [y]
  {
    assert (list + [x])[|list|] == x && (list + [y])[|list|] == y;
  }

  /** An argument comes back from the attribute list byte for byte exactly when it holds a separator and
      no zero byte; a bare name comes back with `=` behind it, unless it already has 255 bytes. */
  lemma RejoinedExactly(list: seq<seq<Octet>>, arg: Field)
    ensures AddPair(list, Split(arg)) == list + [arg] <==> 0 !in arg && (EQUALS in arg || STAR in arg)
    ensures 0 !in arg && EQUALS !in arg && STAR !in arg ==>
      AddPair(list, Split(arg)) == if |arg| == 255 then list else list + [arg + [EQUALS]]
  {
    var after := AddPair(list, Split(arg));
    if 0 in arg {
      ZeroCuts(arg);
      var p := Split(arg);
      LastDiffers(list, p.name + [p.sep] + (if p.value.Some? then p.value.value else []), arg);
    } else {
      SplitRejoins(arg);
      if EQUALS !in arg && STAR !in arg && |arg| < 255 {
        assert arg + [EQUALS] + [] == arg + [EQUALS] && |arg + [EQUALS]| != |arg|;
        LastDiffers(list, arg + [EQUALS], arg);
      }
    }
  }
}
