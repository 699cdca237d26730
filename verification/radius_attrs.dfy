/** RADIUS attribute lists: built sorted, measured, serialised and searched (aaa_radius.c,
    aaa_radius_auth.c, aaa_radius_acct.c, aaa_dot1x.c; section 5 of RFC 2865). */
module RadiusAttrs {
  import opened Basics

  const HEADER_LEN := 20
  const VALUE_ROOM := 254  // AUTH_STRING_LEN + 1
  const USER_NAME := 1
  const USER_PASSWORD := 2
  const CHAP_PASSWORD := 3
  const STATE := 24
  const VENDOR_SPECIFIC := 26
  const EAP_MESSAGE := 79
  const EAP_CHUNK := 253

  /** A record of the list; `value` is the whole field, zeros behind what was copied in. */
  datatype Attr = Attr(kind: Octet, length: Octet, value: seq<Octet>)

  predicate Formed(a: Attr) {
    a.length >= 2 && |a.value| == VALUE_ROOM
  }

  predicate AllFormed(attrs: seq<Attr>) {
    forall a :: a in attrs ==> Formed(a)
  }

  /** What the attribute says: its value as far as its length byte goes. */
  function Data(a: Attr): (d: seq<Octet>)
    requires Formed(a)
    ensures |d| == a.length - 2
  {
    a.value[..a.length - 2]
  }

  /** radius_attr_pair_add: both the length it is given and the one it stores are bytes. */
  function NewAttr(kind: Octet, val: seq<Octet>, chapId: Octet): Attr
    requires |val| <= EAP_CHUNK
  {
    if kind == CHAP_PASSWORD
    then Attr(kind, (|val| + 3) % 256, [chapId] + val + seq(VALUE_ROOM - 1 - |val|, _ => 0))
    else Attr(kind, (|val| + 2) % 256, val + seq(VALUE_ROOM - |val|, _ => 0))
  }

  lemma NewAttrSays(kind: Octet, val: seq<Octet>, chapId: Octet)
    requires |val| <= if kind == CHAP_PASSWORD then EAP_CHUNK - 1 else EAP_CHUNK
    ensures Formed(NewAttr(kind, val, chapId))
    ensures Data(NewAttr(kind, val, chapId)) == if kind == CHAP_PASSWORD then [chapId] + val else val
  {
  }

  // ----- sorted insertion -----

  predicate Sorted(attrs: seq<Attr>) {
    forall i, j :: 0 <= i < j < |attrs| ==> attrs[i].kind <= attrs[j].kind
  }

  function OfKind(attrs: seq<Attr>, kind: Octet): seq<Attr> {
    if attrs == [] then []
    else
      var last := attrs[|attrs| - 1];
      OfKind(attrs[..|attrs| - 1], kind) + if last.kind == kind then [last] else []
  }

  lemma {:induction false} OfKindSplit(a: seq<Attr>, b: seq<Attr>, kind: Octet)
    ensures OfKind(a + b, kind) == OfKind(a, kind) + OfKind(b, kind)
  {
    if b == [] {
      assert a + b == a;
    } else {
      var n := |b| - 1;
      assert (a + b)[..|a + b| - 1] == a + b[..n];
      OfKindSplit(a, b[..n], kind);
    }
  }

  lemma {:induction false} OfKindNone(attrs: seq<Attr>, kind: Octet)
    requires forall a :: a in attrs ==> a.kind != kind
    ensures OfKind(attrs, kind) == []
  {
    if attrs != [] { OfKindNone(attrs[..|attrs| - 1], kind); }
  }

  /** In front of the first greater kind. */
  function InsertSorted(list: seq<Attr>, attr: Attr): (after: seq<Attr>)
    ensures |after| == |list| + 1
  {
    if list == [] || attr.kind < list[0].kind then [attr] + list
    else [list[0]] + InsertSorted(list[1..], attr)
  }

  /** listnode_add_sort */
  method AddSort(list: seq<Attr>, attr: Attr) returns (after: seq<Attr>)
    ensures after == InsertSorted(list, attr)
  {
    var n := 0;
    while n < |list| && !(attr.kind < list[n].kind)
      invariant 0 <= n <= |list|
      invariant list[..n] + InsertSorted(list[n..], attr) == InsertSorted(list, attr)
    {
      assert list[n..][1..] == list[n + 1..] && list[..n + 1] == list[..n] + [list[n]];
      Regroup(list[..n], [list[n]], InsertSorted(list[n + 1..], attr));
      n := n + 1;
    }
    Regroup(list[..n], [attr], list[n..]);
    after := list[..n] + [attr] + list[n..];
  }

  lemma {:induction false} InsertPosition(list: seq<Attr>, attr: Attr) returns (p: nat)
    requires Sorted(list)
    ensures p <= |list| && InsertSorted(list, attr) == list[..p] + [attr] + list[p..]
    ensures forall i :: 0 <= i < p ==> list[i].kind <= attr.kind
    ensures forall i :: p <= i < |list| ==> list[i].kind > attr.kind
  {
    if list == [] || attr.kind < list[0].kind {
      return 0;
    }
    p := InsertPosition(list[1..], attr);
    p := p + 1;
  }

  lemma {:induction false} InsertLast(list: seq<Attr>, attr: Attr)
    requires forall a :: a in list ==> a.kind <= attr.kind
    ensures InsertSorted(list, attr) == list + [attr]
  {
    if list != [] {
      InsertLast(list[1..], attr);
      assert list[0] in list && list == [list[0]] + list[1..];
    }
  }

  lemma InsertKeepsSorted(list: seq<Attr>, attr: Attr)
    requires Sorted(list)
    ensures Sorted(InsertSorted(list, attr))
  {
    var p := InsertPosition(list, attr);
    var after := InsertSorted(list, attr);
    assert forall i :: 0 <= i < |after| ==> after[i] == if i < p then list[i] else if i == p then attr else list[i - 1];
  }

  /** Adding loses nothing and doubles nothing, whatever the list. */
  lemma {:induction false} InsertAddsOne(list: seq<Attr>, attr: Attr)
    ensures multiset(InsertSorted(list, attr)) == multiset(list) + multiset{attr}
    decreases |list|
  {
    if list != [] {
      InsertAddsOne(list[1..], attr);
      assert list == [list[0]] + list[1..];
    }
  }

  /** Each kind's attributes stay in the order in which they were added. */
  lemma InsertIsStable(list: seq<Attr>, attr: Attr, kind: Octet)
    requires Sorted(list)
    ensures OfKind(InsertSorted(list, attr), kind) == OfKind(list, kind) + if attr.kind == kind then [attr] else []
  {
    var p := InsertPosition(list, attr);
    assert list == list[..p] + list[p..];
    InsertedKind(list[..p], attr, list[p..], kind);
  }

  lemma InsertedKind(a: seq<Attr>, attr: Attr, b: seq<Attr>, kind: Octet)
    requires forall x :: x in b ==> x.kind > attr.kind
    ensures OfKind(a + [attr] + b, kind) == OfKind(a + b, kind) + if attr.kind == kind then [attr] else []
  {
    OfKindSplit(a + [attr], b, kind);
    OfKindSplit(a, b, kind);
    assert (a + [attr])[..|a|] == a;
    if kind == attr.kind { OfKindNone(b, kind); }
  }

  // ----- length and bytes -----

  /** The password attribute of the mode not in use is passed over. */
  predicate Skipped(pap: bool, a: Attr) {
    if pap then a.kind == CHAP_PASSWORD else a.kind == USER_PASSWORD
  }

  /** memcpy of the first `length` bytes of the record. */
  function Wire(a: Attr): (w: seq<Octet>)
    requires Formed(a)
    ensures |w| == a.length && w[0] == a.kind && w[1] == a.length && w[2..] == Data(a)
  {
    [a.kind, a.length] + Data(a)
  }

  function Bytes(attrs: seq<Attr>): seq<Octet>
    requires AllFormed(attrs)
  {
    if attrs == [] then [] else Bytes(attrs[..|attrs| - 1]) + Wire(attrs[|attrs| - 1])
  }

  function SentBytes(pap: bool, attrs: seq<Attr>): seq<Octet>
    requires AllFormed(attrs)
  {
    if attrs == [] then []
    else
      var last := attrs[|attrs| - 1];
      SentBytes(pap, attrs[..|attrs| - 1]) + if Skipped(pap, last) then [] else Wire(last)
  }

  lemma SentBytesNext(pap: bool, attrs: seq<Attr>, i: nat)
    requires i < |attrs| && AllFormed(attrs)
    ensures AllFormed(attrs[..i]) && AllFormed(attrs[..i + 1]) && Formed(attrs[i])
    ensures SentBytes(pap, attrs[..i + 1])
         == SentBytes(pap, attrs[..i]) + if Skipped(pap, attrs[i]) then [] else Wire(attrs[i])
  {
    assert attrs[..i + 1][..i] == attrs[..i];
  }

  /** The attributes sent are the list without the skipped ones, in order. */
  lemma {:induction false} SentIsUnskipped(pap: bool, attrs: seq<Attr>)
    requires AllFormed(attrs)
    ensures AllFormed(Unskipped(pap, attrs)) && SentBytes(pap, attrs) == Bytes(Unskipped(pap, attrs))
  {
    if attrs != [] {
      var n := |attrs| - 1;
      SentIsUnskipped(pap, attrs[..n]);
      if !Skipped(pap, attrs[n]) {
        assert attrs[n] in attrs;
        BytesPush(Unskipped(pap, attrs[..n]), attrs[n]);
      } else {
        assert Unskipped(pap, attrs) == Unskipped(pap, attrs[..n]);
      }
    }
  }

  function Unskipped(pap: bool, attrs: seq<Attr>): seq<Attr> {
    if attrs == [] then []
    else
      var last := attrs[|attrs| - 1];
      Unskipped(pap, attrs[..|attrs| - 1]) + if Skipped(pap, last) then [] else [last]
  }

  lemma OfKindPush(attrs: seq<Attr>, a: Attr, kind: Octet)
    ensures OfKind(attrs + [a], kind) == OfKind(attrs, kind) + if a.kind == kind then [a] else []
  {
    assert (attrs + [a])[..|attrs|] == attrs;
  }

  lemma OfKindOne(a: Attr, kind: Octet)
    ensures OfKind([a], kind) == if a.kind == kind then [a] else []
  {
    assert [a][..0] == [];
  }

  /** A PAP request carries everything but CHAP passwords (type 3), a CHAP request everything but user
      passwords (type 2), each type's attributes in the order of the list. */
  lemma {:induction false} SentKinds(attrs: seq<Attr>, kind: Octet)
    ensures OfKind(Unskipped(true, attrs), kind) == if kind == 3 then [] else OfKind(attrs, kind)
    ensures OfKind(Unskipped(false, attrs), kind) == if kind == 2 then [] else OfKind(attrs, kind)
  {
    if attrs != [] {
      SentKinds(attrs[..|attrs| - 1], kind);
      LastSent(true, attrs, kind);
      LastSent(false, attrs, kind);
    }
  }

  lemma LastSent(pap: bool, attrs: seq<Attr>, kind: Octet)
    requires attrs != []
    ensures var n := |attrs| - 1;
      OfKind(Unskipped(pap, attrs), kind)
      == OfKind(Unskipped(pap, attrs[..n]), kind)
         + if attrs[n].kind == kind && kind != (if pap then 3 else 2) then [attrs[n]] else []
  {
    var before, last := Unskipped(pap, attrs[..|attrs| - 1]), attrs[|attrs| - 1];
    assert before + [] == before && OfKind(before, kind) + [] == OfKind(before, kind);
    OfKindPush(before, last, kind);
  }

  lemma BytesPush(attrs: seq<Attr>, a: Attr)
    requires AllFormed(attrs) && Formed(a)
    ensures AllFormed(attrs + [a]) && Bytes(attrs + [a]) == Bytes(attrs) + Wire(a)
  {
    assert (attrs + [a])[..|attrs|] == attrs;
  }

  lemma ModAdd(a: nat, b: nat)
    ensures (a % 0x1_0000 + b) % 0x1_0000 == (a + b) % 0x1_0000
    ensures a % 0x1_0000 == a <==> a < 0x1_0000
  {
  }

  /** radius_auth_pkt_fill_length: a 16-bit sum. */
  method FillLength(pap: bool, attrs: seq<Attr>) returns (length: nat)
    requires AllFormed(attrs)
    ensures length == (20 + |SentBytes(pap, attrs)|) % 0x1_0000
  {
    length := HEADER_LEN;
    for i := 0 to |attrs|
      invariant AllFormed(attrs[..i]) && length == (HEADER_LEN + |SentBytes(pap, attrs[..i])|) % 0x1_0000
    {
      SentBytesNext(pap, attrs, i);
      var skip := if pap then attrs[i].kind == CHAP_PASSWORD else attrs[i].kind == USER_PASSWORD;
      if skip {
        continue;
      }
      ModAdd(HEADER_LEN + |SentBytes(pap, attrs[..i])|, attrs[i].length);
      length := (length + attrs[i].length) % 0x1_0000;
    }
    assert attrs[..|attrs|] == attrs;
  }

  /** radius_auth_info_to_request_pkt: the header, then the attributes; the length it counts is an int. */
  method Serialise(pap: bool, header: seq<Octet>, attrs: seq<Attr>) returns (buf: seq<Octet>, length: nat)
    requires |header| == 20 && AllFormed(attrs)
    ensures buf == header + SentBytes(pap, attrs) && length == |buf|
  {
    buf, length := header, HEADER_LEN;
    for i := 0 to |attrs|
      invariant AllFormed(attrs[..i]) && buf == header + SentBytes(pap, attrs[..i]) && length == |buf|
    {
      SentBytesNext(pap, attrs, i);
      var skip := if pap then attrs[i].kind == CHAP_PASSWORD else attrs[i].kind == USER_PASSWORD;
      if skip {
        continue;
      }
      Regroup(header, SentBytes(pap, attrs[..i]), Wire(attrs[i]));
      buf := buf + Wire(attrs[i]);
      length := length + attrs[i].length;
    }
    assert attrs[..|attrs|] == attrs;
  }

  /** radius_auth_request_send: the filled length against the serialised one. */
  method SendCheck(pap: bool, header: seq<Octet>, attrs: seq<Attr>) returns (buf: seq<Octet>, sent: bool)
    requires |header| == 20 && AllFormed(attrs)
    ensures AllFormed(Unskipped(pap, attrs)) && buf == header + Bytes(Unskipped(pap, attrs))
    ensures sent <==> |buf| < 0x1_0000
  {
    SentIsUnskipped(pap, attrs);
    var filled := FillLength(pap, attrs);
    var length;
    buf, length := Serialise(pap, header, attrs);
    ModAdd(length, 0);
    return buf, filled == length;
  }

  /** radius_acct_pkt_fill_length and radius_acct_info_to_request_pkt: the same without skipping. */
  method AcctSendCheck(header: seq<Octet>, attrs: seq<Attr>) returns (buf: seq<Octet>, sent: bool)
    requires |header| == 20 && AllFormed(attrs)
    ensures buf == header + Bytes(attrs)
    ensures sent <==> 20 + |Bytes(attrs)| < 0x1_0000
  {
    var filled, length := HEADER_LEN, HEADER_LEN;
    buf := header;
    for i := 0 to |attrs|
      invariant buf == header + Bytes(attrs[..i]) && length == |buf|
      invariant filled == length % 0x1_0000
    {
      assert attrs[..i + 1] == attrs[..i] + [attrs[i]] && attrs[i] in attrs;
      BytesPush(attrs[..i], attrs[i]);
      Regroup(header, Bytes(attrs[..i]), Wire(attrs[i]));
      ModAdd(length, attrs[i].length);
      filled := (filled + attrs[i].length) % 0x1_0000;
      buf := buf + Wire(attrs[i]);
      length := length + attrs[i].length;
    }
    assert attrs[..|attrs|] == attrs;
    ModAdd(length, 0);
    return buf, filled == length;
  }

  // ----- searching the serialised bytes -----

  function FirstOfKind(attrs: seq<Attr>, kind: Octet): (k: nat)
    ensures k <= |attrs| && forall i :: 0 <= i < k ==> attrs[i].kind != kind
    ensures k < |attrs| ==> attrs[k].kind == kind
  {
    if attrs == [] || attrs[0].kind == kind then 0 else 1 + FirstOfKind(attrs[1..], kind)
  }

  lemma FirstOrLater(attrs: seq<Attr>, i: nat, kind: Octet, first: nat)
    requires i < |attrs| && i <= first == FirstOfKind(attrs, kind)
    ensures attrs[i].kind == kind <==> i == first
  {
  }

  /** What a search hands back: the record's type, its length byte, and the bytes it copies. */
  datatype Found = Found(kind: Octet, length: Octet, data: seq<Octet>)

  lemma {:induction false} BytesSplit(a: seq<Attr>, b: seq<Attr>)
    requires AllFormed(a) && AllFormed(b)
    ensures AllFormed(a + b) && Bytes(a + b) == Bytes(a) + Bytes(b)
  {
    if b == [] {
      assert a + b == a;
    } else {
      var n := |b| - 1;
      BytesSplit(a, b[..n]);
      assert b[n] in b && a + b == (a + b[..n]) + [b[n]];
      BytesPush(a + b[..n], b[n]);
      Regroup(Bytes(a), Bytes(b[..n]), Wire(b[n]));
    }
  }

  /** Attribute k stands in the bytes right after those of the attributes before it. */
  lemma BytesAt(attrs: seq<Attr>, k: nat)
    requires AllFormed(attrs) && k < |attrs|
    ensures AllFormed(attrs[..k]) && AllFormed(attrs[..k + 1]) && Formed(attrs[k])
    ensures var at := |Bytes(attrs[..k])|;
      && at + attrs[k].length <= |Bytes(attrs)|
      && Bytes(attrs)[at..at + attrs[k].length] == Wire(attrs[k])
      && |Bytes(attrs[..k + 1])| == at + attrs[k].length
  {
    assert attrs == attrs[..k + 1] + attrs[k + 1..];
    assert attrs[..k + 1][..k] == attrs[..k] && attrs[k] in attrs;
    BytesSplit(attrs[..k + 1], attrs[k + 1..]);
    assert Bytes(attrs[..k + 1]) == Bytes(attrs[..k]) + Wire(attrs[k]);
  }

  lemma FieldsAt(bytes: seq<Octet>, at: nat, a: Attr)
    requires Formed(a) && at + a.length <= |bytes| && bytes[at..at + a.length] == Wire(a)
    ensures bytes[at] == a.kind && bytes[at + 1] == a.length && bytes[at + 2..at + a.length] == Data(a)
  {
    assert bytes[at] == bytes[at..at + a.length][0];
    assert bytes[at + 1] == bytes[at..at + a.length][1];
    assert bytes[at + 2..at + a.length] == bytes[at..at + a.length][2..];
  }

  /** Attribute k as the search hands it back. Where it copies as many bytes as the length byte says, it
      takes the two bytes behind the attribute along, be they the next one's or what lies behind. */
  function FoundAt(attrs: seq<Attr>, k: nat, behind: seq<Octet>, over: bool): Found
    requires AllFormed(attrs) && k < |attrs| && |behind| >= 2
  {
    BytesAt(attrs, k);
    var end := |Bytes(attrs[..k + 1])|;
    var more := if over then (Bytes(attrs) + behind)[end..end + 2] else [];
    Found(attrs[k].kind, attrs[k].length, Data(attrs[k]) + more)
  }

  lemma CopiedOver(data: seq<Octet>, behind: seq<Octet>, at: nat, length: nat, value: seq<Octet>)
    requires 2 <= length && at + length <= |data| && |behind| >= 2 && data[at + 2..at + length] == value
    ensures (data + behind)[at + 2..at + length + 2] == value + (data + behind)[at + length..at + length + 2]
  {
  }

  /** The fields of what the search hands back, without where they stand. */
  lemma FoundFields(attrs: seq<Attr>, k: nat, behind: seq<Octet>, end: nat)
    requires AllFormed(attrs) && k < |attrs| && |behind| >= 2
    requires AllFormed(attrs[..k + 1]) && end == |Bytes(attrs[..k + 1])| <= |Bytes(attrs)| && Formed(attrs[k])
    ensures FoundAt(attrs, k, behind, false) == Found(attrs[k].kind, attrs[k].length, Data(attrs[k]))
    ensures var more := (Bytes(attrs) + behind)[end..end + 2];
      FoundAt(attrs, k, behind, true) == Found(attrs[k].kind, attrs[k].length, Data(attrs[k]) + more)
  {
    assert Data(attrs[k]) + [] == Data(attrs[k]);
  }

  lemma CopiedAt(attrs: seq<Attr>, k: nat, behind: seq<Octet>, at: nat)
    requires AllFormed(attrs) && k < |attrs| && |behind| >= 2
    requires AllFormed(attrs[..k]) && at == |Bytes(attrs[..k])|
    ensures var data, kind, length := Bytes(attrs), attrs[k].kind, attrs[k].length;
      && 2 <= length && at + length <= |data|
      && data[at] == kind && data[at + 1] == length
      && Found(kind, length, data[at + 2..at + length]) == FoundAt(attrs, k, behind, false)
      && Found(kind, length, (data + behind)[at + 2..at + length + 2]) == FoundAt(attrs, k, behind, true)
  {
    BytesAt(attrs, k);
    var data, value, length: nat := Bytes(attrs), Data(attrs[k]), attrs[k].length;
    FieldsAt(data, at, attrs[k]);
    FoundFields(attrs, k, behind, at + length);
    CopiedOver(data, behind, at, length, value);
  }

  /** radius_find_attr_from_response_pkt without a private type: the first attribute of the type, or an
      error exactly when there is none, given more than the two bytes the function insists on. Of a
      vendor-specific one it copies two bytes too many. */
  method FindAttr(data: seq<Octet>, behind: seq<Octet>, kind: Octet, ghost attrs: seq<Attr>)
    returns (found: Option<Found>)
    requires AllFormed(attrs) && data == Bytes(attrs) && |behind| >= 2
    ensures var k := FirstOfKind(attrs, kind);
      found == if |data| > 2 && k < |attrs| then Some(FoundAt(attrs, k, behind, kind == VENDOR_SPECIFIC)) else None
  {
    if |data| <= 2 {
      return None;
    }
    var len := 0;
    ghost var i, first := 0, FirstOfKind(attrs, kind);
    assert attrs[..0] == [];
    while len < |data|
      invariant i <= |attrs| && AllFormed(attrs[..i]) && len == |Bytes(attrs[..i])| <= |data|
      invariant i <= first
      decreases |data| - len
    {
      InsideMeansMore(attrs, i);
      BytesAt(attrs, i);
      FirstOrLater(attrs, i, kind, first);
      CopiedAt(attrs, i, behind, len);
      if data[len] == kind {
        if kind == VENDOR_SPECIFIC {
          return Some(Found(data[len], data[len + 1], (data + behind)[len + 2..len + data[len + 1] + 2]));
        }
        return Some(Found(data[len], data[len + 1], data[len + 2..len + data[len + 1]]));
      }
      len := len + data[len + 1];
      i := i + 1;
    }
    if i < |attrs| { BytesAt(attrs, i); }
    return None;
  }

  lemma InsideMeansMore(attrs: seq<Attr>, i: nat)
    requires AllFormed(attrs) && i <= |attrs| && AllFormed(attrs[..i]) && |Bytes(attrs[..i])| < |Bytes(attrs)|
    ensures i < |attrs|
  {
    assert attrs[..|attrs|] == attrs;
  }

  // ----- what a server finds in a request -----

  /** radius_store_auth_info_into_session: the name, the password hidden for PAP, and the answer for CHAP.
      Both passwords are always in the list; which one travels is decided at sending. */
  method StoreAuthInfo(username: seq<Octet>, hidden: seq<Octet>, chapId: Octet, chap: seq<Octet>)
    returns (list: seq<Attr>)
    requires |username| <= EAP_CHUNK && |hidden| <= EAP_CHUNK && |chap| < EAP_CHUNK
    ensures list == AuthList(username, hidden, chapId, chap)
  {
    list := AddSort([], NewAttr(USER_NAME, username, 0));
    InsertLast(list, NewAttr(USER_PASSWORD, hidden, 0));
    list := AddSort(list, NewAttr(USER_PASSWORD, hidden, 0));
    InsertLast(list, NewAttr(CHAP_PASSWORD, chap, chapId));
    list := AddSort(list, NewAttr(CHAP_PASSWORD, chap, chapId));
  }

  function AuthList(username: seq<Octet>, hidden: seq<Octet>, chapId: Octet, chap: seq<Octet>): seq<Attr>
    requires |username| <= EAP_CHUNK && |hidden| <= EAP_CHUNK && |chap| < EAP_CHUNK
  {
    [NewAttr(USER_NAME, username, 0), NewAttr(USER_PASSWORD, hidden, 0), NewAttr(CHAP_PASSWORD, chap, chapId)]
  }

  /** What a reader of the serialised attributes gets for a type: the data of the first one, if any. */
  function Heard(attrs: seq<Attr>, kind: Octet): Option<seq<Octet>>
    requires AllFormed(attrs)
  {
    var k := FirstOfKind(attrs, kind);
    if k < |attrs| then assert attrs[k] in attrs; Some(Data(attrs[k])) else None
  }

  lemma OfKindFirst(a: Attr, rest: seq<Attr>, kind: Octet)
    ensures OfKind([a] + rest, kind) == if a.kind == kind then [a] + OfKind(rest, kind) else OfKind(rest, kind)
  {
    OfKindSplit([a], rest, kind);
    OfKindOne(a, kind);
    assert [] + OfKind(rest, kind) == OfKind(rest, kind);
  }

  lemma {:induction false} HeardIsFirst(attrs: seq<Attr>, kind: Octet)
    requires AllFormed(attrs)
    ensures forall a :: a in OfKind(attrs, kind) ==> Formed(a)
    ensures Heard(attrs, kind)
         == if OfKind(attrs, kind) == [] then None else Some(Data(OfKind(attrs, kind)[0]))
  {
    if attrs != [] {
      HeardIsFirst(attrs[1..], kind);
      assert attrs == [attrs[0]] + attrs[1..];
      OfKindFirst(attrs[0], attrs[1..], kind);
    }
  }

  /** That is what FindAttr finds in the bytes, outside vendor-specific attributes. */
  lemma HeardIsFound(attrs: seq<Attr>, kind: Octet, behind: seq<Octet>)
    requires AllFormed(attrs) && |behind| >= 2
    ensures var k := FirstOfKind(attrs, kind);
      Heard(attrs, kind) == if k < |attrs| then Some(FoundAt(attrs, k, behind, false).data) else None
  {
    var k := FirstOfKind(attrs, kind);
    if k < |attrs| {
      BytesAt(attrs, k);
      FoundFields(attrs, k, behind, |Bytes(attrs[..k + 1])|);
    }
  }

  /** A server hears of every type what the list says of it, but of a PAP request no CHAP password and of a
      CHAP request no user password. */
  lemma SentIsHeard(attrs: seq<Attr>, kind: Octet)
    requires AllFormed(attrs)
    ensures AllFormed(Unskipped(true, attrs)) && AllFormed(Unskipped(false, attrs))
    ensures Heard(Unskipped(true, attrs), kind) == if kind == 3 then None else Heard(attrs, kind)
    ensures Heard(Unskipped(false, attrs), kind) == if kind == 2 then None else Heard(attrs, kind)
  {
    SentIsUnskipped(true, attrs);
    SentIsUnskipped(false, attrs);
    SentKinds(attrs, kind);
    HeardIsFirst(attrs, kind);
    HeardIsFirst(Unskipped(true, attrs), kind);
    HeardIsFirst(Unskipped(false, attrs), kind);
  }

  /** So of a login the server hears the name and, in PAP mode, the hidden password and nothing for CHAP;
      in CHAP mode the identifier with the answer and no hidden password. */
  lemma LoginIsHeard(username: seq<Octet>, hidden: seq<Octet>, chapId: Octet, chap: seq<Octet>)
    requires |username| <= EAP_CHUNK && |hidden| <= EAP_CHUNK && |chap| < EAP_CHUNK
    ensures var list := AuthList(username, hidden, chapId, chap);
      var pap, other := Unskipped(true, list), Unskipped(false, list);
      && AllFormed(pap) && AllFormed(other)
      && Heard(pap, 1) == Some(username) && Heard(pap, 2) == Some(hidden) && Heard(pap, 3) == None
      && Heard(other, 1) == Some(username) && Heard(other, 2) == None && Heard(other, 3) == Some([chapId] + chap)
  {
    var list := AuthList(username, hidden, chapId, chap);
    NewAttrSays(USER_NAME, username, 0);
    NewAttrSays(USER_PASSWORD, hidden, 0);
    NewAttrSays(CHAP_PASSWORD, chap, chapId);
    SentIsHeard(list, 1);
    SentIsHeard(list, 2);
    SentIsHeard(list, 3);
    assert list[1..] == [list[1], list[2]] && list[1..][1..] == [list[2]];
  }

  // ----- vendor-specific attributes -----

  /** A vendor-specific value: four bytes of vendor, then attributes of the vendor's own. */
  predicate VendorFormed(a: Attr, subs: seq<Attr>) {
    Formed(a) && AllFormed(subs) && a.length >= 6 && Data(a)[4..] == Bytes(subs)
  }

  /** The inner loop, over the attributes inside one vendor-specific attribute. */
  method FindInside(data: seq<Octet>, behind: seq<Octet>, privateKind: Octet, ghost subs: seq<Attr>)
    returns (found: Option<Found>)
    requires AllFormed(subs) && data == Bytes(subs) && |behind| >= 2
    ensures var k := FirstOfKind(subs, privateKind);
      found == if k < |subs| then Some(FoundAt(subs, k, behind, true)) else None
  {
    var len := 0;
    ghost var i, first := 0, FirstOfKind(subs, privateKind);
    assert subs[..0] == [];
    while len < |data|
      invariant i <= |subs| && AllFormed(subs[..i]) && len == |Bytes(subs[..i])| <= |data|
      invariant i <= first
      decreases |data| - len
    {
      InsideMeansMore(subs, i);
      BytesAt(subs, i);
      FirstOrLater(subs, i, privateKind, first);
      CopiedAt(subs, i, behind, len);
      if data[len] == privateKind {
        return Some(Found(data[len], data[len + 1], (data + behind)[len + 2..len + data[len + 1] + 2]));
      }
      len := len + data[len + 1];
      i := i + 1;
    }
    if i < |subs| { BytesAt(subs, i); }
    return None;
  }

  predicate VendorsFormed(attrs: seq<Attr>, subs: seq<seq<Attr>>) {
    && |subs| == |attrs| && AllFormed(attrs)
    && forall i :: 0 <= i < |attrs| && attrs[i].kind == VENDOR_SPECIFIC ==> VendorFormed(attrs[i], subs[i])
  }

  /** What lies behind the k-th attribute: the ones after it, then what lies behind them all. */
  function BehindAt(attrs: seq<Attr>, k: nat, behind: seq<Octet>): (rest: seq<Octet>)
    requires AllFormed(attrs) && k < |attrs|
    ensures |rest| >= |behind|
  {
    BytesAt(attrs, k);
    (Bytes(attrs) + behind)[|Bytes(attrs[..k + 1])|..]
  }

  /** With a private type the function looks inside the first vendor-specific attribute only. */
  function FirstVendorOnly(
      attrs: seq<Attr>, subs: seq<seq<Attr>>, behind: seq<Octet>, privateKind: Octet): Option<Found>
    requires VendorsFormed(attrs, subs) && |behind| >= 2
  {
    var v := FirstOfKind(attrs, VENDOR_SPECIFIC);
    if v == |attrs| then None
    else
      var k := FirstOfKind(subs[v], privateKind);
      if k < |subs[v]| then Some(FoundAt(subs[v], k, BehindAt(attrs, v, behind), true)) else None
  }

  lemma VendorData(data: seq<Octet>, at: nat, a: Attr)
    requires Formed(a) && 6 <= a.length && at + a.length <= |data| && data[at + 2..at + a.length] == Data(a)
    ensures data[at + 6..at + a.length] == Data(a)[4..]
  {
  }

  lemma VendorAt(attrs: seq<Attr>, subs: seq<seq<Attr>>, behind: seq<Octet>, v: nat, at: nat)
    requires VendorsFormed(attrs, subs) && v < |attrs| && attrs[v].kind == VENDOR_SPECIFIC
    requires AllFormed(attrs[..v]) && at == |Bytes(attrs[..v])|
    ensures at + 6 <= at + attrs[v].length <= |Bytes(attrs)| && Bytes(attrs)[at + 1] == attrs[v].length
    ensures var data, end := Bytes(attrs), at + attrs[v].length;
      data[at + 6..end] == Bytes(subs[v]) && (data + behind)[end..] == BehindAt(attrs, v, behind)
  {
    BytesAt(attrs, v);
    FieldsAt(Bytes(attrs), at, attrs[v]);
    VendorData(Bytes(attrs), at, attrs[v]);
  }

  /** Where the first vendor-specific attribute starts. */
  method LocateVendor(data: seq<Octet>, ghost attrs: seq<Attr>) returns (at: Option<nat>)
    requires AllFormed(attrs) && data == Bytes(attrs)
    ensures var v := FirstOfKind(attrs, VENDOR_SPECIFIC);
      && (at.None? <==> v == |attrs|)
      && (at.Some? ==>
            && AllFormed(attrs[..v]) && at.value == |Bytes(attrs[..v])|
            && at.value + attrs[v].length <= |data|
            && data[at.value..at.value + attrs[v].length] == Wire(attrs[v]))
  {
    var len := 0;
    ghost var i := 0;
    assert attrs[..0] == [];
    while len < |data|
      invariant i <= |attrs| && AllFormed(attrs[..i]) && len == |Bytes(attrs[..i])| <= |data|
      invariant i <= FirstOfKind(attrs, VENDOR_SPECIFIC)
      decreases |data| - len
    {
      InsideMeansMore(attrs, i);
      BytesAt(attrs, i);
      FieldsAt(data, len, attrs[i]);
      if data[len] == VENDOR_SPECIFIC {
        return Some(len);
      }
      len := len + data[len + 1];
      i := i + 1;
    }
    if i < |attrs| { BytesAt(attrs, i); }
    return None;
  }

  /** radius_find_attr_from_response_pkt for a vendor-specific attribute with a private type */
  method FindPrivate(
      data: seq<Octet>, behind: seq<Octet>, privateKind: Octet, ghost attrs: seq<Attr>, ghost subs: seq<seq<Attr>>)
    returns (found: Option<Found>)
    requires VendorsFormed(attrs, subs) && data == Bytes(attrs) && |behind| >= 2
    ensures found == if |data| > 2 then FirstVendorOnly(attrs, subs, behind, privateKind) else None
  {
    if |data| <= 2 {
      return None;
    }
    var at := LocateVendor(data, attrs);
    if at.None? {
      return None;
    }
    ghost var v := FirstOfKind(attrs, VENDOR_SPECIFIC);
    VendorAt(attrs, subs, behind, v, at.value);
    var end := at.value + data[at.value + 1];
    found := FindInside(data[at.value + 6..end], (data + behind)[end..], privateKind, subs[v]);
  }

  predicate HasPrivate(subs: seq<Attr>, privateKind: Octet) {
    exists s :: s in subs && s.kind == privateKind
  }

  /** So it finds a private attribute exactly when the first vendor-specific attribute holds one; one that
      only a later vendor-specific attribute holds is reported missing. */
  lemma FoundExactlyInFirstVendor(
      attrs: seq<Attr>, subs: seq<seq<Attr>>, behind: seq<Octet>, privateKind: Octet)
    requires VendorsFormed(attrs, subs) && |behind| >= 2
    ensures FirstVendorOnly(attrs, subs, behind, privateKind).Some? <==>
      var v := FirstOfKind(attrs, VENDOR_SPECIFIC); v < |attrs| && HasPrivate(subs[v], privateKind)
  {
    var v := FirstOfKind(attrs, VENDOR_SPECIFIC);
    if v < |attrs| {
      var k := FirstOfKind(subs[v], privateKind);
      if k < |subs[v]| { assert subs[v][k] in subs[v]; }
    }
  }

  /** What is copied of a private attribute is its value and two bytes more, which are the beginning of what
      comes next in the packet, or of what lies behind it. */
  lemma PrivateValueOverrun(attrs: seq<Attr>, subs: seq<seq<Attr>>, behind: seq<Octet>, privateKind: Octet)
    requires VendorsFormed(attrs, subs) && |behind| >= 2
    requires FirstVendorOnly(attrs, subs, behind, privateKind).Some?
    ensures var v := FirstOfKind(attrs, VENDOR_SPECIFIC); var k := FirstOfKind(subs[v], privateKind);
      var found := FirstVendorOnly(attrs, subs, behind, privateKind).value;
      && |found.data| == |Data(subs[v][k])| + 2
      && found.data[..|found.data| - 2] == Data(subs[v][k])
      && (k == |subs[v]| - 1 && v == |attrs| - 1 ==> found.data[|found.data| - 2..] == behind[..2])
  {
    var v := FirstOfKind(attrs, VENDOR_SPECIFIC);
    var k := FirstOfKind(subs[v], privateKind);
    var rest := BehindAt(attrs, v, behind);
    TakesTwoMore(subs[v], k, rest);
    if v == |attrs| - 1 { LastIsBehind(attrs, v, behind); }
    if k == |subs[v]| - 1 { LastTakesBehind(subs[v], k, rest); }
  }

  lemma TakesTwoMore(attrs: seq<Attr>, k: nat, behind: seq<Octet>)
    requires AllFormed(attrs) && k < |attrs| && |behind| >= 2
    ensures attrs[k] in attrs
    ensures var taken := FoundAt(attrs, k, behind, true).data;
      |taken| == |Data(attrs[k])| + 2 && taken[..|taken| - 2] == Data(attrs[k])
  {
    BytesAt(attrs, k);
  }

  lemma LastIsBehind(attrs: seq<Attr>, v: nat, behind: seq<Octet>)
    requires AllFormed(attrs) && v == |attrs| - 1
    ensures BehindAt(attrs, v, behind) == behind
  {
    assert attrs[..v + 1] == attrs;
  }

  lemma LastTakesBehind(attrs: seq<Attr>, k: nat, behind: seq<Octet>)
    requires AllFormed(attrs) && k == |attrs| - 1 && |behind| >= 2
    ensures FoundAt(attrs, k, behind, true).data == Data(attrs[k]) + behind[..2]
  {
    assert attrs[..k + 1] == attrs;
  }

  // ----- EAP relay -----

  function Joined(attrs: seq<Attr>): seq<Octet>
    requires AllFormed(attrs)
  {
    if attrs == [] then [] else Joined(attrs[..|attrs| - 1]) + Data(attrs[|attrs| - 1])
  }

  /** ceil(n / 253), and 1 for nothing */
  function Fragments(n: nat): nat {
    if n <= EAP_CHUNK then 1 else 1 + Fragments(n - EAP_CHUNK)
  }

  lemma {:induction false} FragmentsIsCeiling(n: nat)
    requires n >= 1
    ensures Fragments(n) == (n + 252) / 253
  {
    if n > EAP_CHUNK { FragmentsIsCeiling(n - EAP_CHUNK); }
  }

  ghost predicate Fragmented(attrs: seq<Attr>, eap: seq<Octet>, count: nat) {
    && |attrs| == count && AllFormed(attrs)
    && (forall i :: 0 <= i < count ==> 1 <= |Data(attrs[i])| <= 253)
    && Joined(attrs) == eap
  }

  lemma FragmentedStep(attrs: seq<Attr>, eap: seq<Octet>, chunk: seq<Octet>)
    requires Fragmented(attrs, eap, |attrs|) && 1 <= |chunk| <= EAP_CHUNK
    ensures Fragmented(attrs + [NewAttr(EAP_MESSAGE, chunk, 0)], eap + chunk, |attrs| + 1)
  {
    NewAttrSays(EAP_MESSAGE, chunk, 0);
    assert (attrs + [NewAttr(EAP_MESSAGE, chunk, 0)])[..|attrs|] == attrs;
  }

  /** The list under way: the two leading attributes, and the fragments of what has been added; nothing else. */
  ghost predicate Underway(list: seq<Attr>, username: seq<Octet>, state: seq<Octet>, done: seq<Octet>, count: nat)
    requires |username| <= EAP_CHUNK && |state| <= EAP_CHUNK
  {
    && Sorted(list) && |list| == 2 + count
    && OfKind(list, USER_NAME) == [NewAttr(USER_NAME, username, 0)]
    && OfKind(list, STATE) == [NewAttr(STATE, state, 0)]
    && Fragmented(OfKind(list, EAP_MESSAGE), done, count)
  }

  lemma ChunkAdded(
      list: seq<Attr>, username: seq<Octet>, state: seq<Octet>, done: seq<Octet>, count: nat, chunk: seq<Octet>)
    requires |username| <= EAP_CHUNK && |state| <= EAP_CHUNK && 1 <= |chunk| <= EAP_CHUNK
    requires Underway(list, username, state, done, count)
    ensures Underway(InsertSorted(list, NewAttr(EAP_MESSAGE, chunk, 0)), username, state, done + chunk, count + 1)
  {
    var attr := NewAttr(EAP_MESSAGE, chunk, 0);
    FragmentedStep(OfKind(list, EAP_MESSAGE), done, chunk);
    InsertKeepsSorted(list, attr);
    InsertIsStable(list, attr, EAP_MESSAGE);
    InsertIsStable(list, attr, USER_NAME);
    InsertIsStable(list, attr, STATE);
  }

  method StartList(username: seq<Octet>, state: seq<Octet>) returns (list: seq<Attr>)
    requires |username| <= EAP_CHUNK && |state| <= EAP_CHUNK
    ensures Underway(list, username, state, [], 0)
  {
    list := AddSort([], NewAttr(USER_NAME, username, 0));
    list := AddSort(list, NewAttr(STATE, state, 0));
    ghost var u, v := NewAttr(USER_NAME, username, 0), NewAttr(STATE, state, 0);
    assert list == [u, v];
    TwoKinds(u, v, USER_NAME);
    TwoKinds(u, v, STATE);
    TwoKinds(u, v, EAP_MESSAGE);
  }

  lemma TwoKinds(u: Attr, v: Attr, kind: Octet)
    ensures OfKind([u, v], kind) == (if u.kind == kind then [u] else []) + if v.kind == kind then [v] else []
  {
    assert [u, v][..1] == [u] && [u][..0] == [];
    assert OfKind([u], kind) == if u.kind == kind then [u] else [];
  }

  /** dot1x_send_relay_md5_response_radius_access: the packet is split over EAP-Message attributes that,
      joined in list order, are the packet again (section 3.1 of RFC 3579). */
  method RelayEap(username: seq<Octet>, state: seq<Octet>, eap: seq<Octet>) returns (list: seq<Attr>)
    requires |username| <= EAP_CHUNK && |state| == 16 && |eap| >= 1
    ensures Underway(list, username, state, eap, (|eap| + 252) / 253)
  {
    list := StartList(username, state);
    FragmentsIsCeiling(|eap|);
    var len, i := |eap|, 0;
    ghost var done := [];
    while len > EAP_CHUNK
      invariant len >= 1 && len + EAP_CHUNK * i == |eap| && done == eap[..EAP_CHUNK * i]
      invariant Underway(list, username, state, done, i)
      invariant i + Fragments(len) == Fragments(|eap|)
    {
      var chunk := eap[EAP_CHUNK * i..EAP_CHUNK * i + EAP_CHUNK];
      ChunkAdded(list, username, state, done, i, chunk);
      list := AddSort(list, NewAttr(EAP_MESSAGE, chunk, 0));
      done := done + chunk;
      len, i := len - EAP_CHUNK, i + 1;
    }
    var chunk := eap[EAP_CHUNK * i..EAP_CHUNK * i + len];
    assert done + chunk == eap;
    ChunkAdded(list, username, state, done, i, chunk);
    list := AddSort(list, NewAttr(EAP_MESSAGE, chunk, 0));
  }
}
