/** The User-Password attribute: radius_pap_password_calc (aaa_radius_auth.c) hides it, and section 5.2 of
    RFC 2865 tells the server how to read it. */
module RadiusPap {
  import opened Basics
  import opened ByteStrings

  const PASSWORD_LEN_MAX := 128

  /** Blocks of 16, each under the digest of the secret and the block of ciphertext before it. */
  function Hide(md5: Md5, secret: seq<Byte>, prev: Digest, text: seq<Byte>): (hidden: seq<Byte>)
    requires |text| % DIGEST_LEN == 0
    ensures |hidden| == |text|
    decreases |text|
  {
    if text == [] then []
    else
      var block: Digest := Xor(text[..DIGEST_LEN], md5(secret + prev));
      block + Hide(md5, secret, block, text[DIGEST_LEN..])
  }

  /** The server's side: c(1), c(2), ... back to p(1), p(2), ... */
  function Unhide(md5: Md5, secret: seq<Byte>, prev: Digest, hidden: seq<Byte>): (text: seq<Byte>)
    requires |hidden| % DIGEST_LEN == 0
    decreases |hidden|
  {
    if hidden == [] then []
    else
      var block: Digest := hidden[..DIGEST_LEN];
      Xor(block, md5(secret + prev)) + Unhide(md5, secret, block, hidden[DIGEST_LEN..])
  }

  lemma {:induction false} UnhideHide(md5: Md5, secret: seq<Byte>, prev: Digest, text: seq<Byte>)
    requires |text| % DIGEST_LEN == 0
    ensures Unhide(md5, secret, prev, Hide(md5, secret, prev, text)) == text
    decreases |text|
  {
    if text != [] {
      var head, digest := text[..DIGEST_LEN], md5(secret + prev);
      var block: Digest := Xor(head, digest);
      var rest := Hide(md5, secret, block, text[DIGEST_LEN..]);
      assert (block + rest)[..DIGEST_LEN] == block && (block + rest)[DIGEST_LEN..] == rest;
      XorTwice(head, digest);
      UnhideHide(md5, secret, block, text[DIGEST_LEN..]);
    }
  }

  /** What section 5.2 says, byte by byte: the first 16 go under the digest of the secret and the request
      authenticator, every 16 after that under the digest of the secret and the 16 hidden bytes before. */
  lemma {:induction false} HiddenAsInSection52(md5: Md5, secret: seq<Byte>, vector: Digest, text: seq<Byte>, i: nat)
    requires |text| % 16 == 0 && i < |text|
    ensures var hidden, from := Hide(md5, secret, vector, text), i - i % 16;
      hidden[i] == text[i] ^ md5(secret + if i < 16 then vector else hidden[from - 16..from])[i % 16]
    decreases i
  {
    var hidden, head := Hide(md5, secret, vector, text), text[..16];
    var block: Digest := Xor(head, md5(secret + vector));
    var rest := Hide(md5, secret, block, text[16..]);
    assert hidden == block + rest;
    if i < 16 {
      assert head[i] == text[i] && hidden[i] == block[i];
    } else {
      HiddenAsInSection52(md5, secret, block, text[16..], i - 16);
      assert hidden[i] == rest[i - 16] && text[i] == text[16..][i - 16] && (i - 16) % 16 == i % 16;
      var from := i - i % 16;
      if i < 32 {
        assert hidden[from - 16..from] == block;
      } else {
        assert hidden[from - 16..from] == rest[from - 32..from - 16];
      }
    }
  }

  function PaddedLength(n: nat): nat { (n + DIGEST_LEN - 1) / DIGEST_LEN * DIGEST_LEN }

  function Padded(password: seq<Byte>): (text: seq<Byte>)
    ensures |text| == PaddedLength(|password|) && |text| % DIGEST_LEN == 0 && |password| <= |text|
    ensures text[..|password|] == password
  {
    password + seq(PaddedLength(|password|) - |password|, _ => 0)
  }

  /** What the length counter, a byte, makes of a password. */
  function Counted(password: seq<Byte>): seq<Byte> {
    password[..|password| % 256]
  }

  function PapSpec(md5: Md5, secret: seq<Byte>, vector: Digest, password: seq<Byte>): Option<seq<Byte>> {
    if |Counted(password)| > PASSWORD_LEN_MAX then None
    else Some(Hide(md5, secret, vector, Padded(Counted(password))))
  }

  /** One turn of the loop: the digest with the password mixed into it goes behind what is hidden so far;
      the next turn takes it from there. */
  method XorBlock(buf: array<Byte>, password: array<Byte>, i: nat, digest: Digest) returns (block: Digest)
    requires buf != password && i + DIGEST_LEN <= buf.Length == password.Length
    modifies buf
    ensures buf[..i + DIGEST_LEN] == old(buf[..i]) + block
    ensures block == Xor(password[i..i + DIGEST_LEN], digest)
  {
    for k := 0 to DIGEST_LEN
      invariant buf[..i] == old(buf[..i])
      invariant forall j :: 0 <= j < k ==> buf[i + j] == password[i + j] ^ digest[j]
    {
      buf[i + k] := password[i + k] ^ digest[k];
    }
    assert buf[..i + DIGEST_LEN] == buf[..i] + buf[i..i + DIGEST_LEN];
    return buf[i..i + DIGEST_LEN];
  }

  method PadPassword(input: seq<Byte>, length: nat) returns (password: array<Byte>)
    requires length <= |input| && length <= PASSWORD_LEN_MAX
    ensures fresh(password) && password.Length == PASSWORD_LEN_MAX
    ensures PaddedLength(length) <= PASSWORD_LEN_MAX
    ensures password[..PaddedLength(length)] == Padded(input[..length])
  {
    password := new Byte[PASSWORD_LEN_MAX](_ => 0);
    for k := 0 to length
      invariant password[..k] == input[..k]
      invariant forall j :: k <= j < PASSWORD_LEN_MAX ==> password[j] == 0
    {
      password[k] := input[k];
    }
  }

  /** What is still to be hidden behind the first n of so many blocks. */
  function HideFrom(md5: Md5, secret: seq<Byte>, prev: Digest, text: seq<Byte>, n: nat, blocks: nat): seq<Byte>
    requires |text| == DIGEST_LEN * blocks && n <= blocks
  {
    assert |text| - DIGEST_LEN * n == DIGEST_LEN * (blocks - n);
    Hide(md5, secret, prev, text[DIGEST_LEN * n..])
  }

  method HideBlocks(md5: Md5, secret: seq<Byte>, vector: Digest, password: array<Byte>, padded: nat)
    returns (buf: array<Byte>)
    requires password.Length == PASSWORD_LEN_MAX && padded <= PASSWORD_LEN_MAX && padded % DIGEST_LEN == 0
    ensures buf.Length == PASSWORD_LEN_MAX && buf[..padded] == Hide(md5, secret, vector, password[..padded])
  {
    buf := new Byte[PASSWORD_LEN_MAX](_ => 0);
    var pauth: Digest := vector;
    var i := 0;
    ghost var text, n, blocks := password[..padded], 0, padded / DIGEST_LEN;
    ghost var goal := HideFrom(md5, secret, vector, text, 0, blocks);
    while i < padded
      invariant i == DIGEST_LEN * n && n <= blocks && |text| == padded == DIGEST_LEN * blocks
      invariant text == password[..padded]
      invariant buf[..i] + HideFrom(md5, secret, pauth, text, n, blocks) == goal
    {
      ghost var before, prev := buf[..i], pauth;
      assert text[i..i + DIGEST_LEN] == password[i..i + DIGEST_LEN];
      pauth := XorBlock(buf, password, i, md5(secret + pauth));
      BlockHidden(md5, secret, prev, text, n, blocks, before, pauth, goal);
      i, n := i + DIGEST_LEN, n + 1;
    }
    assert text[DIGEST_LEN * n..] == [] && text[DIGEST_LEN * 0..] == text;
  }

  /** One turn of the loop: what is hidden so far, followed by what is still to be hidden, stays the goal. */
  lemma BlockHidden(
      md5: Md5, secret: seq<Byte>, prev: Digest, text: seq<Byte>, n: nat, blocks: nat, before: seq<Byte>,
      block: Digest, goal: seq<Byte>)
    requires |text| == DIGEST_LEN * blocks && n < blocks
    requires before + HideFrom(md5, secret, prev, text, n, blocks) == goal
    requires block == Xor(text[DIGEST_LEN * n..DIGEST_LEN * n + DIGEST_LEN], md5(secret + prev))
    ensures before + block + HideFrom(md5, secret, block, text, n + 1, blocks) == goal
  {
    var i := DIGEST_LEN * n;
    var rest := text[i + DIGEST_LEN..];
    assert |text| - i == DIGEST_LEN * (blocks - n);
    assert text[i..][..DIGEST_LEN] == text[i..i + DIGEST_LEN] && text[i..][DIGEST_LEN..] == rest;
    HideStep(md5, secret, prev, text[i..], rest, text[i..i + DIGEST_LEN], block);
    JoinBlock(before, block, before + block, Hide(md5, secret, block, rest));
  }

  lemma JoinBlock(before: seq<Byte>, block: seq<Byte>, joined: seq<Byte>, rest: seq<Byte>)
    requires joined == before + block
    ensures joined + rest == before + (block + rest)
  {
  }

  method PapPasswordCalc(md5: Md5, secret: seq<Byte>, vector: Digest, input: seq<Byte>)
    returns (output: Option<seq<Byte>>)
    ensures output == PapSpec(md5, secret, vector, input)
  {
    var length := |input| % 256;
    if length > PASSWORD_LEN_MAX {
      return None;
    }
    var password := PadPassword(input, length);
    var buf := HideBlocks(md5, secret, vector, password, PaddedLength(length));
    return Some(buf[..PaddedLength(length)]);
  }

  lemma HideStep(
      md5: Md5, secret: seq<Byte>, prev: Digest, text: seq<Byte>, rest: seq<Byte>, head: seq<Byte>, block: Digest)
    requires |text| % DIGEST_LEN == 0 && text != [] && head == text[..DIGEST_LEN] && rest == text[DIGEST_LEN..]
    requires block == Xor(head, md5(secret + prev))
    ensures |rest| % DIGEST_LEN == 0
    ensures Hide(md5, secret, prev, text) == block + Hide(md5, secret, block, rest)
  {
  }

  /** For every key, request and password of up to 128 bytes, the server recovers the password, padded
      with zeros to a multiple of 16. */
  lemma ServerRecoversPassword(md5: Md5, secret: seq<Byte>, vector: Digest, password: seq<Byte>)
    requires |password| <= 128
    ensures PapSpec(md5, secret, vector, password).Some?
    ensures Unhide(md5, secret, vector, PapSpec(md5, secret, vector, password).value) == Padded(password)
  {
    assert Counted(password) == password;
    UnhideHide(md5, secret, vector, Padded(password));
  }

  /** Of any password the server recovers the zero-padded whole exactly when it is at most 128 bytes; the
      rest are refused, or lose all but the first |password| % 256 bytes. */
  lemma RecoversExactlyUpToLimit(md5: Md5, secret: seq<Byte>, vector: Digest, password: seq<Byte>)
    requires 0 !in password
    ensures var hidden := PapSpec(md5, secret, vector, password);
      hidden.Some? && Unhide(md5, secret, vector, hidden.value) == Padded(password) <==> |password| <= 128
  {
    if |Counted(password)| <= PASSWORD_LEN_MAX {
      UnhideHide(md5, secret, vector, Padded(Counted(password)));
    }
  }

  // ----- the attribute that is sent -----

  /** The attribute takes its length from strlen of the buffer that `hidden` was written into. */
  function Carried(hidden: seq<Byte>, behind: seq<Byte>): seq<Byte> {
    CString(hidden + behind)
  }

  /** What is sent is the hidden password exactly when that has no zero byte and a zero follows it. */
  lemma CarriedExactly(hidden: seq<Byte>, behind: seq<Byte>)
    requires behind != []
    ensures Carried(hidden, behind) == hidden <==> 0 !in hidden && behind[0] == 0
  {
    var sent, n := Carried(hidden, behind), |hidden|;
    assert (hidden + behind)[..n] == hidden;
    assert (hidden + behind)[n] == behind[0];
    if 0 !in hidden && behind[0] == 0 {
      assert forall i :: 0 <= i < n ==> (hidden + behind)[i] == hidden[i] != 0;
      assert |sent| <= n;
    }
  }

  /** It need not be: a password that begins with the first byte of the digest is sent as nothing. */
  lemma HiddenZeroCutsAttribute(md5: Md5, secret: seq<Byte>, vector: Digest, password: seq<Byte>, behind: seq<Byte>)
    requires 1 <= |password| <= PASSWORD_LEN_MAX && password[0] == md5(secret + vector)[0]
    ensures var hidden := PapSpec(md5, secret, vector, password);
      hidden.Some? && hidden.value != [] && Carried(hidden.value, behind) == []
  {
    assert Counted(password) == password;
    var text, hidden := Padded(password), Hide(md5, secret, vector, Padded(password));
    assert text[0] == text[..|password|][0] == password[0];
    assert hidden[0] == text[0] ^ md5(secret + vector)[0];
    XorByteTwice(0, password[0]);
    assert hidden[0] == 0;
  }
}
