/** TACACS+ body obfuscation (tac_plus_crypt.c; section 4.5 of RFC 8907). */
module TacacsCrypt {
  import opened ByteStrings

  const ENCRYPTED_FLAG: Byte := 0

  /** The header fields that go into the pad, as stored. */
  datatype Header = Header(sessionId: seq<Byte>, version: Byte, seqNo: Byte, encryption: Byte)

  function Prefix(secret: seq<Byte>, h: Header): seq<Byte> {
    h.sessionId + secret + [h.version] + [h.seqNo]
  }

  /** MD5_1 = MD5{prefix}, MD5_k = MD5{prefix, MD5_(k-1)}. */
  function Run(md5: Md5, prefix: seq<Byte>, k: nat): Digest {
    if k == 0 then md5(prefix) else md5(prefix + Run(md5, prefix, k - 1))
  }

  function Pad(md5: Md5, prefix: seq<Byte>, n: nat): (pad: seq<Byte>)
    ensures |pad| == DIGEST_LEN * n
  {
    if n == 0 then [] else Pad(md5, prefix, n - 1) + Run(md5, prefix, n - 1)
  }

  function Runs(length: nat): nat { length / DIGEST_LEN + 1 }

  /** The body as it travels; also the body as it is read, for the same header. */
  function Crypted(md5: Md5, secret: seq<Byte>, h: Header, body: seq<Byte>): (out: seq<Byte>)
    ensures |out| == |body|
  {
    if secret != [] && h.encryption == ENCRYPTED_FLAG
    then Xor(body, Pad(md5, Prefix(secret, h), Runs(|body|)))
    else body
  }

  /** Byte 16k + j of the pad is byte j of run k, however long the pad. */
  lemma {:induction false} PadIsStream(md5: Md5, prefix: seq<Byte>, n: nat, k: nat)
    requires k < n
    ensures Pad(md5, prefix, n)[DIGEST_LEN * k..DIGEST_LEN * (k + 1)] == Run(md5, prefix, k)
  {
    if k < n - 1 {
      PadIsStream(md5, prefix, n - 1, k);
      assert Pad(md5, prefix, n)[..DIGEST_LEN * (n - 1)] == Pad(md5, prefix, n - 1);
    }
  }

  /** Pads for different lengths agree as far as the shorter one goes. */
  lemma {:induction false} PadsAgree(md5: Md5, prefix: seq<Byte>, m: nat, n: nat)
    requires m <= n
    ensures Pad(md5, prefix, m) <= Pad(md5, prefix, n)
  {
    if m < n { PadsAgree(md5, prefix, m, n - 1); }
  }

  method Md5Pad(md5: Md5, secret: seq<Byte>, h: Header, len: nat) returns (pad: array<Byte>)
    ensures fresh(pad) && pad[..] == Pad(md5, Prefix(secret, h), Runs(len)) && pad.Length == 16 * (len / 16 + 1)
  {
    var n := len / DIGEST_LEN + 1;
    pad := new Byte[n * DIGEST_LEN](_ => 0);
    var last: Digest := seq(DIGEST_LEN, _ => 0);
    ghost var prefix := Prefix(secret, h);
    for i := 0 to n
      invariant pad[..DIGEST_LEN * i] == Pad(md5, prefix, i)
      invariant i > 0 ==> last == Run(md5, prefix, i - 1)
    {
      var buf := h.sessionId + secret + [h.version] + [h.seqNo];
      if i > 0 {
        buf := buf + last;
      }
      last := md5(buf);
      PutDigest(pad, DIGEST_LEN * i, last);
    }
    assert pad[..] == pad[..DIGEST_LEN * n];
  }

  method PutDigest(pad: array<Byte>, at: nat, digest: Digest)
    requires at + DIGEST_LEN <= pad.Length
    modifies pad
    ensures pad[..at + DIGEST_LEN] == old(pad[..at]) + digest
  {
    for j := 0 to DIGEST_LEN
      invariant pad[..at] == old(pad[..at])
      invariant forall k :: 0 <= k < j ==> pad[at + k] == digest[k]
    {
      pad[at + j] := digest[j];
    }
  }

  method Crypt(md5: Md5, secret: seq<Byte>, h: Header, buf: array<Byte>, length: nat)
    requires length <= buf.Length
    modifies buf
    ensures buf[..length] == Crypted(md5, secret, h, old(buf[..length]))
    ensures buf[length..] == old(buf[length..])
  {
    if secret != [] && h.encryption == ENCRYPTED_FLAG {
      var pad := Md5Pad(md5, secret, h, length);
      XorInPlace(buf, pad, length);
    }
  }

  method XorInPlace(buf: array<Byte>, pad: array<Byte>, length: nat)
    requires length <= buf.Length && length <= pad.Length && buf != pad
    modifies buf
    ensures buf[..length] == Xor(old(buf[..length]), pad[..])
    ensures buf[length..] == old(buf[length..])
  {
    for i := 0 to length
      invariant forall j :: 0 <= j < i ==> buf[j] == old(buf[j]) ^ pad[j]
      invariant forall j :: i <= j < buf.Length ==> buf[j] == old(buf[j])
    {
      buf[i] := buf[i] ^ pad[i];
    }
  }

  /** Applied twice under the same header it gives every body back. */
  lemma CryptTwice(md5: Md5, secret: seq<Byte>, h: Header, body: seq<Byte>)
    ensures Crypted(md5, secret, h, Crypted(md5, secret, h, body)) == body
  {
    if secret != [] && h.encryption == ENCRYPTED_FLAG {
      XorTwice(body, Pad(md5, Prefix(secret, h), Runs(|body|)));
    }
  }

  /** A longer body's beginning is obfuscated as the beginning alone would be. */
  lemma CryptedPrefix(md5: Md5, secret: seq<Byte>, h: Header, body: seq<Byte>, more: seq<Byte>)
    ensures Crypted(md5, secret, h, body) <= Crypted(md5, secret, h, body + more)
  {
    if secret != [] && h.encryption == ENCRYPTED_FLAG {
      PadsAgree(md5, Prefix(secret, h), Runs(|body|), Runs(|body + more|));
    }
  }

  /** Byte by byte: byte i under byte i % 16 of run i / 16. */
  lemma CryptedByte(md5: Md5, secret: seq<Byte>, h: Header, body: seq<Byte>, i: nat)
    requires i < |body| && secret != [] && h.encryption == ENCRYPTED_FLAG
    ensures Crypted(md5, secret, h, body)[i] == body[i] ^ Run(md5, Prefix(secret, h), i / DIGEST_LEN)[i % DIGEST_LEN]
  {
    var k, n, pad := i / DIGEST_LEN, Runs(|body|), Pad(md5, Prefix(secret, h), Runs(|body|));
    assert i == DIGEST_LEN * k + i % DIGEST_LEN;
    PadIsStream(md5, Prefix(secret, h), n, k);
    assert pad[DIGEST_LEN * k..DIGEST_LEN * (k + 1)][i % DIGEST_LEN] == pad[i];
  }

  /** Whoever knows 16 bytes of the body and what they went out as knows the run they went under. */
  lemma RunShows(md5: Md5, secret: seq<Byte>, h: Header, body: seq<Byte>, k: nat)
    requires DIGEST_LEN * (k + 1) <= |body| && secret != [] && h.encryption == ENCRYPTED_FLAG
    ensures var sent, from := Crypted(md5, secret, h, body), DIGEST_LEN * k;
      Xor(body[from..from + 16], sent[from..from + 16]) == Run(md5, Prefix(secret, h), k)
  {
    var sent, from, run := Crypted(md5, secret, h, body), DIGEST_LEN * k, Run(md5, Prefix(secret, h), k);
    forall j | 0 <= j < 16 ensures body[from + j] ^ sent[from + j] == run[j] {
      CryptedByte(md5, secret, h, body, from + j);
      XorCancels(body[from + j], run[j]);
    }
  }

  /** What section 4.5 says, told by what travels alone: the first 16 bytes go under the digest of session id,
      secret, version and sequence number; every 16 bytes after that under the digest of those four and the
      pad before, which is what the 16 bytes before went under. */
  lemma CryptedAsInSection45(md5: Md5, secret: seq<Byte>, h: Header, body: seq<Byte>, i: nat)
    requires i < |body| && secret != [] && h.encryption == 0
    ensures var sent, from := Crypted(md5, secret, h, body), i - i % 16;
      var fields := h.sessionId + secret + [h.version] + [h.seqNo];
      var hashed := if i < 16 then fields else fields + Xor(body[from - 16..from], sent[from - 16..from]);
      sent[i] == body[i] ^ md5(hashed)[i % 16]
  {
    CryptedByte(md5, secret, h, body, i);
    if i >= 16 { RunShows(md5, secret, h, body, i / 16 - 1); }
  }

  lemma XorCancels(x: Byte, y: Byte)
    ensures x ^ (x ^ y) == y
  {
  }

  /** Without a secret, or when the header says so, the body travels as it is. */
  lemma CryptedInTheClear(md5: Md5, secret: seq<Byte>, h: Header, body: seq<Byte>)
    requires secret == [] || h.encryption != 0
    ensures Crypted(md5, secret, h, body) == body
  {
  }
}
