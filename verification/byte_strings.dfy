/** Byte strings, their exclusive or, and MD5 as a function nothing is known about but its size. */
module ByteStrings {
  type Byte = bv8

  const DIGEST_LEN := 16

  type Digest = d: seq<Byte> | |d| == DIGEST_LEN witness seq(DIGEST_LEN, _ => 0)

  type Md5 = seq<Byte> -> Digest

  function Xor(a: seq<Byte>, b: seq<Byte>): (c: seq<Byte>)
    requires |a| <= |b|
    ensures |c| == |a| && forall i :: 0 <= i < |a| ==> c[i] == a[i] ^ b[i]
  {
    seq(|a|, i requires 0 <= i < |a| => a[i] ^ b[i])
  }

  lemma XorByteTwice(x: Byte, y: Byte)
    ensures (x ^ y) ^ y == x && (y ^ x) ^ y == x
  {
  }

  lemma XorTwice(a: seq<Byte>, b: seq<Byte>)
    requires |a| <= |b|
    ensures Xor(Xor(a, b), b) == a
  {
    forall i | 0 <= i < |a| ensures (a[i] ^ b[i]) ^ b[i] == a[i] { XorByteTwice(a[i], b[i]); }
  }

  /** What a C string function sees of a buffer: the bytes before the first zero. */
  function CString(buffer: seq<Byte>): (s: seq<Byte>)
    ensures |s| <= |buffer| && s == buffer[..|s|] && 0 !in s
    ensures |s| < |buffer| ==> buffer[|s|] == 0
  {
    if buffer == [] || buffer[0] == 0 then [] else [buffer[0]] + CString(buffer[1..])
  }
}
