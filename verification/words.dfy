/** 32-bit words as their bits, and the machine operations on them. */
module Words {

  /** A 32-bit word, lowest bit first: testing `(w >> j) & 1` reads entry j, `w |= 1 << j` sets it and
      `w ^= 1 << j` flips it, which BitsOfSet and BitsOfFlip prove of the machine operations. */
  type Word = r: seq<bool> | |r| == 32 witness seq(32, _ => false)

  const FULL: Word := seq(32, _ => true)
  const EMPTY: Word := seq(32, _ => false)

  function Bit(w: bv32, j: nat): bool
    requires j < 32
  {
    (w >> (j as bv32)) & 1 == 1
  }

  function Mask(j: nat): bv32
    requires j < 32
  {
    1 << (j as bv32)
  }

  lemma WordShift(j: nat)
    requires j < 32
    ensures (j as bv32) as int == j && (j as bv32) < 32
  {
  }

  lemma ShiftSet(w: bv32, j: bv32, k: bv32)
    requires j < 32 && k < 32
    ensures ((w | (1 << j)) >> k) & 1 == 1 <==> k == j || (w >> k) & 1 == 1
  {
  }

  lemma ShiftFlip(w: bv32, j: bv32, k: bv32)
    requires j < 32 && k < 32
    ensures ((w ^ (1 << j)) >> k) & 1 == 1 <==> ((w >> k) & 1 == 1) == (k != j)
  {
  }

  lemma SetBit(w: bv32, j: nat, k: nat)
    requires j < 32 && k < 32
    ensures Bit(w | Mask(j), k) == (k == j || Bit(w, k))
  {
    WordShift(j);
    WordShift(k);
    ShiftSet(w, j as bv32, k as bv32);
  }

  lemma FlipBit(w: bv32, j: nat, k: nat)
    requires j < 32 && k < 32
    ensures Bit(w ^ Mask(j), k) == (if k == j then !Bit(w, k) else Bit(w, k))
  {
    WordShift(j);
    WordShift(k);
    ShiftFlip(w, j as bv32, k as bv32);
  }

  lemma AllOnes(k: bv32)
    requires k < 32
    ensures ((0xffff_ffff as bv32) >> k) & 1 == 1
  {
  }

  /** The lowest n bits of a word, lowest first. */
  function LowBits(w: bv32, n: nat): (bits: seq<bool>)
    requires n <= 32
    ensures |bits| == n
  {
    if n == 0 then [] else LowBits(w, n - 1) + [Bit(w, n - 1)]
  }

  function Bits(w: bv32): Word {
    LowBits(w, 32)
  }

  lemma {:induction false} LowBitsAt(w: bv32, n: nat, j: nat)
    requires j < n <= 32
    ensures LowBits(w, n)[j] == Bit(w, j)
  {
    if j < n - 1 { LowBitsAt(w, n - 1, j); }
  }

  lemma BitsAt(w: bv32, j: nat)
    requires j < 32
    ensures Bits(w)[j] == Bit(w, j)
  {
    LowBitsAt(w, 32, j);
  }

  lemma BitsOfSet(w: bv32, j: nat)
    requires j < 32
    ensures Bits(w | Mask(j)) == Bits(w)[j := true]
  {
    var after, expected := Bits(w | Mask(j)), Bits(w)[j := true];
    forall k | 0 <= k < 32 ensures after[k] == expected[k] {
      BitsAt(w | Mask(j), k);
      BitsAt(w, k);
      SetBit(w, j, k);
    }
  }

  lemma BitsOfFlip(w: bv32, j: nat)
    requires j < 32
    ensures Bits(w ^ Mask(j)) == Bits(w)[j := !Bits(w)[j]]
  {
    var after, expected := Bits(w ^ Mask(j)), Bits(w)[j := !Bits(w)[j]];
    forall k | 0 <= k < 32 ensures after[k] == expected[k] {
      BitsAt(w ^ Mask(j), k);
      BitsAt(w, k);
      FlipBit(w, j, k);
    }
  }

  lemma BitsOfConstants()
    ensures Bits(0xffff_ffff) == FULL && Bits(0) == EMPTY
  {
    forall k | 0 <= k < 32 ensures Bits(0xffff_ffff)[k] && !Bits(0)[k] {
      BitsAt(0xffff_ffff, k);
      BitsAt(0, k);
      WordShift(k);
      AllOnes(k as bv32);
    }
  }
}
