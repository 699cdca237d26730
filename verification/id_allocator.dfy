/** The user id allocators of aaa_user_manager.c: a bit per id, packed in 32-bit words. */
module IdAllocator {
  import opened Words

  const TAG := 0x100_0000  // the method sits above the low 24 bits of an id

  // ----- specification: the set of allocated numbers -----

  /** The smallest number in from..max that is not live, or 0 when there is none. */
  function SmallestFree(live: set<nat>, from: nat, max: nat): (n: nat)
    requires from >= 1
    ensures n != 0 ==> from <= n <= max && n !in live && forall k :: from <= k < n ==> k in live
    ensures n == 0 ==> forall k :: from <= k <= max ==> k in live
    decreases max + 1 - from, |live|
  {
    if from > max then 0 else if from !in live then from else SmallestFree(live, from + 1, max)
  }

  function Tagged(tag: nat, n: nat): nat {
    if n == 0 then 0 else tag * TAG + n
  }

  function Number(id: nat): nat { id % TAG }

  function TagOf(id: nat): nat { id / TAG }

  lemma TagReadsBack(tag: nat, n: nat)
    requires 1 <= n < TAG
    ensures TagOf(Tagged(tag, n)) == tag && Number(Tagged(tag, n)) == n
    ensures Tagged(tag, n) / 0x100_0000 == tag && Tagged(tag, n) % 0x100_0000 == n
  {
  }

  lemma SmallestFreeUnique(live: set<nat>, from: nat, max: nat, n: nat)
    requires 1 <= from <= n <= max && n !in live && forall k :: from <= k < n ==> k in live
    ensures SmallestFree(live, from, max) == n
  {
  }

  // ----- histories -----

  datatype Op = Alloc(tag: nat) | Free(id: nat)

  /** Ids handed out and not yet returned, in order of allocation; the live set is their numbers. */
  datatype Ledger = Ledger(live: set<nat>, held: seq<nat>)

  function Without(held: seq<nat>, n: nat): seq<nat> {
    if held == [] then []
    else if Number(held[0]) == n then Without(held[1..], n)
    else [held[0]] + Without(held[1..], n)
  }

  function Apply(l: Ledger, op: Op, max: nat): Ledger {
    match op
    case Alloc(tag) =>
      var n := SmallestFree(l.live, 1, max);
      if n == 0 then l else Ledger(l.live + {n}, l.held + [Tagged(tag, n)])
    case Free(id) => Ledger(l.live - {Number(id)}, Without(l.held, Number(id)))
  }

  function Replay(ops: seq<Op>, max: nat): Ledger {
    if ops == [] then Ledger({}, []) else Apply(Replay(ops[..|ops| - 1], max), ops[|ops| - 1], max)
  }

  predicate DistinctNumbers(held: seq<nat>) {
    forall i, j :: 0 <= i < j < |held| ==> Number(held[i]) != Number(held[j])
  }

  ghost predicate LedgerInv(l: Ledger, max: nat) {
    && (forall id :: id in l.held ==> 1 <= Number(id) <= max)
    && (forall n :: n in l.live <==> exists id :: id in l.held && Number(id) == n)
    && DistinctNumbers(l.held)
  }

  lemma {:induction false} WithoutKeeps(held: seq<nat>, n: nat)
    ensures forall id :: id in Without(held, n) <==> id in held && Number(id) != n
    ensures DistinctNumbers(held) ==> DistinctNumbers(Without(held, n))
  {
    if held != [] {
      WithoutKeeps(held[1..], n);
      var rest := Without(held[1..], n);
      assert forall id :: id in held <==> id == held[0] || id in held[1..];
      if DistinctNumbers(held) {
        assert DistinctNumbers(held[1..]);
        forall j | 0 <= j < |rest| ensures Number(rest[j]) != Number(held[0]) {
          assert rest[j] in held[1..];
          var k :| 1 <= k < |held| && held[k] == rest[j];
        }
      }
    }
  }

  /** After any history, the ids held have distinct low 24 bits, all in 1..max, and the live set is
      exactly those numbers. */
  lemma {:induction false} HeldIdsDistinct(ops: seq<Op>, max: nat)
    requires max < TAG
    ensures LedgerInv(Replay(ops, max), max)
  {
    if ops != [] {
      var before := Replay(ops[..|ops| - 1], max);
      HeldIdsDistinct(ops[..|ops| - 1], max);
      match ops[|ops| - 1]
      case Alloc(tag) =>
        var n := SmallestFree(before.live, 1, max);
        if n != 0 {
          TagReadsBack(tag, n);
          var after := Apply(before, Alloc(tag), max);
          assert after.held[|before.held|] == Tagged(tag, n);
          forall k ensures k in after.live <==> exists id :: id in after.held && Number(id) == k {
            if k == n { assert Tagged(tag, n) in after.held; }
            if k in before.live {
              var id :| id in before.held && Number(id) == k;
              assert id in after.held;
            }
          }
        }
      case Free(id) => WithoutKeeps(before.held, Number(id));
    }
  }

  // ----- words as a set of numbers -----

  /** Number 32 * i + j + 1 is allocated when bit j of word i is set. */
  predicate Taken(g: seq<Word>, n: nat) {
    1 <= n <= 32 * |g| && g[(n - 1) / 32][(n - 1) % 32]
  }

  function LiveOf(g: seq<Word>): set<nat> {
    set n | 1 <= n <= 32 * |g| && Taken(g, n)
  }

  lemma SetNumber(g: seq<Word>, i: nat, j: nat, b: bool)
    requires i < |g| && j < 32
    ensures var n := 32 * i + j + 1;
      LiveOf(g[i := g[i][j := b]]) == if b then LiveOf(g) + {n} else LiveOf(g) - {n}
  {
    var after := g[i := g[i][j := b]];
    forall n | 1 <= n <= 32 * |g|
      ensures Taken(after, n) == if n == 32 * i + j + 1 then b else Taken(g, n)
    {
    }
  }

  lemma FirstClearBit(g: seq<Word>, i: nat, j: nat)
    requires i < |g| && j < 32 && !g[i][j]
    requires forall k :: 0 <= k < i ==> g[k] == FULL
    requires forall m :: 0 <= m < j ==> g[i][m]
    ensures SmallestFree(LiveOf(g), 1, 32 * |g|) == 32 * i + j + 1
  {
    var n := 32 * i + j + 1;
    assert (n - 1) / 32 == i && (n - 1) % 32 == j;
    forall k | 1 <= k < n ensures k in LiveOf(g) {
      assert k - 1 == 32 * ((k - 1) / 32) + (k - 1) % 32;
    }
    SmallestFreeUnique(LiveOf(g), 1, 32 * |g|, n);
  }

  lemma NoClearBit(g: seq<Word>)
    requires forall k :: 0 <= k < |g| ==> g[k] == FULL
    ensures SmallestFree(LiveOf(g), 1, 32 * |g|) == 0
  {
    forall n | 1 <= n <= 32 * |g| ensures n in LiveOf(g) {
      assert Taken(g, n);
    }
  }

  /** The static buffer of one user table; `live` is the set of numbers its bits stand for. */
  class IdBuffer {
    const words: array<Word>
    ghost var live: set<nat>

    ghost predicate Valid()
      reads this, words
    {
      live == LiveOf(words[..])
    }

    constructor (count: nat)
      ensures Valid() && fresh(words) && words.Length == count && live == {}
    {
      words := new Word[count](_ => EMPTY);
      live := {};
    }

    method Alloc(tag: nat) returns (id: nat)
      requires Valid()
      modifies this`live, words
      ensures Valid()
      ensures var n := SmallestFree(old(live), 1, 32 * words.Length);
        && id == Tagged(tag, n)
        && live == old(live) + (if n == 0 then {} else {n})
    {
      var i := 0;
      while i < words.Length
        invariant 0 <= i <= words.Length
        invariant words[..] == old(words[..]) && live == old(live)
        invariant forall k :: 0 <= k < i ==> words[k] == FULL
      {
        if words[i] != FULL {
          var j := 0;
          while j < 32
            invariant 0 <= j <= 32
            invariant words[..] == old(words[..]) && live == old(live)
            invariant forall m :: 0 <= m < j ==> words[i][m]
          {
            if !words[i][j] {
              FirstClearBit(words[..], i, j);
              SetNumber(words[..], i, j, true);
              words[i] := words[i][j := true];
              assert words[..] == old(words[..])[i := words[i]];
              live := live + {32 * i + j + 1};
              return Tagged(tag, 32 * i + j + 1);
            }
            j := j + 1;
          }
        }
        i := i + 1;
      }
      NoClearBit(words[..]);
      return 0;
    }

    method Free(id: nat) returns (ok: bool)
      requires Valid() && 1 <= Number(id) <= 32 * words.Length
      modifies this`live, words
      ensures Valid()
      ensures ok == (Number(id) in old(live))
      ensures live == old(live) - {Number(id)}
    {
      var i, j := (Number(id) - 1) / 32, (Number(id) - 1) % 32;
      ok := words[i][j];
      if ok {
        SetNumber(words[..], i, j, false);
        words[i] := words[i][j := false];
        assert words[..] == old(words[..])[i := words[i]];
        live := live - {Number(id)};
      }
    }
  }
}
