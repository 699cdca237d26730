/** The counters of active alarms by rank and the highest rank kept beside them (gpnAlmCfg.c). */
module AlarmRank {

  const RANK_NULL := 0
  const RANK_TOTAL := 4
  const COUNT_LIMIT := 0x1_0000_0000

  datatype Summary = Summary(counts: seq<nat>, highRank: nat)

  const ZERO := Summary([0, 0, 0, 0], RANK_NULL)

  predicate WellSized(s: Summary) {
    |s.counts| == RANK_TOTAL && forall i :: 0 <= i < RANK_TOTAL ==> s.counts[i] < COUNT_LIMIT
  }

  /** The greatest rank with a non-zero count, or the null rank. */
  predicate IsHighest(counts: seq<nat>, rank: nat)
    requires |counts| == RANK_TOTAL
  {
    && rank <= RANK_TOTAL
    && (rank != RANK_NULL ==> counts[rank - 1] != 0)
    && (forall i :: rank <= i < RANK_TOTAL ==> counts[i] == 0)
  }

  predicate Agrees(s: Summary) {
    WellSized(s) && IsHighest(s.counts, s.highRank)
  }

  datatype Op = Op(rank: nat, arise: bool)

  predicate Ranked(op: Op) { 1 <= op.rank <= RANK_TOTAL }

  function Highest(counts: seq<nat>): (rank: nat)
    requires |counts| == RANK_TOTAL
    ensures IsHighest(counts, rank)
  {
    if counts[3] != 0 then 4
    else if counts[2] != 0 then 3
    else if counts[1] != 0 then 2
    else if counts[0] != 0 then 1
    else 0
  }

  function Step(s: Summary, op: Op): Summary
    requires WellSized(s) && Ranked(op)
  {
    var c := s.counts[op.rank - 1];
    var d := if op.arise then (c + 1) % COUNT_LIMIT else if c > 0 then c - 1 else c;
    var counts := s.counts[op.rank - 1 := d];
    var recompute := if op.arise then c == 0 else c == 1;
    Summary(counts, if recompute then Highest(counts) else s.highRank)
  }

  /** The call that the 32-bit counter does not survive: the 2^32nd active alarm of the highest rank. */
  predicate Wraps(s: Summary, op: Op)
    requires WellSized(s) && Ranked(op)
  {
    op.arise && s.counts[op.rank - 1] == COUNT_LIMIT - 1 && op.rank == s.highRank
  }

  /** Although it is recomputed only when a count leaves or reaches zero, the cached rank goes on agreeing
      with the counts through every call but that one. */
  lemma StepAgreesExactly(s: Summary, op: Op)
    requires Agrees(s) && Ranked(op)
    ensures WellSized(Step(s, op))
    ensures Agrees(Step(s, op)) <==> !Wraps(s, op)
  {
    var t := Step(s, op);
    forall i | 0 <= i < RANK_TOTAL && i != op.rank - 1 ensures t.counts[i] == s.counts[i] {
    }
    HighestIsUnique(t.counts, Highest(t.counts), t.highRank);
  }

  lemma HighestIsUnique(counts: seq<nat>, a: nat, b: nat)
    requires |counts| == RANK_TOTAL && IsHighest(counts, a)
    ensures IsHighest(counts, b) <==> a == b
  {
  }

  /** After a wrap the next count to leave or reach zero puts the cached rank right again. */
  lemma RecomputeRepairs(s: Summary, op: Op)
    requires WellSized(s) && Ranked(op) && s.counts[op.rank - 1] == (if op.arise then 0 else 1)
    ensures Agrees(Step(s, op))
  {
  }

  function Run(ops: seq<Op>): (s: Summary)
    requires forall op :: op in ops ==> Ranked(op)
    ensures WellSized(s)
  {
    if ops == [] then ZERO
    else
      assert ops[|ops| - 1] in ops;
      Step(Run(ops[..|ops| - 1]), ops[|ops| - 1])
  }

  /** Alarms raised and not yet cleared; a clean with none raised does not count. */
  function Active(ops: seq<Op>, rank: nat): nat {
    if ops == [] then 0
    else
      var before, op := Active(ops[..|ops| - 1], rank), ops[|ops| - 1];
      if op.rank != rank then before
      else if op.arise then before + 1
      else if before > 0 then before - 1 else 0
  }

  lemma {:induction false} ActiveBounded(ops: seq<Op>, rank: nat)
    ensures Active(ops, rank) <= |ops|
  {
    if ops != [] { ActiveBounded(ops[..|ops| - 1], rank); }
  }

  /** Over every sequence of fewer than 2^32 calls the counts are the active alarms, and the cached rank is
      the greatest rank with one. */
  lemma {:induction false} RunAgrees(ops: seq<Op>)
    requires (forall op :: op in ops ==> Ranked(op)) && |ops| < COUNT_LIMIT
    ensures Agrees(Run(ops))
    ensures forall rank :: 1 <= rank <= RANK_TOTAL ==> Run(ops).counts[rank - 1] == Active(ops, rank)
  {
    if ops != [] {
      var n := |ops| - 1;
      assert ops[n] in ops;
      RunAgrees(ops[..n]);
      StepAgreesExactly(Run(ops[..n]), ops[n]);
      ActiveBounded(ops[..n], ops[n].rank);
    }
  }

  class RankSummary {
    const rankAlmCnt: array<nat>
    var highRank: nat

    ghost function View(): Summary
      reads this, rankAlmCnt
    {
      Summary(rankAlmCnt[..], highRank)
    }

    constructor ()
      ensures fresh(rankAlmCnt) && View() == ZERO
    {
      rankAlmCnt := new nat[RANK_TOTAL](_ => 0);
      highRank := RANK_NULL;
    }

    /** gpnAlmCfgAlmRankSummary; its own rank check can never fail, so the rank must be right. */
    method AlmRankSummary(almRank: nat, arise: bool)
      requires WellSized(View()) && Ranked(Op(almRank, arise))
      modifies this, rankAlmCnt
      ensures View() == Step(old(View()), Op(almRank, arise))
    {
      var newStat := false;
      if arise {
        if rankAlmCnt[almRank - 1] == 0 {
          newStat := true;
        }
        rankAlmCnt[almRank - 1] := (rankAlmCnt[almRank - 1] + 1) % COUNT_LIMIT;
      } else if rankAlmCnt[almRank - 1] > 0 {
        rankAlmCnt[almRank - 1] := rankAlmCnt[almRank - 1] - 1;
        if rankAlmCnt[almRank - 1] == 0 {
          newStat := true;
        }
      }
      if newStat {
        if rankAlmCnt[3] != 0 {
          highRank := 4;
        } else if rankAlmCnt[2] != 0 {
          highRank := 3;
        } else if rankAlmCnt[1] != 0 {
          highRank := 2;
        } else if rankAlmCnt[0] != 0 {
          highRank := 1;
        } else {
          highRank := RANK_NULL;
        }
      }
    }
  }
}
