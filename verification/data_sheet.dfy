/** The alarm data sheets (gpnAlmDataSheet.c): a fixed pool of rows threaded through an insertion-ordered
    used list, hash buckets and an idle list. Specification first, the linked structure after it. */
module DataSheet {
  import opened Basics

  const BUCKETS := 21
  const ILLEGAL_INDEX := 0xFFFF_FFFF

  /** A caller's line buffer; `Bad` stands for a null pointer or a length other than the unit size. */
  datatype Buffer<T> = Bad | Good(line: T)

  datatype Row<T> = Row(index: nat, data: T)

  // ----- specification: a bounded insertion-ordered map; None is the error return, state unchanged -----

  /** Position of the row with this index, or the number of rows when there is none. */
  function Find<T>(rows: seq<Row<T>>, index: nat): (k: nat)
    ensures k <= |rows|
    ensures k < |rows| ==> rows[k].index == index
    ensures forall i :: 0 <= i < k ==> rows[i].index != index
  {
    if rows == [] || rows[0].index == index then 0 else 1 + Find(rows[1..], index)
  }

  function Added<T>(max: nat, cyclic: bool, rows: seq<Row<T>>, index: nat, buffer: Buffer<T>): Option<seq<Row<T>>> {
    if Find(rows, index) < |rows| || buffer.Bad? then None
    else if |rows| < max then Some(rows + [Row(index, buffer.line)])
    else if !cyclic || rows == [] then None
    else Some(rows[1..] + [Row(index, buffer.line)])
  }

  function Deleted<T>(rows: seq<Row<T>>, index: nat): Option<seq<Row<T>>> {
    var k := Find(rows, index);
    if k < |rows| then Some(rows[..k] + rows[k + 1..]) else None
  }

  function Modified<T>(rows: seq<Row<T>>, index: nat, buffer: Buffer<T>): Option<seq<Row<T>>> {
    var k := Find(rows, index);
    if k < |rows| && buffer.Good? then Some(rows[k := Row(index, buffer.line)]) else None
  }

  /** Get-next: the first row for the illegal index, else the row after the one with this index. */
  function NextRow<T>(rows: seq<Row<T>>, index: nat): Option<Row<T>> {
    var k := if index == ILLEGAL_INDEX then 0 else Find(rows, index) + 1;
    if k < |rows| then Some(rows[k]) else None
  }

  // ----- what the specification promises, over any history -----

  datatype Op<T> =
    | AddRow(index: nat, buffer: Buffer<T>)
    | DeleteRow(index: nat)
    | ModifyRow(index: nat, buffer: Buffer<T>)

  function Outcome<T>(max: nat, cyclic: bool, rows: seq<Row<T>>, op: Op<T>): Option<seq<Row<T>>> {
    match op
    case AddRow(index, buffer) => Added(max, cyclic, rows, index, buffer)
    case DeleteRow(index) => Deleted(rows, index)
    case ModifyRow(index, buffer) => Modified(rows, index, buffer)
  }

  function Apply<T>(max: nat, cyclic: bool, rows: seq<Row<T>>, op: Op<T>): seq<Row<T>> {
    var r := Outcome(max, cyclic, rows, op);
    if r.Some? then r.value else rows
  }

  function History<T>(max: nat, cyclic: bool, ops: seq<Op<T>>): seq<Row<T>> {
    if ops == [] then [] else Apply(max, cyclic, History(max, cyclic, ops[..|ops| - 1]), ops[|ops| - 1])
  }

  predicate DistinctIndices<T>(rows: seq<Row<T>>) {
    forall i, j :: 0 <= i < j < |rows| ==> rows[i].index != rows[j].index
  }

  /** After any history the sheet is within its size and no index occurs twice. */
  lemma {:induction false} HistoryIsBoundedMap<T>(max: nat, cyclic: bool, ops: seq<Op<T>>)
    ensures |History(max, cyclic, ops)| <= max && DistinctIndices(History(max, cyclic, ops))
  {
    if ops != [] { HistoryIsBoundedMap(max, cyclic, ops[..|ops| - 1]); }
  }

  function Lookup<T>(rows: seq<Row<T>>, index: nat): Option<T> {
    var k := Find(rows, index);
    if k < |rows| then Some(rows[k].data) else None
  }

  lemma LookupIs<T>(rows: seq<Row<T>>, k: nat)
    requires DistinctIndices(rows) && k < |rows|
    ensures Find(rows, rows[k].index) == k
  {
  }

  lemma LookupNone<T>(rows: seq<Row<T>>, index: nat)
    requires forall i :: 0 <= i < |rows| ==> rows[i].index != index
    ensures Lookup(rows, index) == None
  {
  }

  lemma AddAsMap<T>(max: nat, cyclic: bool, rows: seq<Row<T>>, index: nat, buffer: Buffer<T>, j: nat)
    requires DistinctIndices(rows) && |rows| <= max && Added(max, cyclic, rows, index, buffer).Some?
    ensures Lookup(Added(max, cyclic, rows, index, buffer).value, j) ==
      if j == index then Some(buffer.line)
      else if |rows| == max && j == rows[0].index then None
      else Lookup(rows, j)
  {
    var after, i := Added(max, cyclic, rows, index, buffer).value, Find(rows, j);
    assert DistinctIndices(after);
    if j == index { LookupIs(after, |after| - 1); }
    else if i < |rows| && |rows| < max { LookupIs(after, i); }
    else if 0 < i < |rows| { LookupIs(after, i - 1); }
    else { LookupNone(after, j); }
  }

  lemma DeleteAsMap<T>(rows: seq<Row<T>>, index: nat, j: nat)
    requires DistinctIndices(rows) && Deleted(rows, index).Some?
    ensures Lookup(Deleted(rows, index).value, j) == if j == index then None else Lookup(rows, j)
  {
    var after, i, d := Deleted(rows, index).value, Find(rows, j), Find(rows, index);
    assert DistinctIndices(after);
    if i < d { LookupIs(after, i); }
    else if d < i < |rows| { LookupIs(after, i - 1); }
    else { LookupNone(after, j); }
  }

  lemma ModifyAsMap<T>(rows: seq<Row<T>>, index: nat, buffer: Buffer<T>, j: nat)
    requires DistinctIndices(rows) && Modified(rows, index, buffer).Some?
    ensures Lookup(Modified(rows, index, buffer).value, j) == if j == index then Some(buffer.line) else Lookup(rows, j)
  {
    var after, i := Modified(rows, index, buffer).value, Find(rows, j);
    assert DistinctIndices(after);
    if i < |rows| { LookupIs(after, i); } else { LookupNone(after, j); }
  }

  /** Read as a map: an add binds its index and unbinds at most the oldest one, which it does exactly
      when the sheet is full; a delete unbinds its index; a modify rebinds it. Nothing else moves. */
  lemma ApplyAsMap<T>(max: nat, cyclic: bool, rows: seq<Row<T>>, op: Op<T>, j: nat)
    requires DistinctIndices(rows) && |rows| <= max && Outcome(max, cyclic, rows, op).Some?
    ensures Lookup(Apply(max, cyclic, rows, op), j) ==
      match op
      case AddRow(index, buffer) =>
        if j == index then Some(buffer.line)
        else if |rows| == max && j == rows[0].index then None
        else Lookup(rows, j)
      case DeleteRow(index) => if j == index then None else Lookup(rows, j)
      case ModifyRow(index, buffer) => if j == index then Some(buffer.line) else Lookup(rows, j)
  {
    match op
    case AddRow(index, buffer) => AddAsMap(max, cyclic, rows, index, buffer, j);
    case DeleteRow(index) => DeleteAsMap(rows, index, j);
    case ModifyRow(index, buffer) => ModifyAsMap(rows, index, buffer, j);
  }

  /** What is accepted: an addition under an index not in the sheet, if there is room or a row to evict; a deletion
      or a rewriting of an index that is in it. */
  lemma AcceptedExactly<T>(max: nat, cyclic: bool, rows: seq<Row<T>>, op: Op<T>)
    requires |rows| <= max
    ensures Outcome(max, cyclic, rows, op).Some? <==>
      match op
      case AddRow(index, buffer) =>
        (forall row :: row in rows ==> row.index != index) && buffer != Bad && (|rows| < max || (cyclic && max > 0))
      case DeleteRow(index) => exists row :: row in rows && row.index == index
      case ModifyRow(index, buffer) => (exists row :: row in rows && row.index == index) && buffer != Bad
  {
    var k := Find(rows, op.index);
    if k < |rows| {
      assert rows[k] in rows;
    } else {
      forall row | row in rows ensures row.index != op.index {
        var i :| 0 <= i < |rows| && rows[i] == row;
      }
    }
  }

  /** An operation that is accepted and writes, deletes or evicts the row with index j. */
  predicate Touches<T>(max: nat, cyclic: bool, rows: seq<Row<T>>, op: Op<T>, j: nat) {
    && Outcome(max, cyclic, rows, op).Some?
    && (op.index == j || (op.AddRow? && |rows| == max && rows != [] && rows[0].index == j))
  }

  /** From operation k on, nothing touches the row with index j. */
  predicate Untouched<T>(max: nat, cyclic: bool, ops: seq<Op<T>>, k: nat, j: nat) {
    forall i :: k <= i < |ops| ==> !Touches(max, cyclic, History(max, cyclic, ops[..i]), ops[i], j)
  }

  lemma UntouchedEarlier<T>(max: nat, cyclic: bool, ops: seq<Op<T>>, k: nat, n: nat, j: nat)
    requires Untouched(max, cyclic, ops, k, j) && n <= |ops|
    ensures Untouched(max, cyclic, ops[..n], k, j)
  {
    forall i | k <= i < n ensures !Touches(max, cyclic, History(max, cyclic, ops[..n][..i]), ops[..n][i], j) {
      assert ops[..n][..i] == ops[..i];
    }
  }

  /** A row that nothing touches is read as it was. */
  lemma {:induction false} ReadsAsBefore<T>(max: nat, cyclic: bool, ops: seq<Op<T>>, k: nat, j: nat)
    requires k <= |ops| && Untouched(max, cyclic, ops, k, j)
    ensures Lookup(History(max, cyclic, ops), j) == Lookup(History(max, cyclic, ops[..k]), j)
  {
    var n := |ops| - 1;
    if k == |ops| {
      assert ops[..k] == ops;
    } else {
      UntouchedEarlier(max, cyclic, ops, k, n, j);
      ReadsAsBefore(max, cyclic, ops[..n], k, j);
      assert ops[..n][..k] == ops[..k];
      HistoryIsBoundedMap(max, cyclic, ops[..n]);
      var rows := History(max, cyclic, ops[..n]);
      assert !Touches(max, cyclic, rows, ops[n], j);
      if Outcome(max, cyclic, rows, ops[n]).Some? { ApplyAsMap(max, cyclic, rows, ops[n], j); }
    }
  }

  /** Read after write: once operation k on index j has been accepted, and as long as nothing touches that
      row again, reading j gives what was written; after a deletion, or an addition that evicted j to make
      room, it gives nothing. */
  lemma ReadAfterWrite<T>(max: nat, cyclic: bool, ops: seq<Op<T>>, k: nat, j: nat)
    requires k < |ops| && Touches(max, cyclic, History(max, cyclic, ops[..k]), ops[k], j)
    requires Untouched(max, cyclic, ops, k + 1, j)
    ensures Lookup(History(max, cyclic, ops), j) ==
      match ops[k]
      case AddRow(index, Good(line)) => if index == j then Some(line) else None
      case ModifyRow(_, Good(line)) => Some(line)
      case _ => None
  {
    HistoryIsBoundedMap(max, cyclic, ops[..k]);
    ApplyAsMap(max, cyclic, History(max, cyclic, ops[..k]), ops[k], j);
    assert ops[..k + 1][..k] == ops[..k] && ops[..k + 1][k] == ops[k];
    ReadsAsBefore(max, cyclic, ops, k + 1, j);
  }

  /** The operation that added the row with this index, the last one if it was added more than once. */
  function AddedAt<T>(max: nat, cyclic: bool, ops: seq<Op<T>>, index: nat): (k: nat)
    ensures k < |ops| || k == 0
  {
    if ops == [] then 0
    else
      var n := |ops| - 1;
      if ops[n].AddRow? && ops[n].index == index && Outcome(max, cyclic, History(max, cyclic, ops[..n]), ops[n]).Some?
      then n else AddedAt(max, cyclic, ops[..n], index)
  }

  /** Where row i stood before the operation, if it is not the one just added. */
  function Before<T>(max: nat, rows: seq<Row<T>>, op: Op<T>, i: nat): nat {
    match op
    case AddRow(_, _) => if |rows| < max then i else i + 1
    case DeleteRow(index) => if i < Find(rows, index) then i else i + 1
    case ModifyRow(_, _) => i
  }

  lemma SameRowBefore<T>(max: nat, cyclic: bool, rows: seq<Row<T>>, op: Op<T>, i: nat)
    requires Outcome(max, cyclic, rows, op).Some? && i < |Apply(max, cyclic, rows, op)|
    requires op.AddRow? ==> i < |Apply(max, cyclic, rows, op)| - 1
    ensures var b := Before(max, rows, op, i); b < |rows| && Apply(max, cyclic, rows, op)[i].index == rows[b].index
    ensures op.AddRow? ==> rows[Before(max, rows, op, i)].index != op.index
  {
  }

  /** The rows stand in the order in which they were added, so the first one is the oldest. */
  lemma {:induction false} RowsByAge<T>(max: nat, cyclic: bool, ops: seq<Op<T>>, i: nat, j: nat)
    requires i < j < |History(max, cyclic, ops)|
    ensures var rows := History(max, cyclic, ops);
      AddedAt(max, cyclic, ops, rows[i].index) < AddedAt(max, cyclic, ops, rows[j].index)
  {
    var n := |ops| - 1;
    var rows, op := History(max, cyclic, ops[..n]), ops[n];
    if Outcome(max, cyclic, rows, op).None? {
      RowsByAge(max, cyclic, ops[..n], i, j);
    } else {
      SameRowBefore(max, cyclic, rows, op, i);
      if !op.AddRow? || j < |History(max, cyclic, ops)| - 1 {
        SameRowBefore(max, cyclic, rows, op, j);
        RowsByAge(max, cyclic, ops[..n], Before(max, rows, op, i), Before(max, rows, op, j));
      }
    }
  }

  /** The rows that a run of additions leaves. */
  function RowsOfAdds<T>(adds: seq<Op<T>>): seq<Row<T>>
    requires forall op :: op in adds ==> op.AddRow? && op.buffer.Good?
  {
    seq(|adds|, i requires 0 <= i < |adds| => assert adds[i] in adds; Row(adds[i].index, adds[i].buffer.line))
  }

  /** What a sheet of `max` rows has room for: the newest rows when cyclic, the oldest when linear. */
  function Window<T>(max: nat, cyclic: bool, all: seq<Row<T>>): seq<Row<T>> {
    var n := if |all| <= max then |all| else max;
    if cyclic then all[|all| - n..] else all[..n]
  }

  lemma WindowIsPart<T>(max: nat, cyclic: bool, all: seq<Row<T>>, row: Row<T>)
    requires DistinctIndices(all + [row])
    ensures Find(Window(max, cyclic, all), row.index) == |Window(max, cyclic, all)|
  {
    var part := Window(max, cyclic, all);
    forall i | 0 <= i < |part| ensures part[i].index != row.index {
      var k := if cyclic then |all| - |part| + i else i;
      assert part[i] == all[k] == (all + [row])[k] && (all + [row])[|all|] == row;
    }
  }

  lemma WindowGrows<T>(max: nat, cyclic: bool, all: seq<Row<T>>, row: Row<T>)
    requires DistinctIndices(all + [row])
    ensures Apply(max, cyclic, Window(max, cyclic, all), AddRow(row.index, Good(row.data)))
         == Window(max, cyclic, all + [row])
  {
    WindowIsPart(max, cyclic, all, row);
    if |all| < max {
      assert Window(max, cyclic, all) == all;
    } else if cyclic && max > 0 {
      assert Window(max, true, all)[1..] + [row] == Window(max, true, all + [row]);
    } else {
      assert Window(max, cyclic, all + [row]) == Window(max, cyclic, all);
    }
  }

  /** Additions alone: a cyclic sheet keeps exactly the newest, a linear one exactly the oldest. */
  lemma {:induction false} AddsKeepNewestOrOldest<T>(max: nat, cyclic: bool, adds: seq<Op<T>>)
    requires forall op :: op in adds ==> op.AddRow? && op.buffer.Good?
    requires DistinctIndices(RowsOfAdds(adds))
    ensures History(max, cyclic, adds) == Window(max, cyclic, RowsOfAdds(adds))
  {
    if adds != [] {
      var last, all := |adds| - 1, RowsOfAdds(adds);
      assert RowsOfAdds(adds[..last]) == all[..last];
      AddsKeepNewestOrOldest(max, cyclic, adds[..last]);
      assert adds[last] in adds;
      assert all == all[..last] + [all[last]];
      WindowGrows(max, cyclic, all[..last], all[last]);
    }
  }

  // ----- the linked structure -----

  /** Hash node i and line node i of the pool, each with its own copy of the index. */
  datatype Slot<T> = Slot(hashIndex: nat, lineIndex: nat, line: T)

  /** The pool and its lists, lists being sequences of pool positions. */
  datatype Lists<T> = Lists(pool: seq<Slot<T>>, buckets: seq<seq<nat>>, used: seq<nat>, idle: seq<nat>)

  predicate NoDup(s: seq<nat>) {
    forall i, j :: 0 <= i < j < |s| ==> s[i] != s[j]
  }

  predicate InPool(n: nat, s: seq<nat>) {
    forall i :: 0 <= i < |s| ==> s[i] < n
  }

  predicate Partition(n: nat, used: seq<nat>, idle: seq<nat>) {
    && |used| + |idle| == n
    && NoDup(used) && NoDup(idle) && InPool(n, used) && InPool(n, idle)
    && (forall s :: s in used ==> s !in idle)
  }

  /** Each used row is in exactly the bucket of its index, once; idle rows are in none. */
  ghost predicate Bucketed<T>(l: Lists<T>)
    requires InPool(|l.pool|, l.used)
  {
    && |l.buckets| == BUCKETS
    && (forall b :: 0 <= b < BUCKETS ==> NoDup(l.buckets[b]))
    && (forall b, s :: 0 <= b < BUCKETS ==>
          (s in l.buckets[b] <==> s in l.used && l.pool[s].hashIndex % BUCKETS == b))
  }

  predicate Indexed<T>(pool: seq<Slot<T>>, used: seq<nat>)
    requires InPool(|pool|, used)
  {
    && (forall s :: s in used ==> pool[s].hashIndex == pool[s].lineIndex)
    && (forall s, t :: s in used && t in used && s != t ==> pool[s].lineIndex != pool[t].lineIndex)
  }

  ghost predicate Linked<T>(l: Lists<T>) {
    && Partition(|l.pool|, l.used, l.idle)
    && Bucketed(l)
    && Indexed(l.pool, l.used)
  }

  function RowsOf<T>(pool: seq<Slot<T>>, used: seq<nat>): (rows: seq<Row<T>>)
    requires InPool(|pool|, used)
    ensures |rows| == |used|
    ensures forall i :: 0 <= i < |used| ==> rows[i] == Row(pool[used[i]].lineIndex, pool[used[i]].line)
  {
    seq(|used|, i requires 0 <= i < |used| => Row(pool[used[i]].lineIndex, pool[used[i]].line))
  }

  /** Unlinks a node from a list. */
  function Unlink(s: seq<nat>, x: nat): (r: seq<nat>)
    ensures x !in s ==> r == s
    ensures x in s ==> |r| == |s| - 1
    ensures forall y :: y in r ==> y in s
    ensures forall y :: y in s && y != x ==> y in r
  {
    if s == [] then [] else if s[0] == x then s[1..] else [s[0]] + Unlink(s[1..], x)
  }

  /** Where a node stands in a list; the node itself knows its neighbours. */
  function PositionIn(s: seq<nat>, x: nat): (k: nat)
    requires x in s
    ensures k < |s| && s[k] == x
  {
    if s[0] == x then 0 else 1 + PositionIn(s[1..], x)
  }

  lemma {:induction false} UnlinkAt(s: seq<nat>, k: nat)
    requires NoDup(s) && k < |s|
    ensures Unlink(s, s[k]) == s[..k] + s[k + 1..]
    ensures s[k] !in Unlink(s, s[k]) && NoDup(Unlink(s, s[k]))
  {
    if k > 0 {
      var rest, x := s[1..], s[k];
      assert rest[k - 1] == x && s[0] != x && NoDup(rest);
      UnlinkAt(rest, k - 1);
      assert rest[..k - 1] == s[1..k] && rest[k..] == s[k + 1..];
      assert Unlink(s, x) == [s[0]] + Unlink(rest, x);
      assert s[0] !in rest;
    }
  }

  lemma UnlinkMember(s: seq<nat>, x: nat)
    requires NoDup(s) && x in s
    ensures x !in Unlink(s, x) && NoDup(Unlink(s, x))
  {
    var k :| 0 <= k < |s| && s[k] == x;
    UnlinkAt(s, k);
  }

  /** A used row is found where it stands. */
  lemma FindUsed<T>(l: Lists<T>, k: nat)
    requires Linked(l) && k < |l.used|
    ensures Find(RowsOf(l.pool, l.used), l.pool[l.used[k]].lineIndex) == k
  {
    var rows := RowsOf(l.pool, l.used);
    assert forall i :: 0 <= i < |l.used| ==> l.used[i] in l.used;
    assert DistinctIndices(rows);
  }

  lemma RowsDistinct<T>(l: Lists<T>)
    requires Linked(l)
    ensures DistinctIndices(RowsOf(l.pool, l.used)) && |RowsOf(l.pool, l.used)| <= |l.pool|
  {
    assert forall i :: 0 <= i < |l.used| ==> l.used[i] in l.used;
  }

  // ----- what linking and unlinking a row does -----

  /** Links the row at the head of the idle list, under an index not in use. */
  function LinkRow<T>(l: Lists<T>, index: nat, line: T): Lists<T>
    requires l.idle != [] && l.idle[0] < |l.pool| && |l.buckets| == BUCKETS
  {
    var s, b := l.idle[0], index % BUCKETS;
    Lists(l.pool[s := Slot(index, index, line)], l.buckets[b := l.buckets[b] + [s]], l.used + [s], l.idle[1..])
  }

  lemma LinkRowPartition<T>(l: Lists<T>, index: nat, line: T)
    requires Linked(l) && l.idle != []
    ensures var m := LinkRow(l, index, line); l.idle[0] !in l.used && Partition(|m.pool|, m.used, m.idle)
  {
    assert l.idle[0] in l.idle;
  }

  lemma LinkRowAdds<T>(l: Lists<T>, index: nat, line: T)
    requires Linked(l) && l.idle != []
    requires Find(RowsOf(l.pool, l.used), index) == |l.used|
    ensures Linked(LinkRow(l, index, line))
    ensures var m := LinkRow(l, index, line);
      RowsOf(m.pool, m.used) == RowsOf(l.pool, l.used) + [Row(index, line)]
  {
    LinkRowPartition(l, index, line);
    LinkRowBuckets(l, index, line);
    forall t | t in l.used ensures l.pool[t].lineIndex != index {
      var k :| 0 <= k < |l.used| && l.used[k] == t;
      assert RowsOf(l.pool, l.used)[k].index != index;
    }
  }

  lemma LinkRowBuckets<T>(l: Lists<T>, index: nat, line: T)
    requires Linked(l) && l.idle != []
    ensures InPool(|l.pool|, l.used + [l.idle[0]]) && Bucketed(LinkRow(l, index, line))
  {
    var m, s := LinkRow(l, index, line), l.idle[0];
    assert s in l.idle && s !in l.used;
    forall b, t | 0 <= b < BUCKETS
      ensures t in m.buckets[b] <==> t in m.used && m.pool[t].hashIndex % BUCKETS == b
    {
      assert t in l.buckets[b] <==> t in l.used && l.pool[t].hashIndex % BUCKETS == b;
    }
  }

  /** Unlinks the k-th used row and puts it in the idle list, in front or at the end. */
  function UnlinkRow<T>(l: Lists<T>, k: nat, front: bool): Lists<T>
    requires k < |l.used| && l.used[k] < |l.pool| && |l.buckets| == BUCKETS
  {
    var s := l.used[k];
    var b := l.pool[s].hashIndex % BUCKETS;
    var idle := if front then [s] + l.idle else l.idle + [s];
    Lists(l.pool, l.buckets[b := Unlink(l.buckets[b], s)], Unlink(l.used, s), idle)
  }

  lemma RowsWithout<T>(pool: seq<Slot<T>>, used: seq<nat>, k: nat)
    requires InPool(|pool|, used) && k < |used|
    ensures InPool(|pool|, used[..k] + used[k + 1..])
    ensures RowsOf(pool, used[..k] + used[k + 1..]) == RowsOf(pool, used)[..k] + RowsOf(pool, used)[k + 1..]
  {
  }

  lemma NoDupWith(s: seq<nat>, x: nat)
    requires NoDup(s) && x !in s
    ensures NoDup([x] + s) && NoDup(s + [x])
  {
    var front, back := [x] + s, s + [x];
    forall i, j | 0 <= i < j < |front| ensures front[i] != front[j] {
      assert front[j] == s[j - 1];
    }
    forall i, j | 0 <= i < j < |back| ensures back[i] != back[j] {
      assert back[i] == s[i];
    }
  }

  /** Moving one entry from the used list to either end of the idle list. */
  lemma PartitionMoves(n: nat, used: seq<nat>, rest: seq<nat>, idle: seq<nat>, x: nat, front: bool)
    requires Partition(n, used, idle) && x in used
    requires NoDup(rest) && x !in rest && |rest| == |used| - 1 && forall y :: y in rest ==> y in used
    ensures Partition(n, rest, if front then [x] + idle else idle + [x])
  {
    assert x !in idle;
    NoDupWith(idle, x);
    forall i | 0 <= i < |rest| ensures rest[i] < n {
      assert rest[i] in used;
    }
  }

  lemma UnlinkRowPartition<T>(l: Lists<T>, k: nat, front: bool)
    requires Linked(l) && k < |l.used|
    ensures Partition(|l.pool|, UnlinkRow(l, k, front).used, UnlinkRow(l, k, front).idle)
  {
    UnlinkAt(l.used, k);
    PartitionMoves(|l.pool|, l.used, Unlink(l.used, l.used[k]), l.idle, l.used[k], front);
  }

  lemma UnlinkRowRemoves<T>(l: Lists<T>, k: nat, front: bool)
    requires Linked(l) && k < |l.used|
    ensures Linked(UnlinkRow(l, k, front))
    ensures var m, rows := UnlinkRow(l, k, front), RowsOf(l.pool, l.used);
      RowsOf(m.pool, m.used) == rows[..k] + rows[k + 1..]
  {
    UnlinkRowPartition(l, k, front);
    UnlinkRowBuckets(l, k, front);
    UnlinkAt(l.used, k);
    RowsWithout(l.pool, l.used, k);
  }

  lemma UnlinkRowBuckets<T>(l: Lists<T>, k: nat, front: bool)
    requires Linked(l) && k < |l.used|
    ensures InPool(|l.pool|, UnlinkRow(l, k, front).used) && Bucketed(UnlinkRow(l, k, front))
  {
    var m, s := UnlinkRow(l, k, front), l.used[k];
    assert s in l.used;
    var h := l.pool[s].hashIndex % BUCKETS;
    assert s in l.buckets[h];
    UnlinkMember(l.buckets[h], s);
    UnlinkMember(l.used, s);
    UnlinkRowPartition(l, k, front);
    forall b, t | 0 <= b < BUCKETS
      ensures t in m.buckets[b] <==> t in m.used && m.pool[t].hashIndex % BUCKETS == b
    {
      assert t in l.buckets[b] <==> t in l.used && l.pool[t].hashIndex % BUCKETS == b;
    }
  }

  /** The lists with a row to spare, the oldest one if need be. */
  function WithRoom<T>(l: Lists<T>): Lists<T>
    requires l.idle == [] && l.used != [] ==> l.used[0] < |l.pool| && |l.buckets| == BUCKETS
  {
    if l.idle == [] && l.used != [] then UnlinkRow(l, 0, true) else l
  }

  lemma AddLinks<T>(l: Lists<T>, index: nat, line: T)
    requires Linked(l) && Find(RowsOf(l.pool, l.used), index) == |l.used|
    requires l.idle != [] || l.used != []
    ensures Linked(WithRoom(l)) && WithRoom(l).idle != [] && Linked(LinkRow(WithRoom(l), index, line))
    ensures var rows, m := RowsOf(l.pool, l.used), LinkRow(WithRoom(l), index, line);
      && |rows| + |l.idle| == |l.pool|
      && RowsOf(m.pool, m.used) == (if l.idle == [] then rows[1..] else rows) + [Row(index, line)]
  {
    var rows := RowsOf(l.pool, l.used);
    if l.idle == [] {
      UnlinkRowRemoves(l, 0, true);
      assert rows[..0] + rows[1..] == rows[1..];
      var m := UnlinkRow(l, 0, true);
      assert Find(rows[1..], index) == |rows[1..]|;
    }
    LinkRowAdds(WithRoom(l), index, line);
  }

  // ----- searching a bucket -----

  /** The bucket of an index tells where its row stands, or that there is none. */
  lemma BucketTells<T>(l: Lists<T>, index: nat)
    requires Linked(l)
    ensures var k, bucket := Find(RowsOf(l.pool, l.used), index), l.buckets[index % BUCKETS];
      && InPool(|l.pool|, bucket)
      && (forall s :: s in bucket && s < |l.pool| && l.pool[s].hashIndex == index ==> k < |l.used| && l.used[k] == s)
      && (k < |l.used| ==> l.used[k] in bucket && l.pool[l.used[k]].hashIndex == index)
  {
    var k, bucket := Find(RowsOf(l.pool, l.used), index), l.buckets[index % BUCKETS];
    if k < |l.used| { assert l.used[k] in l.used; }
    forall i | 0 <= i < |bucket| ensures bucket[i] < |l.pool| {
      assert bucket[i] in bucket && bucket[i] in l.used;
    }
    forall s | s in bucket && s < |l.pool| && l.pool[s].hashIndex == index
      ensures k < |l.used| && l.used[k] == s
    {
      var i :| 0 <= i < |l.used| && l.used[i] == s;
      FindUsed(l, i);
    }
  }

  class Sheet<T> {
    const maxLine: nat
    const cyclic: bool
    const pool: array<Slot<T>>
    var usedHash: seq<seq<nat>>
    var usedList: seq<nat>
    var idleList: seq<nat>

    ghost function State(): Lists<T>
      reads this, pool
    {
      Lists(pool[..], usedHash, usedList, idleList)
    }

    ghost predicate Valid()
      reads this, pool
    {
      pool.Length == maxLine && Linked(State())
    }

    ghost function Rows(): (rows: seq<Row<T>>)
      requires Valid()
      reads this, pool
      ensures |rows| == |usedList|
    {
      RowsOf(pool[..], usedList)
    }

    /** Line and hash nodes are carved out of one zeroed block and all start idle. */
    constructor (maxLine: nat, cyclic: bool, zero: T)
      ensures Valid() && fresh(pool) && this.maxLine == maxLine && this.cyclic == cyclic
      ensures Rows() == []
    {
      this.maxLine, this.cyclic := maxLine, cyclic;
      pool := new Slot<T>[maxLine](_ => Slot(0, 0, zero));
      usedHash, usedList, idleList := seq(BUCKETS, _ => []), [], [];
      new;
      for i := 0 to maxLine
        invariant |idleList| == i && forall j :: 0 <= j < i ==> idleList[j] == j
        invariant usedList == [] && usedHash == seq(BUCKETS, _ => [])
      {
        idleList := idleList + [i];
      }
    }

    method GetNode(index: nat) returns (node: Option<nat>)
      requires Valid()
      ensures node == if Find(Rows(), index) < |Rows()| then Some(usedList[Find(Rows(), index)]) else None
    {
      BucketTells(State(), index);
      var bucket := usedHash[index % BUCKETS];
      for i := 0 to |bucket|
        invariant forall j :: 0 <= j < i ==> pool[bucket[j]].hashIndex != index
      {
        assert bucket[i] in bucket;
        if pool[bucket[i]].hashIndex == index {
          return Some(bucket[i]);
        }
      }
      return None;
    }

    method GetLine(index: nat) returns (line: Option<T>)
      requires Valid()
      ensures index != ILLEGAL_INDEX ==> line == Lookup(Rows(), index)
      ensures index == ILLEGAL_INDEX ==> line == if Rows() == [] then None else Some(Rows()[0].data)
    {
      if index == ILLEGAL_INDEX {
        return if usedList != [] then Some(pool[usedList[0]].line) else None;
      }
      var node := GetNode(index);
      return if node.Some? then Some(pool[node.value].line) else None;
    }

    /** The line node after the one with this index, with its index. */
    method GetNextLine(index: nat) returns (next: Option<Row<T>>)
      requires Valid()
      ensures next == NextRow(Rows(), index)
    {
      var k;
      if index == ILLEGAL_INDEX {
        k := 0;
      } else {
        var node := GetNode(index);
        if node == None {
          return None;
        }
        k := PositionIn(usedList, node.value) + 1;
      }
      return if k < |usedList| then Some(Row(pool[usedList[k]].lineIndex, pool[usedList[k]].line)) else None;
    }

    /** Takes a row out of the lists: the head of the idle list, else the oldest used row of a cyclic
        sheet, found through its bucket. */
    method TakeRow() returns (node: Option<nat>)
      requires Valid()
      modifies this`usedHash, this`usedList, this`idleList
      ensures node == None <==> old(idleList) == [] && (!cyclic || old(usedList) == [])
      ensures node == None ==> State() == old(State())
      ensures node.Some? ==> var m := WithRoom(old(State()));
        m.idle != [] && node.value == m.idle[0] && State() == m.(idle := m.idle[1..])
    {
      if idleList != [] {
        node := Some(idleList[0]);
        idleList := idleList[1..];
        return;
      }
      if !cyclic || usedList == [] {
        return None;
      }
      var s := usedList[0];
      FindUsed(State(), 0);
      node := GetNode(pool[s].lineIndex);
      assert s in usedList;
      var hash := pool[s].lineIndex % BUCKETS;
      usedHash := usedHash[hash := Unlink(usedHash[hash], node.value)];
      usedList := Unlink(usedList, node.value);
    }

    method Add(index: nat, buffer: Buffer<T>) returns (ok: bool)
      requires Valid()
      modifies this`usedHash, this`usedList, this`idleList, pool
      ensures Valid()
      ensures var added := Added(maxLine, cyclic, old(Rows()), index, buffer);
        ok == added.Some? && Rows() == if ok then added.value else old(Rows())
      ensures !ok ==> State() == old(State())
    {
      var node := GetNode(index);
      if node.Some? || buffer.Bad? {
        return false;
      }
      ghost var l := State();
      node := TakeRow();
      if node == None {
        return false;
      }
      AddLinks(l, index, buffer.line);
      var s, hash := node.value, index % BUCKETS;
      usedHash := usedHash[hash := usedHash[hash] + [s]];
      pool[s] := Slot(index, index, buffer.line);
      usedList := usedList + [s];
      assert State() == LinkRow(WithRoom(l), index, buffer.line);
      return true;
    }

    method Delete(index: nat) returns (ok: bool)
      requires Valid()
      modifies this`usedHash, this`usedList, this`idleList
      ensures Valid()
      ensures var deleted := Deleted(old(Rows()), index);
        ok == deleted.Some? && Rows() == if ok then deleted.value else old(Rows())
      ensures !ok ==> State() == old(State())
    {
      ghost var rows := Rows();
      ghost var k := Find(rows, index);
      var node := GetNode(index);
      if node == None {
        return false;
      }
      ReturnRow(node.value, k);
      assert Deleted(rows, index) == Some(rows[..k] + rows[k + 1..]);
      return true;
    }

    /** Takes a used row out of the lists and puts it behind the idle ones. */
    method ReturnRow(s: nat, ghost k: nat)
      requires Valid() && k < |usedList| && usedList[k] == s
      modifies this`usedHash, this`usedList, this`idleList
      ensures Valid() && Rows() == old(Rows()[..k] + Rows()[k + 1..])
    {
      UnlinkRowRemoves(State(), k, false);
      var hash := pool[s].hashIndex % BUCKETS;
      usedHash := usedHash[hash := Unlink(usedHash[hash], s)];
      usedList := Unlink(usedList, s);
      idleList := idleList + [s];
      assert State() == UnlinkRow(old(State()), k, false);
    }

    method Modify(index: nat, buffer: Buffer<T>) returns (ok: bool)
      requires Valid()
      modifies pool
      ensures Valid()
      ensures var modified := Modified(old(Rows()), index, buffer);
        ok == modified.Some? && Rows() == if ok then modified.value else old(Rows())
      ensures !ok ==> State() == old(State())
    {
      var node := GetNode(index);
      if node == None || buffer.Bad? {
        return false;
      }
      var s := node.value;
      SetLine(State(), Find(Rows(), index), buffer.line);
      pool[s] := pool[s].(line := buffer.line);
      assert pool[..] == old(pool[..])[s := pool[s]];
      return true;
    }
  }

  /** Rewriting the data of a used row leaves every list alone. */
  lemma SetLine<T>(l: Lists<T>, k: nat, line: T)
    requires Linked(l) && k < |l.used|
    ensures var s := l.used[k];
      var m := l.(pool := l.pool[s := l.pool[s].(line := line)]);
      && Linked(m)
      && RowsOf(m.pool, m.used) == RowsOf(l.pool, l.used)[k := Row(l.pool[s].lineIndex, line)]
  {
    var s := l.used[k];
    var m := l.(pool := l.pool[s := l.pool[s].(line := line)]);
    forall b, t | 0 <= b < BUCKETS
      ensures t in m.buckets[b] <==> t in m.used && m.pool[t].hashIndex % BUCKETS == b
    {
      assert t in l.buckets[b] <==> t in l.used && l.pool[t].hashIndex % BUCKETS == b;
    }
  }
}
