/** The power-on snapshot of a data sheet: copied row by row through get-next, then drained in batches
    (gpnAlmMasterSlaveSync.c). */
module Snapshot {
  import opened Basics
  import opened DataSheet

  const SUFFIX_LEN := 64
  const MESSAGE_LEN := 9960
  const RECORD_LEN := 116
  const MAX_BATCH := MESSAGE_LEN / RECORD_LEN

  /** What identifies an alarm: its sub-type and the port it is seen at. */
  datatype Key = Key(almType: nat, devIndex: nat, port: seq<nat>)

  datatype CurrAlm = CurrAlm(
    index: nat, key: Key, level: nat, count: nat, firstTime: nat, thisTime: nat, suffixLen: nat)

  /** Every row is stored under the index it carries, as the code that adds rows does. */
  predicate OwnIndices(rows: seq<Row<CurrAlm>>) {
    forall i :: 0 <= i < |rows| ==> rows[i].data.index == rows[i].index
  }

  /** Get-next as the copy loop sees it: a row with too long a suffix reads as the end. */
  function GetNext(rows: seq<Row<CurrAlm>>, index: nat): Option<CurrAlm> {
    var next := NextRow(rows, index);
    if next.None? || next.value.data.suffixLen > SUFFIX_LEN then None else Some(next.value.data)
  }

  /** The first n rows the copy loop sees when it starts at `index`. */
  function Walk(rows: seq<Row<CurrAlm>>, index: nat, n: nat): seq<CurrAlm>
    decreases n
  {
    if n == 0 then []
    else
      var next := GetNext(rows, index);
      if next.None? then [] else [next.value] + Walk(rows, next.value.index, n - 1)
  }

  function Alarms(rows: seq<Row<CurrAlm>>): (alarms: seq<CurrAlm>)
    ensures |alarms| == |rows| && forall i :: 0 <= i < |rows| ==> alarms[i] == rows[i].data
  {
    seq(|rows|, i requires 0 <= i < |rows| => rows[i].data)
  }

  /** The rows before the first one whose suffix is too long. */
  function Copyable(rows: seq<Row<CurrAlm>>): (n: nat)
    ensures n <= |rows| && forall i :: 0 <= i < n ==> rows[i].data.suffixLen <= 64
    ensures n < |rows| ==> rows[n].data.suffixLen > 64
  {
    if rows == [] || rows[0].data.suffixLen > SUFFIX_LEN then 0 else 1 + Copyable(rows[1..])
  }

  predicate Reserved(rows: seq<Row<CurrAlm>>) {
    exists i | 0 <= i < Copyable(rows) :: rows[i].index == ILLEGAL_INDEX
  }

  lemma NextAfter(rows: seq<Row<CurrAlm>>, k: nat)
    requires DistinctIndices(rows) && k < |rows| && rows[k].index != ILLEGAL_INDEX
    ensures NextRow(rows, rows[k].index) == if k + 1 < |rows| then Some(rows[k + 1]) else None
  {
    assert Find(rows, rows[k].index) == k;
  }

  /** From position k the walk goes through the rest in order, once, and stops. */
  lemma {:induction false} WalkFrom(rows: seq<Row<CurrAlm>>, index: nat, k: nat, n: nat)
    requires DistinctIndices(rows) && OwnIndices(rows) && !Reserved(rows)
    requires k <= Copyable(rows) < k + n
    requires NextRow(rows, index) == if k < |rows| then Some(rows[k]) else None
    ensures Walk(rows, index, n) == Alarms(rows)[k..Copyable(rows)]
    decreases n
  {
    if k < Copyable(rows) {
      assert rows[k].index != ILLEGAL_INDEX;
      NextAfter(rows, k);
      AlarmsFrom(rows, k, Copyable(rows));
      WalkFrom(rows, rows[k].index, k + 1, n - 1);
    }
  }

  lemma AlarmsFrom(rows: seq<Row<CurrAlm>>, k: nat, n: nat)
    requires k < n <= |rows|
    ensures Alarms(rows)[k..n] == [rows[k].data] + Alarms(rows)[k + 1..n]
  {
  }

  lemma {:induction false} WalkGoesRound(rows: seq<Row<CurrAlm>>, index: nat, k: nat, n: nat)
    requires DistinctIndices(rows) && OwnIndices(rows) && Reserved(rows)
    requires k < Copyable(rows) && NextRow(rows, index) == Some(rows[k])
    requires exists i :: k <= i < Copyable(rows) && rows[i].index == ILLEGAL_INDEX
    ensures |Walk(rows, index, n)| == n
    decreases n
  {
    if n > 0 {
      if rows[k].index == ILLEGAL_INDEX {
        WalkGoesRound(rows, ILLEGAL_INDEX, 0, n - 1);
      } else {
        NextAfter(rows, k);
        WalkGoesRound(rows, rows[k].index, k + 1, n - 1);
      }
    }
  }

  /** The copy loop ends, having seen the copyable rows once each in insertion order, exactly when none
      of them uses the reserved index; when one does, it goes round for ever. */
  lemma WalkEndsExactly(rows: seq<Row<CurrAlm>>, n: nat)
    requires DistinctIndices(rows) && OwnIndices(rows) && n > |rows|
    ensures !Reserved(rows) ==> Walk(rows, ILLEGAL_INDEX, n) == Alarms(rows)[..Copyable(rows)]
    ensures |Walk(rows, ILLEGAL_INDEX, n)| < n <==> !Reserved(rows)
  {
    if Reserved(rows) {
      WalkGoesRound(rows, ILLEGAL_INDEX, 0, n);
    } else {
      WalkFrom(rows, ILLEGAL_INDEX, 0, n);
    }
  }

  /** One turn of the copy loop at row k. */
  lemma CopyStep(rows: seq<Row<CurrAlm>>, k: nat)
    requires DistinctIndices(rows) && OwnIndices(rows) && !Reserved(rows) && k < Copyable(rows)
    ensures NextRow(rows, rows[k].data.index) == if k + 1 < |rows| then Some(rows[k + 1]) else None
  {
    assert rows[k].index != ILLEGAL_INDEX;
    NextAfter(rows, k);
  }

  lemma AlarmsGrow(rows: seq<Row<CurrAlm>>, k: nat)
    requires k < |rows|
    ensures Alarms(rows)[..k + 1] == Alarms(rows)[..k] + [rows[k].data]
  {
  }

  /** alarm_copy_table_to_sync_table: appends the whole sheet to the sync table. */
  method CopyTable(sheet: Sheet<CurrAlm>, before: seq<CurrAlm>) returns (table: seq<CurrAlm>)
    requires sheet.Valid() && OwnIndices(sheet.Rows()) && !Reserved(sheet.Rows())
    ensures table == before + Alarms(sheet.Rows())[..Copyable(sheet.Rows())]
  {
    ghost var rows, k := sheet.Rows(), 0;
    RowsDistinct(sheet.State());
    table := before;
    var next := sheet.GetNextLine(ILLEGAL_INDEX);
    while next.Some? && next.value.data.suffixLen <= SUFFIX_LEN
      invariant 0 <= k <= Copyable(rows)
      invariant next == if k < |rows| then Some(rows[k]) else None
      invariant table == before + Alarms(rows)[..k]
      decreases |rows| - k
    {
      table := table + [next.value.data];
      CopyStep(rows, k);
      AlarmsGrow(rows, k);
      next := sheet.GetNextLine(next.value.data.index);
      k := k + 1;
    }
  }

  // ----- batches -----

  function Flatten<T>(batches: seq<seq<T>>): seq<T> {
    if batches == [] then [] else Flatten(batches[..|batches| - 1]) + batches[|batches| - 1]
  }

  /** Every message holds at least one record, at most `max`, and all but the last exactly `max`. */
  predicate FullBatches<T>(batches: seq<seq<T>>, max: nat) {
    && (forall i :: 0 <= i < |batches| ==> 1 <= |batches[i]| <= max)
    && (forall i :: 0 <= i < |batches| - 1 ==> |batches[i]| == max)
  }

  lemma FlattenPush<T>(batches: seq<seq<T>>, batch: seq<T>)
    ensures Flatten(batches + [batch]) == Flatten(batches) + batch
  {
    assert (batches + [batch])[..|batches|] == batches;
  }

  /** The send loop of the sync functions: records are sent in messages of `max` and the list is
      emptied as it goes. */
  method Drain<T>(list: seq<T>, max: nat) returns (sent: seq<seq<T>>, left: seq<T>)
    requires max > 0
    ensures left == [] && Flatten(sent) == list && FullBatches(sent, max)
  {
    sent, left := [], list;
    if left == [] {
      return;
    }
    var buffer := [];
    ghost var done := [];
    while left != []
      invariant done == Flatten(sent) && done + buffer + left == list
      invariant |buffer| < max && Filled(sent, max)
      decreases |left|
    {
      MoveHead(done, buffer, left);
      buffer := buffer + [left[0]];
      left := left[1..];
      if |buffer| >= max {
        FlattenPush(sent, buffer);
        sent, done, buffer := sent + [buffer], done + buffer, [];
        assert done + [] == done;
      }
    }
    assert done + buffer + [] == done + buffer;
    if buffer != [] {
      FlattenPush(sent, buffer);
      sent := sent + [buffer];
    }
  }

  predicate Filled<T>(batches: seq<seq<T>>, max: nat) {
    forall i :: 0 <= i < |batches| ==> |batches[i]| == max
  }

  lemma MoveHead<T>(a: seq<T>, b: seq<T>, c: seq<T>)
    requires c != []
    ensures a + (b + [c[0]]) + c[1..] == a + b + c
  {
  }

  /** alarm_curr_alarm_table_sync with an empty sync table: the messages are the sheet, in order. */
  method CurrTableSync(sheet: Sheet<CurrAlm>) returns (sent: seq<seq<CurrAlm>>, left: seq<CurrAlm>)
    requires sheet.Valid() && OwnIndices(sheet.Rows()) && !Reserved(sheet.Rows())
    ensures left == [] && FullBatches(sent, 85)
    ensures Flatten(sent) == Alarms(sheet.Rows())[..Copyable(sheet.Rows())]
  {
    var table := CopyTable(sheet, []);
    sent, left := Drain(table, MAX_BATCH);
  }
}
