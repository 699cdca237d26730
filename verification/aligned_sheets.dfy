/** Replication row by row: each board numbers its own rows, and a removal names the row by the number it
    has on the master (gpnAlmAlmNotify.c, gpnAlmMasterSlaveSync.c). */
module AlignedSheets {
  import opened DataSheet
  import opened Snapshot

  /** A board's current-alarm sheet and the counter that numbers its next row. */
  datatype Table = Table(max: nat, rows: seq<Row<Key>>, counter: nat)

  /** A change as it is queued: a rise carries the alarm, a clean the row number on the master. */
  datatype Change = Up(key: Key) | Down(index: nat)

  /** gpnAlmANtCurrAlmInsertDS and gpnAlmANtCurrAlmOutDS, which both boards run. */
  function Apply(t: Table, c: Change): Table {
    match c
    case Up(key) =>
      var added := Added(t.max, true, t.rows, t.counter, Good(key));
      t.(rows := if added.Some? then added.value else t.rows, counter := t.counter + 1)
    case Down(index) =>
      var deleted := Deleted(t.rows, index);
      if deleted.Some? then t.(rows := deleted.value) else t
  }

  function ApplyAll(t: Table, changes: seq<Change>): Table {
    if changes == [] then t else Apply(ApplyAll(t, changes[..|changes| - 1]), changes[|changes| - 1])
  }

  function KeyList(rows: seq<Row<Key>>): (keys: seq<Key>)
    ensures |keys| == |rows| && forall i :: 0 <= i < |rows| ==> keys[i] == rows[i].data
  {
    seq(|rows|, i requires 0 <= i < |rows| => rows[i].data)
  }

  predicate Increasing(rows: seq<Row<Key>>) {
    forall i, j :: 0 <= i < j < |rows| ==> rows[i].index < rows[j].index
  }

  predicate DistinctKeys(rows: seq<Row<Key>>) {
    forall i, j :: 0 <= i < j < |rows| ==> rows[i].data != rows[j].data
  }

  predicate InOrder(t: Table) {
    && |t.rows| <= t.max && Increasing(t.rows) && DistinctKeys(t.rows)
    && (forall i :: 0 <= i < |t.rows| ==> t.rows[i].index < t.counter)
  }

  /** What the master's scan can produce: a rise of an alarm not in the table, a clean of a row in it. */
  predicate Possible(t: Table, c: Change) {
    match c
    case Up(key) => forall i :: 0 <= i < |t.rows| ==> t.rows[i].data != key
    case Down(index) => Find(t.rows, index) < |t.rows|
  }

  predicate AllPossible(t: Table, changes: seq<Change>) {
    changes != [] ==>
      && AllPossible(t, changes[..|changes| - 1])
      && Possible(ApplyAll(t, changes[..|changes| - 1]), changes[|changes| - 1])
  }

  /** The rows a rise leaves in front of its own: all, or all but the oldest of a full sheet. */
  function Kept(t: Table): seq<Row<Key>> {
    if |t.rows| < t.max || t.rows == [] then t.rows else t.rows[1..]
  }

  lemma UpAddsLast(t: Table, key: Key)
    requires InOrder(t) && t.max > 0
    ensures Apply(t, Up(key)) == Table(t.max, Kept(t) + [Row(t.counter, key)], t.counter + 1)
  {
    assert Find(t.rows, t.counter) == |t.rows|;
  }

  lemma UpKeepsOrder(t: Table, key: Key)
    requires InOrder(t) && Possible(t, Up(key))
    ensures InOrder(Apply(t, Up(key)))
  {
    if t.max > 0 {
      UpAddsLast(t, key);
      var kept := Kept(t);
      assert Increasing(kept) && DistinctKeys(kept);
    }
  }

  lemma ApplyKeepsOrder(t: Table, c: Change)
    requires InOrder(t) && Possible(t, c)
    ensures InOrder(Apply(t, c))
  {
    match c
    case Up(key) => UpKeepsOrder(t, key);
    case Down(_) =>
  }

  // ----- the snapshot on the slave -----

  function Empty(max: nat, counter: nat): Table { Table(max, [], counter) }

  function Ups(keys: seq<Key>): (changes: seq<Change>)
    ensures |changes| == |keys|
  {
    seq(|keys|, i requires 0 <= i < |keys| => Up(keys[i]))
  }

  function Numbered(keys: seq<Key>, from: nat): (rows: seq<Row<Key>>)
    ensures |rows| == |keys| && forall i :: 0 <= i < |keys| ==> rows[i] == Row(from + i, keys[i])
  {
    seq(|keys|, i requires 0 <= i < |keys| => Row(from + i, keys[i]))
  }

  lemma NumberedNext(max: nat, from: nat, keys: seq<Key>)
    requires 0 < |keys| <= max
    ensures var n := |keys| - 1;
      Apply(Table(max, Numbered(keys[..n], from), from + n), Up(keys[n]))
        == Table(max, Numbered(keys, from), from + |keys|)
  {
    var n := |keys| - 1;
    var before := Numbered(keys[..n], from);
    assert Find(before, from + n) == |before|;
    assert Numbered(keys, from) == before + [Row(from + n, keys[n])];
  }

  /** Stored on an empty slave, the snapshot is numbered from the slave's own counter. */
  lemma {:induction false} SnapshotNumbers(max: nat, from: nat, keys: seq<Key>)
    requires |keys| <= max
    ensures ApplyAll(Empty(max, from), Ups(keys)) == Table(max, Numbered(keys, from), from + |keys|)
  {
    if keys != [] {
      var n := |keys| - 1;
      SnapshotNumbers(max, from, keys[..n]);
      assert Ups(keys)[..n] == Ups(keys[..n]) && Ups(keys)[n] == Up(keys[n]);
      NumberedNext(max, from, keys);
    }
  }

  // ----- when later changes keep the tables alike -----

  /** The slave's row numbers and counter are the master's. */
  predicate Aligned(m: Table, from: nat) {
    m.counter == from + |m.rows| && forall i :: 0 <= i < |m.rows| ==> m.rows[i].index == from + i
  }

  predicate AlikeAfter(m: Table, s: Table, changes: seq<Change>) {
    AllPossible(m, changes) ==> KeyList(ApplyAll(m, changes).rows) == KeyList(ApplyAll(s, changes).rows)
  }

  ghost predicate Tracks(m: Table, s: Table) {
    forall changes :: AlikeAfter(m, s, changes)
  }

  lemma OneChange(t: Table, c: Change)
    ensures ApplyAll(t, [c]) == Apply(t, c)
    ensures Possible(t, c) ==> AllPossible(t, [c])
  {
    assert [c][..0] == [];
    assert ApplyAll(t, []) == t;
  }

  lemma TwoChanges(t: Table, c: Change, d: Change)
    ensures ApplyAll(t, [c, d]) == Apply(Apply(t, c), d)
    ensures Possible(t, c) && Possible(Apply(t, c), d) ==> AllPossible(t, [c, d])
  {
    OneChange(t, c);
    assert [c, d][..1] == [c];
  }

  lemma OtherRowSurvives(s: Table, index: nat, j: nat)
    requires j < |s.rows| && s.rows[j].index != index
    ensures s.rows[j].data in KeyList(Apply(s, Down(index)).rows)
  {
    var after := Apply(s, Down(index)).rows;
    var at := if Find(s.rows, index) < j then j - 1 else j;
    assert KeyList(after)[at] == after[at].data == s.rows[j].data;
  }

  /** A row with another number on the slave survives there when the master cleans it. */
  lemma WrongNumberShows(m: Table, s: Table, j: nat)
    requires InOrder(m) && InOrder(s) && KeyList(m.rows) == KeyList(s.rows)
    requires j < |m.rows| && m.rows[j].index != s.rows[j].index
    ensures !Tracks(m, s)
  {
    var c, key := Down(m.rows[j].index), m.rows[j].data;
    assert Find(m.rows, m.rows[j].index) == j;
    OneChange(m, c);
    OneChange(s, c);
    assert KeyList(m.rows)[j] == key == KeyList(s.rows)[j];
    OtherRowSurvives(s, m.rows[j].index, j);
    assert key !in KeyList(Apply(m, c).rows);
    assert !AlikeAfter(m, s, [c]);
  }

  /** A counter of its own shows at the first alarm that comes and goes. */
  lemma WrongCounterShows(m: Table, s: Table, key: Key)
    requires InOrder(m) && InOrder(s) && m.rows == s.rows && m.max == s.max > 0
    requires m.counter != s.counter && forall i :: 0 <= i < |m.rows| ==> m.rows[i].data != key
    ensures !Tracks(m, s)
  {
    var c, d := Up(key), Down(m.counter);
    var m1, s1, last := Apply(m, c), Apply(s, c), |Kept(m)|;
    UpAddsLast(m, key);
    UpAddsLast(s, key);
    LastRowOnly(Kept(m), Row(m.counter, key), m.counter);
    LastRowOnly(Kept(s), Row(s.counter, key), m.counter);
    TwoChanges(m, c, d);
    TwoChanges(s, c, d);
    assert |KeyList(Apply(m1, d).rows)| == last && |KeyList(Apply(s1, d).rows)| == last + 1;
    assert !AlikeAfter(m, s, [c, d]);
  }

  lemma LastRowOnly(rows: seq<Row<Key>>, row: Row<Key>, index: nat)
    requires forall i :: 0 <= i < |rows| ==> rows[i].index != index
    ensures Find(rows + [row], index) == if row.index == index then |rows| else |rows| + 1
  {
    assert (rows + [row])[|rows|] == row;
  }

  lemma AlignedIsSame(m: Table, from: nat)
    requires Aligned(m, from)
    ensures m == Table(m.max, Numbered(KeyList(m.rows), from), from + |m.rows|)
  {
  }

  lemma MisalignedShows(m: Table, s: Table, from: nat, unused: Key)
    requires InOrder(m) && m.max > 0 && forall i :: 0 <= i < |m.rows| ==> m.rows[i].data != unused
    requires s == Table(m.max, Numbered(KeyList(m.rows), from), from + |m.rows|) && InOrder(s)
    requires !Aligned(m, from)
    ensures !Tracks(m, s)
  {
    assert KeyList(s.rows) == KeyList(m.rows);
    if j :| 0 <= j < |m.rows| && m.rows[j].index != from + j {
      WrongNumberShows(m, s, j);
    } else {
      assert m.rows == s.rows;
      WrongCounterShows(m, s, unused);
    }
  }

  lemma NumberedInOrder(m: Table, from: nat)
    requires InOrder(m)
    ensures InOrder(Table(m.max, Numbered(KeyList(m.rows), from), from + |m.rows|))
  {
    var rows := Numbered(KeyList(m.rows), from);
    assert forall i :: 0 <= i < |rows| ==> rows[i].data == m.rows[i].data;
  }

  lemma TracksItself(m: Table)
    ensures Tracks(m, m)
  {
  }

  lemma NumberedTracksExactly(m: Table, s: Table, from: nat, unused: Key)
    requires InOrder(m) && m.max > 0 && forall i :: 0 <= i < |m.rows| ==> m.rows[i].data != unused
    requires s == Table(m.max, Numbered(KeyList(m.rows), from), from + |m.rows|)
    ensures Tracks(m, s) <==> Aligned(m, from)
  {
    if Aligned(m, from) {
      AlignedIsSame(m, from);
      TracksItself(m);
    } else {
      NumberedInOrder(m, from);
      MisalignedShows(m, s, from, unused);
    }
  }

  /** A slave that was empty, with its counter at `from`, goes on having the master's alarms after the
      snapshot, whatever alarms then come and go, exactly when the two boards number rows alike. */
  lemma SnapshotTracksExactly(m: Table, from: nat, unused: Key)
    requires InOrder(m) && m.max > 0 && forall i :: 0 <= i < |m.rows| ==> m.rows[i].data != unused
    ensures Tracks(m, ApplyAll(Empty(m.max, from), Ups(KeyList(m.rows)))) <==> Aligned(m, from)
  {
    var s := ApplyAll(Empty(m.max, from), Ups(KeyList(m.rows)));
    SnapshotNumbers(m.max, from, KeyList(m.rows));
    NumberedTracksExactly(m, s, from, unused);
  }

  /** Right after the snapshot the alarms are the same either way. */
  lemma SnapshotCopiesAlarms(m: Table, from: nat)
    requires InOrder(m)
    ensures KeyList(ApplyAll(Empty(m.max, from), Ups(KeyList(m.rows))).rows) == KeyList(m.rows)
  {
    SnapshotNumbers(m.max, from, KeyList(m.rows));
  }

  // ----- when that is -----

  function Rises(changes: seq<Change>): nat {
    if changes == [] then 0
    else Rises(changes[..|changes| - 1]) + if changes[|changes| - 1].Up? then 1 else 0
  }

  /** The table's rows are numbered from `from` on, and its counter is `rises` further. */
  predicate Counted(t: Table, max: nat, from: nat, rises: nat) {
    && InOrder(t) && t.max == max && t.counter == from + rises
    && forall i :: 0 <= i < |t.rows| ==> from <= t.rows[i].index
  }

  lemma ChangeCounts(t: Table, c: Change, from: nat, rises: nat)
    requires Counted(t, t.max, from, rises) && Possible(t, c)
    ensures Counted(Apply(t, c), t.max, from, rises + if c.Up? then 1 else 0)
  {
    ApplyKeepsOrder(t, c);
    if c.Up? && t.max > 0 { UpAddsLast(t, c.key); }
  }

  lemma {:induction false} CounterCountsRises(max: nat, from: nat, changes: seq<Change>)
    requires AllPossible(Empty(max, from), changes)
    ensures Counted(ApplyAll(Empty(max, from), changes), max, from, Rises(changes))
  {
    if changes != [] {
      var n := |changes| - 1;
      CounterCountsRises(max, from, changes[..n]);
      ChangeCounts(ApplyAll(Empty(max, from), changes[..n]), changes[n], from, Rises(changes[..n]));
    }
  }

  lemma {:induction false} Squeezed(rows: seq<Row<Key>>, from: nat, i: nat)
    requires Increasing(rows) && i < |rows| && forall k :: 0 <= k < |rows| ==> from <= rows[k].index
    ensures rows[i].index >= from + i
  {
    if i > 0 { Squeezed(rows, from, i - 1); }
  }

  lemma {:induction false} SqueezedAbove(rows: seq<Row<Key>>, limit: nat, i: nat)
    requires Increasing(rows) && i < |rows| && forall k :: 0 <= k < |rows| ==> rows[k].index < limit
    ensures rows[i].index + |rows| <= limit + i
    decreases |rows| - i
  {
    if i + 1 < |rows| { SqueezedAbove(rows, limit, i + 1); }
  }

  /** Boards that start numbering alike still do at the snapshot exactly when the master has not removed a
      single row since it started: no alarm has cleared and none was pushed out. */
  lemma AlignedUntilFirstRemoval(max: nat, from: nat, changes: seq<Change>)
    requires AllPossible(Empty(max, from), changes)
    ensures var m := ApplyAll(Empty(max, from), changes);
      Aligned(m, from) <==> |m.rows| == Rises(changes)
  {
    CounterCountsRises(max, from, changes);
    var m := ApplyAll(Empty(max, from), changes);
    if |m.rows| == Rises(changes) {
      forall i | 0 <= i < |m.rows| ensures m.rows[i].index == from + i {
        Squeezed(m.rows, from, i);
        SqueezedAbove(m.rows, m.counter, i);
      }
    }
  }
}
