/** The alarm process of one board: its sync state, updated by device messages and timers, and what a
    slave does with the messages it gets (gpnAlmMasterSlaveSync.c). */
module SyncBoard {
  import opened DataSheet
  import opened Snapshot
  import R = Replication

  class AlarmBoard {
    var mySlot: nat
    var slotMainBoard: nat
    var slotSlaveBoard: nat
    var msStatus: R.Role
    var slaveStatus: R.Power
    var powerOnSyncDelay: nat
    var newCurrTable: seq<R.Delta>
    var addedTime: int

    ghost function View(): R.Board
      reads this
    {
      R.Board(mySlot, slotMainBoard, slotSlaveBoard, msStatus, slaveStatus, powerOnSyncDelay, newCurrTable, addedTime)
    }

    constructor ()
      ensures View() == R.BOOT
    {
      mySlot, slotMainBoard, slotSlaveBoard := 0, 0, 0;
      msStatus, slaveStatus, powerOnSyncDelay := R.NoRole, R.PowerInvalid, 0;
      newCurrTable, addedTime := [], 0;
    }

    method HandleBootState(slot: nat, haRole: R.Role, mainSlot: nat, slaveSlot: nat)
      modifies this
      ensures View() == R.OnBootState(old(View()), slot, haRole, mainSlot, slaveSlot)
    {
      if mySlot == slot {
        if haRole == R.Master && msStatus == R.Slave {
          msStatus := R.Master;
        } else if haRole == R.Slave && msStatus == R.Master {
          msStatus := R.Slave;
        } else {
          return;
        }
        slotMainBoard, slotSlaveBoard := mainSlot, slaveSlot;
      } else if mySlot == 0 {
        mySlot, slotMainBoard, slotSlaveBoard := slot, mainSlot, slaveSlot;
        if mySlot == slotMainBoard {
          msStatus := R.Master;
          if slotSlaveBoard != 0 {
            slaveStatus, powerOnSyncDelay := R.PowerNew, R.SYNC_DELAY;
          }
        } else {
          msStatus := R.Slave;
        }
      } else {
        if slotSlaveBoard == slot {
          return;
        }
        slotMainBoard, slotSlaveBoard := mainSlot, slaveSlot;
        if mySlot == slotMainBoard {
          msStatus := R.Master;
          slaveStatus, powerOnSyncDelay := R.PowerNew, R.SYNC_DELAY;
        } else {
          msStatus := R.Slave;
        }
      }
    }

    method HandleSlotDelete(slot: nat, slaveSlot: nat)
      modifies this
      ensures View() == R.OnSlotDelete(old(View()), slot, slaveSlot)
    {
      if slot == slaveSlot {
        slaveStatus := R.PowerInvalid;
        slotMainBoard, slotSlaveBoard, msStatus := mySlot, 0, R.Master;
      }
    }

    method MyStatusCheck(my: nat, mainSlot: nat, slaveSlot: nat)
      modifies this
      ensures View() == R.OnStatusCheck(old(View()), my, mainSlot, slaveSlot)
    {
      msStatus := if mainSlot == my then R.Master else R.Slave;
      slotMainBoard, mySlot := mainSlot, my;
      if slaveStatus == R.PowerDone {
        slotSlaveBoard := slaveSlot;
      }
    }

    /** The guard of the scan around alarm_new_curr_alarm_sync_table_add, and that function. */
    method NewCurrAlarmAdd(d: R.Delta, now: int)
      modifies this
      ensures View() == R.OnChange(old(View()), d, now)
    {
      if msStatus == R.Master && slotSlaveBoard != 0 && slaveStatus == R.PowerDone {
        if newCurrTable == [] {
          addedTime := now;
        }
        newCurrTable := newCurrTable + [d];
      }
    }

    /** alarm_MS_data_sync_process: the messages it sends are the table, or the queue, in order. */
    method DataSyncProcess(now: int, sheet: Sheet<CurrAlm>)
      returns (table: seq<seq<CurrAlm>>, changes: seq<seq<R.Delta>>)
      requires sheet.Valid() && OwnIndices(sheet.Rows()) && !Reserved(sheet.Rows())
      modifies this
      ensures View() == R.OnTick(old(View()), now).0
      ensures FullBatches(table, 85) && FullBatches(changes, 85)
      ensures Flatten(table) ==
        if R.OnTick(old(View()), now).1.WholeTable? then Alarms(sheet.Rows())[..Copyable(sheet.Rows())] else []
      ensures Flatten(changes) ==
        if R.OnTick(old(View()), now).1.Changes? then old(newCurrTable) else []
    {
      table, changes := [], [];
      if msStatus == R.Master {
        match slaveStatus {
          case PowerInvalid => newCurrTable := [];
          case PowerNew =>
            powerOnSyncDelay := if powerOnSyncDelay == 0 then 0xFFFF_FFFF else powerOnSyncDelay - 1;
            if powerOnSyncDelay == 1 {
              var left;
              table, left := CurrTableSync(sheet);
              slaveStatus := R.PowerDone;
            }
          case PowerDone =>
            if newCurrTable != [] && now - addedTime > R.CACHE_TIME {
              changes, newCurrTable := Drain(newCurrTable, MAX_BATCH);
            }
        }
      }
    }
  }

  // ----- the slave -----

  function KeysOf(alarms: seq<CurrAlm>): set<Key> {
    set a | a in alarms :: a.key
  }

  /** alarm_slave_store_master_curr_alarm, with inserts keyed. */
  method StoreCurrAlarm(keys: set<Key>, message: seq<CurrAlm>) returns (after: set<Key>)
    ensures after == keys + KeysOf(message)
  {
    after := keys;
    for cnt := 0 to |message|
      invariant after == keys + KeysOf(message[..cnt])
    {
      assert message[..cnt + 1] == message[..cnt] + [message[cnt]];
      after := after + {message[cnt].key};
    }
    assert message[..|message|] == message;
  }

  /** alarm_slave_store_master_new_curr_alarm, with inserts and removals keyed. */
  method StoreNewCurrAlarm(keys: set<Key>, message: seq<R.Delta>) returns (after: set<Key>)
    ensures after == R.Replay(keys, message)
  {
    after := keys;
    for cnt := 0 to |message|
      invariant R.Replay(after, message[cnt..]) == R.Replay(keys, message)
    {
      match message[cnt].action {
        case Rise => after := after + {message[cnt].key};
        case Clean => after := after - {message[cnt].key};
        case Other => return;
      }
    }
  }

  // ----- end to end -----

  function StoreTable(keys: set<Key>, messages: seq<seq<CurrAlm>>): set<Key> {
    if messages == [] then keys
    else StoreTable(keys, messages[..|messages| - 1]) + KeysOf(messages[|messages| - 1])
  }

  function RowKeys(rows: seq<Row<CurrAlm>>): set<Key> {
    set row | row in rows :: row.data.key
  }

  lemma {:induction false} StoreTableOfMessages(keys: set<Key>, messages: seq<seq<CurrAlm>>)
    ensures StoreTable(keys, messages) == keys + KeysOf(Flatten(messages))
  {
    if messages != [] { StoreTableOfMessages(keys, messages[..|messages| - 1]); }
  }

  /** A slave that stores the messages of the snapshot has every key of the master's sheet, in addition
      to what it had, exactly as long as no row's suffix is too long to copy. */
  lemma SnapshotReachesSlave(keys: set<Key>, rows: seq<Row<CurrAlm>>, messages: seq<seq<CurrAlm>>)
    requires Flatten(messages) == Alarms(rows)[..Copyable(rows)] && Copyable(rows) == |rows|
    ensures StoreTable(keys, messages) == keys + RowKeys(rows)
  {
    StoreTableOfMessages(keys, messages);
    var alarms := Alarms(rows);
    assert alarms[..|rows|] == alarms;
    forall key ensures key in KeysOf(alarms) <==> key in RowKeys(rows) {
      if key in KeysOf(alarms) {
        var a :| a in alarms && a.key == key;
        var i :| 0 <= i < |alarms| && alarms[i] == a;
        assert rows[i] in rows;
      }
      if key in RowKeys(rows) {
        var row :| row in rows && row.data.key == key;
        var i :| 0 <= i < |rows| && rows[i] == row;
        assert alarms[i] in alarms;
      }
    }
  }
}
