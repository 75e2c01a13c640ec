/** What db_fetch tells its caller. */
module Fetching {
  import opened Accesses
  import opened CallCodes
  import opened Database
  import opened Histories
  import opened Limits
  import opened UsageTables

  /** Only pairs of the history have a row. */
  lemma RowsOccur(t: Tables, ops: seq<Op>, exe: string, file: string, row: Stats)
    requires Valid(t) && Represents(t, ops) && HasRow(t, exe, file, row)
    ensures Occurs(ops, exe, file)
  {
    var key := RowKey(t.exec.fwd[exe], t.file.fwd[file]);
    assert t.exec.rev[key.execId] == exe && t.file.rev[key.fileId] == file;
  }

  /** db_fetch fills its caller's buffer with the accumulated history of the pair, and only with that. */
  method FetchHistory(db: Db, call: Call, buffer: Stats, ghost ops: seq<Op>) returns (rc: int, stats: Stats)
    requires call.op.change.None? && call.writable == db.Writable() && db.Locking()
    requires Valid(db.Mem()) && db.Mem().Bound() + 2 < TWO_64 && Represents(db.Mem(), ops)
    modifies db
    ensures stats == if rc == 0 && Occurs(ops, call.op.exe, call.op.file)
                     then RowOf(ops, call.op.exe, call.op.file) else buffer
    ensures Represents(db.Mem(), ops)
  {
    ghost var t, op := db.Mem(), call.op;
    rc, stats := db.Fetch(call, buffer);
    HistoryStays(t, ops, call);
    if Occurs(ops, op.exe, op.file) {
      assert HasRow(t, op.exe, op.file, RowOf(ops, op.exe, op.file));
    } else {
      forall row
        ensures !HasRow(t, op.exe, op.file, row)
      {
        if HasRow(t, op.exe, op.file, row) {
          RowsOccur(t, ops, op.exe, op.file, row);
        }
      }
    }
  }

  lemma OneRowFetched()
    ensures ReturnCode(ONE_ROW, Call(JUST_FETCH, true, NEVER_FAILS)) == 0
  {
    FetchSucceedsIff(ONE_ROW, Call(JUST_FETCH, true, NEVER_FAILS));
  }

  /** A writer opens a database and asks for a row that is there. */
  method FetchesRowOf(t: Tables, call: Call, row: Stats) returns (rc: int, stats: Stats)
    requires Valid(t) && t.Bound() + 2 < TWO_64 && HasRow(t, call.op.exe, call.op.file, row)
    requires call.op.change.None? && call.writable && ReturnCode(t, call) == 0
    ensures rc == 0 && stats == row
  {
    var db := new Db.Attach({DB_WRITE}, t);
    rc, stats := db.Fetch(call, ZERO);
  }

  /** A writer asks for a row that is there: the caller's zeros are replaced by it. */
  method FetchesRow() returns (rc: int, stats: Stats)
    ensures rc == 0 && stats == Stats(1, 0, 0, 0, 5)
  {
    OneRowValid();
    OneRowFetched();
    assert ONE_ROW.Bound() == 2;
    rc, stats := FetchesRowOf(ONE_ROW, Call(JUST_FETCH, true, NEVER_FAILS), Stats(1, 0, 0, 0, 5));
  }
}
