/** search.c: the aggregation loops over the event table. */
module Search {
  import opened Accesses
  import opened Database
  import opened IdArithmetic
  import opened Limits
  import opened Totals
  import opened UsageTables
  import opened Wrappers

  const ERR_USAGE := 1
  const MAXPATH := PATH_MAX + 1

  /** fusg_stats_iterator_t: it holds the lock from its first key until it is released. */
  class Iterator {
    const dbc: Db
    var haveLock: bool
    var key: Option<RowKey>
    /** The keys gdbm_nextkey has yet to visit, in an order of its own. */
    var pending: set<RowKey>

    ghost predicate Ready()
      reads this, dbc
    {
      && haveLock && dbc.Locking() && dbc.lockDepth > 0
      && pending <= dbc.evnt.Keys
      && (key.Some? ==> key.value in dbc.evnt && key.value !in pending)
      && (key.None? ==> pending == {})
    }

    /** db_fusg_stats_first */
    constructor First(db: Db)
      requires db.Locking()
      modifies db`lockDepth, db`flock
      ensures dbc == db && Ready() && db.lockDepth == old(db.lockDepth) + 1
      ensures pending == db.evnt.Keys - if key.Some? then {key.value} else {}
    {
      dbc := db;
      haveLock := false;
      key := None;
      pending := db.evnt.Keys;
      new;
      dbc.Lock();
      haveLock := true;
      PickKey();
    }

    /** Some key that is left, if there is one. */
    method PickKey()
      modifies this`key, this`pending
      ensures if old(pending) == {} then key == None && pending == {}
              else key.Some? && key.value in old(pending) && pending == old(pending) - {key.value}
    {
      if pending == {} {
        key := None;
      } else {
        var k :| k in pending;
        key, pending := Some(k), pending - {k};
      }
    }

    method Code() returns (rc: int)
      ensures rc == if key.Some? then 0 else -1
    {
      return if key.Some? then 0 else -1;
    }

    /** db_iterator_fetch: a missing row is no error, it only leaves the caller's buffer as it was. */
    method Fetch(outcome: Outcome, buffer: Stats) returns (rc: int, row: Stats)
      requires key.Some?
      modifies dbc`gdbmErrno
      ensures rc == 0 <==> outcome.Works?
      ensures rc == 0 || rc == -1
      ensures row == if outcome.Works? && key.value in dbc.evnt then dbc.evnt[key.value] else buffer
    {
      var found := dbc.EvntFetch(key.value, outcome);
      if found.Some? {
        return 0, found.value;
      }
      rc := dbc.CheckExpectedNotFound();
      row := buffer;
    }

    /** db_iterator_next */
    method Next() returns (rc: int)
      requires Ready() && key.Some?
      modifies this`key, this`pending
      ensures Ready() && rc == if key.Some? then 0 else -1
      ensures if key.Some? then key.value in old(pending) && pending == old(pending) - {key.value}
              else old(pending) == {} && pending == {}
    {
      PickKey();
      rc := Code();
    }

    /** db_iterator_release */
    method Release()
      requires Ready()
      modifies this`haveLock, this`key, dbc`lockDepth, dbc`flock, dbc`disk, dbc`dirty
      ensures dbc.Locking() && dbc.lockDepth == old(dbc.lockDepth) - 1 && !haveLock
    {
      key := None;
      if haveLock {
        var _ := dbc.Unlock();
        haveLock := false;
      }
    }
  }

  /** One printed line: the counters and the name. */
  datatype Line = Line(stats: Stats, name: string)

  /** The names of all rows on a side fit the buffers of the search loops. */
  ghost predicate NamesFit(t: Tables, side: Side) {
    RowsResolve(t) && forall k | k in t.evnt :: |t.On(side).rev[IdOn(k, side)]| < MAXPATH
  }

  function LineFor(t: Tables, named: Side, key: RowKey): Line {
    if key in t.evnt && IdOn(key, named) in t.On(named).rev then Line(t.evnt[key], t.On(named).rev[IdOn(key, named)])
    else Line(ZERO, "")
  }

  function LinesFor(t: Tables, named: Side, order: seq<RowKey>): seq<Line> {
    if order == [] then []
    else LinesFor(t, named, order[..|order| - 1]) + [LineFor(t, named, order[|order| - 1])]
  }

  lemma {:induction false} LinesForAt(t: Tables, named: Side, order: seq<RowKey>)
    ensures |LinesFor(t, named, order)| == |order|
    ensures forall i | 0 <= i < |order| :: LinesFor(t, named, order)[i] == LineFor(t, named, order[i])
  {
    if order != [] {
      LinesForAt(t, named, order[..|order| - 1]);
    }
  }

  /** What one query reports about the given rows: a line for each of them, and their total. */
  ghost predicate Reports(t: Tables, named: Side, keys: set<RowKey>, lines: seq<Line>, total: Stats) {
    && RowsResolve(t) && keys <= t.evnt.Keys
    && IsTotal(t.evnt, keys, total)
    && exists order: seq<RowKey> :: Enumerates(order, keys) && lines == LinesFor(t, named, order)
  }

  /** How far a loop has come, while it runs. */
  ghost predicate Collected(t: Tables, named: Side, order: seq<RowKey>, lines: seq<Line>, total: Stats) {
    lines == LinesFor(t, named, order) && total == AddedUp(t.evnt, order)
  }

  /** The rows of the query that the iterator has left behind. */
  function Behind(evnt: map<RowKey, Stats>, side: Side, id: u64,
                  pending: set<RowKey>, key: Option<RowKey>): set<RowKey>
  {
    Matching(evnt, side, id) - pending - if key.Some? then {key.value} else {}
  }

  lemma BehindStart(evnt: map<RowKey, Stats>, side: Side, id: u64, pending: set<RowKey>, key: Option<RowKey>)
    requires pending == evnt.Keys - if key.Some? then {key.value} else {}
    ensures Behind(evnt, side, id, pending, key) == {}
  {}

  lemma BehindNext(evnt: map<RowKey, Stats>, side: Side, id: u64, pending: set<RowKey>, key: RowKey,
                   pending': set<RowKey>, key': Option<RowKey>)
    requires key in evnt && key !in pending && pending <= evnt.Keys
    requires if key'.Some? then key'.value in pending && pending' == pending - {key'.value}
             else pending == {} && pending' == {}
    ensures Behind(evnt, side, id, pending', key')
         == Behind(evnt, side, id, pending, Some(key)) + if IdOn(key, side) == id then {key} else {}
    ensures key !in Behind(evnt, side, id, pending, Some(key))
    ensures key'.Some? ==> |pending'| < |pending|
  {}

  /** The enumeration follows the iterator: a selected key is appended, any other left out. */
  lemma EnumeratesNext(evnt: map<RowKey, Stats>, side: Side, id: u64, order: seq<RowKey>,
                       pending: set<RowKey>, key: RowKey, pending': set<RowKey>, key': Option<RowKey>)
    requires key in evnt && key !in pending && pending <= evnt.Keys
    requires if key'.Some? then key'.value in pending && pending' == pending - {key'.value}
             else pending == {} && pending' == {}
    requires Enumerates(order, Behind(evnt, side, id, pending, Some(key)))
    ensures Enumerates(if IdOn(key, side) == id then order + [key] else order, Behind(evnt, side, id, pending', key'))
    ensures key'.Some? ==> |pending'| < |pending|
  {
    BehindNext(evnt, side, id, pending, key, pending', key');
    var keys := Behind(evnt, side, id, pending, Some(key));
    if IdOn(key, side) == id {
      EnumeratesMore(order, keys, key);
    } else {
      assert keys + {} == keys;
    }
  }

  lemma CollectedReports(t: Tables, side: Side, id: u64, order: seq<RowKey>, lines: seq<Line>, total: Stats)
    requires RowsResolve(t) && Enumerates(order, Behind(t.evnt, side, id, {}, None))
    requires Collected(t, Other(side), order, lines, total)
    ensures Reports(t, Other(side), Matching(t.evnt, side, id), lines, total)
  {
    var keys := Matching(t.evnt, side, id);
    assert Behind(t.evnt, side, id, {}, None) == keys;
    AddedUpIsTotal(t.evnt, order, keys);
  }

  /** The iterator walks the rows of these tables. */
  ghost predicate Walks(it: Iterator, t: Tables, rc: int)
    reads it, it.dbc
  {
    it.Ready() && it.dbc.Mem() == t && rc == if it.key.Some? then 0 else -1
  }

  /** Names one selected row and adds it to the report. */
  method ReportRow(db: Db, named: Side, key: RowKey, row: Stats, sum: StatsTotal, lines0: seq<Line>,
                   ghost t: Tables, ghost order: seq<RowKey>)
    returns (lines: seq<Line>)
    requires db.Locking() && db.Mem() == t && NamesFit(t, named)
    requires key in t.evnt && row == t.evnt[key]
    requires Collected(t, named, order, lines0, sum.Value())
    modifies sum, db`lockDepth, db`flock, db`disk, db`dirty, db`gdbmErrno
    ensures db.Locking() && db.lockDepth == old(db.lockDepth)
    ensures Collected(t, named, order + [key], lines, sum.Value())
  {
    var rc, name := db.LookUpPath(named, IdOn(key, named), MAXPATH);
    assert rc == 0;
    lines := lines0 + [Line(row, name)];
    sum.Add(row);
    assert (order + [key])[..|order|] == order;
  }

  /** The body of the loop of both searches, up to and including db_iterator_next. */
  method Visit(db: Db, it: Iterator, side: Side, id: u64, sum: StatsTotal, lines0: seq<Line>,
               ghost t: Tables, ghost order0: seq<RowKey>)
    returns (rc: int, lines: seq<Line>, ghost order: seq<RowKey>)
    requires Walks(it, t, 0) && it.dbc == db && NamesFit(t, Other(side))
    requires Enumerates(order0, Behind(t.evnt, side, id, it.pending, it.key))
    requires Collected(t, Other(side), order0, lines0, sum.Value())
    modifies sum, it`key, it`pending, db`lockDepth, db`flock, db`disk, db`dirty, db`gdbmErrno
    ensures Walks(it, t, rc) && db.lockDepth == old(db.lockDepth)
    ensures rc == 0 ==> |it.pending| < old(|it.pending|)
    ensures Enumerates(order, Behind(t.evnt, side, id, it.pending, it.key))
    ensures Collected(t, Other(side), order, lines, sum.Value())
  {
    lines, order := lines0, order0;
    var row: Stats := *;
    rc, row := it.Fetch(Works, row);
    assert rc == 0;
    var key := it.key.value;
    ghost var pending := it.pending;
    if IdOn(key, side) == id {
      lines := ReportRow(db, Other(side), key, row, sum, lines, t, order);
      order := order + [key];
    }
    rc := it.Next();
    EnumeratesNext(t.evnt, side, id, order0, pending, key, it.pending, it.key);
  }

  /** The loop of both searches. */
  method Collect(db: Db, side: Side, id: u64, sum: StatsTotal, ghost t: Tables) returns (lines: seq<Line>)
    requires db.Locking() && db.Mem() == t && NamesFit(t, Other(side)) && sum.Value() == ZERO
    modifies sum, db`lockDepth, db`flock, db`disk, db`dirty, db`gdbmErrno
    ensures db.Locking() && db.lockDepth == old(db.lockDepth)
    ensures Reports(t, Other(side), Matching(t.evnt, side, id), lines, sum.Value())
  {
    lines := [];
    ghost var order: seq<RowKey> := [];
    var it := new Iterator.First(db);
    BehindStart(t.evnt, side, id, it.pending, it.key);
    var rc := it.Code();
    while rc == 0
      invariant Walks(it, t, rc) && it.dbc == db && fresh(it) && db.lockDepth == old(db.lockDepth) + 1
      invariant Enumerates(order, Behind(t.evnt, side, id, it.pending, it.key))
      invariant Collected(t, Other(side), order, lines, sum.Value())
      decreases |it.pending| + if rc == 0 then 1 else 0
    {
      rc, lines, order := Visit(db, it, side, id, sum, lines, t, order);
    }
    CollectedReports(t, side, id, order, lines, sum.Value());
    it.Release();
  }

  /**
   search_files_single (side == Exec) and search_execs_single (side == File): the rows of
   one executable, or of one file.  `resolved` is what realpath makes of the argument.
   A query that runs its loop to the end returns -1.
   */
  method SearchSingle(db: Db, side: Side, argument: string, resolved: Option<string>, ghost t: Tables)
    returns (rc: int, lines: seq<Line>, total: Stats, count: nat)
    requires db.Locking() && db.Mem() == t && Valid(t) && NamesFit(t, Other(side))
    modifies db`lockDepth, db`flock, db`disk, db`dirty, db`gdbmErrno
    ensures db.Locking() && db.lockDepth == old(db.lockDepth) && count == |lines|
    ensures var path := if resolved.Some? then resolved.value else argument;
            var fwd := t.On(side).fwd;
            if path in fwd then
              rc == -1 && Reports(t, Other(side), Matching(t.evnt, side, fwd[path]), lines, total)
            else
              rc == (if resolved.Some? then 0 else ERR_USAGE) && lines == [] && total == ZERO
  {
    rc, lines, total, count := 0, [], ZERO, 0;
    var path := if resolved.Some? then resolved.value else argument;
    var id := db.LookUpId(side, path);
    SentinelIffAbsent(t, side, path);
    var entryExists := id != NOT_FOUND;
    if resolved.None? && !entryExists {
      return ERR_USAGE, [], ZERO, 0;
    }
    if entryExists {
      var sum := new StatsTotal();
      lines := Collect(db, side, id, sum, t);
      rc, count, total := -1, |lines|, sum.Value();
    }
  }

  /** One line of the dump: both names. */
  datatype DumpLine = DumpLine(stats: Stats, exe: string, file: string)

  function DumpLineFor(t: Tables, key: RowKey): DumpLine {
    DumpLine(LineFor(t, Exec, key).stats, LineFor(t, Exec, key).name, LineFor(t, File, key).name)
  }

  function DumpLinesFor(t: Tables, order: seq<RowKey>): seq<DumpLine> {
    if order == [] then []
    else DumpLinesFor(t, order[..|order| - 1]) + [DumpLineFor(t, order[|order| - 1])]
  }

  /** Names one row of the dump. */
  method DumpRow(db: Db, key: RowKey, row: Stats, ghost t: Tables) returns (line: DumpLine)
    requires db.Locking() && db.Mem() == t && NamesFit(t, Exec) && NamesFit(t, File)
    requires key in t.evnt && row == t.evnt[key]
    modifies db`lockDepth, db`flock, db`disk, db`dirty, db`gdbmErrno
    ensures db.Locking() && db.lockDepth == old(db.lockDepth)
    ensures line == DumpLineFor(t, key)
  {
    var rc, exe := db.LookUpPath(Exec, key.execId, MAXPATH);
    assert rc == 0;
    var rc', file := db.LookUpPath(File, key.fileId, MAXPATH);
    assert rc' == 0;
    line := DumpLine(row, exe, file);
  }

  /** All rows that the iterator has left behind. */
  function Past(evnt: map<RowKey, Stats>, pending: set<RowKey>, key: Option<RowKey>): set<RowKey> {
    evnt.Keys - pending - if key.Some? then {key.value} else {}
  }

  lemma PastNext(evnt: map<RowKey, Stats>, pending: set<RowKey>, key: RowKey,
                 pending': set<RowKey>, key': Option<RowKey>)
    requires key in evnt && key !in pending && pending <= evnt.Keys
    requires if key'.Some? then key'.value in pending && pending' == pending - {key'.value}
             else pending == {} && pending' == {}
    ensures Past(evnt, pending', key') == Past(evnt, pending, Some(key)) + {key}
    ensures key !in Past(evnt, pending, Some(key))
    ensures key'.Some? ==> |pending'| < |pending|
  {}

  lemma EnumeratesPast(evnt: map<RowKey, Stats>, order: seq<RowKey>, pending: set<RowKey>, key: RowKey,
                       pending': set<RowKey>, key': Option<RowKey>)
    requires key in evnt && key !in pending && pending <= evnt.Keys
    requires if key'.Some? then key'.value in pending && pending' == pending - {key'.value}
             else pending == {} && pending' == {}
    requires Enumerates(order, Past(evnt, pending, Some(key)))
    ensures Enumerates(order + [key], Past(evnt, pending', key'))
    ensures key'.Some? ==> |pending'| < |pending|
  {
    PastNext(evnt, pending, key, pending', key');
    EnumeratesMore(order, Past(evnt, pending, Some(key)), key);
  }

  ghost predicate Dumped(t: Tables, order: seq<RowKey>, lines: seq<DumpLine>, total: Stats) {
    lines == DumpLinesFor(t, order) && total == AddedUp(t.evnt, order)
  }

  /** Names one row of the dump and adds it to the report. */
  method DumpReport(db: Db, key: RowKey, row: Stats, sum: StatsTotal, lines0: seq<DumpLine>,
                    ghost t: Tables, ghost order: seq<RowKey>)
    returns (lines: seq<DumpLine>)
    requires db.Locking() && db.Mem() == t && NamesFit(t, Exec) && NamesFit(t, File)
    requires key in t.evnt && row == t.evnt[key]
    requires Dumped(t, order, lines0, sum.Value())
    modifies sum, db`lockDepth, db`flock, db`disk, db`dirty, db`gdbmErrno
    ensures db.Locking() && db.lockDepth == old(db.lockDepth)
    ensures Dumped(t, order + [key], lines, sum.Value())
  {
    var line := DumpRow(db, key, row, t);
    lines := lines0 + [line];
    sum.Add(row);
    assert (order + [key])[..|order|] == order;
  }

  /** The body of the dump loop, up to and including db_iterator_next. */
  method DumpVisit(db: Db, it: Iterator, sum: StatsTotal, lines0: seq<DumpLine>,
                   ghost t: Tables, ghost order0: seq<RowKey>)
    returns (rc: int, lines: seq<DumpLine>, ghost order: seq<RowKey>)
    requires Walks(it, t, 0) && it.dbc == db && NamesFit(t, Exec) && NamesFit(t, File)
    requires Enumerates(order0, Past(t.evnt, it.pending, it.key))
    requires Dumped(t, order0, lines0, sum.Value())
    modifies sum, it`key, it`pending, db`lockDepth, db`flock, db`disk, db`dirty, db`gdbmErrno
    ensures Walks(it, t, rc) && db.lockDepth == old(db.lockDepth)
    ensures rc == 0 ==> |it.pending| < old(|it.pending|)
    ensures Enumerates(order, Past(t.evnt, it.pending, it.key))
    ensures Dumped(t, order, lines, sum.Value())
  {
    var row: Stats := *;
    rc, row := it.Fetch(Works, row);
    assert rc == 0;
    var key := it.key.value;
    ghost var pending := it.pending;
    lines := DumpReport(db, key, row, sum, lines0, t, order0);
    order := order0 + [key];
    rc := it.Next();
    EnumeratesPast(t.evnt, order0, pending, key, it.pending, it.key);
  }

  lemma DumpedAll(t: Tables, order: seq<RowKey>, lines: seq<DumpLine>, total: Stats)
    requires Enumerates(order, Past(t.evnt, {}, None)) && Dumped(t, order, lines, total)
    ensures Enumerates(order, t.evnt.Keys) && IsTotal(t.evnt, t.evnt.Keys, total)
  {
    assert Past(t.evnt, {}, None) == t.evnt.Keys;
    AddedUpIsTotal(t.evnt, order, t.evnt.Keys);
  }

  /** The dump loop. */
  method CollectAll(db: Db, sum: StatsTotal, ghost t: Tables)
    returns (lines: seq<DumpLine>, ghost order: seq<RowKey>)
    requires db.Locking() && db.Mem() == t && NamesFit(t, Exec) && NamesFit(t, File) && sum.Value() == ZERO
    modifies sum, db`lockDepth, db`flock, db`disk, db`dirty, db`gdbmErrno
    ensures db.Locking() && db.lockDepth == old(db.lockDepth)
    ensures Enumerates(order, Past(t.evnt, {}, None)) && Dumped(t, order, lines, sum.Value())
  {
    lines, order := [], [];
    var it := new Iterator.First(db);
    assert Past(t.evnt, it.pending, it.key) == {};
    var rc := it.Code();
    while rc == 0
      invariant Walks(it, t, rc) && it.dbc == db && fresh(it) && db.lockDepth == old(db.lockDepth) + 1
      invariant Enumerates(order, Past(t.evnt, it.pending, it.key))
      invariant Dumped(t, order, lines, sum.Value())
      decreases |it.pending| + if rc == 0 then 1 else 0
    {
      rc, lines, order := DumpVisit(db, it, sum, lines, t, order);
    }
    it.Release();
  }

  /** search_dump_all: every row, with both names, once. */
  method DumpAll(db: Db, ghost t: Tables)
    returns (lines: seq<DumpLine>, total: Stats, count: nat, ghost order: seq<RowKey>)
    requires db.Locking() && db.Mem() == t && NamesFit(t, Exec) && NamesFit(t, File)
    modifies db`lockDepth, db`flock, db`disk, db`dirty, db`gdbmErrno
    ensures db.Locking() && db.lockDepth == old(db.lockDepth)
    ensures Enumerates(order, t.evnt.Keys) && lines == DumpLinesFor(t, order) && count == |lines|
    ensures IsTotal(t.evnt, t.evnt.Keys, total)
  {
    var sum := new StatsTotal();
    lines, order := CollectAll(db, sum, t);
    total, count := sum.Value(), |lines|;
    DumpedAll(t, order, lines, total);
  }
}
