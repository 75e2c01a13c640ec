/** The daemon and a query in two processes: events in, files in between, lines out. */
module Pipeline {
  import opened Accesses
  import opened CallLaws
  import opened Conservation
  import opened Database
  import opened DumpLaws
  import opened EndToEnd
  import opened Histories
  import opened IdArithmetic
  import opened Limits
  import opened Persistence
  import opened QueryLaws
  import opened Records
  import opened Reporting
  import opened Search
  import opened Store
  import opened Totals
  import opened UsageTables
  import opened Wrappers

  // --------------------------------------------------- which paths are known

  predicate AllUpdate(calls: seq<Call>) {
    forall i | 0 <= i < |calls| :: calls[i].op.change.Some?
  }

  lemma UpdatesMore(calls: seq<Call>, call: Option<Call>)
    requires AllUpdate(calls) && (call.Some? ==> call.value.op.change.Some?)
    ensures AllUpdate(Extended(calls, call))
  {}

  lemma CallUpdates(ev: Event, i: nat, writable: bool, answers: Answers)
    requires InputInDomain(ev) && ev.timestamp.Some? && i < |ev.records|
    ensures CallAt(ev, i, writable, answers).Some? ==> CallAt(ev, i, writable, answers).value.op.change.Some?
  {}

  lemma {:induction false} CallsUpdate(ev: Event, n: nat, writable: bool, answers: Answers)
    requires InputInDomain(ev) && ev.timestamp.Some? && n <= |ev.records|
    ensures AllUpdate(CallsOf(ev, n, writable, answers))
  {
    if n > 0 {
      CallsUpdate(ev, n - 1, writable, answers);
      CallUpdates(ev, n - 1, writable, answers);
      UpdatesMore(CallsOf(ev, n - 1, writable, answers), CallAt(ev, n - 1, writable, answers));
    }
  }

  lemma {:induction false} StreamUpdates(t: Tables, evs: seq<Event>, writable: bool, answers: nat -> Answers)
    requires AllInDomain(evs)
    ensures AllUpdate(StreamCalls(t, evs, writable, answers))
  {
    if evs != [] {
      var n := |evs| - 1;
      StreamUpdates(t, evs[..n], writable, answers);
      var t1 := Replay(t, StreamCalls(t, evs[..n], writable, answers));
      if Considered(evs[n]) {
        CallsUpdate(evs[n], Stop(t1, evs[n], 0, writable, answers(n)), writable, answers(n));
      }
    }
  }

  predicate Mentions(ops: seq<Op>, side: Side, path: string) {
    exists i | 0 <= i < |ops| :: ops[i].Path(side) == path
  }

  lemma MentionsMore(ops: seq<Op>, op: Op, side: Side, path: string)
    ensures Mentions(ops + [op], side, path) <==> Mentions(ops, side, path) || op.Path(side) == path
  {
    var more := ops + [op];
    if Mentions(ops, side, path) {
      var i :| 0 <= i < |ops| && ops[i].Path(side) == path;
      assert more[i].Path(side) == path;
    }
    assert more[|ops|] == op;
  }

  /** A known path has come with some call, whatever failed. */
  lemma {:induction false} KnownIsMentioned(calls: seq<Call>, side: Side, path: string)
    requires AllUpdate(calls) && path in Replay(INITIAL, calls).On(side).fwd
    ensures Mentions(Changes(calls), side, path)
  {
    var n := |calls| - 1;
    FinishPaths(Replay(INITIAL, calls[..n]), START, calls[n]);
    MentionsMore(Changes(calls[..n]), calls[n].op, side, path);
    if path in Replay(INITIAL, calls[..n]).On(side).fwd {
      KnownIsMentioned(calls[..n], side, path);
    }
  }

  /** Without failures, a path has an id exactly if some record of the stream counts for it. */
  lemma PathKnownIff(evs: seq<Event>, answers: nat -> Answers, side: Side, path: string)
    requires AllInDomain(evs) && StreamWorks(answers) && 2 * TotalRecords(evs) + 2 < TWO_64
    ensures path in Replay(INITIAL, StreamCalls(INITIAL, evs, true, answers)).On(side).fwd
       <==> Mentions(StreamOps(evs), side, path)
  {
    var calls, ops := StreamCalls(INITIAL, evs, true, answers), StreamOps(evs);
    var t := Replay(INITIAL, calls);
    StreamUpdates(INITIAL, evs, true, answers);
    StreamChanges(evs, answers);
    EventsToRows(evs, answers);
    if path in t.On(side).fwd {
      KnownIsMentioned(calls, side, path);
    }
    if Mentions(ops, side, path) {
      var i :| 0 <= i < |ops| && ops[i].Path(side) == path;
      assert About(ops[i], ops[i].exe, ops[i].file);
      assert HasRow(t, ops[i].exe, ops[i].file, RowOf(ops, ops[i].exe, ops[i].file));
    }
  }

  // ------------------------------------------------------ what is in the files

  /** An update that nothing disturbs leaves a row. */
  lemma LastUpdateShows(calls: seq<Call>)
    requires calls != [] && AllUpdate(calls) && NoneFails(calls) && 2 * |calls| < TWO_64
    ensures Replay(INITIAL, calls).evnt != map[]
  {
    var n := |calls| - 1;
    var t := Replay(INITIAL, calls[..n]);
    RunStaysDense(calls[..n]);
    RunKeeps(INITIAL, calls[..n]);
    CallDense(t, calls[n]);
    UpdateRows(t, calls[n]);
    var t' := After(t, calls[n]);
    assert RowKey(t'.exec.fwd[calls[n].op.exe], t'.file.fwd[calls[n].op.file]) in t'.evnt;
  }

  /** A daemon that never misses an access has all its tables in its files after the last flush. */
  lemma FlushedFully(o: Standing, calls: seq<Call>, st: Standing)
    requires o.mem == o.disk == INITIAL && !o.dirty && o.writable
    requires AllUpdate(calls) && NoneFails(calls) && 2 * |calls| < TWO_64
    requires Follows(o, |calls|, st) && st.mem == Replay(INITIAL, calls)
    ensures st.dirty || st.disk == st.mem
  {
    if calls != [] {
      LastUpdateShows(calls);
    }
  }

  /** Names that fit the buffers in memory fit them in the files. */
  lemma FilesFit(files: Tables, mem: Tables, side: Side)
    requires LagsBehind(files, mem, false) && NamesFit(mem, side)
    ensures NamesFit(files, side)
  {}

  /** The daemon's work on a new database, before its last flush. */
  method Daemon(flags: set<OpenFlag>, evs: seq<Event>, answers: nat -> Answers) returns (db: Db)
    requires DB_WRITE in flags && AllInDomain(evs) && 2 * TotalRecords(evs) + 2 < TWO_64
    requires forall k | 0 <= k < |evs| :: ExesShort(evs[k].records)
    ensures fresh(db) && db.Consistent() && db.Mem() == Replay(INITIAL, StreamCalls(INITIAL, evs, true, answers))
    ensures StreamWorks(answers) ==> db.dirty || db.disk == db.Mem()
  {
    db := new Db.Create(flags);
    var g := new Global(db);
    ghost var o, calls := db.Standing(), StreamCalls(INITIAL, evs, true, answers);
    StreamShort(INITIAL, evs, true, answers);
    HandleEvents(g, evs, answers);
    if StreamWorks(answers) {
      StreamUpdates(INITIAL, evs, true, answers);
      StreamChanges(evs, answers);
      FlushedFully(o, calls, db.Standing());
    }
  }

  /**
   The life of the daemon on a new database, with a flush at its end.  Its files hold all
   rows of its tables, under their names, and lag behind otherwise; if no access fails
   they are the tables.
   */
  method RunDaemon(flags: set<OpenFlag>, evs: seq<Event>, answers: nat -> Answers) returns (files: Tables)
    requires DB_WRITE in flags && AllInDomain(evs) && 2 * TotalRecords(evs) + 2 < TWO_64
    requires forall k | 0 <= k < |evs| :: ExesShort(evs[k].records)
    ensures LagsBehind(files, Replay(INITIAL, StreamCalls(INITIAL, evs, true, answers)), false)
    ensures NamesFit(files, Exec) && NamesFit(files, File)
    ensures StreamWorks(answers) ==> files == Replay(INITIAL, StreamCalls(INITIAL, evs, true, answers))
  {
    var db := Daemon(flags, evs, answers);
    var _ := db.Flush();
    files := db.disk;
    StreamFits(files, evs, answers);
  }

  /** In files of the stream's rows, the names of all rows fit. */
  lemma StreamFits(files: Tables, evs: seq<Event>, answers: nat -> Answers)
    requires AllInDomain(evs) && 2 * TotalRecords(evs) < TWO_64
    requires forall k | 0 <= k < |evs| :: ExesShort(evs[k].records)
    requires LagsBehind(files, Replay(INITIAL, StreamCalls(INITIAL, evs, true, answers)), false)
    ensures NamesFit(files, Exec) && NamesFit(files, File)
  {
    var mem := Replay(INITIAL, StreamCalls(INITIAL, evs, true, answers));
    SearchesNeverAssert(evs, answers);
    FilesFit(files, mem, Exec);
    FilesFit(files, mem, File);
  }

  /** What the query prints about a path, as a function of the stream of events. */
  ghost predicate Answers(evs: seq<Event>, side: Side, path: string, lines: seq<Line>, total: Stats)
    requires AllInDomain(evs)
  {
    var ops := StreamOps(evs);
    && LinesAre(ops, side, path, lines)
    && (forall flag: Usage | flag != DELET :: Agree(Counter(total, flag), CountOn(ops, side, Some(path), flag)))
    && (Nondecreasing(ops) ==> total.time == LastTimeOn(ops, side, path))
  }

  lemma ReportAnswers(evs: seq<Event>, answers: nat -> Answers, side: Side, path: string,
                      lines: seq<Line>, total: Stats)
    requires AllInDomain(evs) && StreamWorks(answers) && 2 * TotalRecords(evs) + 2 < TWO_64
    requires var t := Replay(INITIAL, StreamCalls(INITIAL, evs, true, answers));
             path in t.On(side).fwd
             && Reports(t, Other(side), Matching(t.evnt, side, t.On(side).fwd[path]), lines, total)
    ensures Answers(evs, side, path, lines, total)
  {
    EventsToReport(evs, answers, side, path, lines, total, READ);
    forall flag: Usage | flag != DELET
      ensures Agree(Counter(total, flag), CountOn(StreamOps(evs), side, Some(path), flag))
    {
      EventsToReport(evs, answers, side, path, lines, total, flag);
    }
  }

  /**
   From events to lines, through the files: the daemon stores a stream of events and
   flushes, another process opens its files and asks about a path.  If no table access
   fails, the whole answer is a function of the events.
   */
  method DaemonThenQuery(flags: set<OpenFlag>, evs: seq<Event>, answers: nat -> Answers,
                         side: Side, argument: string, resolved: Option<string>)
    returns (rc: int, lines: seq<Line>, total: Stats, count: nat)
    requires DB_WRITE in flags && AllInDomain(evs) && 2 * TotalRecords(evs) + 2 < TWO_64
    requires forall k | 0 <= k < |evs| :: ExesShort(evs[k].records)
    requires StreamWorks(answers)
    ensures count == |lines|
    ensures var path := if resolved.Some? then resolved.value else argument;
            if Mentions(StreamOps(evs), side, path) then
              rc == -1 && Answers(evs, side, path, lines, total)
            else
              rc == (if resolved.Some? then 0 else ERR_USAGE) && lines == [] && total == ZERO
  {
    var files := RunDaemon(flags, evs, answers);
    var reader := new Db.Attach({DB_READ}, files);
    rc, lines, total, count := SearchSingle(reader, side, argument, resolved, files);
    ghost var path := if resolved.Some? then resolved.value else argument;
    PathKnownIff(evs, answers, side, path);
    if path in files.On(side).fwd {
      ReportAnswers(evs, answers, side, path, lines, total);
    }
  }

  /** The same for the dump. */
  method DaemonThenDump(flags: set<OpenFlag>, evs: seq<Event>, answers: nat -> Answers)
    returns (lines: seq<DumpLine>, total: Stats, count: nat)
    requires DB_WRITE in flags && AllInDomain(evs) && 2 * TotalRecords(evs) + 2 < TWO_64
    requires forall k | 0 <= k < |evs| :: ExesShort(evs[k].records)
    requires StreamWorks(answers)
    ensures DumpAnswers(evs, lines, total) && count == |lines|
  {
    var files := RunDaemon(flags, evs, answers);
    var reader := new Db.Attach({DB_READ}, files);
    ghost var order;
    lines, total, count, order := DumpAll(reader, files);
    EventsToDump(evs, answers, order, total);
  }
}
