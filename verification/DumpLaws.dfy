/** What the dump prints: one line for every pair of the history. */
module DumpLaws {
  import opened Accesses
  import opened Conservation
  import opened EndToEnd
  import opened Histories
  import opened IdArithmetic
  import opened Limits
  import opened QueryLaws
  import opened Records
  import opened Reporting
  import opened Search
  import opened Store
  import opened Totals
  import opened UsageTables
  import opened Wrappers

  /** The dump of a history: the row of every pair, under both its names, and nothing else. */
  ghost predicate DumpIs(ops: seq<Op>, lines: seq<DumpLine>) {
    && (forall i | 0 <= i < |lines| ::
          Occurs(ops, lines[i].exe, lines[i].file) && lines[i].stats == RowOf(ops, lines[i].exe, lines[i].file))
    && (forall i, j | 0 <= i < j < |lines| :: lines[i].exe != lines[j].exe || lines[i].file != lines[j].file)
    && (forall exe, file | Occurs(ops, exe, file) ::
          exists i :: 0 <= i < |lines| && lines[i].exe == exe && lines[i].file == file)
  }

  lemma {:induction false} DumpLinesAt(t: Tables, order: seq<RowKey>)
    ensures |DumpLinesFor(t, order)| == |order|
    ensures forall i | 0 <= i < |order| :: DumpLinesFor(t, order)[i] == DumpLineFor(t, order[i])
  {
    if order != [] {
      DumpLinesAt(t, order[..|order| - 1]);
    }
  }

  /** The key of the row that a pair of names stands for. */
  predicate KeyOfNames(t: Tables, exe: string, file: string, key: RowKey) {
    exe in t.exec.fwd && file in t.file.fwd && key == RowKey(t.exec.fwd[exe], t.file.fwd[file])
  }

  lemma DumpLineOf(t: Tables, ops: seq<Op>, key: RowKey)
    requires Valid(t) && Represents(t, ops) && key in t.evnt
    ensures var line := DumpLineFor(t, key);
            && KeyOfNames(t, line.exe, line.file, key)
            && Occurs(ops, line.exe, line.file) && line.stats == RowOf(ops, line.exe, line.file)
  {
    var exe, file := t.exec.rev[key.execId], t.file.rev[key.fileId];
    assert HasRow(t, exe, file, RowOf(ops, exe, file));
  }

  lemma LineOfPair(t: Tables, ops: seq<Op>, order: seq<RowKey>, lines: seq<DumpLine>, exe: string, file: string)
    requires Valid(t) && Represents(t, ops) && Occurs(ops, exe, file) && |lines| == |order|
    requires forall k | k in t.evnt :: k in order
    requires forall i | 0 <= i < |order| :: lines[i] == DumpLineFor(t, order[i])
    ensures exists i :: 0 <= i < |lines| && lines[i].exe == exe && lines[i].file == file
  {
    assert HasRow(t, exe, file, RowOf(ops, exe, file));
    var key := RowKey(t.exec.fwd[exe], t.file.fwd[file]);
    var i :| 0 <= i < |order| && order[i] == key;
    assert lines[i].exe == exe && lines[i].file == file;
  }

  /** The dump of tables that represent a history is the dump of that history. */
  lemma ReportDump(t: Tables, ops: seq<Op>, order: seq<RowKey>)
    requires Valid(t) && Represents(t, ops) && Enumerates(order, t.evnt.Keys)
    ensures DumpIs(ops, DumpLinesFor(t, order))
  {
    var lines := DumpLinesFor(t, order);
    EnumeratesAll(order, t.evnt.Keys);
    DumpLinesAt(t, order);
    forall i | 0 <= i < |order|
      ensures KeyOfNames(t, lines[i].exe, lines[i].file, order[i])
      ensures Occurs(ops, lines[i].exe, lines[i].file) && lines[i].stats == RowOf(ops, lines[i].exe, lines[i].file)
    {
      DumpLineOf(t, ops, order[i]);
    }
    forall exe, file | Occurs(ops, exe, file)
      ensures exists i :: 0 <= i < |lines| && lines[i].exe == exe && lines[i].file == file
    {
      LineOfPair(t, ops, order, lines, exe, file);
    }
  }

  function TimeOfLast(ops: seq<Op>): u64
    requires Updates(ops)
  {
    if ops == [] then 0 else ops[|ops| - 1].change.value.timestamp
  }

  /** With nondecreasing timestamps the time of the dump is that of the last update. */
  lemma DumpTime(t: Tables, ops: seq<Op>, time: u64)
    requires Valid(t) && Represents(t, ops) && Nondecreasing(ops) && Latest(t.evnt, t.evnt.Keys, time)
    ensures time == TimeOfLast(ops)
  {
    if time != 0 {
      var k :| k in t.evnt && t.evnt[k].time == time;
      DumpLineOf(t, ops, k);
      if ops != [] {
        LastTimeBound(ops, DumpLineFor(t, k).exe, DumpLineFor(t, k).file, ops[|ops| - 1].change.value.timestamp);
      }
    }
    if ops != [] {
      var last := ops[|ops| - 1];
      assert About(last, last.exe, last.file);
      assert HasRow(t, last.exe, last.file, RowOf(ops, last.exe, last.file));
    }
  }

  /** The dump after any run of calls, whatever failed in it but the row fetches. */
  lemma DumpHistory(calls: seq<Call>, order: seq<RowKey>, total: Stats, flag: Usage)
    requires 2 * |calls| < TWO_64 && flag != DELET
    requires forall i | 0 <= i < |calls| :: calls[i].answers(FetchRow).Works?
    requires var t := Replay(INITIAL, calls);
             Enumerates(order, t.evnt.Keys) && IsTotal(t.evnt, t.evnt.Keys, total)
    ensures var t, ops := Replay(INITIAL, calls), Successes(INITIAL, calls);
            && DumpIs(ops, DumpLinesFor(t, order)) && Agree(Counter(total, flag), CountOn(ops, Exec, None, flag))
            && (Nondecreasing(ops) ==> total.time == TimeOfLast(ops))
  {
    var t, ops := Replay(INITIAL, calls), Successes(INITIAL, calls);
    RunKeeps(INITIAL, calls);
    CallsRepresent(calls);
    ReportDump(t, ops, order);
    RunCounts(calls, Exec, None, flag);
    assert Selected(t, Exec, None) == t.evnt.Keys;
    TotalCounter(t.evnt, t.evnt.Keys, total, flag);
    if Nondecreasing(ops) {
      DumpTime(t, ops, total.time);
    }
  }

  /** The dump of a stream of events, if no table access fails. */
  ghost predicate DumpAnswers(evs: seq<Event>, lines: seq<DumpLine>, total: Stats)
    requires AllInDomain(evs)
  {
    && DumpIs(StreamOps(evs), lines)
    && (forall flag: Usage | flag != DELET :: Agree(Counter(total, flag), CountOn(StreamOps(evs), Exec, None, flag)))
    && (Nondecreasing(StreamOps(evs)) ==> total.time == TimeOfLast(StreamOps(evs)))
  }

  lemma EventsToDump(evs: seq<Event>, answers: nat -> Answers, order: seq<RowKey>, total: Stats)
    requires AllInDomain(evs) && StreamWorks(answers) && 2 * TotalRecords(evs) + 2 < TWO_64
    requires var t := Replay(INITIAL, StreamCalls(INITIAL, evs, true, answers));
             Enumerates(order, t.evnt.Keys) && IsTotal(t.evnt, t.evnt.Keys, total)
    ensures DumpAnswers(evs, DumpLinesFor(Replay(INITIAL, StreamCalls(INITIAL, evs, true, answers)), order), total)
  {
    var calls := StreamCalls(INITIAL, evs, true, answers);
    StreamChanges(evs, answers);
    RunDense(calls);
    DumpHistory(calls, order, total, READ);
    forall flag: Usage | flag != DELET
      ensures Agree(Counter(total, flag), CountOn(StreamOps(evs), Exec, None, flag))
    {
      DumpHistory(calls, order, total, flag);
    }
  }
}
