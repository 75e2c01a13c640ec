/** What a query prints about the events the daemon has seen. */
module Reporting {
  import opened Accesses
  import opened Canonicity
  import opened Conservation
  import opened EndToEnd
  import opened Histories
  import opened IdArithmetic
  import opened Limits
  import opened QueryLaws
  import opened Records
  import opened Search
  import opened Store
  import opened Totals
  import opened UsageTables
  import opened Wrappers

  // ------------------------------------------- the asserts of the search loops

  predicate ExesShort(records: seq<Record>) {
    forall i | 0 <= i < |records| && records[i].kind.SYSCALL? ::
      var exe := LastShown(records[i].fields, "exe");
      exe.Some? ==> |exe.value| < PATH_MAX
  }

  predicate AllShort(calls: seq<Call>) {
    forall i | 0 <= i < |calls| :: ShortPaths(calls[i].op)
  }

  lemma {:induction false} ExeBeforeShort(records: seq<Record>, n: nat)
    requires ExesShort(records) && n <= |records|
    ensures ExeBefore(records, n).Some? ==> |ExeBefore(records, n).value| < PATH_MAX
  {
    if n > 0 {
      ExeBeforeShort(records, n - 1);
    }
  }

  lemma UpdateShort(ev: Event, i: nat)
    requires InputInDomain(ev) && ev.timestamp.Some? && i < |ev.records| && ExesShort(ev.records)
    ensures UpdateAt(ev, i).Some? ==> ShortPaths(UpdateAt(ev, i).value)
  {
    if UpdateAt(ev, i).Some? {
      ExeBeforeShort(ev.records, i);
      PathInDomain(ev, i);
      AbsoluteResult(CwdBefore(ev.records, i).value, LastShown(ev.records[i].fields, "name").value);
    }
  }

  predicate ShortCall(call: Option<Call>) {
    call.Some? ==> ShortPaths(call.value.op)
  }

  lemma CallShort(ev: Event, i: nat, writable: bool, answers: Answers)
    requires InputInDomain(ev) && ev.timestamp.Some? && i < |ev.records| && ExesShort(ev.records)
    ensures ShortCall(CallAt(ev, i, writable, answers))
  {
    UpdateShort(ev, i);
  }

  lemma ShortMore(calls: seq<Call>, call: Option<Call>)
    requires AllShort(calls) && ShortCall(call)
    ensures AllShort(Extended(calls, call)) && |Extended(calls, call)| <= |calls| + 1
  {}

  lemma {:induction false} CallsShort(ev: Event, n: nat, writable: bool, answers: Answers)
    requires InputInDomain(ev) && ev.timestamp.Some? && n <= |ev.records| && ExesShort(ev.records)
    ensures AllShort(CallsOf(ev, n, writable, answers)) && |CallsOf(ev, n, writable, answers)| <= n
  {
    if n > 0 {
      CallsShort(ev, n - 1, writable, answers);
      CallShort(ev, n - 1, writable, answers);
      ShortMore(CallsOf(ev, n - 1, writable, answers), CallAt(ev, n - 1, writable, answers));
    }
  }

  lemma {:induction false} StreamShort(t: Tables, evs: seq<Event>, writable: bool, answers: nat -> Answers)
    requires AllInDomain(evs) && forall k | 0 <= k < |evs| :: ExesShort(evs[k].records)
    ensures AllShort(StreamCalls(t, evs, writable, answers))
    ensures |StreamCalls(t, evs, writable, answers)| <= TotalRecords(evs)
  {
    if evs != [] {
      var n := |evs| - 1;
      StreamShort(t, evs[..n], writable, answers);
      var t1 := Replay(t, StreamCalls(t, evs[..n], writable, answers));
      if Considered(evs[n]) {
        CallsShort(evs[n], Stop(t1, evs[n], 0, writable, answers(n)), writable, answers(n));
      }
    }
  }

  /**
   In every state that store_event can reach, whatever table accesses fail, the search
   loops can run: all ids of all rows resolve, to names that fit their buffers.
   */
  lemma SearchesNeverAssert(evs: seq<Event>, answers: nat -> Answers)
    requires AllInDomain(evs) && 2 * TotalRecords(evs) < TWO_64
    requires forall k | 0 <= k < |evs| :: ExesShort(evs[k].records)
    ensures var t := Replay(INITIAL, StreamCalls(INITIAL, evs, true, answers));
            Valid(t) && NamesFit(t, Exec) && NamesFit(t, File)
  {
    StreamShort(INITIAL, evs, true, answers);
    RunNamesFit(StreamCalls(INITIAL, evs, true, answers));
  }

  // ------------------------------------------------------- lines and summaries

  /** The row of a pair, seen from one side. */
  function PairRow(ops: seq<Op>, side: Side, path: string, name: string): Stats {
    if side.Exec? then RowOf(ops, path, name) else RowOf(ops, name, path)
  }

  predicate PairOccurs(ops: seq<Op>, side: Side, path: string, name: string) {
    if side.Exec? then Occurs(ops, path, name) else Occurs(ops, name, path)
  }

  lemma LineOfKey(t: Tables, ops: seq<Op>, side: Side, path: string, key: RowKey)
    requires Valid(t) && Represents(t, ops) && path in t.On(side).fwd
    requires key in Matching(t.evnt, side, t.On(side).fwd[path])
    ensures var line := LineFor(t, Other(side), key);
            && PairOccurs(ops, side, path, line.name) && line.stats == PairRow(ops, side, path, line.name)
            && line.name in t.On(Other(side)).fwd
            && IdOn(key, Other(side)) == t.On(Other(side)).fwd[line.name]
  {
    RowTime(t, ops, side, path, key);
    var exe, file := t.exec.rev[key.execId], t.file.rev[key.fileId];
    assert HasRow(t, exe, file, RowOf(ops, exe, file));
  }

  lemma KeyOfPair(t: Tables, ops: seq<Op>, side: Side, path: string, name: string)
    requires Valid(t) && Represents(t, ops) && PairOccurs(ops, side, path, name)
    ensures path in t.On(side).fwd
    ensures exists key ::
      key in Matching(t.evnt, side, t.On(side).fwd[path]) && LineFor(t, Other(side), key).name == name
  {
    var exe := if side.Exec? then path else name;
    var file := if side.Exec? then name else path;
    assert HasRow(t, exe, file, RowOf(ops, exe, file));
    var key := RowKey(t.exec.fwd[exe], t.file.fwd[file]);
    assert key in Matching(t.evnt, side, t.On(side).fwd[path]);
    assert LineFor(t, Other(side), key).name == name;
  }

  ghost predicate LinesAre(ops: seq<Op>, side: Side, path: string, lines: seq<Line>) {
    && (forall i | 0 <= i < |lines| ::
          PairOccurs(ops, side, path, lines[i].name)
          && lines[i].stats == PairRow(ops, side, path, lines[i].name))
    && (forall i, j | 0 <= i < j < |lines| :: lines[i].name != lines[j].name)
    && (forall name | PairOccurs(ops, side, path, name) :: exists i :: 0 <= i < |lines| && lines[i].name == name)
  }

  /** Two rows of one path have different names on the other side. */
  lemma NamesDiffer(t: Tables, ops: seq<Op>, side: Side, path: string, k1: RowKey, k2: RowKey)
    requires Valid(t) && Represents(t, ops) && path in t.On(side).fwd && k1 != k2
    requires k1 in Matching(t.evnt, side, t.On(side).fwd[path]) && k2 in Matching(t.evnt, side, t.On(side).fwd[path])
    ensures LineFor(t, Other(side), k1).name != LineFor(t, Other(side), k2).name
  {
    LineOfKey(t, ops, side, path, k1);
    LineOfKey(t, ops, side, path, k2);
  }

  /** A report has exactly one line for every pair of the path in the history, with the counts of that pair. */
  lemma ReportLines(t: Tables, ops: seq<Op>, side: Side, path: string, lines: seq<Line>, total: Stats)
    requires Valid(t) && Represents(t, ops) && path in t.On(side).fwd
    requires Reports(t, Other(side), Matching(t.evnt, side, t.On(side).fwd[path]), lines, total)
    ensures LinesAre(ops, side, path, lines)
  {
    var keys := Matching(t.evnt, side, t.On(side).fwd[path]);
    var order: seq<RowKey> :| Enumerates(order, keys) && lines == LinesFor(t, Other(side), order);
    EnumeratesAll(order, keys);
    LinesForAt(t, Other(side), order);
    forall i | 0 <= i < |order|
      ensures PairOccurs(ops, side, path, lines[i].name)
      ensures lines[i].stats == PairRow(ops, side, path, lines[i].name)
    {
      LineOfKey(t, ops, side, path, order[i]);
    }
    forall i, j | 0 <= i < j < |order|
      ensures lines[i].name != lines[j].name
    {
      NamesDiffer(t, ops, side, path, order[i], order[j]);
    }
    LineForEach(t, ops, side, path, lines, order);
  }

  lemma LineForEach(t: Tables, ops: seq<Op>, side: Side, path: string, lines: seq<Line>, order: seq<RowKey>)
    requires Valid(t) && Represents(t, ops) && path in t.On(side).fwd && |lines| == |order|
    requires forall k | k in Matching(t.evnt, side, t.On(side).fwd[path]) :: k in order
    requires forall i | 0 <= i < |order| :: lines[i] == LineFor(t, Other(side), order[i])
    ensures forall name | PairOccurs(ops, side, path, name) :: exists i :: 0 <= i < |lines| && lines[i].name == name
  {
    forall name | PairOccurs(ops, side, path, name)
      ensures exists i :: 0 <= i < |lines| && lines[i].name == name
    {
      KeyOfPair(t, ops, side, path, name);
      var key :| key in Matching(t.evnt, side, t.On(side).fwd[path]) && LineFor(t, Other(side), key).name == name;
      var i :| 0 <= i < |order| && order[i] == key;
      assert lines[i].name == name;
    }
  }

  /**
   A report about the tables after any run of calls, whatever failed in it but the row
   fetches: a line for every pair of the path among the updates that returned 0, and a
   summary of all these updates.
   */
  lemma ReportHistory(calls: seq<Call>, side: Side, path: string, lines: seq<Line>, total: Stats, flag: Usage)
    requires 2 * |calls| < TWO_64 && flag != DELET
    requires forall i | 0 <= i < |calls| :: calls[i].answers(FetchRow).Works?
    requires var t := Replay(INITIAL, calls);
             path in t.On(side).fwd
             && Reports(t, Other(side), Matching(t.evnt, side, t.On(side).fwd[path]), lines, total)
    ensures var ops := Successes(INITIAL, calls);
            && LinesAre(ops, side, path, lines)
            && Agree(Counter(total, flag), CountOn(ops, side, Some(path), flag))
            && (Nondecreasing(ops) ==> total.time == LastTimeOn(ops, side, path))
  {
    var t, ops := Replay(INITIAL, calls), Successes(INITIAL, calls);
    RunKeeps(INITIAL, calls);
    CallsRepresent(calls);
    ReportLines(t, ops, side, path, lines, total);
    RunCounts(calls, side, Some(path), flag);
    SelectedIsMatching(t, side, path);
    TotalCounter(t.evnt, Matching(t.evnt, side, t.On(side).fwd[path]), total, flag);
    if Nondecreasing(ops) {
      SummaryTime(t, ops, side, path, total.time);
    }
  }

  lemma CallsRepresent(calls: seq<Call>)
    requires 2 * |calls| < TWO_64
    requires forall i | 0 <= i < |calls| :: calls[i].answers(FetchRow).Works?
    ensures Represents(Replay(INITIAL, calls), Successes(INITIAL, calls))
  {
    assert Represents(INITIAL, []);
    RunRepresents(INITIAL, [], calls);
    assert [] + Successes(INITIAL, calls) == Successes(INITIAL, calls);
  }

  /**
   End to end: if no table access fails, a query about a path prints one line for every
   pair that the events of the stream contain, with its record counts, and a summary whose
   counters are the numbers of all updates of that path.
   */
  lemma EventsToReport(evs: seq<Event>, answers: nat -> Answers, side: Side, path: string,
                       lines: seq<Line>, total: Stats, flag: Usage)
    requires AllInDomain(evs) && StreamWorks(answers) && 2 * TotalRecords(evs) + 2 < TWO_64 && flag != DELET
    requires var t := Replay(INITIAL, StreamCalls(INITIAL, evs, true, answers));
             path in t.On(side).fwd
             && Reports(t, Other(side), Matching(t.evnt, side, t.On(side).fwd[path]), lines, total)
    ensures LinesAre(StreamOps(evs), side, path, lines)
    ensures Agree(Counter(total, flag), CountOn(StreamOps(evs), side, Some(path), flag))
    ensures Nondecreasing(StreamOps(evs)) ==> total.time == LastTimeOn(StreamOps(evs), side, path)
  {
    var calls := StreamCalls(INITIAL, evs, true, answers);
    StreamChanges(evs, answers);
    RunDense(calls);
    ReportHistory(calls, side, path, lines, total, flag);
  }

  lemma TotalCounter(evnt: map<RowKey, Stats>, keys: set<RowKey>, total: Stats, flag: Usage)
    requires keys <= evnt.Keys && IsTotal(evnt, keys, total)
    ensures Agree(Counter(total, flag), Sum(evnt, keys, flag))
  {
    assert Counter(total, flag) == Sum(evnt, keys, flag) % TWO_64;
  }
}
