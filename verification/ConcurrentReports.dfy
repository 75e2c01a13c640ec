/** What a query prints while other processes write. */
module ConcurrentReports {
  import opened Accesses
  import opened Conservation
  import opened DumpLaws
  import opened HandleLaws
  import opened Histories
  import opened Limits
  import opened QueryLaws
  import opened Reporting
  import opened Totals
  import opened UsageTables
  import opened Wrappers
  import H = Handles
  import S = Search

  /** The rows of the lines, in the order in which they were reported. */
  function Order(lines: seq<H.Line>): (order: seq<RowKey>)
    ensures |order| == |lines|
  {
    if lines == [] then [] else Order(lines[..|lines| - 1]) + [lines[|lines| - 1].key]
  }

  /** The lines as the search prints them: counters, and the name on one side. */
  function Printed(lines: seq<H.Line>, side: Side): (printed: seq<S.Line>)
    ensures |printed| == |lines|
  {
    if lines == [] then []
    else
      var last := lines[|lines| - 1];
      Printed(lines[..|lines| - 1], side) + [S.Line(last.stats, last.NameOn(side))]
  }

  lemma PrefixOf(t: Tables, query: H.Query, lines: seq<H.Line>)
    requires lines != [] && H.LinesOf(t, query, lines)
    ensures var rest, last := lines[..|lines| - 1], lines[|lines| - 1];
            && H.LinesOf(t, query, rest) && H.LineOf(t, query, last)
            && H.KeysOf(lines) == H.KeysOf(rest) + {last.key} && last.key !in H.KeysOf(rest)
  {
    var rest, last := lines[..|lines| - 1], lines[|lines| - 1];
    assert lines == rest + [last];
    KeysOfSnoc(rest, last);
  }

  /** Lines that are each about a row of their own enumerate these rows. */
  lemma {:induction false} OrderEnumerates(t: Tables, query: H.Query, lines: seq<H.Line>)
    requires H.LinesOf(t, query, lines)
    ensures Enumerates(Order(lines), H.KeysOf(lines))
  {
    if lines == [] {
      assert H.KeysOf(lines) == {};
    } else {
      var rest, last := lines[..|lines| - 1], lines[|lines| - 1];
      PrefixOf(t, query, lines);
      OrderEnumerates(t, query, rest);
      EnumeratesMore(Order(rest), H.KeysOf(rest), last.key);
    }
  }

  /** And they read as the search would have printed them. */
  lemma {:induction false} PrintedLines(t: Tables, query: H.Query, lines: seq<H.Line>, side: Side)
    requires H.LinesOf(t, query, lines) && query.Prints(side)
    ensures Printed(lines, side) == S.LinesFor(t, side, Order(lines))
  {
    if lines != [] {
      PrefixOf(t, query, lines);
      PrintedLines(t, query, lines[..|lines| - 1], side);
    }
  }

  lemma LinesReport(t: Tables, query: H.Query, lines: seq<H.Line>, side: Side)
    requires Valid(t) && H.LinesOf(t, query, lines) && query.Prints(side)
    requires H.KeysOf(lines) == H.Chosen(t.evnt, query)
    ensures S.Reports(t, side, H.Chosen(t.evnt, query), Printed(lines, side), AddedUp(t.evnt, Order(lines)))
  {
    var keys := H.Chosen(t.evnt, query);
    OrderEnumerates(t, query, lines);
    PrintedLines(t, query, lines, side);
    assert keys <= t.evnt.Keys;
    AddedUpIsTotal(t.evnt, Order(lines), keys);
  }

  /** Handle i has finished the loop of a query about a path; only the lock is still to be given back. */
  predicate Finished(s: H.System, i: nat, name: H.Name) {
    && i < |s.handles| && s.handles[i].task.Scanning? && s.handles[i].task.scan.key.None?
    && s.handles[i].task.scan.query.Of? && s.handles[i].task.scan.query.name == name
  }

  /**
   A query among other processes: whatever they do, from the lookup of the id to the last
   line, it reports what the sequential search reports about the state that the calls
   returned so far have led to.
   */
  lemma RunReports(s0: H.System, actions: seq<H.Action>, i: nat, name: H.Name)
    requires H.Opened(s0) && s0.t.Bound() + |actions| < TWO_64
    requires H.Run(s0, actions).Some? && Finished(H.Run(s0, actions).value, i, name)
    ensures var s := H.Run(s0, actions).value;
            var lines := s.handles[i].task.scan.lines;
            && Valid(s.t) && s.t == Replay(s0.t, s.log) && name.path in s.t.On(name.side).fwd
            && S.Reports(s.t, Other(name.side), Matching(s.t.evnt, name.side, s.t.On(name.side).fwd[name.path]),
                         Printed(lines, Other(name.side)), AddedUp(s.t.evnt, Order(lines)))
  {
    RunSafe(s0, actions);
    RunSnapshot(s0, actions, i);
    var s := H.Run(s0, actions).value;
    var scan := s.handles[i].task.scan;
    LinesReport(s.t, scan.query, scan.lines, Other(name.side));
  }

  /**
   So it is a function of the updates that have returned 0: one line for every pair of the
   path among them, with its counts and its latest time, and a summary that counts them all.
   */
  lemma RunTellsHistory(s0: H.System, actions: seq<H.Action>, i: nat, name: H.Name, flag: Usage)
    requires H.Opened(s0) && s0.t == INITIAL && 2 * |actions| < TWO_64 && flag != DELET
    requires H.Run(s0, actions).Some? && Finished(H.Run(s0, actions).value, i, name)
    requires var log := H.Run(s0, actions).value.log;
             forall k | 0 <= k < |log| :: log[k].answers(FetchRow).Works?
    ensures var s := H.Run(s0, actions).value;
            var lines, ops := s.handles[i].task.scan.lines, Successes(INITIAL, s.log);
            var total := AddedUp(s.t.evnt, Order(lines));
            && LinesAre(ops, name.side, name.path, Printed(lines, Other(name.side)))
            && Agree(Counter(total, flag), CountOn(ops, name.side, Some(name.path), flag))
            && (Nondecreasing(ops) ==> total.time == LastTimeOn(ops, name.side, name.path))
  {
    var s := H.Run(s0, actions).value;
    var lines, ops := s.handles[i].task.scan.lines, Successes(INITIAL, s.log);
    RunReports(s0, actions, i, name);
    LogLength(s0, actions);
    ReportHistory(s.log, name.side, name.path, Printed(lines, Other(name.side)), AddedUp(s.t.evnt, Order(lines)), flag);
  }

  /** Handle i has finished the loop of the dump. */
  predicate FinishedDump(s: H.System, i: nat) {
    && i < |s.handles| && s.handles[i].task.Scanning? && s.handles[i].task.scan.key.None?
    && s.handles[i].task.scan.query.All?
  }

  /** The lines as the dump prints them. */
  function PrintedDump(lines: seq<H.Line>): (printed: seq<S.DumpLine>)
    ensures |printed| == |lines|
  {
    if lines == [] then []
    else
      var last := lines[|lines| - 1];
      PrintedDump(lines[..|lines| - 1]) + [S.DumpLine(last.stats, last.exe, last.file)]
  }

  lemma {:induction false} PrintedDumpLines(t: Tables, lines: seq<H.Line>)
    requires H.LinesOf(t, H.All, lines)
    ensures PrintedDump(lines) == S.DumpLinesFor(t, Order(lines))
  {
    if lines != [] {
      PrefixOf(t, H.All, lines);
      PrintedDumpLines(t, lines[..|lines| - 1]);
    }
  }

  /** A dump among other processes tells the updates that have returned 0. */
  lemma RunDumps(s0: H.System, actions: seq<H.Action>, i: nat, flag: Usage)
    requires H.Opened(s0) && s0.t == INITIAL && 2 * |actions| < TWO_64 && flag != DELET
    requires H.Run(s0, actions).Some? && FinishedDump(H.Run(s0, actions).value, i)
    requires var log := H.Run(s0, actions).value.log;
             forall k | 0 <= k < |log| :: log[k].answers(FetchRow).Works?
    ensures var s := H.Run(s0, actions).value;
            var lines, ops := s.handles[i].task.scan.lines, Successes(INITIAL, s.log);
            var total := AddedUp(s.t.evnt, Order(lines));
            && DumpIs(ops, PrintedDump(lines))
            && Agree(Counter(total, flag), CountOn(ops, Exec, None, flag))
            && (Nondecreasing(ops) ==> total.time == TimeOfLast(ops))
  {
    RunSnapshot(s0, actions, i);
    LogLength(s0, actions);
    var s := H.Run(s0, actions).value;
    var lines := s.handles[i].task.scan.lines;
    OrderEnumerates(s.t, H.All, lines);
    PrintedDumpLines(s.t, lines);
    AddedUpIsTotal(s.t.evnt, Order(lines), s.t.evnt.Keys);
    DumpHistory(s.log, Order(lines), AddedUp(s.t.evnt, Order(lines)), flag);
  }

  lemma {:induction false} LogLength(s0: H.System, actions: seq<H.Action>)
    requires H.Run(s0, actions).Some? && s0.log == []
    ensures |H.Run(s0, actions).value.log| <= |actions|
  {
    if actions != [] {
      var n := |actions| - 1;
      LogLength(s0, actions[..n]);
      DoLog(H.Run(s0, actions[..n]).value, actions[n]);
    }
  }
}
