/** From the records of a stream of audit events to the lines that a query prints. */
module EndToEnd {
  import opened Accesses
  import opened Histories
  import opened IdArithmetic
  import opened Limits
  import opened Records
  import opened Store
  import opened UsageTables

  // ------------------------------------------ the updates of a stream, plainly

  /** The loop gets as far as record i if no record before it ends it. */
  predicate Reached(records: seq<Record>, i: nat)
    requires i <= |records|
  {
    forall j | 0 <= j < i :: Fine(records, j)
  }

  /** The updates of the first n records. */
  function OpsOf(ev: Event, n: nat): seq<Op>
    requires InputInDomain(ev) && Considered(ev) && n <= |ev.records|
  {
    if n == 0 then []
    else if Reached(ev.records, n - 1) && UpdateAt(ev, n - 1).Some? then OpsOf(ev, n - 1) + [UpdateAt(ev, n - 1).value]
    else OpsOf(ev, n - 1)
  }

  function EventOps(ev: Event): seq<Op>
    requires InputInDomain(ev)
  {
    if Considered(ev) then OpsOf(ev, |ev.records|) else []
  }

  function StreamOps(evs: seq<Event>): seq<Op>
    requires AllInDomain(evs)
  {
    if evs == [] then [] else StreamOps(evs[..|evs| - 1]) + EventOps(evs[|evs| - 1])
  }

  /** Record i of the event counts for a pair and a flag. */
  predicate Counts(ev: Event, i: nat, exe: string, file: string, flag: Usage)
    requires InputInDomain(ev) && i < |ev.records|
  {
    Considered(ev) && Reached(ev.records, i)
    && var op := UpdateAt(ev, i);
       op.Some? && About(op.value, exe, file) && flag in op.value.change.value.flags
  }

  /** How many of the first n records count for a pair and a flag. */
  function Counting(ev: Event, n: nat, exe: string, file: string, flag: Usage): nat
    requires InputInDomain(ev) && n <= |ev.records|
  {
    if n == 0 then 0
    else Counting(ev, n - 1, exe, file, flag) + if Counts(ev, n - 1, exe, file, flag) then 1 else 0
  }

  /** How many PATH records of a stream count for a pair and a flag. */
  function RecordCount(evs: seq<Event>, exe: string, file: string, flag: Usage): nat
    requires AllInDomain(evs)
  {
    if evs == [] then 0
    else
      var ev := evs[|evs| - 1];
      RecordCount(evs[..|evs| - 1], exe, file, flag) + Counting(ev, |ev.records|, exe, file, flag)
  }

  lemma {:induction false} CountConcat(a: seq<Op>, b: seq<Op>, exe: string, file: string, flag: Usage)
    ensures Count(a + b, exe, file, flag) == Count(a, exe, file, flag) + Count(b, exe, file, flag)
  {
    if b == [] {
      assert a + b == a;
    } else {
      CountConcat(a, b[..|b| - 1], exe, file, flag);
      assert (a + b)[..|a + b| - 1] == a + b[..|b| - 1];
    }
  }

  lemma CountSnoc(ops: seq<Op>, op: Op, exe: string, file: string, flag: Usage)
    requires op.change.Some?
    ensures Count(ops + [op], exe, file, flag) ==
      Count(ops, exe, file, flag) + if About(op, exe, file) && flag in op.change.value.flags then 1 else 0
  {
    assert (ops + [op])[..|ops|] == ops;
  }

  lemma {:induction false} CountOps(ev: Event, n: nat, exe: string, file: string, flag: Usage)
    requires InputInDomain(ev) && Considered(ev) && n <= |ev.records|
    ensures Count(OpsOf(ev, n), exe, file, flag) == Counting(ev, n, exe, file, flag)
  {
    if n > 0 {
      CountOps(ev, n - 1, exe, file, flag);
      if UpdateAt(ev, n - 1).Some? {
        CountSnoc(OpsOf(ev, n - 1), UpdateAt(ev, n - 1).value, exe, file, flag);
      }
    }
  }

  lemma {:induction false} NotConsidered(ev: Event, n: nat, exe: string, file: string, flag: Usage)
    requires InputInDomain(ev) && !Considered(ev) && n <= |ev.records|
    ensures Counting(ev, n, exe, file, flag) == 0
  {
    if n > 0 {
      NotConsidered(ev, n - 1, exe, file, flag);
    }
  }

  /** The counts of the updates are counts of records. */
  lemma {:induction false} StreamCounts(evs: seq<Event>, exe: string, file: string, flag: Usage)
    requires AllInDomain(evs)
    ensures Count(StreamOps(evs), exe, file, flag) == RecordCount(evs, exe, file, flag)
  {
    if evs != [] {
      var ev := evs[|evs| - 1];
      StreamCounts(evs[..|evs| - 1], exe, file, flag);
      CountConcat(StreamOps(evs[..|evs| - 1]), EventOps(ev), exe, file, flag);
      if Considered(ev) {
        CountOps(ev, |ev.records|, exe, file, flag);
      } else {
        NotConsidered(ev, |ev.records|, exe, file, flag);
      }
    }
  }

  // ------------------------------------------------- when no table access fails

  ghost predicate AllWork(answers: Answers) {
    forall i: nat, site: Site :: answers(i)(site).Works?
  }

  lemma {:induction false} CallsNeverFail(ev: Event, n: nat, answers: Answers)
    requires InputInDomain(ev) && ev.timestamp.Some? && n <= |ev.records| && AllWork(answers)
    ensures NoneFails(CallsOf(ev, n, true, answers)) && |CallsOf(ev, n, true, answers)| <= n
  {
    if n > 0 {
      CallsNeverFail(ev, n - 1, answers);
    }
  }

  lemma NextSucceeds(calls: seq<Call>, call: Call)
    requires NoneFails(calls) && NeverFails(call) && 2 * |calls| + 2 < TWO_64
    ensures ReturnCode(Replay(INITIAL, calls), call) == 0
  {
    RunStaysDense(calls);
    RunKeeps(INITIAL, calls);
    CallDense(Replay(INITIAL, calls), call);
  }

  /** The stream so far, and room for the updates of one more event. */
  ghost predicate Before(calls: seq<Call>, ev: Event, answers: Answers) {
    && InputInDomain(ev) && Considered(ev) && AllWork(answers)
    && NoneFails(calls) && 2 * (|calls| + |ev.records|) + 2 < TWO_64
  }

  lemma GoesOnIffFine(calls: seq<Call>, ev: Event, i: nat, answers: Answers)
    requires Before(calls, ev, answers) && i < |ev.records|
    ensures GoesOn(Replay(INITIAL, calls), ev, i, true, answers) <==> Fine(ev.records, i)
  {
    if ev.records[i].kind.PATH? && CallAt(ev, i, true, answers).Some? {
      var more := CallsOf(ev, i, true, answers);
      CallsNeverFail(ev, i, answers);
      ReplayConcat(INITIAL, calls, more);
      NextSucceeds(calls + more, CallAt(ev, i, true, answers).value);
    }
  }

  /** The loop processes exactly the records it reaches. */
  lemma {:induction false} StopIsReach(calls: seq<Call>, ev: Event, i: nat, answers: Answers)
    requires Before(calls, ev, answers) && i < |ev.records| && Reached(ev.records, i)
    ensures var n := Stop(Replay(INITIAL, calls), ev, i, true, answers);
            && Reached(ev.records, n - 1)
            && (n == |ev.records| || !Fine(ev.records, n - 1))
    decreases |ev.records| - i
  {
    GoesOnIffFine(calls, ev, i, answers);
    if i + 1 < |ev.records| && Fine(ev.records, i) {
      StopIsReach(calls, ev, i + 1, answers);
    }
  }

  lemma {:induction false} ChangesOfCalls(ev: Event, n: nat, answers: Answers)
    requires InputInDomain(ev) && Considered(ev) && 0 < n <= |ev.records| && Reached(ev.records, n - 1)
    ensures Changes(CallsOf(ev, n, true, answers)) == OpsOf(ev, n)
  {
    if n > 1 {
      ChangesOfCalls(ev, n - 1, answers);
    }
    if UpdateAt(ev, n - 1).Some? {
      ChangesSnoc(CallsOf(ev, n - 1, true, answers), CallAt(ev, n - 1, true, answers).value);
    }
  }

  lemma ChangesSnoc(calls: seq<Call>, call: Call)
    requires call.op.change.Some?
    ensures Changes(calls + [call]) == Changes(calls) + [call.op]
  {
    assert (calls + [call])[..|calls|] == calls;
  }

  lemma {:induction false} ChangesConcat(a: seq<Call>, b: seq<Call>)
    ensures Changes(a + b) == Changes(a) + Changes(b)
  {
    if b == [] {
      assert a + b == a;
    } else {
      ChangesConcat(a, b[..|b| - 1]);
      assert (a + b)[..|a + b| - 1] == a + b[..|b| - 1];
    }
  }

  lemma {:induction false} OpsPastStop(ev: Event, n: nat, m: nat)
    requires InputInDomain(ev) && Considered(ev) && 0 < n <= m <= |ev.records|
    requires !Fine(ev.records, n - 1)
    ensures OpsOf(ev, m) == OpsOf(ev, n)
  {
    if m > n {
      OpsPastStop(ev, n, m - 1);
      assert !Reached(ev.records, m - 1);
    }
  }

  /** Without failures an event leads to exactly the updates its records stand for. */
  lemma EventChanges(calls: seq<Call>, ev: Event, answers: Answers)
    requires Before(calls, ev, answers)
    ensures Changes(EventCalls(Replay(INITIAL, calls), ev, true, answers)) == EventOps(ev)
    ensures NoneFails(EventCalls(Replay(INITIAL, calls), ev, true, answers))
    ensures |EventCalls(Replay(INITIAL, calls), ev, true, answers)| <= |ev.records|
  {
    StopIsReach(calls, ev, 0, answers);
    var n := Stop(Replay(INITIAL, calls), ev, 0, true, answers);
    CallsNeverFail(ev, n, answers);
    ChangesOfCalls(ev, n, answers);
    if n < |ev.records| {
      OpsPastStop(ev, n, |ev.records|);
    }
  }

  function TotalRecords(evs: seq<Event>): nat {
    if evs == [] then 0 else TotalRecords(evs[..|evs| - 1]) + |evs[|evs| - 1].records|
  }

  ghost predicate StreamWorks(answers: nat -> Answers) {
    forall n: nat :: AllWork(answers(n))
  }

  lemma {:induction false} StreamChanges(evs: seq<Event>, answers: nat -> Answers)
    requires AllInDomain(evs) && StreamWorks(answers) && 2 * TotalRecords(evs) + 2 < TWO_64
    ensures var calls := StreamCalls(INITIAL, evs, true, answers);
            NoneFails(calls) && |calls| <= TotalRecords(evs) && Changes(calls) == StreamOps(evs)
  {
    if evs != [] {
      var n := |evs| - 1;
      StreamChanges(evs[..n], answers);
      var calls := StreamCalls(INITIAL, evs[..n], true, answers);
      if Considered(evs[n]) {
        EventChanges(calls, evs[n], answers(n));
      }
      ChangesConcat(calls, EventCalls(Replay(INITIAL, calls), evs[n], true, answers(n)));
    }
  }

  lemma StreamRepresents(evs: seq<Event>, answers: nat -> Answers)
    requires AllInDomain(evs) && StreamWorks(answers) && 2 * TotalRecords(evs) + 2 < TWO_64
    ensures var t := Replay(INITIAL, StreamCalls(INITIAL, evs, true, answers));
            Valid(t) && Represents(t, StreamOps(evs))
  {
    StreamChanges(evs, answers);
    var calls := StreamCalls(INITIAL, evs, true, answers);
    RunKeeps(INITIAL, calls);
    RunDense(calls);
    assert Represents(INITIAL, []);
    RunRepresents(INITIAL, [], calls);
    assert [] + StreamOps(evs) == StreamOps(evs);
  }

  /**
   End to end: after any stream of events, if no table access fails, there is a row for a
   pair exactly if some record counts for it, and its counters are the numbers of PATH
   records that count, modulo 2^64.
   */
  lemma EventsToRows(evs: seq<Event>, answers: nat -> Answers)
    requires AllInDomain(evs) && StreamWorks(answers) && 2 * TotalRecords(evs) + 2 < TWO_64
    ensures var t := Replay(INITIAL, StreamCalls(INITIAL, evs, true, answers));
            Valid(t) && Represents(t, StreamOps(evs))
    ensures forall exe, file ::
      var row := RowOf(StreamOps(evs), exe, file);
      && row.read == RecordCount(evs, exe, file, READ) % TWO_64
      && row.write == RecordCount(evs, exe, file, WRITE) % TWO_64
      && row.create == RecordCount(evs, exe, file, CREAT) % TWO_64
      && row.exec == RecordCount(evs, exe, file, EXEC) % TWO_64
  {
    StreamRepresents(evs, answers);
    forall exe: string, file: string, flag: Usage
      ensures Count(StreamOps(evs), exe, file, flag) == RecordCount(evs, exe, file, flag)
    {
      StreamCounts(evs, exe, file, flag);
    }
  }

  /** A PATH record never counts as a write. */
  lemma {:induction false} NothingWrites(evs: seq<Event>, exe: string, file: string)
    requires AllInDomain(evs)
    ensures RecordCount(evs, exe, file, WRITE) == 0
  {
    if evs != [] {
      var ev := evs[|evs| - 1];
      NothingWrites(evs[..|evs| - 1], exe, file);
      NoRecordWrites(ev, |ev.records|, exe, file);
    }
  }

  lemma {:induction false} NoRecordWrites(ev: Event, n: nat, exe: string, file: string)
    requires InputInDomain(ev) && n <= |ev.records|
    ensures Counting(ev, n, exe, file, WRITE) == 0
  {
    if n > 0 {
      NoRecordWrites(ev, n - 1, exe, file);
      NoWriteFlag(ev.records[n - 1].fields);
    }
  }

  lemma {:induction false} NoWriteFlag(fields: seq<Field>)
    ensures WRITE !in FlagsOfFields(fields) && WRITE !in FlagsOf(fields)
  {
    if fields != [] {
      NoWriteFlag(fields[..|fields| - 1]);
    }
  }
}
