/** Whole runs of calls: ids, and rows as a pure function of the update history. */
module Histories {
  import opened AccessLaws
  import opened Accesses
  import opened CallLaws
  import opened Limits
  import opened UsageTables
  import opened Wrappers

  function Replay(t: Tables, calls: seq<Call>): Tables {
    if calls == [] then t else After(Replay(t, calls[..|calls| - 1]), calls[|calls| - 1])
  }

  lemma {:induction false} ReplayConcat(t: Tables, a: seq<Call>, b: seq<Call>)
    ensures Replay(t, a + b) == Replay(Replay(t, a), b)
  {
    if b == [] {
      assert a + b == a;
    } else {
      ReplayConcat(t, a, b[..|b| - 1]);
      assert (a + b)[..|a + b| - 1] == a + b[..|b| - 1];
    }
  }

  /** The updates of a run that returned 0, in order. */
  function Successes(t: Tables, calls: seq<Call>): seq<Op> {
    if calls == [] then []
    else
      var earlier := calls[..|calls| - 1];
      var last := calls[|calls| - 1];
      if last.op.change.Some? && ReturnCode(Replay(t, earlier), last) == 0 then
        Successes(t, earlier) + [last.op]
      else
        Successes(t, earlier)
  }

  predicate Updates(ops: seq<Op>) {
    forall i | 0 <= i < |ops| :: ops[i].change.Some?
  }

  predicate About(op: Op, exe: string, file: string) {
    op.exe == exe && op.file == file
  }

  predicate Occurs(ops: seq<Op>, exe: string, file: string) {
    exists i | 0 <= i < |ops| :: About(ops[i], exe, file)
  }

  /** How many updates of the pair carry a flag. */
  function Count(ops: seq<Op>, exe: string, file: string, flag: Usage): nat {
    if ops == [] then 0
    else
      var last := ops[|ops| - 1];
      Count(ops[..|ops| - 1], exe, file, flag)
      + if About(last, exe, file) && last.change.Some? && flag in last.change.value.flags then 1 else 0
  }

  /** The time of the latest update of the pair; 0 if there is none. */
  function LastTime(ops: seq<Op>, exe: string, file: string): u64 {
    if ops == [] then 0
    else
      var last := ops[|ops| - 1];
      if About(last, exe, file) && last.change.Some? then last.change.value.timestamp
      else LastTime(ops[..|ops| - 1], exe, file)
  }

  /** The row of a pair after a history: counts modulo 2^64, and the latest time. */
  function RowOf(ops: seq<Op>, exe: string, file: string): Stats {
    Stats(Count(ops, exe, file, READ) % TWO_64, Count(ops, exe, file, WRITE) % TWO_64,
          Count(ops, exe, file, CREAT) % TWO_64, Count(ops, exe, file, EXEC) % TWO_64,
          LastTime(ops, exe, file))
  }

  lemma BumpCount(n: nat, counted: bool)
    ensures Bump(n % TWO_64, counted) == (n + if counted then 1 else 0) % TWO_64
  {}

  lemma CountUpdate(ops: seq<Op>, op: Op, exe: string, file: string, flag: Usage)
    requires op.change.Some?
    ensures Count(ops + [op], exe, file, flag) % TWO_64 ==
      Bump(Count(ops, exe, file, flag) % TWO_64, About(op, exe, file) && flag in op.change.value.flags)
  {
    assert (ops + [op])[..|ops|] == ops;
    BumpCount(Count(ops, exe, file, flag), About(op, exe, file) && flag in op.change.value.flags);
  }

  lemma RowOfUpdate(ops: seq<Op>, op: Op, exe: string, file: string)
    requires op.change.Some?
    ensures RowOf(ops + [op], exe, file) ==
      if About(op, exe, file) then
        Updated(RowOf(ops, exe, file), op.change.value.flags, op.change.value.timestamp)
      else RowOf(ops, exe, file)
  {
    forall flag: Usage
      ensures Count(ops + [op], exe, file, flag) % TWO_64 ==
        Bump(Count(ops, exe, file, flag) % TWO_64, About(op, exe, file) && flag in op.change.value.flags)
    {
      CountUpdate(ops, op, exe, file, flag);
    }
    assert LastTime(ops + [op], exe, file) ==
      if About(op, exe, file) then op.change.value.timestamp else LastTime(ops, exe, file) by {
      assert (ops + [op])[..|ops|] == ops;
    }
  }

  lemma {:induction false} RowOfNothing(ops: seq<Op>, exe: string, file: string)
    requires !Occurs(ops, exe, file)
    ensures RowOf(ops, exe, file) == ZERO
  {
    if ops != [] {
      var n := |ops| - 1;
      assert !About(ops[n], exe, file);
      assert forall i | 0 <= i < n :: ops[..n][i] == ops[i];
      RowOfNothing(ops[..n], exe, file);
    }
  }

  lemma OccursUpdate(ops: seq<Op>, op: Op, exe: string, file: string)
    ensures Occurs(ops + [op], exe, file) <==> Occurs(ops, exe, file) || About(op, exe, file)
  {
    var more := ops + [op];
    if Occurs(ops, exe, file) {
      var i :| 0 <= i < |ops| && About(ops[i], exe, file);
      assert About(more[i], exe, file);
    }
    if About(op, exe, file) {
      assert About(more[|ops|], exe, file);
    }
  }

  // ------------------------------------------------------------ representation

  ghost predicate HasRow(t: Tables, exe: string, file: string, row: Stats) {
    && exe in t.exec.fwd && file in t.file.fwd
    && var key := RowKey(t.exec.fwd[exe], t.file.fwd[file]);
       key in t.evnt && t.evnt[key] == row
  }

  /** Pair by pair, the event table is what the history says: a row for every pair that occurs, and no other. */
  ghost predicate Represents(t: Tables, ops: seq<Op>) {
    && (forall exe, file | Occurs(ops, exe, file) :: HasRow(t, exe, file, RowOf(ops, exe, file)))
    && (forall key | key in t.evnt ::
          key.execId in t.exec.rev && key.fileId in t.file.rev
          && Occurs(ops, t.exec.rev[key.execId], t.file.rev[key.fileId]))
  }

  /** A call that leaves the rows alone, or fails, leaves what is represented alone. */
  lemma RepresentsSame(t: Tables, t': Tables, ops: seq<Op>)
    requires Represents(t, ops) && Grows(t, t') && t'.evnt == t.evnt
    ensures Represents(t', ops)
  {
    forall exe, file | Occurs(ops, exe, file)
      ensures HasRow(t', exe, file, RowOf(ops, exe, file))
    {
      assert HasRow(t, exe, file, RowOf(ops, exe, file));
    }
  }

  /** One pair, one key. */
  lemma KeyOf(t: Tables, op: Op, id: RowKey, exe: string, file: string)
    requires Valid(t) && Indexed(t, Exec, op.exe, id.execId) && Indexed(t, File, op.file, id.fileId)
    requires exe in t.exec.fwd && file in t.file.fwd
    ensures RowKey(t.exec.fwd[exe], t.file.fwd[file]) == id <==> About(op, exe, file)
  {}

  /** The row the update starts from is the one the history gives. */
  lemma RowBeforeOf(t: Tables, t': Tables, ops: seq<Op>, op: Op, id: RowKey)
    requires Represents(t, ops) && Grows(t, t') && Valid(t')
    requires Indexed(t', Exec, op.exe, id.execId) && Indexed(t', File, op.file, id.fileId)
    ensures (if id in t.evnt then t.evnt[id] else ZERO) == RowOf(ops, op.exe, op.file)
  {
    if Occurs(ops, op.exe, op.file) {
      assert HasRow(t, op.exe, op.file, RowOf(ops, op.exe, op.file));
    } else {
      RowOfNothing(ops, op.exe, op.file);
    }
  }

  ghost predicate RowReplaced(t: Tables, t': Tables, op: Op, id: RowKey) {
    && Valid(t') && Grows(t, t') && op.change.Some?
    && Indexed(t', Exec, op.exe, id.execId) && Indexed(t', File, op.file, id.fileId)
    && t'.evnt == t.evnt[id := Updated(if id in t.evnt then t.evnt[id] else ZERO,
                                       op.change.value.flags, op.change.value.timestamp)]
  }

  lemma PairsHaveRows(t: Tables, t': Tables, ops: seq<Op>, op: Op, id: RowKey, exe: string, file: string)
    requires Represents(t, ops) && RowReplaced(t, t', op, id)
    requires Occurs(ops + [op], exe, file)
    ensures HasRow(t', exe, file, RowOf(ops + [op], exe, file))
  {
    OccursUpdate(ops, op, exe, file);
    RowOfUpdate(ops, op, exe, file);
    if About(op, exe, file) {
      RowBeforeOf(t, t', ops, op, id);
    } else {
      assert HasRow(t, exe, file, RowOf(ops, exe, file));
      KeyOf(t', op, id, exe, file);
    }
  }

  lemma RowsHavePairs(t: Tables, t': Tables, ops: seq<Op>, op: Op, id: RowKey, key: RowKey)
    requires Represents(t, ops) && RowReplaced(t, t', op, id)
    requires key in t'.evnt
    ensures key.execId in t'.exec.rev && key.fileId in t'.file.rev
    ensures Occurs(ops + [op], t'.exec.rev[key.execId], t'.file.rev[key.fileId])
  {
    OccursUpdate(ops, op, t'.exec.rev[key.execId], t'.file.rev[key.fileId]);
  }

  lemma RepresentsUpdate(t: Tables, t': Tables, ops: seq<Op>, op: Op, id: RowKey)
    requires Represents(t, ops) && RowReplaced(t, t', op, id)
    ensures Represents(t', ops + [op])
  {
    forall exe, file | Occurs(ops + [op], exe, file)
      ensures HasRow(t', exe, file, RowOf(ops + [op], exe, file))
    {
      PairsHaveRows(t, t', ops, op, id, exe, file);
    }
    forall key | key in t'.evnt
      ensures key.execId in t'.exec.rev && key.fileId in t'.file.rev
      ensures Occurs(ops + [op], t'.exec.rev[key.execId], t'.file.rev[key.fileId])
    {
      RowsHavePairs(t, t', ops, op, id, key);
    }
  }

  lemma CallRepresents(t: Tables, ops: seq<Op>, call: Call)
    requires Valid(t) && t.Bound() + 2 < TWO_64 && Represents(t, ops) && call.answers(FetchRow).Works?
    ensures Represents(After(t, call),
                       if call.op.change.Some? && ReturnCode(t, call) == 0 then ops + [call.op] else ops)
  {
    CallKeeps(t, call);
    CallRows(t, call);
    if call.op.change.Some? && ReturnCode(t, call) == 0 {
      RepresentsUpdate(t, After(t, call), ops, call.op, Result(t, call).Key());
    } else {
      RepresentsSame(t, After(t, call), ops);
    }
  }

  /**
   Any run of updates and fetches, with any failures: the tables stay valid, they only
   grow, and the counter moves by at most two per call.
   */
  lemma {:induction false} RunKeeps(t: Tables, calls: seq<Call>)
    requires Valid(t) && t.Bound() + 2 * |calls| < TWO_64
    ensures var t' := Replay(t, calls);
            Valid(t') && Grows(t, t') && t'.Bound() <= t.Bound() + 2 * |calls|
  {
    if calls != [] {
      var earlier := calls[..|calls| - 1];
      RunKeeps(t, earlier);
      CallKeeps(Replay(t, earlier), calls[|calls| - 1]);
      GrowsTransitive(t, Replay(t, earlier), Replay(t, calls));
    }
  }

  /**
   History refinement: with any failures but failing row fetches, the event table after a
   run represents exactly the updates that returned 0.
   */
  lemma {:induction false} RunRepresents(t: Tables, ops: seq<Op>, calls: seq<Call>)
    requires Valid(t) && t.Bound() + 2 * |calls| < TWO_64 && Represents(t, ops)
    requires forall i | 0 <= i < |calls| :: calls[i].answers(FetchRow).Works?
    ensures Represents(Replay(t, calls), ops + Successes(t, calls))
  {
    if calls == [] {
      assert ops + [] == ops;
    } else {
      var n := |calls| - 1;
      var earlier, last := calls[..n], calls[n];
      RunKeeps(t, earlier);
      RunRepresents(t, ops, earlier);
      var done := ops + Successes(t, earlier);
      CallRepresents(Replay(t, earlier), done, last);
      assert done + [last.op] == ops + (Successes(t, earlier) + [last.op]);
    }
  }

  /** db_fetch adds nothing to what the rows represent. */
  lemma HistoryStays(t: Tables, ops: seq<Op>, call: Call)
    requires Valid(t) && t.Bound() + 2 < TWO_64 && Represents(t, ops) && call.op.change.None?
    ensures Represents(After(t, call), ops)
  {
    CallKeeps(t, call);
    CallRows(t, call);
    RepresentsSame(t, After(t, call), ops);
  }

  /** What db_fetch leaves in its caller's buffer. */
  function Fetched(t: Tables, call: Call, buffer: Stats): Stats {
    var row := Result(t, call).row;
    if ReturnCode(t, call) == 0 && row.Some? then row.value else buffer
  }

  /** The row a pair had before the call; nothing if it had none. */
  lemma FetchFinds(t: Tables, call: Call, buffer: Stats)
    requires Valid(t) && t.Bound() + 2 < TWO_64 && call.op.change.None? && ReturnCode(t, call) == 0
    ensures forall row :: HasRow(t, call.op.exe, call.op.file, row) ==> Fetched(t, call, buffer) == row
    ensures (forall row :: !HasRow(t, call.op.exe, call.op.file, row)) ==> Fetched(t, call, buffer) == buffer
  {
    var t', op := After(t, call), call.op;
    CallKeeps(t, call);
    FetchRows(t, call);
    var key := RowKey(t'.exec.fwd[op.exe], t'.file.fwd[op.file]);
    if key in t.evnt {
      assert t.exec.rev[key.execId] == op.exe && t.file.rev[key.fileId] == op.file;
      assert HasRow(t, op.exe, op.file, t.evnt[key]);
    }
  }

  /** db_fetch on a pair that occurs in the history returns that history, accumulated. */
  lemma FetchTellsHistory(t: Tables, ops: seq<Op>, call: Call)
    requires Valid(t) && t.Bound() + 2 < TWO_64 && Represents(t, ops) && call.op.change.None?
    requires Occurs(ops, call.op.exe, call.op.file) && ReturnCode(t, call) == 0
    ensures Result(t, call).row == Some(RowOf(ops, call.op.exe, call.op.file))
    ensures Represents(After(t, call), ops)
  {
    CallKeeps(t, call);
    FetchRows(t, call);
    RepresentsSame(t, After(t, call), ops);
    assert HasRow(t, call.op.exe, call.op.file, RowOf(ops, call.op.exe, call.op.file));
  }
}
