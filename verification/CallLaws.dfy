/** Whole calls of db_update and db_fetch, undisturbed, under arbitrary storage failures. */
module CallLaws {
  import opened AccessLaws
  import opened Accesses
  import opened Limits
  import opened UsageTables
  import opened Wrappers

  /** How many ids a call may still take from the counter. */
  function IdsLeft(pc: Pc): nat {
    if Rank(pc) >= 10 then 2 else if Rank(pc) >= 5 then 1 else 0
  }

  /** The counter is so far from its maximum that the call cannot wrap it. */
  predicate Room(t: Tables, p: Proc) {
    t.Bound() + IdsLeft(p.pc) < TWO_64
  }

  ghost predicate Midway(t0: Tables, t: Tables, p: Proc, op: Op) {
    Valid(t) && Knows(t, p, op) && Room(t, p) && Grows(t0, t) && Fresh(t0, p)
  }

  lemma StepRoom(t: Tables, p: Proc, call: Call)
    requires p.pc.At? && Knows(t, p, call.op) && Room(t, p)
    ensures Roomy(p)
    ensures Room(Step(t, p, call).0, Step(t, p, call).1)
    ensures Step(t, p, call).0.Bound() + IdsLeft(Step(t, p, call).1.pc) <= t.Bound() + IdsLeft(p.pc)
  {}

  lemma StepMidway(t0: Tables, t: Tables, p: Proc, call: Call)
    requires p.pc.At? && Midway(t0, t, p, call.op)
    ensures Midway(t0, Step(t, p, call).0, Step(t, p, call).1, call.op)
  {
    StepRoom(t, p, call);
    StepValid(t, p, call);
    StepKnows(t, p, call);
    StepGrows(t0, t, p, call);
  }

  /** What every access keeps holds when the call returns. */
  lemma {:induction false} FinishInduction(inv: (Tables, Proc) -> bool, t: Tables, p: Proc, call: Call)
    requires inv(t, p)
    requires forall t1: Tables, p1: Proc | p1.pc.At? && inv(t1, p1) :: inv(Step(t1, p1, call).0, Step(t1, p1, call).1)
    ensures inv(Finish(t, p, call).0, Finish(t, p, call).1)
    decreases Rank(p.pc)
  {
    if p.pc.At? {
      FinishInduction(inv, Step(t, p, call).0, Step(t, p, call).1, call);
    }
  }

  /** Whatever fails, a call keeps the cross-table invariant, and the tables only grow. */
  lemma FinishKeeps(t0: Tables, t: Tables, p: Proc, call: Call)
    requires Midway(t0, t, p, call.op)
    ensures Midway(t0, Finish(t, p, call).0, Finish(t, p, call).1, call.op)
    ensures Finish(t, p, call).0.Bound() <= t.Bound() + IdsLeft(p.pc)
  {
    var most := t.Bound() + IdsLeft(p.pc);
    var inv := (t1: Tables, p1: Proc) => Midway(t0, t1, p1, call.op) && t1.Bound() + IdsLeft(p1.pc) <= most;
    forall t1: Tables, p1: Proc | p1.pc.At? && inv(t1, p1)
      ensures inv(Step(t1, p1, call).0, Step(t1, p1, call).1)
    {
      StepRoom(t1, p1, call);
      StepMidway(t0, t1, p1, call);
    }
    FinishInduction(inv, t, p, call);
  }

  lemma CallKeeps(t: Tables, call: Call)
    requires Valid(t) && t.Bound() + 2 < TWO_64
    ensures Valid(After(t, call)) && Grows(t, After(t, call))
    ensures After(t, call).Bound() <= t.Bound() + 2
  {
    FinishKeeps(t, t, START, call);
  }

  /**
   The exact limit: handing out one more id keeps the cross-table invariant if and only if
   the counter has not reached its maximum.  At the maximum it wraps to 0.
   */
  lemma AllocationValidIff(t: Tables, p: Proc, call: Call)
    requires Valid(t) && Knows(t, p, call.op) && p.pc.At? && p.pc.site.StoreCounter?
    requires call.Stored(p.pc.site) == 0 && call.Stored(StoreId(p.pc.site.side)) == 0
    ensures var (t1, p1) := Step(t, p, call);
            var (t2, p2) := Step(t1, p1, call);
            Valid(t2) <==> t.Bound() != TWO_64 - 1
  {
    var (t1, p1) := Step(t, p, call);
    var (t2, p2) := Step(t1, p1, call);
    if t.Bound() != TWO_64 - 1 {
      StepValid(t, p, call);
      StepKnows(t, p, call);
      StepValid(t1, p1, call);
    } else {
      var side := p.pc.site.side;
      assert t2.On(side).fwd[call.op.Path(side)] == TWO_64 - 1 && t2.Bound() == 0;
    }
  }

  // ------------------------------------------------- which entries a call adds

  lemma StepPaths(t: Tables, p: Proc, call: Call)
    requires p.pc.At?
    ensures var t' := Step(t, p, call).0;
            && t'.exec.fwd.Keys <= t.exec.fwd.Keys + {call.op.exe}
            && t'.file.fwd.Keys <= t.file.fwd.Keys + {call.op.file}
  {}

  lemma {:induction false} FinishPaths(t: Tables, p: Proc, call: Call)
    ensures var t' := Finish(t, p, call).0;
            && t'.exec.fwd.Keys <= t.exec.fwd.Keys + {call.op.exe}
            && t'.file.fwd.Keys <= t.file.fwd.Keys + {call.op.file}
    decreases Rank(p.pc)
  {
    if p.pc.At? {
      StepPaths(t, p, call);
      FinishPaths(Step(t, p, call).0, Step(t, p, call).1, call);
    }
  }

  // ---------------------------------------------------- what becomes of the rows

  /** The row db_update starts from: any failing fetch counts as "no row yet". */
  function RowBefore(t: Tables, key: RowKey, call: Call): Option<Stats> {
    if call.answers(FetchRow).Works? && key in t.evnt then Some(t.evnt[key]) else None
  }

  function RowsAfter(t: Tables, key: RowKey, call: Call): map<RowKey, Stats>
    requires call.op.change.Some?
  {
    var row := RowBefore(t, key, call);
    var change := call.op.change.value;
    t.evnt[key := Updated(if row.Some? then row.value else ZERO, change.flags, change.timestamp)]
  }

  /** Between two accesses no row has changed; at the end the return code tells the rest. */
  ghost predicate RowsSoFar(rows: map<RowKey, Stats>, t: Tables, p: Proc, call: Call) {
    match p.pc
    case At(site) =>
      && t.evnt == rows
      && (site.StoreRow? ==> call.op.change.Some? && p.row == RowBefore(t, p.Key(), call))
    case Returned(rc) =>
      if call.op.change.None? then
        t.evnt == rows && (rc == 0 ==> p.row == RowBefore(t, p.Key(), call) && call.answers(FetchRow).Works?)
      else if rc == 0 then
        t.evnt == RowsAfter(t.(evnt := rows), p.Key(), call)
      else
        t.evnt == rows
  }

  lemma StepRows(rows: map<RowKey, Stats>, t: Tables, p: Proc, call: Call)
    requires p.pc.At? && RowsSoFar(rows, t, p, call)
    ensures RowsSoFar(rows, Step(t, p, call).0, Step(t, p, call).1, call)
  {}

  /** A call that returns 0 has both its paths in both tables of their side. */
  ghost predicate EndsIndexed(t: Tables, p: Proc, op: Op) {
    p.pc.Returned? && p.pc.rc == 0 ==>
      Indexed(t, Exec, op.exe, p.execId) && Indexed(t, File, op.file, p.fileId)
  }

  lemma StepEndsIndexed(t: Tables, p: Proc, call: Call)
    requires p.pc.At? && Knows(t, p, call.op)
    ensures EndsIndexed(Step(t, p, call).0, Step(t, p, call).1, call.op)
  {}

  lemma CallRows(t: Tables, call: Call)
    requires Valid(t) && t.Bound() + 2 < TWO_64
    ensures RowsSoFar(t.evnt, After(t, call), Result(t, call), call)
    ensures EndsIndexed(After(t, call), Result(t, call), call.op)
  {
    var inv := (t1: Tables, p1: Proc) => Midway(t, t1, p1, call.op) && EndsIndexed(t1, p1, call.op);
    forall t1: Tables, p1: Proc | p1.pc.At? && inv(t1, p1)
      ensures inv(Step(t1, p1, call).0, Step(t1, p1, call).1)
    {
      StepMidway(t, t1, p1, call);
      StepEndsIndexed(t1, p1, call);
    }
    FinishInduction(inv, t, START, call);
    FinishRows(t, call);
  }

  lemma FinishRows(t: Tables, call: Call)
    ensures RowsSoFar(t.evnt, After(t, call), Result(t, call), call)
  {
    var inv := (t1: Tables, p1: Proc) => RowsSoFar(t.evnt, t1, p1, call);
    forall t1: Tables, p1: Proc | p1.pc.At? && inv(t1, p1)
      ensures inv(Step(t1, p1, call).0, Step(t1, p1, call).1)
    {
      StepRows(t.evnt, t1, p1, call);
    }
    FinishInduction(inv, t, START, call);
  }

  /**
   db_update: if it returns 0, then both paths have their ids, exactly the row of that
   pair is replaced by its updated version and no other row changes; if it returns
   anything else, no row changes at all.
   */
  lemma UpdateRows(t: Tables, call: Call)
    requires Valid(t) && t.Bound() + 2 < TWO_64 && call.op.change.Some?
    ensures var t' := After(t, call);
            var op := call.op;
            if ReturnCode(t, call) == 0 then
              && op.exe in t'.exec.fwd && op.file in t'.file.fwd
              && t'.evnt == RowsAfter(t, RowKey(t'.exec.fwd[op.exe], t'.file.fwd[op.file]), call)
            else
              t'.evnt == t.evnt
  {
    CallRows(t, call);
  }

  lemma UpdatedFromZero(row: Stats, change: Change)
    ensures Updated(row, change.flags, change.timestamp) == Updated(ZERO, change.flags, change.timestamp)
       <==> row.(time := 0) == ZERO
  {}

  /** A row that could not be read is started anew: its counts are kept iff the fetch worked or there were none. */
  lemma CountsKeptIff(t: Tables, call: Call)
    requires Valid(t) && t.Bound() + 2 < TWO_64 && call.op.change.Some? && ReturnCode(t, call) == 0
    ensures var t' := After(t, call);
            var key := Result(t, call).Key();
            var change := call.op.change.value;
            var before := if key in t.evnt then t.evnt[key] else ZERO;
            key in t'.evnt &&
            (t'.evnt[key] == Updated(before, change.flags, change.timestamp)
             <==> call.answers(FetchRow).Works? || before.(time := 0) == ZERO)
  {
    CallRows(t, call);
    var key := Result(t, call).Key();
    UpdatedFromZero(if key in t.evnt then t.evnt[key] else ZERO, call.op.change.value);
  }

  /** db_fetch may hand out ids but changes no row, and finds exactly the row that is there. */
  lemma FetchRows(t: Tables, call: Call)
    requires Valid(t) && t.Bound() + 2 < TWO_64 && call.op.change.None?
    ensures After(t, call).evnt == t.evnt
    ensures ReturnCode(t, call) == 0 ==>
      var t' := After(t, call);
      && call.op.exe in t'.exec.fwd && call.op.file in t'.file.fwd
      && var key := RowKey(t'.exec.fwd[call.op.exe], t'.file.fwd[call.op.file]);
         Result(t, call).row == if key in t.evnt then Some(t.evnt[key]) else None
  {
    CallRows(t, call);
  }

  /** A handle without DB_WRITE changes no table, and no db_update or db_fetch on it can succeed. */
  lemma {:induction false} ReadOnlyFails(t: Tables, p: Proc, call: Call)
    requires !call.writable && p.pc.At? && !p.pc.site.FetchRow?
    ensures Finish(t, p, call).0 == t
    ensures p.pc.site.StoreRow? || Finish(t, p, call).1.pc.rc == -1
    decreases Rank(p.pc)
  {
    var (t1, p1) := Step(t, p, call);
    if p1.pc.At? {
      ReadOnlyFails(t1, p1, call);
    } else {
      assert Finish(t1, p1, call) == (t1, p1);
    }
  }
}
