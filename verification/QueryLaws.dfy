/** What the queries can rely on in every state a run can reach. */
module QueryLaws {
  import opened Accesses
  import opened CallLaws
  import opened Histories
  import opened Limits
  import opened Search
  import opened Totals
  import opened UsageTables

  // ------------------------------------------------------------- name buffers

  predicate ShortPaths(op: Op) {
    |op.exe| < MAXPATH && |op.file| < MAXPATH
  }

  ghost predicate KnownPathsShort(t: Tables) {
    && (forall p | p in t.exec.fwd :: |p| < MAXPATH)
    && (forall p | p in t.file.fwd :: |p| < MAXPATH)
  }

  lemma {:induction false} RunPathsShort(calls: seq<Call>)
    requires forall i | 0 <= i < |calls| :: ShortPaths(calls[i].op)
    ensures KnownPathsShort(Replay(INITIAL, calls))
  {
    if calls != [] {
      var n := |calls| - 1;
      RunPathsShort(calls[..n]);
      FinishPaths(Replay(INITIAL, calls[..n]), START, calls[n]);
      assert ShortPaths(calls[n].op);
    }
  }

  /** After any run, whatever failed, no name lookup of a search loop can miss or overflow its buffer. */
  lemma RunNamesFit(calls: seq<Call>)
    requires 2 * |calls| < TWO_64
    requires forall i | 0 <= i < |calls| :: ShortPaths(calls[i].op)
    ensures var t := Replay(INITIAL, calls);
            Valid(t) && NamesFit(t, Exec) && NamesFit(t, File)
  {
    RunKeeps(INITIAL, calls);
    RunPathsShort(calls);
  }

  // -------------------------------------------------------------------- times

  ghost predicate Nondecreasing(ops: seq<Op>) {
    && Updates(ops)
    && forall i, j | 0 <= i <= j < |ops| :: ops[i].change.value.timestamp <= ops[j].change.value.timestamp
  }

  /** The time of the latest update that concerns a path; 0 if there is none. */
  function LastTimeOn(ops: seq<Op>, side: Side, path: string): u64 {
    if ops == [] then 0
    else
      var last := ops[|ops| - 1];
      if last.Path(side) == path && last.change.Some? then last.change.value.timestamp
      else LastTimeOn(ops[..|ops| - 1], side, path)
  }

  lemma {:induction false} LastTimeBound(ops: seq<Op>, exe: string, file: string, bound: u64)
    requires forall i | 0 <= i < |ops| :: ops[i].change.Some? ==> ops[i].change.value.timestamp <= bound
    ensures LastTime(ops, exe, file) <= bound
  {
    if ops != [] {
      LastTimeBound(ops[..|ops| - 1], exe, file, bound);
    }
  }

  lemma {:induction false} PairNotLater(ops: seq<Op>, side: Side, exe: string, file: string)
    requires Nondecreasing(ops)
    ensures LastTime(ops, exe, file) <= LastTimeOn(ops, side, if side.Exec? then exe else file)
  {
    if ops != [] {
      var n := |ops| - 1;
      PairNotLater(ops[..n], side, exe, file);
      LastTimeBound(ops[..n], exe, file, ops[n].change.value.timestamp);
    }
  }

  /** Some pair of the path has its latest time. */
  lemma {:induction false} PairOfLatest(ops: seq<Op>, side: Side, path: string) returns (i: nat)
    requires Updates(ops) && exists k :: 0 <= k < |ops| && ops[k].Path(side) == path
    ensures i < |ops| && ops[i].Path(side) == path
    ensures LastTime(ops, ops[i].exe, ops[i].file) == LastTimeOn(ops, side, path)
  {
    var n := |ops| - 1;
    if ops[n].Path(side) == path {
      i := n;
    } else {
      var k :| 0 <= k < |ops| && ops[k].Path(side) == path;
      assert ops[..n][k].Path(side) == path;
      i := PairOfLatest(ops[..n], side, path);
      assert !About(ops[n], ops[i].exe, ops[i].file);
    }
  }

  lemma {:induction false} NeverOn(ops: seq<Op>, side: Side, path: string)
    requires forall k | 0 <= k < |ops| :: ops[k].Path(side) != path
    ensures LastTimeOn(ops, side, path) == 0
  {
    if ops != [] {
      NeverOn(ops[..|ops| - 1], side, path);
    }
  }

  /** A row of the path has the time the history gives its pair. */
  lemma RowTime(t: Tables, ops: seq<Op>, side: Side, path: string, key: RowKey)
    requires Valid(t) && Represents(t, ops) && path in t.On(side).fwd
    requires key in Matching(t.evnt, side, t.On(side).fwd[path])
    ensures var exe, file := t.exec.rev[key.execId], t.file.rev[key.fileId];
            && t.evnt[key].time == LastTime(ops, exe, file)
            && path == (if side.Exec? then exe else file)
            && Occurs(ops, exe, file)
  {
    var exe, file := t.exec.rev[key.execId], t.file.rev[key.fileId];
    assert HasRow(t, exe, file, RowOf(ops, exe, file));
  }

  lemma RowOfPair(t: Tables, ops: seq<Op>, side: Side, i: nat)
    requires Valid(t) && Represents(t, ops) && i < |ops| && ops[i].Path(side) in t.On(side).fwd
    ensures exists key :: key in Matching(t.evnt, side, t.On(side).fwd[ops[i].Path(side)])
                          && t.evnt[key].time == LastTime(ops, ops[i].exe, ops[i].file)
  {
    assert About(ops[i], ops[i].exe, ops[i].file);
    assert Occurs(ops, ops[i].exe, ops[i].file);
    assert HasRow(t, ops[i].exe, ops[i].file, RowOf(ops, ops[i].exe, ops[i].file));
    var key := RowKey(t.exec.fwd[ops[i].exe], t.file.fwd[ops[i].file]);
    assert key in Matching(t.evnt, side, t.On(side).fwd[ops[i].Path(side)]);
  }

  /** With nondecreasing timestamps the time of a summary is that of the latest update it covers. */
  lemma SummaryTime(t: Tables, ops: seq<Op>, side: Side, path: string, time: u64)
    requires Valid(t) && Represents(t, ops) && Nondecreasing(ops) && path in t.On(side).fwd
    requires Latest(t.evnt, Matching(t.evnt, side, t.On(side).fwd[path]), time)
    ensures time == LastTimeOn(ops, side, path)
  {
    var keys := Matching(t.evnt, side, t.On(side).fwd[path]);
    if time != 0 {
      var k :| k in keys && t.evnt[k].time == time;
      RowTime(t, ops, side, path, k);
      PairNotLater(ops, side, t.exec.rev[k.execId], t.file.rev[k.fileId]);
    }
    if exists k :: 0 <= k < |ops| && ops[k].Path(side) == path {
      var i := PairOfLatest(ops, side, path);
      RowOfPair(t, ops, side, i);
    } else {
      NeverOn(ops, side, path);
    }
  }
}
