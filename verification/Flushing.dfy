/** Which runs of calls db_flush brings to disk, and states in which files are not what one expects. */
module Flushing {
  import opened Accesses
  import opened CallCodes
  import opened CallLaws
  import opened Database
  import opened Histories
  import opened IdArithmetic
  import opened Limits
  import opened Persistence
  import opened UsageTables

  /** The path has its id and its reverse entry. */
  predicate KnownOn(t: Tables, side: Side, path: string) {
    path in t.On(side).fwd && t.On(side).fwd[path] in t.On(side).rev
  }

  predicate Known(t: Tables, op: Op) {
    KnownOn(t, Exec, op.exe) && KnownOn(t, File, op.file)
  }

  /** For a known path, the accesses of one side change nothing. */
  lemma KnownSide(t: Tables, p: Proc, call: Call, side: Side) returns (p': Proc)
    requires Valid(t) && p.pc == At(FetchId(side)) && KnownOn(t, side, call.op.Path(side)) && NeverFails(call)
    ensures p'.pc == At(AfterPath(side)) && Finish(t, p', call) == Finish(t, p, call)
  {
    var p1 := Step(t, p, call).1;
    p' := Step(t, p1, call).1;
    assert Step(t, p1, call).0 == t;
    assert Finish(t, p', call) == Finish(t, p1, call);
  }

  /** Without failures, db_fetch leaves all tables alone exactly if both its paths are known. */
  lemma FetchLeavesIff(t: Tables, call: Call)
    requires Valid(t) && t.Bound() + 2 < TWO_64 && ID_ENTRY in t.idtb
    requires call.op.change.None? && NeverFails(call)
    ensures After(t, call) == t <==> Known(t, call.op)
  {
    if Known(t, call.op) {
      var p1 := KnownSide(t, START, call, Exec);
      var p2 := KnownSide(t, p1, call, File);
      assert Finish(t, p2, call).0 == t;
    }
    CallKnows(t, call);
  }

  /** Without failures both paths are known after a call. */
  lemma CallKnows(t: Tables, call: Call)
    requires Valid(t) && t.Bound() + 2 < TWO_64 && ID_ENTRY in t.idtb && NeverFails(call)
    ensures ReturnCode(t, call) == 0 && Known(After(t, call), call.op)
  {
    CallCode(t, call);
    CallRows(t, call);
  }

  lemma RunLeavesKnown(t: Tables, calls: seq<Call>, op: Op)
    requires Valid(t) && t.Bound() + 2 * |calls| < TWO_64 && Known(t, op)
    ensures Known(Replay(t, calls), op)
  {
    RunKeeps(t, calls);
  }

  lemma {:induction false} RunKeepsEntry(t: Tables, calls: seq<Call>)
    ensures ID_ENTRY in Replay(t, calls).idtb <==> ID_ENTRY in t.idtb
  {
    if calls != [] {
      RunKeepsEntry(t, calls[..|calls| - 1]);
      CallCode(Replay(t, calls[..|calls| - 1]), calls[|calls| - 1]);
    }
  }

  lemma KnownAtOnce(t: Tables, calls: seq<Call>)
    requires Valid(t) && t.Bound() + 2 * |calls| < TWO_64 && ID_ENTRY in t.idtb && NoneFails(calls) && calls != []
    ensures Known(Replay(t, calls), calls[|calls| - 1].op)
  {
    var n := |calls| - 1;
    RunKeeps(t, calls[..n]);
    RunKeepsEntry(t, calls[..n]);
    CallKnows(Replay(t, calls[..n]), calls[n]);
  }

  /** Without failures in it, and whatever comes behind, the paths of a call stay known. */
  lemma KnownForGood(t: Tables, head: seq<Call>, tail: seq<Call>)
    requires Valid(t) && t.Bound() + 2 * |head| + 2 * |tail| < TWO_64 && ID_ENTRY in t.idtb
    requires NoneFails(head) && head != []
    ensures Known(Replay(t, head + tail), head[|head| - 1].op)
  {
    var mid := Replay(t, head);
    RunKeeps(t, head);
    KnownAtOnce(t, head);
    RunLeavesKnown(mid, tail, head[|head| - 1].op);
    ReplayConcat(t, head, tail);
  }

  lemma RunKnows(t: Tables, calls: seq<Call>, i: nat)
    requires Valid(t) && t.Bound() + 2 * |calls| < TWO_64 && ID_ENTRY in t.idtb && NoneFails(calls)
    requires i < |calls|
    ensures Known(Replay(t, calls), calls[i].op)
  {
    var head, tail := calls[..i + 1], calls[i + 1..];
    assert calls == head + tail && head[|head| - 1] == calls[i];
    KnownForGood(t, head, tail);
  }

  predicate AllKnown(t: Tables, calls: seq<Call>) {
    forall i | 0 <= i < |calls| :: Known(t, calls[i].op)
  }

  predicate NoUpdates(calls: seq<Call>) {
    forall i | 0 <= i < |calls| :: calls[i].op.change.None?
  }

  lemma {:induction false} KnownRunLeaves(t: Tables, calls: seq<Call>)
    requires Valid(t) && t.Bound() + 2 < TWO_64 && ID_ENTRY in t.idtb && NoneFails(calls) && NoUpdates(calls)
    requires AllKnown(t, calls)
    ensures Replay(t, calls) == t
  {
    if calls != [] {
      KnownRunLeaves(t, calls[..|calls| - 1]);
      FetchLeavesIff(t, calls[|calls| - 1]);
    }
  }

  /** The same for any number of fetches. */
  lemma RunLeavesIff(t: Tables, calls: seq<Call>)
    requires Valid(t) && t.Bound() + 2 * |calls| + 2 < TWO_64 && ID_ENTRY in t.idtb
    requires NoneFails(calls) && NoUpdates(calls)
    ensures Replay(t, calls) == t <==> AllKnown(t, calls)
  {
    forall i | 0 <= i < |calls|
      ensures Known(Replay(t, calls), calls[i].op)
    {
      RunKnows(t, calls, i);
    }
    if AllKnown(t, calls) {
      KnownRunLeaves(t, calls);
    }
  }

  lemma NoMoreUpdates(calls: seq<Call>, n: nat)
    requires n < |calls|
    ensures NoUpdates(calls[..n + 1]) <==> NoUpdates(calls[..n]) && calls[n].op.change.None?
  {
    assert calls[..n + 1] == calls[..n] + [calls[n]];
  }

  /** db_update or db_fetch */
  method MakeCall(db: Db, call: Call) returns (rc: int)
    requires db.Locking() && call.writable == db.Writable()
    modifies db
    ensures db.Locking() && db.lockDepth == old(db.lockDepth) && db.openFlags == old(db.openFlags)
    ensures db.Mem() == After(old(db.Mem()), call) && rc == ReturnCode(old(db.Mem()), call)
    ensures Follows(old(db.Standing()), 1, db.Standing())
    ensures !db.Standing().syncs && rc == 0 ==> (db.dirty <==> old(db.dirty) || call.op.change.Some?)
  {
    if call.op.change.Some? {
      rc := db.Update(call);
    } else {
      var row;
      rc, row := db.Fetch(call, ZERO);
    }
  }

  /** The calls of a run, one after the other; without a sync the mark says whether one of them was an update. */
  method RunCalls(db: Db, calls: seq<Call>)
    requires db.Locking() && db.Writable() && Valid(db.Mem()) && ID_ENTRY in db.idtb && NoneFails(calls)
    requires db.Mem().Bound() + 2 * |calls| + 2 < TWO_64
    modifies db
    ensures db.Locking() && db.lockDepth == old(db.lockDepth) && db.openFlags == old(db.openFlags)
    ensures db.Mem() == Replay(old(db.Mem()), calls) && Follows(old(db.Standing()), |calls|, db.Standing())
    ensures !db.Standing().syncs ==> (db.dirty <==> old(db.dirty) || !NoUpdates(calls))
  {
    ghost var t, o := db.Mem(), db.Standing();
    for n := 0 to |calls|
      invariant db.Locking() && db.lockDepth == old(db.lockDepth) && db.openFlags == old(db.openFlags)
      invariant db.Mem() == Replay(t, calls[..n]) && Follows(o, n, db.Standing())
      invariant !o.syncs ==> (db.dirty <==> old(db.dirty) || !NoUpdates(calls[..n]))
    {
      RunRoom(t, calls, n);
      assert calls[..n + 1][..n] == calls[..n];
      NoMoreUpdates(calls, n);
      ghost var st := db.Standing();
      var _ := MakeCall(db, calls[n]);
      FollowsOn(o, n, st, 1, db.Standing());
    }
    assert calls[..|calls|] == calls;
  }

  /** On a consistent handle, what db_flush then finds. */
  method RunConsistently(db: Db, calls: seq<Call>)
    requires db.Consistent() && db.Writable() && ID_ENTRY in db.idtb && NoneFails(calls)
    requires db.Mem().Bound() + 2 * |calls| + 2 < TWO_64
    modifies db
    ensures db.Consistent() && db.Mem() == Replay(old(db.Mem()), calls)
    ensures if old(db.Standing()).syncs && calls != [] then db.disk == db.Mem() && !db.dirty
            else db.disk == old(db.disk)
    ensures !old(db.Standing()).syncs ==> (db.dirty <==> old(db.dirty) || !NoUpdates(calls))
  {
    RunCalls(db, calls);
    RunSound(old(db.Standing()), calls, db.Standing());
  }

  /**
   From one sync to the next db_flush, without failures: the files are up to date exactly
   if every unlock syncs anyway, or some call was an update, or no fetch met a new path.
   */
  method RunThenFlush(db: Db, calls: seq<Call>)
    requires db.Consistent() && !db.dirty && db.disk == db.Mem() && ID_ENTRY in db.idtb
    requires db.Mem().Bound() + 2 * |calls| + 2 < TWO_64
    requires db.Writable() && NoneFails(calls)
    modifies db
    ensures db.Mem() == Replay(old(db.Mem()), calls)
    ensures db.disk == db.Mem() <==>
      || (old(db.lockDepth) == 0 && DB_SYNC in old(db.openFlags))
      || !NoUpdates(calls)
      || AllKnown(old(db.Mem()), calls)
  {
    ghost var t := db.Mem();
    RunConsistently(db, calls);
    var _ := db.Flush();
    if NoUpdates(calls) {
      RunLeavesIff(t, calls);
    }
  }

  /** There is room for one more call of a run, and a counter, so it returns 0. */
  lemma RunRoom(t: Tables, calls: seq<Call>, n: nat)
    requires Valid(t) && t.Bound() + 2 * |calls| + 2 < TWO_64 && ID_ENTRY in t.idtb
    requires NoneFails(calls) && n < |calls|
    ensures Replay(t, calls[..n]).Bound() + 2 < TWO_64
    ensures ReturnCode(Replay(t, calls[..n]), calls[n]) == 0
  {
    RunKeeps(t, calls[..n]);
    RunKeepsEntry(t, calls[..n]);
    CallKnows(Replay(t, calls[..n]), calls[n]);
  }

  // ------------------------------------------------------- inputs that fail

  /** A path is new, db_fetch hands out its id, nothing fails, and db_flush does not write it. */
  method FetchedIdNotFlushed() returns (db: Db)
    ensures db.Mem() == After(INITIAL, Call(JUST_FETCH, true, NEVER_FAILS)) && db.disk != db.Mem()
  {
    db := new Db.Create({DB_WRITE});
    var calls := [Call(JUST_FETCH, true, NEVER_FAILS)];
    RunThenFlush(db, calls);
    assert !Known(INITIAL, calls[0].op);
    assert calls[..0] == [];
  }

  /**
   The process dies after the first of the six syncs: the file of executables holds an id
   that the counter on disk will hand out again.
   */
  lemma SyncDiesEarly()
    ensures !Valid(Synced(INITIAL, After(INITIAL, Call(JUST_FETCH, true, NEVER_FAILS)), 1))
  {
    var call := Call(JUST_FETCH, true, NEVER_FAILS);
    CallKnows(INITIAL, call);
    var files := Synced(INITIAL, After(INITIAL, call), 1);
    assert "/e" in files.exec.fwd && files.Bound() == 0;
  }
}
