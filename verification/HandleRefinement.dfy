/**
 The class Db and its iterator do what a handle of the interleaving model does: every
 operation, started on an object that matches a handle, ends on one that matches the
 handle after the corresponding actions.
 */
module HandleRefinement {
  import opened Accesses
  import opened Database
  import opened Handles
  import opened Limits
  import opened UsageTables
  import opened Wrappers
  import S = Search

  /** The object is handle i: same mode, same depth, same lock, same tables. */
  ghost predicate Tracks(db: Db, s: System, i: nat)
    reads db
  {
    && i < |s.handles| && db.Locking()
    && db.Writable() == s.handles[i].writer && db.lockDepth == s.handles[i].depth
    && db.Mem() == s.t
    && db.flock == if i !in s.holders then Unlocked else if s.handles[i].writer then Exclusive else Shared
  }

  // ----------------------------------------------------------- locks and calls

  method LockTracks(db: Db, ghost s: System, ghost i: nat)
    requires Tracks(db, s, i) && Enabled(s, Action.Lock(i))
    modifies db`lockDepth, db`flock
    ensures Tracks(db, Do(s, Action.Lock(i)), i)
  {
    db.Lock();
  }

  method UnlockTracks(db: Db, ghost s: System, ghost i: nat) returns (rc: int)
    requires Tracks(db, s, i) && Enabled(s, Action.Unlock(i))
    modifies db`lockDepth, db`flock, db`disk, db`dirty
    ensures Tracks(db, Do(s, Action.Unlock(i)), i)
  {
    rc := db.Unlock();
  }

  /** A lookup of an id locks and unlocks. */
  ghost function Learned(s: System, i: nat, name: Name): System
    requires Enabled(s, Action.Lock(i))
  {
    Do(Do(Do(s, Action.Lock(i)), Learn(i, name)), Action.Unlock(i))
  }

  /** db_exec_get_id, db_file_get_id */
  method LearnTracks(db: Db, name: Name, ghost s: System, ghost i: nat) returns (id: u64)
    requires Tracks(db, s, i) && Enabled(s, Action.Lock(i)) && Valid(s.t)
    modifies db`gdbmErrno, db`lockDepth, db`flock, db`disk, db`dirty
    ensures Tracks(db, Learned(s, i, name), i)
    ensures var ids := Learned(s, i, name).handles[i].ids;
            id != NOT_FOUND ==> name in ids && ids[name] == id
  {
    id := db.LookUpId(name.side, name.path);
  }

  /** All remaining accesses of the call of handle i, with no other handle in between. */
  ghost function Accessed(s: System, i: nat): System
    requires i < |s.handles| && s.handles[i].task.Working?
    decreases Rank(s.handles[i].task.proc.pc)
  {
    if s.handles[i].task.proc.pc.Returned? then s else Accessed(Do(s, Access(i)), i)
  }

  lemma {:induction false} AccessedFinishes(s: System, i: nat)
    requires i < |s.handles| && s.handles[i].task.Working?
    ensures var task := s.handles[i].task;
            var (t', p') := Finish(s.t, task.proc, task.call);
            Accessed(s, i) == SetTask(s, i, task.(proc := p')).(t := t')
    decreases Rank(s.handles[i].task.proc.pc)
  {
    if s.handles[i].task.proc.pc.Returned? {
      assert SetTask(s, i, s.handles[i].task) == s;
    } else {
      AccessedFinishes(Do(s, Access(i)), i);
      assert Accessed(s, i).handles ==
        SetTask(s, i, Accessed(s, i).handles[i].task).handles;
    }
  }

  /** A whole call of handle i. */
  ghost function Called(s: System, i: nat, call: Call): System
    requires Enabled(s, Begin(i, call))
  {
    AccessedFinishes(Do(s, Begin(i, call)), i);
    Do(Accessed(Do(s, Begin(i, call)), i), Return(i))
  }

  lemma CalledIs(s: System, i: nat, call: Call)
    requires Enabled(s, Begin(i, call))
    ensures var s' := Called(s, i, call);
            && s'.t == After(s.t, call) && s'.log == s.log + [call]
            && s'.handles == s.handles
            && s'.holders == if s.handles[i].depth == 0 then s.holders + {i} - {i} else s.holders + {i}
  {
    AccessedFinishes(Do(s, Begin(i, call)), i);
    assert Called(s, i, call).handles == s.handles;
  }

  /** db_update and db_fetch */
  method CallTracks(db: Db, call: Call, ghost s: System, ghost i: nat) returns (rc: int)
    requires Tracks(db, s, i) && Enabled(s, Begin(i, call))
    modifies db
    ensures Tracks(db, Called(s, i, call), i) && rc == ReturnCode(s.t, call)
  {
    if call.op.change.Some? {
      rc := db.Update(call);
    } else {
      var row;
      rc, row := db.Fetch(call, ZERO);
    }
    CalledIs(s, i, call);
  }

  // -------------------------------------------------------------------- scans

  /** The iterator stands where the scan of handle i stands. */
  ghost predicate TracksScan(it: S.Iterator, s: System, i: nat)
    reads it, it.dbc
  {
    && Tracks(it.dbc, s, i) && it.Ready()
    && s.handles[i].task.Scanning?
    && it.key == s.handles[i].task.scan.key && it.pending == s.handles[i].task.scan.todo
  }

  /** db_fusg_stats_first */
  method FirstTracks(db: Db, ghost s: System, ghost i: nat, ghost about: Option<Name>) returns (it: S.Iterator)
    requires Tracks(db, s, i) && s.handles[i].task.Idle? && Grantable(s, i)
    requires about.Some? ==> about.value in s.handles[i].ids
    modifies db`lockDepth, db`flock
    ensures fresh(it) && it.dbc == db && Enabled(s, StartScan(i, about, it.key))
    ensures TracksScan(it, Do(s, StartScan(i, about, it.key)), i)
  {
    it := new S.Iterator.First(db);
  }

  /** db_iterator_next */
  method NextTracks(it: S.Iterator, ghost s: System, ghost i: nat) returns (rc: int)
    requires TracksScan(it, s, i) && it.key.Some? && s.handles[i].task.scan.phase.NextKey?
    modifies it`key, it`pending
    ensures Enabled(s, ScanStep(i, it.key)) && TracksScan(it, Do(s, ScanStep(i, it.key)), i)
    ensures rc == 0 <==> it.key.Some?
  {
    rc := it.Next();
  }

  /** db_iterator_fetch */
  method FetchTracks(it: S.Iterator, buffer: Stats, ghost s: System, ghost i: nat) returns (rc: int, row: Stats)
    requires TracksScan(it, s, i) && it.key.Some? && s.handles[i].task.scan.phase.FetchStats?
    modifies it.dbc`gdbmErrno
    ensures TracksScan(it, Do(s, ScanStep(i, None)), i)
    ensures rc == 0 && row == Do(s, ScanStep(i, None)).handles[i].task.scan.line.stats
  {
    rc, row := it.Fetch(Works, buffer);
  }

  /** The three steps of a name lookup. */
  ghost function LookedUp(s: System, i: nat): System
    requires i < |s.handles| && s.handles[i].task.Scanning?
    requires s.handles[i].task.scan.key.Some? && s.handles[i].task.scan.phase.LockName?
  {
    var step := ScanStep(i, None);
    Do(Do(Do(s, step), step), step)
  }

  /** db_exec_get_executable, db_file_get_file */
  method LookUpTracks(it: S.Iterator, side: Side, size: nat, ghost s: System, ghost i: nat)
    returns (rc: int, path: string)
    requires TracksScan(it, s, i) && it.key.Some? && s.handles[i].task.scan.phase == LockName(side)
    requires size > 0
    modifies it.dbc`gdbmErrno, it.dbc`lockDepth, it.dbc`flock, it.dbc`disk, it.dbc`dirty
    ensures TracksScan(it, LookedUp(s, i), i)
    ensures rc == 0 ==> path == LookedUp(s, i).handles[i].task.scan.line.NameOn(side)
  {
    rc, path := it.dbc.LookUpPath(side, IdOn(it.key.value, side), size);
  }

  /** db_iterator_release */
  method ReleaseTracks(it: S.Iterator, ghost s: System, ghost i: nat)
    requires TracksScan(it, s, i) && it.key.None?
    modifies it`haveLock, it`key, it.dbc`lockDepth, it.dbc`flock, it.dbc`disk, it.dbc`dirty
    ensures Tracks(it.dbc, Do(s, EndScan(i)), i)
  {
    it.Release();
  }
}
