/** db.c: one database handle, with its tables in memory and their files. */
module Database {
  import opened Accesses
  import opened CallLaws
  import opened Histories
  import opened IdArithmetic
  import opened Limits
  import opened Persistence
  import opened UsageTables
  import opened Wrappers

  datatype OpenFlag = DB_READ | DB_WRITE | DB_SYNC

  datatype GdbmErrno = ItemNotFound | OtherError

  /** The lock that flock holds for this handle. */
  datatype Flock = Unlocked | Shared | Exclusive

  /** What the inspection of the directory has found. */
  datatype Health = DB_HEALTHY | DB_NOTFOUND | DB_NOACCESS | DB_CORRUPTED

  /** The number of tables, and so of the gdbm_sync calls of one sync. */
  const SYNCS := 6

  class Db {
    var openFlags: set<OpenFlag>
    var dirty: bool
    var lockDepth: nat
    var flock: Flock
    var gdbmErrno: GdbmErrno

    var exec: map<string, u64>
    var execr: map<u64, string>
    var file: map<string, u64>
    var filer: map<u64, string>
    var evnt: map<RowKey, Stats>
    var idtb: map<string, u64>

    /** The six files as of their last gdbm_sync. */
    var disk: Tables

    ghost function Mem(): Tables
      reads this
    {
      Tables(Index(exec, execr), Index(file, filer), evnt, idtb)
    }

    predicate Writable()
      reads this
    {
      DB_WRITE in openFlags
    }

    predicate SyncsOnUnlock()
      reads this
    {
      DB_WRITE in openFlags && DB_SYNC in openFlags
    }

    /** The lock is held exactly while the depth is positive, in the mode the handle was opened for. */
    ghost predicate Locking()
      reads this
    {
      flock == if lockDepth == 0 then Unlocked else if Writable() then Exclusive else Shared
    }

    ghost function Standing(): Standing
      reads this
    {
      Persistence.Standing(Mem(), disk, dirty, lockDepth == 0 && SyncsOnUnlock(), Writable())
    }

    /** Between public operations: lock and depth agree, and so do tables, files and mark. */
    ghost predicate Consistent()
      reads this
    {
      Locking() && Sound(Standing())
    }

    /** db_open on a directory that does not exist yet: __db_id_init and a first sync. */
    constructor Create(flags: set<OpenFlag>)
      requires DB_WRITE in flags
      ensures openFlags == flags && lockDepth == 0 && !dirty
      ensures Mem() == INITIAL && disk == INITIAL && Consistent()
    {
      openFlags, dirty, lockDepth, flock, gdbmErrno := flags, false, 0, Unlocked, ItemNotFound;
      exec, execr, file, filer, evnt, idtb := map[], map[], map[], map[], map[], map[];
      disk := Tables(Index(map[], map[]), Index(map[], map[]), map[], map[]);
      new;
      Lock();
      idtb := idtb[ID_ENTRY := 0];
      SyncTables(SYNCS);
      var _ := Unlock();
    }

    /** db_open on existing files. */
    constructor Attach(flags: set<OpenFlag>, files: Tables)
      ensures openFlags == flags && lockDepth == 0 && !dirty
      ensures Mem() == files && disk == files && Locking()
      ensures Valid(files) ==> Consistent()
    {
      openFlags, dirty, lockDepth, flock, gdbmErrno := flags, false, 0, Unlocked, ItemNotFound;
      exec, execr, file, filer := files.exec.fwd, files.exec.rev, files.file.fwd, files.file.rev;
      evnt, idtb := files.evnt, files.idtb;
      disk := files;
      new;
      Lock();
      var _ := Unlock();
    }

    /**
     db_open; None is NULL.  `files` is what healthy files hold, `opens` says which of the
     six gdbm_open calls work, `stored` whether a new id table takes its first entry.
     */
    static method Open(flags: set<OpenFlag>, health: Health, files: Tables,
                       madeDir: bool, opens: nat -> bool, stored: bool)
      returns (dbc: Option<Db>)
      ensures dbc.Some? <==>
        && (forall k | 0 <= k < SYNCS :: opens(k))
        && (health.DB_HEALTHY? || (health.DB_NOTFOUND? && DB_WRITE in flags && madeDir && stored))
      ensures dbc.Some? ==>
        var db := dbc.value;
        && fresh(db) && db.openFlags == flags && db.lockDepth == 0 && db.Locking() && !db.dirty
        && db.Mem() == db.disk == (if health.DB_HEALTHY? then files else INITIAL)
        && (Valid(db.disk) ==> db.Consistent())
    {
      match health {
        case DB_HEALTHY =>
        case DB_NOTFOUND =>
          if DB_WRITE !in flags || !madeDir { return None; }
        case DB_NOACCESS => return None;
        case DB_CORRUPTED => return None;
      }
      for k := 0 to SYNCS
        invariant forall j | 0 <= j < k :: opens(j)
      {
        if !opens(k) { return None; }
      }
      var db;
      if health.DB_NOTFOUND? {
        if !stored { return None; }
        db := new Db.Create(flags);
      } else {
        db := new Db.Attach(flags, files);
      }
      return Some(db);
    }

    // ----------------------------------------------------------- locking

    /** db_lock; flock itself is assumed to succeed. */
    method Lock()
      requires Locking()
      modifies this`lockDepth, this`flock
      ensures Locking() && lockDepth == old(lockDepth) + 1
      ensures flock == if DB_WRITE in openFlags then Exclusive else Shared
    {
      if lockDepth == 0 {
        flock := if Writable() then Exclusive else Shared;
      }
      lockDepth := lockDepth + 1;
    }

    /** db_unlock: only the outermost one syncs and gives the lock back. */
    method Unlock() returns (rc: int)
      requires Locking()
      modifies this`lockDepth, this`flock, this`disk, this`dirty
      ensures Locking() && (flock.Unlocked? <==> lockDepth == 0)
      ensures lockDepth > 0 ==> flock == old(flock)
      ensures rc == if old(lockDepth) == 0 then -1 else 0
      ensures lockDepth == if old(lockDepth) == 0 then 0 else old(lockDepth) - 1
      ensures if old(lockDepth) == 1 && SyncsOnUnlock() then disk == Mem() && !dirty
              else disk == old(disk) && dirty == old(dirty)
    {
      if lockDepth == 0 {
        return -1;
      }
      lockDepth := lockDepth - 1;
      if lockDepth == 0 {
        if SyncsOnUnlock() {
          SyncTables(SYNCS);
        }
        flock := Unlocked;
      }
      return 0;
    }

    // ------------------------------------------------------- persistence

    /**
     __db_sync, table by table.  `steps` is how many of its gdbm_sync calls are made:
     fewer than all if the process dies in between.
     */
    method SyncTables(steps: nat)
      modifies this`disk, this`dirty
      ensures disk == if Writable() then Synced(old(disk), Mem(), steps) else old(disk)
      ensures dirty == (old(dirty) && !(Writable() && steps >= SYNCS))
      ensures Writable() && steps >= SYNCS ==> disk == Mem()
    {
      if Writable() {
        if steps >= 1 { disk := disk.(exec := disk.exec.(fwd := exec)); }
        if steps >= 2 { disk := disk.(exec := disk.exec.(rev := execr)); }
        if steps >= 3 { disk := disk.(file := disk.file.(fwd := file)); }
        if steps >= 4 { disk := disk.(file := disk.file.(rev := filer)); }
        if steps >= 5 { disk := disk.(evnt := evnt); }
        if steps >= 6 { disk := disk.(idtb := idtb); dirty := false; }
      }
    }

    /**
     db_flush: writes the tables only if a row may have changed since the last sync.  Without
     that mark they are on disk exactly if no counter and no reverse entry is new.
     */
    method Flush() returns (rc: int)
      requires Consistent()
      modifies this`lockDepth, this`flock, this`disk, this`dirty
      ensures Consistent() && lockDepth == old(lockDepth) && rc == 0
      ensures !dirty && disk.evnt == evnt
      ensures disk == if old(dirty) then Mem() else old(disk)
      ensures disk == Mem() <==> old(dirty) || NothingNew(old(disk), Mem())
    {
      rc := 0;
      if dirty {
        Lock();
        SyncTables(SYNCS);
        rc := Unlock();
      }
      FlushSound(old(Standing()), Standing());
    }

    // -------------------------------------------------- the table accesses

    /** __db_fetch_str_long: NULL sets gdbm_errno. */
    method FetchStrLong(table: map<string, u64>, key: string, outcome: Outcome) returns (value: Option<u64>)
      modifies this`gdbmErrno
      ensures value == if outcome.Works? && key in table then Some(table[key]) else None
      ensures value.None? ==> (gdbmErrno.ItemNotFound? <==> outcome.Works?)
    {
      if !outcome.Works? {
        gdbmErrno := OtherError;
        return None;
      }
      if key !in table {
        gdbmErrno := ItemNotFound;
        return None;
      }
      return Some(table[key]);
    }

    /** __db_check_expected_notfound */
    method CheckExpectedNotFound() returns (rc: int)
      ensures rc == if gdbmErrno.ItemNotFound? then 0 else -1
    {
      return if gdbmErrno.ItemNotFound? then 0 else -1;
    }

    /** __db_id_next: hands out the counter and stores its successor, which wraps at 2^64. */
    method IdNext(side: Side, ghost p: Proc, call: Call) returns (rc: int, next: u64, ghost p': Proc)
      requires p.pc == At(FetchCounter(side)) && call.writable == Writable()
      modifies this`gdbmErrno, this`idtb
      ensures Finish(Mem(), p', call) == Finish(old(Mem()), p, call)
      ensures rc == 0 || rc == -1
      ensures rc == 0 ==> p' == p.WithId(side, next).(pc := At(StoreId(side)))
      ensures rc == -1 ==> p'.pc == Returned(-1)
    {
      next := 0;
      var id := FetchStrLong(idtb, ID_ENTRY, call.answers(FetchCounter(side)));
      p' := Step(Mem(), p, call).1;
      if id.None? {
        return -1, next, p';
      }
      next := id.value;
      var p1 := p';
      p' := Step(Mem(), p1, call).1;
      if call.Stored(StoreCounter(side)) == 0 {
        idtb := idtb[ID_ENTRY := (next + 1) % TWO_64];
        rc := 0;
      } else {
        rc := -1;
      }
    }

    /** __db_store_str_long into the forward table of a side; +1 and -1 of gdbm_store both become -1. */
    method StoreStrLong(side: Side, key: string, value: u64, stored: int) returns (rc: int)
      modifies this`exec, this`file
      ensures rc == if stored == 0 then 0 else -1
      ensures Mem() == if stored == 0 then
                old(Mem()).With(side, old(Mem()).On(side).(fwd := old(Mem()).On(side).fwd[key := value]))
              else old(Mem())
    {
      if stored != 0 {
        return -1;
      }
      if side.Exec? {
        exec := exec[key := value];
      } else {
        file := file[key := value];
      }
      return 0;
    }

    /** __db_store_long_str into the reverse table of a side. */
    method StoreLongStr(side: Side, key: u64, value: string, stored: int) returns (rc: int)
      modifies this`execr, this`filer
      ensures rc == if stored == 0 then 0 else -1
      ensures Mem() == if stored == 0 then
                old(Mem()).With(side, old(Mem()).On(side).(rev := old(Mem()).On(side).rev[key := value]))
              else old(Mem())
    {
      if stored != 0 {
        return -1;
      }
      if side.Exec? {
        execr := execr[key := value];
      } else {
        filer := filer[key := value];
      }
      return 0;
    }

    /** __db_get_or_create_unique_id: takes the call from FetchId to StorePath, or ends it with -1. */
    method GetOrCreateUniqueId(side: Side, ghost p: Proc, call: Call) returns (rc: int, id: u64, ghost p': Proc)
      requires p.pc == At(FetchId(side)) && call.writable == Writable()
      modifies this`gdbmErrno, this`idtb, this`exec, this`file
      ensures Finish(Mem(), p', call) == Finish(old(Mem()), p, call)
      ensures rc == 0 || rc == -1
      ensures rc == 0 ==> p' == p.WithId(side, id).(pc := At(StorePath(side)))
      ensures rc == -1 ==> p'.pc == Returned(-1)
    {
      var path := call.op.Path(side);
      id := 0;
      rc := 0;
      var known := FetchStrLong(if side.Exec? then exec else file, path, call.answers(FetchId(side)));
      p' := Step(Mem(), p, call).1;
      if known.None? {
        rc := CheckExpectedNotFound();
        if rc == -1 { return; }
        rc, id, p' := IdNext(side, p', call);
        if rc == -1 { return; }
        ghost var t1, p1 := Mem(), p';
        p' := Step(t1, p1, call).1;
        rc := StoreStrLong(side, path, id, call.Stored(StoreId(side)));
        assert Step(t1, p1, call) == (Mem(), p');
      } else {
        id := known.value;
      }
    }

    /** __db_get_fusg_key: takes the call up to the row accesses, or ends it with -1. */
    method GetFusgKey(call: Call) returns (rc: int, key: RowKey, ghost p': Proc)
      requires call.writable == Writable()
      modifies this`gdbmErrno, this`idtb, this`exec, this`file, this`execr, this`filer
      ensures Finish(Mem(), p', call) == Finish(old(Mem()), START, call)
      ensures rc == 0 || rc == -1
      ensures rc == 0 ==> p'.pc == At(FetchRow) && p'.Key() == key && Writable()
      ensures rc == -1 ==> p'.pc == Returned(-1)
      ensures evnt == old(evnt)
    {
      var execId, fileId := 0, 0;
      key := RowKey(0, 0);
      rc, execId, p' := GetOrCreateUniqueId(Exec, START, call);
      if rc != 0 { return; }
      rc, p' := StorePathOf(Exec, execId, p', call);
      if rc != 0 { return; }
      rc, fileId, p' := GetOrCreateUniqueId(File, p', call);
      if rc != 0 { return; }
      rc, p' := StorePathOf(File, fileId, p', call);
      key := RowKey(execId, fileId);
    }

    method StorePathOf(side: Side, id: u64, ghost p: Proc, call: Call) returns (rc: int, ghost p': Proc)
      requires p.pc == At(StorePath(side)) && p.Id(side) == id && call.writable == Writable()
      modifies this`execr, this`filer
      ensures Finish(Mem(), p', call) == Finish(old(Mem()), p, call)
      ensures rc == 0 || rc == -1
      ensures p' == p.(pc := if rc == 0 then At(AfterPath(side)) else Returned(-1))
      ensures rc == 0 ==> Writable()
    {
      ghost var t := Mem();
      p' := Step(t, p, call).1;
      rc := StoreLongStr(side, id, call.op.Path(side), call.Stored(StorePath(side)));
      assert Step(t, p, call) == (Mem(), p');
    }

    /** __db_evnt_fetch */
    method EvntFetch(key: RowKey, outcome: Outcome) returns (row: Option<Stats>)
      modifies this`gdbmErrno
      ensures row == if outcome.Works? && key in evnt then Some(evnt[key]) else None
      ensures row.None? ==> (gdbmErrno.ItemNotFound? <==> outcome.Works?)
    {
      if !outcome.Works? {
        gdbmErrno := OtherError;
        return None;
      }
      if key !in evnt {
        gdbmErrno := ItemNotFound;
        return None;
      }
      return Some(evnt[key]);
    }

    // --------------------------------------------------- update and fetch

    /** The part of db_update between lock and unlock. */
    method LockedUpdate(call: Call) returns (rc: int)
      requires call.op.change.Some? && call.writable == Writable()
      modifies this`gdbmErrno, this`idtb, this`exec, this`file, this`execr, this`filer, this`evnt, this`dirty
      ensures Mem() == After(old(Mem()), call) && rc == ReturnCode(old(Mem()), call)
      ensures old(dirty) || evnt != old(evnt) || rc == 0 ==> dirty
      ensures dirty ==> old(dirty) || Writable()
    {
      var key;
      ghost var p;
      rc, key, p := GetFusgKey(call);
      if rc != -1 {
        rc := ChangeRow(key, p, call);
      }
    }

    /** The rest of db_update: reads the row, counts, and stores it. */
    method ChangeRow(key: RowKey, ghost p: Proc, call: Call) returns (rc: int)
      requires p.pc == At(FetchRow) && p.Key() == key
      requires call.op.change.Some? && call.writable == Writable()
      modifies this`gdbmErrno, this`evnt, this`dirty
      ensures (Mem(), p.(row := RowBefore(old(Mem()), key, call), pc := Returned(rc))) == Finish(old(Mem()), p, call)
      ensures dirty
    {
      ghost var t := Mem();
      var row := EvntFetch(key, call.answers(FetchRow));
      var change := call.op.change.value;
      var stats := Updated(if row.Some? then row.value else ZERO, change.flags, change.timestamp);
      ghost var p1 := Step(t, p, call).1;
      assert Step(t, p, call).0 == t && p1 == p.(row := row, pc := At(StoreRow));
      rc := call.Stored(StoreRow);
      if rc == 0 {
        evnt := evnt[key := stats];
      }
      dirty := true;
      ghost var p2 := p1.(pc := Returned(rc));
      assert Step(t, p1, call) == (Mem(), p2);
      assert Finish(Mem(), p2, call) == (Mem(), p2);
      assert Finish(t, p1, call) == Finish(Mem(), p2, call);
    }

    /** db_update, as far as tables, lock and mark go. */
    method UpdateUnderLock(call: Call) returns (rc: int)
      requires call.op.change.Some? && call.writable == Writable() && Locking()
      modifies this
      ensures Mem() == After(old(Mem()), call) && rc == ReturnCode(old(Mem()), call)
      ensures Locking() && lockDepth == old(lockDepth) && openFlags == old(openFlags)
      ensures if lockDepth == 0 && SyncsOnUnlock() then disk == Mem() && !dirty
              else disk == old(disk) && (old(dirty) || evnt != old(evnt) || rc == 0 ==> dirty)
      ensures dirty ==> old(dirty) || Writable()
    {
      Lock();
      rc := LockedUpdate(call);
      var _ := Unlock();
    }

    /** db_update */
    method Update(call: Call) returns (rc: int)
      requires call.op.change.Some? && call.writable == Writable() && Locking()
      modifies this
      ensures Mem() == After(old(Mem()), call) && rc == ReturnCode(old(Mem()), call)
      ensures Locking() && lockDepth == old(lockDepth) && openFlags == old(openFlags)
      ensures if lockDepth == 0 && SyncsOnUnlock() then disk == Mem() && !dirty
              else disk == old(disk) && (old(dirty) || evnt != old(evnt) || rc == 0 ==> dirty)
      ensures dirty ==> old(dirty) || Writable()
      ensures old(Consistent()) && old(Mem()).Bound() + 2 < TWO_64 ==> Consistent()
    {
      rc := UpdateUnderLock(call);
      if old(Consistent()) && old(Mem()).Bound() + 2 < TWO_64 {
        CallSound(old(Standing()), call, Standing());
      }
    }

    /** The part of db_fetch between lock and unlock; without a row the caller's buffer stays. */
    method LockedFetch(call: Call, buffer: Stats) returns (rc: int, stats: Stats)
      requires call.op.change.None? && call.writable == Writable()
      modifies this`gdbmErrno, this`idtb, this`exec, this`file, this`execr, this`filer
      ensures Mem() == After(old(Mem()), call) && rc == ReturnCode(old(Mem()), call)
      ensures stats == Fetched(old(Mem()), call, buffer)
    {
      stats := buffer;
      var key;
      ghost var p;
      rc, key, p := GetFusgKey(call);
      if rc != -1 {
        var row := EvntFetch(key, call.answers(FetchRow));
        ghost var p1 := Step(Mem(), p, call).1;
        if row.None? {
          rc := CheckExpectedNotFound();
        } else {
          stats := row.value;
        }
        assert Step(Mem(), p, call) == (Mem(), p1) && p1.pc == Returned(rc);
        assert Finish(Mem(), p1, call) == (Mem(), p1);
      }
    }

    /** db_fetch, as far as tables, lock and mark go. */
    method FetchUnderLock(call: Call, buffer: Stats) returns (rc: int, stats: Stats)
      requires call.op.change.None? && call.writable == Writable() && Locking()
      modifies this
      ensures Mem() == After(old(Mem()), call) && rc == ReturnCode(old(Mem()), call)
      ensures stats == Fetched(old(Mem()), call, buffer) && evnt == old(evnt)
      ensures Locking() && lockDepth == old(lockDepth) && openFlags == old(openFlags)
      ensures if lockDepth == 0 && SyncsOnUnlock() then disk == Mem() && !dirty
              else disk == old(disk) && dirty == old(dirty)
    {
      Lock();
      rc, stats := LockedFetch(call, buffer);
      var _ := Unlock();
    }

    /** db_fetch */
    method Fetch(call: Call, buffer: Stats) returns (rc: int, stats: Stats)
      requires call.op.change.None? && call.writable == Writable() && Locking()
      modifies this
      ensures Mem() == After(old(Mem()), call) && rc == ReturnCode(old(Mem()), call)
      ensures evnt == old(evnt) && (rc != 0 ==> stats == buffer)
      ensures Valid(old(Mem())) && old(Mem()).Bound() + 2 < TWO_64 && rc == 0 ==>
        && (forall row :: HasRow(old(Mem()), call.op.exe, call.op.file, row) ==> stats == row)
        && ((forall row :: !HasRow(old(Mem()), call.op.exe, call.op.file, row)) ==> stats == buffer)
      ensures Locking() && lockDepth == old(lockDepth) && openFlags == old(openFlags)
      ensures if lockDepth == 0 && SyncsOnUnlock() then disk == Mem() && !dirty
              else disk == old(disk) && dirty == old(dirty)
      ensures old(Consistent()) && old(Mem()).Bound() + 2 < TWO_64 ==> Consistent()
    {
      rc, stats := FetchUnderLock(call, buffer);
      if Valid(old(Mem())) && old(Mem()).Bound() + 2 < TWO_64 && rc == 0 {
        FetchFinds(old(Mem()), call, buffer);
      }
      if old(Consistent()) && old(Mem()).Bound() + 2 < TWO_64 {
        CallSound(old(Standing()), call, Standing());
      }
    }

    // ------------------------------------------------------------ lookups

    /** db_exec_get_id, db_file_get_id */
    method LookUpId(side: Side, path: string) returns (id: u64)
      requires Locking()
      modifies this`gdbmErrno, this`lockDepth, this`flock, this`disk, this`dirty
      ensures id == GetId(Mem(), side, path)
      ensures Locking() && lockDepth == old(lockDepth)
      ensures if lockDepth == 0 && SyncsOnUnlock() then disk == Mem() && !dirty
              else disk == old(disk) && dirty == old(dirty)
    {
      Lock();
      var found := FetchStrLong(if side.Exec? then exec else file, path, Works);
      id := if found.None? then NOT_FOUND else found.value;
      var _ := Unlock();
    }

    /** db_exec_get_executable, db_file_get_file: `size` is the caller's buffer, NUL included. */
    method LookUpPath(side: Side, id: u64, size: nat) returns (rc: int, path: string)
      requires Locking()
      modifies this`gdbmErrno, this`lockDepth, this`flock, this`disk, this`dirty
      ensures var rev := Mem().On(side).rev;
              if id !in rev then rc == -1
              else if |rev[id]| + 1 > size then rc == size
              else rc == 0 && path == rev[id]
      ensures Locking() && lockDepth == old(lockDepth)
      ensures if lockDepth == 0 && SyncsOnUnlock() then disk == Mem() && !dirty
              else disk == old(disk) && dirty == old(dirty)
    {
      Lock();
      path := "";
      var rev := if side.Exec? then execr else filer;
      if id in rev {
        if |rev[id]| + 1 > size {
          rc := size;
        } else {
          rc := 0;
          path := rev[id];
        }
      } else {
        gdbmErrno := ItemNotFound;
        rc := -1;
      }
      var _ := Unlock();
    }
  }
}
