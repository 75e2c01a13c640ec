/** What is on disk: __db_sync writes the six tables one after the other. */
module Persistence {
  import opened Accesses
  import opened Histories
  import opened IdArithmetic
  import opened Limits
  import opened UsageTables

  /** The files after the first n of the six gdbm_sync calls. */
  function Synced(disk: Tables, mem: Tables, n: nat): Tables {
    Tables(
      Index(if n >= 1 then mem.exec.fwd else disk.exec.fwd, if n >= 2 then mem.exec.rev else disk.exec.rev),
      Index(if n >= 3 then mem.file.fwd else disk.file.fwd, if n >= 4 then mem.file.rev else disk.file.rev),
      if n >= 5 then mem.evnt else disk.evnt,
      if n >= 6 then mem.idtb else disk.idtb)
  }

  /** The files lag behind memory, and the event file only while `dirty` is set. */
  ghost predicate LagsBehind(disk: Tables, mem: Tables, dirty: bool) {
    && Valid(disk) && Valid(mem) && Grows(disk, mem)
    && (!dirty ==> disk.evnt == mem.evnt)
  }

  /** Wherever __db_sync stops, every event row on disk still has both its names on disk, the names it has in memory. */
  lemma StoppedSyncResolves(disk: Tables, mem: Tables, dirty: bool, n: nat)
    requires LagsBehind(disk, mem, dirty)
    ensures var files := Synced(disk, mem, n);
            && RowsResolve(files)
            && forall k | k in files.evnt ::
                 && k.execId in mem.exec.rev && files.exec.rev[k.execId] == mem.exec.rev[k.execId]
                 && k.fileId in mem.file.rev && files.file.rev[k.fileId] == mem.file.rev[k.fileId]
  {}

  /** No id has been handed out since the given forward tables were written. */
  predicate NoNewIds(disk: Index, mem: Index) {
    mem.fwd.Keys <= disk.fwd.Keys
  }

  /**
   The id table comes last.  Files left by a stopped sync are valid again exactly when it
   did not stop between writing new ids and writing the counter.
   */
  lemma StoppedSyncValidIff(disk: Tables, mem: Tables, dirty: bool, n: nat)
    requires LagsBehind(disk, mem, dirty)
    ensures Valid(Synced(disk, mem, n)) <==>
      n >= 6 || ((n >= 1 ==> NoNewIds(disk.exec, mem.exec)) && (n >= 3 ==> NoNewIds(disk.file, mem.file)))
  {
    var files := Synced(disk, mem, n);
    StoppedSyncResolves(disk, mem, dirty, n);
    if n >= 6 {
      assert files == mem;
    } else {
      StoppedSyncIndex(disk, mem, dirty, n, Exec);
      StoppedSyncIndex(disk, mem, dirty, n, File);
      StoppedSyncDisjoint(disk, mem, dirty, n);
    }
  }

  lemma StoppedSyncIndex(disk: Tables, mem: Tables, dirty: bool, n: nat, side: Side)
    requires LagsBehind(disk, mem, dirty) && n < 6
    ensures var first := if side.Exec? then 1 else 3;
            IndexValid(Synced(disk, mem, n).On(side), disk.Bound())
            <==> (n >= first ==> NoNewIds(disk.On(side), mem.On(side)))
  {
    var first := if side.Exec? then 1 else 3;
    var d, m := disk.On(side), mem.On(side);
    var files := Synced(disk, mem, n).On(side);
    if n < first {
      assert files == d;
    } else {
      assert files == Index(m.fwd, if n > first then m.rev else d.rev);
      WrittenForward(d, m, files, disk.Bound(), mem.Bound());
    }
  }

  /** A forward table that was written is valid with the old counter exactly if it has no new ids. */
  lemma WrittenForward(d: Index, m: Index, files: Index, bound: int, bound': int)
    requires IndexValid(d, bound) && IndexValid(m, bound') && IndexGrows(d, m, bound)
    requires files.fwd == m.fwd && (files.rev == m.rev || files.rev == d.rev)
    ensures IndexValid(files, bound) <==> NoNewIds(d, m)
  {
    if NoNewIds(d, m) {
      assert d.fwd == m.fwd;
    } else {
      var p :| p in m.fwd && p !in d.fwd;
      assert m.fwd[p] >= bound;
    }
  }

  lemma StoppedSyncDisjoint(disk: Tables, mem: Tables, dirty: bool, n: nat)
    requires LagsBehind(disk, mem, dirty)
    ensures Disjoint(Synced(disk, mem, n).exec, Synced(disk, mem, n).file)
  {
    var files := Synced(disk, mem, n);
    forall p, q | p in files.exec.fwd && q in files.file.fwd
      ensures files.exec.fwd[p] != files.file.fwd[q]
    {
      assert p in mem.exec.fwd && q in mem.file.fwd;
    }
  }

  /** No id has been taken and no reverse entry made since the files were written. */
  predicate NothingNew(disk: Tables, mem: Tables) {
    disk.idtb == mem.idtb && |disk.exec.rev| == |mem.exec.rev| && |disk.file.rev| == |mem.file.rev|
  }

  lemma {:induction false} NoMoreKeys<K, V>(a: map<K, V>, b: map<K, V>)
    requires forall k | k in a :: k in b && b[k] == a[k]
    requires |a| == |b|
    ensures a == b
  {
    SubsetSize(a.Keys, b.Keys);
  }

  /** With all rows on disk, the files are up to date exactly if nothing is new. */
  lemma NothingNewIffWritten(disk: Tables, mem: Tables)
    requires LagsBehind(disk, mem, false)
    ensures disk == mem <==> NothingNew(disk, mem)
  {
    if NothingNew(disk, mem) {
      assert disk.Bound() == mem.Bound();
      NoMoreEntries(disk.exec, mem.exec, mem.Bound());
      NoMoreEntries(disk.file, mem.file, mem.Bound());
    }
  }

  /** Where the counter and the number of reverse entries are the same, so are the tables. */
  lemma NoMoreEntries(disk: Index, mem: Index, bound: int)
    requires IndexGrows(disk, mem, bound) && IndexValid(mem, bound) && |disk.rev| == |mem.rev|
    ensures disk == mem
  {
    NoMoreKeys(disk.rev, mem.rev);
    assert disk.fwd == mem.fwd;
  }

  lemma WrittenLags(disk: Tables, mem: Tables, dirty: bool)
    requires LagsBehind(disk, mem, dirty)
    ensures LagsBehind(mem, mem, false)
  {}

  // ------------------------------------------------------------ runs of calls

  /** How a handle stands: its tables, its files and mark, whether every unlock syncs, and whether it may write. */
  datatype Standing = Standing(mem: Tables, disk: Tables, dirty: bool, syncs: bool, writable: bool)

  /** Files only lag behind, and not at all if every unlock syncs; only a writer sets the mark. */
  ghost predicate Sound(st: Standing) {
    && LagsBehind(st.disk, st.mem, st.dirty)
    && (st.dirty ==> st.writable)
    && (st.syncs ==> st.disk == st.mem)
  }

  /** What n calls do to files and mark. */
  predicate Follows(o: Standing, n: nat, st: Standing) {
    if n == 0 then st == o
    else
      && st.syncs == o.syncs && st.writable == o.writable
      && (st.dirty ==> o.dirty || o.writable)
      && if o.syncs then st.disk == st.mem && !st.dirty
         else st.disk == o.disk && (o.dirty || st.mem.evnt != o.mem.evnt ==> st.dirty)
  }

  /** What db_flush does to files and mark. */
  lemma FlushSound(o: Standing, st: Standing)
    requires Sound(o)
    requires st == if o.dirty then o.(disk := o.mem, dirty := false) else o
    ensures Sound(st) && st.disk.evnt == st.mem.evnt
    ensures st.disk == st.mem <==> o.dirty || NothingNew(o.disk, o.mem)
  {
    if o.dirty {
      WrittenLags(o.disk, o.mem, true);
    } else {
      NothingNewIffWritten(o.disk, o.mem);
    }
  }

  lemma FollowsOn(o: Standing, n: nat, st: Standing, m: nat, st': Standing)
    requires Follows(o, n, st) && Follows(st, m, st')
    ensures Follows(o, n + m, st')
  {}

  /** Any run of calls, whatever fails, keeps files and tables in their relation. */
  lemma RunSound(o: Standing, calls: seq<Call>, st: Standing)
    requires Sound(o) && o.mem.Bound() + 2 * |calls| < TWO_64
    requires Follows(o, |calls|, st) && st.mem == Replay(o.mem, calls)
    ensures Sound(st)
  {
    RunKeeps(o.mem, calls);
    if st.disk == o.disk {
      GrowsTransitive(o.disk, o.mem, st.mem);
    }
  }

  lemma CallSound(o: Standing, call: Call, st: Standing)
    requires Sound(o) && o.mem.Bound() + 2 < TWO_64
    requires Follows(o, 1, st) && st.mem == After(o.mem, call)
    ensures Sound(st)
  {
    assert [call][..0] == [];
    assert Replay(o.mem, [call]) == After(o.mem, call);
    RunSound(o, [call], st);
  }
}
