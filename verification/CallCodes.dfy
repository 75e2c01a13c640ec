/** The exact return codes of db_update and db_fetch, and inputs at which they are not what callers are told. */
module CallCodes {
  import opened Accesses
  import opened CallLaws
  import opened Histories
  import opened Limits
  import opened UsageTables
  import opened Wrappers

  /** A path gets its id and its reverse entry: it is known or takes a new id, and every access on the way works. */
  predicate KeyWorks(t: Tables, call: Call, side: Side) {
    && call.answers(FetchId(side)).Works?
    && (call.op.Path(side) in t.On(side).fwd
        || (call.answers(FetchCounter(side)).Works? && ID_ENTRY in t.idtb
            && call.Stored(StoreCounter(side)) == 0 && call.Stored(StoreId(side)) == 0))
    && call.Stored(StorePath(side)) == 0
  }

  /** Same ids on the other side, and a counter if there was one. */
  predicate SameElsewhere(t: Tables, t': Tables, side: Side) {
    t'.On(Other(side)) == t.On(Other(side)) && (ID_ENTRY in t'.idtb <==> ID_ENTRY in t.idtb)
  }

  /** The id of a path that has been looked up or stored. */
  predicate HasId(t: Tables, side: Side, path: string, id: u64) {
    path in t.On(side).fwd && t.On(side).fwd[path] == id
  }

  /** From the counter to the reverse entry, for a path without an id. */
  lemma NewIdCode(t: Tables, p: Proc, call: Call, side: Side) returns (t': Tables, p': Proc)
    requires p.pc == At(FetchCounter(side))
    ensures Finish(t', p', call) == Finish(t, p, call) && SameElsewhere(t, t', side)
    ensures p'.pc ==
      if call.answers(FetchCounter(side)).Works? && ID_ENTRY in t.idtb
         && call.Stored(StoreCounter(side)) == 0 && call.Stored(StoreId(side)) == 0
      then At(StorePath(side)) else Returned(-1)
    ensures p'.pc.At? ==> HasId(t', side, call.op.Path(side), t.Bound())
  {
    t', p' := Step(t, p, call).0, Step(t, p, call).1;
    if p'.pc.At? {
      var t1, p1 := t', p';
      t', p' := Step(t1, p1, call).0, Step(t1, p1, call).1;
      assert Finish(t', p', call) == Finish(t1, p1, call);
    }
    if p'.pc.At? {
      var t2, p2 := t', p';
      t', p' := Step(t2, p2, call).0, Step(t2, p2, call).1;
      assert Finish(t', p', call) == Finish(t2, p2, call);
    }
  }

  /** One half of the key. */
  lemma SideCode(t: Tables, p: Proc, call: Call, side: Side) returns (t': Tables, p': Proc)
    requires p.pc == At(FetchId(side))
    ensures Finish(t', p', call) == Finish(t, p, call) && SameElsewhere(t, t', side)
    ensures p'.pc == if KeyWorks(t, call, side) then At(AfterPath(side)) else Returned(-1)
    ensures var path := call.op.Path(side);
            p'.pc.At? && path !in t.On(side).fwd ==> HasId(t', side, path, t.Bound())
  {
    t', p' := Step(t, p, call).0, Step(t, p, call).1;
    if p'.pc == At(FetchCounter(side)) {
      t', p' := NewIdCode(t', p', call, side);
    }
    if p'.pc.At? {
      var t1, p1 := t', p';
      t', p' := Step(t1, p1, call).0, Step(t1, p1, call).1;
      assert Finish(t', p', call) == Finish(t1, p1, call);
    }
  }

  /** The codes once both halves of the key are there. */
  lemma RowCode(t: Tables, p: Proc, call: Call)
    requires p.pc == At(FetchRow)
    ensures Finish(t, p, call).1.pc ==
      Returned(if call.op.change.Some? then call.Stored(StoreRow)
               else if call.answers(FetchRow).Works? then 0 else -1)
    ensures Finish(t, p, call).0 == t.(evnt := Finish(t, p, call).0.evnt)
  {
    var (t1, p1) := Step(t, p, call);
    if p1.pc.At? {
      var (t2, p2) := Step(t1, p1, call);
      assert Finish(t2, p2, call) == (t2, p2);
    } else {
      assert Finish(t1, p1, call) == (t1, p1);
    }
  }

  /** The return code of every call, from the tables it starts on and the answers it gets. */
  lemma CallCode(t: Tables, call: Call)
    ensures ReturnCode(t, call) ==
      if !KeyWorks(t, call, Exec) || !KeyWorks(t, call, File) then -1
      else if call.op.change.Some? then call.Stored(StoreRow)
      else if call.answers(FetchRow).Works? then 0
      else -1
    ensures ID_ENTRY in After(t, call).idtb <==> ID_ENTRY in t.idtb
  {
    var t1, p1 := SideCode(t, START, call, Exec);
    if p1.pc.At? {
      assert KeyWorks(t1, call, File) <==> KeyWorks(t, call, File);
      var t2, p2 := SideCode(t1, p1, call, File);
      if p2.pc.At? {
        RowCode(t2, p2, call);
      }
    }
  }

  /** db_update returns +1, which its documentation does not know, exactly if gdbm_store refuses the row with +1. */
  lemma UpdatePlusOneIff(t: Tables, call: Call)
    requires call.op.change.Some?
    ensures ReturnCode(t, call) == 1 <==>
      KeyWorks(t, call, Exec) && KeyWorks(t, call, File) && call.answers(StoreRow).Rejected?
    ensures ReturnCode(t, call) in {-1, 0, 1}
  {
    CallCode(t, call);
  }

  /** db_fetch succeeds exactly if its key can be completed, which takes two stores, and the row can be looked for. */
  lemma FetchSucceedsIff(t: Tables, call: Call)
    requires call.op.change.None?
    ensures ReturnCode(t, call) == 0 <==>
      KeyWorks(t, call, Exec) && KeyWorks(t, call, File) && call.answers(FetchRow).Works?
  {
    CallCode(t, call);
  }

  ghost predicate StorageWorks(call: Call) {
    forall site :: call.answers(site).Works?
  }

  /** With working storage and a counter, db_fetch succeeds exactly on handles opened with DB_WRITE. */
  lemma FetchSucceedsIffWritable(t: Tables, call: Call)
    requires call.op.change.None? && StorageWorks(call) && ID_ENTRY in t.idtb
    ensures ReturnCode(t, call) == 0 <==> call.writable
  {
    FetchSucceedsIff(t, call);
  }

  // ------------------------------------------------------- inputs that fail

  const NEVER_FAILS: Site -> Outcome := site => Works

  function WorksBut(site: Site, outcome: Outcome): Site -> Outcome {
    s => if s == site then outcome else Works
  }

  /** One executable, one file, and one row that has counted one read. */
  const ONE_ROW := Tables(Index(map["/e" := 0], map[0 := "/e"]), Index(map["/f" := 1], map[1 := "/f"]),
                          map[RowKey(0, 1) := Stats(1, 0, 0, 0, 5)], map[ID_ENTRY := 2])

  const READ_ONCE_MORE := Op("/e", "/f", Some(Change({READ}, 6)))
  const JUST_FETCH := Op("/e", "/f", None)

  lemma OneRowValid()
    ensures Valid(ONE_ROW) && HasRow(ONE_ROW, "/e", "/f", Stats(1, 0, 0, 0, 5))
  {}

  /** A refused row: the code is +1. */
  lemma RefusedRow()
    ensures ReturnCode(ONE_ROW, Call(READ_ONCE_MORE, true, WorksBut(StoreRow, Rejected))) == 1
  {
    CallCode(ONE_ROW, Call(READ_ONCE_MORE, true, WorksBut(StoreRow, Rejected)));
  }

  /** A reader asks for a row that is there, nothing fails, and db_fetch returns -1. */
  lemma ReaderMissesRow()
    ensures HasRow(ONE_ROW, "/e", "/f", Stats(1, 0, 0, 0, 5))
    ensures ReturnCode(ONE_ROW, Call(JUST_FETCH, false, NEVER_FAILS)) == -1
  {
    CallCode(ONE_ROW, Call(JUST_FETCH, false, NEVER_FAILS));
  }

  /** A row that cannot be read is started anew, whatever it has counted. */
  lemma StartedAnew(t: Tables, call: Call)
    requires Valid(t) && t.Bound() + 2 < TWO_64 && call.op.change.Some?
    requires ReturnCode(t, call) == 0 && !call.answers(FetchRow).Works?
    ensures var change := call.op.change.value;
            HasRow(After(t, call), call.op.exe, call.op.file, Updated(ZERO, change.flags, change.timestamp))
  {
    UpdateRows(t, call);
  }

  /** The row cannot be read, everything else works: db_update returns 0, and the earlier read is forgotten. */
  lemma ReadForgotten()
    ensures HasRow(ONE_ROW, "/e", "/f", Stats(1, 0, 0, 0, 5))
    ensures var call := Call(READ_ONCE_MORE, true, WorksBut(FetchRow, Broken));
            ReturnCode(ONE_ROW, call) == 0 && HasRow(After(ONE_ROW, call), "/e", "/f", Stats(1, 0, 0, 0, 6))
  {
    var call := Call(READ_ONCE_MORE, true, WorksBut(FetchRow, Broken));
    OneRowValid();
    CallCode(ONE_ROW, call);
    StartedAnew(ONE_ROW, call);
  }

  /** Nothing fails: the read counts. */
  lemma ReadTwice()
    ensures HasRow(After(ONE_ROW, Call(READ_ONCE_MORE, true, NEVER_FAILS)), "/e", "/f", Stats(2, 0, 0, 0, 6))
  {
    var call := Call(READ_ONCE_MORE, true, NEVER_FAILS);
    OneRowValid();
    CallCode(ONE_ROW, call);
    CountedUp(ONE_ROW, call, Stats(1, 0, 0, 0, 5));
  }

  lemma CountedUp(t: Tables, call: Call, row: Stats)
    requires Valid(t) && t.Bound() + 2 < TWO_64 && call.op.change.Some?
    requires HasRow(t, call.op.exe, call.op.file, row)
    requires ReturnCode(t, call) == 0 && call.answers(FetchRow).Works?
    ensures var change := call.op.change.value;
            HasRow(After(t, call), call.op.exe, call.op.file, Updated(row, change.flags, change.timestamp))
  {
    CallKeeps(t, call);
    UpdateRows(t, call);
  }

  /** Where the counter is at its maximum, a path without an id gets one that no later counter exceeds. */
  lemma LastIdSpoils(t: Tables, call: Call)
    requires t.Bound() == TWO_64 - 1 && call.op.exe !in t.exec.fwd
    requires KeyWorks(t, call, Exec) && KeyWorks(t, call, File)
    ensures !Valid(After(t, call))
  {
    var t1, p1 := SideCode(t, START, call, Exec);
    assert KeyWorks(t1, call, File);
    var t2, p2 := SideCode(t1, p1, call, File);
    RowCode(t2, p2, call);
    assert HasId(After(t, call), Exec, call.op.exe, TWO_64 - 1);
  }

  /** The counter is at its maximum, nothing fails: db_update returns 0 and leaves invalid tables behind. */
  lemma CounterWraps()
    ensures var t := INITIAL.(idtb := map[ID_ENTRY := TWO_64 - 1]);
            var call := Call(READ_ONCE_MORE, true, NEVER_FAILS);
            Valid(t) && ReturnCode(t, call) == 0 && !Valid(After(t, call))
  {
    var t := INITIAL.(idtb := map[ID_ENTRY := TWO_64 - 1]);
    var call := Call(READ_ONCE_MORE, true, NEVER_FAILS);
    CallCode(t, call);
    LastIdSpoils(t, call);
  }
}
