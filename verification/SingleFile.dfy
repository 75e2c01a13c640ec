/** The event of one file access, from its fields to the one row it leaves. */
module SingleFile {
  import opened Accesses
  import opened Database
  import opened EndToEnd
  import opened EventLaws
  import opened Histories
  import opened IdArithmetic
  import opened Limits
  import opened Paths
  import opened Records
  import opened Reporting
  import opened Store
  import opened UsageTables
  import opened Wrappers

  function Shows(name: string, value: string): Field {
    Field(name, Some(value), Some(value))
  }

  function PathFields(name: string, nametype: Option<string>): seq<Field> {
    [Shows("type", "PATH"), Shows("name", name)]
    + if nametype.Some? then [Shows("nametype", nametype.value)] else []
  }

  /** A SYSCALL, a CWD and a PATH record. */
  function OneFile(time: u64, status: string, exe: string, cwd: string, name: string, nametype: Option<string>): Event {
    Event(Some(time),
          [Record(SYSCALL, [Shows("type", "SYSCALL"), Shows("success", status), Shows("exe", exe)]),
           Record(CWD, [Shows("type", "CWD"), Shows("cwd", cwd)]),
           Record(PATH, PathFields(name, nametype))])
  }

  /** C strings, an absolute directory, and a path that fits. */
  predicate Ordinary(status: string, exe: string, cwd: string, name: string, nametype: Option<string>) {
    && '\0' !in status && '\0' !in exe && '\0' !in cwd && '\0' !in name
    && (nametype.Some? ==> '\0' !in nametype.value)
    && IsAbsolute(cwd) && |cwd| + 1 + |name| < PATH_MAX
  }

  /** The row that one record of a nametype leaves. */
  function RowFor(nametype: Option<string>, time: u64): Stats {
    if nametype == Some("CREATE") then Stats(0, 0, 1, 0, time)
    else if nametype == Some("PARENT") then Stats(0, 0, 0, 1, time)
    else if nametype == Some("DELETE") then Stats(0, 0, 0, 0, time)
    else Stats(1, 0, 0, 0, time)
  }

  lemma ExeSaid(status: string, exe: string)
    ensures var fields := [Shows("type", "SYSCALL"), Shows("success", status), Shows("exe", exe)];
            Says(fields, "exe", exe) && LastShown(fields, "exe") == Some(exe)
  {
    var fields := [Shows("type", "SYSCALL"), Shows("success", status), Shows("exe", exe)];
    assert IsLast(fields, "exe", 2);
    LastShownIs(fields, "exe", exe);
  }

  lemma StatusSaid(status: string, exe: string)
    ensures var fields := [Shows("type", "SYSCALL"), Shows("success", status), Shows("exe", exe)];
            SaysYes(fields) <==> status == "yes"
  {
    var fields := [Shows("type", "SYSCALL"), Shows("success", status), Shows("exe", exe)];
    assert IsLast(fields, "success", 1);
    assert forall f: nat | IsLast(fields, "success", f) :: f == 1;
  }

  lemma CwdSaid(cwd: string)
    ensures var fields := [Shows("type", "CWD"), Shows("cwd", cwd)];
            SaysCwd(fields, cwd) && CwdOf(fields) == Some(cwd)
  {
    var fields := [Shows("type", "CWD"), Shows("cwd", cwd)];
    assert IsFirstCwd(fields, 1);
    CwdOfIs(fields, cwd);
  }

  lemma NameSaid(name: string, nametype: Option<string>)
    ensures var fields := PathFields(name, nametype);
            Says(fields, "name", name) && LastShown(fields, "name") == Some(name) && PathOk(fields)
  {
    var fields := PathFields(name, nametype);
    assert "type"[0] != "name"[0];
    assert IsLast(fields, "name", 1);
    LastShownIs(fields, "name", name);
  }

  lemma TaggedBy(name: string, nametype: Option<string>, tag: string)
    ensures Tagged(PathFields(name, nametype), tag) <==> nametype == Some(tag)
  {
    var fields := PathFields(name, nametype);
    if nametype.Some? {
      assert fields[2] == Shows("nametype", nametype.value);
    }
  }

  function FlagFor(nametype: Option<string>): Flags {
    if nametype == Some("CREATE") then {CREAT}
    else if nametype == Some("PARENT") then {EXEC}
    else if nametype == Some("DELETE") then {DELET}
    else {READ}
  }

  lemma CountedBy(name: string, nametype: Option<string>)
    ensures CountsAs(PathFields(name, nametype), FlagFor(nametype))
  {
    TaggedBy(name, nametype, "CREATE");
    TaggedBy(name, nametype, "PARENT");
    TaggedBy(name, nametype, "DELETE");
    TaggedBy(name, nametype, "NORMAL");
    assert "NORMAL"[0] != "PARENT"[0] && "CREATE"[0] != "DELETE"[0] && "NORMAL"[0] != "CREATE"[0];
    assert "PARENT"[0] != "CREATE"[0] && "NORMAL"[0] != "DELETE"[0] && "PARENT"[0] != "DELETE"[0];
  }

  lemma OneFileInDomain(time: u64, status: string, exe: string, cwd: string, name: string, nametype: Option<string>)
    requires Ordinary(status, exe, cwd, name, nametype)
    ensures InputInDomain(OneFile(time, status, exe, cwd, name, nametype))
  {
    CwdSaid(cwd);
    var ev := OneFile(time, status, exe, cwd, name, nametype);
    assert RecordInDomain(ev.records[0]);
    assert RecordInDomain(ev.records[1]);
    assert RecordInDomain(ev.records[2]);
  }

  /** The path of the file. */
  function FilePath(cwd: string, name: string): Option<string> {
    Normalise(if IsAbsolute(name) then name else cwd + "/" + name)
  }

  /** What the event is an update of, if its name has a path. */
  function FileOp(time: u64, exe: string, cwd: string, name: string, nametype: Option<string>): Option<Op> {
    var path := FilePath(cwd, name);
    if path.Some? then Some(Op(exe, path.value, Some(Change(FlagFor(nametype), time)))) else None
  }

  lemma OneFileSources(time: u64, status: string, exe: string, cwd: string, name: string, nametype: Option<string>)
    ensures Sources(OneFile(time, status, exe, cwd, name, nametype).records, 2, exe, cwd, name)
  {
    var records := OneFile(time, status, exe, cwd, name, nametype).records;
    ExeSaid(status, exe);
    CwdSaid(cwd);
    NameSaid(name, nametype);
    assert IsLatest(records, SYSCALL, 2, 0);
    assert IsLatest(records, CWD, 2, 1);
  }

  lemma OneFileUpdates(time: u64, status: string, exe: string, cwd: string, name: string, nametype: Option<string>)
    requires Ordinary(status, exe, cwd, name, nametype)
    requires InputInDomain(OneFile(time, status, exe, cwd, name, nametype))
    ensures var ev := OneFile(time, status, exe, cwd, name, nametype);
            && UpdateAt(ev, 0) == None && UpdateAt(ev, 1) == None
            && UpdateAt(ev, 2) == FileOp(time, exe, cwd, name, nametype)
  {
    var ev := OneFile(time, status, exe, cwd, name, nametype);
    OneFileSources(time, status, exe, cwd, name, nametype);
    NameSaid(name, nametype);
    CountedBy(name, nametype);
    var op := FileOp(time, exe, cwd, name, nametype);
    if op.Some? {
      MeansByText(cwd, name, op.value.file);
      DescribedIsUpdate(ev, 2, op.value);
    } else if UpdateAt(ev, 2).Some? {
      SourcesAre(ev.records, 2, exe, cwd, name);
      MeansByText(cwd, name, UpdateAt(ev, 2).value.file);
    }
  }

  lemma OneFileFine(time: u64, status: string, exe: string, cwd: string, name: string, nametype: Option<string>)
    ensures var records := OneFile(time, status, exe, cwd, name, nametype).records;
            && (Fine(records, 0) <==> status == "yes") && Fine(records, 1) && Fine(records, 2)
            && (SyscallOk(records[0].fields) <==> status == "yes" || status == "no")
  {
    var records := OneFile(time, status, exe, cwd, name, nametype).records;
    ExeSaid(status, exe);
    StatusSaid(status, exe);
    CwdSaid(cwd);
    NameSaid(name, nametype);
    SucceedsIs(records[0].fields);
    assert StatusFits(records[0].fields[1]) <==> status == "yes" || status == "no";
    assert SuccessBefore(records, 0) == false;
    assert SuccessBefore(records, 1) == Succeeds(records[0].fields, false);
  }

  /** The updates of the event: the one of its file, if the system call succeeded. */
  lemma OneFileOps(time: u64, status: string, exe: string, cwd: string, name: string, nametype: Option<string>)
    requires Ordinary(status, exe, cwd, name, nametype)
    requires InputInDomain(OneFile(time, status, exe, cwd, name, nametype))
    ensures var op := FileOp(time, exe, cwd, name, nametype);
            EventOps(OneFile(time, status, exe, cwd, name, nametype)) ==
              if status == "yes" && op.Some? then [op.value] else []
  {
    var ev := OneFile(time, status, exe, cwd, name, nametype);
    OneFileUpdates(time, status, exe, cwd, name, nametype);
    OneFileFine(time, status, exe, cwd, name, nametype);
    assert OpsOf(ev, 1) == [];
    assert OpsOf(ev, 2) == [];
    assert Reached(ev.records, 2) <==> status == "yes";
  }

  // ---------------------------------------------------------------- one update

  lemma RowOfOne(op: Op)
    requires op.change.Some?
    ensures RowOf([op], op.exe, op.file) == Updated(ZERO, op.change.value.flags, op.change.value.timestamp)
  {
    RowOfUpdate([], op, op.exe, op.file);
    assert [] + [op] == [op];
    assert RowOf([], op.exe, op.file) == ZERO;
  }

  /** Tables that represent one update have one row. */
  lemma OneRow(t: Tables, op: Op)
    requires Valid(t) && Represents(t, [op]) && op.change.Some?
    ensures HasRow(t, op.exe, op.file, Updated(ZERO, op.change.value.flags, op.change.value.timestamp))
    ensures |t.evnt| == 1
  {
    RowOfOne(op);
    assert About([op][0], op.exe, op.file);
    assert Occurs([op], op.exe, op.file);
    var key := RowKey(t.exec.fwd[op.exe], t.file.fwd[op.file]);
    forall k | k in t.evnt
      ensures k == key
    {
      assert Occurs([op], t.exec.rev[k.execId], t.file.rev[k.fileId]);
    }
    assert t.evnt.Keys == {key};
  }

  lemma NoRow(t: Tables)
    requires Represents(t, [])
    ensures t.evnt == map[]
  {
    assert t.evnt.Keys == {};
  }

  // ------------------------------------------------------------------ the event

  /** Without failures, an event on a new database leaves the rows of its updates. */
  lemma EventRepresents(ev: Event, answers: Answers)
    requires Before([], ev, answers)
    ensures var t := Replay(INITIAL, EventCalls(INITIAL, ev, true, answers));
            Valid(t) && Represents(t, EventOps(ev))
  {
    var calls := EventCalls(INITIAL, ev, true, answers);
    EventChanges([], ev, answers);
    RunKeeps(INITIAL, calls);
    RunDense(calls);
    CallsRepresent(calls);
  }

  lemma OneFileCode(time: u64, status: string, exe: string, cwd: string, name: string, nametype: Option<string>,
                    answers: Answers)
    requires Ordinary(status, exe, cwd, name, nametype) && AllWork(answers)
    requires InputInDomain(OneFile(time, status, exe, cwd, name, nametype))
    ensures EventCode(INITIAL, OneFile(time, status, exe, cwd, name, nametype), true, answers) ==
      if status == "yes" || status == "no" then 0 else ERR_AUPARSE
  {
    var ev := OneFile(time, status, exe, cwd, name, nametype);
    OneFileFine(time, status, exe, cwd, name, nametype);
    StopIsReach([], ev, 0, answers);
    var n := Stop(INITIAL, ev, 0, true, answers);
    if status == "yes" {
      GoesOnIffFine([], ev, 2, answers);
    } else {
      assert n == 1;
    }
  }

  /**
   store_event on a new database, without failures: for any executable, directory, name and
   nametype, a successful access leaves exactly one row, of that executable and the normal
   form of the name in the directory, and its nametype decides what it counts; any
   other status, or a name without a normal form, leaves none.
   */
  method StoreOneFile(time: u64, status: string, exe: string, cwd: string, name: string, nametype: Option<string>,
                      answers: Answers)
    returns (rc: int, db: Db)
    requires Ordinary(status, exe, cwd, name, nametype) && AllWork(answers)
    ensures rc == if status == "yes" || status == "no" then 0 else ERR_AUPARSE
    ensures var path := Normalise(if IsAbsolute(name) then name else cwd + "/" + name);
            if status == "yes" && path.Some? then
              HasRow(db.Mem(), exe, path.value, RowFor(nametype, time)) && |db.evnt| == 1
            else
              db.evnt == map[]
  {
    db := new Db.Create({DB_WRITE});
    var g := new Global(db);
    var ev := OneFile(time, status, exe, cwd, name, nametype);
    OneFileInDomain(time, status, exe, cwd, name, nametype);
    OneFileCode(time, status, exe, cwd, name, nametype, answers);
    OneFileRows(time, status, exe, cwd, name, nametype, answers);
    rc := StoreEvent(g, ev, answers);
  }

  lemma OneFileRows(time: u64, status: string, exe: string, cwd: string, name: string, nametype: Option<string>,
                    answers: Answers)
    requires Ordinary(status, exe, cwd, name, nametype) && AllWork(answers)
    requires InputInDomain(OneFile(time, status, exe, cwd, name, nametype))
    ensures var ev := OneFile(time, status, exe, cwd, name, nametype);
            var t := Replay(INITIAL, EventCalls(INITIAL, ev, true, answers));
            var path := Normalise(if IsAbsolute(name) then name else cwd + "/" + name);
            if status == "yes" && path.Some? then
              HasRow(t, exe, path.value, RowFor(nametype, time)) && |t.evnt| == 1
            else
              t.evnt == map[]
  {
    var ev := OneFile(time, status, exe, cwd, name, nametype);
    var t := Replay(INITIAL, EventCalls(INITIAL, ev, true, answers));
    EventRepresents(ev, answers);
    OneFileOps(time, status, exe, cwd, name, nametype);
    var op := FileOp(time, exe, cwd, name, nametype);
    if status == "yes" && op.Some? {
      OneRow(t, op.value);
      RowOfType(nametype, time);
    } else {
      NoRow(t);
    }
  }

  lemma RowOfType(nametype: Option<string>, time: u64)
    ensures Updated(ZERO, FlagFor(nametype), time) == RowFor(nametype, time)
  {}
}
