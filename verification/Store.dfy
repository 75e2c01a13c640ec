/** store.c: the parsers of single records and the loop over the records of an event. */
module Store {
  import opened Accesses
  import opened Database
  import opened Histories
  import opened Limits
  import opened Normaliser
  import opened Persistence
  import opened Records
  import opened UsageTables
  import opened Wrappers

  const ERR_AUPARSE := 4

  /** fusg_event_t; a NULL pointer is None. */
  class FusgEvent {
    var executable: Option<string>
    var filepath: Option<string>
    var flags: Flags
    var timestamp: u64
    var syscallSuccess: bool
    var cwd: Option<string>

    constructor (timestamp: u64)
      ensures executable.None? && filepath.None? && flags == {} && !syscallSuccess && cwd.None?
      ensures this.timestamp == timestamp
    {
      executable, filepath, flags, syscallSuccess, cwd := None, None, {}, false, None;
      this.timestamp := timestamp;
    }

    /** event_valid */
    predicate EventValid()
      reads this
    {
      executable.Some? && filepath.Some? && flags != {}
    }

    /** parse_syscall */
    method ParseSyscall(fields: seq<Field>) returns (rc: int)
      requires TypesFit(fields, "SYSCALL")
      modifies this`executable, this`syscallSuccess
      ensures rc == if SyscallOk(fields) then 0 else ERR_AUPARSE
      ensures rc == 0 ==> executable == LastShown(fields, "exe")
      ensures rc == 0 ==> syscallSuccess == Succeeds(fields, old(syscallSuccess))
    {
      executable := None;
      if fields == [] {
        return ERR_AUPARSE;
      }
      var i := 0;
      while i < |fields|
        invariant i <= |fields|
        invariant forall j | 0 <= j < i :: StatusFits(fields[j])
        invariant executable == LastShown(fields[..i], "exe")
        invariant syscallSuccess == Succeeds(fields[..i], old(syscallSuccess))
      {
        var f := fields[i];
        assert fields[..i + 1][..i] == fields[..i];
        if f.name == "type" {
          assert TypeFits(f, "SYSCALL");
        } else if f.name == "success" {
          if f.raw == Some("yes") {
            syscallSuccess := true;
          } else if f.raw == Some("no") {
            syscallSuccess := false;
          } else {
            assert !StatusFits(f);
            return ERR_AUPARSE;
          }
        } else if f.name == "exe" {
          executable := f.shown;
        }
        i := i + 1;
      }
      assert fields[..i] == fields;
      return if executable.Some? then 0 else ERR_AUPARSE;
    }

    /** parse_cwd */
    method ParseCwd(fields: seq<Field>) returns (rc: int)
      modifies this`cwd
      ensures cwd == CwdOf(fields) && rc == if CwdOf(fields).Some? then 0 else ERR_AUPARSE
    {
      cwd := None;
      if fields == [] {
        return ERR_AUPARSE;
      }
      var i := 0;
      while i < |fields|
        invariant i <= |fields| && cwd.None?
        invariant CwdOf(fields[i..]) == CwdOf(fields)
      {
        var f := fields[i];
        assert fields[i..][1..] == fields[i + 1..];
        if f.name == "type" {
          if !TypeFits(f, "CWD") {
            return ERR_AUPARSE;
          }
        } else if f.name == "cwd" {
          cwd := f.shown;
          break;
        }
        i := i + 1;
      }
      return if cwd.Some? then 0 else ERR_AUPARSE;
    }

    /** parse_path */
    method ParsePath(fields: seq<Field>) returns (rc: int)
      requires NamesAreCStrings(fields)
      modifies this`filepath, this`flags
      ensures rc == if PathOk(fields) then 0 else ERR_AUPARSE
      ensures rc == 0 ==> filepath == LastShown(fields, "name")
      ensures rc == 0 && old(flags) == {} ==> flags == FlagsOf(fields)
    {
      filepath := None;
      if fields == [] {
        return ERR_AUPARSE;
      }
      var i := 0;
      while i < |fields|
        invariant i <= |fields|
        invariant forall j | 0 <= j < i :: TypeFits(fields[j], "PATH")
        invariant filepath == LastShown(fields[..i], "name")
        invariant flags == old(flags) + FlagsOfFields(fields[..i])
      {
        var f := fields[i];
        assert fields[..i + 1][..i] == fields[..i];
        if f.name == "type" {
          if !TypeFits(f, "PATH") {
            return ERR_AUPARSE;
          }
        } else if f.name == "name" {
          filepath := f.shown;
        } else if f.name == "nametype" {
          var value := f.shown.value;
          if value == "PARENT" {
            flags := flags + {EXEC};
          } else if value == "NORMAL" {
            flags := flags + {READ};
          } else if value == "CREATE" {
            flags := flags + {CREAT};
          } else if value == "DELETE" {
            flags := flags + {DELET};
          }
        }
        i := i + 1;
      }
      assert fields[..i] == fields;
      if flags == {} {
        flags := {READ};
      }
      return if filepath.Some? then 0 else ERR_AUPARSE;
    }
  }

  /** The C string that starts at the beginning of a buffer. */
  method CStringIn(buffer: array<char>, ghost s: string) returns (r: string)
    requires Holds(buffer[..], s)
    ensures r == s
  {
    r := "";
    var i := 0;
    while buffer[i] != '\0'
      invariant i <= |s| && r == s[..i]
      invariant buffer[i] == if i < |s| then s[i] else '\0'
      decreases |s| - i
    {
      r := r + [buffer[i]];
      i := i + 1;
      assert i < |s| ==> buffer[i] == buffer[..][..|s|][i];
    }
  }

  /** The storage layer's answers, for the update of each record. */
  type Answers = nat -> (Site -> Outcome)

  function CallAt(ev: Event, i: nat, writable: bool, answers: Answers): Option<Call>
    requires InputInDomain(ev) && ev.timestamp.Some? && i < |ev.records|
  {
    var op := UpdateAt(ev, i);
    if op.Some? then Some(Call(op.value, writable, answers(i))) else None
  }

  function Extended(calls: seq<Call>, call: Option<Call>): seq<Call> {
    if call.Some? then calls + [call.value] else calls
  }

  /** The calls of db_update for the first n records. */
  function CallsOf(ev: Event, n: nat, writable: bool, answers: Answers): seq<Call>
    requires InputInDomain(ev) && ev.timestamp.Some? && n <= |ev.records|
  {
    if n == 0 then []
    else Extended(CallsOf(ev, n - 1, writable, answers), CallAt(ev, n - 1, writable, answers))
  }

  /** The return code of processing record i, when the calls of the records before it have been made. */
  function RecordCode(t: Tables, ev: Event, i: nat, writable: bool, answers: Answers): int
    requires InputInDomain(ev) && ev.timestamp.Some? && i < |ev.records|
  {
    var fields := ev.records[i].fields;
    match ev.records[i].kind
    case SYSCALL => if SyscallOk(fields) then 0 else ERR_AUPARSE
    case CWD => if CwdOf(fields).Some? then 0 else ERR_AUPARSE
    case PATH =>
      if !PathOk(fields) then ERR_AUPARSE
      else
        var call := CallAt(ev, i, writable, answers);
        if call.None? then 0 else ReturnCode(Replay(t, CallsOf(ev, i, writable, answers)), call.value)
    case OTHER => 0
  }

  /** After record i the loop goes on: it was fine, and its update, if any, returned 0. */
  predicate GoesOn(t: Tables, ev: Event, i: nat, writable: bool, answers: Answers)
    requires InputInDomain(ev) && ev.timestamp.Some? && i < |ev.records|
  {
    RecordCode(t, ev, i, writable, answers) == 0
    && (ev.records[i].kind.SYSCALL? ==> SuccessBefore(ev.records, i + 1))
  }

  /** How many records the loop processes, from record i on. */
  function Stop(t: Tables, ev: Event, i: nat, writable: bool, answers: Answers): (n: nat)
    requires InputInDomain(ev) && ev.timestamp.Some? && i < |ev.records|
    ensures i < n <= |ev.records|
    decreases |ev.records| - i
  {
    if i + 1 < |ev.records| && GoesOn(t, ev, i, writable, answers) then Stop(t, ev, i + 1, writable, answers)
    else i + 1
  }

  /** Events that do not start with a SYSCALL record are not looked at. */
  predicate Considered(ev: Event) {
    ev.timestamp.Some? && ev.records != [] && ev.records[0].kind.SYSCALL?
  }

  /** All calls of db_update that an event leads to. */
  function EventCalls(t: Tables, ev: Event, writable: bool, answers: Answers): seq<Call>
    requires InputInDomain(ev)
  {
    if Considered(ev) then CallsOf(ev, Stop(t, ev, 0, writable, answers), writable, answers) else []
  }

  function EventCode(t: Tables, ev: Event, writable: bool, answers: Answers): int
    requires InputInDomain(ev)
  {
    if ev.timestamp.None? || ev.records == [] then ERR_AUPARSE
    else if !ev.records[0].kind.SYSCALL? then 0
    else RecordCode(t, ev, Stop(t, ev, 0, writable, answers) - 1, writable, answers)
  }

  /** fusgd_global_t, as far as store_event uses it. */
  class Global {
    const db: Db
    var eventsStored: u64

    constructor (db: Db)
      ensures this.db == db && eventsStored == 0
    {
      this.db := db;
      eventsStored := 0;
    }
  }

  /** What the loop knows before record i: the event structure agrees with the records read so far. */
  ghost predicate ParsedUpTo(fusg: FusgEvent, ev: Event, i: nat)
    requires i <= |ev.records|
    reads fusg
  {
    && fusg.flags == {} && ev.timestamp == Some(fusg.timestamp)
    && fusg.executable == ExeBefore(ev.records, i)
    && fusg.cwd == CwdBefore(ev.records, i)
    && fusg.syscallSuccess == SuccessBefore(ev.records, i)
  }

  /** The calls so far have been made on a handle that stood as given before them. */
  ghost predicate Applied(db: Db, o: Standing, calls: seq<Call>)
    reads db
  {
    db.Locking() && db.Mem() == Replay(o.mem, calls) && Follows(o, |calls|, db.Standing())
  }

  lemma RunSoundIf(o: Standing, calls: seq<Call>, st: Standing)
    requires Follows(o, |calls|, st) && st.mem == Replay(o.mem, calls)
    ensures Sound(o) && o.mem.Bound() + 2 * |calls| < TWO_64 ==> Sound(st)
  {
    if Sound(o) && o.mem.Bound() + 2 * |calls| < TWO_64 {
      RunSound(o, calls, st);
    }
  }

  lemma ReplayOne(t: Tables, calls: seq<Call>, call: Call)
    ensures Replay(t, calls + [call]) == After(Replay(t, calls), call)
  {
    assert (calls + [call])[..|calls|] == calls;
  }

  lemma FlagsNeverEmpty(fields: seq<Field>)
    ensures FlagsOf(fields) != {}
  {}

  /** fabsolute on the name of a PATH record; NULL if it fails. */
  method Resolve(cwd: Option<string>, name: Option<string>, buffer: array<char>) returns (path: Option<string>)
    requires buffer.Length >= PATH_MAX && ArgumentsInDomain(cwd, name)
    modifies buffer
    ensures path == Absolute(cwd, name)
  {
    var ok := FAbsolute(cwd, name, buffer);
    if !ok {
      return None;
    }
    var s := CStringIn(buffer, Absolute(cwd, name).value);
    return Some(s);
  }

  /** db_update for a valid event. */
  method StoreUpdate(db: Db, op: Op, ev: Event, i: nat, answers: Answers,
                     ghost o: Standing, writable: bool)
    returns (rc: int)
    requires InputInDomain(ev) && ev.timestamp.Some? && i < |ev.records| && writable == db.Writable()
    requires UpdateAt(ev, i) == Some(op) && Applied(db, o, CallsOf(ev, i, writable, answers))
    modifies db
    ensures db.openFlags == old(db.openFlags) && db.lockDepth == old(db.lockDepth)
    ensures Applied(db, o, CallsOf(ev, i + 1, writable, answers))
    ensures rc == ReturnCode(Replay(o.mem, CallsOf(ev, i, writable, answers)), CallAt(ev, i, writable, answers).value)
  {
    var call := Call(op, writable, answers(i));
    ghost var calls, st := CallsOf(ev, i, writable, answers), db.Standing();
    ReplayOne(o.mem, calls, call);
    rc := db.Update(call);
    FollowsOn(o, |calls|, st, 1, db.Standing());
  }

  /** db_update, if the record has given the event all it needs. */
  method StoreIfValid(db: Db, fusg: FusgEvent, ev: Event, i: nat, answers: Answers,
                      ghost o: Standing, writable: bool)
    returns (rc: int, stored: bool)
    requires writable == db.Writable() && InputInDomain(ev) && i < |ev.records| && ev.records[i].kind.PATH?
    requires PathOk(ev.records[i].fields) && fusg.flags == FlagsOf(ev.records[i].fields)
    requires ev.timestamp == Some(fusg.timestamp) && fusg.executable == ExeBefore(ev.records, i)
    requires fusg.filepath == PathAt(ev, i)
    requires Applied(db, o, CallsOf(ev, i, writable, answers))
    modifies db
    ensures db.openFlags == old(db.openFlags) && db.lockDepth == old(db.lockDepth)
    ensures Applied(db, o, CallsOf(ev, i + 1, writable, answers))
    ensures rc == RecordCode(o.mem, ev, i, writable, answers)
    ensures stored <==> CallAt(ev, i, writable, answers).Some?
  {
    rc, stored := 0, false;
    FlagsNeverEmpty(ev.records[i].fields);
    if fusg.EventValid() {
      var op := Op(fusg.executable.value, fusg.filepath.value, Some(Change(fusg.flags, fusg.timestamp)));
      rc := StoreUpdate(db, op, ev, i, answers, o, writable);
      stored := true;
    }
  }

  /** case AUDIT_PATH */
  method StorePathRecord(db: Db, fusg: FusgEvent, ev: Event, i: nat, buffer: array<char>, answers: Answers,
                         ghost o: Standing, writable: bool)
    returns (rc: int, stored: bool)
    requires writable == db.Writable() && buffer.Length >= PATH_MAX
    requires InputInDomain(ev) && i < |ev.records| && ev.records[i].kind.PATH?
    requires ParsedUpTo(fusg, ev, i) && Applied(db, o, CallsOf(ev, i, writable, answers))
    modifies db, fusg, buffer
    ensures db.openFlags == old(db.openFlags) && db.lockDepth == old(db.lockDepth)
    ensures Applied(db, o, CallsOf(ev, i + 1, writable, answers))
    ensures rc == RecordCode(o.mem, ev, i, writable, answers)
    ensures stored <==> CallAt(ev, i, writable, answers).Some?
    ensures rc == 0 ==> ParsedUpTo(fusg, ev, i + 1)
  {
    var fields := ev.records[i].fields;
    stored := false;
    assert RecordInDomain(ev.records[i]);
    PathInDomain(ev, i);
    rc := fusg.ParsePath(fields);
    if rc == 0 {
      fusg.filepath := Resolve(fusg.cwd, fusg.filepath, buffer);
      rc, stored := StoreIfValid(db, fusg, ev, i, answers, o, writable);
      fusg.filepath := None;
      fusg.flags := {};
    }
  }

  /** The body of the loop over the records. */
  method StoreRecord(db: Db, fusg: FusgEvent, ev: Event, i: nat, buffer: array<char>, answers: Answers,
                     ghost o: Standing, writable: bool)
    returns (rc: int, skip: bool, stored: bool)
    requires writable == db.Writable() && InputInDomain(ev) && i < |ev.records| && buffer.Length >= PATH_MAX
    requires ParsedUpTo(fusg, ev, i) && Applied(db, o, CallsOf(ev, i, writable, answers))
    modifies db, fusg, buffer
    ensures db.openFlags == old(db.openFlags) && db.lockDepth == old(db.lockDepth)
    ensures Applied(db, o, CallsOf(ev, i + 1, writable, answers))
    ensures rc == RecordCode(o.mem, ev, i, writable, answers)
    ensures stored <==> CallAt(ev, i, writable, answers).Some?
    ensures rc == 0 && !skip <==> GoesOn(o.mem, ev, i, writable, answers)
    ensures rc == 0 && !skip ==> ParsedUpTo(fusg, ev, i + 1)
  {
    rc, skip, stored := 0, false, false;
    var record := ev.records[i];
    assert RecordInDomain(record);
    match record.kind {
      case SYSCALL =>
        rc := fusg.ParseSyscall(record.fields);
        if !fusg.syscallSuccess {
          skip := true;
        }
      case CWD =>
        rc := fusg.ParseCwd(record.fields);
      case PATH =>
        rc, stored := StorePathRecord(db, fusg, ev, i, buffer, answers, o, writable);
      case OTHER =>
    }
  }

  /** store_event */
  method StoreEvent(g: Global, ev: Event, answers: Answers) returns (rc: int)
    requires InputInDomain(ev) && g.db.Locking()
    modifies g, g.db
    ensures g.db.Locking() && g.db.openFlags == old(g.db.openFlags) && g.db.lockDepth == old(g.db.lockDepth)
    ensures var calls := EventCalls(old(g.db.Mem()), ev, g.db.Writable(), answers);
            && g.db.Mem() == Replay(old(g.db.Mem()), calls)
            && g.eventsStored == (if rc == 0 && calls != [] then (old(g.eventsStored) + 1) % TWO_64
                                  else old(g.eventsStored))
            && Follows(old(g.db.Standing()), |calls|, g.db.Standing())
            && (old(g.db.Consistent()) && old(g.db.Mem()).Bound() + 2 * |calls| < TWO_64 ==> g.db.Consistent())
    ensures rc == EventCode(old(g.db.Mem()), ev, g.db.Writable(), answers)
  {
    if ev.timestamp.None? || ev.records == [] {
      return ERR_AUPARSE;
    }
    if !ev.records[0].kind.SYSCALL? {
      return 0;
    }
    var stored;
    rc, stored := StoreRecords(g.db, ev, answers, g.db.Standing(), g.db.Writable());
    RunSoundIf(old(g.db.Standing()), EventCalls(old(g.db.Mem()), ev, g.db.Writable(), answers), g.db.Standing());
    if rc == 0 && stored {
      g.eventsStored := (g.eventsStored + 1) % TWO_64;
    }
  }

  /** Whether the loop is about to process record i, and with which code it processed the one before. */
  ghost predicate Progress(t: Tables, ev: Event, i: nat, rc: int, goesOn: bool, writable: bool, answers: Answers)
    requires InputInDomain(ev) && Considered(ev)
  {
    && i <= |ev.records| && (goesOn ==> i < |ev.records|) && (!goesOn ==> i > 0)
    && Stop(t, ev, 0, writable, answers) == (if goesOn then Stop(t, ev, i, writable, answers) else i)
    && (i > 0 ==> rc == RecordCode(t, ev, i - 1, writable, answers))
  }

  lemma ProgressStep(t: Tables, ev: Event, i: nat, rc0: int, rc: int, goesOn: bool, writable: bool, answers: Answers)
    requires InputInDomain(ev) && Considered(ev) && Progress(t, ev, i, rc0, true, writable, answers)
    requires rc == RecordCode(t, ev, i, writable, answers)
    requires goesOn <==> GoesOn(t, ev, i, writable, answers) && i + 1 < |ev.records|
    ensures Progress(t, ev, i + 1, rc, goesOn, writable, answers)
  {}

  lemma MoreCalls(ev: Event, i: nat, writable: bool, answers: Answers)
    requires InputInDomain(ev) && Considered(ev) && i < |ev.records|
    ensures CallsOf(ev, i + 1, writable, answers) != [] <==>
      CallsOf(ev, i, writable, answers) != [] || CallAt(ev, i, writable, answers).Some?
  {}

  /** The loop over the records of an event. */
  method StoreRecords(db: Db, ev: Event, answers: Answers, ghost o: Standing, writable: bool)
    returns (rc: int, stored: bool)
    requires writable == db.Writable() && InputInDomain(ev) && Considered(ev)
    requires db.Locking() && o == db.Standing()
    modifies db
    ensures db.openFlags == old(db.openFlags) && db.lockDepth == old(db.lockDepth)
    ensures Applied(db, o, EventCalls(o.mem, ev, writable, answers))
    ensures rc == EventCode(o.mem, ev, writable, answers)
    ensures stored <==> EventCalls(o.mem, ev, writable, answers) != []
  {
    var fusg := new FusgEvent(ev.timestamp.value);
    var buffer := new char[PATH_MAX];
    var i, skip := 0, false;
    rc, stored := 0, false;
    ghost var goesOn := true;
    while i == 0 || (rc == 0 && !skip && i < |ev.records|)
      invariant db.openFlags == old(db.openFlags) && db.lockDepth == old(db.lockDepth)
      invariant fresh(fusg) && fresh(buffer)
      invariant goesOn == (i == 0 || (rc == 0 && !skip && i < |ev.records|))
      invariant Progress(o.mem, ev, i, rc, goesOn, writable, answers)
      invariant Applied(db, o, CallsOf(ev, i, writable, answers))
      invariant stored <==> CallsOf(ev, i, writable, answers) != []
      invariant goesOn ==> ParsedUpTo(fusg, ev, i)
      decreases |ev.records| - i
    {
      ghost var before := rc;
      var storedNow;
      rc, skip, storedNow := StoreRecord(db, fusg, ev, i, buffer, answers, o, writable);
      goesOn := rc == 0 && !skip && i + 1 < |ev.records|;
      ProgressStep(o.mem, ev, i, before, rc, goesOn, writable, answers);
      MoreCalls(ev, i, writable, answers);
      stored := stored || storedNow;
      i := i + 1;
    }
  }

  predicate AllInDomain(evs: seq<Event>) {
    forall k | 0 <= k < |evs| :: InputInDomain(evs[k])
  }

  /** All calls of db_update that a stream of events leads to. */
  function StreamCalls(t: Tables, evs: seq<Event>, writable: bool, answers: nat -> Answers): seq<Call>
    requires AllInDomain(evs)
  {
    if evs == [] then []
    else
      var n := |evs| - 1;
      var calls := StreamCalls(t, evs[..n], writable, answers);
      calls + EventCalls(Replay(t, calls), evs[n], writable, answers(n))
  }

  /** The events in turn. */
  method HandleEach(g: Global, evs: seq<Event>, answers: nat -> Answers)
    requires AllInDomain(evs) && g.db.Locking()
    modifies g, g.db
    ensures g.db.openFlags == old(g.db.openFlags) && g.db.lockDepth == old(g.db.lockDepth)
    ensures Applied(g.db, old(g.db.Standing()), StreamCalls(old(g.db.Mem()), evs, g.db.Writable(), answers))
  {
    ghost var o, writable := g.db.Standing(), g.db.Writable();
    for n := 0 to |evs|
      invariant g.db.openFlags == old(g.db.openFlags) && g.db.lockDepth == old(g.db.lockDepth)
      invariant Applied(g.db, o, StreamCalls(o.mem, evs[..n], writable, answers))
    {
      ghost var calls, st := StreamCalls(o.mem, evs[..n], writable, answers), g.db.Standing();
      ghost var more := EventCalls(Replay(o.mem, calls), evs[n], writable, answers(n));
      assert evs[..n + 1][..n] == evs[..n];
      ReplayConcat(o.mem, calls, more);
      var _ := StoreEvent(g, evs[n], answers(n));
      FollowsOn(o, |calls|, st, |more|, g.db.Standing());
    }
    assert evs[..|evs|] == evs;
  }

  /** handle_event for one event after the other; what store_event returns is only logged. */
  method HandleEvents(g: Global, evs: seq<Event>, answers: nat -> Answers)
    requires AllInDomain(evs) && g.db.Locking()
    modifies g, g.db
    ensures g.db.Locking() && g.db.openFlags == old(g.db.openFlags) && g.db.lockDepth == old(g.db.lockDepth)
    ensures var calls := StreamCalls(old(g.db.Mem()), evs, g.db.Writable(), answers);
            && g.db.Mem() == Replay(old(g.db.Mem()), calls)
            && Follows(old(g.db.Standing()), |calls|, g.db.Standing())
            && (old(g.db.Consistent()) && old(g.db.Mem()).Bound() + 2 * |calls| < TWO_64 ==> g.db.Consistent())
  {
    ghost var o := g.db.Standing();
    HandleEach(g, evs, answers);
    RunSoundIf(o, StreamCalls(o.mem, evs, g.db.Writable(), answers), g.db.Standing());
  }
}
