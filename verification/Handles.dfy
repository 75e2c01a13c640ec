/**
 Any number of handles on one database, interleaving single table accesses.  A handle is a
 writer (opened with DB_WRITE, locks exclusively) or a reader (locks shared).  It locks and
 unlocks, runs db_update and db_fetch access by access, looks up ids, and scans the event
 table with nested lookups, for all rows or for those of an id it has looked up before.
 flock blocks and never fails.
 */
module Handles {
  import opened AccessLaws
  import opened Accesses
  import opened Limits
  import opened UsageTables
  import opened Wrappers

  datatype Name = Name(side: Side, path: string)

  /** What a search loop is about: every row, or the rows of an id that was looked up for a path. */
  datatype Query = All | Of(name: Name, id: u64) {
    predicate Selects(key: RowKey) {
      All? || IdOn(key, name.side) == id
    }

    /** The dump prints both names of a row, the other loops only the one they do not know yet. */
    predicate Prints(side: Side) {
      All? || name.side != side
    }
  }

  /** One line that a search loop reports. */
  datatype Line = Line(key: RowKey, stats: Stats, exe: string, file: string) {
    function NameOn(side: Side): string {
      if side.Exec? then exe else file
    }

    function WithName(side: Side, name: string): Line {
      if side.Exec? then this.(exe := name) else this.(file := name)
    }
  }

  /** Where the body of a search loop is; every name lookup locks and unlocks again. */
  datatype Phase = FetchStats | LockName(side: Side) | ReadName(side: Side) | UnlockName(side: Side) | NextKey

  /** A search loop: key is the iterator's key (None after the last), todo the keys it has yet to visit. */
  datatype Scan =
    Scan(query: Query, todo: set<RowKey>, key: Option<RowKey>, phase: Phase, line: Line, lines: seq<Line>)

  /** entry: the tables when the task got its lock (for the proof only). */
  datatype Task =
    | Idle
    | Working(call: Call, proc: Proc, entry: Tables)
    | Scanning(scan: Scan, entry: Tables)

  /** ids: what db_exec_get_id and db_file_get_id have told this process so far. */
  datatype Handle = Handle(writer: bool, depth: nat, task: Task, ids: map<Name, u64>)

  /** holders: who holds the flock; log: the calls that have returned, in that order. */
  datatype System = System(t: Tables, handles: seq<Handle>, holders: set<nat>, log: seq<Call>)

  datatype Action =
    | Lock(i: nat)
    | Unlock(i: nat)
    | Begin(i: nat, call: Call)
    | Access(i: nat)
    | Return(i: nat)
    | Learn(i: nat, name: Name)
    | StartScan(i: nat, about: Option<Name>, first: Option<RowKey>)
    | ScanStep(i: nat, next: Option<RowKey>)
    | EndScan(i: nat)

  // ------------------------------------------------------------------ steps

  /** db_lock does not block: a nested lock, or flock grants it. */
  predicate Grantable(s: System, i: nat)
    requires i < |s.handles|
  {
    s.handles[i].depth > 0
    || (if s.handles[i].writer then s.holders == {}
        else forall j | j in s.holders :: j < |s.handles| && !s.handles[j].writer)
  }

  function Acquire(s: System, i: nat, task: Task): System
    requires i < |s.handles|
  {
    var h := s.handles[i];
    s.(handles := s.handles[i := h.(depth := h.depth + 1, task := task)], holders := s.holders + {i})
  }

  /** db_unlock; unlocking once too often is ignored. */
  function Release(s: System, i: nat, task: Task): System
    requires i < |s.handles|
  {
    var h := s.handles[i];
    if h.depth == 0 then s.(handles := s.handles[i := h.(task := task)])
    else s.(handles := s.handles[i := h.(depth := h.depth - 1, task := task)],
            holders := if h.depth == 1 then s.holders - {i} else s.holders)
  }

  function SetTask(s: System, i: nat, task: Task): System
    requires i < |s.handles|
  {
    s.(handles := s.handles[i := s.handles[i].(task := task)])
  }

  /** gdbm_firstkey and gdbm_nextkey: any key that is left, or the end if none is. */
  predicate Visits(todo: set<RowKey>, key: Option<RowKey>) {
    if key.None? then todo == {} else key.value in todo
  }

  predicate Enabled(s: System, a: Action) {
    && a.i < |s.handles|
    && var h := s.handles[a.i];
       match a
       case Lock(i) => h.task.Idle? && Grantable(s, i)
       case Unlock(i) => h.task.Idle?
       case Begin(i, call) => h.task.Idle? && Grantable(s, i) && call.writable == h.writer
       case Access(i) => h.task.Working? && h.task.proc.pc.At?
       case Return(i) => h.task.Working? && h.task.proc.pc.Returned?
       case Learn(i, name) => h.task.Idle? && h.depth > 0
       case StartScan(i, about, first) =>
         h.task.Idle? && Grantable(s, i) && Visits(s.t.evnt.Keys, first)
         && (about.Some? ==> about.value in h.ids)
       case ScanStep(i, next) =>
         h.task.Scanning? && h.task.scan.key.Some?
         && (h.task.scan.phase.NextKey? ==> Visits(h.task.scan.todo, next))
       case EndScan(i) => h.task.Scanning? && h.task.scan.key.None?
  }

  const NO_LINE := Line(RowKey(0, 0), ZERO, "", "")

  function Rest(todo: set<RowKey>, key: Option<RowKey>): set<RowKey> {
    if key.None? then todo else todo - {key.value}
  }

  function FirstScan(t: Tables, query: Query, first: Option<RowKey>): Scan {
    Scan(query, Rest(t.evnt.Keys, first), first, FetchStats, NO_LINE, [])
  }

  /** A row that was not asked for is passed over. */
  function AfterStats(query: Query, key: RowKey): Phase {
    if !query.Selects(key) then NextKey
    else if query.Prints(Exec) then LockName(Exec)
    else LockName(File)
  }

  function AfterName(query: Query, side: Side): Phase {
    if side.Exec? && query.Prints(File) then LockName(File) else NextKey
  }

  /** One step inside the loop body; a lookup that fails would leave the line as it was. */
  function ScanOn(t: Tables, scan: Scan, next: Option<RowKey>): Scan
    requires scan.key.Some?
  {
    var key := scan.key.value;
    var line := scan.line;
    match scan.phase
    case FetchStats =>
      scan.(phase := AfterStats(scan.query, key),
            line := if key in t.evnt then line.(key := key, stats := t.evnt[key]) else line)
    case LockName(side) => scan.(phase := ReadName(side))
    case ReadName(side) =>
      var rev := t.On(side).rev;
      scan.(phase := UnlockName(side),
            line := if IdOn(key, side) in rev then line.WithName(side, rev[IdOn(key, side)]) else line)
    case UnlockName(side) => scan.(phase := AfterName(scan.query, side))
    case NextKey =>
      Scan(scan.query, Rest(scan.todo, next), next, FetchStats, NO_LINE,
           if scan.query.Selects(key) then scan.lines + [line] else scan.lines)
  }

  function Do(s: System, a: Action): System
    requires Enabled(s, a)
  {
    var h := s.handles[a.i];
    match a
    case Lock(i) => Acquire(s, i, Idle)
    case Unlock(i) => Release(s, i, Idle)
    case Begin(i, call) => Acquire(s, i, Working(call, START, s.t))
    case Access(i) =>
      var (t', p') := Step(s.t, h.task.proc, h.task.call);
      SetTask(s, i, h.task.(proc := p')).(t := t')
    case Return(i) => Release(s, i, Idle).(log := s.log + [h.task.call])
    case Learn(i, name) =>
      var fwd := s.t.On(name.side).fwd;
      if name.path in fwd then
        s.(handles := s.handles[i := h.(ids := h.ids[name := fwd[name.path]])])
      else s
    case StartScan(i, about, first) =>
      var query := if about.Some? then Of(about.value, h.ids[about.value]) else All;
      Acquire(s, i, Scanning(FirstScan(s.t, query, first), s.t))
    case ScanStep(i, next) =>
      var task := h.task.(scan := ScanOn(s.t, h.task.scan, next));
      var phase := h.task.scan.phase;
      if phase.LockName? then Acquire(s, i, task)
      else if phase.UnlockName? then Release(s, i, task)
      else SetTask(s, i, task)
    case EndScan(i) => Release(s, i, Idle)
  }

  /** All of a run, if every action is possible when its turn comes. */
  function Run(s: System, actions: seq<Action>): Option<System> {
    if actions == [] then Some(s)
    else
      var before := Run(s, actions[..|actions| - 1]);
      var a := actions[|actions| - 1];
      if before.Some? && Enabled(before.value, a) then Some(Do(before.value, a)) else None
  }

  predicate Fresh0(h: Handle) {
    h.depth == 0 && h.task.Idle? && h.ids == map[]
  }

  /** Freshly opened handles on valid tables. */
  ghost predicate Opened(s: System) {
    && Valid(s.t) && s.holders == {} && s.log == []
    && forall i | 0 <= i < |s.handles| :: Fresh0(s.handles[i])
  }

  // -------------------------------------------------------------- invariant

  /** At most one writer and no other holder, or readers only. */
  ghost predicate Exclusion(s: System) {
    forall i, j | 0 <= i < |s.handles| && 0 <= j < |s.handles| && i != j
                  && s.handles[i].depth > 0 && s.handles[j].depth > 0 ::
      !s.handles[i].writer && !s.handles[j].writer
  }

  ghost predicate HoldersMatch(s: System) {
    forall i: nat :: i in s.holders <==> i < |s.handles| && s.handles[i].depth > 0
  }

  predicate Named(t: Tables, line: Line, side: Side) {
    IdOn(line.key, side) in t.On(side).rev && line.NameOn(side) == t.On(side).rev[IdOn(line.key, side)]
  }

  predicate LineOf(t: Tables, query: Query, line: Line) {
    && line.key in t.evnt && line.stats == t.evnt[line.key] && query.Selects(line.key)
    && (query.Prints(Exec) ==> Named(t, line, Exec))
    && (query.Prints(File) ==> Named(t, line, File))
  }

  function KeysOf(lines: seq<Line>): set<RowKey> {
    set i | 0 <= i < |lines| :: lines[i].key
  }

  ghost predicate LinesOf(t: Tables, query: Query, lines: seq<Line>) {
    && (forall i | 0 <= i < |lines| :: LineOf(t, query, lines[i]))
    && (forall i, j | 0 <= i < j < |lines| :: lines[i].key != lines[j].key)
  }

  /** The keys a query selects. */
  function Chosen(evnt: map<RowKey, Stats>, query: Query): set<RowKey> {
    if query.All? then evnt.Keys else Matching(evnt, query.name.side, query.id)
  }

  function Current(key: Option<RowKey>): set<RowKey> {
    if key.Some? then {key.value} else {}
  }

  /** The lines so far are those of the selected keys that the iterator has left behind. */
  ghost predicate ScanCovers(t: Tables, scan: Scan) {
    && LinesOf(t, scan.query, scan.lines)
    && KeysOf(scan.lines) == Chosen(t.evnt, scan.query) - scan.todo - Current(scan.key)
    && scan.todo <= t.evnt.Keys
    && (scan.key.Some? ==> scan.key.value in t.evnt && scan.key.value !in scan.todo)
    && (scan.key.None? ==> scan.todo == {})
  }

  predicate HasRead(phase: Phase, side: Side) {
    phase.NextKey? || phase == UnlockName(side) || (side.Exec? && !phase.FetchStats? && phase.side.File?)
  }

  predicate LineSoFar(t: Tables, scan: Scan) {
    scan.key.Some? ==>
      var key, phase, query, line := scan.key.value, scan.phase, scan.query, scan.line;
      && key in t.evnt && key.execId in t.exec.rev && key.fileId in t.file.rev
      && (!phase.FetchStats? ==> line.key == key && line.stats == t.evnt[key])
      && (!phase.FetchStats? && !phase.NextKey? ==> query.Selects(key))
      && (query.Selects(key) && query.Prints(Exec) && HasRead(phase, Exec) ==> Named(t, line, Exec))
      && (query.Selects(key) && query.Prints(File) && HasRead(phase, File) ==> Named(t, line, File))
  }

  /** How deep the iterator itself has locked. */
  function ScanDepth(scan: Scan): nat {
    if scan.key.Some? && (scan.phase.ReadName? || scan.phase.UnlockName?) then 2 else 1
  }

  /** The id a query goes by is still that of its path. */
  predicate QueryValid(t: Tables, query: Query) {
    query.Of? ==>
      var fwd := t.On(query.name.side).fwd;
      query.name.path in fwd && fwd[query.name.path] == query.id
  }

  ghost predicate TaskValid(t: Tables, base: Tables, h: Handle) {
    match h.task
    case Idle => true
    case Working(call, proc, entry) =>
      && h.depth > 0 && call.writable == h.writer
      && entry == base && (!h.writer ==> t == base)
      && Knows(t, proc, call.op)
      && Finish(entry, START, call) == Finish(t, proc, call)
    case Scanning(scan, entry) =>
      && h.depth >= ScanDepth(scan) && entry == t
      && QueryValid(t, scan.query) && ScanCovers(t, scan) && LineSoFar(t, scan)
  }

  ghost predicate IdsValid(t: Tables, ids: map<Name, u64>) {
    forall name | name in ids :: name.path in t.On(name.side).fwd && t.On(name.side).fwd[name.path] == ids[name]
  }

  predicate WriterWorking(h: Handle) {
    h.writer && h.task.Working?
  }

  ghost predicate NoWriterWorking(s: System) {
    forall i | 0 <= i < |s.handles| :: !WriterWorking(s.handles[i])
  }

  ghost predicate HandleValid(t: Tables, base: Tables, h: Handle) {
    TaskValid(t, base, h) && IdsValid(t, h.ids)
  }

  ghost predicate HandlesValid(s: System, base: Tables) {
    forall i | 0 <= i < |s.handles| :: HandleValid(s.t, base, s.handles[i])
  }

  /** base: what the returned calls, one after the other, have made of the tables. */
  ghost predicate Inv(s: System, base: Tables) {
    && Valid(s.t) && HoldersMatch(s) && Exclusion(s)
    && HandlesValid(s, base)
    && (NoWriterWorking(s) ==> s.t == base)
  }
}
