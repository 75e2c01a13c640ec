/** Safety of every interleaving: exclusion, valid tables, serial results and snapshot scans. */
module HandleLaws {
  import opened AccessLaws
  import opened Accesses
  import opened Handles
  import opened Histories
  import opened Limits
  import opened UsageTables
  import opened Wrappers

  /** Only handle i may differ. */
  ghost predicate Elsewhere(s: System, s': System, i: nat) {
    && i < |s.handles| == |s'.handles|
    && forall j | 0 <= j < |s.handles| && j != i :: s'.handles[j] == s.handles[j]
  }

  ghost predicate Locks(s: System) {
    HoldersMatch(s) && Exclusion(s)
  }

  lemma AcquireLocks(s: System, i: nat, task: Task)
    requires i < |s.handles| && Locks(s) && Grantable(s, i)
    ensures Locks(Acquire(s, i, task))
  {
    var h := s.handles[i];
    forall j: nat | j < |s.handles| && j != i && s.handles[j].depth > 0
      ensures !h.writer && !s.handles[j].writer
    {
      assert j in s.holders;
    }
  }

  lemma ReleaseLocks(s: System, i: nat, task: Task)
    requires i < |s.handles| && Locks(s)
    ensures Locks(Release(s, i, task))
  {}

  /** Whoever gets the lock, or has it, finds no other writer at work. */
  lemma GrantedIsQuiet(s: System, base: Tables, i: nat)
    requires Inv(s, base) && i < |s.handles| && s.handles[i].task.Idle? && Grantable(s, i)
    ensures NoWriterWorking(s) && s.t == base
  {
    forall j | 0 <= j < |s.handles|
      ensures !WriterWorking(s.handles[j])
    {
      assert HandleValid(s.t, base, s.handles[j]);
      assert j in s.holders <==> s.handles[j].depth > 0;
    }
  }

  /** While a writer holds the lock every other handle is idle. */
  lemma OthersIdle(s: System, base: Tables, i: nat, j: nat)
    requires Inv(s, base) && i < |s.handles| && j < |s.handles| && i != j
    requires s.handles[i].writer && s.handles[i].depth > 0
    ensures s.handles[j].task.Idle?
  {
    assert HandleValid(s.t, base, s.handles[j]);
  }

  /** A step that changes neither the tables nor who is at work. */
  lemma QuietStep(s: System, s': System, base: Tables, i: nat)
    requires Inv(s, base) && Elsewhere(s, s', i) && s'.t == s.t && Locks(s')
    requires HandleValid(s.t, base, s'.handles[i])
    requires WriterWorking(s.handles[i]) ==> WriterWorking(s'.handles[i])
    ensures Inv(s', base)
  {
    forall j | 0 <= j < |s.handles|
      ensures HandleValid(s'.t, base, s'.handles[j])
    {
      assert HandleValid(s.t, base, s.handles[j]);
    }
    if NoWriterWorking(s') {
      forall j | 0 <= j < |s.handles|
        ensures !WriterWorking(s.handles[j])
      {
        assert !WriterWorking(s'.handles[j]);
      }
    }
  }

  // --------------------------------------------------------- db calls

  lemma BeginKeeps(s: System, base: Tables, a: Action)
    requires Inv(s, base) && a.Begin? && Enabled(s, a)
    ensures Inv(Do(s, a), base)
  {
    GrantedIsQuiet(s, base, a.i);
    var task := Working(a.call, START, s.t);
    AcquireLocks(s, a.i, task);
    assert HandleValid(s.t, base, s.handles[a.i]);
    QuietStep(s, Do(s, a), base, a.i);
  }

  lemma StepReadOnly(t: Tables, p: Proc, call: Call)
    requires p.pc.At? && !call.writable
    ensures Step(t, p, call).0 == t
  {}

  /** No access takes a known path's id away. */
  lemma StepKeepsIds(t: Tables, p: Proc, call: Call, ids: map<Name, u64>)
    requires p.pc.At? && Knows(t, p, call.op) && IdsValid(t, ids)
    ensures IdsValid(Step(t, p, call).0, ids)
  {
    var t' := Step(t, p, call).0;
    forall name | name in ids
      ensures name.path in t'.On(name.side).fwd && t'.On(name.side).fwd[name.path] == ids[name]
    {
      assert name.path in t.On(name.side).fwd;
    }
  }

  lemma StepTask(t: Tables, base: Tables, h: Handle)
    requires Valid(t) && HandleValid(t, base, h) && h.task.Working? && h.task.proc.pc.At?
    requires Roomy(h.task.proc)
    ensures var (t', p') := Step(t, h.task.proc, h.task.call);
            HandleValid(t', base, h.(task := h.task.(proc := p'))) && Valid(t')
  {
    var p, call := h.task.proc, h.task.call;
    StepValid(t, p, call);
    StepKnows(t, p, call);
    StepKeepsIds(t, p, call, h.ids);
    if !h.writer {
      StepReadOnly(t, p, call);
    }
  }

  /** A writer's access: every other handle is idle, and keeps its ids. */
  lemma OthersKeep(s: System, base: Tables, i: nat, j: nat)
    requires Inv(s, base) && i < |s.handles| && j < |s.handles| && i != j
    requires s.handles[i].writer && s.handles[i].task.Working? && s.handles[i].task.proc.pc.At?
    ensures HandleValid(Step(s.t, s.handles[i].task.proc, s.handles[i].task.call).0, base, s.handles[j])
  {
    assert HandleValid(s.t, base, s.handles[i]) && HandleValid(s.t, base, s.handles[j]);
    OthersIdle(s, base, i, j);
    StepKeepsIds(s.t, s.handles[i].task.proc, s.handles[i].task.call, s.handles[j].ids);
  }

  lemma WriterAccessKeeps(s: System, base: Tables, a: Action)
    requires Inv(s, base) && a.Access? && Enabled(s, a) && s.handles[a.i].writer
    requires Roomy(s.handles[a.i].task.proc)
    ensures Inv(Do(s, a), base)
  {
    var s' := Do(s, a);
    assert HandleValid(s.t, base, s.handles[a.i]);
    StepTask(s.t, base, s.handles[a.i]);
    forall j | 0 <= j < |s.handles|
      ensures HandleValid(s'.t, base, s'.handles[j])
    {
      if j != a.i {
        OthersKeep(s, base, a.i, j);
      }
    }
    assert WriterWorking(s'.handles[a.i]);
  }

  lemma StepBound(t: Tables, p: Proc, call: Call)
    requires p.pc.At? && Knows(t, p, call.op)
    ensures Step(t, p, call).0.Bound() <= t.Bound() + 1
    ensures t.Bound() + 1 < TWO_64 ==> Roomy(p)
  {}

  lemma AccessKeeps(s: System, base: Tables, a: Action)
    requires Inv(s, base) && a.Access? && Enabled(s, a) && s.t.Bound() + 1 < TWO_64
    ensures Inv(Do(s, a), base) && Do(s, a).t.Bound() <= s.t.Bound() + 1
  {
    var h := s.handles[a.i];
    assert HandleValid(s.t, base, h);
    StepBound(s.t, h.task.proc, h.task.call);
    if h.writer {
      WriterAccessKeeps(s, base, a);
    } else {
      StepTask(s.t, base, h);
      StepReadOnly(s.t, h.task.proc, h.task.call);
      QuietStep(s, Do(s, a), base, a.i);
    }
  }

  lemma ReturnKeeps(s: System, base: Tables, a: Action)
    requires Inv(s, base) && a.Return? && Enabled(s, a)
    ensures Inv(Do(s, a), After(base, s.handles[a.i].task.call))
    ensures After(base, s.handles[a.i].task.call) == s.t
    ensures Result(base, s.handles[a.i].task.call) == s.handles[a.i].task.proc
  {
    var h := s.handles[a.i];
    var s' := Do(s, a);
    assert HandleValid(s.t, base, h);
    assert Finish(s.t, h.task.proc, h.task.call) == (s.t, h.task.proc);
    ReleaseLocks(s, a.i, Idle);
    if h.writer {
      forall j | 0 <= j < |s.handles|
        ensures HandleValid(s'.t, s.t, s'.handles[j])
      {
        if j != a.i {
          OthersIdle(s, base, a.i, j);
        }
        assert HandleValid(s.t, base, s.handles[j]);
      }
    } else {
      QuietStep(s, s', base, a.i);
    }
  }

  // ------------------------------------------------- locking and lookups

  lemma LockKeeps(s: System, base: Tables, a: Action)
    requires Inv(s, base) && (a.Lock? || a.Unlock? || a.EndScan?) && Enabled(s, a)
    ensures Inv(Do(s, a), base)
  {
    assert HandleValid(s.t, base, s.handles[a.i]);
    if a.Lock? {
      AcquireLocks(s, a.i, Idle);
    } else {
      ReleaseLocks(s, a.i, Idle);
    }
    QuietStep(s, Do(s, a), base, a.i);
  }

  lemma LearnKeeps(s: System, base: Tables, a: Action)
    requires Inv(s, base) && a.Learn? && Enabled(s, a)
    ensures Inv(Do(s, a), base)
  {
    assert HandleValid(s.t, base, s.handles[a.i]);
    QuietStep(s, Do(s, a), base, a.i);
  }

  // ---------------------------------------------------------------- scans

  lemma KeysOfSnoc(lines: seq<Line>, line: Line)
    ensures KeysOf(lines + [line]) == KeysOf(lines) + {line.key}
  {
    var more := lines + [line];
    assert forall i | 0 <= i < |lines| :: more[i] == lines[i];
    assert more[|lines|] == line;
    forall k | k in KeysOf(lines) ensures k in KeysOf(more) {
      var i :| 0 <= i < |lines| && lines[i].key == k;
      assert more[i].key == k;
    }
  }

  lemma LineAdded(t: Tables, query: Query, lines: seq<Line>, line: Line)
    requires LinesOf(t, query, lines) && LineOf(t, query, line) && line.key !in KeysOf(lines)
    ensures LinesOf(t, query, lines + [line])
  {
    forall i | 0 <= i < |lines|
      ensures lines[i].key != line.key
    {
      assert lines[i].key in KeysOf(lines);
    }
  }

  /** When the iterator moves on, the key it stood on is left behind. */
  lemma LeftBehind(evnt: map<RowKey, Stats>, query: Query, todo: set<RowKey>, key: RowKey, next: Option<RowKey>)
    requires key in evnt && key !in todo && todo <= evnt.Keys && Visits(todo, next)
    ensures Chosen(evnt, query) - Rest(todo, next) - Current(next)
         == Chosen(evnt, query) - todo - {key} + if query.Selects(key) then {key} else {}
    ensures Rest(todo, next) <= evnt.Keys
  {
    assert key in Chosen(evnt, query) <==> query.Selects(key);
    assert Rest(todo, next) + Current(next) == todo;
  }

  lemma NextLine(t: Tables, scan: Scan, next: Option<RowKey>)
    requires Valid(t) && ScanCovers(t, scan) && LineSoFar(t, scan)
    requires scan.key.Some? && scan.phase.NextKey? && Visits(scan.todo, next)
    ensures ScanCovers(t, ScanOn(t, scan, next))
  {
    LeftBehind(t.evnt, scan.query, scan.todo, scan.key.value, next);
    if scan.query.Selects(scan.key.value) {
      KeysOfSnoc(scan.lines, scan.line);
      LineAdded(t, scan.query, scan.lines, scan.line);
    }
  }

  lemma NextKeyResolves(t: Tables, scan: Scan)
    requires Valid(t) && ScanCovers(t, scan) && (scan.key.Some? ==> scan.phase.FetchStats?)
    ensures LineSoFar(t, scan)
  {
    if scan.key.Some? {
      assert scan.key.value in t.evnt.Keys;
    }
  }

  lemma LineGoesOn(t: Tables, scan: Scan, next: Option<RowKey>)
    requires LineSoFar(t, scan) && scan.key.Some? && !scan.phase.NextKey?
    ensures LineSoFar(t, ScanOn(t, scan, next))
  {}

  lemma CoversStill(t: Tables, scan: Scan, next: Option<RowKey>)
    requires ScanCovers(t, scan) && scan.key.Some? && !scan.phase.NextKey?
    ensures ScanCovers(t, ScanOn(t, scan, next))
  {
    assert ScanOn(t, scan, next) == scan.(phase := ScanOn(t, scan, next).phase, line := ScanOn(t, scan, next).line);
  }

  lemma ScanStepValid(t: Tables, scan: Scan, next: Option<RowKey>)
    requires Valid(t) && ScanCovers(t, scan) && LineSoFar(t, scan) && scan.key.Some?
    requires scan.phase.NextKey? ==> Visits(scan.todo, next)
    ensures ScanCovers(t, ScanOn(t, scan, next)) && LineSoFar(t, ScanOn(t, scan, next))
    ensures ScanOn(t, scan, next).query == scan.query
  {
    if scan.phase.NextKey? {
      NextLine(t, scan, next);
      NextKeyResolves(t, ScanOn(t, scan, next));
    } else {
      LineGoesOn(t, scan, next);
      CoversStill(t, scan, next);
    }
  }

  lemma ScanKeeps(s: System, base: Tables, a: Action)
    requires Inv(s, base) && a.ScanStep? && Enabled(s, a)
    ensures Inv(Do(s, a), base)
  {
    assert HandleValid(s.t, base, s.handles[a.i]);
    ScanLocks(s, a);
    ScanTaskValid(s, base, a);
    QuietStep(s, Do(s, a), base, a.i);
  }

  lemma ScanLocks(s: System, a: Action)
    requires Locks(s) && a.ScanStep? && Enabled(s, a)
    requires s.handles[a.i].depth > 0
    ensures Locks(Do(s, a))
  {
    var h := s.handles[a.i];
    var task := h.task.(scan := ScanOn(s.t, h.task.scan, a.next));
    var phase := h.task.scan.phase;
    if phase.LockName? {
      AcquireLocks(s, a.i, task);
    } else if phase.UnlockName? {
      ReleaseLocks(s, a.i, task);
    } else {
      SetTaskLocks(s, a.i, task);
    }
  }

  lemma SetTaskLocks(s: System, i: nat, task: Task)
    requires i < |s.handles| && Locks(s)
    ensures Locks(SetTask(s, i, task))
  {}

  lemma ScanDepths(s: System, a: Action)
    requires a.ScanStep? && Enabled(s, a) && s.handles[a.i].depth >= ScanDepth(s.handles[a.i].task.scan)
    ensures var h, h' := s.handles[a.i], Do(s, a).handles[a.i];
            && h' == h.(depth := h'.depth, task := h.task.(scan := ScanOn(s.t, h.task.scan, a.next)))
            && h'.depth >= ScanDepth(h'.task.scan)
  {}

  lemma ScanTaskValid(s: System, base: Tables, a: Action)
    requires Valid(s.t) && a.ScanStep? && Enabled(s, a)
    requires HandleValid(s.t, base, s.handles[a.i])
    ensures HandleValid(s.t, base, Do(s, a).handles[a.i])
    ensures !WriterWorking(s.handles[a.i])
  {
    ScanDepths(s, a);
    ScanStepValid(s.t, s.handles[a.i].task.scan, a.next);
  }

  lemma FirstKeyCovers(t: Tables, query: Query, first: Option<RowKey>)
    requires Valid(t) && Visits(t.evnt.Keys, first)
    ensures ScanCovers(t, FirstScan(t, query, first)) && LineSoFar(t, FirstScan(t, query, first))
  {
    assert KeysOf([]) == {};
  }

  lemma StartScanKeeps(s: System, base: Tables, a: Action)
    requires Inv(s, base) && a.StartScan? && Enabled(s, a)
    ensures Inv(Do(s, a), base)
  {
    assert HandleValid(s.t, base, s.handles[a.i]);
    var task := Do(s, a).handles[a.i].task;
    FirstKeyCovers(s.t, task.scan.query, a.first);
    AcquireLocks(s, a.i, task);
    QuietStep(s, Do(s, a), base, a.i);
  }

  // ----------------------------------------------------------------- runs

  lemma DoKeeps(s: System, base: Tables, a: Action)
    requires Inv(s, base) && Enabled(s, a) && s.t.Bound() + 1 < TWO_64
    ensures Inv(Do(s, a), if a.Return? then After(base, s.handles[a.i].task.call) else base)
    ensures Do(s, a).t.Bound() <= s.t.Bound() + 1
  {
    match a {
      case Begin(_, _) => BeginKeeps(s, base, a);
      case Access(_) => AccessKeeps(s, base, a);
      case Return(_) => ReturnKeeps(s, base, a);
      case StartScan(_, _, _) => StartScanKeeps(s, base, a);
      case ScanStep(_, _) => ScanKeeps(s, base, a);
      case Learn(_, _) => LearnKeeps(s, base, a);
      case _ => LockKeeps(s, base, a);
    }
  }

  lemma OpenedValid(s: System)
    requires Opened(s)
    ensures Inv(s, s.t)
  {
    forall i | 0 <= i < |s.handles|
      ensures HandleValid(s.t, s.t, s.handles[i]) && s.handles[i].depth == 0
    {
      assert Fresh0(s.handles[i]);
    }
  }

  lemma ReplaySnoc(t: Tables, log: seq<Call>, call: Call)
    ensures Replay(t, log + [call]) == After(Replay(t, log), call)
  {
    assert (log + [call])[..|log|] == log;
  }

  lemma DoLog(s: System, a: Action)
    requires Enabled(s, a)
    ensures Do(s, a).log == if a.Return? then s.log + [s.handles[a.i].task.call] else s.log
  {}

  /** Every state of every run: the invariant, with the returned calls replayed one after the other as the base. */
  lemma {:induction false} RunInvariant(s0: System, actions: seq<Action>)
    requires Opened(s0) && s0.t.Bound() + |actions| < TWO_64
    requires Run(s0, actions).Some?
    ensures var s := Run(s0, actions).value;
            Inv(s, Replay(s0.t, s.log)) && s.t.Bound() <= s0.t.Bound() + |actions|
  {
    if actions == [] {
      OpenedValid(s0);
    } else {
      var earlier, a := actions[..|actions| - 1], actions[|actions| - 1];
      RunInvariant(s0, earlier);
      var s := Run(s0, earlier).value;
      DoKeeps(s, Replay(s0.t, s.log), a);
      DoLog(s, a);
      if a.Return? {
        ReplaySnoc(s0.t, s.log, s.handles[a.i].task.call);
      }
    }
  }

  /** Mutual exclusion, and valid tables, in every reachable state. */
  lemma RunSafe(s0: System, actions: seq<Action>)
    requires Opened(s0) && s0.t.Bound() + |actions| < TWO_64
    requires Run(s0, actions).Some?
    ensures var s := Run(s0, actions).value;
            Exclusion(s) && HoldersMatch(s) && Valid(s.t)
  {
    RunInvariant(s0, actions);
  }

  /**
   Serialisability: whenever no writer is inside a call, the tables are what the returned
   calls make of them one after the other; and a call that is about to return has the
   result it would have had alone at that point.
   */
  lemma RunSerial(s0: System, actions: seq<Action>, i: nat)
    requires Opened(s0) && s0.t.Bound() + |actions| < TWO_64
    requires Run(s0, actions).Some? && i < |s0.handles|
    ensures var s := Run(s0, actions).value;
            && (NoWriterWorking(s) ==> s.t == Replay(s0.t, s.log))
            && |s.handles| == |s0.handles|
            && (s.handles[i].task.Working? && s.handles[i].task.proc.pc.Returned? ==>
                  s.handles[i].task.proc == Result(Replay(s0.t, s.log), s.handles[i].task.call))
  {
    RunInvariant(s0, actions);
    RunLength(s0, actions);
    var s := Run(s0, actions).value;
    var base := Replay(s0.t, s.log);
    assert HandleValid(s.t, base, s.handles[i]);
    if s.handles[i].task.Working? && s.handles[i].task.proc.pc.Returned? {
      ReturnKeeps(s, base, Return(i));
    }
  }

  lemma {:induction false} RunLength(s0: System, actions: seq<Action>)
    requires Run(s0, actions).Some?
    ensures |Run(s0, actions).value.handles| == |s0.handles|
  {
    if actions != [] {
      RunLength(s0, actions[..|actions| - 1]);
    }
  }

  /** While some handle scans, no writer is at work. */
  lemma ScanIsQuiet(s: System, base: Tables, i: nat)
    requires Inv(s, base) && i < |s.handles| && s.handles[i].task.Scanning?
    ensures s.t == base
  {
    assert HandleValid(s.t, base, s.handles[i]);
    forall j | 0 <= j < |s.handles|
      ensures !WriterWorking(s.handles[j])
    {
      assert HandleValid(s.t, base, s.handles[j]);
    }
  }

  /**
   A scan is a snapshot: as long as it runs, the tables are the ones it started on, and
   they are what the calls returned so far have made of the first ones, whatever other
   handles do; the id it goes by is that of its path; no lookup in it fails; and when it
   has visited every key it has reported each row it was asked for once, with its names.
   */
  lemma RunSnapshot(s0: System, actions: seq<Action>, i: nat)
    requires Opened(s0) && s0.t.Bound() + |actions| < TWO_64
    requires Run(s0, actions).Some? && i < |Run(s0, actions).value.handles|
    requires Run(s0, actions).value.handles[i].task.Scanning?
    ensures var s := Run(s0, actions).value;
            var scan := s.handles[i].task.scan;
            && s.t == s.handles[i].task.entry == Replay(s0.t, s.log) && s.handles[i].depth > 0
            && QueryValid(s.t, scan.query) && LinesOf(s.t, scan.query, scan.lines)
            && (scan.key.Some? ==>
                  scan.key.value in s.t.evnt
                  && scan.key.value.execId in s.t.exec.rev && scan.key.value.fileId in s.t.file.rev)
            && (scan.key.None? ==> KeysOf(scan.lines) == Chosen(s.t.evnt, scan.query))
  {
    RunInvariant(s0, actions);
    var s := Run(s0, actions).value;
    assert HandleValid(s.t, Replay(s0.t, s.log), s.handles[i]);
    ScanIsQuiet(s, Replay(s0.t, s.log), i);
  }

  /** An id, once looked up, stays the id of that path for good. */
  lemma RunIdsStay(s0: System, actions: seq<Action>, i: nat, name: Name)
    requires Opened(s0) && s0.t.Bound() + |actions| < TWO_64
    requires Run(s0, actions).Some? && i < |Run(s0, actions).value.handles|
    requires name in Run(s0, actions).value.handles[i].ids
    ensures var s := Run(s0, actions).value;
            name.path in s.t.On(name.side).fwd && s.t.On(name.side).fwd[name.path] == s.handles[i].ids[name]
  {
    RunInvariant(s0, actions);
    var s := Run(s0, actions).value;
    assert HandleValid(s.t, Replay(s0.t, s.log), s.handles[i]);
  }
}
