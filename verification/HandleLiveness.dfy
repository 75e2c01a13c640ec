/** What the interleaved handles can do: who gets the lock, and that calls and queries run to their end. */
module HandleLiveness {
  import opened Accesses
  import opened CallCodes
  import opened HandleLaws
  import opened HandleRefinement
  import opened Handles
  import opened Histories
  import opened Limits
  import opened UsageTables
  import opened Wrappers
  import C = ConcurrentReports

  // ------------------------------------------------------------ who gets the lock

  /** The other handles inside a lock, if any, are readers, and so is this one. */
  ghost predicate Free(s: System, i: nat)
    requires i < |s.handles|
  {
    forall j | 0 <= j < |s.handles| && j != i && s.handles[j].depth > 0 ::
      !s.handles[j].writer && !s.handles[i].writer
  }

  lemma GrantedIffFree(s: System, i: nat)
    requires HoldersMatch(s) && i < |s.handles| && s.handles[i].depth == 0
    ensures Grantable(s, i) <==> Free(s, i)
  {
    assert i !in s.holders;
    if Grantable(s, i) {
      forall j | 0 <= j < |s.handles| && j != i && s.handles[j].depth > 0
        ensures !s.handles[j].writer && !s.handles[i].writer
      {
        assert j in s.holders;
      }
    }
    if Free(s, i) {
      FreeIsGranted(s, i);
    }
  }

  lemma FreeIsGranted(s: System, i: nat)
    requires HoldersMatch(s) && i < |s.handles| && s.handles[i].depth == 0 && Free(s, i)
    ensures Grantable(s, i)
  {
    if s.handles[i].writer {
      forall j: nat
        ensures j !in s.holders
      {
        assert j in s.holders <==> j < |s.handles| && s.handles[j].depth > 0;
      }
      assert s.holders == {};
    } else {
      forall j | j in s.holders
        ensures j < |s.handles| && !s.handles[j].writer
      {
        assert j < |s.handles| && s.handles[j].depth > 0 && j != i;
      }
    }
  }

  /**
   In every reachable state, an idle handle without a lock gets it at once if and only if
   every other handle inside a lock is a reader and, for a writer, there is none.  The same
   decides whether a call or a scan can start.
   */
  lemma RunEnables(s0: System, actions: seq<Action>, i: nat, call: Call, about: Option<Name>, first: Option<RowKey>)
    requires Opened(s0) && s0.t.Bound() + |actions| < TWO_64 && Run(s0, actions).Some?
    requires i < |Run(s0, actions).value.handles|
    requires Run(s0, actions).value.handles[i].task.Idle? && Run(s0, actions).value.handles[i].depth == 0
    ensures var s := Run(s0, actions).value;
            && (Enabled(s, Action.Lock(i)) <==> Free(s, i))
            && (Enabled(s, Begin(i, call)) <==> Free(s, i) && call.writable == s.handles[i].writer)
            && (Enabled(s, StartScan(i, about, first)) <==>
                  && Free(s, i) && (about.Some? ==> about.value in s.handles[i].ids)
                  && (if first.Some? then first.value in s.t.evnt else s.t.evnt == map[]))
  {
    RunInvariant(s0, actions);
    EnabledIffFree(Run(s0, actions).value, i, call, about, first);
  }

  lemma EnabledIffFree(s: System, i: nat, call: Call, about: Option<Name>, first: Option<RowKey>)
    requires HoldersMatch(s) && i < |s.handles| && s.handles[i].task.Idle? && s.handles[i].depth == 0
    ensures Enabled(s, Action.Lock(i)) <==> Free(s, i)
    ensures Enabled(s, Begin(i, call)) <==> Free(s, i) && call.writable == s.handles[i].writer
    ensures Enabled(s, StartScan(i, about, first)) <==>
      && Free(s, i) && (about.Some? ==> about.value in s.handles[i].ids)
      && (if first.Some? then first.value in s.t.evnt else s.t.evnt == map[])
  {
    GrantedIffFree(s, i);
    assert s.t.evnt.Keys == {} <==> s.t.evnt == map[];
  }

  // --------------------------------------------------------------- longer runs

  lemma {:induction false} RunJoins(s: System, a: seq<Action>, b: seq<Action>)
    requires Run(s, a).Some?
    ensures Run(s, a + b) == Run(Run(s, a).value, b)
  {
    if b == [] {
      assert a + b == a;
    } else {
      var n := |b| - 1;
      RunJoins(s, a, b[..n]);
      assert (a + b)[..|a + b| - 1] == a + b[..n];
      assert (a + b)[|a + b| - 1] == b[n];
    }
  }

  lemma RunOne(s: System, a: Action)
    requires Enabled(s, a)
    ensures Run(s, [a]) == Some(Do(s, a))
  {
    assert [a][..0] == [];
    assert Run(s, []) == Some(s);
  }

  lemma RunFirst(s: System, a: Action, rest: seq<Action>)
    requires Enabled(s, a)
    ensures Run(s, [a] + rest) == Run(Do(s, a), rest)
  {
    RunOne(s, a);
    RunJoins(s, [a], rest);
  }

  lemma {:induction false} AccessesRun(s: System, i: nat) returns (more: seq<Action>)
    requires i < |s.handles| && s.handles[i].task.Working?
    ensures Run(s, more) == Some(Accessed(s, i))
    decreases Rank(s.handles[i].task.proc.pc)
  {
    if s.handles[i].task.proc.pc.Returned? {
      more := [];
    } else {
      var rest := AccessesRun(Do(s, Access(i)), i);
      RunFirst(s, Access(i), rest);
      more := [Access(i)] + rest;
    }
  }

  /** Once begun, a call can run to its end. */
  lemma CallRuns(s: System, i: nat, call: Call) returns (more: seq<Action>)
    requires Enabled(s, Begin(i, call))
    ensures Run(s, more) == Some(Called(s, i, call))
  {
    var begun := Do(s, Begin(i, call));
    var rest := AccessesRun(begun, i);
    AccessedFinishes(begun, i);
    RunOne(Accessed(begun, i), Return(i));
    RunJoins(begun, rest, [Return(i)]);
    RunFirst(s, Begin(i, call), rest + [Return(i)]);
    more := [Begin(i, call)] + (rest + [Return(i)]);
  }

  /** Whenever the lock is free for a handle, it can make any call, and the call does what it does alone. */
  lemma CallCompletes(s0: System, actions: seq<Action>, i: nat, call: Call) returns (more: seq<Action>)
    requires Opened(s0) && s0.t.Bound() + |actions| < TWO_64 && Run(s0, actions).Some?
    requires i < |Run(s0, actions).value.handles| && Run(s0, actions).value.handles[i].task.Idle?
    requires Run(s0, actions).value.handles[i].depth > 0 || Free(Run(s0, actions).value, i)
    requires call.writable == Run(s0, actions).value.handles[i].writer
    ensures var s := Run(s0, actions).value;
            var end := Run(s0, actions + more);
            && end.Some? && end.value.t == After(s.t, call) && end.value.log == s.log + [call]
            && end.value.handles == s.handles
  {
    var s := Run(s0, actions).value;
    RunInvariant(s0, actions);
    if s.handles[i].depth == 0 {
      GrantedIffFree(s, i);
    }
    more := CallRuns(s, i, call);
    CalledIs(s, i, call);
    RunJoins(s0, actions, more);
  }

  // -------------------------------------------------------------------- queries

  function PhaseRank(phase: Phase): nat {
    match phase
    case FetchStats => 7
    case LockName(side) => if side.Exec? then 6 else 3
    case ReadName(side) => if side.Exec? then 5 else 2
    case UnlockName(side) => if side.Exec? then 4 else 1
    case NextKey => 0
  }

  function Left(scan: Scan): nat {
    if scan.key.Some? then |scan.todo| + 1 else 0
  }

  /** The scan of handle i is at its end; tables and log are what they were, and so is the question. */
  ghost predicate AtEnd(s: System, end: System, i: nat) {
    && i < |s.handles| == |end.handles| && end.t == s.t && end.log == s.log
    && s.handles[i].task.Scanning? && end.handles[i].task.Scanning?
    && end.handles[i].task.scan.query == s.handles[i].task.scan.query
    && end.handles[i].task.scan.key.None?
  }

  lemma StepOn(s: System, i: nat, next: Option<RowKey>)
    requires i < |s.handles| && s.handles[i].task.Scanning? && s.handles[i].task.scan.key.Some?
    requires if s.handles[i].task.scan.todo == {} then next.None?
             else next.Some? && next.value in s.handles[i].task.scan.todo
    ensures Enabled(s, ScanStep(i, next))
    ensures var s' := Do(s, ScanStep(i, next));
            && |s'.handles| == |s.handles| && s'.t == s.t && s'.log == s.log
            && s'.handles[i].task.Scanning?
            && s'.handles[i].task.scan == ScanOn(s.t, s.handles[i].task.scan, next)
  {}

  lemma ScanOnLess(t: Tables, scan: Scan, next: Option<RowKey>)
    requires scan.key.Some?
    requires if scan.todo == {} then next.None? else next.Some? && next.value in scan.todo
    ensures var after := ScanOn(t, scan, next);
            && after.query == scan.query
            && Left(after) <= Left(scan)
            && (Left(after) == Left(scan) ==> PhaseRank(after.phase) < PhaseRank(scan.phase))
  {}

  /** A scan can always run to its end, without any other handle. */
  lemma {:induction false} ScanRuns(s: System, i: nat) returns (more: seq<Action>)
    requires i < |s.handles| && s.handles[i].task.Scanning?
    ensures Run(s, more).Some? && AtEnd(s, Run(s, more).value, i)
    decreases Left(s.handles[i].task.scan), PhaseRank(s.handles[i].task.scan.phase)
  {
    var scan := s.handles[i].task.scan;
    if scan.key.None? {
      more := [];
    } else {
      var next: Option<RowKey> := None;
      if scan.todo != {} {
        var k :| k in scan.todo;
        next := Some(k);
      }
      StepOn(s, i, next);
      ScanOnLess(s.t, scan, next);
      var rest := ScanRuns(Do(s, ScanStep(i, next)), i);
      RunFirst(s, ScanStep(i, next), rest);
      more := [ScanStep(i, next)] + rest;
    }
  }

  /** The lookup of a known path. */
  lemma LookUpRuns(s: System, i: nat, name: Name)
    requires i < |s.handles| && s.handles[i].task.Idle? && Grantable(s, i) && HoldersMatch(s)
    requires name.path in s.t.On(name.side).fwd
    ensures Run(s, [Action.Lock(i), Learn(i, name), Action.Unlock(i)]) == Some(Learned(s, i, name))
    ensures var s' := Learned(s, i, name);
            && |s'.handles| == |s.handles| && s'.t == s.t && s'.log == s.log
            && name in s'.handles[i].ids && s'.handles[i].task.Idle? && Grantable(s', i)
  {
    var lock, learn, unlock := Action.Lock(i), Learn(i, name), Action.Unlock(i);
    var s1 := Do(s, lock);
    var s2 := Do(s1, learn);
    RunOne(s2, unlock);
    RunFirst(s1, learn, [unlock]);
    RunFirst(s, lock, [learn] + [unlock]);
    assert [lock] + ([learn] + [unlock]) == [lock, learn, unlock];
    GrantedAgain(s, i, name);
  }

  lemma GrantedAgain(s: System, i: nat, name: Name)
    requires i < |s.handles| && s.handles[i].task.Idle? && Grantable(s, i) && HoldersMatch(s)
    ensures Grantable(Learned(s, i, name), i)
  {
    var s' := Learned(s, i, name);
    assert s'.handles[i].depth == s.handles[i].depth && s'.handles[i].writer == s.handles[i].writer;
    if s.handles[i].depth == 0 {
      assert i !in s.holders;
      assert s'.holders == s.holders;
    }
  }

  /**
   Whenever the lock is free for a handle, a query about any known path can run from its
   lookup to its last line, on the tables as they are.
   */
  lemma QueryCompletes(s0: System, actions: seq<Action>, i: nat, name: Name) returns (more: seq<Action>)
    requires Opened(s0) && s0.t.Bound() + |actions| < TWO_64 && Run(s0, actions).Some?
    requires i < |Run(s0, actions).value.handles| && Run(s0, actions).value.handles[i].task.Idle?
    requires Run(s0, actions).value.handles[i].depth > 0 || Free(Run(s0, actions).value, i)
    requires name.path in Run(s0, actions).value.t.On(name.side).fwd
    ensures var s := Run(s0, actions).value;
            var end := Run(s0, actions + more);
            end.Some? && C.Finished(end.value, i, name) && end.value.t == s.t && end.value.log == s.log
  {
    var s := Run(s0, actions).value;
    RunInvariant(s0, actions);
    if s.handles[i].depth == 0 {
      GrantedIffFree(s, i);
    }
    LookUpRuns(s, i, name);
    var rest := QueryRuns(Learned(s, i, name), i, name);
    var lookUp := [Action.Lock(i), Learn(i, name), Action.Unlock(i)];
    RunJoins(s, lookUp, rest);
    more := lookUp + rest;
    RunJoins(s0, actions, more);
  }

  lemma QueryRuns(s: System, i: nat, name: Name) returns (more: seq<Action>)
    requires i < |s.handles| && s.handles[i].task.Idle? && Grantable(s, i) && name in s.handles[i].ids
    ensures Run(s, more).Some? && C.Finished(Run(s, more).value, i, name)
    ensures Run(s, more).value.t == s.t && Run(s, more).value.log == s.log
  {
    var first: Option<RowKey> := None;
    if s.t.evnt.Keys != {} {
      var k :| k in s.t.evnt.Keys;
      first := Some(k);
    }
    var start := StartScan(i, Some(name), first);
    var rest := ScanRuns(Do(s, start), i);
    RunFirst(s, start, rest);
    more := [start] + rest;
  }

  // ----------------------------------------------------------------------- runs

  function Newly(writer: bool): Handle {
    Handle(writer, 0, Idle, map[])
  }

  /** Two readers hold the lock together. */
  lemma ReadersShare()
    ensures var s0 := System(INITIAL, [Newly(false), Newly(false)], {}, []);
            var end := Run(s0, [Action.Lock(0), Action.Lock(1)]);
            && Opened(s0) && end.Some? && end.value.holders == {0, 1}
            && end.value.handles[0].depth == 1 && end.value.handles[1].depth == 1
  {
    var s0 := System(INITIAL, [Newly(false), Newly(false)], {}, []);
    RunOne(Do(s0, Action.Lock(0)), Action.Lock(1));
    RunFirst(s0, Action.Lock(0), [Action.Lock(1)]);
    assert [Action.Lock(0)] + [Action.Lock(1)] == [Action.Lock(0), Action.Lock(1)];
  }

  /** The update of a writer beside a reader, on any valid tables. */
  lemma WriterRuns(t: Tables, call: Call) returns (actions: seq<Action>)
    requires Valid(t) && t.Bound() < TWO_64 && call.writable
    ensures var s0 := System(t, [Newly(true), Newly(false)], {}, []);
            var end := Run(s0, actions);
            Opened(s0) && end.Some? && end.value.log == [call] && end.value.t == After(t, call)
  {
    var s0 := System(t, [Newly(true), Newly(false)], {}, []);
    assert Run(s0, []) == Some(s0);
    actions := CallCompletes(s0, [], 0, call);
    assert [] + actions == actions;
  }

  /** A writer beside a reader completes an update, and it counts. */
  lemma WriterUpdates() returns (actions: seq<Action>)
    ensures var s0 := System(ONE_ROW, [Newly(true), Newly(false)], {}, []);
            var end := Run(s0, actions);
            && Opened(s0) && end.Some? && end.value.log == [Call(READ_ONCE_MORE, true, NEVER_FAILS)]
            && HasRow(end.value.t, "/e", "/f", Stats(2, 0, 0, 0, 6))
  {
    OneRowValid();
    ReadTwice();
    actions := WriterRuns(ONE_ROW, Call(READ_ONCE_MORE, true, NEVER_FAILS));
  }
}
