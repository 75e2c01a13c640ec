/** How the id counter relates to the ids in use. */
module IdArithmetic {
  import opened AccessLaws
  import opened Accesses
  import opened CallLaws
  import opened Histories
  import opened Limits
  import opened UsageTables

  function Ids(ix: Index): set<int> {
    set p | p in ix.fwd :: ix.fwd[p] as int
  }

  /** The numbers from 0 to n - 1. */
  function Below(n: nat): (r: set<int>)
    ensures |r| == n
    ensures forall i :: i in r <==> 0 <= i < n
  {
    if n == 0 then {} else Below(n - 1) + {n - 1}
  }

  lemma {:induction false} InjectiveSize(m: map<string, u64>, keys: set<string>)
    requires keys <= m.Keys
    requires forall p, q | p in m && q in m && m[p] == m[q] :: p == q
    ensures |set p | p in keys :: m[p] as int| == |keys|
  {
    if keys != {} {
      var k :| k in keys;
      InjectiveSize(m, keys - {k});
      var fewer := set p | p in keys - {k} :: m[p] as int;
      assert (set p | p in keys :: m[p] as int) == fewer + {m[k] as int};
      assert m[k] as int !in fewer;
    }
  }

  lemma IdsSize(ix: Index, bound: int)
    requires IndexValid(ix, bound)
    ensures |Ids(ix)| == |ix.fwd|
  {
    InjectiveSize(ix.fwd, ix.fwd.Keys);
    assert Ids(ix) == set p | p in ix.fwd.Keys :: ix.fwd[p] as int;
  }

  lemma {:induction false} SubsetSize<T>(a: set<T>, b: set<T>)
    requires a <= b
    ensures |a| <= |b|
    ensures |a| == |b| ==> a == b
  {
    if a != {} {
      var x :| x in a;
      SubsetSize(a - {x}, b - {x});
    }
  }

  /**
   With any failures the counter is at least the number of known paths; where it is equal,
   every id below it is in use.
   */
  lemma CounterCovers(t: Tables)
    requires Valid(t)
    ensures |t.exec.fwd| + |t.file.fwd| <= t.Bound()
    ensures |t.exec.fwd| + |t.file.fwd| == t.Bound() <==> Ids(t.exec) + Ids(t.file) == Below(t.Bound())
  {
    var a, b := Ids(t.exec), Ids(t.file);
    IdsSize(t.exec, t.Bound());
    IdsSize(t.file, t.Bound());
    assert a !! b;
    assert |a + b| == |a| + |b|;
    SubsetSize(a + b, Below(t.Bound()));
  }

  // ---------------------------------------------------- runs without failures

  ghost predicate NeverFails(call: Call) {
    call.writable && forall site :: call.answers(site).Works?
  }

  /** The counter is the number of known paths, but for an id that is taken and not yet stored. */
  predicate Dense(t: Tables, p: Proc) {
    && ID_ENTRY in t.idtb
    && t.Bound() == |t.exec.fwd| + |t.file.fwd| + (if p.pc.At? && p.pc.site.StoreId? then 1 else 0)
    && (p.pc.Returned? ==> p.pc.rc == 0)
  }

  lemma StepDense(t: Tables, p: Proc, call: Call)
    requires p.pc.At? && Knows(t, p, call.op) && Room(t, p) && NeverFails(call)
    requires Dense(t, p) && (p.pc.site.StoreRow? ==> call.op.change.Some?)
    ensures Dense(Step(t, p, call).0, Step(t, p, call).1)
    ensures Step(t, p, call).1.pc == At(StoreRow) ==> call.op.change.Some?
  {}

  /** Without failures a call returns 0, and again the ids in use are exactly those below the counter. */
  lemma CallDense(t: Tables, call: Call)
    requires Valid(t) && t.Bound() + 2 < TWO_64 && Dense(t, START) && NeverFails(call)
    ensures ReturnCode(t, call) == 0 && Dense(After(t, call), START)
  {
    var inv := (t1: Tables, p1: Proc) =>
      Midway(t, t1, p1, call.op) && Dense(t1, p1) && (p1.pc == At(StoreRow) ==> call.op.change.Some?);
    forall t1: Tables, p1: Proc | p1.pc.At? && inv(t1, p1)
      ensures inv(Step(t1, p1, call).0, Step(t1, p1, call).1)
    {
      StepMidway(t, t1, p1, call);
      StepDense(t1, p1, call);
    }
    FinishInduction(inv, t, START, call);
  }

  ghost predicate NoneFails(calls: seq<Call>) {
    forall i | 0 <= i < |calls| :: NeverFails(calls[i])
  }

  /** The operations of a run that change a row. */
  function Changes(calls: seq<Call>): seq<Op> {
    if calls == [] then []
    else
      var last := calls[|calls| - 1];
      Changes(calls[..|calls| - 1]) + if last.op.change.Some? then [last.op] else []
  }

  lemma {:induction false} RunStaysDense(calls: seq<Call>)
    requires 2 * |calls| < TWO_64 && NoneFails(calls)
    ensures Dense(Replay(INITIAL, calls), START) && Successes(INITIAL, calls) == Changes(calls)
  {
    if calls != [] {
      var n := |calls| - 1;
      RunStaysDense(calls[..n]);
      RunKeeps(INITIAL, calls[..n]);
      CallDense(Replay(INITIAL, calls[..n]), calls[n]);
    }
  }

  /** Runs without failures: every update counts, and the ids in use are exactly 0 to counter - 1. */
  lemma RunDense(calls: seq<Call>)
    requires 2 * |calls| < TWO_64 && NoneFails(calls)
    ensures var t := Replay(INITIAL, calls);
            && t.Bound() == |t.exec.fwd| + |t.file.fwd|
            && Ids(t.exec) + Ids(t.file) == Below(t.Bound()) && Ids(t.exec) !! Ids(t.file)
    ensures Successes(INITIAL, calls) == Changes(calls)
  {
    RunStaysDense(calls);
    RunKeeps(INITIAL, calls);
    CounterCovers(Replay(INITIAL, calls));
  }

  // ------------------------------------------------------------- id lookups

  /** db_exec_get_id and db_file_get_id, when the fetch works. */
  function GetId(t: Tables, side: Side, path: string): u64 {
    if path in t.On(side).fwd then t.On(side).fwd[path] else NOT_FOUND
  }

  /** The sentinel says exactly that the path is unknown; no path ever has it as its id. */
  lemma SentinelIffAbsent(t: Tables, side: Side, path: string)
    requires Valid(t)
    ensures GetId(t, side, path) == NOT_FOUND <==> path !in t.On(side).fwd
  {}
}
