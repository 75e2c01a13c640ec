/** Every update is counted once per query: what the three aggregations have in common. */
module Conservation {
  import opened Accesses
  import opened AccessLaws
  import opened CallLaws
  import opened Histories
  import opened Limits
  import opened Totals
  import opened UsageTables
  import opened Wrappers

  /** Equal as uint64_t. */
  ghost predicate Agree(a: nat, b: nat) {
    a % TWO_64 == b % TWO_64
  }

  /** A sum that goes up by one if something is counted, as uint64_t. */
  ghost predicate Moves(after: nat, before: nat, counted: bool) {
    Agree(after, before + if counted then 1 else 0)
  }

  // ------------------------------------------- per-path summaries and the dump

  /** The rows whose name on a side is one of the given paths. */
  ghost function RowsOf(t: Tables, side: Side, paths: set<string>): set<RowKey>
    requires RowsResolve(t)
  {
    set k | k in t.evnt && t.On(side).rev[IdOn(k, side)] in paths
  }

  lemma RowsOfPath(t: Tables, side: Side, path: string)
    requires Valid(t) && path in t.On(side).fwd
    ensures RowsOf(t, side, {path}) == Matching(t.evnt, side, t.On(side).fwd[path])
  {}

  /** The totals that the per-path queries print for these paths, added up. */
  ghost function SummariesOf(t: Tables, side: Side, paths: set<string>, flag: Usage): nat
    requires paths <= t.On(side).fwd.Keys
    decreases |paths|
  {
    if paths == {} then 0
    else
      var p :| p in paths;
      Sum(t.evnt, Matching(t.evnt, side, t.On(side).fwd[p]), flag) % TWO_64
      + SummariesOf(t, side, paths - {p}, flag)
  }

  lemma RowsOfSplit(t: Tables, side: Side, paths: set<string>, p: string, flag: Usage)
    requires Valid(t) && paths <= t.On(side).fwd.Keys && p in paths
    ensures Sum(t.evnt, RowsOf(t, side, paths), flag) ==
      Sum(t.evnt, Matching(t.evnt, side, t.On(side).fwd[p]), flag) + Sum(t.evnt, RowsOf(t, side, paths - {p}), flag)
  {
    RowsOfPath(t, side, p);
    var a, b := RowsOf(t, side, {p}), RowsOf(t, side, paths - {p});
    assert RowsOf(t, side, paths) == a + b;
    SumUnion(t.evnt, a, b, flag);
  }

  lemma {:induction false} SummariesAddUp(t: Tables, side: Side, paths: set<string>, flag: Usage)
    requires Valid(t) && paths <= t.On(side).fwd.Keys
    ensures Agree(SummariesOf(t, side, paths, flag), Sum(t.evnt, RowsOf(t, side, paths), flag))
    decreases |paths|
  {
    if paths == {} {
      assert RowsOf(t, side, paths) == {};
    } else {
      var p :| p in paths && SummariesOf(t, side, paths, flag) ==
        Sum(t.evnt, Matching(t.evnt, side, t.On(side).fwd[p]), flag) % TWO_64
        + SummariesOf(t, side, paths - {p}, flag);
      SummariesAddUp(t, side, paths - {p}, flag);
      RowsOfSplit(t, side, paths, p, flag);
      ModSum(SummariesOf(t, side, paths, flag),
             Sum(t.evnt, Matching(t.evnt, side, t.On(side).fwd[p]), flag), SummariesOf(t, side, paths - {p}, flag),
             Sum(t.evnt, RowsOf(t, side, paths - {p}), flag), Sum(t.evnt, RowsOf(t, side, paths), flag));
    }
  }

  lemma ModSum(total: nat, x: nat, s: nat, y: nat, all: nat)
    requires total == x % TWO_64 + s && Agree(s, y) && all == x + y
    ensures Agree(total, all)
  {
    AddMod(x, s);
    AddMod(s, x);
    AddMod(y, x);
  }

  /**
   The summaries of all executables add up to the dump total, and so do those of all files:
   every row belongs to exactly one path of either side.
   */
  lemma SummariesMatchDump(t: Tables, side: Side, flag: Usage)
    requires Valid(t)
    ensures Agree(SummariesOf(t, side, t.On(side).fwd.Keys, flag), Sum(t.evnt, t.evnt.Keys, flag))
  {
    SummariesAddUp(t, side, t.On(side).fwd.Keys, flag);
    assert RowsOf(t, side, t.On(side).fwd.Keys) == t.evnt.Keys;
  }

  // ------------------------------------------------- summaries and the history

  predicate Selects(op: Op, side: Side, path: Option<string>) {
    path.Some? ==> op.Path(side) == path.value
  }

  /** How many updates carry a flag: those of one path, or all. */
  function CountOn(ops: seq<Op>, side: Side, path: Option<string>, flag: Usage): nat {
    if ops == [] then 0
    else
      var last := ops[|ops| - 1];
      CountOn(ops[..|ops| - 1], side, path, flag)
      + if Selects(last, side, path) && last.change.Some? && flag in last.change.value.flags then 1 else 0
  }

  predicate Named(t: Tables, k: RowKey, side: Side, path: Option<string>) {
    path.Some? ==> IdOn(k, side) in t.On(side).rev && t.On(side).rev[IdOn(k, side)] == path.value
  }

  /** The rows a query is about: those of one path, or all. */
  function Selected(t: Tables, side: Side, path: Option<string>): set<RowKey> {
    set k | k in t.evnt && Named(t, k, side, path)
  }

  /** They are the rows the search loops pick by id. */
  lemma SelectedIsMatching(t: Tables, side: Side, path: string)
    requires Valid(t)
    ensures Selected(t, side, Some(path)) ==
      if path in t.On(side).fwd then Matching(t.evnt, side, t.On(side).fwd[path]) else {}
    ensures Selected(t, side, None) == t.evnt.Keys
  {}

  lemma SumReplaced(evnt: map<RowKey, Stats>, keys: set<RowKey>, key: RowKey, row: Stats, flag: Usage)
    requires keys <= evnt.Keys
    ensures keys + {key} <= evnt[key := row].Keys
    ensures Sum(evnt[key := row], keys + {key}, flag) + (if key in keys then Counter(evnt[key], flag) else 0)
         == Sum(evnt, keys, flag) + Counter(row, flag)
  {
    var evnt' := evnt[key := row];
    SumRemove(evnt', keys + {key}, flag, key);
    assert keys + {key} - {key} == keys - {key};
    SumSame(evnt, evnt', keys - {key}, flag);
    if key in keys {
      SumRemove(evnt, keys, flag, key);
    } else {
      assert keys - {key} == keys;
    }
  }

  lemma CounterUpdated(row: Stats, change: Change, flag: Usage)
    ensures Counter(Updated(row, change.flags, change.timestamp), flag) ==
      Bump(Counter(row, flag), flag in change.flags && flag != DELET)
  {}

  lemma BumpedSum(sum': nat, sum: nat, counter: u64, counted: bool)
    requires sum' + counter == sum + Bump(counter, counted)
    ensures Moves(sum', sum, counted)
  {}

  /** A growing index changes no row's name. */
  lemma NamedStays(t: Tables, t': Tables, k: RowKey, side: Side, path: Option<string>)
    requires RowsResolve(t) && Grows(t, t') && k in t.evnt
    ensures Named(t', k, side, path) == Named(t, k, side, path)
  {}

  /** What one successful update does to the rows a query is about. */
  lemma SelectedUpdate(t: Tables, t': Tables, op: Op, id: RowKey, side: Side, path: Option<string>)
    requires RowsResolve(t) && Grows(t, t') && t'.evnt.Keys == t.evnt.Keys + {id}
    requires Indexed(t', Exec, op.exe, id.execId) && Indexed(t', File, op.file, id.fileId)
    ensures Selected(t', side, path) == Selected(t, side, path) + if Selects(op, side, path) then {id} else {}
    ensures id in t.evnt ==> (Selects(op, side, path) <==> id in Selected(t, side, path))
  {
    assert Named(t', id, side, path) == Selects(op, side, path);
    forall k | k in t.evnt
      ensures Named(t', k, side, path) == Named(t, k, side, path)
    {
      NamedStays(t, t', k, side, path);
    }
    assert forall k :: k in Selected(t, side, path) <==> k in t.evnt && Named(t, k, side, path);
    assert forall k :: k in Selected(t', side, path) <==> k in t'.evnt.Keys && Named(t', k, side, path);
  }

  lemma SelectedSame(t: Tables, t': Tables, side: Side, path: Option<string>)
    requires RowsResolve(t) && Grows(t, t') && t'.evnt == t.evnt
    ensures Selected(t', side, path) == Selected(t, side, path)
  {
    forall k | k in t.evnt
      ensures Named(t', k, side, path) == Named(t, k, side, path)
    {
      NamedStays(t, t', k, side, path);
    }
  }

  lemma SumOfReplaced(evnt: map<RowKey, Stats>, evnt': map<RowKey, Stats>, keys: set<RowKey>,
                      op: Op, id: RowKey, flag: Usage)
    requires keys <= evnt.Keys && op.change.Some? && flag != DELET && (id in evnt ==> id in keys)
    requires evnt' == evnt[id := Updated(if id in evnt then evnt[id] else ZERO,
                                         op.change.value.flags, op.change.value.timestamp)]
    ensures Moves(Sum(evnt', keys + {id}, flag), Sum(evnt, keys, flag), flag in op.change.value.flags)
  {
    var change := op.change.value;
    var row := if id in evnt then evnt[id] else ZERO;
    SumReplaced(evnt, keys, id, Updated(row, change.flags, change.timestamp), flag);
    CounterUpdated(row, change, flag);
    BumpedSum(Sum(evnt', keys + {id}, flag), Sum(evnt, keys, flag), Counter(row, flag), flag in change.flags);
  }

  /** The call is an update that returned 0, about the path, with the flag. */
  predicate Counted(t: Tables, call: Call, side: Side, path: Option<string>, flag: Usage) {
    call.op.change.Some? && ReturnCode(t, call) == 0
    && Selects(call.op, side, path) && flag in call.op.change.value.flags
  }

  lemma UpdateCounts(t: Tables, t': Tables, op: Op, id: RowKey, side: Side, path: Option<string>, flag: Usage)
    requires RowsResolve(t) && Grows(t, t') && op.change.Some? && flag != DELET
    requires Indexed(t', Exec, op.exe, id.execId) && Indexed(t', File, op.file, id.fileId)
    requires t'.evnt == t.evnt[id := Updated(if id in t.evnt then t.evnt[id] else ZERO,
                                             op.change.value.flags, op.change.value.timestamp)]
    ensures Moves(Sum(t'.evnt, Selected(t', side, path), flag), Sum(t.evnt, Selected(t, side, path), flag),
                  Selects(op, side, path) && flag in op.change.value.flags)
  {
    SelectedUpdate(t, t', op, id, side, path);
    SelectedCounts(t.evnt, t'.evnt, Selected(t, side, path), Selected(t', side, path),
                   op, id, Selects(op, side, path), flag);
  }

  lemma SelectedCounts(evnt: map<RowKey, Stats>, evnt': map<RowKey, Stats>, keys: set<RowKey>, keys': set<RowKey>,
                       op: Op, id: RowKey, selects: bool, flag: Usage)
    requires keys <= evnt.Keys && op.change.Some? && flag != DELET && (id in evnt ==> (selects <==> id in keys))
    requires evnt' == evnt[id := Updated(if id in evnt then evnt[id] else ZERO,
                                         op.change.value.flags, op.change.value.timestamp)]
    requires keys' == keys + if selects then {id} else {}
    ensures Moves(Sum(evnt', keys', flag), Sum(evnt, keys, flag), selects && flag in op.change.value.flags)
  {
    if selects {
      SumOfReplaced(evnt, evnt', keys, op, id, flag);
    } else {
      assert keys' == keys;
      SumUntouched(evnt, evnt', keys, id, flag);
    }
  }

  lemma SumUntouched(evnt: map<RowKey, Stats>, evnt': map<RowKey, Stats>, keys: set<RowKey>, id: RowKey, flag: Usage)
    requires keys <= evnt.Keys && id !in keys && evnt'.Keys == evnt.Keys + {id}
    requires forall k | k in evnt && k != id :: evnt'[k] == evnt[k]
    ensures Sum(evnt', keys, flag) == Sum(evnt, keys, flag)
  {
    SumSame(evnt, evnt', keys, flag);
  }

  lemma CallCounts(t: Tables, call: Call, side: Side, path: Option<string>, flag: Usage)
    requires Valid(t) && t.Bound() + 2 < TWO_64 && call.answers(FetchRow).Works? && flag != DELET
    ensures var t' := After(t, call);
            Moves(Sum(t'.evnt, Selected(t', side, path), flag), Sum(t.evnt, Selected(t, side, path), flag),
                  Counted(t, call, side, path, flag))
  {
    CallKeeps(t, call);
    CallRows(t, call);
    var t' := After(t, call);
    if call.op.change.Some? && ReturnCode(t, call) == 0 {
      UpdateCounts(t, t', call.op, Result(t, call).Key(), side, path, flag);
    } else {
      SelectedSame(t, t', side, path);
    }
  }

  /**
   The total of a query (of one executable, of one file, or of the dump) is the number of
   successful updates it is about that carry the flag.
   */
  lemma {:induction false} RunCounts(calls: seq<Call>, side: Side, path: Option<string>, flag: Usage)
    requires 2 * |calls| < TWO_64 && flag != DELET
    requires forall i | 0 <= i < |calls| :: calls[i].answers(FetchRow).Works?
    ensures var t := Replay(INITIAL, calls);
            Agree(Sum(t.evnt, Selected(t, side, path), flag),
                  CountOn(Successes(INITIAL, calls), side, path, flag))
  {
    if calls == [] {
      assert Selected(INITIAL, side, path) == {};
    } else {
      var n := |calls| - 1;
      RunCounts(calls[..n], side, path, flag);
      RunKeeps(INITIAL, calls[..n]);
      var t := Replay(INITIAL, calls[..n]);
      var done := Successes(INITIAL, calls[..n]);
      CountsStep(t, done, calls[n], side, path, flag);
    }
  }

  lemma CountsStep(t: Tables, done: seq<Op>, call: Call, side: Side, path: Option<string>, flag: Usage)
    requires Valid(t) && t.Bound() + 2 < TWO_64 && call.answers(FetchRow).Works? && flag != DELET
    requires Agree(Sum(t.evnt, Selected(t, side, path), flag), CountOn(done, side, path, flag))
    ensures var t' := After(t, call);
            var done' := if call.op.change.Some? && ReturnCode(t, call) == 0 then done + [call.op] else done;
            Agree(Sum(t'.evnt, Selected(t', side, path), flag), CountOn(done', side, path, flag))
  {
    CallCounts(t, call, side, path, flag);
    CountOnCall(t, done, call, side, path, flag);
    var t' := After(t, call);
    MovesTogether(Sum(t'.evnt, Selected(t', side, path), flag), Sum(t.evnt, Selected(t, side, path), flag),
                  CountOn(done, side, path, flag), Counted(t, call, side, path, flag));
  }

  lemma CountOnCall(t: Tables, done: seq<Op>, call: Call, side: Side, path: Option<string>, flag: Usage)
    ensures CountOn(if call.op.change.Some? && ReturnCode(t, call) == 0 then done + [call.op] else done,
                    side, path, flag)
         == CountOn(done, side, path, flag) + if Counted(t, call, side, path, flag) then 1 else 0
  {
    CountOnSnoc(done, call.op, side, path, flag);
  }

  lemma CountOnSnoc(ops: seq<Op>, op: Op, side: Side, path: Option<string>, flag: Usage)
    ensures CountOn(ops + [op], side, path, flag) == CountOn(ops, side, path, flag)
      + if Selects(op, side, path) && op.change.Some? && flag in op.change.value.flags then 1 else 0
  {
    assert (ops + [op])[..|ops|] == ops;
  }

  lemma MovesTogether(x': nat, x: nat, y: nat, counted: bool)
    requires Moves(x', x, counted) && Agree(x, y)
    ensures Agree(x', y + if counted then 1 else 0)
  {
    AddMod(x, if counted then 1 else 0);
    AddMod(y, if counted then 1 else 0);
  }

  /** Double counting: executables, files, the dump and the history agree counter by counter. */
  lemma DoubleCounting(calls: seq<Call>, flag: Usage)
    requires 2 * |calls| < TWO_64 && flag != DELET
    requires forall i | 0 <= i < |calls| :: calls[i].answers(FetchRow).Works?
    ensures var t := Replay(INITIAL, calls);
            var all := CountOn(Successes(INITIAL, calls), Exec, None, flag);
            && Agree(Sum(t.evnt, t.evnt.Keys, flag), all)
            && Agree(SummariesOf(t, Exec, t.exec.fwd.Keys, flag), all)
            && Agree(SummariesOf(t, File, t.file.fwd.Keys, flag), all)
  {
    RunKeeps(INITIAL, calls);
    var t := Replay(INITIAL, calls);
    RunCounts(calls, Exec, None, flag);
    SelectedIsMatching(t, Exec, "");
    SummariesMatchDump(t, Exec, flag);
    SummariesMatchDump(t, File, flag);
  }
}
