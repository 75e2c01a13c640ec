/**
 db_update and db_fetch, one table access at a time.  Any access may fail: the storage
 layer is an arbitrary function from access sites to outcomes.  No call visits a site twice.
 */
module Accesses {
  import opened Limits
  import opened UsageTables
  import opened Wrappers

  /** How gdbm answers: it works, returns +1, or returns -1 (a fetch then reports an error). */
  datatype Outcome = Works | Rejected | Broken

  datatype Site =
    | FetchId(side: Side)
    | FetchCounter(side: Side)
    | StoreCounter(side: Side)
    | StoreId(side: Side)
    | StorePath(side: Side)
    | FetchRow
    | StoreRow

  datatype Change = Change(flags: Flags, timestamp: u64)

  /** db_update carries a change, db_fetch does not. */
  datatype Op = Op(exe: string, file: string, change: Option<Change>) {
    function Path(side: Side): string {
      if side.Exec? then exe else file
    }
  }

  datatype Call = Call(op: Op, writable: bool, answers: Site -> Outcome) {
    /** The return code of gdbm_store at a site. */
    function Stored(site: Site): int {
      if writable && answers(site).Works? then 0
      else if answers(site).Rejected? then 1
      else -1
    }
  }

  datatype Pc = At(site: Site) | Returned(rc: int)

  /** The local variables: where the call is, the two ids and the row. */
  datatype Proc = Proc(pc: Pc, execId: u64, fileId: u64, row: Option<Stats>) {
    function Id(side: Side): u64 {
      if side.Exec? then execId else fileId
    }

    function WithId(side: Side, id: u64): Proc {
      if side.Exec? then this.(execId := id) else this.(fileId := id)
    }

    function Key(): RowKey {
      RowKey(execId, fileId)
    }
  }

  const START := Proc(At(FetchId(Exec)), 0, 0, None)

  function AfterPath(side: Side): Site {
    if side.Exec? then FetchId(File) else FetchRow
  }

  function Step(t: Tables, p: Proc, call: Call): (Tables, Proc)
    requires p.pc.At?
  {
    var op := call.op;
    var works := call.answers(p.pc.site).Works?;
    match p.pc.site
    case FetchId(side) =>
      if works && op.Path(side) in t.On(side).fwd then
        (t, p.WithId(side, t.On(side).fwd[op.Path(side)]).(pc := At(StorePath(side))))
      else
        (t, p.(pc := if works then At(FetchCounter(side)) else Returned(-1)))
    case FetchCounter(side) =>
      if works && ID_ENTRY in t.idtb then
        (t, p.WithId(side, t.idtb[ID_ENTRY]).(pc := At(StoreCounter(side))))
      else
        (t, p.(pc := Returned(-1)))
    case StoreCounter(side) =>
      if call.Stored(p.pc.site) == 0 then
        (t.(idtb := t.idtb[ID_ENTRY := (p.Id(side) + 1) % TWO_64]), p.(pc := At(StoreId(side))))
      else
        (t, p.(pc := Returned(-1)))
    case StoreId(side) =>
      if call.Stored(p.pc.site) == 0 then
        var ix := t.On(side);
        (t.With(side, ix.(fwd := ix.fwd[op.Path(side) := p.Id(side)])), p.(pc := At(StorePath(side))))
      else
        (t, p.(pc := Returned(-1)))
    case StorePath(side) =>
      if call.Stored(p.pc.site) == 0 then
        var ix := t.On(side);
        (t.With(side, ix.(rev := ix.rev[p.Id(side) := op.Path(side)])), p.(pc := At(AfterPath(side))))
      else
        (t, p.(pc := Returned(-1)))
    case FetchRow =>
      var row := if works && p.Key() in t.evnt then Some(t.evnt[p.Key()]) else None;
      if op.change.Some? then
        (t, p.(row := row, pc := At(StoreRow)))
      else
        (t, p.(row := row, pc := Returned(if works then 0 else -1)))
    case StoreRow =>
      if op.change.Some? && call.Stored(p.pc.site) == 0 then
        var row := if p.row.Some? then p.row.value else ZERO;
        (t.(evnt := t.evnt[p.Key() := Updated(row, op.change.value.flags, op.change.value.timestamp)]),
         p.(pc := Returned(0)))
      else
        (t, p.(pc := Returned(call.Stored(p.pc.site))))
  }

  function Rank(pc: Pc): nat {
    if pc.Returned? then 0
    else
      match pc.site
      case FetchId(side) => if side.Exec? then 12 else 7
      case FetchCounter(side) => if side.Exec? then 11 else 6
      case StoreCounter(side) => if side.Exec? then 10 else 5
      case StoreId(side) => if side.Exec? then 9 else 4
      case StorePath(side) => if side.Exec? then 8 else 3
      case FetchRow => 2
      case StoreRow => 1
  }

  /** The rest of a call, undisturbed. */
  function Finish(t: Tables, p: Proc, call: Call): (r: (Tables, Proc))
    ensures r.1.pc.Returned?
    decreases Rank(p.pc)
  {
    if p.pc.Returned? then (t, p)
    else
      var (t', p') := Step(t, p, call);
      Finish(t', p', call)
  }

  function After(t: Tables, call: Call): Tables {
    Finish(t, START, call).0
  }

  function Result(t: Tables, call: Call): Proc {
    Finish(t, START, call).1
  }

  function ReturnCode(t: Tables, call: Call): int {
    Result(t, call).pc.rc
  }
}
