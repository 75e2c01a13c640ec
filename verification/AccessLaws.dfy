/** What every single table access of a call keeps, and what whole calls achieve. */
module AccessLaws {
  import opened Accesses
  import opened Limits
  import opened UsageTables

  ghost predicate Indexed(t: Tables, side: Side, path: string, id: u64) {
    && path in t.On(side).fwd && t.On(side).fwd[path] == id
    && id in t.On(side).rev && t.On(side).rev[id] == path
  }

  ghost predicate Unused(t: Tables, id: int) {
    && (forall p | p in t.exec.fwd :: t.exec.fwd[p] != id)
    && (forall p | p in t.file.fwd :: t.file.fwd[p] != id)
  }

  /** What a call knows of the tables between two accesses. */
  ghost predicate Knows(t: Tables, p: Proc, op: Op) {
    if p.pc.Returned? then true
    else
      match p.pc.site
      case FetchRow => Indexed(t, Exec, op.exe, p.execId) && Indexed(t, File, op.file, p.fileId)
      case StoreRow => Indexed(t, Exec, op.exe, p.execId) && Indexed(t, File, op.file, p.fileId)
      case _ => KnowsSide(t, p, op, p.pc.site)
  }

  ghost predicate KnowsSide(t: Tables, p: Proc, op: Op, site: Site)
    requires !site.FetchRow? && !site.StoreRow?
  {
    var side := site.side;
    var fwd := t.On(side).fwd;
    && (side.File? ==> Indexed(t, Exec, op.exe, p.execId))
    && match site
       case FetchId(_) => true
       case FetchCounter(_) => op.Path(side) !in fwd
       case StoreCounter(_) => op.Path(side) !in fwd && ID_ENTRY in t.idtb && p.Id(side) == t.Bound()
       case StoreId(_) =>
         op.Path(side) !in fwd && ID_ENTRY in t.idtb && t.Bound() == p.Id(side) + 1 && Unused(t, p.Id(side))
       case StorePath(_) => op.Path(side) in fwd && fwd[op.Path(side)] == p.Id(side)
  }

  /** No access can wrap the id counter. */
  predicate Roomy(p: Proc) {
    p.pc.At? && p.pc.site.StoreCounter? ==> p.Id(p.pc.site.side) + 1 < TWO_64
  }

  // ------------------------------------------------- the stores, one by one

  lemma CounterMoves(t: Tables, id: u64)
    requires Valid(t) && t.Bound() == id && id + 1 < TWO_64
    ensures var t' := t.(idtb := t.idtb[ID_ENTRY := id + 1]);
            Valid(t') && Grows(t, t') && Unused(t', id)
  {}

  lemma IdAdded(t: Tables, side: Side, path: string, id: u64)
    requires Valid(t) && path !in t.On(side).fwd && id < t.Bound() && Unused(t, id)
    ensures var ix := t.On(side);
            var t' := t.With(side, ix.(fwd := ix.fwd[path := id]));
            Valid(t')
  {}

  lemma PathAdded(t: Tables, side: Side, path: string, id: u64)
    requires Valid(t) && path in t.On(side).fwd && t.On(side).fwd[path] == id
    ensures var ix := t.On(side);
            var t' := t.With(side, ix.(rev := ix.rev[id := path]));
            Valid(t') && Grows(t, t') && Indexed(t', side, path, id)
  {}

  lemma RowAdded(t: Tables, key: RowKey, row: Stats)
    requires Valid(t) && key.execId in t.exec.rev && key.fileId in t.file.rev
    ensures Valid(t.(evnt := t.evnt[key := row]))
  {}

  /** Every access keeps the cross-table invariant. */
  lemma StepValid(t: Tables, p: Proc, call: Call)
    requires p.pc.At? && Valid(t) && Knows(t, p, call.op) && Roomy(p)
    ensures Valid(Step(t, p, call).0)
  {
    var op := call.op;
    match p.pc.site {
      case StoreCounter(side) => CounterMoves(t, p.Id(side));
      case StoreId(side) => IdAdded(t, side, op.Path(side), p.Id(side));
      case StorePath(side) => PathAdded(t, side, op.Path(side), p.Id(side));
      case StoreRow =>
        if op.change.Some? {
          var row := if p.row.Some? then p.row.value else ZERO;
          RowAdded(t, p.Key(), Updated(row, op.change.value.flags, op.change.value.timestamp));
        }
      case _ =>
    }
  }

  lemma StepKnowsPath(t: Tables, p: Proc, call: Call, side: Side)
    requires p.pc == At(StorePath(side)) && Valid(t) && Knows(t, p, call.op)
    ensures Knows(Step(t, p, call).0, Step(t, p, call).1, call.op)
  {
    PathAdded(t, side, call.op.Path(side), p.Id(side));
  }

  lemma StepKnowsStore(t: Tables, p: Proc, call: Call, side: Side)
    requires p.pc == At(StoreCounter(side)) || p.pc == At(StoreId(side))
    requires Valid(t) && Knows(t, p, call.op) && Roomy(p)
    ensures Knows(Step(t, p, call).0, Step(t, p, call).1, call.op)
  {
    if p.pc.site.StoreCounter? {
      CounterMoves(t, p.Id(side));
    }
  }

  /** Every access keeps what the call knows. */
  lemma StepKnows(t: Tables, p: Proc, call: Call)
    requires p.pc.At? && Valid(t) && Knows(t, p, call.op) && Roomy(p)
    ensures Knows(Step(t, p, call).0, Step(t, p, call).1, call.op)
  {
    match p.pc.site {
      case StoreCounter(side) => StepKnowsStore(t, p, call, side);
      case StoreId(side) => StepKnowsStore(t, p, call, side);
      case StorePath(side) => StepKnowsPath(t, p, call, side);
      case _ =>
    }
  }

  lemma IdAddedGrows(t0: Tables, t: Tables, side: Side, path: string, id: u64)
    requires Grows(t0, t) && path !in t.On(side).fwd && t0.Bound() <= id
    ensures var ix := t.On(side);
            Grows(t0, t.With(side, ix.(fwd := ix.fwd[path := id])))
  {}

  lemma GrowsReflexive(t: Tables)
    ensures Grows(t, t)
  {}

  lemma RowAddedGrows(t: Tables, key: RowKey, row: Stats)
    ensures Grows(t, t.(evnt := t.evnt[key := row]))
  {}

  lemma StepGrowsBy(t: Tables, p: Proc, call: Call)
    requires p.pc.At? && Valid(t) && Knows(t, p, call.op) && Roomy(p) && !p.pc.site.StoreId?
    ensures Grows(t, Step(t, p, call).0)
  {
    GrowsReflexive(t);
    match p.pc.site {
      case StoreCounter(side) => CounterMoves(t, p.Id(side));
      case StorePath(side) => PathAdded(t, side, call.op.Path(side), p.Id(side));
      case StoreRow =>
        if call.op.change.Some? {
          var row := if p.row.Some? then p.row.value else ZERO;
          RowAddedGrows(t, p.Key(), Updated(row, call.op.change.value.flags, call.op.change.value.timestamp));
        }
      case _ =>
    }
  }

  /** An id that is about to be stored was not handed out by time t0. */
  ghost predicate Fresh(t0: Tables, p: Proc) {
    p.pc.At? && p.pc.site.StoreId? ==> t0.Bound() <= p.Id(p.pc.site.side)
  }

  /** Compared with any earlier state, the tables only grow, and by fresh ids. */
  lemma StepGrows(t0: Tables, t: Tables, p: Proc, call: Call)
    requires p.pc.At? && Valid(t) && Knows(t, p, call.op) && Roomy(p)
    requires Grows(t0, t) && Fresh(t0, p)
    ensures Grows(t0, Step(t, p, call).0) && Fresh(t0, Step(t, p, call).1)
  {
    var site := p.pc.site;
    if site.StoreId? {
      IdAddedGrows(t0, t, site.side, call.op.Path(site.side), p.Id(site.side));
    } else {
      StepGrowsBy(t, p, call);
      GrowsTransitive(t0, t, Step(t, p, call).0);
    }
  }
}
