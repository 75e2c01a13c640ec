/** The six tables of the usage database as plain values, and what keeps them together. */
module UsageTables {
  import opened Limits

  datatype Side = Exec | File

  datatype RowKey = RowKey(execId: u64, fileId: u64)

  datatype Stats = Stats(read: u64, write: u64, create: u64, exec: u64, time: u64)

  const ZERO := Stats(0, 0, 0, 0, 0)

  /** The single bits of file_usage_t; a flag word is a set of them. */
  datatype Usage = READ | WRITE | EXEC | CREAT | DELET

  type Flags = set<Usage>

  /** A forward table (path to id) and its reverse table (id to path). */
  datatype Index = Index(fwd: map<string, u64>, rev: map<u64, string>)

  datatype Tables = Tables(exec: Index, file: Index, evnt: map<RowKey, Stats>, idtb: map<string, u64>) {
    function On(side: Side): Index {
      if side.Exec? then exec else file
    }

    function With(side: Side, ix: Index): Tables {
      if side.Exec? then this.(exec := ix) else this.(file := ix)
    }

    /** The next id to be handed out; 0 when the id table has no entry. */
    function Bound(): u64 {
      if ID_ENTRY in idtb then idtb[ID_ENTRY] else 0
    }
  }

  const ID_ENTRY := "id"
  const NOT_FOUND: u64 := TWO_64 - 1

  /** A database right after __db_id_init. */
  const INITIAL := Tables(Index(map[], map[]), Index(map[], map[]), map[], map[ID_ENTRY := 0])

  function Other(side: Side): Side {
    if side.Exec? then File else Exec
  }

  function IdOn(key: RowKey, side: Side): u64 {
    if side.Exec? then key.execId else key.fileId
  }

  /** The rows of one id. */
  function Matching(evnt: map<RowKey, Stats>, side: Side, id: u64): set<RowKey> {
    set k | k in evnt && IdOn(k, side) == id
  }

  // ------------------------------------------------------------- invariants

  ghost predicate IndexValid(ix: Index, bound: int) {
    && (forall p, q | p in ix.fwd && q in ix.fwd && ix.fwd[p] == ix.fwd[q] :: p == q)
    && (forall p | p in ix.fwd :: ix.fwd[p] < bound)
    && (forall id | id in ix.rev :: ix.rev[id] in ix.fwd && ix.fwd[ix.rev[id]] == id)
  }

  ghost predicate Disjoint(a: Index, b: Index) {
    forall p, q | p in a.fwd && q in b.fwd :: a.fwd[p] != b.fwd[q]
  }

  ghost predicate RowsResolve(t: Tables) {
    forall k | k in t.evnt :: k.execId in t.exec.rev && k.fileId in t.file.rev
  }

  /**
   The cross-table invariant: forward tables are injective, ids are used once over both
   sides and lie below the counter, a reverse table only holds inverses of forward
   entries, and both ids of every event row can be looked up.
   */
  ghost predicate Valid(t: Tables) {
    && IndexValid(t.exec, t.Bound())
    && IndexValid(t.file, t.Bound())
    && Disjoint(t.exec, t.file)
    && RowsResolve(t)
  }

  /** Known paths keep their ids and names; a new id was never handed out before. */
  ghost predicate IndexGrows(a: Index, b: Index, bound: int) {
    && (forall p | p in a.fwd :: p in b.fwd && b.fwd[p] == a.fwd[p])
    && (forall p | p in b.fwd && p !in a.fwd :: b.fwd[p] >= bound)
    && (forall id | id in a.rev :: id in b.rev && b.rev[id] == a.rev[id])
  }

  ghost predicate Grows(a: Tables, b: Tables) {
    && IndexGrows(a.exec, b.exec, a.Bound())
    && IndexGrows(a.file, b.file, a.Bound())
    && a.Bound() <= b.Bound()
    && (forall k | k in a.evnt :: k in b.evnt)
  }

  lemma GrowsTransitive(a: Tables, b: Tables, c: Tables)
    requires Grows(a, b) && Grows(b, c)
    ensures Grows(a, c)
  {}

  // -------------------------------------------------------- event counters

  function Bump(counter: u64, counted: bool): u64 {
    if counted then (counter + 1) % TWO_64 else counter
  }

  /** What db_update makes of a row. */
  function Updated(row: Stats, flags: Flags, timestamp: u64): Stats {
    Stats(Bump(row.read, READ in flags), Bump(row.write, WRITE in flags),
          Bump(row.create, CREAT in flags), Bump(row.exec, EXEC in flags), timestamp)
  }
}
