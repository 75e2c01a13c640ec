/** One audit event, and what its records mean, read off the records themselves. */
module Records {
  import opened Accesses
  import opened Limits
  import opened Normaliser
  import opened Paths
  import opened UsageTables
  import opened Wrappers

  datatype RecordType = SYSCALL | CWD | PATH | OTHER

  /** A field as auparse gives it: its name, its raw value, and its interpreted value; values may be NULL. */
  datatype Field = Field(name: string, raw: Option<string>, shown: Option<string>)

  datatype Record = Record(kind: RecordType, fields: seq<Field>)

  datatype Event = Event(timestamp: Option<u64>, records: seq<Record>)

  // -------------------------------------------------------------- one record

  /** The value of the last field with a name; NULL if there is none. */
  function LastShown(fields: seq<Field>, name: string): Option<string> {
    if fields == [] then None
    else
      var last := fields[|fields| - 1];
      if last.name == name then last.shown else LastShown(fields[..|fields| - 1], name)
  }

  /** check_field_value: a value that is there has to be the expected one. */
  predicate TypeFits(f: Field, kind: string) {
    f.name == "type" ==> f.shown.None? || f.shown.value == kind
  }

  predicate TypesFit(fields: seq<Field>, kind: string) {
    forall i | 0 <= i < |fields| :: TypeFits(fields[i], kind)
  }

  predicate StatusFits(f: Field) {
    f.name == "success" ==> f.raw == Some("yes") || f.raw == Some("no")
  }

  predicate StatusesFit(fields: seq<Field>) {
    forall i | 0 <= i < |fields| :: StatusFits(fields[i])
  }

  /** The last success field decides; without one the flag stays what it was. */
  function Succeeds(fields: seq<Field>, before: bool): bool {
    if fields == [] then before
    else
      var last := fields[|fields| - 1];
      if last.name == "success" then last.raw == Some("yes") else Succeeds(fields[..|fields| - 1], before)
  }

  predicate SyscallOk(fields: seq<Field>) {
    fields != [] && StatusesFit(fields) && LastShown(fields, "exe").Some?
  }

  /** The first cwd field, unless a wrong type field comes before it. */
  function CwdOf(fields: seq<Field>): Option<string> {
    if fields == [] || !TypeFits(fields[0], "CWD") then None
    else if fields[0].name == "cwd" then fields[0].shown
    else CwdOf(fields[1..])
  }

  predicate PathOk(fields: seq<Field>) {
    fields != [] && TypesFit(fields, "PATH") && LastShown(fields, "name").Some?
  }

  function FlagsOfField(f: Field): Flags {
    if f.name != "nametype" then {}
    else if f.shown == Some("PARENT") then {EXEC}
    else if f.shown == Some("NORMAL") then {READ}
    else if f.shown == Some("CREATE") then {CREAT}
    else if f.shown == Some("DELETE") then {DELET}
    else {}
  }

  function FlagsOfFields(fields: seq<Field>): Flags {
    if fields == [] then {}
    else FlagsOfFields(fields[..|fields| - 1]) + FlagsOfField(fields[|fields| - 1])
  }

  /** What a PATH record counts as: a read, if nothing else is said. */
  function FlagsOf(fields: seq<Field>): Flags {
    if FlagsOfFields(fields) == {} then {READ} else FlagsOfFields(fields)
  }

  // --------------------------------------------------- a record in its event

  /** The executable of the last SYSCALL record among the first n. */
  function ExeBefore(records: seq<Record>, n: nat): Option<string>
    requires n <= |records|
  {
    if n == 0 then None
    else if records[n - 1].kind.SYSCALL? then LastShown(records[n - 1].fields, "exe")
    else ExeBefore(records, n - 1)
  }

  /** The directory of the last CWD record among the first n. */
  function CwdBefore(records: seq<Record>, n: nat): Option<string>
    requires n <= |records|
  {
    if n == 0 then None
    else if records[n - 1].kind.CWD? then CwdOf(records[n - 1].fields)
    else CwdBefore(records, n - 1)
  }

  function SuccessBefore(records: seq<Record>, n: nat): bool
    requires n <= |records|
  {
    if n == 0 then false
    else if records[n - 1].kind.SYSCALL? then Succeeds(records[n - 1].fields, SuccessBefore(records, n - 1))
    else SuccessBefore(records, n - 1)
  }

  /** Record i neither is malformed nor reports a failed syscall. */
  predicate Fine(records: seq<Record>, i: nat)
    requires i < |records|
  {
    var fields := records[i].fields;
    match records[i].kind
    case SYSCALL => SyscallOk(fields) && SuccessBefore(records, i + 1)
    case CWD => CwdOf(fields).Some?
    case PATH => PathOk(fields)
    case OTHER => true
  }

  predicate NamesAreCStrings(fields: seq<Field>) {
    forall i | 0 <= i < |fields| ::
      && (fields[i].shown.Some? ==> '\0' !in fields[i].shown.value)
      && (fields[i].name == "nametype" ==> fields[i].shown.Some?)
  }

  predicate DirectoryFits(cwd: Option<string>) {
    cwd.Some? ==> '\0' !in cwd.value && IsAbsolute(cwd.value) && |WithSlash(cwd.value)| < PATH_MAX
  }

  /** What store_event takes for granted: C strings, absolute working directories, and what it asserts. */
  predicate RecordInDomain(r: Record) {
    && NamesAreCStrings(r.fields)
    && (r.kind.SYSCALL? ==> TypesFit(r.fields, "SYSCALL"))
    && (r.kind.CWD? ==> DirectoryFits(CwdOf(r.fields)))
  }

  predicate InputInDomain(ev: Event) {
    forall i | 0 <= i < |ev.records| :: RecordInDomain(ev.records[i])
  }

  lemma {:induction false} ShownIsCString(fields: seq<Field>, name: string)
    requires NamesAreCStrings(fields)
    ensures LastShown(fields, name).Some? ==> '\0' !in LastShown(fields, name).value
  {
    if fields != [] {
      ShownIsCString(fields[..|fields| - 1], name);
    }
  }

  lemma {:induction false} CwdBeforeFits(ev: Event, n: nat)
    requires InputInDomain(ev) && n <= |ev.records|
    ensures DirectoryFits(CwdBefore(ev.records, n))
  {
    if n > 0 {
      CwdBeforeFits(ev, n - 1);
      assert RecordInDomain(ev.records[n - 1]);
    }
  }

  lemma PathInDomain(ev: Event, i: nat)
    requires InputInDomain(ev) && i < |ev.records|
    ensures ArgumentsInDomain(CwdBefore(ev.records, i), LastShown(ev.records[i].fields, "name"))
  {
    CwdBeforeFits(ev, i);
    assert RecordInDomain(ev.records[i]);
    ShownIsCString(ev.records[i].fields, "name");
  }

  /** What fabsolute makes of the name in record i. */
  function PathAt(ev: Event, i: nat): Option<string>
    requires InputInDomain(ev) && i < |ev.records|
  {
    PathInDomain(ev, i);
    Absolute(CwdBefore(ev.records, i), LastShown(ev.records[i].fields, "name"))
  }

  /**
   The update that record i stands for: a PATH record with a CWD record before it, whose
   name has an absolute path.
   */
  function UpdateAt(ev: Event, i: nat): Option<Op>
    requires InputInDomain(ev) && ev.timestamp.Some? && i < |ev.records|
  {
    var fields := ev.records[i].fields;
    var path := PathAt(ev, i);
    var exe := ExeBefore(ev.records, i);
    if ev.records[i].kind.PATH? && PathOk(fields) && path.Some? && exe.Some? then
      Some(Op(exe.value, path.value, Some(Change(FlagsOf(fields), ev.timestamp.value))))
    else None
  }
}
