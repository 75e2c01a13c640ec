/** What an event stores, said in terms of the values of its fields. */
module EventLaws {
  import opened Accesses
  import opened Canonicity
  import opened Limits
  import opened Normaliser
  import opened Paths
  import opened Records
  import opened Store
  import opened UsageTables
  import opened Wrappers

  // ------------------------------------------------------------------- fields

  /** Field f is the last one with a name. */
  ghost predicate IsLast(fields: seq<Field>, name: string, f: nat) {
    f < |fields| && fields[f].name == name && forall g | f < g < |fields| :: fields[g].name != name
  }

  /** The last field with the name shows the value. */
  ghost predicate Says(fields: seq<Field>, name: string, value: string) {
    exists f: nat :: IsLast(fields, name, f) && fields[f].shown == Some(value)
  }

  /** How the last field with a name depends on the last field. */
  lemma LastOrBefore(fields: seq<Field>, name: string, f: nat)
    requires fields != []
    ensures IsLast(fields, name, f) <==>
      if fields[|fields| - 1].name == name then f == |fields| - 1 else IsLast(fields[..|fields| - 1], name, f)
  {}

  lemma {:induction false} LastShownIs(fields: seq<Field>, name: string, value: string)
    ensures LastShown(fields, name) == Some(value) <==> Says(fields, name, value)
  {
    if fields != [] {
      var shorter := fields[..|fields| - 1];
      LastShownIs(shorter, name, value);
      forall f: nat
        ensures IsLast(fields, name, f) <==>
          if fields[|fields| - 1].name == name then f == |fields| - 1 else IsLast(shorter, name, f)
      {
        LastOrBefore(fields, name, f);
      }
      if fields[|fields| - 1].name == name {
        assert IsLast(fields, name, |fields| - 1);
      } else {
        assert forall f: nat | IsLast(shorter, name, f) :: shorter[f] == fields[f];
      }
    }
  }

  /** Field f is the first cwd field, and no wrong type comes before it. */
  ghost predicate IsFirstCwd(fields: seq<Field>, f: nat) {
    && f < |fields| && fields[f].name == "cwd"
    && forall g | 0 <= g < f ::
         fields[g].name != "cwd"
         && (fields[g].name == "type" ==> fields[g].shown.None? || fields[g].shown.value == "CWD")
  }

  ghost predicate SaysCwd(fields: seq<Field>, value: string) {
    exists f: nat :: IsFirstCwd(fields, f) && fields[f].shown == Some(value)
  }

  lemma {:induction false} CwdOfIs(fields: seq<Field>, value: string)
    ensures CwdOf(fields) == Some(value) <==> SaysCwd(fields, value)
    decreases |fields|
  {
    if fields != [] {
      if fields[0].name == "cwd" {
        assert forall f: nat :: IsFirstCwd(fields, f) <==> f == 0;
      } else {
        CwdOfIs(fields[1..], value);
        CwdOfRest(fields, value);
      }
    }
  }

  lemma FirstBehind(fields: seq<Field>, f: nat)
    requires fields != [] && fields[0].name != "cwd" && TypeFits(fields[0], "CWD") && IsFirstCwd(fields[1..], f)
    ensures IsFirstCwd(fields, f + 1)
  {
    forall g | 0 < g < f + 1
      ensures fields[g] == fields[1..][g - 1]
    {}
  }

  lemma CwdOfRest(fields: seq<Field>, value: string)
    requires fields != [] && fields[0].name != "cwd"
    ensures SaysCwd(fields, value) <==> TypeFits(fields[0], "CWD") && SaysCwd(fields[1..], value)
  {
    if SaysCwd(fields, value) {
      var f: nat :| IsFirstCwd(fields, f) && fields[f].shown == Some(value);
      assert f > 0 && fields[1..][f - 1] == fields[f];
      assert IsFirstCwd(fields[1..], f - 1);
    }
    if TypeFits(fields[0], "CWD") && SaysCwd(fields[1..], value) {
      var f: nat :| IsFirstCwd(fields[1..], f) && fields[1..][f].shown == Some(value);
      assert fields[1..][f] == fields[f + 1];
      FirstBehind(fields, f);
    }
  }

  /** The last status is yes. */
  ghost predicate SaysYes(fields: seq<Field>) {
    exists f: nat :: IsLast(fields, "success", f) && fields[f].raw == Some("yes")
  }

  lemma {:induction false} SucceedsIs(fields: seq<Field>)
    ensures Succeeds(fields, false) <==> SaysYes(fields)
  {
    if fields != [] {
      var shorter := fields[..|fields| - 1];
      SucceedsIs(shorter);
      forall f: nat
        ensures IsLast(fields, "success", f) <==>
          if fields[|fields| - 1].name == "success" then f == |fields| - 1 else IsLast(shorter, "success", f)
      {
        LastOrBefore(fields, "success", f);
      }
      if fields[|fields| - 1].name == "success" {
        assert IsLast(fields, "success", |fields| - 1);
      } else {
        assert forall f: nat | IsLast(shorter, "success", f) :: shorter[f] == fields[f];
      }
    }
  }

  predicate Tagged(fields: seq<Field>, tag: string) {
    exists f | 0 <= f < |fields| :: fields[f].name == "nametype" && fields[f].shown == Some(tag)
  }

  /** What the nametype fields of a record make it count as. */
  predicate CountsAs(fields: seq<Field>, flags: Flags) {
    && (EXEC in flags <==> Tagged(fields, "PARENT"))
    && (CREAT in flags <==> Tagged(fields, "CREATE"))
    && (DELET in flags <==> Tagged(fields, "DELETE"))
    && (READ in flags <==>
          Tagged(fields, "NORMAL")
          || !(Tagged(fields, "PARENT") || Tagged(fields, "CREATE") || Tagged(fields, "DELETE")))
    && WRITE !in flags
  }

  lemma TaggedMore(fields: seq<Field>, tag: string)
    requires fields != []
    ensures var last := fields[|fields| - 1];
            Tagged(fields, tag) <==>
              Tagged(fields[..|fields| - 1], tag) || (last.name == "nametype" && last.shown == Some(tag))
  {
    var shorter := fields[..|fields| - 1];
    if Tagged(shorter, tag) {
      var f: nat :| 0 <= f < |shorter| && shorter[f].name == "nametype" && shorter[f].shown == Some(tag);
      assert fields[f] == shorter[f];
    }
  }

  /** The tag a field must show to set a flag. */
  function TagOf(flag: Usage): Option<string> {
    match flag
    case READ => Some("NORMAL")
    case EXEC => Some("PARENT")
    case CREAT => Some("CREATE")
    case DELET => Some("DELETE")
    case WRITE => None
  }

  lemma FlagOfField(f: Field, flag: Usage)
    ensures flag in FlagsOfField(f) <==> TagOf(flag).Some? && f.name == "nametype" && f.shown == TagOf(flag)
  {
    assert "NORMAL"[0] != "PARENT"[0] && "CREATE"[0] != "DELETE"[0];
    assert "NORMAL"[0] != "CREATE"[0] && "PARENT"[0] != "CREATE"[0];
    assert "NORMAL"[0] != "DELETE"[0] && "PARENT"[0] != "DELETE"[0];
  }

  lemma {:induction false} FlagTagged(fields: seq<Field>, flag: Usage)
    ensures flag in FlagsOfFields(fields) <==> TagOf(flag).Some? && Tagged(fields, TagOf(flag).value)
  {
    if fields != [] {
      FlagTagged(fields[..|fields| - 1], flag);
      FlagOfField(fields[|fields| - 1], flag);
      if TagOf(flag).Some? {
        TaggedMore(fields, TagOf(flag).value);
      }
    }
  }

  lemma FlagsOfIs(fields: seq<Field>, flags: Flags)
    ensures flags == FlagsOf(fields) <==> CountsAs(fields, flags)
  {
    FlagTagged(fields, READ);
    FlagTagged(fields, WRITE);
    FlagTagged(fields, EXEC);
    FlagTagged(fields, CREAT);
    FlagTagged(fields, DELET);
    NoFlags(FlagsOfFields(fields));
    SameFlags(flags, FlagsOf(fields));
  }

  lemma NoFlags(flags: Flags)
    ensures flags == {} <==> READ !in flags && WRITE !in flags && EXEC !in flags && CREAT !in flags && DELET !in flags
  {
    SameFlags(flags, {});
  }

  lemma SameFlags(a: Flags, b: Flags)
    ensures a == b <==> (READ in a <==> READ in b) && (WRITE in a <==> WRITE in b) && (EXEC in a <==> EXEC in b)
                        && (CREAT in a <==> CREAT in b) && (DELET in a <==> DELET in b)
  {
    if (READ in a <==> READ in b) && (WRITE in a <==> WRITE in b) && (EXEC in a <==> EXEC in b)
       && (CREAT in a <==> CREAT in b) && (DELET in a <==> DELET in b) {
      forall flag: Usage
        ensures flag in a <==> flag in b
      {
        match flag {
          case READ => case WRITE => case EXEC => case CREAT => case DELET =>
        }
      }
    }
  }

  // ------------------------------------------------------------------ records

  /** Record i is the last one of its kind before record k. */
  predicate IsLatest(records: seq<Record>, kind: RecordType, k: nat, i: nat) {
    i < k <= |records| && records[i].kind == kind && forall j | i < j < k :: records[j].kind != kind
  }

  lemma {:induction false} ExeBeforeIs(records: seq<Record>, k: nat, exe: string)
    requires k <= |records|
    ensures ExeBefore(records, k) == Some(exe) <==>
      exists i: nat :: IsLatest(records, SYSCALL, k, i) && Says(records[i].fields, "exe", exe)
  {
    if k > 0 {
      if records[k - 1].kind.SYSCALL? {
        LastShownIs(records[k - 1].fields, "exe", exe);
        assert IsLatest(records, SYSCALL, k, k - 1);
      } else {
        ExeBeforeIs(records, k - 1, exe);
        assert forall i: nat :: IsLatest(records, SYSCALL, k, i) <==> IsLatest(records, SYSCALL, k - 1, i);
      }
    }
  }

  lemma {:induction false} CwdBeforeIs(records: seq<Record>, k: nat, cwd: string)
    requires k <= |records|
    ensures CwdBefore(records, k) == Some(cwd) <==>
      exists i: nat :: IsLatest(records, CWD, k, i) && SaysCwd(records[i].fields, cwd)
  {
    if k > 0 {
      if records[k - 1].kind.CWD? {
        CwdOfIs(records[k - 1].fields, cwd);
        assert IsLatest(records, CWD, k, k - 1);
      } else {
        CwdBeforeIs(records, k - 1, cwd);
        assert forall i: nat :: IsLatest(records, CWD, k, i) <==> IsLatest(records, CWD, k - 1, i);
      }
    }
  }

  /** Where record k takes the executable and the directory from. */
  ghost predicate Sources(records: seq<Record>, k: nat, exe: string, cwd: string, name: string) {
    && k < |records|
    && (exists i: nat :: IsLatest(records, SYSCALL, k, i) && Says(records[i].fields, "exe", exe))
    && (exists j: nat :: IsLatest(records, CWD, k, j) && SaysCwd(records[j].fields, cwd))
    && Says(records[k].fields, "name", name)
  }

  /** The path that a name means in a directory. */
  ghost predicate Means(cwd: string, name: string, path: string) {
    ArgumentsInDomain(Some(cwd), Some(name)) && Absolute(Some(cwd), Some(name)) == Some(path)
  }

  /**
   PATH record k stands for an update: of the executable that the last SYSCALL record
   before it names, and of the file that its own last name means in the directory of the
   last CWD record before it, counted by its nametypes, at the time of the event.
   */
  ghost predicate Describes(ev: Event, k: nat, op: Op) {
    && k < |ev.records| && ev.records[k].kind.PATH?
    && (forall f | 0 <= f < |ev.records[k].fields| :: TypeFits(ev.records[k].fields[f], "PATH"))
    && op.change.Some? && Some(op.change.value.timestamp) == ev.timestamp
    && CountsAs(ev.records[k].fields, op.change.value.flags)
    && exists cwd, name :: Sources(ev.records, k, op.exe, cwd, name) && Means(cwd, name, op.file)
  }

  lemma SourcesAre(records: seq<Record>, k: nat, exe: string, cwd: string, name: string)
    requires k < |records|
    ensures Sources(records, k, exe, cwd, name) <==>
      && ExeBefore(records, k) == Some(exe) && CwdBefore(records, k) == Some(cwd)
      && LastShown(records[k].fields, "name") == Some(name)
  {
    ExeBeforeIs(records, k, exe);
    CwdBeforeIs(records, k, cwd);
    LastShownIs(records[k].fields, "name", name);
  }

  lemma UpdateIsDescribed(ev: Event, k: nat, op: Op)
    requires InputInDomain(ev) && ev.timestamp.Some? && k < |ev.records|
    requires UpdateAt(ev, k) == Some(op)
    ensures Describes(ev, k, op)
  {
    var fields := ev.records[k].fields;
    PathInDomain(ev, k);
    var cwd, name := CwdBefore(ev.records, k).value, LastShown(fields, "name").value;
    SourcesAre(ev.records, k, op.exe, cwd, name);
    FlagsOfIs(fields, op.change.value.flags);
    assert Means(cwd, name, op.file);
  }

  lemma DescribedIsUpdate(ev: Event, k: nat, op: Op)
    requires InputInDomain(ev) && ev.timestamp.Some? && k < |ev.records|
    requires Describes(ev, k, op)
    ensures UpdateAt(ev, k) == Some(op)
  {
    var fields := ev.records[k].fields;
    PathInDomain(ev, k);
    var cwd, name :| Sources(ev.records, k, op.exe, cwd, name) && Means(cwd, name, op.file);
    SourcesAre(ev.records, k, op.exe, cwd, name);
    FlagsOfIs(fields, op.change.value.flags);
  }

  /** A record stands for exactly the update that its fields and those before it describe. */
  lemma UpdateIff(ev: Event, k: nat, op: Op)
    requires InputInDomain(ev) && ev.timestamp.Some? && k < |ev.records|
    ensures UpdateAt(ev, k) == Some(op) <==> Describes(ev, k, op)
  {
    if UpdateAt(ev, k) == Some(op) {
      UpdateIsDescribed(ev, k, op);
    }
    if Describes(ev, k, op) {
      DescribedIsUpdate(ev, k, op);
    }
  }

  lemma {:induction false} CallsAreDescribed(ev: Event, n: nat, writable: bool, answers: Answers, c: nat)
    returns (k: nat)
    requires InputInDomain(ev) && ev.timestamp.Some? && n <= |ev.records|
    requires c < |CallsOf(ev, n, writable, answers)|
    ensures k < n && Describes(ev, k, CallsOf(ev, n, writable, answers)[c].op)
  {
    var earlier := CallsOf(ev, n - 1, writable, answers);
    if c < |earlier| {
      k := CallsAreDescribed(ev, n - 1, writable, answers, c);
    } else {
      k := n - 1;
      UpdateIff(ev, k, CallAt(ev, k, writable, answers).value.op);
    }
  }

  /** Every call of db_update that an event leads to, whatever fails, is described by one of its records. */
  lemma EventCallsDescribed(t: Tables, ev: Event, writable: bool, answers: Answers, c: nat)
    requires InputInDomain(ev) && c < |EventCalls(t, ev, writable, answers)|
    ensures exists k: nat :: Describes(ev, k, EventCalls(t, ev, writable, answers)[c].op)
  {
    var k := CallsAreDescribed(ev, Stop(t, ev, 0, writable, answers), writable, answers, c);
  }

  /** An event whose first record does not report success stores nothing. */
  lemma FailedSyscallStoresNothing(t: Tables, ev: Event, writable: bool, answers: Answers)
    requires InputInDomain(ev) && ev.records != [] && !SaysYes(ev.records[0].fields)
    ensures EventCalls(t, ev, writable, answers) == []
  {
    if Considered(ev) {
      SucceedsIs(ev.records[0].fields);
      assert SuccessBefore(ev.records, 1) == Succeeds(ev.records[0].fields, SuccessBefore(ev.records, 0));
      assert Stop(t, ev, 0, writable, answers) == 1;
      assert CallsOf(ev, 0, writable, answers) == [];
    }
  }

  /** The path of a name, spelled out. */
  lemma MeansByText(cwd: string, name: string, path: string)
    requires '\0' !in cwd && '\0' !in name && IsAbsolute(cwd) && |cwd| + 1 + |name| < PATH_MAX
    ensures Means(cwd, name, path) <==>
      Normalise(if IsAbsolute(name) then name else cwd + "/" + name) == Some(path)
  {
    DoubleSlash(cwd, name);
  }
}
