/** fremove_r: recursive removal of a file or directory. */
module RemoveTree {
  import opened Limits
  import opened Paths
  import opened Wrappers

  type Path = seq<Component>

  datatype Kind = File | Directory

  datatype Errno = OK | ENOTEMPTY | ENOENT | ENAMETOOLONG | OTHER

  predicate Under(top: Path, p: Path) {
    top <= p
  }

  predicate Hangs(nodes: map<Path, Kind>, p: Path) {
    AllProper(p) && (p != [] ==> p[..|p| - 1] in nodes && nodes[p[..|p| - 1]].Directory?)
  }

  /** Everything below the root hangs in a directory. */
  ghost predicate IsTree(nodes: map<Path, Kind>) {
    forall p {:trigger Hangs(nodes, p)} | p in nodes :: Hangs(nodes, p)
  }

  function Subtree(nodes: map<Path, Kind>, top: Path): set<Path> {
    set p | p in nodes && Under(top, p)
  }

  /** The names of the entries of a directory. */
  function Entries(nodes: map<Path, Kind>, dir: Path): set<string> {
    set p | p in nodes && |p| > 0 && p[..|p| - 1] == dir :: p[|p| - 1]
  }

  /** Nothing new, and nothing lost but inside a subtree. */
  ghost predicate OnlyLost(before: map<Path, Kind>, after: map<Path, Kind>, top: Path) {
    && (forall p | p in after :: p in before && after[p] == before[p])
    && (forall p | p in before && !Under(top, p) :: p in after)
  }

  lemma {:induction false} AncestorsExist(nodes: map<Path, Kind>, p: Path, n: nat)
    requires IsTree(nodes) && p in nodes && n <= |p|
    ensures p[..n] in nodes
    decreases |p|
  {
    if n < |p| {
      assert Hangs(nodes, p);
      assert p[..|p| - 1][..n] == p[..n];
      AncestorsExist(nodes, p[..|p| - 1], n);
    } else {
      assert p[..n] == p;
    }
  }

  /** What is in a directory is below one of its entries. */
  lemma BelowSomeEntry(nodes: map<Path, Kind>, dir: Path, p: Path)
    requires IsTree(nodes) && p in nodes && Under(dir, p) && p != dir
    ensures p[|dir|] in Entries(nodes, dir) && Under(dir + [p[|dir|]], p)
  {
    AncestorsExist(nodes, p, |dir| + 1);
    var q := p[..|dir| + 1];
    assert q[..|q| - 1] == dir && q[|q| - 1] == p[|dir|];
    assert q == dir + [p[|dir|]];
  }

  lemma EntryIsNode(nodes: map<Path, Kind>, dir: Path, name: string)
    requires name in Entries(nodes, dir)
    ensures dir + [name] in nodes
  {
    var p :| p in nodes && |p| > 0 && p[..|p| - 1] == dir && p[|p| - 1] == name;
    assert p == dir + [name];
  }

  /** An open directory stream: the names it has yet to deliver. */
  class Dir {
    var pending: seq<string>

    constructor (names: seq<string>)
      ensures pending == names
    {
      pending := names;
    }
  }

  ghost predicate Distinct(names: seq<string>) {
    forall i, j | 0 <= i < j < |names| :: names[i] != names[j]
  }

  /** What a directory stream delivers: the entries, each once, with "." and "..". */
  ghost predicate Lists(names: seq<string>, entries: set<string>) {
    Distinct(names) && forall name :: name in names <==> name in entries || name == "." || name == ".."
  }

  /** The names that opendir finds, in some order. */
  method Listing(entries: set<string>) returns (names: seq<string>)
    requires "." !in entries && ".." !in entries
    ensures Lists(names, entries)
  {
    names := [".", ".."];
    var left := entries;
    while left != {}
      invariant left <= entries && Lists(names, entries - left)
      decreases |left|
    {
      var name :| name in left;
      ListsMore(names, entries - left, name);
      names, left := names + [name], left - {name};
      assert entries - left == entries - (left + {name}) + {name};
    }
    assert entries - {} == entries;
  }

  lemma ListsMore(names: seq<string>, entries: set<string>, name: string)
    requires Lists(names, entries) && name !in names
    ensures Lists(names + [name], entries + {name})
  {}

  /**
   The system that is called: works(k) says that the k-th call does not fail for reasons
   of its own.  Calls are file operations, reads of a directory stream, and malloc.
   */
  class FileSystem {
    var nodes: map<Path, Kind>
    const works: nat -> bool
    var calls: nat

    constructor (nodes: map<Path, Kind>, works: nat -> bool)
      ensures this.nodes == nodes && this.works == works && calls == 0
    {
      this.nodes, this.works, calls := nodes, works, 0;
    }

    /** No call since the given one has failed for reasons of its own. */
    ghost predicate AllWorked(since: nat)
      reads this
    {
      forall k: nat | since <= k < calls :: works(k)
    }

    method Attempt() returns (ok: bool)
      modifies this`calls
      ensures ok == works(old(calls)) == AllWorked(old(calls)) && calls == old(calls) + 1
    {
      ok := works(calls);
      calls := calls + 1;
    }

    /** remove(3) */
    method Remove(path: Path) returns (rc: int, errno: Errno)
      requires IsTree(nodes)
      modifies this
      ensures IsTree(nodes) && calls == old(calls) + 1 && works(old(calls)) == AllWorked(old(calls))
      ensures errno == if !works(old(calls)) then OTHER
                       else if path !in old(nodes) then ENOENT
                       else if Entries(old(nodes), path) != {} then ENOTEMPTY
                       else OK
      ensures rc == if errno.OK? then 0 else -1
      ensures nodes == if errno.OK? then old(nodes) - {path} else old(nodes)
    {
      var ok := Attempt();
      if !ok {
        return -1, OTHER;
      }
      if path !in nodes {
        return -1, ENOENT;
      }
      if Entries(nodes, path) != {} {
        return -1, ENOTEMPTY;
      }
      NothingHangsThere(nodes, path);
      nodes := nodes - {path};
      return 0, OK;
    }

    /** opendir; the names come in some order. */
    method OpenDir(path: Path) returns (dir: Option<Dir>)
      requires IsTree(nodes)
      modifies this`calls
      ensures calls == old(calls) + 1
      ensures dir.Some? <==> AllWorked(old(calls))
      ensures dir.Some? ==> fresh(dir.value) && Lists(dir.value.pending, Entries(nodes, path))
    {
      var ok := Attempt();
      if !ok {
        return None;
      }
      NoDots(nodes, path);
      var names := Listing(Entries(nodes, path));
      var d := new Dir(names);
      dir := Some(d);
    }

    /** readdir: the next name, the end, or an error. */
    method ReadDir(dir: Dir) returns (entry: Option<string>, errno: Errno)
      modifies this`calls, dir
      ensures calls == old(calls) + 1
      ensures errno == if AllWorked(old(calls)) then OK else OTHER
      ensures entry == if errno.OK? && old(dir.pending) != [] then Some(old(dir.pending)[0]) else None
      ensures dir.pending == if entry.Some? then old(dir.pending)[1..] else old(dir.pending)
    {
      var ok := Attempt();
      if !ok {
        return None, OTHER;
      }
      if dir.pending == [] {
        return None, OK;
      }
      entry, errno := Some(dir.pending[0]), OK;
      dir.pending := dir.pending[1..];
    }
  }

  lemma HangsInParent(nodes: map<Path, Kind>, p: Path)
    requires p in nodes && p != []
    ensures p[|p| - 1] in Entries(nodes, p[..|p| - 1])
  {}

  lemma NothingHangsThere(nodes: map<Path, Kind>, path: Path)
    requires IsTree(nodes) && Entries(nodes, path) == {}
    ensures IsTree(nodes - {path})
  {
    forall p | p in nodes - {path}
      ensures Hangs(nodes - {path}, p)
    {
      assert Hangs(nodes, p);
      if p != [] {
        HangsInParent(nodes, p);
      }
    }
  }

  /** The list of names that grows by doubling. */
  class NameList {
    var files: array<string>
    var count: nat

    ghost predicate Valid()
      reads this
    {
      count <= files.Length && files.Length >= 2
    }

    ghost function Names(): seq<string>
      reads this, files
      requires Valid()
    {
      files[..count]
    }

    constructor ()
      ensures Valid() && Names() == [] && fresh(files)
    {
      files := new string[2](_ => "");
      count := 0;
    }

    /** Doubles the array when it is full: the write is always inside of it. */
    method Add(name: string)
      requires Valid()
      modifies this, files
      ensures Valid() && Names() == old(Names()) + [name]
      ensures files == old(files) || fresh(files)
    {
      if count >= files.Length {
        var more := new string[files.Length * 2](_ => "");
        forall i | 0 <= i < count {
          more[i] := files[i];
        }
        files := more;
      }
      files[count] := name;
      count := count + 1;
    }
  }

  /** The length of the text snprintf makes of "%s/%s". */
  function TextLength(path: Path): nat {
    |Render(path)|
  }

  /** One more name takes a slash and its own length. */
  lemma TextGrows(path: Path, name: string)
    ensures TextLength(path + [name]) == TextLength(path) + 1 + |name|
  {
    assert (path + [name])[..|path|] == path;
  }

  predicate IsDot(name: string) {
    name == "." || name == ".."
  }

  /** All names but the dot names. */
  function Kept(names: seq<string>): seq<string> {
    if names == [] then []
    else
      var last := names[|names| - 1];
      if IsDot(last) then Kept(names[..|names| - 1]) else Kept(names[..|names| - 1]) + [last]
  }

  lemma {:induction false} KeptHas(names: seq<string>, name: string)
    ensures name in Kept(names) <==> name in names && !IsDot(name)
  {
    if names != [] {
      KeptHas(names[..|names| - 1], name);
      assert names == names[..|names| - 1] + [names[|names| - 1]];
    }
  }

  lemma {:induction false} KeptDistinct(names: seq<string>)
    requires Distinct(names)
    ensures Distinct(Kept(names))
  {
    if names != [] {
      var rest, last := names[..|names| - 1], names[|names| - 1];
      KeptDistinct(rest);
      KeptHas(rest, last);
      assert last !in rest;
    }
  }

  /** What is kept of a directory stream are the entries. */
  lemma KeptEntries(names: seq<string>, entries: set<string>)
    requires Lists(names, entries) && "." !in entries && ".." !in entries
    ensures Distinct(Kept(names)) && forall name :: name in Kept(names) <==> name in entries
  {
    KeptDistinct(names);
    forall name
      ensures name in Kept(names) <==> name in entries
    {
      KeptHas(names, name);
    }
  }

  lemma KeptOneMore(all: seq<string>, k: nat)
    requires k < |all|
    ensures Kept(all[..k + 1]) == if IsDot(all[k]) then Kept(all[..k]) else Kept(all[..k]) + [all[k]]
  {
    assert all[..k + 1][..k] == all[..k];
  }

  /** Gathers the names of the entries, without "." and "..". */
  method Gather(fs: FileSystem, dir: Dir, list: NameList) returns (errno: Errno)
    requires list.Valid() && list.Names() == []
    modifies fs`calls, dir, list, list.files
    ensures list.Valid() && fs.calls > old(fs.calls)
    ensures errno.OK? <==> fs.AllWorked(old(fs.calls))
    ensures errno.OK? ==> list.Names() == Kept(old(dir.pending))
  {
    ghost var all, k := dir.pending, 0;
    var entry;
    entry, errno := fs.ReadDir(dir);
    while entry.Some?
      invariant list.Valid() && (list.files == old(list.files) || fresh(list.files))
      invariant k <= |all| && fs.calls > old(fs.calls) && list.Names() == Kept(all[..k])
      invariant if entry.Some? then k < |all| && entry.value == all[k] && dir.pending == all[k + 1..] && errno.OK?
                else errno.OK? ==> k == |all|
      invariant errno.OK? <==> fs.AllWorked(old(fs.calls))
      decreases |all| - k + if entry.Some? then 1 else 0
    {
      KeptOneMore(all, k);
      if !IsDot(entry.value) {
        list.Add(entry.value);
      }
      k := k + 1;
      entry, errno := fs.ReadDir(dir);
    }
    assert all[..|all|] == all;
  }

  lemma SmallerSubtree(before: map<Path, Kind>, after: map<Path, Kind>, path: Path, name: string)
    requires path in before && OnlyLost(before, after, path)
    ensures Subtree(after, path + [name]) < Subtree(before, path)
  {
    assert path in Subtree(before, path) && path !in Subtree(after, path + [name]);
    forall p | p in Subtree(after, path + [name])
      ensures p in Subtree(before, path)
    {
      assert path <= path + [name] <= p;
    }
  }

  lemma OnlyLostBelow(a: map<Path, Kind>, b: map<Path, Kind>, c: map<Path, Kind>, path: Path, name: string)
    requires OnlyLost(a, b, path) && OnlyLost(b, c, path + [name])
    ensures OnlyLost(a, c, path)
  {
    forall p | p in a && !Under(path, p)
      ensures p in c
    {
      assert p in b && !Under(path + [name], p);
    }
  }

  /** What is left below a directory is below one of the entries it had before. */
  lemma BelowOldEntry(before: map<Path, Kind>, after: map<Path, Kind>, path: Path, p: Path)
    requires IsTree(after) && OnlyLost(before, after, path)
    requires p in Subtree(after, path) && p != path
    ensures p[|path|] in Entries(before, path) && p in Subtree(after, path + [p[|path|]])
  {
    BelowSomeEntry(after, path, p);
    var q := path + [p[|path|]];
    EntryIsNode(after, path, p[|path|]);
    assert q[..|q| - 1] == path;
    HangsInParent(before, q);
  }

  /** Once all the names are gone, the directory is empty. */
  lemma AllGone(before: map<Path, Kind>, after: map<Path, Kind>, path: Path, names: seq<string>)
    requires IsTree(after) && OnlyLost(before, after, path)
    requires forall name | name in Entries(before, path) :: name in names
    requires forall name | name in names :: Subtree(after, path + [name]) == {}
    ensures Subtree(after, path) <= {path}
  {
    forall p | p in Subtree(after, path)
      ensures p == path
    {
      if p != path {
        BelowOldEntry(before, after, path, p);
      }
    }
  }

  lemma NoDots(nodes: map<Path, Kind>, path: Path)
    requires IsTree(nodes)
    ensures "." !in Entries(nodes, path) && ".." !in Entries(nodes, path)
  {
    forall name | name in Entries(nodes, path)
      ensures Proper(name)
    {
      EntryIsNode(nodes, path, name);
      assert Hangs(nodes, path + [name]);
      assert (path + [name])[|path|] == name;
    }
  }

  /** The names that are made of a path on the way down fit their buffer. */
  ghost predicate FitsBelow(nodes: map<Path, Kind>, top: Path) {
    forall p | p in nodes && Under(top, p) && p != top :: TextLength(p) <= PATH_MAX
  }

  ghost predicate FitsAt(nodes: map<Path, Kind>, top: Path) {
    TextLength(top) <= PATH_MAX && FitsBelow(nodes, top)
  }

  /**
   fremove_r returns 0 if and only if the path exists, all names below it fit, and none of
   the calls it made failed for reasons of its own.  Then exactly the subtree is gone;
   whatever it returns, nothing outside the subtree has changed, and nothing was added.
   */
  method FRemoveR(fs: FileSystem, path: Path) returns (rc: int, errno: Errno)
    requires IsTree(fs.nodes) && path != []
    modifies fs
    ensures IsTree(fs.nodes) && (rc == 0 || rc == -1) && fs.calls > old(fs.calls)
    ensures OnlyLost(old(fs.nodes), fs.nodes, path)
    ensures rc == 0 <==> path in old(fs.nodes) && FitsBelow(old(fs.nodes), path) && fs.AllWorked(old(fs.calls))
    ensures rc == 0 ==> fs.nodes == old(fs.nodes) - Subtree(old(fs.nodes), path)
    decreases Subtree(fs.nodes, path), 3
  {
    ghost var before := fs.nodes;
    rc, errno := fs.Remove(path);
    if rc == 0 {
      LeafRemoved(before, path);
      return;
    }
    if !errno.ENOTEMPTY? {
      return;
    }
    var names;
    errno, names := ListEntries(fs, path);
    if !errno.OK? {
      return -1, errno;
    }
    rc, errno := ClearAndRemove(fs, path, names);
  }

  /** The names of the entries: from opendir to the end of the stream. */
  method ListEntries(fs: FileSystem, path: Path) returns (errno: Errno, names: seq<string>)
    requires IsTree(fs.nodes)
    modifies fs`calls
    ensures fs.calls > old(fs.calls) && (errno.OK? <==> fs.AllWorked(old(fs.calls)))
    ensures errno.OK? ==> Distinct(names) && forall name :: name in names <==> name in Entries(fs.nodes, path)
  {
    names := [];
    var dir := fs.OpenDir(path);
    if dir.None? {
      return OTHER, names;
    }
    var ok := fs.Attempt();
    if !ok {
      return OTHER, names;
    }
    var list := new NameList();
    NoDots(fs.nodes, path);
    KeptEntries(dir.value.pending, Entries(fs.nodes, path));
    errno := Gather(fs, dir.value, list);
    names := list.files[..list.count];
  }

  lemma LeafRemoved(nodes: map<Path, Kind>, path: Path)
    requires IsTree(nodes) && path in nodes && Entries(nodes, path) == {}
    ensures Subtree(nodes, path) == {path} && FitsBelow(nodes, path)
  {
    forall p | p in nodes && Under(path, p)
      ensures p == path
    {
      if p != path {
        BelowSomeEntry(nodes, path, p);
      }
    }
  }

  lemma LeafLost(before: map<Path, Kind>, nodes: map<Path, Kind>, path: Path)
    requires OnlyLost(before, nodes, path) && Subtree(nodes, path) <= {path} && path in before
    ensures nodes - {path} == before - Subtree(before, path)
    ensures OnlyLost(before, nodes - {path}, path)
  {}

  /** The first n entries and all below them. */
  ghost predicate AllFit(nodes: map<Path, Kind>, path: Path, names: seq<string>, n: nat)
    requires n <= |names|
  {
    forall i | 0 <= i < n :: FitsAt(nodes, path + [names[i]])
  }

  /** All names below a directory fit if and only if they fit at and below each entry. */
  lemma FitsEntries(nodes: map<Path, Kind>, path: Path, names: seq<string>)
    requires IsTree(nodes) && forall name :: name in names <==> name in Entries(nodes, path)
    ensures FitsBelow(nodes, path) <==> AllFit(nodes, path, names, |names|)
  {
    if FitsBelow(nodes, path) {
      forall i | 0 <= i < |names|
        ensures FitsAt(nodes, path + [names[i]])
      {
        assert names[i] in names;
        EntryIsNode(nodes, path, names[i]);
        forall p | p in nodes && Under(path + [names[i]], p)
          ensures TextLength(p) <= PATH_MAX
        {
          assert path <= path + [names[i]] <= p && p != path;
        }
      }
    }
    if forall i | 0 <= i < |names| :: FitsAt(nodes, path + [names[i]]) {
      forall p | p in nodes && Under(path, p) && p != path
        ensures TextLength(p) <= PATH_MAX
      {
        BelowSomeEntry(nodes, path, p);
        var i :| 0 <= i < |names| && names[i] == p[|path|];
        assert FitsAt(nodes, path + [names[i]]);
      }
    }
  }

  /** The second half: all entries, and then the directory itself. */
  method ClearAndRemove(fs: FileSystem, path: Path, names: seq<string>) returns (rc: int, errno: Errno)
    requires IsTree(fs.nodes) && path != [] && path in fs.nodes && Distinct(names)
    requires forall name :: name in names <==> name in Entries(fs.nodes, path)
    modifies fs
    ensures IsTree(fs.nodes) && (rc == 0 || rc == -1) && fs.calls >= old(fs.calls)
    ensures OnlyLost(old(fs.nodes), fs.nodes, path)
    ensures rc == 0 <==> FitsBelow(old(fs.nodes), path) && fs.AllWorked(old(fs.calls))
    ensures rc == 0 ==> fs.nodes == old(fs.nodes) - Subtree(old(fs.nodes), path)
    decreases Subtree(fs.nodes, path), 2
  {
    ghost var before := fs.nodes;
    FitsEntries(before, path, names);
    forall i | 0 <= i < |names|
      ensures path + [names[i]] in before
    {
      assert names[i] in names;
      EntryIsNode(before, path, names[i]);
    }
    ghost var cause;
    rc, errno, cause := RemoveAll(fs, path, names);
    if rc == 0 {
      ghost var emptied := fs.nodes;
      AllGone(before, emptied, path, names);
      assert path in emptied;
      NoEntries(emptied, path);
      rc, errno := fs.Remove(path);
      LeafLost(before, emptied, path);
    }
  }

  lemma EntryBelow(nodes: map<Path, Kind>, path: Path, name: string)
    requires name in Entries(nodes, path)
    ensures path + [name] in Subtree(nodes, path) && path + [name] != path
  {
    EntryIsNode(nodes, path, name);
  }

  lemma NoEntries(nodes: map<Path, Kind>, path: Path)
    requires Subtree(nodes, path) <= {path}
    ensures Entries(nodes, path) == {}
  {
    if Entries(nodes, path) != {} {
      var name :| name in Entries(nodes, path);
      EntryBelow(nodes, path, name);
    }
  }

  /** Why a removal has failed: a call failed for reasons of its own, or the name of something below does not fit. */
  datatype Cause = FailedCall(k: nat) | LongName(p: Path)

  ghost predicate Explains(cause: Cause, fs: FileSystem, before: map<Path, Kind>, path: Path, since: nat)
    reads fs
  {
    match cause
    case FailedCall(k) => since <= k < fs.calls && !fs.works(k)
    case LongName(p) => p in before && Under(path, p) && p != path && TextLength(p) > PATH_MAX
  }

  /** Where the loop over the entries stands: those before i are gone, the others and the directory untouched. */
  ghost predicate Clearing(before: map<Path, Kind>, now: map<Path, Kind>, path: Path, names: seq<string>, i: nat) {
    && path in now
    && (forall j | 0 <= j < i && j < |names| :: Subtree(now, path + [names[j]]) == {})
    && (forall j | i <= j < |names| :: Subtree(now, path + [names[j]]) == Subtree(before, path + [names[j]]))
  }

  /** What FRemoveR does to one entry leaves its siblings alone. */
  lemma OneCleared(before: map<Path, Kind>, now: map<Path, Kind>, after: map<Path, Kind>,
                   path: Path, names: seq<string>, i: nat)
    requires Clearing(before, now, path, names, i) && i < |names| && Distinct(names)
    requires OnlyLost(now, after, path + [names[i]]) && Subtree(after, path + [names[i]]) == {}
    ensures Clearing(before, after, path, names, i + 1)
  {
    assert !Under(path + [names[i]], path);
    forall j | 0 <= j < |names| && j != i
      ensures Subtree(after, path + [names[j]]) == Subtree(now, path + [names[j]])
    {
      SiblingsApart(now, after, path, names[i], names[j]);
    }
  }

  lemma SiblingsApart(now: map<Path, Kind>, after: map<Path, Kind>, path: Path, gone: string, other: string)
    requires OnlyLost(now, after, path + [gone]) && gone != other
    ensures Subtree(after, path + [other]) == Subtree(now, path + [other])
  {
    forall p | p in now && Under(path + [other], p)
      ensures p in after
    {
      assert p[|path|] == other;
      assert !Under(path + [gone], p);
    }
  }

  lemma SameFit(before: map<Path, Kind>, now: map<Path, Kind>, top: Path)
    requires Subtree(now, top) == Subtree(before, top)
    ensures FitsBelow(now, top) <==> FitsBelow(before, top)
  {
    forall p | Under(top, p)
      ensures p in now <==> p in before
    {
      assert p in Subtree(now, top) <==> p in now;
      assert p in Subtree(before, top) <==> p in before;
    }
  }

  /** Why the removal of one entry has failed. */
  lemma EntryFails(fs: FileSystem, before: map<Path, Kind>, now: map<Path, Kind>, path: Path, name: string, since: nat)
    returns (cause: Cause)
    requires path + [name] in now && Subtree(now, path + [name]) == Subtree(before, path + [name])
    requires !FitsBelow(now, path + [name]) || !fs.AllWorked(since)
    ensures Explains(cause, fs, before, path, since)
  {
    if !fs.AllWorked(since) {
      var k: nat :| since <= k < fs.calls && !fs.works(k);
      cause := FailedCall(k);
    } else {
      var p :| p in now && Under(path + [name], p) && p != path + [name] && TextLength(p) > PATH_MAX;
      assert p in Subtree(now, path + [name]);
      assert path <= path + [name] <= p;
      cause := LongName(p);
    }
  }

  /** One turn of the loop. */
  method RemoveEntry(fs: FileSystem, path: Path, names: seq<string>, i: nat, ghost before: map<Path, Kind>)
    returns (rc: int, errno: Errno, ghost cause: Cause)
    requires IsTree(fs.nodes) && path != [] && path in before && Distinct(names) && i < |names|
    requires path + [names[i]] in before
    requires OnlyLost(before, fs.nodes, path) && Clearing(before, fs.nodes, path, names, i)
    requires AllFit(before, path, names, i)
    modifies fs
    ensures IsTree(fs.nodes) && (rc == 0 || rc == -1) && fs.calls >= old(fs.calls)
    ensures OnlyLost(before, fs.nodes, path)
    ensures if rc == 0 then AllFit(before, path, names, i + 1) && fs.AllWorked(old(fs.calls))
            else Explains(cause, fs, before, path, old(fs.calls))
    ensures rc == 0 ==> Clearing(before, fs.nodes, path, names, i + 1)
    decreases Subtree(before, path), 0
  {
    var filepath := path + [names[i]];
    cause := LongName(filepath);
    if TextLength(filepath) > PATH_MAX {
      return -1, ENAMETOOLONG, cause;
    }
    ghost var now := fs.nodes;
    SmallerSubtree(before, now, path, names[i]);
    assert filepath in Subtree(before, filepath);
    SameFit(before, now, filepath);
    rc, errno := FRemoveR(fs, filepath);
    OnlyLostBelow(before, now, fs.nodes, path, names[i]);
    if rc == 0 {
      assert Subtree(fs.nodes, filepath) == {};
      OneCleared(before, now, fs.nodes, path, names, i);
    } else {
      cause := EntryFails(fs, before, now, path, names[i], old(fs.calls));
    }
  }

  /** Removes the entries one by one, until one of them fails. */
  method RemoveAll(fs: FileSystem, path: Path, names: seq<string>)
    returns (rc: int, errno: Errno, ghost cause: Cause)
    requires IsTree(fs.nodes) && path != [] && path in fs.nodes && Distinct(names)
    requires forall i | 0 <= i < |names| :: path + [names[i]] in fs.nodes
    modifies fs
    ensures IsTree(fs.nodes) && (rc == 0 || rc == -1) && fs.calls >= old(fs.calls)
    ensures OnlyLost(old(fs.nodes), fs.nodes, path)
    ensures if rc == 0 then AllFit(old(fs.nodes), path, names, |names|) && fs.AllWorked(old(fs.calls))
            else Explains(cause, fs, old(fs.nodes), path, old(fs.calls))
    ensures rc == 0 ==> Clearing(old(fs.nodes), fs.nodes, path, names, |names|)
    decreases Subtree(fs.nodes, path), 1
  {
    ghost var before := fs.nodes;
    rc, errno, cause := 0, OK, LongName(path);
    var i := 0;
    while i < |names| && rc == 0
      invariant i <= |names| && (rc == 0 || rc == -1) && IsTree(fs.nodes) && fs.calls >= old(fs.calls)
      invariant OnlyLost(before, fs.nodes, path)
      invariant rc == 0 ==> Clearing(before, fs.nodes, path, names, i)
      invariant if rc == 0 then AllFit(before, path, names, i) && fs.AllWorked(old(fs.calls))
                else Explains(cause, fs, before, path, old(fs.calls))
    {
      rc, errno, cause := RemoveEntry(fs, path, names, i, before);
      i := i + 1;
    }
  }
}
