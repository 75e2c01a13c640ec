/** fabsolute: joins cwd and path in a buffer and compacts that buffer over itself. */
module Normaliser {
  import opened Limits
  import opened Paths
  import opened Wrappers

  function WithSlash(cwd: string): string
    requires cwd != ""
  {
    if cwd[|cwd| - 1] == '/' then cwd else cwd + "/"
  }

  function Joined(cwd: string, path: string): string
    requires cwd != "" || IsAbsolute(path)
  {
    if IsAbsolute(path) then path else WithSlash(cwd) + path
  }

  /** C strings; a relative path needs an absolute cwd that leaves room in the buffer. */
  predicate InDomain(cwd: string, path: string) {
    && '\0' !in cwd && '\0' !in path
    && (!IsAbsolute(path) ==> IsAbsolute(cwd) && |WithSlash(cwd)| < PATH_MAX)
  }

  predicate ArgumentsInDomain(cwd: Option<string>, path: Option<string>) {
    cwd.Some? && path.Some? ==> InDomain(cwd.value, path.value)
  }

  predicate Fits(cwd: string, path: string)
    requires InDomain(cwd, path)
  {
    |Joined(cwd, path)| < PATH_MAX
  }

  /** The path fabsolute returns; None stands for NULL. */
  function Absolute(cwd: Option<string>, path: Option<string>): Option<string>
    requires ArgumentsInDomain(cwd, path)
  {
    if cwd.None? || path.None? then None
    else Normalise(Fitted(Joined(cwd.value, path.value), PATH_MAX))
  }

  // ------------------------------------------------------------ the scan state

  predicate IsDots(c: Component) {
    c == "" || c == "." || c == ".."
  }

  function Done(s: string): seq<Component> {
    Split(s)[..|Split(s)| - 1]
  }

  function Current(s: string): Component {
    Split(s)[|Split(s)| - 1]
  }

  /**
   What the loop knows after reading `read`: `out` is what it has written, and `pending`
   is the length of the sequence ('/', '/.' or '/..') it holds back, 0 for none.
   */
  ghost predicate Scanned(read: string, pending: nat, out: string) {
    && Resolve(Done(read)).Some?
    && var st := Resolve(Done(read)).value;
       var cur := Current(read);
       if pending > 0 then IsDots(cur) && pending == 1 + |cur| && out == Render(st)
       else if read == "" then out == ""
       else !IsDots(cur) && out == Render(st) + "/" + cur
  }

  lemma ReadOne(read: string, c: char)
    ensures c == '/' ==> Done(read + [c]) == Split(read) && Current(read + [c]) == ""
    ensures c != '/' ==> Done(read + [c]) == Done(read) && Current(read + [c]) == Current(read) + [c]
    ensures Resolve(Split(read)) ==
      match Resolve(Done(read))
      case None => None
      case Some(st) => Push(st, Current(read))
  {
    SplitSnoc(read, c);
  }

  lemma DotsGrow(cur: Component, c: char)
    ensures IsDots(cur + [c]) <==> c == '.' && (cur == "" || cur == ".")
  {
    assert (cur + [c])[..|cur|] == cur && (cur + [c])[|cur|] == c;
  }

  /** The text held back really is the end of what was read. */
  lemma CurrentIsSuffix(read: string)
    requires IsAbsolute(read)
    ensures |read| >= 1 + |Current(read)|
    ensures read[|read| - 1 - |Current(read)|..] == "/" + Current(read)
    ensures '/' !in Current(read)
  {
    AbsoluteHasTwo(read);
    SplitJoins(read);
    var before, cur := JoinSlash(Done(read)), Current(read);
    assert read == before + ("/" + cur);
  }

  lemma AbsoluteHasTwo(s: string)
    requires IsAbsolute(s)
    ensures |Split(s)| >= 2
  {
    assert s == "" + "/" + s[1..];
    SplitConcat("", s[1..]);
  }

  /** A text that fails at a slash fails as a whole. */
  lemma FailsForGood(s: string, r: nat)
    requires r < |s| && s[r] == '/' && Resolve(Split(s[..r])).None?
    ensures Normalise(s).None?
  {
    assert s == s[..r] + "/" + s[r + 1..];
    SplitConcat(s[..r], s[r + 1..]);
    ResolveConcat([], Split(s[..r]), Split(s[r + 1..]));
  }

  lemma {:induction false} RenderStarts(cs: seq<Component>)
    ensures cs != [] ==> IsAbsolute(Render(cs))
  {
    if |cs| > 1 {
      RenderStarts(cs[..|cs| - 1]);
    }
  }

  lemma ResolvedProper(read: string)
    requires Resolve(Done(read)).Some?
    ensures AllProper(Resolve(Done(read)).value)
  {
    SplitJoins(read);
    ResolvedIsProper([], Done(read));
  }

  /** A slash that finds '/' or '/.' held back, or nothing: the output stays. */
  lemma SlashKeeps(read: string, pending: nat, out: string)
    requires Scanned(read, pending, out) && pending < 3
    ensures Scanned(read + "/", 1, out)
  {
    ReadOne(read, '/');
    var st := Resolve(Done(read)).value;
    if pending == 0 && read != "" {
      assert (st + [Current(read)])[..|st|] == st;
    }
  }

  /** A slash that finds '/..' held back: the last component goes. */
  lemma SlashPops(read: string, out: string)
    requires Scanned(read, 3, out)
    ensures Resolve(Split(read)) == Push(Resolve(Done(read)).value, "..")
    ensures out == "" <==> Resolve(Split(read)).None?
    ensures out != "" ==>
      var st := Resolve(Done(read)).value;
      && out == Render(st[..|st| - 1]) + "/" + st[|st| - 1] && Proper(st[|st| - 1])
      && Scanned(read + "/", 1, Render(st[..|st| - 1]))
  {
    ReadOne(read, '/');
    ResolvedProper(read);
  }

  /** Another dot after '/' or '/.' is held back too. */
  lemma DotWaits(read: string, pending: nat, out: string)
    requires Scanned(read, pending, out) && 0 < pending < 3
    ensures Scanned(read + ".", pending + 1, out)
  {
    ReadOne(read, '.');
  }

  /** A character that completes a name releases what was held back. */
  lemma Releases(read: string, c: char, pending: nat, out: string)
    requires IsAbsolute(read) && c != '/'
    requires Scanned(read, pending, out) && pending > 0
    requires c == '.' ==> pending == 3
    ensures pending <= |read|
    ensures Scanned(read + [c], 0, out + read[|read| - pending..] + [c])
  {
    ReadOne(read, c);
    CurrentIsSuffix(read);
    DotsGrow(Current(read), c);
    var st := Resolve(Done(read)).value;
    assert out + ("/" + Current(read)) + [c] == Render(st) + "/" + (Current(read) + [c]);
  }

  /** Inside a name every character is copied. */
  lemma Copies(read: string, c: char, out: string)
    requires IsAbsolute(read) && c != '/'
    requires Scanned(read, 0, out)
    ensures Scanned(read + [c], 0, out + [c])
  {
    ReadOne(read, c);
    DotsGrow(Current(read), c);
    var st := Resolve(Done(read)).value;
    assert out + [c] == Render(st) + "/" + (Current(read) + [c]);
  }

  /** The end of the text: what the output means for each kind of pending sequence. */
  lemma AtEnd(s: string, pending: nat, out: string)
    requires IsAbsolute(s) && Scanned(s, pending, out)
    ensures pending < 3 ==> Resolve(Split(s)).Some? && out == Render(Resolve(Split(s)).value)
    ensures pending == 3 && out == "" ==> Normalise(s).None?
    ensures pending == 3 && out != "" ==>
      && Resolve(Split(s)).Some?
      && var st := Resolve(Split(s)).value;
         exists last: Component :: Proper(last) && out == Render(st) + "/" + last
  {
    ReadOne(s, '/');
    var st := Resolve(Done(s)).value;
    if pending < 3 {
      if pending == 0 {
        assert (st + [Current(s)])[..|st|] == st;
      }
    } else {
      SlashPops(s, out);
    }
  }

  // ------------------------------------------------------------------ methods

  /** snprintf(absolute + at, size, "%s", s) */
  method PutString(absolute: array<char>, at: nat, size: nat, s: string)
    requires size > 0 && at + size <= absolute.Length
    requires '\0' !in s
    modifies absolute
    ensures absolute[..at] == old(absolute[..at])
    ensures absolute[at + size..] == old(absolute[at + size..])
    ensures Holds(absolute[at..], Fitted(s, size))
  {
    var t := Fitted(s, size);
    forall i | 0 <= i < |t| {
      absolute[at + i] := t[i];
    }
    absolute[at + |t|] := '\0';
    assert absolute[at..][..|t|] == t;
  }

  lemma FittedAppend(prefix: string, s: string)
    requires |prefix| < PATH_MAX
    ensures Fitted(prefix + s, PATH_MAX) == prefix + Fitted(s, PATH_MAX - |prefix|)
  {}

  lemma HoldsBehind(buffer: seq<char>, prefix: string, t: string)
    requires |prefix| <= |buffer| && buffer[..|prefix|] == prefix && '\0' !in prefix
    requires Holds(buffer[|prefix|..], t)
    ensures Holds(buffer, prefix + t)
  {
    assert buffer[..|prefix| + |t|] == prefix + buffer[|prefix|..][..|t|];
  }

  /** The first half of fabsolute: the joined text, cut to what the buffer can hold. */
  method JoinInto(cwd: string, path: string, absolute: array<char>)
    requires absolute.Length >= PATH_MAX && InDomain(cwd, path)
    modifies absolute
    ensures Holds(absolute[..], Fitted(Joined(cwd, path), PATH_MAX))
    ensures absolute[PATH_MAX..] == old(absolute[PATH_MAX..])
  {
    if !IsAbsolute(path) {
      AppendToCwd(cwd, path, absolute);
    } else {
      PutString(absolute, 0, PATH_MAX, path);
      assert absolute[0..] == absolute[..];
    }
  }

  method AppendToCwd(cwd: string, path: string, absolute: array<char>)
    requires absolute.Length >= PATH_MAX && InDomain(cwd, path) && !IsAbsolute(path)
    modifies absolute
    ensures Holds(absolute[..], Fitted(WithSlash(cwd) + path, PATH_MAX))
    ensures absolute[PATH_MAX..] == old(absolute[PATH_MAX..])
  {
    PutString(absolute, 0, PATH_MAX, cwd);
    var len := |cwd|;
    assert absolute[0..] == absolute[..];
    if absolute[len - 1] != '/' {
      absolute[len] := '/';
      len := len + 1;
    }
    assert absolute[..len] == WithSlash(cwd);
    assert absolute[PATH_MAX..] == old(absolute[PATH_MAX..]);
    PutString(absolute, len, PATH_MAX - len, path);
    FittedAppend(WithSlash(cwd), path);
    HoldsBehind(absolute[..], WithSlash(cwd), Fitted(path, PATH_MAX - len));
  }

  /** Moves the write pointer back to the slash before the last component. */
  method Rewind(absolute: array<char>, from: nat, ghost kept: string, ghost last: Component)
    returns (c: nat)
    requires from <= absolute.Length && absolute[..from] == kept + "/" + last
    requires '/' !in last
    ensures c == |kept| && c < from && absolute[..c] == kept
  {
    c := from - 1;
    ghost var out := absolute[..from];
    assert forall i | |kept| < i < from :: out[i] == last[i - |kept| - 1];
    while c > 0 && absolute[c] != '/'
      invariant |kept| <= c < from
    {
      c := c - 1;
    }
    assert out[|kept|] == '/';
    assert absolute[..c] == out[..c];
  }

  /** Releases the pending sequence: copies it forward, overlapping itself, up to the read pointer. */
  method Release(absolute: array<char>, from: nat, l0: nat, r: nat) returns (c: nat)
    requires from <= l0 <= r < absolute.Length
    modifies absolute
    ensures c == from + (r + 1 - l0)
    ensures absolute[..c] == old(absolute[..from] + absolute[l0..r + 1])
    ensures absolute[r + 1..] == old(absolute[r + 1..])
  {
    c := from;
    var l := l0;
    while l <= r
      invariant l0 <= l <= r + 1 && c == from + (l - l0)
      invariant absolute[..c] == old(absolute[..from] + absolute[l0..l])
      invariant absolute[l..] == old(absolute[l..])
    {
      assert absolute[l] == absolute[l..][0] == old(absolute[l..][0]);
      absolute[c] := absolute[l];
      c, l := c + 1, l + 1;
      assert absolute[..c] == absolute[..c - 1] + [old(absolute[l - 1])];
      assert old(absolute[l0..l]) == old(absolute[l0..l - 1]) + [old(absolute[l - 1])];
      assert absolute[l..] == absolute[l - 1..][1..];
    }
  }

  const NULL := -1

  /** From here on the buffer is as it was before the loop. */
  function Unwritten(l: int, r: nat): int {
    if l == NULL then r else l
  }

  function Pending(l: int, r: nat): int {
    if l == NULL then 0 else r - l
  }

  /**
   The invariant of the loop: r reads ahead, c writes behind, and l marks the start of a
   sequence that is read but not yet written.  No unread character is ever overwritten:
   c never passes l, nor r when l is NULL, and everything from there on is as it was.
   */
  ghost predicate Compacting(buffer: seq<char>, before: seq<char>, s: string, l: int, r: nat, c: nat) {
    && |buffer| == |before| && Holds(before, s) && IsAbsolute(s) && IsAbsolute(buffer)
    && r <= |s| && (l == NULL || 0 <= l < r)
    && c <= Unwritten(l, r)
    && buffer[Unwritten(l, r)..] == before[Unwritten(l, r)..]
    && Scanned(s[..r], Pending(l, r), buffer[..c])
  }

  lemma Unread(buffer: seq<char>, before: seq<char>, s: string, l: int, r: nat, c: nat)
    requires Compacting(buffer, before, s, l, r, c)
    ensures buffer[r] == if r < |s| then s[r] else '\0'
    ensures r < |s| ==> s[r] != '\0' && s[..r + 1] == s[..r] + [s[r]]
    ensures r < |s| && l != NULL ==> buffer[l..r + 1] == s[..r][l..] + [s[r]]
    ensures buffer[r..] == before[r..]
    ensures buffer[|s| + 1..] == before[|s| + 1..]
  {
    var from := Unwritten(l, r);
    assert forall i | from <= i < |buffer| :: buffer[i] == buffer[from..][i - from] == before[i];
    assert forall i | 0 <= i < |s| :: before[i] == before[..|s|][i] == s[i];
  }

  /** The loop body for *r == '/'; false stands for returning NULL. */
  method OnSlash(absolute: array<char>, l: int, r: nat, c0: nat, ghost before: seq<char>, ghost s: string)
    returns (ok: bool, c: nat)
    requires Compacting(absolute[..], before, s, l, r, c0) && r < |s| && s[r] == '/'
    ensures ok ==> Compacting(absolute[..], before, s, r, r + 1, c)
    ensures !ok ==> Normalise(s).None?
  {
    c := c0;
    ok := true;
    ghost var read, out := s[..r], absolute[..c];
    Unread(absolute[..], before, s, l, r, c);
    if l != NULL {
      var sequence := r - l;
      if sequence < 3 {
        SlashKeeps(read, sequence, out);
      } else {
        SlashPops(read, out);
        if c == 0 {
          FailsForGood(s, r);
          return false, c;
        }
        ghost var st := Resolve(Done(read)).value;
        c := Rewind(absolute, c, Render(st[..|st| - 1]), st[|st| - 1]);
      }
    } else {
      SlashKeeps(read, 0, out);
    }
  }

  /** Copies one character of a name. */
  method CopyOne(absolute: array<char>, r: nat, c0: nat, ghost before: seq<char>, ghost s: string)
    returns (c: nat)
    requires Compacting(absolute[..], before, s, NULL, r, c0) && r < |s| && s[r] != '/'
    modifies absolute
    ensures Compacting(absolute[..], before, s, NULL, r + 1, c)
  {
    c := c0;
    ghost var out := absolute[..c];
    Unread(absolute[..], before, s, NULL, r, c);
    Copies(s[..r], s[r], out);
    absolute[c] := absolute[r];
    c := c + 1;
    assert absolute[..c] == out + [s[r]];
  }

  /** What CopyPending has to show. */
  lemma Written(buffer: seq<char>, before: seq<char>, s: string, r: nat, c: nat, text: string)
    requires |buffer| == |before| && Holds(before, s) && IsAbsolute(s) && r < |s| && 0 < c <= r + 1
    requires buffer[..c] == text && IsAbsolute(text) && Scanned(s[..r + 1], 0, text)
    requires buffer[r + 1..] == before[r + 1..]
    ensures Compacting(buffer, before, s, NULL, r + 1, c)
  {
    assert buffer[0] == buffer[..c][0];
  }

  /** Output is empty or starts with a slash. */
  lemma ReleasedIsAbsolute(buffer: seq<char>, c: nat, sequence: string, ch: char)
    requires c <= |buffer| && IsAbsolute(buffer) && IsAbsolute(sequence)
    ensures IsAbsolute(buffer[..c] + sequence + [ch])
  {}

  /** The pending sequence turned out to be the start of a name. */
  method CopyPending(absolute: array<char>, l: int, r: nat, c0: nat, ghost before: seq<char>, ghost s: string)
    returns (c: nat)
    requires Compacting(absolute[..], before, s, l, r, c0) && l != NULL
    requires r < |s| && s[r] != '/' && (s[r] == '.' ==> r - l == 3)
    modifies absolute
    ensures Compacting(absolute[..], before, s, NULL, r + 1, c)
  {
    ghost var out, pending := absolute[..c0], s[..r][l..];
    Unread(absolute[..], before, s, l, r, c0);
    Releases(s[..r], s[r], r - l, out);
    CurrentIsSuffix(s[..r]);
    ReleasedIsAbsolute(absolute[..], c0, pending, s[r]);
    c := Release(absolute, c0, l, r);
    assert out + (pending + [s[r]]) == out + pending + [s[r]];
    Written(absolute[..], before, s, r, c, out + pending + [s[r]]);
  }

  /** The loop body for *r == '.'. */
  method OnDot(absolute: array<char>, l0: int, r: nat, c0: nat, ghost before: seq<char>, ghost s: string)
    returns (l: int, c: nat)
    requires Compacting(absolute[..], before, s, l0, r, c0) && r < |s| && s[r] == '.'
    modifies absolute
    ensures Compacting(absolute[..], before, s, l, r + 1, c)
  {
    l, c := l0, c0;
    if l != NULL {
      var sequence := r - l;
      if sequence == 3 {
        c := CopyPending(absolute, l, r, c, before, s);
        l := NULL;
      } else {
        assert sequence < 3;
        Unread(absolute[..], before, s, l, r, c);
        DotWaits(s[..r], sequence, absolute[..c]);
      }
    } else {
      c := CopyOne(absolute, r, c, before, s);
    }
  }

  /** The loop body for every other character. */
  method OnName(absolute: array<char>, l0: int, r: nat, c0: nat, ghost before: seq<char>, ghost s: string)
    returns (l: int, c: nat)
    requires Compacting(absolute[..], before, s, l0, r, c0)
    requires r < |s| && s[r] != '/' && s[r] != '.'
    modifies absolute
    ensures Compacting(absolute[..], before, s, l, r + 1, c)
  {
    l, c := l0, c0;
    if l != NULL {
      var sequence := r - l;
      assert sequence <= 3;
      c := CopyPending(absolute, l, r, c, before, s);
      l := NULL;
    } else {
      c := CopyOne(absolute, r, c, before, s);
    }
  }

  /** After the loop: a last '/..' is carried out, and the result is terminated. */
  method Finish(absolute: array<char>, l: int, r: nat, c0: nat, ghost before: seq<char>, ghost s: string)
    returns (ok: bool)
    requires Compacting(absolute[..], before, s, l, r, c0) && r == |s|
    modifies absolute
    ensures ok <==> Normalise(s).Some?
    ensures ok ==> Holds(absolute[..], Normalise(s).value)
    ensures absolute[|s| + 1..] == before[|s| + 1..]
  {
    var c := c0;
    Unread(absolute[..], before, s, l, r, c);
    assert s[..r] == s;
    AtEnd(s, Pending(l, r), absolute[..c]);
    if l != NULL && r - l == 3 {
      if c == 0 {
        return false;
      }
      ghost var st := Resolve(Split(s)).value;
      ghost var last: Component :| Proper(last) && absolute[..c] == Render(st) + "/" + last;
      c := Rewind(absolute, c, Render(st), last);
    }
    NormaliseKeepsCString(s);
    Terminate(absolute, c, Resolve(Split(s)).value);
    ok := true;
  }

  method Terminate(absolute: array<char>, c0: nat, ghost st: seq<Component>)
    requires c0 < absolute.Length && 1 < absolute.Length && IsAbsolute(absolute[..])
    requires absolute[..c0] == Render(st) && '\0' !in Text(st)
    modifies absolute
    ensures Holds(absolute[..], Text(st))
    ensures forall k | c0 < k <= absolute.Length && 1 < k :: absolute[k..] == old(absolute[k..])
  {
    var c := c0;
    RenderStarts(st);
    if c == 0 {
      c := c + 1;
    }
    absolute[c] := '\0';
    assert absolute[..c] == Text(st);
  }

  /** The loop body: what to do with *r. */
  method Advance(absolute: array<char>, l0: int, r: nat, c0: nat, ghost before: seq<char>, ghost s: string)
    returns (ok: bool, l: int, c: nat)
    requires Compacting(absolute[..], before, s, l0, r, c0) && r < |s|
    modifies absolute
    ensures ok ==> Compacting(absolute[..], before, s, l, r + 1, c)
    ensures !ok ==> Normalise(s).None? && absolute[|s| + 1..] == before[|s| + 1..]
  {
    ok, l, c := true, l0, c0;
    Unread(absolute[..], before, s, l, r, c);
    if absolute[r] == '/' {
      ok, c := OnSlash(absolute, l, r, c, before, s);
      l := r;
    } else if absolute[r] == '.' {
      l, c := OnDot(absolute, l, r, c, before, s);
    } else {
      l, c := OnName(absolute, l, r, c, before, s);
    }
  }

  /** The scan state holds before anything is read. */
  lemma NothingRead(before: seq<char>, s: string)
    requires Holds(before, s) && IsAbsolute(s)
    ensures Compacting(before, before, s, NULL, 0, 0)
  {
    assert before[0] == before[..|s|][0];
    assert s[..0] == "" && before[..0] == "";
  }

  /** The loop of fabsolute, on a buffer that holds the joined text. */
  method Compact(absolute: array<char>, ghost s: string) returns (ok: bool)
    requires IsAbsolute(s) && Holds(absolute[..], s)
    modifies absolute
    ensures ok <==> Normalise(s).Some?
    ensures ok ==> Holds(absolute[..], Normalise(s).value)
    ensures absolute[|s| + 1..] == old(absolute[|s| + 1..])
  {
    ghost var before := absolute[..];
    var r: nat, c: nat, l := 0, 0, NULL;
    NothingRead(before, s);
    Unread(before, before, s, l, r, c);
    while absolute[r] != '\0'
      invariant Compacting(absolute[..], before, s, l, r, c)
      invariant absolute[r] == if r < |s| then s[r] else '\0'
      decreases |s| - r
    {
      ok, l, c := Advance(absolute, l, r, c, before, s);
      if !ok {
        return;
      }
      r := r + 1;
      Unread(absolute[..], before, s, l, r, c);
    }
    ok := Finish(absolute, l, r, c, before, s);
  }

  /** fabsolute(cwd, path, absolute); ok says that the result is not NULL. */
  method FAbsolute(cwd: Option<string>, path: Option<string>, absolute: array<char>) returns (ok: bool)
    requires absolute.Length >= PATH_MAX && ArgumentsInDomain(cwd, path)
    modifies absolute
    ensures ok <==> Absolute(cwd, path).Some?
    ensures ok ==> Holds(absolute[..], Absolute(cwd, path).value)
    ensures absolute[PATH_MAX..] == old(absolute[PATH_MAX..])
  {
    if cwd.None? || path.None? {
      return false;
    }
    JoinInto(cwd.value, path.value, absolute);
    ghost var joined := Fitted(Joined(cwd.value, path.value), PATH_MAX);
    ghost var beyond := absolute[|joined| + 1..];
    assert absolute[PATH_MAX..] == beyond[PATH_MAX - |joined| - 1..];
    ok := Compact(absolute, joined);
    assert absolute[PATH_MAX..] == absolute[|joined| + 1..][PATH_MAX - |joined| - 1..];
  }
}
