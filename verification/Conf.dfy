/** conf.c: the tokenizer that cuts a line up in place, and the file reader around it. */
module Conf {
  import opened ConfGrammar
  import opened Limits
  import opened Wrappers

  const ERR_NONE := 0
  const ERR_CONF := 2
  const BUFSIZE := 2048

  datatype Settings = Settings(fusgdLog: string, fusgdTrace: string, dbPath: string)

  const DEFAULTS := Settings("/var/log/fusg/fusgd.log", "", "/var/fusg/db")

  /** What property() makes of a name and a value; None for an unknown name. */
  function Set(c: Settings, name: string, value: string): Option<Settings> {
    if name == "db_path" then Some(c.(dbPath := Fitted(value, PATH_MAX)))
    else if name == "fusgd_log" then Some(c.(fusgdLog := Fitted(value, PATH_MAX)))
    else if name == "fusgd_trace" then Some(c.(fusgdTrace := Fitted(value, PATH_MAX)))
    else None
  }

  /** What a line does to the settings; None if the line is refused. */
  function Apply(c: Settings, s: string): Option<Settings> {
    match Parse(s)
    case Blank => Some(c)
    case Assign(name, value) => Set(c, name, value)
    case _ => None
  }

  /** From index i on, the buffer still holds the text as it was read. */
  ghost predicate Rest(buf: seq<char>, s: string, i: nat) {
    && '\0' !in s && i <= |s| < |buf| && buf[|s|] == '\0'
    && forall k | i <= k < |s| :: buf[k] == s[k]
  }

  /** A C string starts at an index of the buffer. */
  ghost predicate StringAt(buf: seq<char>, p: nat, v: string) {
    && '\0' !in v && p + |v| < |buf| && buf[p + |v|] == '\0'
    && forall k | 0 <= k < |v| :: buf[p + k] == v[k]
  }

  ghost predicate SameBelow(a: seq<char>, b: seq<char>, n: nat) {
    |a| == |b| && n <= |a| && forall k | 0 <= k < n :: a[k] == b[k]
  }

  ghost predicate SameFrom(a: seq<char>, b: seq<char>, n: nat) {
    |a| == |b| && forall k | n <= k < |a| :: a[k] == b[k]
  }

  // ------------------------------------------------------------ the tokenizer

  /** skip_white */
  method SkipWhiteIn(buf: array<char>, line: nat, ghost s: string) returns (p: nat)
    requires Rest(buf[..], s, line)
    ensures p == SkipWhite(s, line)
  {
    p := line;
    while IsSpace(buf[p])
      invariant line <= p <= |s| && SkipWhite(s, p) == SkipWhite(s, line)
      decreases |s| - p
    {
      p := p + 1;
    }
  }

  /** token_string: a missing delimiter leaves the line where it was. */
  method TokenString(buf: array<char>, line0: nat, ghost s: string) returns (token: nat, line: nat)
    requires Rest(buf[..], s, line0) && line0 < |s| && IsQuote(s[line0])
    requires QuoteEnd(s, line0 + 1, s[line0]) <= |s|
    modifies buf
    ensures token == line0 + 1
    ensures var q := QuoteEnd(s, line0 + 1, s[line0]);
            if q == |s| then line == line0 && buf[..] == old(buf[..])
            else line == q + 1 && buf[..] == old(buf[..])[q := '\0']
  {
    var p := line0;
    var del := buf[p];
    p := p + 1;
    token := p;
    line := line0;
    while buf[p] != '\0' && buf[p] != del
      invariant line0 < p <= |s| && QuoteEnd(s, p, del) == QuoteEnd(s, line0 + 1, del)
      decreases |s| - p
    {
      if buf[p] == '\\' {
        p := p + 1;
      }
      p := p + 1;
    }
    if buf[p] != '\0' {
      buf[p] := '\0';
      line := p + 1;
    }
  }

  /** token; None is NULL. */
  method TokenIn(buf: array<char>, line0: nat, ghost s: string) returns (token: Option<nat>, line: nat)
    requires Rest(buf[..], s, line0) && !TokenAt(s, line0).Overrun?
    modifies buf
    ensures match TokenAt(s, line0)
            case Found(v, n) =>
              && token.Some? && line == n && StringAt(buf[..], token.value, v) && token.value + |v| <= n
              && (token.value + |v| < n || n == |s|)
              && SameBelow(buf[..], old(buf[..]), line0) && SameFrom(buf[..], old(buf[..]), n)
            case Nothing => token.None? && line == line0 && buf[..] == old(buf[..])
            case Unterminated => token == Some(line0 + 1) && line == line0 && buf[..] == old(buf[..])
            case Overrun => true
  {
    if buf[line0] == '"' || buf[line0] == '\'' {
      assert line0 < |s|;
      var t;
      t, line := TokenString(buf, line0, s);
      return Some(t), line;
    }
    var p := line0;
    while buf[p] != '\0' && !IsSpace(buf[p])
      invariant line0 <= p <= |s| && WordEnd(s, p) == WordEnd(s, line0)
      decreases |s| - p
    {
      p := p + 1;
    }
    if p == line0 {
      return None, line0;
    }
    if buf[p] != '\0' {
      buf[p] := '\0';
      p := p + 1;
    }
    return Some(line0), p;
  }

  /** line_end: NULL if nothing or a comment follows. */
  method LineEnd(buf: array<char>, line: nat, ghost s: string) returns (remains: Option<nat>)
    requires Rest(buf[..], s, line)
    modifies buf
    ensures remains.None? <==> line == |s| || s[line] == '\n' || s[line] == '#'
    ensures remains.None? ==> buf[..] == old(buf[..])
    ensures SameBelow(buf[..], old(buf[..]), line)
  {
    var p := line;
    while buf[p] != '\0' && buf[p] != '\n'
      invariant line <= p <= |s|
      invariant p > line ==> line < |s| && s[line] != '\n' && s[line] != '#'
      decreases |s| - p
    {
      if buf[p] == '#' {
        break;
      }
      p := p + 1;
    }
    if p == line {
      return None;
    }
    buf[p] := '\0';
    return Some(line);
  }

  /** consume */
  method Consume(c: char, buf: array<char>, line0: nat, ghost s: string) returns (ok: bool, line: nat)
    requires Rest(buf[..], s, line0) && c != '\0'
    ensures ok <==> line0 < |s| && s[line0] == c
    ensures line == if ok then line0 + 1 else line0
  {
    if buf[line0] == c {
      return true, line0 + 1;
    }
    return false, line0;
  }

  /** The C string that starts at an index of the buffer. */
  method CStringAt(buf: array<char>, p: nat, ghost v: string) returns (r: string)
    requires StringAt(buf[..], p, v)
    ensures r == v
  {
    r := "";
    var i := p;
    while buf[i] != '\0'
      invariant p <= i <= p + |v| && r == v[..i - p]
      invariant buf[i] == if i - p < |v| then v[i - p] else '\0'
      decreases p + |v| - i
    {
      assert buf[i] == buf[..][p + (i - p)];
      r := r + [buf[i]];
      i := i + 1;
      assert i - p < |v| ==> buf[..][p + (i - p)] == v[i - p];
    }
  }

  // ----------------------------------------------------------------- settings

  /** fusg_conf_t */
  class FusgConf {
    var fusgdLog: string
    var fusgdTrace: string
    var dbPath: string

    function Value(): Settings
      reads this
    {
      Settings(fusgdLog, fusgdTrace, dbPath)
    }

    constructor ()
      ensures Value() == Settings("", "", "")
    {
      fusgdLog, fusgdTrace, dbPath := "", "", "";
    }

    /** fusg_config_init */
    method Init()
      modifies this
      ensures Value() == DEFAULTS
      ensures fusgdLog == "/var/log/fusg/fusgd.log" && fusgdTrace == "" && dbPath == "/var/fusg/db"
    {
      fusgdLog := "/var/log/fusg/fusgd.log";
      fusgdTrace := "";
      dbPath := "/var/fusg/db";
    }

    /** property */
    method Property(name: string, value: string) returns (rc: int)
      modifies this
      ensures var r := Set(old(Value()), name, value);
              if r.Some? then rc == 0 && Value() == r.value else rc == -1 && Value() == old(Value())
    {
      rc := 0;
      if name == "db_path" {
        dbPath := Fitted(value, PATH_MAX);
      } else if name == "fusgd_log" {
        fusgdLog := Fitted(value, PATH_MAX);
      } else if name == "fusgd_trace" {
        fusgdTrace := Fitted(value, PATH_MAX);
      } else {
        rc := -1;
      }
    }
  }

  /** parse_line after the name: '=', the value, and nothing else; what lies before stays as it is. */
  method ParseValue(buf: array<char>, line0: nat, ghost s: string, ghost name: string)
    returns (value: Option<nat>, ghost text: string)
    requires Rest(buf[..], s, line0) && !AfterName(s, Found(name, line0)).OutOfBounds?
    modifies buf
    ensures SameBelow(buf[..], old(buf[..]), line0)
    ensures if value.None? then !AfterName(s, Found(name, line0)).Assign?
            else StringAt(buf[..], value.value, text) && AfterName(s, Found(name, line0)) == Assign(name, text)
                 && line0 < |s|
  {
    text := "";
    var line := SkipWhiteIn(buf, line0, s);
    var ok;
    ok, line := Consume('=', buf, line, s);
    if !ok {
      return None, text;
    }
    line := SkipWhiteIn(buf, line, s);
    ghost var m := line;
    value, line := TokenIn(buf, line, s);
    if value.None? {
      return None, text;
    }
    line := SkipWhiteIn(buf, line, s);
    var remains := LineEnd(buf, line, s);
    if remains.Some? {
      return None, text;
    }
    text := TokenAt(s, m).value;
  }

  lemma StringStays(a: seq<char>, b: seq<char>, n: nat, p: nat, v: string)
    requires StringAt(a, p, v) && SameBelow(b, a, n) && p + |v| < n
    ensures StringAt(b, p, v)
  {}

  /** parse_line: name and value are read from the buffer only after the whole line has been cut up. */
  method ParseLine(conf: FusgConf, buf: array<char>, ghost s: string) returns (rc: int)
    requires Rest(buf[..], s, 0) && !Parse(s).OutOfBounds?
    modifies conf, buf
    ensures var r := Apply(old(conf.Value()), s);
            if r.Some? then rc == 0 && conf.Value() == r.value else rc == -1 && conf.Value() == old(conf.Value())
  {
    var line := SkipWhiteIn(buf, 0, s);
    if buf[line] == '\0' || buf[line] == '#' {
      return 0;
    }
    ghost var scanned := TokenAt(s, line);
    var name;
    name, line := TokenIn(buf, line, s);
    if name.None? {
      return -1;
    }
    ghost var nameText, cut := if scanned.Found? then scanned.value else "", buf[..];
    var value;
    ghost var text;
    value, text := ParseValue(buf, line, s, nameText);
    if value.None? {
      return -1;
    }
    StringStays(cut, buf[..], line, name.value, nameText);
    var n := CStringAt(buf, name.value, nameText);
    var v := CStringAt(buf, value.value, text);
    rc := conf.Property(n, v);
  }

  // ---------------------------------------------------------------- the file

  /** Where fgets stops: after a newline, at the end of the file, or when the buffer is full. */
  function ChunkEnd(content: string, pos: nat, room: nat): (e: nat)
    requires pos <= |content|
    ensures pos <= e <= |content| && e <= pos + room
    ensures pos < |content| && room > 0 ==> e > pos
    decreases room
  {
    if pos == |content| || room == 0 then pos
    else if content[pos] == '\n' then pos + 1
    else ChunkEnd(content, pos + 1, room - 1)
  }

  /** The pieces in which fgets delivers a file. */
  function Chunks(content: string, pos: nat): seq<string>
    requires pos <= |content|
    decreases |content| - pos
  {
    if pos == |content| then []
    else
      var e := ChunkEnd(content, pos, BUFSIZE - 1);
      [content[pos..e]] + Chunks(content, e)
  }

  /** All lines in turn; the first one that is refused ends it. */
  function ReadLines(c: Settings, lines: seq<string>): (int, Settings)
    decreases |lines|
  {
    if lines == [] then (ERR_NONE, c)
    else if Apply(c, lines[0]).None? then (ERR_CONF, c)
    else ReadLines(Apply(c, lines[0]).value, lines[1..])
  }

  ghost predicate Readable(lines: seq<string>) {
    forall i | 0 <= i < |lines| :: !Parse(lines[i]).OutOfBounds?
  }

  /** fgets */
  method FGets(buf: array<char>, content: string, pos: nat) returns (e: nat)
    requires pos <= |content| && '\0' !in content && buf.Length == BUFSIZE
    modifies buf
    ensures e == ChunkEnd(content, pos, BUFSIZE - 1)
    ensures pos < |content| ==> Rest(buf[..], content[pos..e], 0)
  {
    e := pos;
    while e < |content| && e - pos < BUFSIZE - 1 && (e == pos || content[e - 1] != '\n')
      invariant pos <= e <= |content| && e - pos <= BUFSIZE - 1
      invariant ChunkEnd(content, pos, BUFSIZE - 1) ==
        if e > pos && content[e - 1] == '\n' then e else ChunkEnd(content, e, BUFSIZE - 1 - (e - pos))
      invariant forall k | pos <= k < e :: buf[k - pos] == content[k]
    {
      buf[e - pos] := content[e];
      e := e + 1;
    }
    buf[e - pos] := '\0';
  }

  /** fusg_conf_read; None is a file that cannot be opened. */
  method FusgConfRead(conf: FusgConf, content: Option<string>) returns (rc: int)
    requires content.Some? ==> '\0' !in content.value && Readable(Chunks(content.value, 0))
    modifies conf
    ensures (rc, conf.Value()) == if content.None? then (ERR_CONF, DEFAULTS)
                                  else ReadLines(DEFAULTS, Chunks(content.value, 0))
  {
    conf.Init();
    if content.None? {
      return ERR_CONF;
    }
    var text := content.value;
    var buf := new char[BUFSIZE];
    var pos := 0;
    rc := ERR_NONE;
    while pos < |text|
      invariant pos <= |text| && rc == ERR_NONE && fresh(buf) && Readable(Chunks(text, pos))
      invariant ReadLines(DEFAULTS, Chunks(text, 0)) == ReadLines(conf.Value(), Chunks(text, pos))
      decreases |text| - pos
    {
      var e := FGets(buf, text, pos);
      ghost var chunk := text[pos..e];
      assert Chunks(text, pos) == [chunk] + Chunks(text, e);
      assert Chunks(text, pos)[0] == chunk && Chunks(text, pos)[1..] == Chunks(text, e);
      var failed := ParseLine(conf, buf, chunk);
      if failed != 0 {
        return ERR_CONF;
      }
      assert forall i | 0 <= i < |Chunks(text, e)| :: Chunks(text, e)[i] == Chunks(text, pos)[i + 1];
      pos := e;
    }
  }
}
