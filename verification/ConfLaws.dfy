/** What reading a configuration file comes to. */
module ConfLaws {
  import opened Conf
  import opened ConfGrammar
  import opened Limits
  import opened Wrappers

  predicate Known(name: string) {
    name == "db_path" || name == "fusgd_log" || name == "fusgd_trace"
  }

  function Get(c: Settings, name: string): string {
    if name == "db_path" then c.dbPath
    else if name == "fusgd_log" then c.fusgdLog
    else c.fusgdTrace
  }

  /** A line is accepted exactly if it is blank, or a setting of the grammar for a known name. */
  lemma AcceptedIffGrammar(c: Settings, s: string)
    ensures Apply(c, s).Some? <==>
      BlankLine(s) || exists st: Setting :: SettingOk(st) && st.Text() == s && Known(st.name.Value())
  {
    BlankIffBlankLine(s);
    if Apply(c, s).Some? && Parse(s).Assign? {
      var st := ParsedBySetting(s);
    }
    if exists st: Setting :: SettingOk(st) && st.Text() == s && Known(st.name.Value()) {
      var st: Setting :| SettingOk(st) && st.Text() == s && Known(st.name.Value());
      GrammarParses(st);
    }
  }

  // ------------------------------------------------------ the last setting wins

  /** What a property was last set to. */
  function LastSet(lines: seq<string>, name: string): Option<string> {
    if lines == [] then None
    else
      var last := Parse(lines[|lines| - 1]);
      if last.Assign? && last.name == name then Some(Fitted(last.value, PATH_MAX))
      else LastSet(lines[..|lines| - 1], name)
  }

  predicate AllAccepted(lines: seq<string>) {
    forall i | 0 <= i < |lines| :: Apply(DEFAULTS, lines[i]).Some?
  }

  lemma AcceptedAnyway(c: Settings, s: string)
    ensures Apply(c, s).Some? <==> Apply(DEFAULTS, s).Some?
  {}

  lemma {:induction false} ReadSnoc(c: Settings, lines: seq<string>, last: string)
    ensures ReadLines(c, lines + [last]) ==
      var r := ReadLines(c, lines);
      if r.0 != ERR_NONE then r
      else if Apply(r.1, last).None? then (ERR_CONF, r.1)
      else (ERR_NONE, Apply(r.1, last).value)
    decreases |lines|
  {
    var more := lines + [last];
    if lines == [] {
      assert more[1..] == [];
    } else {
      assert more[0] == lines[0] && more[1..] == lines[1..] + [last];
      if Apply(c, lines[0]).Some? {
        ReadSnoc(Apply(c, lines[0]).value, lines[1..], last);
      }
    }
  }

  lemma ApplyGet(c: Settings, s: string, name: string)
    requires Known(name) && Apply(c, s).Some?
    ensures Get(Apply(c, s).value, name) ==
      if Parse(s).Assign? && Parse(s).name == name then Fitted(Parse(s).value, PATH_MAX) else Get(c, name)
  {}

  /** The first line that is refused ends the reading, with the settings made before it. */
  lemma {:induction false} RefusedEnds(c: Settings, lines: seq<string>, k: nat)
    requires k < |lines| && AllAccepted(lines[..k]) && Apply(DEFAULTS, lines[k]).None?
    ensures ReadLines(c, lines) == (ERR_CONF, ReadLines(c, lines[..k]).1)
    decreases k
  {
    AcceptedAnyway(c, lines[0]);
    if k > 0 {
      assert lines[..k][0] == lines[0] && lines[1..][..k - 1] == lines[..k][1..];
      RefusedEnds(Apply(c, lines[0]).value, lines[1..], k - 1);
    }
  }

  /** A file is read without error exactly if every line is accepted; then the last setting of a property wins. */
  lemma {:induction false} LastSettingWins(c: Settings, lines: seq<string>)
    ensures ReadLines(c, lines).0 == ERR_NONE <==> AllAccepted(lines)
    ensures AllAccepted(lines) ==> forall name | Known(name) ::
      Get(ReadLines(c, lines).1, name) ==
      if LastSet(lines, name).Some? then LastSet(lines, name).value else Get(c, name)
    decreases |lines|
  {
    if lines != [] {
      var n := |lines| - 1;
      var before, last := lines[..n], lines[n];
      assert lines == before + [last];
      LastSettingWins(c, before);
      ReadSnoc(c, before, last);
      var r := ReadLines(c, before);
      AcceptedAnyway(r.1, last);
      if AllAccepted(lines) {
        forall name | Known(name)
          ensures Get(ReadLines(c, lines).1, name) ==
            if LastSet(lines, name).Some? then LastSet(lines, name).value else Get(c, name)
        {
          ApplyGet(r.1, last, name);
        }
      }
    }
  }

  // ---------------------------------------------------------------- round trip

  /** A line that prints the value of some property of c, quoted. */
  ghost predicate Prints(c: Settings, s: string, st: Setting) {
    && SettingOk(st) && st.Text() == s && Known(st.name.Value())
    && st.value.Quoted? && st.value.body == Get(c, st.name.Value())
  }

  ghost predicate PrintedOrBlank(c: Settings, s: string) {
    BlankLine(s) || exists st :: Prints(c, s, st)
  }

  /** Some line prints the property. */
  ghost predicate PrintedIn(c: Settings, lines: seq<string>, name: string) {
    exists i, st :: 0 <= i < |lines| && Prints(c, lines[i], st) && st.name.Value() == name
  }

  predicate Short(c: Settings) {
    |c.dbPath| < PATH_MAX && |c.fusgdLog| < PATH_MAX && |c.fusgdTrace| < PATH_MAX
  }

  lemma PrintsParses(c: Settings, s: string, st: Setting)
    requires Prints(c, s, st)
    ensures Parse(s) == Assign(st.name.Value(), Get(c, st.name.Value()))
  {
    GrammarParses(st);
  }

  lemma PrintedParses(c: Settings, s: string)
    requires PrintedOrBlank(c, s) && Short(c)
    ensures Parse(s).Blank? || (Parse(s).Assign? && Known(Parse(s).name) && Parse(s).value == Get(c, Parse(s).name))
    ensures Apply(DEFAULTS, s).Some?
  {
    BlankIffBlankLine(s);
    if !BlankLine(s) {
      var st :| Prints(c, s, st);
      PrintsParses(c, s, st);
    }
  }

  ghost predicate AllPrintedOrBlank(c: Settings, lines: seq<string>) {
    forall i | 0 <= i < |lines| :: PrintedOrBlank(c, lines[i])
  }

  lemma {:induction false} LastSetPrinted(c: Settings, lines: seq<string>, name: string)
    requires Short(c) && Known(name) && AllPrintedOrBlank(c, lines)
    ensures LastSet(lines, name).Some? ==> LastSet(lines, name).value == Get(c, name)
  {
    if lines != [] {
      var n := |lines| - 1;
      LastSetPrinted(c, lines[..n], name);
      assert PrintedOrBlank(c, lines[n]);
      PrintedParses(c, lines[n]);
    }
  }

  lemma {:induction false} SetSomewhere(lines: seq<string>, i: nat, name: string, value: string)
    requires i < |lines| && Parse(lines[i]) == Assign(name, value)
    ensures LastSet(lines, name).Some?
  {
    var n := |lines| - 1;
    if i < n {
      SetSomewhere(lines[..n], i, name, value);
    }
  }

  lemma LastPrinted(c: Settings, lines: seq<string>, name: string)
    requires Short(c) && Known(name) && AllPrintedOrBlank(c, lines) && PrintedIn(c, lines, name)
    ensures LastSet(lines, name) == Some(Get(c, name))
  {
    LastSetPrinted(c, lines, name);
    var i, st :| 0 <= i < |lines| && Prints(c, lines[i], st) && st.name.Value() == name;
    PrintsParses(c, lines[i], st);
    SetSomewhere(lines, i, name, Get(c, name));
  }

  /**
   Round trip: a file whose lines print every property of c at least once, each value in
   either kind of quotes, with any white space and comments around and between, is read
   back as c.
   */
  lemma ReadsBack(c: Settings, lines: seq<string>)
    requires Short(c) && AllPrintedOrBlank(c, lines)
    requires PrintedIn(c, lines, "db_path") && PrintedIn(c, lines, "fusgd_log") && PrintedIn(c, lines, "fusgd_trace")
    ensures ReadLines(DEFAULTS, lines) == (ERR_NONE, c) && Readable(lines)
  {
    forall i | 0 <= i < |lines|
      ensures Apply(DEFAULTS, lines[i]).Some? && !Parse(lines[i]).OutOfBounds?
    {
      PrintedParses(c, lines[i]);
    }
    LastSettingWins(DEFAULTS, lines);
    LastPrinted(c, lines, "db_path");
    LastPrinted(c, lines, "fusgd_log");
    LastPrinted(c, lines, "fusgd_trace");
    var r := ReadLines(DEFAULTS, lines).1;
    assert Get(r, "db_path") == c.dbPath && Get(r, "fusgd_log") == c.fusgdLog && Get(r, "fusgd_trace") == c.fusgdTrace;
  }

  // ------------------------------------------------- lines of a file and fgets

  /** A line as fgets delivers it whole: one newline, at its end, and it fits the buffer. */
  predicate WholeLine(s: string) {
    && 0 < |s| < BUFSIZE && s[|s| - 1] == '\n'
    && forall i | 0 <= i < |s| - 1 :: s[i] != '\n'
  }

  function Joined(lines: seq<string>): string {
    if lines == [] then "" else lines[0] + Joined(lines[1..])
  }

  lemma {:induction false} ChunkIsLine(content: string, pos: nat, line: string, k: nat, room: nat)
    requires WholeLine(line) && TextAt(content, pos, line) && k < |line| && room + k >= |line|
    ensures ChunkEnd(content, pos + k, room) == pos + |line|
    decreases |line| - k
  {
    assert content[pos + k] == line[k];
    if k < |line| - 1 {
      ChunkIsLine(content, pos, line, k + 1, room - 1);
    }
  }

  lemma {:induction false} ChunksOfLines(before: string, lines: seq<string>)
    requires forall i | 0 <= i < |lines| :: WholeLine(lines[i])
    ensures Chunks(before + Joined(lines), |before|) == lines
    decreases |lines|
  {
    var content := before + Joined(lines);
    if lines != [] {
      var line := lines[0];
      assert content == before + (line + Joined(lines[1..]));
      Along(content, before, |before|, line, Joined(lines[1..]));
      ChunkIsLine(content, |before|, line, 0, BUFSIZE - 1);
      TextAtSlice(content, |before|, line);
      ChunksOfLines(before + line, lines[1..]);
    }
  }

  /** fgets gives back the lines of a file one by one. */
  lemma ChunksAreLines(lines: seq<string>)
    requires forall i | 0 <= i < |lines| :: WholeLine(lines[i])
    ensures Chunks(Joined(lines), 0) == lines
  {
    ChunksOfLines("", lines);
    assert "" + Joined(lines) == Joined(lines);
  }

  // ------------------------------------------------------------ a plain printer

  /** name = "value" */
  function PrintLine(name: string, value: string): string {
    name + " = \"" + value + "\"\n"
  }

  function Print(c: Settings): seq<string> {
    [PrintLine("fusgd_log", c.fusgdLog), PrintLine("fusgd_trace", c.fusgdTrace), PrintLine("db_path", c.dbPath)]
  }

  /** Every double quote is escaped, no backslash dangles, and the line stays one line. */
  predicate Printable(value: string) {
    && BodyOk(value, '"') && '\0' !in value && |value| < BUFSIZE - 20
    && forall i | 0 <= i < |value| :: value[i] != '\n'
  }

  function PrintSetting(name: string, value: string): Setting {
    Setting("", Bare(name), " ", " ", Quoted('"', value), "\n", "")
  }

  lemma PrintedText(name: string, value: string)
    ensures PrintSetting(name, value).Text() == PrintLine(name, value)
  {
    var quoted := "\"" + value + "\"";
    assert PrintSetting(name, value).Text() == name + " " + "=" + " " + quoted + "\n";
    assert name + " " + "=" + " " == name + " = ";
  }

  lemma PrintedWhole(name: string, value: string)
    requires Known(name) && Printable(value)
    ensures WholeLine(PrintLine(name, value))
  {
    var a := name + " = \"";
    assert forall i | 0 <= i < |a| :: a[i] != '\n';
    assert PrintLine(name, value) == a + value + "\"\n";
  }

  lemma PrintedLine(c: Settings, name: string)
    requires Known(name) && Printable(Get(c, name))
    ensures Prints(c, PrintLine(name, Get(c, name)), PrintSetting(name, Get(c, name)))
    ensures WholeLine(PrintLine(name, Get(c, name)))
  {
    PrintedText(name, Get(c, name));
    PrintedWhole(name, Get(c, name));
  }

  lemma PrintedAt(c: Settings, lines: seq<string>, i: nat, name: string)
    requires i < |lines| && Known(name) && Printable(Get(c, name)) && lines[i] == PrintLine(name, Get(c, name))
    ensures PrintedIn(c, lines, name) && PrintedOrBlank(c, lines[i]) && WholeLine(lines[i])
  {
    PrintedLine(c, name);
    var st := PrintSetting(name, Get(c, name));
    assert Prints(c, lines[i], st) && st.name.Value() == name;
  }

  function PropertyAt(i: nat): string {
    if i == 0 then "fusgd_log" else if i == 1 then "fusgd_trace" else "db_path"
  }

  lemma PrintedFile(c: Settings, lines: seq<string>)
    requires Printable(c.fusgdLog) && Printable(c.fusgdTrace) && Printable(c.dbPath)
    requires |lines| == 3 && forall i: nat | i < 3 :: lines[i] == PrintLine(PropertyAt(i), Get(c, PropertyAt(i)))
    ensures AllPrintedOrBlank(c, lines) && forall i | 0 <= i < |lines| :: WholeLine(lines[i])
    ensures forall i: nat | i < 3 :: PrintedIn(c, lines, PropertyAt(i))
  {
    forall i: nat | i < 3
      ensures PrintedIn(c, lines, PropertyAt(i)) && PrintedOrBlank(c, lines[i]) && WholeLine(lines[i])
    {
      PrintedAt(c, lines, i, PropertyAt(i));
    }
  }

  /** Printing a configuration and reading it back yields the same configuration. */
  lemma PrintRoundTrip(c: Settings)
    requires Printable(c.fusgdLog) && Printable(c.fusgdTrace) && Printable(c.dbPath)
    ensures ReadLines(DEFAULTS, Chunks(Joined(Print(c)), 0)) == (ERR_NONE, c)
  {
    var lines := Print(c);
    PrintedFile(c, lines);
    assert PropertyAt(0) == "fusgd_log" && PropertyAt(1) == "fusgd_trace" && PropertyAt(2) == "db_path";
    ReadsBack(c, lines);
    ChunksAreLines(lines);
  }
}
