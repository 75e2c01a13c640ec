/** The language of configuration lines, as a grammar and as a parser on plain text. */
module ConfGrammar {

  /** isspace in the C locale */
  predicate IsSpace(c: char) {
    c == ' ' || c == '\t' || c == '\n' || c == '\U{0b}' || c == '\U{0c}' || c == '\r'
  }

  predicate Spaces(s: string) {
    forall i | 0 <= i < |s| :: IsSpace(s[i])
  }

  predicate NoSpaces(s: string) {
    forall i | 0 <= i < |s| :: !IsSpace(s[i])
  }

  predicate IsQuote(c: char) {
    c == '"' || c == '\''
  }

  // ---------------------------------------------------------------- grammar

  datatype Token = Bare(text: string) | Quoted(del: char, body: string) {
    function Text(): string {
      if Bare? then text else [del] + body + [del]
    }

    /** Escapes are kept as they are written. */
    function Value(): string {
      if Bare? then text else body
    }
  }

  /** Between delimiters: plain characters, and a backslash with any character after it. */
  predicate BodyOk(body: string, del: char) {
    if body == "" then true
    else if body[0] == '\\' then |body| >= 2 && BodyOk(body[2..], del)
    else body[0] != del && BodyOk(body[1..], del)
  }

  predicate TokenOk(t: Token) {
    match t
    case Bare(text) => text != "" && NoSpaces(text) && !IsQuote(text[0])
    case Quoted(del, body) => IsQuote(del) && BodyOk(body, del)
  }

  /** lead name gap1 = gap2 value gap3 tail */
  datatype Setting = Setting(lead: string, name: Token, gap1: string, gap2: string,
                             value: Token, gap3: string, tail: string) {
    function AfterName(): string {
      gap1 + ("=" + (gap2 + (value.Text() + (gap3 + tail))))
    }

    function Text(): string {
      lead + (name.Text() + AfterName())
    }
  }

  predicate SettingOk(st: Setting) {
    && Spaces(st.lead) && Spaces(st.gap1) && Spaces(st.gap2) && Spaces(st.gap3)
    && TokenOk(st.name) && st.name.Text()[0] != '#'
    && (st.name.Bare? ==> st.gap1 != "")
    && TokenOk(st.value)
    && (st.value.Bare? ==> st.gap3 != "" || st.tail == "")
    && (st.tail != "" ==> st.tail[0] == '#')
  }

  /** Nothing but white space, or white space and a comment. */
  ghost predicate BlankLine(s: string) {
    exists lead, tail :: s == lead + tail && Spaces(lead) && (tail != "" ==> tail[0] == '#')
  }

  // ----------------------------------------------------------------- parser

  function SkipWhite(s: string, i: nat): (j: nat)
    requires i <= |s|
    ensures i <= j <= |s| && (j < |s| ==> !IsSpace(s[j]))
    decreases |s| - i
  {
    if i < |s| && IsSpace(s[i]) then SkipWhite(s, i + 1) else i
  }

  function WordEnd(s: string, i: nat): (j: nat)
    requires i <= |s|
    ensures i <= j <= |s| && (j < |s| ==> IsSpace(s[j]))
    decreases |s| - i
  {
    if i < |s| && !IsSpace(s[i]) then WordEnd(s, i + 1) else i
  }

  /** Where the closing delimiter is; |s| if there is none; |s| + 1 if a backslash escapes the end of the text. */
  function QuoteEnd(s: string, i: nat, del: char): (j: nat)
    requires i <= |s| + 1
    ensures i <= j <= |s| + 1 && (j < |s| ==> s[j] == del)
    decreases |s| + 1 - i
  {
    if i >= |s| || s[i] == del then i
    else if s[i] == '\\' then QuoteEnd(s, i + 2, del)
    else QuoteEnd(s, i + 1, del)
  }

  datatype Scanned =
    | Found(value: string, next: nat)
    | Nothing
    | Unterminated
    | Overrun

  function TokenAt(s: string, i: nat): (r: Scanned)
    requires i <= |s|
    ensures r.Found? ==> i < r.next <= |s|
  {
    if i < |s| && IsQuote(s[i]) then
      var q := QuoteEnd(s, i + 1, s[i]);
      if q > |s| then Overrun
      else if q == |s| then Unterminated
      else Found(s[i + 1..q], q + 1)
    else
      var e := WordEnd(s, i);
      if e == i then Nothing
      else Found(s[i..e], if e < |s| then e + 1 else e)
  }

  /** OutOfBounds: the scan of a quoted token would run past the end of the text. */
  datatype Parsed = Blank | Malformed | OutOfBounds | Assign(name: string, value: string)

  function Parse(s: string): Parsed {
    var i := SkipWhite(s, 0);
    if i == |s| || s[i] == '#' then Blank else AfterName(s, TokenAt(s, i))
  }

  predicate Within(r: Scanned, s: string) {
    r.Found? ==> r.next <= |s|
  }

  function AfterName(s: string, name: Scanned): Parsed
    requires Within(name, s)
  {
    match name
    case Overrun => OutOfBounds
    case Found(n, j) =>
      var k := SkipWhite(s, j);
      if k == |s| || s[k] != '=' then Malformed else AfterValue(s, n, TokenAt(s, SkipWhite(s, k + 1)))
    case _ => Malformed
  }

  function AfterValue(s: string, name: string, value: Scanned): Parsed
    requires Within(value, s)
  {
    match value
    case Overrun => OutOfBounds
    case Found(v, j) =>
      var e := SkipWhite(s, j);
      if e < |s| && s[e] != '#' then Malformed else Assign(name, v)
    case _ => Malformed
  }

  // -------------------------------------------- the parser follows the grammar

  ghost predicate TextAt(s: string, i: nat, t: string) {
    i + |t| <= |s| && forall k | 0 <= k < |t| :: s[i + k] == t[k]
  }

  lemma TextAtSplit(s: string, i: nat, a: string, b: string)
    requires TextAt(s, i, a + b)
    ensures TextAt(s, i, a) && TextAt(s, i + |a|, b)
  {
    assert forall k | 0 <= k < |a| :: s[i + k] == (a + b)[k] == a[k];
    assert forall k | 0 <= k < |b| :: s[i + |a| + k] == s[i + (|a| + k)] == (a + b)[|a| + k] == b[k];
  }

  lemma TextAtSlice(s: string, i: nat, t: string)
    requires TextAt(s, i, t)
    ensures s[i..i + |t|] == t
  {}

  lemma TextAtThree(s: string, i: nat, a: string, b: string, c: string)
    requires TextAt(s, i, a + (b + c))
    ensures TextAt(s, i, a) && TextAt(s, i + |a|, b) && TextAt(s, i + |a| + |b|, c)
  {
    TextAtSplit(s, i, a, b + c);
    TextAtSplit(s, i + |a|, b, c);
  }

  /** From anywhere in a gap, white space is skipped up to its end. */
  lemma {:induction false} SkipsGap(s: string, i: nat, gap: string, from: nat)
    requires TextAt(s, i, gap) && Spaces(gap) && i <= from <= i + |gap|
    requires i + |gap| < |s| ==> !IsSpace(s[i + |gap|])
    ensures SkipWhite(s, from) == i + |gap|
    decreases i + |gap| - from
  {
    if from < i + |gap| {
      assert s[i + (from - i)] == gap[from - i];
      SkipsGap(s, i, gap, from + 1);
    }
  }

  lemma {:induction false} WordEnds(s: string, i: nat, text: string, from: nat)
    requires TextAt(s, i, text) && NoSpaces(text) && i <= from <= i + |text|
    requires i + |text| < |s| ==> IsSpace(s[i + |text|])
    ensures WordEnd(s, from) == i + |text|
    decreases i + |text| - from
  {
    if from < i + |text| {
      assert s[i + (from - i)] == text[from - i];
      WordEnds(s, i, text, from + 1);
    }
  }

  lemma {:induction false} QuoteEnds(s: string, i: nat, body: string, del: char)
    requires TextAt(s, i, body) && BodyOk(body, del) && del != '\\'
    requires i + |body| < |s| && s[i + |body|] == del
    ensures QuoteEnd(s, i, del) == i + |body|
    decreases |body|
  {
    if body != "" {
      assert s[i + 0] == body[0];
      var n := if body[0] == '\\' then 2 else 1;
      assert body == body[..n] + body[n..];
      TextAtSplit(s, i, body[..n], body[n..]);
      QuoteEnds(s, i + n, body[n..], del);
    }
  }

  /** A token of the grammar is scanned as a whole; a bare one also takes the space behind it. */
  lemma TokenScanned(s: string, i: nat, t: Token)
    requires TokenOk(t) && TextAt(s, i, t.Text())
    requires t.Bare? && i + |t.Text()| < |s| ==> IsSpace(s[i + |t.Text()|])
    ensures var end := i + |t.Text()|;
            TokenAt(s, i) == Found(t.Value(), if t.Bare? && end < |s| then end + 1 else end)
  {
    assert s[i + 0] == t.Text()[0];
    match t {
      case Bare(text) =>
        WordEnds(s, i, text, i);
        TextAtSlice(s, i, text);
      case Quoted(del, body) =>
        TextAtQuoted(s, i, del, body);
        QuoteEnds(s, i + 1, body, del);
        TextAtSlice(s, i + 1, body);
    }
  }

  lemma TextAtQuoted(s: string, i: nat, del: char, body: string)
    requires TextAt(s, i, Quoted(del, body).Text())
    ensures TextAt(s, i + 1, body) && s[i] == del && s[i + 1 + |body|] == del
  {
    assert Quoted(del, body).Text() == [del] + (body + [del]);
    TextAtThree(s, i, [del], body, [del]);
    assert s[i + 0] == [del][0] && s[i + 1 + |body| + 0] == [del][0];
  }

  /** A token at i, white space behind it up to e. */
  ghost predicate TokenWithGap(s: string, i: nat, t: Token, gap: string, e: nat) {
    && TokenOk(t) && TextAt(s, i, t.Text())
    && TextAt(s, i + |t.Text()|, gap) && Spaces(gap) && e == i + |t.Text()| + |gap|
    && (e < |s| ==> !IsSpace(s[e]) && (t.Bare? ==> gap != ""))
  }

  lemma TokenAndGap(s: string, i: nat, t: Token, gap: string, e: nat)
    requires TokenWithGap(s, i, t, gap, e)
    ensures TokenAt(s, i).Found? && TokenAt(s, i).value == t.Value()
    ensures SkipWhite(s, TokenAt(s, i).next) == e
  {
    var end := i + |t.Text()|;
    if gap != "" {
      assert s[end + 0] == gap[0];
    }
    TokenScanned(s, i, t);
    SkipsGap(s, end, gap, TokenAt(s, i).next);
  }

  lemma TokenStarts(s: string, i: nat, t: Token)
    requires TokenOk(t) && TextAt(s, i, t.Text())
    ensures i < |s| && !IsSpace(s[i]) && s[i] == t.Text()[0]
  {
    assert s[i + 0] == t.Text()[0];
  }

  lemma AfterValueIs(s: string, name: string, value: Scanned, e: nat)
    requires Within(value, s) && value.Found? && SkipWhite(s, value.next) == e
    requires e < |s| ==> s[e] == '#'
    ensures AfterValue(s, name, value) == Assign(name, value.value)
  {}

  lemma AfterNameIs(s: string, name: Scanned, k: nat, m: nat)
    requires Within(name, s) && name.Found? && SkipWhite(s, name.next) == k < |s| && s[k] == '='
    requires SkipWhite(s, k + 1) == m
    ensures AfterName(s, name) == AfterValue(s, name.value, TokenAt(s, m))
  {}

  /** Where the parts of a setting are in its text. */
  ghost predicate PartsAt(s: string, st: Setting, i: nat, k: nat, m: nat, e: nat) {
    && TextAt(s, 0, st.lead) && i == |st.lead|
    && TextAt(s, i, st.name.Text()) && TextAt(s, i + |st.name.Text()|, st.gap1)
    && k == i + |st.name.Text()| + |st.gap1| && TextAt(s, k, "=")
    && TextAt(s, k + 1, st.gap2) && m == k + 1 + |st.gap2|
    && TextAt(s, m, st.value.Text()) && TextAt(s, m + |st.value.Text()|, st.gap3)
    && e == m + |st.value.Text()| + |st.gap3| && TextAt(s, e, st.tail) && |s| == e + |st.tail|
  }

  /** One part further along a text. */
  lemma Along(s: string, before: string, i: nat, t: string, rest: string)
    requires s == before + (t + rest) && i == |before|
    ensures TextAt(s, i, t) && s == (before + t) + rest
  {
    assert forall k | 0 <= k < |t| :: (before + (t + rest))[|before| + k] == (t + rest)[k] == t[k];
  }

  lemma RestParts(s: string, a: string, k: nat, gap2: string, m: nat, value: string, gap3: string, e: nat, tail: string)
    requires s == a + ("=" + (gap2 + (value + (gap3 + tail))))
    requires k == |a| && m == k + 1 + |gap2| && e == m + |value| + |gap3|
    ensures TextAt(s, k, "=") && TextAt(s, k + 1, gap2) && TextAt(s, m, value)
    ensures TextAt(s, m + |value|, gap3) && TextAt(s, e, tail) && |s| == e + |tail|
  {
    Along(s, a, k, "=", gap2 + (value + (gap3 + tail)));
    Along(s, a + "=", k + 1, gap2, value + (gap3 + tail));
    Along(s, a + "=" + gap2, m, value, gap3 + tail);
    Along(s, a + "=" + gap2 + value, m + |value|, gap3, tail);
    assert s == (a + "=" + gap2 + value + gap3) + (tail + "");
    Along(s, a + "=" + gap2 + value + gap3, e, tail, "");
  }

  lemma FirstParts(s: string, lead: string, i: nat, name: string, j: nat, gap1: string, rest: string)
    requires s == lead + (name + (gap1 + rest)) && i == |lead| && j == i + |name|
    ensures TextAt(s, 0, lead) && TextAt(s, i, name) && TextAt(s, j, gap1)
    ensures s == (lead + name + gap1) + rest
  {
    assert forall k | 0 <= k < |lead| :: s[0 + k] == lead[k];
    Along(s, lead, i, name, gap1 + rest);
    Along(s, lead + name, j, gap1, rest);
  }

  lemma SettingParts(st: Setting) returns (i: nat, k: nat, m: nat, e: nat)
    ensures PartsAt(st.Text(), st, i, k, m, e)
  {
    i := |st.lead|;
    k := i + |st.name.Text()| + |st.gap1|;
    m := k + 1 + |st.gap2|;
    e := m + |st.value.Text()| + |st.gap3|;
    FirstParts(st.Text(), st.lead, i, st.name.Text(), i + |st.name.Text()|, st.gap1,
               "=" + (st.gap2 + (st.value.Text() + (st.gap3 + st.tail))));
    RestParts(st.Text(), st.lead + st.name.Text() + st.gap1, k, st.gap2, m, st.value.Text(), st.gap3, e, st.tail);
  }

  lemma ValuePartParses(s: string, st: Setting, i: nat, k: nat, m: nat, e: nat)
    requires SettingOk(st) && PartsAt(s, st, i, k, m, e)
    ensures SkipWhite(s, k + 1) == m
    ensures Within(TokenAt(s, m), s)
    ensures AfterValue(s, st.name.Value(), TokenAt(s, m)) == Assign(st.name.Value(), st.value.Value())
  {
    if st.tail != "" {
      assert s[e + 0] == st.tail[0];
    }
    TokenStarts(s, m, st.value);
    SkipsGap(s, k + 1, st.gap2, k + 1);
    TokenAndGap(s, m, st.value, st.gap3, e);
    AfterValueIs(s, st.name.Value(), TokenAt(s, m), e);
  }

  lemma PartsParse(s: string, st: Setting, i: nat, k: nat, m: nat, e: nat)
    requires SettingOk(st) && PartsAt(s, st, i, k, m, e)
    ensures Parse(s) == Assign(st.name.Value(), st.value.Value())
  {
    assert s[k + 0] == "="[0];
    TokenStarts(s, i, st.name);
    SkipsGap(s, 0, st.lead, 0);
    TokenAndGap(s, i, st.name, st.gap1, k);
    ValuePartParses(s, st, i, k, m, e);
    AfterNameIs(s, TokenAt(s, i), k, m);
  }

  /** Every line of the grammar is read as the setting it spells. */
  lemma GrammarParses(st: Setting)
    requires SettingOk(st)
    ensures Parse(st.Text()) == Assign(st.name.Value(), st.value.Value())
  {
    var i, k, m, e := SettingParts(st);
    PartsParse(st.Text(), st, i, k, m, e);
  }

  // -------------------------------------------- the grammar covers the parser

  lemma {:induction false} SkippedIsSpace(s: string, i: nat)
    requires i <= |s|
    ensures Spaces(s[i..SkipWhite(s, i)])
    decreases |s| - i
  {
    if i < |s| && IsSpace(s[i]) {
      SkippedIsSpace(s, i + 1);
      assert s[i..SkipWhite(s, i)] == [s[i]] + s[i + 1..SkipWhite(s, i)];
    }
  }

  lemma {:induction false} WordHasNoSpace(s: string, i: nat)
    requires i <= |s|
    ensures NoSpaces(s[i..WordEnd(s, i)])
    decreases |s| - i
  {
    if i < |s| && !IsSpace(s[i]) {
      WordHasNoSpace(s, i + 1);
      assert s[i..WordEnd(s, i)] == [s[i]] + s[i + 1..WordEnd(s, i)];
    }
  }

  lemma {:induction false} QuotedBody(s: string, i: nat, del: char)
    requires i <= |s| && QuoteEnd(s, i, del) < |s|
    ensures BodyOk(s[i..QuoteEnd(s, i, del)], del)
    decreases |s| - i
  {
    var q := QuoteEnd(s, i, del);
    var body := s[i..q];
    if s[i] != del {
      if s[i] == '\\' {
        QuotedBody(s, i + 2, del);
        assert body[2..] == s[i + 2..q];
      } else {
        QuotedBody(s, i + 1, del);
        assert body[1..] == s[i + 1..q];
      }
    }
  }

  /** The token that was scanned, with the text it was scanned from. */
  lemma TokenOf(s: string, i: nat) returns (t: Token)
    requires i <= |s| && TokenAt(s, i).Found?
    ensures TokenOk(t) && t.Value() == TokenAt(s, i).value && t.Text() != "" && TextAt(s, i, t.Text())
    ensures t.Text()[0] == s[i]
    ensures var end := i + |t.Text()|;
            && TokenAt(s, i).next == (if t.Bare? && end < |s| then end + 1 else end)
            && (t.Bare? && end < |s| ==> IsSpace(s[end]))
  {
    if IsQuote(s[i]) {
      var q := QuoteEnd(s, i + 1, s[i]);
      QuotedBody(s, i + 1, s[i]);
      t := Quoted(s[i], s[i + 1..q]);
      assert s[i..q + 1] == t.Text();
    } else {
      WordHasNoSpace(s, i);
      t := Bare(s[i..WordEnd(s, i)]);
    }
  }

  /** From the end of a token to where the white space behind it ends. */
  lemma GapBehind(s: string, end: nat, bare: bool) returns (gap: string)
    requires end <= |s| && (bare && end < |s| ==> IsSpace(s[end]))
    ensures var k := SkipWhite(s, if bare && end < |s| then end + 1 else end);
            && TextAt(s, end, gap) && Spaces(gap) && k == end + |gap|
            && (bare && k < |s| ==> gap != "")
  {
    var from := if bare && end < |s| then end + 1 else end;
    SkippedIsSpace(s, from);
    gap := s[end..SkipWhite(s, from)];
    assert gap == s[end..from] + s[from..SkipWhite(s, from)];
  }

  /** A token and the gap behind it, as slices of the text. */
  ghost predicate Sliced(s: string, i: nat, t: Token, gap: string, e: nat) {
    TokenOk(t) && Spaces(gap) && Placed(s, i, t.Text(), gap, e)
  }

  ghost predicate Placed(s: string, i: nat, text: string, gap: string, e: nat) {
    i + |text| + |gap| == e <= |s| && s[i..i + |text|] == text && s[i + |text|..e] == gap
  }

  lemma SlicedToken(s: string, i: nat) returns (t: Token, gap: string, e: nat)
    requires i <= |s| && TokenAt(s, i).Found?
    ensures Sliced(s, i, t, gap, e) && t.Value() == TokenAt(s, i).value && t.Text()[0] == s[i]
    ensures e == SkipWhite(s, TokenAt(s, i).next) && (t.Bare? ==> gap != "" || e == |s|)
  {
    t := TokenOf(s, i);
    gap := GapBehind(s, i + |t.Text()|, t.Bare?);
    e := i + |t.Text()| + |gap|;
    TextAtSlice(s, i, t.Text());
    TextAtSlice(s, i + |t.Text()|, gap);
  }

  /** The first half of a line that is read as a setting: leading white space up to i, the name, a gap, '=' at k. */
  ghost predicate NamePart(s: string, i: nat, name: Token, gap1: string, k: nat) {
    && Sliced(s, i, name, gap1, k) && (name.Bare? ==> gap1 != "")
    && name.Text()[0] != '#' && k < |s| && s[k] == '='
  }

  /** The second half: the value at m, a gap, and from e on a comment or nothing. */
  ghost predicate ValuePart(s: string, m: nat, value: Token, gap3: string, e: nat) {
    Sliced(s, m, value, gap3, e) && (e < |s| ==> s[e] == '#') && (value.Bare? ==> gap3 != "" || e == |s|)
  }

  /** Where a line that is read as a setting has its parts. */
  datatype Cut = Cut(i: nat, name: Token, gap1: string, k: nat, m: nat, value: Token, gap3: string, e: nat)

  ghost predicate CutOk(s: string, c: Cut) {
    && NamePart(s, c.i, c.name, c.gap1, c.k) && c.k < c.m && ValuePart(s, c.m, c.value, c.gap3, c.e)
    && c.i == SkipWhite(s, 0) && c.m == SkipWhite(s, c.k + 1)
  }

  function Assembled(s: string, c: Cut): Setting
    requires c.i <= |s| && c.k < c.m <= |s| && c.e <= |s|
  {
    Setting(s[0..c.i], c.name, c.gap1, s[c.k + 1..c.m], c.value, c.gap3, s[c.e..])
  }

  lemma TextParts(st: Setting)
    ensures st.Text() ==
      st.lead + (st.name.Text() + (st.gap1 + ("=" + (st.gap2 + (st.value.Text() + (st.gap3 + st.tail))))))
  {}

  /** The parts, put together again, are the line. */
  lemma AssembledText(s: string, c: Cut)
    requires Placed(s, c.i, c.name.Text(), c.gap1, c.k) && Placed(s, c.m, c.value.Text(), c.gap3, c.e)
    requires c.k < c.m && s[c.k] == '='
    ensures Assembled(s, c).Text() == s
  {
    var st := Assembled(s, c);
    TextParts(st);
    SplicesBack(s, c.i, c.i + |c.name.Text()|, c.k, c.m, c.m + |c.value.Text()|, c.e,
                st.lead, st.name.Text(), st.gap1, st.gap2, st.value.Text(), st.gap3, st.tail);
  }

  lemma AssembledOk(s: string, c: Cut)
    requires CutOk(s, c)
    ensures SettingOk(Assembled(s, c))
  {
    SkippedIsSpace(s, 0);
    SkippedIsSpace(s, c.k + 1);
  }

  lemma AfterNameAssigns(s: string, name: Scanned, k: nat) returns (m: nat)
    requires Within(name, s) && AfterName(s, name).Assign? && name.Found? && k == SkipWhite(s, name.next)
    ensures k < |s| && s[k] == '=' && k < m <= |s| && m == SkipWhite(s, k + 1)
    ensures AfterName(s, name) == AfterValue(s, name.value, TokenAt(s, m)) && TokenAt(s, m).Found?
  {
    m := SkipWhite(s, k + 1);
  }

  lemma AfterValueAssigns(s: string, name: string, value: Scanned, e: nat)
    requires Within(value, s) && AfterValue(s, name, value).Assign? && value.Found? && e == SkipWhite(s, value.next)
    ensures e < |s| ==> s[e] == '#'
    ensures AfterValue(s, name, value) == Assign(name, value.value)
  {}

  lemma ParsedName(s: string, i: nat) returns (name: Token, gap1: string, k: nat, m: nat)
    requires Parse(s).Assign? && i == SkipWhite(s, 0)
    ensures NamePart(s, i, name, gap1, k) && k < m <= |s| && m == SkipWhite(s, k + 1)
    ensures TokenAt(s, m).Found? && Parse(s) == AfterValue(s, name.Value(), TokenAt(s, m))
  {
    name, gap1, k := SlicedToken(s, i);
    m := AfterNameAssigns(s, TokenAt(s, i), k);
  }

  lemma ParsedValue(s: string, name: string, m: nat) returns (value: Token, gap3: string, e: nat)
    requires m <= |s| && TokenAt(s, m).Found? && AfterValue(s, name, TokenAt(s, m)).Assign?
    ensures ValuePart(s, m, value, gap3, e)
    ensures AfterValue(s, name, TokenAt(s, m)) == Assign(name, value.Value())
  {
    value, gap3, e := SlicedToken(s, m);
    AfterValueAssigns(s, name, TokenAt(s, m), e);
  }

  /** The parts of a line that is read as a setting. */
  lemma ParsedParts(s: string) returns (c: Cut)
    requires Parse(s).Assign?
    ensures CutOk(s, c) && Parse(s) == Assign(c.name.Value(), c.value.Value())
  {
    var i := SkipWhite(s, 0);
    var name, gap1, k, m := ParsedName(s, i);
    c := ParsedRest(s, i, name, gap1, k, m);
  }

  lemma ParsedRest(s: string, i: nat, name: Token, gap1: string, k: nat, m: nat) returns (c: Cut)
    requires NamePart(s, i, name, gap1, k) && k < m <= |s| && i == SkipWhite(s, 0) && m == SkipWhite(s, k + 1)
    requires TokenAt(s, m).Found? && AfterValue(s, name.Value(), TokenAt(s, m)).Assign?
    ensures CutOk(s, c) && c.name == name
    ensures AfterValue(s, name.Value(), TokenAt(s, m)) == Assign(name.Value(), c.value.Value())
  {
    var value, gap3, e := ParsedValue(s, name.Value(), m);
    c := Cut(i, name, gap1, k, m, value, gap3, e);
  }

  /** Every line that is read as a setting is one of the grammar. */
  lemma ParsedBySetting(s: string) returns (st: Setting)
    requires Parse(s).Assign?
    ensures SettingOk(st) && st.Text() == s
    ensures Parse(s) == Assign(st.name.Value(), st.value.Value())
  {
    var c := ParsedParts(s);
    st := Assembled(s, c);
    AssembledText(s, c);
    AssembledOk(s, c);
  }

  lemma SplicesBack(s: string, i: nat, nameEnd: nat, k: nat, m: nat, valueEnd: nat, e: nat,
                    lead: string, name: string, gap1: string, gap2: string, value: string, gap3: string, tail: string)
    requires i <= nameEnd <= k < m <= valueEnd <= e <= |s| && s[k] == '='
    requires lead == s[0..i] && name == s[i..nameEnd] && gap1 == s[nameEnd..k]
    requires gap2 == s[k + 1..m] && value == s[m..valueEnd] && gap3 == s[valueEnd..e] && tail == s[e..]
    ensures s == lead + (name + (gap1 + ("=" + (gap2 + (value + (gap3 + tail))))))
  {
    assert s[valueEnd..] == gap3 + tail;
    assert s[m..] == value + s[valueEnd..];
    assert s[k + 1..] == gap2 + s[m..];
    assert s[k..] == "=" + s[k + 1..];
    assert s[nameEnd..] == gap1 + s[k..];
    assert s[i..] == name + s[nameEnd..];
    assert s == lead + s[i..];
  }

  /** The parser accepts exactly the lines of the grammar, and reads them as the grammar does. */
  lemma ParseIffGrammar(s: string, name: string, value: string)
    ensures Parse(s) == Assign(name, value) <==>
      exists st: Setting :: SettingOk(st) && st.Text() == s && st.name.Value() == name && st.value.Value() == value
  {
    if Parse(s) == Assign(name, value) {
      var st := ParsedBySetting(s);
    }
    if exists st: Setting :: SettingOk(st) && st.Text() == s && st.name.Value() == name && st.value.Value() == value {
      var st: Setting :| SettingOk(st) && st.Text() == s && st.name.Value() == name && st.value.Value() == value;
      GrammarParses(st);
    }
  }

  lemma BlankLineParses(s: string)
    requires BlankLine(s)
    ensures Parse(s).Blank?
  {
    var lead, tail :| s == lead + tail && Spaces(lead) && (tail != "" ==> tail[0] == '#');
    TextAtSplit(s, 0, lead, tail);
    if tail != "" {
      assert s[|lead| + 0] == tail[0];
    }
    SkipsGap(s, 0, lead, 0);
  }

  lemma BlankIsBlankLine(s: string)
    requires Parse(s).Blank?
    ensures BlankLine(s)
  {
    var i := SkipWhite(s, 0);
    SkippedIsSpace(s, 0);
    assert s == s[0..i] + s[i..];
  }

  /** The parser passes over exactly the blank lines and the comments. */
  lemma BlankIffBlankLine(s: string)
    ensures Parse(s).Blank? <==> BlankLine(s)
  {
    if BlankLine(s) {
      BlankLineParses(s);
    }
    if Parse(s).Blank? {
      BlankIsBlankLine(s);
    }
  }

  // ------------------------------------------------------ staying in the text

  lemma {:induction false} OverrunNeedsBackslash(s: string, i: nat, del: char)
    requires i <= |s|
    ensures QuoteEnd(s, i, del) > |s| ==> s != "" && s[|s| - 1] == '\\'
    decreases |s| - i
  {
    if i < |s| && s[i] != del {
      if s[i] == '\\' {
        if i + 2 <= |s| {
          OverrunNeedsBackslash(s, i + 2, del);
        }
      } else {
        OverrunNeedsBackslash(s, i + 1, del);
      }
    }
  }

  lemma TokenStaysInside(s: string, i: nat)
    requires i <= |s| && (s == "" || s[|s| - 1] != '\\')
    ensures !TokenAt(s, i).Overrun?
  {
    if i < |s| && IsQuote(s[i]) {
      OverrunNeedsBackslash(s, i + 1, s[i]);
    }
  }

  /** Only a line whose very last character is a backslash can take a token past its end; no line with a newline can. */
  lemma StaysInside(s: string)
    requires s == "" || s[|s| - 1] != '\\'
    ensures !Parse(s).OutOfBounds?
  {
    var i := SkipWhite(s, 0);
    TokenStaysInside(s, i);
    if i < |s| && TokenAt(s, i).Found? {
      var k := SkipWhite(s, TokenAt(s, i).next);
      if k < |s| {
        TokenStaysInside(s, SkipWhite(s, k + 1));
      }
    }
  }
}
