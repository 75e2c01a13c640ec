/** fiscanonical, and what it and fabsolute have to do with each other. */
module Canonicity {
  import opened Limits
  import opened Normaliser
  import opened Paths
  import opened Wrappers

  /** Canonical, read off the components of the text itself. */
  lemma CanonicalBySplit(s: string)
    ensures Canonical(s) <==> s == "/" || (|Split(s)| >= 2 && Split(s)[0] == "" && AllProper(Split(s)[1..]))
  {
    if Canonical(s) {
      var cs :| AllProper(cs) && s == Text(cs);
      SplitText(cs);
      assert cs != [] ==> Split(s)[1..] == cs;
    }
    var cs := Split(s);
    if s == "/" {
      assert AllProper([]) && s == Text([]);
    } else if |cs| >= 2 && cs[0] == "" && AllProper(cs[1..]) {
      SplitJoins(s);
      assert cs == [""] + cs[1..];
      RenderAsJoin(cs[1..]);
      assert s == Text(cs[1..]);
    }
  }

  /** What the score of fiscanonical stands for: the component it is inside of. */
  function ScoreOf(c: Component): int {
    if c == "" then 1 else if c == "." then 2 else if c == ".." then 3 else 0
  }

  ghost predicate Scored(read: string, score: int) {
    && Done(read) != [] && Done(read)[0] == ""
    && AllProper(Done(read)[1..])
    && '/' !in Current(read)
    && score == ScoreOf(Current(read))
  }

  lemma ScoreGrows(cur: Component, c: char)
    requires c != '/'
    ensures var score := ScoreOf(cur);
            ScoreOf(cur + [c]) == if c != '.' || score == 0 || score > 2 then 0 else score + 1
  {
    assert (cur + [c])[..|cur|] == cur && (cur + [c])[|cur|] == c;
  }

  lemma ScoreStep(read: string, score: int, c: char)
    requires Scored(read, score)
    ensures c == '/' && score == 0 ==> Scored(read + [c], 1)
    ensures c == '.' ==> Scored(read + [c], if score == 0 || score > 2 then 0 else score + 1)
    ensures c != '/' && c != '.' ==> Scored(read + [c], 0)
  {
    ReadOne(read, c);
    if c == '/' {
      assert Split(read)[1..] == Done(read)[1..] + [Current(read)];
    } else {
      ScoreGrows(Current(read), c);
    }
  }

  /** A slash right after "/", "/." or "/.." settles it. */
  lemma BadSlash(s: string, i: nat, score: int)
    requires 1 <= i < |s| && s[i] == '/' && Scored(s[..i], score) && score > 0
    ensures !Canonical(s)
  {
    CanonicalBySplit(s);
    assert s == s[..i] + "/" + s[i + 1..];
    SplitConcat(s[..i], s[i + 1..]);
    var k := |Split(s[..i])| - 1;
    assert Split(s)[1..][k - 1] == Current(s[..i]);
  }

  /** At the end the score decides. */
  lemma ScoreDecides(s: string, score: int)
    requires |s| > 1 && Scored(s, score)
    ensures Canonical(s) <==> score == 0
  {
    CanonicalBySplit(s);
    assert Split(s)[1..] == Done(s)[1..] + [Current(s)];
    assert Split(s)[1..][|Split(s)| - 2] == Current(s);
  }

  method FIsCanonical(path: string) returns (rc: int)
    requires '\0' !in path && |path| <= INT_MAX
    ensures rc == if Canonical(path) then 1 else 0
  {
    if path == "" || path[0] != '/' {
      CanonicalBySplit(path);
      if path != "" {
        SplitJoins(path);
        NotAbsolute(Split(path));
      }
      return 0;
    }
    var len := |path|;
    var score := if len > 1 then 1 else 0;
    assert path[..1] == "" + ['/'];
    SplitSnoc("", '/');
    for i := 1 to len
      invariant len > 1 ==> Scored(path[..i], score)
      invariant len == 1 ==> score == 0
    {
      assert path[..i + 1] == path[..i] + [path[i]];
      ScoreStep(path[..i], score, path[i]);
      if path[i] == '/' {
        if score != 0 {
          BadSlash(path, i, score);
          return 0;
        } else {
          score := score + 1;
        }
      } else if path[i] == '.' && score != 0 {
        if score > 2 {
          score := 0;
        } else {
          score := score + 1;
        }
      } else {
        score := 0;
      }
    }
    assert path[..len] == path;
    if len > 1 {
      ScoreDecides(path, score);
    } else {
      CanonicalBySplit(path);
    }
    return if score != 0 then 0 else 1;
  }

  lemma {:induction false} NotAbsolute(cs: seq<Component>)
    requires |cs| >= 1
    ensures |cs| >= 2 && cs[0] == "" ==> IsAbsolute(JoinSlash(cs))
  {
    if |cs| > 2 {
      NotAbsolute(cs[..|cs| - 1]);
    }
  }

  // ------------------------------------------- the normaliser and its recogniser

  function Size(cs: seq<Component>): nat {
    if cs == [] then 0 else Size(cs[..|cs| - 1]) + 1 + |cs[|cs| - 1]|
  }

  lemma {:induction false} JoinSize(cs: seq<Component>)
    requires |cs| >= 1
    ensures Size(cs) == |JoinSlash(cs)| + 1
  {
    if |cs| > 1 {
      JoinSize(cs[..|cs| - 1]);
    } else {
      assert Size(cs[..0]) == 0;
    }
  }

  lemma {:induction false} ResolveShrinks(cs: seq<Component>)
    requires cs != [] && cs[0] == ""
    ensures Resolve(cs).Some? ==> |Render(Resolve(cs).value)| < Size(cs)
  {
    if |cs| == 1 {
      assert Resolve(cs[..0]) == Some([]) && Size(cs[..0]) == 0;
    } else {
      ResolveShrinks(cs[..|cs| - 1]);
      if Resolve(cs).Some? {
        var st := Resolve(cs[..|cs| - 1]).value;
        assert (st + [cs[|cs| - 1]])[..|st|] == st;
      }
    }
  }

  lemma NormaliseShrinks(s: string)
    requires IsAbsolute(s) && Normalise(s).Some?
    ensures |Normalise(s).value| <= |s|
    ensures IsAbsolute(Normalise(s).value)
  {
    assert s == "" + "/" + s[1..];
    SplitConcat("", s[1..]);
    SplitJoins(s);
    JoinSize(Split(s));
    ResolveShrinks(Split(s));
    RenderStarts(Resolve(Split(s)).value);
  }

  /** What fabsolute returns: a canonical C string that fits the buffer. */
  lemma AbsoluteResult(cwd: string, path: string)
    requires InDomain(cwd, path) && Absolute(Some(cwd), Some(path)).Some?
    ensures var p := Absolute(Some(cwd), Some(path)).value;
            Canonical(p) && IsAbsolute(p) && |p| < PATH_MAX && '\0' !in p
  {
    var s := Fitted(Joined(cwd, path), PATH_MAX);
    NormaliseIsCanonical(s);
    NormaliseShrinks(s);
    NormaliseKeepsCString(s);
  }

  lemma CanonicalIsAbsolute(p: string)
    requires Canonical(p)
    ensures IsAbsolute(p)
  {
    var cs :| AllProper(cs) && p == Text(cs);
    RenderStarts(cs);
  }

  /** A canonical path is its own absolute path, whatever the cwd. */
  lemma CanonicalIsFixed(cwd: string, p: string)
    requires Canonical(p) && |p| < PATH_MAX && '\0' !in p && '\0' !in cwd
    ensures InDomain(cwd, p) && Absolute(Some(cwd), Some(p)) == Some(p)
  {
    CanonicalIsAbsolute(p);
    CanonicalIffFixedPoint(p);
  }

  /** The image of fabsolute is exactly what fiscanonical accepts, up to the buffer size. */
  lemma ImageIsCanonical(p: string)
    ensures (exists cwd: string, path: string :: InDomain(cwd, path) && Absolute(Some(cwd), Some(path)) == Some(p))
       <==> (Canonical(p) && |p| < PATH_MAX && '\0' !in p)
  {
    if exists cwd: string, path: string :: InDomain(cwd, path) && Absolute(Some(cwd), Some(path)) == Some(p) {
      var cwd: string, path: string :| InDomain(cwd, path) && Absolute(Some(cwd), Some(path)) == Some(p);
      AbsoluteResult(cwd, path);
    }
    if Canonical(p) && |p| < PATH_MAX && '\0' !in p {
      CanonicalIsFixed("/", p);
    }
  }

  lemma AbsoluteIdempotent(cwd: string, path: string, other: string)
    requires InDomain(cwd, path) && '\0' !in other
    requires Absolute(Some(cwd), Some(path)).Some?
    ensures var p := Absolute(Some(cwd), Some(path)).value;
            InDomain(other, p) && Absolute(Some(other), Some(p)) == Some(p)
  {
    AbsoluteResult(cwd, path);
    CanonicalIsFixed(other, Absolute(Some(cwd), Some(path)).value);
  }

  /** Writing the separator again does not change what a text resolves to. */
  lemma DoubleSlash(a: string, b: string)
    requires IsAbsolute(a)
    ensures Normalise(WithSlash(a) + b) == Normalise(a + "/" + b)
  {
    if a[|a| - 1] == '/' {
      var a' := a[..|a| - 1];
      assert a == a' + "/" + "" && a + b == a' + "/" + b;
      SplitConcat(a', b);
      SplitConcat(a', "");
      SplitConcat(a, b);
      EmptyInBetween(Split(a'), Split(b));
    }
  }

  lemma EmptyInBetween(a: seq<Component>, b: seq<Component>)
    ensures Resolve(a + [""] + b) == Resolve(a + b)
  {
    ResolveConcat([], a, b);
    ResolveConcat([], a, [""]);
    ResolveConcat([], a + [""], b);
    if Resolve(a).Some? {
      assert ResolveFrom(Resolve(a).value, [""][..0]) == Resolve(a);
    }
  }

  lemma JoinedAssociates(cwd: string, p1: string, p2: string)
    requires p1 != "" && InDomain(cwd, p1 + "/" + p2) && Fits(cwd, p1 + "/" + p2)
    ensures InDomain(cwd, p1) && '\0' !in p2
    ensures Joined(cwd, p1 + "/" + p2) == Joined(cwd, p1) + "/" + p2
    ensures IsAbsolute(Joined(cwd, p1)) && |Joined(cwd, p1)| + 1 + |p2| < PATH_MAX
  {
    NoNul(p1 + "/", p2);
    NoNul(p1, "/");
    assert IsAbsolute(p1 + "/" + p2) == IsAbsolute(p1);
  }

  /** Going through an intermediate directory: fabsolute(cwd, p1/p2). */
  lemma AbsoluteInSteps(cwd: string, p1: string, p2: string)
    requires p1 != "" && !IsAbsolute(p2)
    requires InDomain(cwd, p1 + "/" + p2) && Fits(cwd, p1 + "/" + p2)
    ensures InDomain(cwd, p1)
    ensures match Absolute(Some(cwd), Some(p1))
            case None => Absolute(Some(cwd), Some(p1 + "/" + p2)) == None
            case Some(n) => InDomain(n, p2) && Absolute(Some(cwd), Some(p1 + "/" + p2)) == Absolute(Some(n), Some(p2))
  {
    JoinedAssociates(cwd, p1, p2);
    var a := Joined(cwd, p1);
    assert Absolute(Some(cwd), Some(p1)) == Normalise(a);
    assert Absolute(Some(cwd), Some(p1 + "/" + p2)) == Normalise(a + "/" + p2);
    NormaliseInSteps(a, p2);
    match Normalise(a) {
      case None =>
      case Some(n) =>
        AbsoluteResult(cwd, p1);
        NormaliseShrinks(a);
        assert Joined(n, p2) == WithSlash(n) + p2;
        DoubleSlash(n, p2);
    }
  }

  lemma NoNul(a: string, b: string)
    requires '\0' !in a + b
    ensures '\0' !in a && '\0' !in b
  {
    assert forall i | 0 <= i < |a| :: (a + b)[i] == a[i];
    assert forall i | 0 <= i < |b| :: (a + b)[|a| + i] == b[i];
  }

  /** Any number of slashes behind cwd makes no difference. */
  lemma {:induction false} TrailingSlashes(cwd: string, slashes: string, path: string)
    requires InDomain(cwd + slashes, path) && Fits(cwd + slashes, path)
    requires IsAbsolute(cwd) && forall i | 0 <= i < |slashes| :: slashes[i] == '/'
    ensures InDomain(cwd, path) && Absolute(Some(cwd + slashes), Some(path)) == Absolute(Some(cwd), Some(path))
  {
    NoNul(cwd, slashes);
    if slashes == "" {
      assert cwd + slashes == cwd;
    } else if !IsAbsolute(path) {
      var fewer := slashes[..|slashes| - 1];
      var longer := cwd + slashes;
      assert longer == cwd + fewer + "/";
      TrailingSlashes(cwd, fewer, path);
      DoubleSlash(cwd + fewer, path);
    }
  }
}
