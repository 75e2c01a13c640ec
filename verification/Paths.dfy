/**
 The simple meaning of a path: split it on '/', drop "" and ".", let ".." drop the
 component before it (which fails on an empty stack), and put what is left together
 again.  Nothing here knows about buffers or pointers.
 */
module Paths {
  import opened Wrappers

  type Component = string

  /** Splits on '/'; the text between two slashes is one component, possibly empty. */
  function Split(s: string): (cs: seq<Component>)
    ensures |cs| >= 1
  {
    if s == "" then [""] else Extend(Split(s[..|s| - 1]), s[|s| - 1])
  }

  /** One more character either closes the last component or lengthens it. */
  function Extend(cs: seq<Component>, c: char): (r: seq<Component>)
    requires |cs| >= 1
    ensures |r| >= 1
  {
    if c == '/' then cs + [""] else cs[..|cs| - 1] + [cs[|cs| - 1] + [c]]
  }

  function JoinSlash(cs: seq<Component>): string
    requires |cs| >= 1
  {
    if |cs| == 1 then cs[0] else JoinSlash(cs[..|cs| - 1]) + "/" + cs[|cs| - 1]
  }

  predicate NoSlash(cs: seq<Component>) {
    forall i | 0 <= i < |cs| :: '/' !in cs[i]
  }

  /** What one component does to the components that are already resolved. */
  function Push(stack: seq<Component>, c: Component): Option<seq<Component>> {
    if c == "" || c == "." then Some(stack)
    else if c == ".." then
      if stack == [] then None else Some(stack[..|stack| - 1])
    else Some(stack + [c])
  }

  function ResolveFrom(stack: seq<Component>, cs: seq<Component>): Option<seq<Component>> {
    if cs == [] then Some(stack)
    else
      match ResolveFrom(stack, cs[..|cs| - 1])
      case None => None
      case Some(st) => Push(st, cs[|cs| - 1])
  }

  function Resolve(cs: seq<Component>): Option<seq<Component>> {
    ResolveFrom([], cs)
  }

  predicate Proper(c: Component) {
    c != "" && c != "." && c != ".." && '/' !in c
  }

  predicate AllProper(cs: seq<Component>) {
    forall i | 0 <= i < |cs| :: Proper(cs[i])
  }

  /** Every component with a slash in front of it. */
  function Render(cs: seq<Component>): string {
    if cs == [] then "" else Render(cs[..|cs| - 1]) + "/" + cs[|cs| - 1]
  }

  /** The text of a resolved path. */
  function Text(cs: seq<Component>): string {
    if cs == [] then "/" else Render(cs)
  }

  predicate IsAbsolute(s: string) {
    |s| > 0 && s[0] == '/'
  }

  function Normalise(s: string): Option<string> {
    match Resolve(Split(s))
    case None => None
    case Some(st) => Some(Text(st))
  }

  ghost predicate Canonical(s: string) {
    exists cs: seq<Component> :: AllProper(cs) && s == Text(cs)
  }

  // ---------------------------------------------------------------- splitting

  lemma SplitSnoc(s: string, c: char)
    ensures Split(s + [c]) == Extend(Split(s), c)
  {
    assert (s + [c])[..|s + [c]| - 1] == s;
  }

  lemma ExtendConcat(a: seq<Component>, b: seq<Component>, c: char)
    requires |b| >= 1
    ensures Extend(a + b, c) == a + Extend(b, c)
  {
    if c != '/' {
      assert (a + b)[..|a + b| - 1] == a + b[..|b| - 1];
    }
  }

  /** Split is the only way to cut a text into slash-free components. */
  lemma {:induction false} SplitJoins(s: string)
    ensures JoinSlash(Split(s)) == s
    ensures NoSlash(Split(s))
  {
    if s != "" {
      var t := s[..|s| - 1];
      SplitJoins(t);
      var before := Split(t);
      var n := |before|;
      assert s == t + [s[|s| - 1]];
      if s[|s| - 1] == '/' {
        assert (before + [""])[..n] == before;
      } else if n > 1 {
        assert Split(s)[..n - 1] == before[..n - 1];
      }
    }
  }

  lemma {:induction false} SplitNoSlash(c: Component)
    requires '/' !in c
    ensures Split(c) == [c]
  {
    if c != "" {
      SplitNoSlash(c[..|c| - 1]);
      assert c == c[..|c| - 1] + [c[|c| - 1]];
    }
  }

  lemma {:induction false} SplitConcat(a: string, b: string)
    ensures Split(a + "/" + b) == Split(a) + Split(b)
  {
    if b == "" {
      assert a + "/" + b == a + ['/'];
      SplitSnoc(a, '/');
    } else {
      var b', c := b[..|b| - 1], b[|b| - 1];
      SplitConcat(a, b');
      assert a + "/" + b == (a + "/" + b') + [c];
      SplitSnoc(a + "/" + b', c);
      ExtendConcat(Split(a), Split(b'), c);
    }
  }

  lemma {:induction false} SplitUnique(cs: seq<Component>)
    requires |cs| >= 1 && NoSlash(cs)
    ensures Split(JoinSlash(cs)) == cs
  {
    var n := |cs|;
    SplitNoSlash(cs[n - 1]);
    if n > 1 {
      SplitUnique(cs[..n - 1]);
      SplitConcat(JoinSlash(cs[..n - 1]), cs[n - 1]);
      assert cs == cs[..n - 1] + [cs[n - 1]];
    }
  }

  lemma {:induction false} RenderAsJoin(cs: seq<Component>)
    ensures Render(cs) == JoinSlash([""] + cs)
  {
    if cs != [] {
      RenderAsJoin(cs[..|cs| - 1]);
      assert ([""] + cs)[..|cs|] == [""] + cs[..|cs| - 1];
    }
  }

  lemma SplitText(cs: seq<Component>)
    requires NoSlash(cs)
    ensures Split(Text(cs)) == if cs == [] then ["", ""] else [""] + cs
  {
    if cs == [] {
      SplitConcat("", "");
    } else {
      RenderAsJoin(cs);
      SplitUnique([""] + cs);
    }
  }

  // ---------------------------------------------------------------- resolving

  lemma {:induction false} ResolveConcat(stack: seq<Component>, a: seq<Component>, b: seq<Component>)
    ensures ResolveFrom(stack, a + b) ==
      match ResolveFrom(stack, a)
      case None => None
      case Some(st) => ResolveFrom(st, b)
  {
    if b == [] {
      assert a + b == a;
    } else {
      ResolveConcat(stack, a, b[..|b| - 1]);
      assert (a + b)[..|a + b| - 1] == a + b[..|b| - 1];
    }
  }

  /** Whatever is resolved is free of "", "." and "..". */
  lemma {:induction false} ResolvedIsProper(stack: seq<Component>, cs: seq<Component>)
    requires NoSlash(cs) && AllProper(stack)
    ensures ResolveFrom(stack, cs).Some? ==> AllProper(ResolveFrom(stack, cs).value)
  {
    if cs != [] {
      ResolvedIsProper(stack, cs[..|cs| - 1]);
    }
  }

  lemma {:induction false} ProperResolvesToItself(stack: seq<Component>, cs: seq<Component>)
    requires AllProper(cs)
    ensures ResolveFrom(stack, cs) == Some(stack + cs)
  {
    if cs == [] {
      assert stack + cs == stack;
    } else {
      ProperResolvesToItself(stack, cs[..|cs| - 1]);
      assert stack + cs == stack + cs[..|cs| - 1] + [cs[|cs| - 1]];
    }
  }

  /** The text of a resolved stack resolves to that stack. */
  lemma ResolveText(cs: seq<Component>)
    requires AllProper(cs)
    ensures Resolve(Split(Text(cs))) == Some(cs)
  {
    SplitText(cs);
    ProperResolvesToItself([], cs);
    ResolveConcat([], [""], cs);
    assert ResolveFrom([], [""]) == Some([]);
    if cs == [] {
      assert ResolveFrom([], ["", ""][..1]) == Some([]);
    } else {
      assert [] + cs == cs;
    }
  }

  // ---------------------------------------------------- laws of normalisation

  lemma NormaliseIsCanonical(s: string)
    requires Normalise(s).Some?
    ensures Canonical(Normalise(s).value)
  {
    SplitJoins(s);
    ResolvedIsProper([], Split(s));
    assert AllProper(Resolve(Split(s)).value);
  }

  /** The canonical texts are exactly the fixed points of normalisation. */
  lemma CanonicalIffFixedPoint(s: string)
    ensures Canonical(s) <==> Normalise(s) == Some(s)
  {
    if Canonical(s) {
      var cs :| AllProper(cs) && s == Text(cs);
      ResolveText(cs);
    }
    if Normalise(s) == Some(s) {
      NormaliseIsCanonical(s);
    }
  }

  /** Normalising what stands before a slash first changes nothing, failure included. */
  lemma NormaliseInSteps(a: string, b: string)
    requires IsAbsolute(a)
    ensures Normalise(a + "/" + b) ==
      match Normalise(a)
      case None => None
      case Some(n) => Normalise(n + "/" + b)
  {
    SplitConcat(a, b);
    ResolveConcat([], Split(a), Split(b));
    match Resolve(Split(a)) {
      case None =>
      case Some(st) =>
        SplitJoins(a);
        ResolvedIsProper([], Split(a));
        ResolveText(st);
        SplitConcat(Text(st), b);
        ResolveConcat([], Split(Text(st)), Split(b));
    }
  }

  // ------------------------------------------------------------ C strings

  ghost predicate CStrings(cs: seq<Component>) {
    forall i | 0 <= i < |cs| :: '\0' !in cs[i]
  }

  lemma {:induction false} SplitCStrings(s: string)
    requires '\0' !in s
    ensures CStrings(Split(s))
  {
    if s != "" {
      SplitCStrings(s[..|s| - 1]);
    }
  }

  lemma {:induction false} ResolveCStrings(cs: seq<Component>)
    requires CStrings(cs)
    ensures Resolve(cs).Some? ==> CStrings(Resolve(cs).value) && '\0' !in Render(Resolve(cs).value)
  {
    if cs != [] {
      ResolveCStrings(cs[..|cs| - 1]);
      if Resolve(cs).Some? {
        RenderCStrings(Resolve(cs).value);
      }
    }
  }

  lemma {:induction false} RenderCStrings(cs: seq<Component>)
    requires CStrings(cs)
    ensures '\0' !in Render(cs)
  {
    if cs != [] {
      RenderCStrings(cs[..|cs| - 1]);
    }
  }

  lemma NormaliseKeepsCString(s: string)
    requires '\0' !in s
    ensures Normalise(s).Some? ==> '\0' !in Normalise(s).value
  {
    SplitCStrings(s);
    ResolveCStrings(Split(s));
  }
}
