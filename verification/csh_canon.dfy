/** csh's path canonicaliser: components are removed from a path by shifting its text in place. */
module CshCanon {

  // ---- what a path comes to ------------------------------------------------------------

  /** The parts of s between slashes. */
  function Split(s: string): (cs: seq<string>)
    ensures cs != []
    decreases |s|
  {
    if s == "" then [""]
    else if s[0] == '/' then [""] + Split(s[1..])
    else
      var rest := Split(s[1..]);
      [[s[0]] + rest[0]] + rest[1..]
  }

  /** Every component with a slash before it. */
  function Slashed(cs: seq<string>): string
    decreases |cs|
  {
    if cs == [] then "" else Slashed(cs[..|cs| - 1]) + "/" + cs[|cs| - 1]
  }

  /** The stack rule for one component. */
  function Step(stack: seq<string>, c: string): seq<string> {
    if c == "" || c == "." then stack
    else if c == ".." then if stack == [] then [] else stack[..|stack| - 1]
    else stack + [c]
  }

  function Resolve(stack: seq<string>, cs: seq<string>): seq<string>
    decreases |cs|
  {
    if cs == [] then stack else Resolve(Step(stack, cs[0]), cs[1..])
  }

  /** The text of a resolved path; dot says that a last `.` is left where it is. */
  function Finish(stack: seq<string>, dot: bool): string {
    if stack == [] then if dot then "/." else "/" else Slashed(stack)
  }

  predicate EndsInDot(cs: seq<string>) { cs != [] && cs[|cs| - 1] == "." }

  /** What the components cs come to behind those of the stack. */
  function CanonOf(stack: seq<string>, cs: seq<string>): string {
    Finish(Resolve(stack, cs), EndsInDot(cs))
  }

  /** The canonical form of a path: its components resolved by the stack rule, except that a
      last `.` with nothing before it stays. */
  function Canon(path: string): string
    requires path != ""
  {
    CanonOf([], Split(path[1..]))
  }

  /** A component has no slash and no NUL in it. */
  predicate Clean(c: string) { '/' !in c && '\0' !in c }

  predicate AllClean(cs: seq<string>) { forall i :: 0 <= i < |cs| ==> Clean(cs[i]) }

  predicate Normal(c: string) { Clean(c) && c != "" && c != "." && c != ".." }

  predicate AllNormal(cs: seq<string>) { forall i :: 0 <= i < |cs| ==> Normal(cs[i]) }

  lemma {:induction false} SlashedAppend(a: seq<string>, b: seq<string>)
    ensures Slashed(a + b) == Slashed(a) + Slashed(b)
    decreases |b|
  {
    if b == [] {
      assert a + b == a;
    } else {
      var n := |b| - 1;
      SlashedAppend(a, b[..n]);
      assert (a + b)[..|a + b| - 1] == a + b[..n];
    }
  }

  lemma SlashedOne(c: string)
    ensures Slashed([c]) == "/" + c
  {
    assert [c][..0] == [];
  }

  lemma SlashedFirst(cs: seq<string>)
    requires cs != []
    ensures Slashed(cs) == "/" + cs[0] + Slashed(cs[1..])
  {
    assert cs == [cs[0]] + cs[1..];
    SlashedAppend([cs[0]], cs[1..]);
    SlashedOne(cs[0]);
  }

  /** A path is its components, each with its slash. */
  lemma {:induction false} SplitSlashed(s: string)
    requires '\0' !in s
    ensures Slashed(Split(s)) == "/" + s && AllClean(Split(s))
    decreases |s|
  {
    if s == "" {
      SlashedOne("");
    } else {
      SplitSlashed(s[1..]);
      assert s == [s[0]] + s[1..];
      if s[0] == '/' {
        MoreSlash(Split(s[1..]), s[1..]);
      } else {
        MoreText(s[0], Split(s[1..]), s[1..]);
      }
    }
  }

  /** A slash in front. */
  lemma MoreSlash(rest: seq<string>, s: string)
    requires rest != [] && Slashed(rest) == "/" + s
    ensures Slashed([""] + rest) == "/" + ("/" + s) && (AllClean(rest) ==> AllClean([""] + rest))
  {
    SlashedFirst([""] + rest);
    assert ([""] + rest)[1..] == rest;
    assert "/" + "" + Slashed(rest) == "/" + Slashed(rest);
  }

  /** Another character in front of the first component. */
  lemma MoreText(c: char, rest: seq<string>, s: string)
    requires rest != [] && Slashed(rest) == "/" + s
    ensures Slashed([[c] + rest[0]] + rest[1..]) == "/" + ([c] + s)
    ensures AllClean(rest) && c != '/' && c != '\0' ==> AllClean([[c] + rest[0]] + rest[1..])
  {
    var cs := [[c] + rest[0]] + rest[1..];
    SlashedFirst(cs);
    SlashedFirst(rest);
    assert cs[1..] == rest[1..];
    OneMore(c, rest[0], Slashed(rest[1..]), s);
  }

  lemma OneMore(c: char, first: string, others: string, s: string)
    requires "/" + first + others == "/" + s
    ensures "/" + ([c] + first) + others == "/" + ([c] + s)
  {
    Regroup("/", first, others);
    Drop("/", first + others, s);
    Regroup("/", [c] + first, others);
    Regroup([c], first, others);
  }

  lemma Drop(a: string, b: string, c: string)
    requires a + b == a + c
    ensures b == c
  {
    assert (a + b)[|a|..] == b && (a + c)[|a|..] == c;
  }

  lemma Regroup(x: string, y: string, z: string)
    ensures (x + y) + z == x + (y + z)
  {
  }

  /** Empty components make no difference, nor does the first of several that are resolved. */
  lemma CanonStep(stack: seq<string>, cs: seq<string>)
    requires |cs| > 1
    ensures CanonOf(stack, cs) == CanonOf(Step(stack, cs[0]), cs[1..])
  {
  }

  lemma CanonLast(stack: seq<string>, c: string)
    ensures CanonOf(stack, [c]) == Finish(Step(stack, c), c == ".")
  {
    assert [c][1..] == [] && Resolve(Step(stack, c), []) == Step(stack, c);
  }

  lemma SlashedNoNul(cs: seq<string>)
    requires AllClean(cs)
    ensures '\0' !in Slashed(cs)
    decreases |cs|
  {
    if cs != [] {
      SlashedNoNul(cs[..|cs| - 1]);
    }
  }

  lemma NormalClean(cs: seq<string>)
    requires AllNormal(cs)
    ensures AllClean(cs)
  {
  }

  /** Only names are left on the stack. */
  lemma {:induction false} ResolvedNormal(stack: seq<string>, cs: seq<string>)
    requires AllNormal(stack) && AllClean(cs)
    ensures AllNormal(Resolve(stack, cs))
    decreases |cs|
  {
    if cs != [] {
      ResolvedNormal(Step(stack, cs[0]), cs[1..]);
    }
  }

  lemma {:induction false} NormalResolved(stack: seq<string>, cs: seq<string>)
    requires AllNormal(cs)
    ensures Resolve(stack, cs) == stack + cs
    decreases |cs|
  {
    if cs != [] {
      NormalResolved(stack + [cs[0]], cs[1..]);
      assert stack + [cs[0]] + cs[1..] == stack + cs;
    } else {
      assert stack + cs == stack;
    }
  }

  /** Splitting gives the components back. */
  lemma {:induction false} SplitJoined(c: string, cs: seq<string>)
    requires Clean(c) && AllClean(cs)
    ensures Split(c + Slashed(cs)) == [c] + cs
    decreases |c| + |Slashed(cs)|, |cs|
  {
    var s := c + Slashed(cs);
    if c != "" {
      FirstOff(c, Slashed(cs));
      SplitJoined(c[1..], cs);
      assert [c[0]] + c[1..] == c;
    } else if cs != [] {
      SlashedFirst(cs);
      Regroup("/", cs[0], Slashed(cs[1..]));
      assert s == "/" + (cs[0] + Slashed(cs[1..]));
      SplitJoined(cs[0], cs[1..]);
      assert [cs[0]] + cs[1..] == cs;
    }
  }

  lemma FirstOff(c: string, t: string)
    requires Clean(c) && c != ""
    ensures (c + t)[0] == c[0] != '/' && (c + t)[1..] == c[1..] + t && Clean(c[1..])
  {
    assert c[0] in c;
    forall x | x in c[1..] ensures x in c {
    }
  }

  /** A canonical path is canonical: the root, a single `.` there, or names only; and making it
      canonical again changes nothing. */
  lemma CanonTwice(path: string)
    requires path != "" && '\0' !in path
    ensures Canon(Canon(path)) == Canon(path)
    ensures Canon(path) == "/" || Canon(path) == "/." ||
      exists names :: names != [] && AllNormal(names) && Canon(path) == Slashed(names)
    ensures Canon(path) == "/." <==> Resolve([], Split(path[1..])) == [] && EndsInDot(Split(path[1..]))
  {
    var names := Resolve([], Split(path[1..]));
    forall c | c in path[1..] ensures c in path {
    }
    SplitSlashed(path[1..]);
    ResolvedNormal([], Split(path[1..]));
    if names == [] {
      RootCanon();
    } else {
      NamesCanon(names);
    }
  }

  lemma RootCanon()
    ensures Canon("/") == "/" && Canon("/.") == "/."
  {
    var dot := ".";
    assert "/"[1..] == "" && "/."[1..] == dot && dot[1..] == "";
    assert Split("") == [""] && [""][1..] == [] && ['.'] + "" == dot;
    assert Split(dot) == [dot];
    CanonLast([], "");
    CanonLast([], ".");
  }

  lemma NamesCanon(names: seq<string>)
    requires names != [] && AllNormal(names)
    ensures Canon(Slashed(names)) == Slashed(names) != "/."
  {
    NormalClean(names);
    NamesSplit(names);
    NormalResolved([], names);
    assert [] + names == names && !EndsInDot(names);
    NamesNotDot(names);
  }

  lemma NamesNotDot(names: seq<string>)
    requires names != [] && AllNormal(names)
    ensures Slashed(names) != "/."
  {
    SlashedFirst(names);
    if |names| > 1 {
      SlashedFirst(names[1..]);
    }
    NotDot(names[0], Slashed(names[1..]));
  }

  lemma NamesSplit(names: seq<string>)
    requires names != [] && AllClean(names)
    ensures Slashed(names) != "" && Split(Slashed(names)[1..]) == names
  {
    SlashedBody(names);
    WithoutSlash(Body(names));
    SplitJoined(names[0], names[1..]);
    assert [names[0]] + names[1..] == names;
  }

  lemma WithoutSlash(s: string)
    ensures ("/" + s)[1..] == s
  {
  }

  lemma NotDot(name: string, others: string)
    requires name != "" && name != "." && (others != "" ==> others[0] == '/')
    ensures "/" + name + others != "/."
  {
    var s := "/" + name + others;
    assert s[1] == name[0];
  }

  // ---- text in a buffer ----------------------------------------------------------------

  /** The text t, with its terminating NUL, at position i of the buffer. */
  ghost predicate Text(a: array<char>, i: nat, t: string)
    reads a
  {
    i + |t| < a.Length && a[i..i + |t|] == t && a[i + |t|] == '\0' && '\0' !in t
  }

  /** The text at src, with its NUL, moves down to dst. */
  method Shift(a: array<char>, dst: nat, src: nat, ghost t: string)
    requires dst <= src && Text(a, src, t)
    modifies a
    ensures Text(a, dst, t) && a[..dst] == old(a[..dst])
  {
    var p1, p2 := dst, src;
    var c := a[p2];
    a[p1] := c;
    ghost var k := 0;
    if t != "" {
      TextAt(old(a[src..src + |t|]), t, 0);
    }
    while c != '\0'
      invariant k <= |t| && p1 == dst + k && p2 == src + k && a[p1] == c == old(a[src + k])
      invariant c != '\0' <==> k < |t|
      invariant forall j :: 0 <= j < k ==> a[dst + j] == t[j]
      invariant forall j :: p2 < j < a.Length ==> a[j] == old(a[j])
      invariant forall j :: 0 <= j < dst ==> a[j] == old(a[j])
      decreases |t| - k
    {
      TextAt(old(a[src..src + |t|]), t, k);
      p1, p2, k := p1 + 1, p2 + 1, k + 1;
      c := a[p2];
      a[p1] := c;
      if k < |t| {
        TextAt(old(a[src..src + |t|]), t, k);
      }
    }
    assert a[dst..dst + |t|] == t;
  }

  lemma TextAt(s: seq<char>, t: string, k: nat)
    requires s == t && k < |t| && '\0' !in t
    ensures s[k] == t[k] != '\0'
  {
  }

  /** Text in two pieces. */
  lemma TextJoin(a: array<char>, x: string, t: string)
    requires |x| <= a.Length && a[..|x|] == x && '\0' !in x && Text(a, |x|, t)
    ensures Text(a, 0, x + t)
  {
    assert a[0..|x| + |t|] == a[..|x|] + a[|x|..|x| + |t|];
  }

  lemma TextTail(a: array<char>, x: string, t: string)
    requires Text(a, 0, x + t)
    ensures a[..|x|] == x && Text(a, |x|, t) && '\0' !in x
  {
    assert a[0..|x + t|] == x + t;
    assert a[..|x|] == (x + t)[..|x|] && a[|x|..|x| + |t|] == (x + t)[|x|..];
    forall c | c in x ensures c in x + t {
    }
    forall c | c in t ensures c in x + t {
    }
  }

  // ---- dcanon --------------------------------------------------------------------------

  /** At the start of a turn: the resolved components before p, those still to do from p on. */
  ghost predicate State(a: array<char>, p: nat, stack: seq<string>, cs: seq<string>)
    reads a
  {
    AllNormal(stack) && AllClean(cs) && cs != [] && p == |Slashed(stack)| && Text(a, 0, Slashed(stack) + Slashed(cs))
  }

  /** Nothing is left to do, and the buffer holds the result. */
  ghost predicate Done(a: array<char>, p: nat, r: string)
    reads a
  {
    Text(a, 0, r) && p < a.Length && a[p] == '\0'
  }

  /** The text of components behind their first slash. */
  function Body(cs: seq<string>): string
    requires cs != []
  {
    cs[0] + Slashed(cs[1..])
  }

  lemma SlashedBody(cs: seq<string>)
    requires cs != []
    ensures Slashed(cs) == "/" + Body(cs)
  {
    SlashedFirst(cs);
    Regroup("/", cs[0], Slashed(cs[1..]));
  }

  lemma TextDrop(a: array<char>, i: nat, c: char, t: string)
    requires Text(a, i, [c] + t)
    ensures Text(a, i + 1, t) && a[i] == c
  {
    assert a[i..i + |t| + 1] == [c] + t;
    assert a[i + 1..i + 1 + |t|] == a[i..i + |t| + 1][1..];
    forall x | x in t ensures x in [c] + t {
    }
  }

  /** The first character of the text at i. */
  lemma FirstChar(a: array<char>, i: nat, t: string)
    requires Text(a, i, t)
    ensures a[i] == if t == "" then '\0' else t[0]
    ensures t != "" ==> t[0] != '\0'
  {
    if t != "" {
      assert a[i..i + |t|][0] == t[0];
    }
  }

  /** The text from p on. */
  lemma StateTail(a: array<char>, p: nat, stack: seq<string>, cs: seq<string>)
    requires State(a, p, stack, cs)
    ensures a[..p] == Slashed(stack) && a[p] == '/' && Text(a, p + 1, Body(cs))
  {
    TextTail(a, Slashed(stack), Slashed(cs));
    SlashedBody(cs);
    TextDrop(a, p, '/', Body(cs));
  }

  lemma Rejoin(a: array<char>, p: nat, stack: seq<string>, cs: seq<string>)
    requires AllNormal(stack) && AllClean(cs) && cs != [] && p == |Slashed(stack)| && p + 1 < a.Length
    requires a[..p] == Slashed(stack) && a[p] == '/' && Text(a, p + 1, Body(cs))
    ensures State(a, p, stack, cs)
  {
    var x, y := Slashed(stack), Body(cs);
    NormalClean(stack);
    SlashedNoNul(stack);
    SlashedBody(cs);
    assert a[..p + 1] == a[..p] + ['/'];
    assert x + "/" == x + ['/'];
    TextJoin(a, x + "/", y);
    Regroup(x, "/", y);
  }

  /** Empty components with more behind them are passed over. */
  function Flushed(cs: seq<string>): (r: seq<string>)
    ensures cs != [] ==> r != [] && (r[0] != "" || r == [""])
    ensures AllClean(cs) ==> AllClean(r)
    decreases |cs|
  {
    if |cs| > 1 && cs[0] == "" then Flushed(cs[1..]) else cs
  }

  lemma {:induction false} FlushedSame(stack: seq<string>, cs: seq<string>)
    requires cs != []
    ensures CanonOf(stack, Flushed(cs)) == CanonOf(stack, cs) && |Slashed(Flushed(cs))| <= |Slashed(cs)|
    decreases |cs|
  {
    if |cs| > 1 && cs[0] == "" {
      CanonStep(stack, cs);
      SlashedFirst(cs);
      FlushedSame(stack, cs[1..]);
    }
  }

  /** The last component is never passed over. */
  lemma {:induction false} FlushedLast(cs: seq<string>)
    requires cs != []
    ensures Flushed(cs)[|Flushed(cs)| - 1] == cs[|cs| - 1]
    decreases |cs|
  {
    if |cs| > 1 && cs[0] == "" {
      FlushedLast(cs[1..]);
    }
  }

  /** The last component is empty if there is a slash at the end, or nothing at all. */
  lemma {:induction false} SplitLast(s: string)
    ensures Split(s)[|Split(s)| - 1] == "" <==> s == "" || s[|s| - 1] == '/'
    decreases |s|
  {
    if s != "" {
      SplitLast(s[1..]);
    }
  }

  /** The first character behind the first slash. */
  lemma BodyFirst(a: array<char>, i: nat, cs: seq<string>)
    requires cs != [] && AllClean(cs) && Text(a, i, Body(cs))
    ensures a[i] == '/' <==> |cs| > 1 && cs[0] == ""
    ensures a[i] == '\0' <==> cs == [""]
    ensures a[i] == '/' ==> Text(a, i + 1, Body(cs[1..]))
  {
    FirstChar(a, i, Body(cs));
    if cs[0] == "" {
      assert Body(cs) == Slashed(cs[1..]);
      if |cs| > 1 {
        SlashedBody(cs[1..]);
        TextDrop(a, i, '/', Body(cs[1..]));
      }
    } else {
      assert Body(cs)[0] == cs[0][0] && cs[0][0] in cs[0];
    }
  }

  /** Behind the slash at p, the first character that is no slash. */
  method PassSlashes(a: array<char>, p: nat, ghost cs: seq<string>) returns (q: nat)
    requires cs != [] && AllClean(cs) && Text(a, p + 1, Body(cs))
    ensures p < q && Text(a, q, Body(Flushed(cs)))
  {
    q := p + 1;
    ghost var rest := cs;
    BodyFirst(a, q, rest);
    while a[q] == '/'
      invariant rest != [] && AllClean(rest) && Flushed(rest) == Flushed(cs)
      invariant p < q && Text(a, q, Body(rest)) && (a[q] == '/' <==> |rest| > 1 && rest[0] == "")
      decreases |rest|
    {
      BodyFirst(a, q, rest);
      rest := rest[1..];
      q := q + 1;
      BodyFirst(a, q, rest);
    }
  }

  /** Extra slashes are flushed, and the text behind them is shifted up. */
  method FlushSlashes(a: array<char>, p: nat, ghost stack: seq<string>, ghost cs: seq<string>)
    requires State(a, p, stack, cs)
    modifies a
    ensures State(a, p, stack, Flushed(cs))
  {
    StateTail(a, p, stack, cs);
    var q := PassSlashes(a, p, cs);
    if q != p + 1 {
      Shift(a, p + 1, q, Body(Flushed(cs)));
      assert a[..p] == old(a[..p + 1])[..p] && a[p] == old(a[..p + 1])[p];
    }
    Rejoin(a, p, stack, Flushed(cs));
  }

  /** The characters of a component and the one behind it. */
  lemma ComponentChar(a: array<char>, sp: nat, c: string, rest: seq<string>, k: nat)
    requires Text(a, sp, c + Slashed(rest)) && Clean(c) && k <= |c|
    ensures a[sp + k] == if k < |c| then c[k] else if rest == [] then '\0' else '/'
    ensures k < |c| ==> c[k] != '/' && c[k] != '\0'
  {
    var t := c + Slashed(rest);
    if rest != [] {
      SlashedBody(rest);
    }
    if k < |t| {
      assert a[sp..sp + |t|][k] == t[k];
    }
  }

  /** The component up to the next slash, which is cut off. The scan of the source looks at the second
      character first; behind an empty component that is the one behind the end of the path. Here an
      empty component ends at once, and `past` tells that the source would have looked further. */
  method CutComponent(a: array<char>, sp: nat, ghost c: string, ghost rest: seq<string>)
    returns (p: nat, slash: bool, past: bool)
    requires Text(a, sp, c + Slashed(rest)) && Clean(c) && AllClean(rest) && (c == "" ==> rest == [])
    modifies a
    ensures a[..sp] == old(a[..sp]) && Text(a, sp, c) && p == sp + |c| && slash == (rest != [])
    ensures slash ==> Text(a, p + 1, Body(rest))
    ensures past == (c == "")
  {
    p, slash := sp, false;
    ComponentChar(a, sp, c, rest, 0);
    past := a[sp] == '\0';
    if !past {
      p := ScanComponent(a, sp, c, rest);
      TextTail2(a, sp, c, Slashed(rest));
      if a[p] == '/' {
        slash := true;
        Terminate(a, sp, p, c, rest);
      }
    }
  }

  /** The slash behind a component becomes a NUL. */
  method Terminate(a: array<char>, sp: nat, p: nat, ghost c: string, ghost rest: seq<string>)
    requires Text(a, sp, c + Slashed(rest)) && rest != [] && p == sp + |c|
    modifies a
    ensures a[..sp] == old(a[..sp]) && Text(a, sp, c) && Text(a, p + 1, Body(rest))
  {
    TextTail2(a, sp, c, Slashed(rest));
    SlashedBody(rest);
    TextDrop(a, p, '/', Body(rest));
    a[p] := '\0';
    assert a[sp..sp + |c|] == c;
  }

  method ScanComponent(a: array<char>, sp: nat, ghost c: string, ghost rest: seq<string>) returns (p: nat)
    requires Text(a, sp, c + Slashed(rest)) && Clean(c) && c != ""
    ensures p == sp + |c| < a.Length && a[p] == if rest == [] then '\0' else '/'
  {
    p := sp + 1;
    ComponentChar(a, sp, c, rest, 1);
    while a[p] != '\0' && a[p] != '/'
      invariant sp < p <= sp + |c| < a.Length
      invariant a[p] == if p < sp + |c| then c[p - sp] else if rest == [] then '\0' else '/'
      invariant p < sp + |c| ==> c[p - sp] != '/' && c[p - sp] != '\0'
      decreases sp + |c| - p
    {
      p := p + 1;
      ComponentChar(a, sp, c, rest, p - sp);
    }
  }

  lemma TextTail2(a: array<char>, i: nat, x: string, t: string)
    requires Text(a, i, x + t)
    ensures i + |x| < a.Length && a[i..i + |x|] == x && Text(a, i + |x|, t) && '\0' !in x
  {
    assert a[i..i + |x + t|] == x + t;
    assert a[i..i + |x|] == (x + t)[..|x|] && a[i + |x|..i + |x| + |t|] == (x + t)[|x|..];
    forall c | c in x ensures c in x + t {
    }
    forall c | c in t ensures c in x + t {
    }
  }

  /** A component cut off behind the resolved ones: sp is its start and p its end. */
  ghost predicate Cut(a: array<char>, sp: nat, p: nat, slash: bool, stack: seq<string>, c: string, rest: seq<string>)
    reads a
  {
    AllNormal(stack) && Clean(c) && AllClean(rest) && sp == |Slashed(stack)| + 1 <= a.Length &&
    a[..sp] == Slashed(stack) + "/" && Text(a, sp, c) && p == sp + |c| && slash == (rest != []) &&
    (slash ==> Text(a, p + 1, Body(rest))) && (c == "" ==> rest == [])
  }

  /** The text behind the slash at i is what is still to do. */
  lemma Continue(a: array<char>, i: nat, stack: seq<string>, rest: seq<string>)
    requires AllNormal(stack) && AllClean(rest) && rest != [] && i == |Slashed(stack)| && i + 1 <= a.Length
    requires a[..i + 1] == Slashed(stack) + "/" && Text(a, i + 1, Body(rest))
    ensures State(a, i, stack, rest)
  {
    assert a[..i] == a[..i + 1][..i] && a[i] == a[..i + 1][i];
    Rejoin(a, i, stack, rest);
  }

  /** The case of `.`: the rest is shifted over it, or it is cut off unless it is all there is. */
  method DotCase(a: array<char>, sp: nat, p: nat, slash: bool, ghost stack: seq<string>, ghost rest: seq<string>)
    returns (q: nat)
    requires Cut(a, sp, p, slash, stack, ".", rest)
    modifies a
    ensures slash ==> State(a, q, stack, rest)
    ensures !slash ==> Done(a, q, Finish(stack, true))
  {
    NormalClean(stack);
    SlashedNoNul(stack);
    if slash {
      Shift(a, sp, p + 1, Body(rest));
      q := sp - 1;
      Continue(a, q, stack, rest);
    } else {
      q := p;
      if sp - 1 != 0 {
        CutAt(a, sp, Slashed(stack));
        StackText(stack);
      } else {
        TextJoin(a, Slashed(stack) + "/", ".");
        StackText(stack);
      }
    }
  }

  /** The path is cut off at the slash before sp. */
  method CutAt(a: array<char>, sp: nat, ghost x: string)
    requires sp == |x| + 1 <= a.Length && a[..sp] == x + "/" && '\0' !in x
    modifies a
    ensures Text(a, 0, x) && forall j :: sp <= j < a.Length ==> a[j] == old(a[j])
  {
    assert a[..sp][..|x|] == x;
    a[sp - 1] := '\0';
    assert a[0..|x|] == x;
  }

  /** Only an empty stack has no text. */
  lemma StackText(stack: seq<string>)
    ensures Slashed(stack) == "" <==> stack == []
    ensures stack != [] ==> Finish(stack, true) == Finish(stack, false) == Slashed(stack)
  {
  }

  /** The case of an empty component, which is the last: its slash goes, unless it is the root. */
  method NullCase(a: array<char>, sp: nat, p: nat, ghost stack: seq<string>) returns (root: bool)
    requires Cut(a, sp, p, false, stack, "", [])
    modifies a
    ensures Text(a, 0, Finish(stack, false)) && Done(a, p, Finish(stack, false))
  {
    NormalClean(stack);
    SlashedNoNul(stack);
    StackText(stack);
    root := sp - 1 == 0;
    if root {
      TextJoin(a, "/", "");
    } else {
      CutAt(a, sp, Slashed(stack));
    }
  }

  /** The case of a name. */
  method NameCase(a: array<char>, sp: nat, p: nat, slash: bool,
                  ghost stack: seq<string>, ghost c: string, ghost rest: seq<string>)
    requires Cut(a, sp, p, slash, stack, c, rest) && Normal(c)
    modifies a
    ensures slash ==> State(a, p, stack + [c], rest)
    ensures !slash ==> Done(a, p, Finish(stack + [c], false))
  {
    NormalClean(stack);
    SlashedNoNul(stack);
    Pushed(stack, c);
    assert a[..p] == a[..sp] + a[sp..p];
    if slash {
      a[p] := '/';
      assert a[..p + 1] == a[..p] + ['/'];
      Continue(a, p, stack + [c], rest);
    } else {
      TextJoin(a, Slashed(stack) + "/", c);
      StackText(stack + [c]);
    }
  }

  lemma Pushed(stack: seq<string>, c: string)
    ensures Slashed(stack + [c]) == Slashed(stack) + "/" + c
  {
    assert (stack + [c])[..|stack|] == stack;
  }

  /** Back from sp to the slash of the last resolved component. */
  method BackUp(a: array<char>, sp: nat, ghost stack: seq<string>) returns (q: nat)
    requires AllNormal(stack) && stack != [] && sp == |Slashed(stack)| < a.Length && a[..sp] == Slashed(stack)
    ensures q == |Slashed(stack[..|stack| - 1])| && a[..q] == Slashed(stack[..|stack| - 1]) && a[q] == '/'
  {
    var last, x := stack[|stack| - 1], Slashed(stack[..|stack| - 1]);
    assert Slashed(stack) == x + "/" + last;
    q := sp - 1;
    while a[q] != '/'
      invariant |x| <= q < sp
      decreases q
    {
      assert a[q] == a[..sp][q];
      q := q - 1;
    }
    Slash(a, sp, q, x, last);
  }

  lemma Slash(a: array<char>, sp: nat, q: nat, x: string, last: string)
    requires '/' !in last && sp == |x| + 1 + |last| <= a.Length && a[..sp] == x + "/" + last && |x| <= q < sp && a[q] == '/'
    ensures q == |x| && a[..q] == x
  {
    assert a[q] == a[..sp][q];
    assert a[..|x|] == a[..sp][..|x|];
    LastChar(x, last, q);
  }

  lemma LastChar(x: string, last: string, q: nat)
    requires |x| <= q <= |x| + |last|
    ensures (x + "/" + last)[q] == if q == |x| then '/' else last[q - |x| - 1]
  {
  }

  /** The case of `..`: what is behind it is shifted over the last resolved component. */
  method DotDotCase(a: array<char>, sp: nat, p: nat, slash: bool, ghost stack: seq<string>, ghost rest: seq<string>)
    returns (q: nat)
    requires Cut(a, sp, p, slash, stack, "..", rest)
    modifies a
    ensures slash ==> State(a, q, Step(stack, ".."), rest)
    ensures !slash ==> Done(a, q, Finish(Step(stack, ".."), false))
  {
    ghost var popped := Step(stack, "..");
    var s := PopComponent(a, sp, stack);
    PoppedOk(stack);
    if slash {
      Shift(a, s + 1, p + 1, Body(rest));
      q := s;
      Continue(a, q, popped, rest);
    } else {
      q := p;
      CutPopped(a, s, p, popped);
    }
  }

  /** The slash before the component that `..` takes away; the root stays. */
  method PopComponent(a: array<char>, sp: nat, ghost stack: seq<string>) returns (s: nat)
    requires AllNormal(stack) && sp == |Slashed(stack)| + 1 <= a.Length && a[..sp] == Slashed(stack) + "/"
    ensures s == |Slashed(Step(stack, ".."))| < sp && a[..s + 1] == Slashed(Step(stack, "..")) + "/"
  {
    StackText(stack);
    s := sp - 1;
    assert a[..s] == a[..sp][..s] && a[s] == a[..sp][s];
    if s != 0 {
      s := BackUp(a, s, stack);
    }
    assert a[..s + 1] == a[..s] + [a[s]];
  }

  lemma PoppedOk(stack: seq<string>)
    requires AllNormal(stack)
    ensures AllNormal(Step(stack, "..")) && '\0' !in Slashed(Step(stack, ".."))
  {
    NormalClean(Step(stack, ".."));
    SlashedNoNul(Step(stack, ".."));
  }

  /** The end of the text, at the root behind its slash. */
  method CutPopped(a: array<char>, s: nat, p: nat, ghost popped: seq<string>)
    requires s == |Slashed(popped)| && s + 1 < p < a.Length && a[p] == '\0' && '\0' !in Slashed(popped)
    requires a[..s + 1] == Slashed(popped) + "/"
    modifies a
    ensures Done(a, p, Finish(popped, false))
  {
    StackText(popped);
    assert a[..s] == a[..s + 1][..s] && a[s] == a[..s + 1][s];
    if s == 0 {
      a[s + 1] := '\0';
      assert a[0..1] == "/";
    } else {
      a[s] := '\0';
      assert a[0..s] == Slashed(popped);
    }
  }

  /** What a turn does to the components, seen from before the slashes were flushed. */
  lemma TurnGhost(stack: seq<string>, cs: seq<string>)
    requires cs != []
    ensures var fs := Flushed(cs); var c, rest := fs[0], fs[1..];
      fs == [c] + rest && |Slashed(rest)| < |Slashed(cs)| &&
      (rest != [] ==> CanonOf(stack, cs) == CanonOf(Step(stack, c), rest) && rest[|rest| - 1] == cs[|cs| - 1]) &&
      (rest == [] ==> CanonOf(stack, cs) == Finish(Step(stack, c), c == ".") && c == cs[|cs| - 1])
  {
    var fs := Flushed(cs);
    FlushedSame(stack, cs);
    FlushedLast(cs);
    SlashedFirst(fs);
    TurnResult(stack, fs);
  }

  /** One turn of the loop of `dcanon`. */
  method OneComponent(a: array<char>, p: nat, ghost stack: seq<string>, ghost cs: seq<string>)
    returns (q: nat, root: bool, past: bool, ghost stack1: seq<string>, ghost cs1: seq<string>)
    requires State(a, p, stack, cs)
    modifies a
    ensures past <==> cs1 == [] && cs[|cs| - 1] == ""
    ensures cs1 != [] ==> cs1[|cs1| - 1] == cs[|cs| - 1]
    ensures cs1 == [] ==> Done(a, q, CanonOf(stack, cs))
    ensures cs1 != [] ==> !root && State(a, q, stack1, cs1) && CanonOf(stack1, cs1) == CanonOf(stack, cs)
    ensures |Slashed(cs1)| < |Slashed(cs)|
  {
    FlushSlashes(a, p, stack, cs);
    ghost var fs := Flushed(cs);
    ghost var c, rest := fs[0], fs[1..];
    TurnGhost(stack, cs);
    var end, slash;
    end, slash, past := StartComponent(a, p, stack, c, rest);
    q, root := Resolve1(a, p + 1, end, slash, stack, c, rest);
    stack1, cs1 := Step(stack, c), rest;
  }

  /** What is done with a component. */
  method Resolve1(a: array<char>, sp: nat, p: nat, slash: bool, ghost stack: seq<string>, ghost c: string, ghost rest: seq<string>)
    returns (q: nat, root: bool)
    requires Cut(a, sp, p, slash, stack, c, rest)
    modifies a
    ensures rest != [] ==> !root && State(a, q, Step(stack, c), rest)
    ensures rest == [] ==> Done(a, q, Finish(Step(stack, c), c == "."))
  {
    q, root := p, false;
    FirstChar(a, sp, c);
    if a[sp] == '\0' {
      root := NullCase(a, sp, p, stack);
    } else {
      var kind := Kind(a, sp, c);
      if kind == 1 {
        q := DotCase(a, sp, p, slash, stack, rest);
      } else if kind == 2 {
        q := DotDotCase(a, sp, p, slash, stack, rest);
      } else {
        NameCase(a, sp, p, slash, stack, c, rest);
      }
    }
  }

  /** What a turn must leave. */
  lemma TurnResult(stack: seq<string>, cs: seq<string>)
    requires cs != []
    ensures |cs| > 1 ==> CanonOf(stack, cs) == CanonOf(Step(stack, cs[0]), cs[1..])
    ensures |cs| == 1 ==> CanonOf(stack, cs) == Finish(Step(stack, cs[0]), cs[0] == ".")
  {
    if |cs| > 1 {
      CanonStep(stack, cs);
    } else {
      assert cs == [cs[0]];
      CanonLast(stack, cs[0]);
    }
  }

  method StartComponent(a: array<char>, p: nat, ghost stack: seq<string>, ghost c: string, ghost rest: seq<string>)
    returns (q: nat, slash: bool, past: bool)
    requires State(a, p, stack, [c] + rest) && (c == "" ==> rest == [])
    modifies a
    ensures Cut(a, p + 1, q, slash, stack, c, rest) && past == (c == "")
  {
    ghost var cs := [c] + rest;
    StateTail(a, p, stack, cs);
    assert cs[1..] == rest;
    assert a[..p + 1] == Slashed(stack) + "/";
    q, slash, past := CutComponent(a, p + 1, c, rest);
    assert Clean(cs[0]) && forall i :: 0 <= i < |rest| ==> rest[i] == cs[i + 1];
  }

  /** 1 for `.`, 2 for `..`, and 0 for names. */
  method Kind(a: array<char>, sp: nat, ghost c: string) returns (k: nat)
    requires Text(a, sp, c) && Clean(c) && c != ""
    ensures k == if c == "." then 1 else if c == ".." then 2 else 0
  {
    CharOf(a, sp, c, 0);
    CharOf(a, sp, c, 1);
    if a[sp] == '.' && a[sp + 1] == '\0' {
      return 1;
    }
    if a[sp] == '.' && a[sp + 1] == '.' {
      CharOf(a, sp, c, 2);
      if a[sp + 2] == '\0' {
        return 2;
      }
    }
    return 0;
  }

  lemma CharOf(a: array<char>, i: nat, t: string, k: nat)
    requires Text(a, i, t) && k <= |t|
    ensures a[i + k] == if k < |t| then t[k] else '\0'
    ensures k < |t| ==> t[k] != '\0'
  {
    if k < |t| {
      assert a[i..i + |t|][k] == t[k];
    }
  }

  /** `dcanon` for a path that starts at the root, without symbolic links: the buffer holds the
      canonical path. The text from p on gets shorter with every turn. The source looks behind the
      end of the path exactly if the path ends in a slash. */
  method Dcanon(a: array<char>, ghost path: string) returns (past: bool)
    requires Text(a, 0, path) && path != "" && path[0] == '/'
    modifies a
    ensures Text(a, 0, Canon(path))
    ensures past <==> path[|path| - 1] == '/'
  {
    var p: nat := 0;
    ghost var stack, cs := [], Split(path[1..]);
    ghost var last := cs[|cs| - 1];
    StartState(a, path);
    LastComponent(path);
    past := false;
    var root := false;
    while !root && a[p] != '\0'
      invariant p < a.Length
      invariant cs == [] ==> Done(a, p, Canon(path)) && past == (last == "")
      invariant cs != [] ==> !root && State(a, p, stack, cs) && CanonOf(stack, cs) == Canon(path) && a[p] == '/'
      invariant cs != [] ==> !past && cs[|cs| - 1] == last
      decreases |Slashed(cs)|
    {
      p, root, past, stack, cs := OneComponent(a, p, stack, cs);
      if cs != [] {
        StateTail(a, p, stack, cs);
      }
    }
  }

  lemma LastComponent(path: string)
    requires path != "" && path[0] == '/'
    ensures Split(path[1..])[|Split(path[1..])| - 1] == "" <==> path[|path| - 1] == '/'
  {
    SplitLast(path[1..]);
  }

  /** For `/a/` the source looks behind the end. */
  method TrailingSlash() returns (past: bool)
    ensures past
  {
    var a := new char[] ['/', 'a', '/', '\0'];
    ghost var path := "/a/";
    assert a[0..3] == path;
    past := Dcanon(a, path);
  }

  lemma StartState(a: array<char>, path: string)
    requires Text(a, 0, path) && path != "" && path[0] == '/'
    ensures State(a, 0, [], Split(path[1..])) && a[0] == '/'
  {
    assert path == "/" + path[1..];
    forall c | c in path[1..] ensures c in path {
    }
    SplitSlashed(path[1..]);
    assert "" + path == path;
    FirstChar(a, 0, path);
  }
}
