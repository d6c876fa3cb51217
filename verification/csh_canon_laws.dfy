/** What the canonical form of a path is, by laws about its text: which components go, and with what. */
module CshCanonLaws {
  import opened CshCanon

  lemma {:induction false} ResolveAppend(stack: seq<string>, a: seq<string>, b: seq<string>)
    ensures Resolve(stack, a + b) == Resolve(Resolve(stack, a), b)
    decreases |a|
  {
    if a == [] {
      assert a + b == b;
    } else {
      assert (a + b)[0] == a[0] && (a + b)[1..] == a[1..] + b;
      ResolveAppend(Step(stack, a[0]), a[1..], b);
    }
  }

  /** The path of the components cs. */
  lemma PathOf(cs: seq<string>)
    requires AllClean(cs) && cs != []
    ensures Slashed(cs) != "" && Canon(Slashed(cs)) == Finish(Resolve([], cs), EndsInDot(cs))
  {
    NamesSplit(cs);
  }

  lemma PathOfTwo(pre: seq<string>, post: seq<string>)
    requires AllClean(pre) && AllClean(post) && post != []
    ensures Slashed(pre + post) != ""
    ensures Canon(Slashed(pre + post)) == Finish(Resolve(Resolve([], pre), post), EndsInDot(post))
  {
    PathOf(pre + post);
    ResolveAppend([], pre, post);
    assert (pre + post)[|pre + post| - 1] == post[|post| - 1];
  }

  /** Components in the middle that change no stack can go, if others are behind them. */
  lemma MiddleGoes(pre: seq<string>, mid: seq<string>, post: seq<string>)
    requires AllClean(pre) && AllClean(mid) && AllClean(post) && post != []
    requires Resolve(Resolve([], pre), mid) == Resolve([], pre)
    ensures Slashed(pre + mid + post) != "" && Slashed(pre + post) != ""
    ensures Canon(Slashed(pre + mid + post)) == Canon(Slashed(pre + post))
  {
    ResolveAppend([], pre, mid);
    PathOfTwo(pre + mid, post);
    PathOfTwo(pre, post);
  }

  /** At the end they leave the slash. */
  lemma LastGoes(pre: seq<string>, mid: seq<string>)
    requires AllClean(pre) && AllClean(mid) && mid != [] && mid[|mid| - 1] != "."
    requires Resolve(Resolve([], pre), mid) == Resolve([], pre)
    ensures Slashed(pre + mid) != "" && Slashed(pre + [""]) != ""
    ensures Canon(Slashed(pre + mid)) == Canon(Slashed(pre + [""]))
  {
    PathOfTwo(pre, mid);
    PathOfTwo(pre, [""]);
    Resolve1([""], Resolve([], pre));
  }

  lemma Resolve1(cs: seq<string>, stack: seq<string>)
    requires |cs| == 1
    ensures Resolve(stack, cs) == Step(stack, cs[0])
  {
    assert cs[1..] == [];
  }

  lemma NameAndDots(stack: seq<string>, c: string)
    requires Normal(c)
    ensures Resolve(stack, [c, ".."]) == stack
  {
    assert [c, ".."][1..] == [".."];
    Resolve1([".."], stack + [c]);
    assert (stack + [c])[..|stack|] == stack;
  }

  /** A name goes with the `..` behind it, whatever is before and behind them. */
  lemma DotDotTakesName(pre: seq<string>, c: string, post: seq<string>)
    requires AllClean(pre) && Normal(c) && AllClean(post)
    ensures Slashed(pre + [c, ".."] + post) != "" && (post != [] ==> Slashed(pre + post) != "")
    ensures post != [] ==> Canon(Slashed(pre + [c, ".."] + post)) == Canon(Slashed(pre + post))
    ensures Slashed(pre + [""]) != ""
    ensures post == [] ==> Canon(Slashed(pre + [c, ".."] + post)) == Canon(Slashed(pre + [""]))
  {
    NameAndDots(Resolve([], pre), c);
    PathOfTwo(pre, [c, ".."] + post);
    assert pre + [c, ".."] + post == pre + ([c, ".."] + post);
    PathOfTwo(pre, [""]);
    if post != [] {
      MiddleGoes(pre, [c, ".."], post);
    } else {
      assert pre + [c, ".."] + post == pre + [c, ".."];
      LastGoes(pre, [c, ".."]);
    }
  }

  /** At the root `..` goes alone. */
  lemma DotDotAtRoot(post: seq<string>)
    requires AllClean(post)
    ensures Slashed([".."] + post) != "" && (post != [] ==> Slashed(post) != "")
    ensures post != [] ==> Canon(Slashed([".."] + post)) == Canon(Slashed(post))
    ensures post == [] ==> Canon(Slashed([".."] + post)) == "/"
  {
    PathOf([".."] + post);
    Resolve1([".."], []);
    if post != [] {
      assert [] + [".."] + post == [".."] + post && [] + post == post;
      MiddleGoes([], [".."], post);
    } else {
      assert [".."] + post == [".."];
    }
  }

  /** A `.` or an empty component that is not the last goes. */
  lemma DotOrNothingGoes(pre: seq<string>, c: string, post: seq<string>)
    requires AllClean(pre) && (c == "." || c == "") && AllClean(post) && post != []
    ensures Slashed(pre + [c] + post) != "" && Slashed(pre + post) != ""
    ensures Canon(Slashed(pre + [c] + post)) == Canon(Slashed(pre + post))
  {
    Resolve1([c], Resolve([], pre));
    MiddleGoes(pre, [c], post);
  }

  /** A last `.` goes with its slash too, unless nothing else is left. */
  lemma LastDot(pre: seq<string>)
    requires AllClean(pre)
    ensures Slashed(pre + ["."]) != "" && Slashed(pre + [""]) != ""
    ensures var without := Canon(Slashed(pre + [""]));
      Canon(Slashed(pre + ["."])) == if without == "/" then "/." else without
  {
    PathOfTwo(pre, ["."]);
    PathOfTwo(pre, [""]);
    Resolve1(["."], Resolve([], pre));
    Resolve1([""], Resolve([], pre));
    ResolvedNormal([], pre);
    if Resolve([], pre) != [] {
      NotRoot(Resolve([], pre));
    }
  }

  lemma NotRoot(names: seq<string>)
    requires names != [] && AllNormal(names)
    ensures Slashed(names) != "/"
  {
    SlashedFirst(names);
    assert |Slashed(names)| >= |"/" + names[0]|;
  }

  /** A last slash goes, unless it is the root or a `.` is before it. */
  lemma LastSlash(pre: seq<string>)
    requires AllClean(pre)
    ensures Slashed(pre + [""]) != "" && (pre != [] ==> Slashed(pre) != "")
    ensures pre == [] ==> Slashed(pre + [""]) == "/" == Canon(Slashed(pre + [""]))
    ensures pre != [] && pre[|pre| - 1] != "." ==> Canon(Slashed(pre + [""])) == Canon(Slashed(pre))
  {
    PathOfTwo(pre, [""]);
    Resolve1([""], Resolve([], pre));
    if pre == [] {
      SlashedOne("");
      assert pre + [""] == [""];
    } else {
      PathOf(pre);
    }
  }

  /** Names stay as they are. */
  lemma NamesStay(names: seq<string>)
    requires names != [] && AllNormal(names)
    ensures Slashed(names) != "" && Canon(Slashed(names)) == Slashed(names)
  {
    NormalClean(names);
    NamesSplit(names);
    NamesCanon(names);
  }
}
