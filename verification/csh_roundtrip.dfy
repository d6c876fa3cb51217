/** Parsing what has been printed gives the tree back. */
module CshRoundTrip {
  import opened CshSyntax
  import opened CshGroups
  import opened CshPrinting

  // ---- the filling pass over printed words ---------------------------------------------

  lemma {:induction false} FillPlain(ws: seq<Word>, i: nat, j: nat, st: Pass, specp: bool, ctx: set<Context>)
    requires i <= j <= |ws| && (forall k :: i <= k < j ==> Plain(ws[k])) && st.l == 0 && st.err == NoError
    ensures Fill(ws, i, st, specp, ctx) ==
      Fill(ws, j, st.(n := st.n + (j - i), av := st.av + ws[i..j]), specp, ctx)
    decreases j - i
  {
    if i < j {
      PlainTurn(ws, i, st, specp, ctx);
      FillPlain(ws, i + 1, j, st.(n := st.n + 1, av := st.av + [ws[i]]), specp, ctx);
      Slide(st.av, ws, i, j);
    } else {
      assert st.av + ws[i..j] == st.av;
    }
  }

  lemma PlainTurn(ws: seq<Word>, i: nat, st: Pass, specp: bool, ctx: set<Context>)
    requires i < |ws| && Plain(ws[i]) && st.l == 0 && st.err == NoError
    ensures Fill(ws, i, st, specp, ctx) == Fill(ws, i + 1, st.(n := st.n + 1, av := st.av + [ws[i]]), specp, ctx)
  {
  }

  /** Only the depth, the words and the parentheses differ. */
  predicate SameRest(st: Pass, st1: Pass) {
    st1.flags == st.flags && st1.lef == st.lef && st1.rit == st.rit && st1.err == st.err == NoError
  }

  lemma Slide<T>(a: seq<T>, ws: seq<T>, i: nat, j: nat)
    requires i < j <= |ws|
    ensures a + [ws[i]] + ws[i + 1..j] == a + ws[i..j]
  {
  }

  lemma KeptTurn(ws: seq<Word>, i: nat, st: Pass, ctx: set<Context>) returns (st1: Pass)
    requires i < |ws| && st.err == NoError && (st.l == 0 ==> Plain(ws[i]) || First(ws[i]) == '(')
    ensures Fill(ws, i, st, true, ctx) == Fill(ws, i + 1, st1, true, ctx)
    ensures SameRest(st, st1) && st1.l == st.l + Shift(ws[i]) && st1.n == st.n + 1 && st1.av == st.av + [ws[i]]
  {
    st1 := Turn(ws, i, st, true, ctx).1;
  }

  /** A keyword's command keeps its parentheses and all that is in them. */
  lemma {:induction false} FillKept(ws: seq<Word>, i: nat, j: nat, st: Pass, ctx: set<Context>) returns (st1: Pass)
    requires i <= j <= |ws| && st.l == Depth(ws[..i]) && st.err == NoError
    requires forall k :: i <= k < j && Depth(ws[..k]) == 0 ==> Plain(ws[k]) || First(ws[k]) == '('
    ensures Fill(ws, i, st, true, ctx) == Fill(ws, j, st1, true, ctx)
    ensures SameRest(st, st1) && st1.l == Depth(ws[..j]) && st1.n == st.n + (j - i) && st1.av == st.av + ws[i..j]
    decreases j - i
  {
    if i < j {
      DepthTake(ws, i);
      var st0 := KeptTurn(ws, i, st, ctx);
      st1 := FillKept(ws, i + 1, j, st0, ctx);
      Slide(st.av, ws, i, j);
    } else {
      st1 := st;
    }
  }

  /** Inside the parentheses of a group nothing is stored. */
  lemma {:induction false} FillInside(ws: seq<Word>, i: nat, j: nat, st: Pass, ctx: set<Context>)
    requires i <= j <= |ws| && st.l == Depth(ws[..i]) && forall k :: i <= k <= j ==> Depth(ws[..k]) > 0
    ensures Fill(ws, i, st, false, ctx) == Fill(ws, j, st.(l := Depth(ws[..j])), false, ctx)
    decreases j - i
  {
    if i < j {
      DepthTake(ws, i);
      assert Depth(ws[..i + 1]) > 0;
      FillInside(ws, i + 1, j, st.(l := Depth(ws[..i + 1])), ctx);
    }
  }

  lemma FillIn(ws: seq<Word>, i: nat, st: Pass, specp: bool, ctx: set<Context>, doc: bool)
    requires i + 1 < |ws| && ws[i] == (if doc then "<<" else "<") && Plain(ws[i + 1])
    requires st.l == 0 && st.lef == None && READ !in st.flags && PIN !in ctx && (doc ==> PHERE !in ctx)
    ensures Fill(ws, i, st, specp, ctx) ==
      Fill(ws, i + 2, st.(flags := st.flags + (if doc then {READ} else {}), lef := Some(ws[i + 1])), specp, ctx)
  {
    assert st.flags + {} == st.flags;
  }

  /** The words of an output redirection with the given flags. */
  predicate OutAt(ws: seq<Word>, i: nat, flags: set<Flag>, w: Word) {
    var m := Redirects(flags, None, Some(w));
    i + |m| <= |ws| && ws[i..i + |m|] == m
  }

  lemma FillOut(ws: seq<Word>, i: nat, st: Pass, specp: bool, ctx: set<Context>, flags: set<Flag>, w: Word)
    requires OutAt(ws, i, flags, w) && Plain(w) && (w == "!" ==> OVERWRITE in flags)
    requires st.l == 0 && st.rit == None && (POUT in ctx ==> PERR in ctx)
    requires STDERR in flags ==> POUT !in ctx && PERR !in ctx
    ensures Fill(ws, i, st, specp, ctx) ==
      Fill(ws, i + |Redirects(flags, None, Some(w))|,
           st.(flags := st.flags + flags * {APPEND, STDERR, OVERWRITE}, rit := Some(w)), specp, ctx)
  {
    OutWords(ws, i, flags, w);
    OutTurn(ws, i, st, ctx, flags, w);
    TurnIsOut(ws, i, st, specp, ctx);
    var j, st1 := FillTurned(ws, i, st, specp, ctx);
  }

  lemma TurnIsOut(ws: seq<Word>, i: nat, st: Pass, specp: bool, ctx: set<Context>)
    requires i < |ws| && First(ws[i]) == '>' && st.l == 0
    ensures Turn(ws, i, st, specp, ctx) == RedirectOut(ws, i, st, ctx)
  {
  }

  lemma OutWords(ws: seq<Word>, i: nat, flags: set<Flag>, w: Word)
    requires OutAt(ws, i, flags, w)
    ensures var m := Redirects(flags, None, Some(w)); forall k :: 0 <= k < |m| ==> ws[i + k] == m[k]
    ensures First(ws[i]) == '>'
  {
    var m := Redirects(flags, None, Some(w));
    forall k | 0 <= k < |m| ensures ws[i + k] == m[k] {
      assert ws[i..i + |m|][k] == ws[i + k];
    }
    assert ws[i + 0] == m[0];
  }

  lemma OutTurn(ws: seq<Word>, i: nat, st: Pass, ctx: set<Context>, flags: set<Flag>, w: Word)
    requires var m := Redirects(flags, None, Some(w));
      i + |m| <= |ws| && forall k :: 0 <= k < |m| ==> ws[i + k] == m[k]
    requires Plain(w) && (w == "!" ==> OVERWRITE in flags)
    requires st.l == 0 && st.rit == None && (POUT in ctx ==> PERR in ctx)
    requires STDERR in flags ==> POUT !in ctx && PERR !in ctx
    ensures RedirectOut(ws, i, st, ctx) ==
      (i + |Redirects(flags, None, Some(w))| - 1,
       st.(flags := st.flags + flags * {APPEND, STDERR, OVERWRITE}, rit := Some(w)))
  {
    var m := Redirects(flags, None, Some(w));
    var r := RedirectOut(ws, i, st, ctx);
    assert ws[i] == m[0] && ws[i + 1] == m[1] && ws[i + |m| - 1] == m[|m| - 1];
    assert |m| > 2 ==> ws[i + 2] == m[2];
    assert r.1.flags == st.flags + flags * {APPEND, STDERR, OVERWRITE};
  }

  lemma FillRedirects(a: seq<Word>, st: Pass, specp: bool, ctx: set<Context>,
                      flags: set<Flag>, lef: Option<Word>, rit: Option<Word>)
    requires Allowed(ctx, flags, lef, rit)
    requires st.l == 0 && st.lef == None == st.rit && st.flags <= {NOFORK}
    ensures Fill(a + Redirects(flags, lef, rit), |a|, st, specp, ctx) ==
      st.(flags := st.flags + flags, lef := lef, rit := rit)
  {
    var ws := a + Redirects(flags, lef, rit);
    if lef.Some? {
      FillBoth(a, st, specp, ctx, flags, lef.value, rit);
    } else {
      FillLast(a, st, specp, ctx, flags, rit);
      assert st.flags + flags * {APPEND, STDERR, OVERWRITE} == st.flags + flags;
    }
  }

  lemma FillBoth(a: seq<Word>, st: Pass, specp: bool, ctx: set<Context>, flags: set<Flag>, w: Word, rit: Option<Word>)
    requires Allowed(ctx, flags, Some(w), rit)
    requires st.l == 0 && st.lef == None == st.rit && st.flags <= {NOFORK}
    ensures Fill(a + Redirects(flags, Some(w), rit), |a|, st, specp, ctx) ==
      st.(flags := st.flags + flags, lef := Some(w), rit := rit)
  {
    var ws := a + Redirects(flags, Some(w), rit);
    var st1 := st.(flags := st.flags + (if READ in flags then {READ} else {}), lef := Some(w));
    var a1 := a + [if READ in flags then "<<" else "<", w];
    BothWords(a, flags, w, rit);
    FillIn(ws, |a|, st, specp, ctx, READ in flags);
    FillLast(a1, st1, specp, ctx, flags, rit);
    BothFlags(st.flags, flags);
  }

  lemma BothWords(a: seq<Word>, flags: set<Flag>, w: Word, rit: Option<Word>)
    ensures var ws, m := a + Redirects(flags, Some(w), rit), [if READ in flags then "<<" else "<", w];
      ws == (a + m) + Redirects(flags, None, rit) && |a| + 1 < |ws| && ws[|a|] == m[0] && ws[|a| + 1] == w
  {
  }

  lemma BothFlags(fs: set<Flag>, flags: set<Flag>)
    requires flags <= {APPEND, STDERR, OVERWRITE, READ}
    ensures (fs + (if READ in flags then {READ} else {})) + flags * {APPEND, STDERR, OVERWRITE} == fs + flags
  {
  }

  lemma FillLast(a: seq<Word>, st: Pass, specp: bool, ctx: set<Context>, flags: set<Flag>, rit: Option<Word>)
    requires rit.Some? ==> Plain(rit.value) && (rit.value == "!" ==> OVERWRITE in flags)
    requires rit.Some? ==> (POUT in ctx ==> PERR in ctx) && (STDERR in flags ==> POUT !in ctx && PERR !in ctx)
    requires st.l == 0 && st.rit == None && (rit.None? ==> flags <= {READ})
    ensures Fill(a + Redirects(flags, None, rit), |a|, st, specp, ctx) ==
      st.(flags := st.flags + flags * {APPEND, STDERR, OVERWRITE}, rit := rit)
  {
    var m := Redirects(flags, None, rit);
    assert (a + m)[|a|..|a| + |m|] == m;
    if rit.Some? {
      FillOut(a + m, |a|, st, specp, ctx, flags, rit.value);
    } else {
      assert st.flags + flags * {APPEND, STDERR, OVERWRITE} == st.flags;
    }
  }

  lemma {:induction false} SpecialPrefix(a: seq<Word>, m: seq<Word>)
    requires m == [] || !(Keyword(m[0]) || m[0] == "else")
    ensures Special(a + m) == Special(a)
    decreases |a|
  {
    if a == [] {
      assert a + m == m;
    } else {
      SpecialPrefix(a[1..], m);
      assert (a + m)[1..] == a[1..] + m;
    }
  }

  lemma SimpleRound(t: Command, next: Word, ctx: set<Context>)
    requires t.Simple? && Normal(t, 5, ctx)
    ensures Syn3(Print(t), next, ctx, NoError) == Parsed(Mark(t, First(next) == ')'), NoError)
  {
    var ws, n, st := Print(t), |t.words|, Start(next, NoError);
    SpecialPrefix(t.words, Redirects(t.flags, t.lef, t.rit));
    var st1 := FillWords(t, st, ctx);
    FillRedirects(t.words, st1, Special(ws), ctx, t.flags, t.lef, t.rit);
    assert Forkless(First(next) == ')') + t.flags == t.flags + Forkless(First(next) == ')');
  }

  /** The filling pass over the words of a simple command. */
  lemma FillWords(t: Command, st: Pass, ctx: set<Context>) returns (st1: Pass)
    requires t.Simple? && Normal(t, 5, ctx)
    requires st.l == 0 && st.n == 0 && st.av == [] && st.err == NoError && st.lp == None
    ensures Fill(Print(t), 0, st, Special(t.words), ctx) == Fill(Print(t), |t.words|, st1, Special(t.words), ctx)
    ensures SameRest(st, st1) && st1.l == 0 && st1.n == |t.words| && st1.av == t.words
    ensures !Special(t.words) ==> st1.lp == None
  {
    var b := Redirects(t.flags, t.lef, t.rit);
    if Special(t.words) {
      st1 := FillSpecial(t.words, b, st, ctx);
    } else {
      FillOrdinary(t.words, b, st, ctx);
      st1 := st.(n := |t.words|, av := t.words);
    }
  }

  /** The words of a keyword's command. */
  lemma FillSpecial(a: seq<Word>, b: seq<Word>, st: Pass, ctx: set<Context>) returns (st1: Pass)
    requires Kept(a) && st.l == 0 && st.n == 0 && st.av == [] && st.err == NoError
    ensures Fill(a + b, 0, st, true, ctx) == Fill(a + b, |a|, st1, true, ctx)
    ensures SameRest(st, st1) && st1.l == 0 && st1.n == |a| && st1.av == a
  {
    var ws, n := a + b, |a|;
    forall k | 0 <= k <= n ensures ws[..k] == a[..k] {
    }
    assert ws[..0] == [] && ws[0..n] == a && a[..n] == a && [] + a == a;
    st1 := FillKept(ws, 0, n, st, ctx);
  }

  /** The words of any other command. */
  lemma FillOrdinary(a: seq<Word>, b: seq<Word>, st: Pass, ctx: set<Context>)
    requires AllPlain(a) && st.l == 0 && st.n == 0 && st.av == [] && st.err == NoError
    ensures Fill(a + b, 0, st, false, ctx) == Fill(a + b, |a|, st.(n := |a|, av := a), false, ctx)
  {
    var ws, n := a + b, |a|;
    forall k | 0 <= k < n ensures Plain(ws[k]) {
      assert ws[k] == a[k];
    }
    assert ws[0..n] == a && [] + a == a;
    FillPlain(ws, 0, n, st, false, ctx);
  }

  // ---- the levels ----------------------------------------------------------------------

  /** The parse of ws at a level is the marked tree, without an error. */
  predicate Gives(r: Parsed, t: Command, next: Word) {
    r == Parsed(Mark(t, First(next) == ')'), NoError)
  }

  /** The filling pass over a printed group. */
  lemma FillGroup(t: Command, next: Word, ctx: set<Context>)
    requires t.Paren? && Normal(t, 5, ctx)
    ensures var ws := Print(t);
      !Special(ws) &&
      Fill(ws, 0, Start(next, NoError), false, ctx) ==
        Pass(0, 0, [], Forkless(First(next) == ')') + t.flags, t.lef, t.rit, Some(1), Some(|Print(t.sub)| + 1), NoError)
  {
    var a, st := Print(t.sub), Start(next, NoError);
    var group := ["("] + a + [")"];
    PrintFine(t.sub, 0, {PHERE});
    assert Print(t) == group + Redirects(t.flags, t.lef, t.rit);
    var st2 := st.(lp := Some(1), rp := Some(|a| + 1));
    FillParentheses(a, Redirects(t.flags, t.lef, t.rit), st, ctx);
    FillRedirects(group, st2, false, ctx, t.flags, t.lef, t.rit);
  }

  /** The parentheses and what is between them. */
  lemma FillParentheses(a: seq<Word>, b: seq<Word>, st: Pass, ctx: set<Context>)
    requires Balanced(a) && st.l == 0 && st.lp == None
    ensures Fill(["("] + a + [")"] + b, 0, st, false, ctx) ==
      Fill(["("] + a + [")"] + b, |a| + 2, st.(lp := Some(1), rp := Some(|a| + 1)), false, ctx)
  {
    var ws, n := ["("] + a + [")"] + b, |a| + 1;
    ShiftedDepth(a, b);
    var st1 := st.(lp := Some(1), l := 1);
    OpeningTurn(ws, st, ctx);
    assert a[..0] == [] && a[..n - 1] == a;
    FillInside(ws, 1, n, st1, ctx);
    ClosingTurn(ws, n, st1, ctx);
  }

  lemma OpeningTurn(ws: seq<Word>, st: Pass, ctx: set<Context>)
    requires ws != [] && ws[0] == "(" && st.l == 0 && st.lp == None
    ensures Fill(ws, 0, st, false, ctx) == Fill(ws, 1, st.(lp := Some(1), l := 1), false, ctx)
  {
    assert Turn(ws, 0, st, false, ctx) == (0, st.(lp := Some(1), l := 1));
  }

  lemma ClosingTurn(ws: seq<Word>, n: nat, st: Pass, ctx: set<Context>)
    requires n < |ws| && ws[n] == ")" && st.l == 1
    ensures Fill(ws, n, st, false, ctx) == Fill(ws, n + 1, st.(l := 0, rp := Some(n)), false, ctx)
  {
    assert Turn(ws, n, st, false, ctx) == (n, st.(l := 0, rp := Some(n)));
  }

  lemma ShiftedDepth(a: seq<Word>, b: seq<Word>)
    ensures forall k :: 1 <= k <= |a| + 1 ==> Depth((["("] + a + [")"] + b)[..k]) == 1 + Depth(a[..k - 1])
  {
    var ws := ["("] + a + [")"] + b;
    forall k | 1 <= k <= |a| + 1 ensures Depth(ws[..k]) == 1 + Depth(a[..k - 1]) {
      assert ws[..k] == ["("] + a[..k - 1];
      DepthAppend(["("], a[..k - 1]);
      assert ["("][..0] == [];
    }
  }

  lemma {:induction false} ParenRound(t: Command, next: Word, ctx: set<Context>)
    requires t.Paren? && Normal(t, 5, ctx)
    ensures Gives(Syn3(Print(t), next, ctx, NoError), t, next)
    decreases Size(t), 0
  {
    FillGroup(t, next, ctx);
    GroupWords(t);
    Round0(t.sub, ")", {PHERE});
    assert Forkless(First(next) == ')') + t.flags == t.flags + Forkless(First(next) == ')');
  }

  lemma GroupWords(t: Command)
    requires t.Paren?
    ensures var ws, n := Print(t), |Print(t.sub)| + 1;
      n < |ws| && ws[1..n] == Print(t.sub) && ws[n] == ")"
  {
  }

  /** The words of a node, cut where the parser cuts them. */
  lemma Cut(a: seq<Word>, m: seq<Word>, b: seq<Word>)
    requires m != []
    ensures var ws := a + m + b;
      ws[..|a|] == a && ws[|a|] == m[0] && ws[|a| + |m|..] == b && |ws| == |a| + |m| + |b|
  {
  }

  lemma FirstSeparator(a: seq<Word>, m: seq<Word>, b: seq<Word>, sep: Separator)
    requires Fine(a, RankOf(sep) + 1) && m != [] && Separates(m[0], sep)
    ensures Find(a + m + b, 0, 0, sep) == |a|
  {
    Cut(a, m, b);
    FindsFirst(a + m + b, |a|, sep);
  }

  lemma NoSeparator(ws: seq<Word>, sep: Separator)
    requires Fine(ws, RankOf(sep) + 1)
    ensures Find(ws, 0, 0, sep) == |ws|
  {
    assert ws[..|ws|] == ws;
    FindsFirst(ws, |ws|, sep);
  }

  lemma {:induction false} Round3(t: Command, next: Word, ctx: set<Context>)
    requires Normal(t, 5, ctx)
    ensures Gives(Syn3(Print(t), next, ctx, NoError), t, next)
    decreases Size(t), 1
  {
    if t.Simple? {
      SimpleRound(t, next, ctx);
    } else {
      ParenRound(t, next, ctx);
    }
  }

  lemma {:induction false} Round2(t: Command, next: Word, ctx: set<Context>)
    requires Normal(t, 4, ctx)
    ensures Gives(Syn2(Print(t), next, ctx, NoError), t, next)
    decreases Size(t), 2
  {
    if t.Node? && t.joint == PIPE {
      var a, m, b := Print(t.car), Between(PIPE, t.flags, t.car), Print(t.cdr);
      PrintFine(t.car, 5, OutContext(t, ctx));
      PrintFine(t.cdr, 4, ctx + {PIN});
      Cut(a, m, b);
      FirstSeparator(a, m, b, Bar);
      BarKind(a, t.flags, t.car, b);
      Round3(t.car, "|", OutContext(t, ctx));
      Round2(t.cdr, next, ctx + {PIN});
    } else {
      PrintFine(t, 5, ctx);
      NoSeparator(Print(t), Bar);
      Round3(t, next, ctx);
    }
  }

  lemma BarKind(a: seq<Word>, flags: set<Flag>, car: Command, b: seq<Word>)
    requires b != [] && !Skipped(b[0]) && flags <= {STDERR}
    ensures var ws := a + Between(PIPE, flags, car) + b;
      WithErrors(ws, |a|) == (STDERR in flags) && flags == (if STDERR in flags then {STDERR} else {})
  {
    var ws := a + Between(PIPE, flags, car) + b;
    assert ws[|a| + 1] == if STDERR in flags then "&" else b[0];
  }

  lemma {:induction false} Round1b(t: Command, next: Word, ctx: set<Context>)
    requires Normal(t, 3, ctx)
    ensures Gives(Syn1b(Print(t), next, ctx, NoError), t, next)
    decreases Size(t), 3
  {
    if t.Node? && t.joint == AND {
      var a, b := Print(t.car), Print(t.cdr);
      PrintFine(t.car, 4, ctx);
      Cut(a, ["&&"], b);
      FirstSeparator(a, ["&&"], b, AndAnd);
      Round2(t.car, "&&", ctx);
      Round1b(t.cdr, next, ctx);
    } else {
      PrintFine(t, 4, ctx);
      NoSeparator(Print(t), AndAnd);
      Round2(t, next, ctx);
    }
  }

  lemma {:induction false} Round1a(t: Command, next: Word, ctx: set<Context>)
    requires Normal(t, 2, ctx)
    ensures Gives(Syn1a(Print(t), next, ctx, NoError), t, next)
    decreases Size(t), 4
  {
    if t.Node? && t.joint == OR {
      var a, b := Print(t.car), Print(t.cdr);
      PrintFine(t.car, 3, ctx);
      Cut(a, ["||"], b);
      FirstSeparator(a, ["||"], b, OrOr);
      Round1b(t.car, "||", ctx);
      Round1a(t.cdr, next, ctx);
    } else {
      PrintFine(t, 3, ctx);
      NoSeparator(Print(t), OrOr);
      Round1b(t, next, ctx);
    }
  }

  lemma {:induction false} Round1(t: Command, next: Word, ctx: set<Context>)
    requires Normal(t, 1, ctx)
    ensures Gives(Syn1(Print(t), next, ctx, NoError), t, next)
    decreases Size(t), 5
  {
    if t.Node? && t.joint == LIST {
      if t.car == Null {
        EndRound(t, next, ctx);
      } else {
        ListRound(t, next, ctx);
      }
    } else {
      PrintFine(t, 2, ctx);
      NoSeparator(Print(t), Semicolon);
      Round1a(t, next, ctx);
    }
  }

  lemma {:induction false} EndRound(t: Command, next: Word, ctx: set<Context>)
    requires t.Node? && t.joint == LIST && t.car == Null && Normal(t, 1, ctx)
    ensures Gives(Syn1(Print(t), next, ctx, NoError), t, next)
    decreases Size(t), 0
  {
    var a := Print(t.cdr);
    PrintFine(t.cdr, 2, ctx);
    Cut(a, [";"], []);
    assert Print(t) == a + [";"] + [];
    FirstSeparator(a, [";"], [], Semicolon);
    Round1a(t.cdr, ";", ctx);
  }

  lemma {:induction false} ListRound(t: Command, next: Word, ctx: set<Context>)
    requires t.Node? && t.joint == LIST && t.car != Null && Normal(t, 1, ctx)
    ensures Gives(Syn1(Print(t), next, ctx, NoError), t, next)
    decreases Size(t), 0
  {
    var a, b := Print(t.car), Print(t.cdr);
    PrintFine(t.car, 2, ctx);
    PrintFine(t.cdr, 1, ctx);
    Foreground(t.car, 2, ctx);
    Foreground(t.cdr, 1, ctx);
    Cut(a, [";"], b);
    FirstSeparator(a, [";"], b, Semicolon);
    Round1a(t.car, ";", ctx);
    RestRound(t.cdr, next, ctx);
  }

  lemma {:induction false} RestRound(t: Command, next: Word, ctx: set<Context>)
    requires Normal(t, 1, ctx)
    ensures Gives(Syntax(Print(t), next, ctx, NoError), t, next)
    decreases Size(t), 6
  {
    PrintFine(t, 1, ctx);
    NoAmpersand(Print(t));
    Round1(t, next, ctx);
  }

  /** A command is put into the background as it is, a list in a group of its own. */
  lemma {:induction false} BackgroundRound(t: Command, rest: Command, next: Word, ctx: set<Context>)
    requires Normal(t, 1, ctx) && (rest == Null || Normal(rest, 0, ctx))
    ensures Syn0(Print(t) + ["&"] + Print(rest), next, ctx, NoError) ==
      Parsed(Node(LIST, {}, Background(Mark(t, false)), Mark(rest, First(next) == ')')), NoError)
    decreases Size(t) + Size(rest) + 1, 6
  {
    var a, b := Print(t), Print(rest);
    PrintFine(t, 1, ctx);
    FirstAmpersand(a, b);
    Cut(a, ["&"], b);
    Round1(t, "&", ctx);
    if rest != Null {
      PrintFine(rest, 0, ctx);
      Round0(rest, next, ctx);
    }
  }

  lemma {:induction false} Round0(t: Command, next: Word, ctx: set<Context>)
    requires Normal(t, 0, ctx)
    ensures Gives(Syn0(Print(t), next, ctx, NoError), t, next)
    decreases Size(t), 7
  {
    if t.Node? && t.joint == LIST && InBackground(t.car) {
      var front := Front(t.car);
      Higher(front, 4, 1, ctx);
      BackgroundRound(front, t.cdr, next, ctx);
      FrontSame(t.car);
      FrontMarked(t.car, ctx);
    } else {
      PrintFine(t, 1, ctx);
      NoAmpersand(Print(t));
      Round1(t, next, ctx);
    }
  }

  lemma {:induction false} Higher(t: Command, k: nat, j: nat, ctx: set<Context>)
    requires j <= k <= 5 && k >= 4 && Normal(t, k, ctx)
    ensures Normal(t, j, ctx)
    decreases k - j
  {
    if j < k {
      Higher(t, k, j + 1, ctx);
      Foreground(t, k, ctx);
    }
  }

  lemma FrontMarked(t: Command, ctx: set<Context>)
    requires InBackground(t) && Normal(Front(t), 4, ctx) && t.flags == Front(t).flags + {AMPERSAND, NOINTERRUPT}
    ensures Background(Mark(Front(t), false)) == Mark(t, false)
  {
    Foreground(Front(t), 4, ctx);
  }

  /** What is printed from a tree in normal form is parsed without error to that tree, with the
      marks for commands that end a group. */
  lemma RoundTrip(t: Command, next: Word, ctx: set<Context>)
    requires t == Null || Normal(t, 0, ctx)
    ensures Syntax(Print(t), next, ctx, NoError) == Parsed(Mark(t, First(next) == ')'), NoError)
  {
    if t != Null {
      PrintFine(t, 0, ctx);
      Round0(t, next, ctx);
    }
  }

  /** `&` binds looser than anything else: all the commands of a list, not only the last, go
      into the background together. */
  lemma AmpersandTakesList(t: Command, rest: Command, next: Word, ctx: set<Context>)
    requires Normal(t, 1, ctx) && t.Node? && t.joint != PIPE && (rest == Null || Normal(rest, 0, ctx))
    ensures Syntax(Print(t) + ["&"] + Print(rest), next, ctx, NoError) ==
      Parsed(Node(LIST, {}, Paren({AMPERSAND, NOINTERRUPT}, Mark(t, false), None, None),
                  Mark(rest, First(next) == ')')), NoError)
  {
    PrintFine(t, 1, ctx);
    BackgroundRound(t, rest, next, ctx);
  }
}
