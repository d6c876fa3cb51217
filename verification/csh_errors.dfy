/** Which errors csh's parser reports, and for which words. */
module CshErrors {
  import opened CshSyntax
  import opened CshGroups
  import opened CshPrinting
  import opened CshOverrun

  // ---- the first error stays ---------------------------------------------------------------

  lemma {:induction false} AmpersandKeeps(ws: seq<Word>, i: nat, l: int, err: Error)
    requires i <= |ws| && err != NoError
    ensures FindAmpersand(ws, i, l, err).err == err
    decreases |ws| - i
  {
    if i < |ws| {
      AmpersandKeeps(ws, i + 1, l + Shift(ws[i]), err);
      if i + 2 <= |ws| {
        AmpersandKeeps(ws, i + 2, l, err);
      }
    }
  }

  /** An error found before is the error reported. */
  lemma {:induction false} ErrorStays(ws: seq<Word>, next: Word, ctx: set<Context>, err: Error)
    requires err != NoError
    ensures Syntax(ws, next, ctx, err).err == err
    decreases |ws|, 6
  {
    if ws != [] {
      if Skipped(ws[0]) {
        ErrorStays(ws[1..], next, ctx, err);
      } else {
        ErrorStays0(ws, next, ctx, err);
      }
    }
  }

  lemma {:induction false} ErrorStays0(ws: seq<Word>, next: Word, ctx: set<Context>, err: Error)
    requires err != NoError
    ensures Syn0(ws, next, ctx, err).err == err
    decreases |ws|, 5
  {
    AmpersandKeeps(ws, 0, 0, err);
    var s := FindAmpersand(ws, 0, 0, err);
    if s.at < |ws| {
      ErrorStays1(ws[..s.at], ws[s.at], ctx, err);
      ErrorStays(ws[s.at + 1..], next, ctx, err);
    } else {
      ErrorStays1(ws, next, ctx, err);
    }
  }

  lemma {:induction false} ErrorStays1(ws: seq<Word>, next: Word, ctx: set<Context>, err: Error)
    requires err != NoError
    ensures Syn1(ws, next, ctx, err).err == err
    decreases |ws|, 4
  {
    var p := Find(ws, 0, 0, Semicolon);
    if p < |ws| {
      ErrorStays1a(ws[..p], ws[p], ctx, err);
      ErrorStays(ws[p + 1..], next, ctx, err);
    } else {
      ErrorStays1a(ws, next, ctx, err);
    }
  }

  lemma {:induction false} ErrorStays1a(ws: seq<Word>, next: Word, ctx: set<Context>, err: Error)
    requires err != NoError
    ensures Syn1a(ws, next, ctx, err).err == err
    decreases |ws|, 3
  {
    var p := Find(ws, 0, 0, OrOr);
    if p < |ws| {
      ErrorStays1b(ws[..p], ws[p], ctx, err);
      ErrorStays1a(ws[p + 1..], next, ctx, err);
    } else {
      ErrorStays1b(ws, next, ctx, err);
    }
  }

  lemma {:induction false} ErrorStays1b(ws: seq<Word>, next: Word, ctx: set<Context>, err: Error)
    requires err != NoError
    ensures Syn1b(ws, next, ctx, err).err == err
    decreases |ws|, 2
  {
    var p := Find(ws, 0, 0, AndAnd);
    if p < |ws| {
      ErrorStays2(ws[..p], ws[p], ctx, err);
      ErrorStays1b(ws[p + 1..], next, ctx, err);
    } else {
      ErrorStays2(ws, next, ctx, err);
    }
  }

  lemma {:induction false} ErrorStays2(ws: seq<Word>, next: Word, ctx: set<Context>, err: Error)
    requires err != NoError
    ensures Syn2(ws, next, ctx, err).err == err
    decreases |ws|, 1
  {
    var p := Find(ws, 0, 0, Bar);
    if p < |ws| {
      var both := WithErrors(ws, p);
      ErrorStays3(ws[..p], ws[p], ctx + {POUT} + (if both then {PERR} else {}), err);
      ErrorStays2(ws[if both then p + 2 else p + 1..], next, ctx + {PIN}, err);
    } else {
      ErrorStays3(ws, next, ctx, err);
    }
  }

  lemma {:induction false} ErrorStays3(ws: seq<Word>, next: Word, ctx: set<Context>, err: Error)
    requires err != NoError
    ensures Syn3(ws, next, ctx, err).err == err
    decreases |ws|, 0
  {
    var st := Fill(ws, 0, Start(next, err), Special(ws), ctx);
    FillFails(ws, 0, Start(next, err), Special(ws), ctx);
    if Grouped(st, |ws|) {
      ErrorStays0(ws[st.lp.value..st.rp.value], ws[st.rp.value], {PHERE}, err);
    }
  }

  // ---- parentheses that do not match -------------------------------------------------------------

  /** No parenthesis closes before it opens, up to word n. */
  predicate Opened(ws: seq<Word>, n: nat)
    requires n <= |ws|
  {
    forall j :: 0 <= j <= n ==> Depth(ws[..j]) >= 0
  }

  /** The loop of `syn0` reports a parenthesis too many exactly if there is one in front of where it stops. */
  lemma {:induction false} TooManyFrom(ws: seq<Word>, i: nat, err: Error)
    requires i <= |ws| && Opened(ws, i) && err == NoError
    ensures var s := FindAmpersand(ws, i, Depth(ws[..i]), err);
      s.err == if Opened(ws, s.at) then NoError else TooManyRP
    decreases |ws| - i
  {
    if i < |ws| && !(First(ws[i]) == '&' && Depth(ws[..i]) == 0 && Second(ws[i]) != '&') {
      var j, err1 := AmpersandTurn(ws, i, err);
      OpenedTurn(ws, i, j);
      if err1 == NoError {
        TooManyFrom(ws, j, NoError);
      } else {
        AmpersandKeeps(ws, j, Depth(ws[..j]), err1);
        assert Depth(ws[..i + 1]) < 0;
      }
    }
  }

  /** A word goes below only if it is a closing parenthesis, and an `&` behind it does not. */
  lemma OpenedTurn(ws: seq<Word>, i: nat, j: nat)
    requires i < |ws| && Opened(ws, i) && j == (if AmpersandTaken(ws, i) then i + 2 else i + 1)
    ensures j <= |ws| && Depth(ws[..i + 1]) == Depth(ws[..i]) + Shift(ws[i])
    ensures Opened(ws, j) <==> !(First(ws[i]) == ')' && Depth(ws[..i]) - 1 < 0)
  {
    DepthTake(ws, i);
    if j == i + 2 {
      DepthTake(ws, i + 1);
    }
  }

  /** Words that are accepted have matching parentheses, none closing first. */
  lemma {:induction false} AcceptedBalanced(ws: seq<Word>, next: Word, ctx: set<Context>, err: Error)
    requires Syntax(ws, next, ctx, err).err == NoError
    ensures err == NoError && Depth(ws) == 0 && Opened(ws, |ws|)
    decreases |ws|, 1
  {
    if err != NoError {
      ErrorStays(ws, next, ctx, err);
    }
    if ws != [] {
      if Skipped(ws[0]) {
        AcceptedBalanced(ws[1..], next, ctx, err);
        assert ws == [ws[0]] + ws[1..];
        OpenedAppend([ws[0]], ws[1..]);
      } else {
        AcceptedLists(ws, next, ctx, err);
      }
    }
  }

  lemma {:induction false} AcceptedLists(ws: seq<Word>, next: Word, ctx: set<Context>, err: Error)
    requires Syn0(ws, next, ctx, err).err == NoError && err == NoError
    ensures Depth(ws) == 0 && Opened(ws, |ws|)
    decreases |ws|, 0
  {
    var s := FindAmpersand(ws, 0, 0, err);
    assert ws[..0] == [];
    TooManyFrom(ws, 0, err);
    AmpersandDepth(ws, 0, err);
    if s.at < |ws| {
      var car := Syn1(ws[..s.at], ws[s.at], ctx, s.err);
      if s.err != NoError {
        ErrorStays1(ws[..s.at], ws[s.at], ctx, s.err);
      }
      AcceptedBalanced(ws[s.at + 1..], next, ctx, car.err);
      AroundAmpersand(ws, s.at, err);
    } else if s.l == 0 {
      assert ws[..s.at] == ws;
      if s.err != NoError {
        ErrorStays1(ws, next, ctx, s.err);
      }
    }
  }

  lemma AroundAmpersand(ws: seq<Word>, p: nat, err: Error)
    requires p == FindAmpersand(ws, 0, 0, err).at < |ws| && Depth(ws[..p]) == 0 && Opened(ws, p)
    requires Depth(ws[p + 1..]) == 0 && Opened(ws[p + 1..], |ws| - p - 1)
    ensures Depth(ws) == 0 && Opened(ws, |ws|)
  {
    StopsAtAmpersand(ws, 0, 0, err);
    DepthTake(ws, p);
    assert ws == ws[..p + 1] + ws[p + 1..];
    var front := ws[..p + 1];
    forall j | 0 <= j <= p + 1 ensures Depth(front[..j]) >= 0 {
      assert front[..j] == ws[..j];
    }
    OpenedAppend(front, ws[p + 1..]);
  }

  lemma {:induction false} StopsAtAmpersand(ws: seq<Word>, i: nat, l: int, err: Error)
    requires i <= |ws|
    ensures var s := FindAmpersand(ws, i, l, err); s.at < |ws| ==> Shift(ws[s.at]) == 0
    decreases |ws| - i
  {
    if i < |ws| {
      StopsAtAmpersand(ws, i + 1, l + 1, err);
      StopsAtAmpersand(ws, i + 1, l - 1, if l - 1 < 0 then SetError(err, TooManyRP) else err);
      StopsAtAmpersand(ws, i + 1, l, err);
      if i + 2 <= |ws| {
        StopsAtAmpersand(ws, i + 2, l, err);
      }
    }
  }

  lemma OpenedAppend(a: seq<Word>, b: seq<Word>)
    requires Depth(a) == 0 && Depth(b) == 0 && Opened(a, |a|) && Opened(b, |b|)
    ensures Depth(a + b) == 0 && Opened(a + b, |a + b|)
  {
    DepthAppend(a, b);
    forall j | 0 <= j <= |a + b| ensures Depth((a + b)[..j]) >= 0 {
      if j <= |a| {
        assert (a + b)[..j] == a[..j];
      } else {
        assert (a + b)[..j] == a + b[..j - |a|];
        DepthAppend(a, b[..j - |a|]);
      }
    }
  }

  /** Words that put nothing into the background: a parenthesis that closes first is the error, or else
      one that is not closed, and then there is no tree. */
  lemma UnmatchedReported(ws: seq<Word>, next: Word, ctx: set<Context>)
    requires ws != [] && !Skipped(ws[0]) && Amp(ws, 0) == |ws|
    ensures var r := Syntax(ws, next, ctx, NoError);
      if !Opened(ws, |ws|) then r.err == TooManyRP
      else if Depth(ws) != 0 then r == Parsed(Null, TooManyLP)
      else r == Syn1(ws, next, ctx, NoError)
  {
    assert ws[..0] == [] && ws[..|ws|] == ws;
    AmpersandFirst(ws, 0, NoError);
    TooManyFrom(ws, 0, NoError);
    AmpersandDepth(ws, 0, NoError);
    if !Opened(ws, |ws|) {
      ErrorStays1(ws, next, ctx, TooManyRP);
    }
  }

  // ---- redirections and groups that are not allowed -------------------------------------------------

  /** A word that is no keyword, operator or redirection. */
  predicate Ordinary(w: Word) { Plain(w) && w != "!" && w != "else" && !Keyword(w) }

  /** The state of the filling pass behind a command word. */
  function Named(next: Word, x: Word): Pass {
    Start(next, NoError).(n := 1, av := [x])
  }

  lemma CommandWord(ws: seq<Word>, next: Word, ctx: set<Context>)
    requires ws != [] && Ordinary(ws[0])
    ensures !Special(ws) && Fill(ws, 0, Start(next, NoError), false, ctx) == Fill(ws, 1, Named(next, ws[0]), false, ctx)
  {
    assert [] + [ws[0]] == [ws[0]];
  }

  /** The error of a command with words and without a group is that of the filling pass. */
  lemma CommandError(ws: seq<Word>, next: Word, ctx: set<Context>)
    requires !Special(ws)
    ensures var st := Fill(ws, 0, Start(next, NoError), false, ctx);
      st.lp.None? && st.n > 0 ==> Syn3(ws, next, ctx, NoError).err == st.err
  {
  }

  /** A redirection without a name. */
  lemma NameMissing(x: Word, r: Word, next: Word, ctx: set<Context>)
    requires Ordinary(x) && (r == "<" || r == ">")
    ensures Syn3([x, r], next, ctx, NoError).err == MisRed
  {
    var ws := [x, r];
    CommandWord(ws, next, ctx);
    var j, st := FillTurned(ws, 1, Named(next, x), false, ctx);
    CommandError(ws, next, ctx);
  }

  /** A parenthesis or another redirection in the place of the name. */
  lemma NameTaken(x: Word, r: Word, p: Word, next: Word, ctx: set<Context>)
    requires Ordinary(x) && (r == "<" || r == ">") && RelPar(p)
    ensures Syn3([x, r, p], next, ctx, NoError).err == MisRed
  {
    var ws := [x, r, p];
    CommandWord(ws, next, ctx);
    var j, st := FillTurned(ws, 1, Named(next, x), false, ctx);
    CommandError(ws, next, ctx);
  }

  /** Input is redirected in a pipe, or a second time. */
  lemma InputInPipe(x: Word, y: Word, next: Word, ctx: set<Context>)
    requires Ordinary(x) && Ordinary(y)
    ensures Syn3([x, "<", y], next, ctx, NoError).err == if PIN in ctx then InRed else NoError
  {
    var ws := [x, "<", y];
    CommandWord(ws, next, ctx);
    var j, st := FillTurned(ws, 1, Named(next, x), false, ctx);
    CommandError(ws, next, ctx);
  }

  lemma InputTwice(x: Word, y: Word, z: Word, next: Word, ctx: set<Context>)
    requires Ordinary(x) && Ordinary(y) && Ordinary(z)
    ensures Syn3([x, "<", y, "<", z], next, ctx, NoError).err == InRed
  {
    var ws := [x, "<", y, "<", z];
    CommandWord(ws, next, ctx);
    var j, st := FillTurned(ws, 1, Named(next, x), false, ctx);
    var k, st1 := FillTurned(ws, 3, st, false, ctx);
    CommandError(ws, next, ctx);
  }

  /** A here document inside parentheses. */
  lemma HereInGroup(x: Word, y: Word, next: Word, ctx: set<Context>)
    requires Ordinary(x) && Ordinary(y) && PIN !in ctx
    ensures Syn3([x, "<<", y], next, ctx, NoError).err == if PHERE in ctx then RedPar else NoError
  {
    var ws := [x, "<<", y];
    CommandWord(ws, next, ctx);
    var j, st := FillTurned(ws, 1, Named(next, x), false, ctx);
    CommandError(ws, next, ctx);
  }

  /** Output is redirected in front of a bar. In front of `|&` one redirection is taken all the same. */
  lemma OutputInPipe(x: Word, y: Word, next: Word, ctx: set<Context>)
    requires Ordinary(x) && Ordinary(y)
    ensures Syn3([x, ">", y], next, ctx, NoError).err == if POUT in ctx && PERR !in ctx then OutRed else NoError
    ensures Syn3([x, ">", "&", y], next, ctx, NoError).err == if POUT in ctx || PERR in ctx then OutRed else NoError
  {
    var ws, vs := [x, ">", y], [x, ">", "&", y];
    CommandWord(ws, next, ctx);
    var j, st := FillTurned(ws, 1, Named(next, x), false, ctx);
    CommandError(ws, next, ctx);
    CommandWord(vs, next, ctx);
    var k, st1 := FillTurned(vs, 1, Named(next, x), false, ctx);
    if k < |vs| {
      var n, st2 := FillTurned(vs, k, st1, false, ctx);
    }
    CommandError(vs, next, ctx);
  }

  /** The second of two redirections of the output counts, except in front of a bar. */
  lemma OutputTwice(x: Word, y: Word, z: Word, next: Word, ctx: set<Context>)
    requires Ordinary(x) && Ordinary(y) && Ordinary(z)
    ensures var r := Syn3([x, ">", y, ">", z], next, ctx, NoError);
      if POUT in ctx then r.err == OutRed else r.err == NoError && r.t.Simple? && r.t.rit == Some(z)
  {
    var ws := [x, ">", y, ">", z];
    CommandWord(ws, next, ctx);
    var j, st := FillTurned(ws, 1, Named(next, x), false, ctx);
    var k, st1 := FillTurned(ws, 3, st, false, ctx);
    CommandError(ws, next, ctx);
  }

  /** There is no command. */
  lemma NoCommand(y: Word, next: Word, ctx: set<Context>)
    requires Ordinary(y) && PIN !in ctx
    ensures Syn3([], next, ctx, NoError).err == NullCom == Syn3(["<", y], next, ctx, NoError).err
  {
    var ws := ["<", y];
    var j, st := FillTurned(ws, 0, Start(next, NoError), false, ctx);
  }

  /** Words behind a group, and a second group. */
  lemma GroupAndWord(x: Word, y: Word, next: Word, ctx: set<Context>)
    requires Ordinary(x) && Ordinary(y)
    ensures Syn3(["(", x, ")", y], next, ctx, NoError).err == BadPlpS
  {
    var ws := ["(", x, ")", y];
    var i, st := FillTurned(ws, 0, Start(next, NoError), false, ctx);
    var j, st1 := FillTurned(ws, 1, st, false, ctx);
    var k, st2 := FillTurned(ws, 2, st1, false, ctx);
    var l, st3 := FillTurned(ws, 3, st2, false, ctx);
    ErrorStays0(ws[1..2], ws[2], {PHERE}, BadPlpS);
  }

  lemma TwoGroups(x: Word, y: Word, next: Word, ctx: set<Context>)
    requires Ordinary(x) && Ordinary(y)
    ensures Syn3(["(", x, ")", "(", y, ")"], next, ctx, NoError).err == BadPlp
  {
    var ws := ["(", x, ")", "(", y, ")"];
    var i, st := FillTurned(ws, 0, Start(next, NoError), false, ctx);
    var j, st1 := FillTurned(ws, 1, st, false, ctx);
    var k, st2 := FillTurned(ws, 2, st1, false, ctx);
    var l, st3 := FillTurned(ws, 3, st2, false, ctx);
    var m, st4 := FillTurned(ws, 4, st3, false, ctx);
    var n, st5 := FillTurned(ws, 5, st4, false, ctx);
    ErrorStays0(ws[4..5], ws[5], {PHERE}, BadPlp);
  }

  /** The commands whose words may be in parentheses; for any other word these make a group of them. */
  lemma WordsInParentheses(w: Word, x: Word, next: Word, ctx: set<Context>)
    requires Plain(w) && w != "else" && Ordinary(x)
    ensures var r := Syn3([w, "(", x, ")"], next, ctx, NoError);
      if w == "exit" || w == "foreach" || w == "if" || w == "@" || w == "set" || w == "switch" || w == "while" then
        r == Parsed(Simple(if First(next) == ')' then {NOFORK} else {}, [w, "(", x, ")"], None, None), NoError)
      else r.err == BadPlpS
  {
    var ws := [w, "(", x, ")"];
    var specp := Special(ws);
    var i, st := FillTurned(ws, 0, Start(next, NoError), specp, ctx);
    var j, st1 := FillTurned(ws, 1, st, specp, ctx);
    var k, st2 := FillTurned(ws, 2, st1, specp, ctx);
    var l, st3 := FillTurned(ws, 3, st2, specp, ctx);
    if specp {
      assert [] + [w] + ["("] + [x] + [")"] == ws;
    } else {
      ErrorStays0(ws[2..3], ws[3], {PHERE}, BadPlpS);
    }
  }
}
