/** When a group in parentheses is read within its range. */
module CshGroups {
  import opened CshSyntax

  /** Opening minus closing parentheses. */
  function Depth(ws: seq<Word>): int
    decreases |ws|
  {
    if ws == [] then 0 else Depth(ws[..|ws| - 1]) + Shift(ws[|ws| - 1])
  }

  lemma {:induction false} DepthAppend(a: seq<Word>, b: seq<Word>)
    ensures Depth(a + b) == Depth(a) + Depth(b)
    decreases |b|
  {
    if b == [] {
      assert a + b == a;
    } else {
      DepthAppend(a, b[..|b| - 1]);
      assert (a + b)[..|a + b| - 1] == a + b[..|b| - 1];
    }
  }

  lemma DepthSplit(ws: seq<Word>, p: nat)
    requires p < |ws|
    ensures Depth(ws) == Depth(ws[..p]) + Shift(ws[p]) + Depth(ws[p + 1..])
  {
    assert ws == ws[..p] + [ws[p]] + ws[p + 1..];
    DepthAppend(ws[..p] + [ws[p]], ws[p + 1..]);
    DepthAppend(ws[..p], [ws[p]]);
    assert [ws[p]][..0] == [];
  }

  lemma DepthTake(ws: seq<Word>, i: nat)
    requires i < |ws|
    ensures Depth(ws[..i + 1]) == Depth(ws[..i]) + Shift(ws[i])
  {
    assert ws[..i + 1][..i] == ws[..i];
  }

  /** Separators are only found where the depth is zero. */
  lemma {:induction false} FindDepth(ws: seq<Word>, i: nat, sep: Separator)
    requires i <= |ws|
    ensures var p := Find(ws, i, Depth(ws[..i]), sep); p < |ws| ==> Depth(ws[..p]) == 0 && Separates(ws[p], sep)
    decreases |ws| - i
  {
    if i < |ws| {
      DepthTake(ws, i);
      FindDepth(ws, i + 1, sep);
    }
  }

  /** Both halves around a separator have depth zero. */
  lemma Halves(ws: seq<Word>, sep: Separator)
    requires Depth(ws) == 0
    ensures var p := Find(ws, 0, 0, sep);
      p < |ws| ==> Separates(ws[p], sep) && Depth(ws[..p]) == 0 == Depth(ws[p + 1..])
  {
    FindDepth(ws, 0, sep);
    var p := Find(ws, 0, 0, sep);
    if p < |ws| {
      DepthSplit(ws, p);
    }
  }

  /** The `&` after word i belongs to that word. */
  predicate AmpersandTaken(ws: seq<Word>, i: nat)
    requires i < |ws|
  {
    Redirecting(ws[i]) && i + 1 < |ws| && ws[i + 1] == "&"
  }

  function AmpersandError(w: Word, l: int, err: Error): Error {
    if First(w) == ')' && l - 1 < 0 then SetError(err, TooManyRP) else err
  }

  /** A turn of the loop of `syn0` that does not stop it. */
  lemma AmpersandTurn(ws: seq<Word>, i: nat, err: Error) returns (j: nat, err1: Error)
    requires i < |ws| && !(First(ws[i]) == '&' && Depth(ws[..i]) == 0 && Second(ws[i]) != '&')
    ensures j == (if AmpersandTaken(ws, i) then i + 2 else i + 1) <= |ws| && (err1 == NoError ==> err == NoError)
    ensures FindAmpersand(ws, i, Depth(ws[..i]), err) == FindAmpersand(ws, j, Depth(ws[..j]), err1)
    ensures err1 == if AmpersandTaken(ws, i) then err else AmpersandError(ws[i], Depth(ws[..i]), err)
  {
    DepthTake(ws, i);
    if AmpersandTaken(ws, i) {
      DepthTake(ws, i + 1);
      j, err1 := i + 2, err;
    } else {
      j, err1 := i + 1, AmpersandError(ws[i], Depth(ws[..i]), err);
    }
  }

  lemma {:induction false} AmpersandDepth(ws: seq<Word>, i: nat, err: Error)
    requires i <= |ws|
    ensures var s := FindAmpersand(ws, i, Depth(ws[..i]), err);
      s.l == Depth(ws[..s.at]) && (s.at < |ws| ==> s.l == 0) && (s.err == NoError ==> err == NoError)
    decreases |ws| - i
  {
    if i < |ws| && !(First(ws[i]) == '&' && Depth(ws[..i]) == 0 && Second(ws[i]) != '&') {
      var j, err1 := AmpersandTurn(ws, i, err);
      AmpersandDepth(ws, j, err1);
    }
  }

  // ---- the parentheses of syn3 ---------------------------------------------------------

  /** The last opening parenthesis at depth zero, and the one that closed it if it is closed. */
  predicate Brackets(st: Pass, i: nat) {
    (st.lp.Some? ==> st.lp.value <= i) && (st.rp.Some? ==> st.rp.value < i) &&
    (st.lp.Some? && st.l <= 0 ==> st.rp.Some? && st.lp.value <= st.rp.value) &&
    (st.l > 0 ==> st.lp.Some? && (st.rp.Some? ==> st.rp.value < st.lp.value))
  }

  lemma TurnBrackets(ws: seq<Word>, i: nat, st: Pass, specp: bool, ctx: set<Context>)
    requires i < |ws| && Brackets(st, i)
    ensures var r := Turn(ws, i, st, specp, ctx); Brackets(r.1, r.0 + 1)
  {
  }

  lemma {:induction false} FillBrackets(ws: seq<Word>, i: nat, st: Pass, specp: bool, ctx: set<Context>)
    requires i <= |ws| && Brackets(st, i)
    ensures Brackets(Fill(ws, i, st, specp, ctx), |ws|)
    decreases |ws| - i
  {
    if i < |ws| {
      var r := Turn(ws, i, st, specp, ctx);
      TurnBrackets(ws, i, st, specp, ctx);
      FillBrackets(ws, r.0 + 1, r.1, specp, ctx);
    }
  }

  /** The group `syn3` goes on to read is within its range exactly if the filling pass does not
      end inside parentheses. */
  lemma GroupClosedIff(ws: seq<Word>, next: Word, ctx: set<Context>, err: Error)
    ensures var st := Fill(ws, 0, Start(next, err), Special(ws), ctx);
      st.lp.Some? ==> (Grouped(st, |ws|) <==> st.l <= 0)
  {
    FillBrackets(ws, 0, Start(next, err), Special(ws), ctx);
  }

  lemma {:induction false} LevelKept(ws: seq<Word>, i: nat, j: nat)
    requires i <= j <= |ws| && forall k :: i <= k < j ==> Shift(ws[k]) == 0
    ensures Depth(ws[..j]) == Depth(ws[..i])
    decreases j - i
  {
    if i < j {
      DepthTake(ws, j - 1);
      LevelKept(ws, i, j - 1);
    }
  }

  /** A turn that finds no error takes no parenthesis but the one it counts. */
  lemma TurnTakes(ws: seq<Word>, i: nat, st: Pass, specp: bool, ctx: set<Context>)
    requires i < |ws| && Turn(ws, i, st, specp, ctx).1.err == NoError
    ensures var r := Turn(ws, i, st, specp, ctx);
      st.err == NoError && r.1.l == st.l + Shift(ws[i]) && forall k :: i < k <= r.0 ==> Shift(ws[k]) == 0
  {
    if st.err != NoError {
      TurnFails(ws, i, st, specp, ctx);
    }
  }

  lemma TurnLevel(ws: seq<Word>, i: nat, st: Pass, specp: bool, ctx: set<Context>)
    requires i < |ws| && st.l == Depth(ws[..i])
    ensures var r := Turn(ws, i, st, specp, ctx);
      r.1.err == NoError ==> st.err == NoError && r.1.l == Depth(ws[..r.0 + 1])
  {
    var r := Turn(ws, i, st, specp, ctx);
    if r.1.err == NoError {
      TurnTakes(ws, i, st, specp, ctx);
      DepthTake(ws, i);
      LevelKept(ws, i + 1, r.0 + 1);
    }
  }

  /** A turn of the filling pass, which without an error keeps the depth the words have. */
  lemma LevelTurn(ws: seq<Word>, i: nat, st: Pass, specp: bool, ctx: set<Context>) returns (j: nat, st1: Pass)
    requires i < |ws| && (st.err == NoError ==> st.l == Depth(ws[..i]))
    ensures i < j <= |ws| && Fill(ws, i, st, specp, ctx) == Fill(ws, j, st1, specp, ctx)
    ensures st1.err == NoError ==> st.err == NoError && st1.l == Depth(ws[..j])
  {
    var r := Turn(ws, i, st, specp, ctx);
    j, st1 := r.0 + 1, r.1;
    if st.err == NoError {
      TurnLevel(ws, i, st, specp, ctx);
    } else {
      TurnFails(ws, i, st, specp, ctx);
    }
  }

  lemma {:induction false} FillLevel(ws: seq<Word>, i: nat, st: Pass, specp: bool, ctx: set<Context>)
    requires i <= |ws| && (st.err == NoError ==> st.l == Depth(ws[..i]))
    ensures var r := Fill(ws, i, st, specp, ctx); r.err == NoError ==> st.err == NoError && r.l == Depth(ws)
    decreases |ws| - i
  {
    if i == |ws| {
      assert ws[..i] == ws;
    } else {
      var j, st1 := LevelTurn(ws, i, st, specp, ctx);
      FillLevel(ws, j, st1, specp, ctx);
    }
  }

  /** Without an error the group is closed: the parser never leaves the words it was given. */
  lemma GroupClosed(ws: seq<Word>, next: Word, ctx: set<Context>, err: Error)
    requires Depth(ws) == 0
    ensures var st := Fill(ws, 0, Start(next, err), Special(ws), ctx);
      st.err == NoError ==> err == NoError && (st.lp.Some? ==> Grouped(st, |ws|))
  {
    FillLevel(ws, 0, Start(next, err), Special(ws), ctx);
    GroupClosedIff(ws, next, ctx, err);
  }

  /** Words without any separator outside parentheses are one command. */
  lemma PassedDown(ws: seq<Word>, next: Word, ctx: set<Context>, err: Error)
    requires forall sep :: Find(ws, 0, 0, sep) == |ws|
    ensures Syn1(ws, next, ctx, err) == Syn3(ws, next, ctx, err)
  {
    assert Syn2(ws, next, ctx, err) == Syn3(ws, next, ctx, err);
    assert Syn1a(ws, next, ctx, err) == Syn1b(ws, next, ctx, err) == Syn2(ws, next, ctx, err);
  }

  /** `x > ) ( b` */
  predicate Stray(ws: seq<Word>) {
    ws == ["x", ">", ")", "(", "b"]
  }

  function StrayPass(): Pass { Pass(0, 1, [], {}, None, None, None, None, TooManyRP) }

  function StrayEnd(): Pass { Pass(1, 1, [], {}, None, None, Some(4), None, TooManyRP) }

  lemma StrayStart(ws: seq<Word>)
    requires Stray(ws)
    ensures Turn(ws, 0, Start("\n", TooManyRP), false, {}) == (0, StrayPass())
    ensures Turn(ws, 1, StrayPass(), false, {}) == (2, StrayPass())
  {
  }

  lemma StrayGroup(ws: seq<Word>)
    requires Stray(ws)
    ensures Fill(ws, 3, StrayPass(), false, {}) == StrayEnd()
  {
    assert Turn(ws, 3, StrayPass(), false, {}) == (3, StrayEnd());
    assert Turn(ws, 4, StrayEnd(), false, {}) == (4, StrayEnd());
    assert Fill(ws, 4, StrayEnd(), false, {}) == StrayEnd();
  }

  lemma StraySyn3(ws: seq<Word>)
    requires Stray(ws)
    ensures Syn3(ws, "\n", {}, TooManyRP) == Parsed(Paren({}, Astray, None, None), TooManyRP)
  {
    StrayStart(ws);
    StrayGroup(ws);
    assert Fill(ws, 1, StrayPass(), false, {}) == StrayEnd();
    assert !Special(ws) && Fill(ws, 0, Start("\n", TooManyRP), false, {}) == StrayEnd();
  }

  lemma StraySeparators(ws: seq<Word>, sep: Separator)
    requires Stray(ws)
    ensures Find(ws, 0, 0, sep) == 5
  {
    assert Find(ws, 4, 0, sep) == 5;
    assert Find(ws, 2, 0, sep) == 5;
  }

  lemma StrayAmpersand(ws: seq<Word>)
    requires Stray(ws)
    ensures FindAmpersand(ws, 0, 0, NoError) == Stop(5, 0, TooManyRP) && Depth(ws) == 0
  {
    assert FindAmpersand(ws, 4, 0, TooManyRP) == Stop(5, 0, TooManyRP);
    assert FindAmpersand(ws, 2, 0, NoError) == Stop(5, 0, TooManyRP);
    AmpersandDepth(ws, 0, NoError);
    assert ws[..0] == [] && ws[..5] == ws;
  }

  /** With an error it need not be: here the source reads past the end of the range for ever,
      because its list of words is circular and the group has no end. */
  lemma GroupLeftOpen(ws: seq<Word>)
    requires ws == ["x", ">", ")", "(", "b"]
    ensures Depth(ws) == 0 && Syntax(ws, "\n", {}, NoError) == Parsed(Paren({}, Astray, None, None), TooManyRP)
  {
    StrayAmpersand(ws);
    StraySyn3(ws);
    forall sep ensures Find(ws, 0, 0, sep) == 5 {
      StraySeparators(ws, sep);
    }
    PassedDown(ws, "\n", {}, TooManyRP);
    assert Syn0(ws, "\n", {}, NoError) == Syn1(ws, "\n", {}, TooManyRP);
  }

  // ---- every accepted line -------------------------------------------------------------

  predicate Sane(t: Command) {
    match t
    case Null => true
    case Astray => false
    case Simple(_, _, _, _) => true
    case Paren(_, sub, _, _) => Sane(sub)
    case Node(_, _, car, cdr) => Sane(car) && Sane(cdr)
  }

  /** If there is no error afterwards there was none before, and the tree is whole. */
  predicate Whole(r: Parsed, err: Error) {
    r.err == NoError ==> err == NoError && Sane(r.t)
  }

  /** Whatever words are given: a parse without errors has read nothing but those words. */
  lemma {:induction false} AcceptedWhole(ws: seq<Word>, next: Word, ctx: set<Context>, err: Error)
    ensures Whole(Syntax(ws, next, ctx, err), err)
    decreases |ws|, 6
  {
    if ws != [] {
      if Skipped(ws[0]) {
        AcceptedWhole(ws[1..], next, ctx, err);
      } else {
        Whole0(ws, next, ctx, err);
      }
    }
  }

  lemma {:induction false} Whole0(ws: seq<Word>, next: Word, ctx: set<Context>, err: Error)
    ensures Whole(Syn0(ws, next, ctx, err), err)
    decreases |ws|, 5
  {
    AmpersandDepth(ws, 0, err);
    var s := FindAmpersand(ws, 0, 0, err);
    if s.at < |ws| {
      Whole1(ws[..s.at], ws[s.at], ctx, s.err);
      AcceptedWhole(ws[s.at + 1..], next, ctx, Syn1(ws[..s.at], ws[s.at], ctx, s.err).err);
    } else if s.l == 0 {
      assert ws[..s.at] == ws;
      Whole1(ws, next, ctx, s.err);
    }
  }

  lemma {:induction false} Whole1(ws: seq<Word>, next: Word, ctx: set<Context>, err: Error)
    requires Depth(ws) == 0
    ensures Whole(Syn1(ws, next, ctx, err), err)
    decreases |ws|, 4
  {
    Halves(ws, Semicolon);
    var p := Find(ws, 0, 0, Semicolon);
    if p < |ws| {
      Whole1a(ws[..p], ws[p], ctx, err);
      AcceptedWhole(ws[p + 1..], next, ctx, Syn1a(ws[..p], ws[p], ctx, err).err);
    } else {
      Whole1a(ws, next, ctx, err);
    }
  }

  lemma {:induction false} Whole1a(ws: seq<Word>, next: Word, ctx: set<Context>, err: Error)
    requires Depth(ws) == 0
    ensures Whole(Syn1a(ws, next, ctx, err), err)
    decreases |ws|, 3
  {
    Halves(ws, OrOr);
    var p := Find(ws, 0, 0, OrOr);
    if p < |ws| {
      Whole1b(ws[..p], ws[p], ctx, err);
      Whole1a(ws[p + 1..], next, ctx, Syn1b(ws[..p], ws[p], ctx, err).err);
    } else {
      Whole1b(ws, next, ctx, err);
    }
  }

  lemma {:induction false} Whole1b(ws: seq<Word>, next: Word, ctx: set<Context>, err: Error)
    requires Depth(ws) == 0
    ensures Whole(Syn1b(ws, next, ctx, err), err)
    decreases |ws|, 2
  {
    Halves(ws, AndAnd);
    var p := Find(ws, 0, 0, AndAnd);
    if p < |ws| {
      Whole2(ws[..p], ws[p], ctx, err);
      Whole1b(ws[p + 1..], next, ctx, Syn2(ws[..p], ws[p], ctx, err).err);
    } else {
      Whole2(ws, next, ctx, err);
    }
  }

  lemma {:induction false} Whole2(ws: seq<Word>, next: Word, ctx: set<Context>, err: Error)
    requires Depth(ws) == 0
    ensures Whole(Syn2(ws, next, ctx, err), err)
    decreases |ws|, 1
  {
    Halves(ws, Bar);
    var p := Find(ws, 0, 0, Bar);
    if p < |ws| {
      var both := WithErrors(ws, p);
      var ctx1 := ctx + {POUT} + (if both then {PERR} else {});
      Whole3(ws[..p], ws[p], ctx1, err);
      if both {
        DepthSplit(ws[p + 1..], 0);
        assert ws[p + 1..][1..] == ws[p + 2..];
      }
      Whole2(ws[if both then p + 2 else p + 1..], next, ctx + {PIN}, Syn3(ws[..p], ws[p], ctx1, err).err);
    } else {
      Whole3(ws, next, ctx, err);
    }
  }

  lemma {:induction false} Whole3(ws: seq<Word>, next: Word, ctx: set<Context>, err: Error)
    requires Depth(ws) == 0
    ensures Whole(Syn3(ws, next, ctx, err), err)
    decreases |ws|, 0
  {
    GroupClosed(ws, next, ctx, err);
    var st := Fill(ws, 0, Start(next, err), Special(ws), ctx);
    if Grouped(st, |ws|) {
      Whole0(ws[st.lp.value..st.rp.value], ws[st.rp.value], {PHERE}, GroupError(st));
    }
  }
}
