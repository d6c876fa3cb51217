/** Exactly which words make csh's parser leave the range it was given. */
module CshOverrun {
  import opened CshSyntax
  import opened CshGroups
  import opened CshPrinting

  // ---- the condition, on the words -------------------------------------------------------

  /** The last word that the redirection at i takes; out says that the output goes to a pipe. */
  function Redirected(ws: seq<Word>, i: nat, out: bool): (r: nat)
    requires i < |ws|
    ensures i <= r < |ws|
  {
    if First(ws[i]) == '<' then if i + 1 < |ws| then i + 1 else i
    else
      var j := if At(ws, i + 1, "&") then i + 1 else i;
      if j > i && out then j
      else
        var k := if At(ws, j + 1, "!") then j + 1 else j;
        if k + 1 < |ws| then k + 1 else k
  }

  /** How many more closing than opening parentheses are taken for file names by the redirections
      outside parentheses, from word i on. */
  function Swallowed(ws: seq<Word>, i: nat, l: int, out: bool): int
    requires i <= |ws|
    decreases |ws| - i
  {
    if i == |ws| then 0
    else if l == 0 && (First(ws[i]) == '<' || First(ws[i]) == '>') then
      var r := Redirected(ws, i, out);
      Swallowed(ws, r + 1, l, out) - Shift(ws[r])
    else Swallowed(ws, i + 1, l + Shift(ws[i]), out)
  }

  /** The words of one command, not a keyword's, lose more closing than opening parentheses. */
  predicate Overrun(ws: seq<Word>, out: bool) { !Special(ws) && Swallowed(ws, 0, 0, out) > 0 }

  /** The first separator of any kind outside parentheses from word i on, or the end. */
  function Cut(ws: seq<Word>, i: nat): (p: nat)
    requires i <= |ws|
    ensures i <= p <= |ws|
    ensures p < |ws| ==> Depth(ws[..p]) == 0 && Rank(ws, p) < 9
    ensures forall j {:trigger Rank(ws, j)} :: i <= j < p && Depth(ws[..j]) == 0 ==> Rank(ws, j) == 9
    decreases |ws| - i
  {
    if i == |ws| || (Depth(ws[..i]) == 0 && Rank(ws, i) < 9) then i else Cut(ws, i + 1)
  }

  predicate IsBar(w: Word) { First(w) == '|' && Second(w) != '|' }

  /** One of the commands between the separators overruns. */
  predicate Overruns(ws: seq<Word>, out: bool)
    decreases |ws|
  {
    var p := Cut(ws, 0);
    if p == |ws| then Overrun(ws, out)
    else Overrun(ws[..p], out || IsBar(ws[p])) || Overruns(ws[p + 1..], out)
  }

  /** The first `&` for the background outside parentheses from word i on, or the end. */
  function Amp(ws: seq<Word>, i: nat): (p: nat)
    requires i <= |ws|
    ensures i <= p <= |ws|
    ensures p < |ws| ==> Depth(ws[..p]) == 0 && Rank(ws, p) == 0
    ensures forall j {:trigger Rank(ws, j)} :: i <= j < p && Depth(ws[..j]) == 0 ==> Rank(ws, j) > 0
    decreases |ws| - i
  {
    if i == |ws| || (Depth(ws[..i]) == 0 && Rank(ws, i) == 0) then i else Amp(ws, i + 1)
  }

  /** One of the lists between the `&`s overruns. The last one counts only if its parentheses
      match, for otherwise it is not looked into. */
  predicate Strays(ws: seq<Word>, out: bool)
    decreases |ws|
  {
    var p := Amp(ws, 0);
    if p == |ws| then Depth(ws) == 0 && Overruns(ws, out)
    else Overruns(ws[..p], out) || Strays(ws[p + 1..], out)
  }

  predicate Out(ctx: set<Context>) { POUT in ctx || PERR in ctx }

  // ---- parts of the words ----------------------------------------------------------------

  lemma DepthFrom(ws: seq<Word>, p: nat, j: nat)
    requires p + j <= |ws|
    ensures Depth(ws[..p + j]) == Depth(ws[..p]) + Depth(ws[p..][..j])
    ensures Depth(ws[..p]) == 0 ==> Depth(ws[..p + j]) == Depth(ws[p..][..j])
  {
    assert ws[..p + j] == ws[..p] + ws[p..][..j];
    DepthAppend(ws[..p], ws[p..][..j]);
  }

  /** Depths and ranks behind a separator, or behind a separator and an `&` that belongs to it. */
  lemma Behind(ws: seq<Word>, p: nat, j: nat)
    requires p < |ws| && Depth(ws[..p]) == 0 && Shift(ws[p]) == 0 && p + 1 + j <= |ws|
    ensures Depth(ws[p + 1..][..j]) == Depth(ws[..p + 1 + j])
    ensures p + 1 + j < |ws| && (j > 0 || !Redirecting(ws[p]) || ws[p + 1] != "&") ==>
      Rank(ws[p + 1..], j) == Rank(ws, p + 1 + j)
  {
    DepthTake(ws, p);
    DepthFrom(ws, p + 1, j);
  }

  lemma Ahead(ws: seq<Word>, p: nat, j: nat)
    requires j <= p <= |ws|
    ensures ws[..p][..j] == ws[..j] && (j < p ==> Rank(ws[..p], j) == Rank(ws, j))
  {
  }

  lemma CutIs(ws: seq<Word>, p: nat)
    requires p <= |ws|
    requires forall j {:trigger Rank(ws, j)} :: 0 <= j < p && Depth(ws[..j]) == 0 ==> Rank(ws, j) == 9
    requires p < |ws| ==> Depth(ws[..p]) == 0 && Rank(ws, p) < 9
    ensures Cut(ws, 0) == p
  {
  }

  lemma AmpIs(ws: seq<Word>, p: nat)
    requires p <= |ws|
    requires forall j {:trigger Rank(ws, j)} :: 0 <= j < p && Depth(ws[..j]) == 0 ==> Rank(ws, j) > 0
    requires p < |ws| ==> Depth(ws[..p]) == 0 && Rank(ws, p) == 0
    ensures Amp(ws, 0) == p
  {
  }

  lemma NothingOverruns(out: bool)
    ensures !Overruns([], out)
  {
    assert Cut([], 0) == 0;
  }

  lemma CutAhead(ws: seq<Word>, p: nat)
    requires p <= |ws|
    ensures Cut(ws, 0) < p ==> Cut(ws[..p], 0) == Cut(ws, 0)
    ensures Cut(ws, 0) == p ==> Cut(ws[..p], 0) == p
  {
    var f := Cut(ws, 0);
    forall j | 0 <= j <= p ensures ws[..p][..j] == ws[..j] && (j < p ==> Rank(ws[..p], j) == Rank(ws, j)) {
      Ahead(ws, p, j);
    }
    if f <= p {
      CutIs(ws[..p], f);
    }
  }

  lemma SplitSlices(ws: seq<Word>, f: nat, p: nat)
    requires f < p < |ws|
    ensures ws[f + 1..][..p - f - 1] == ws[..p][f + 1..] && ws[f + 1..][p - f..] == ws[p + 1..]
    ensures ws[..p][..f] == ws[..f] && ws[..p][f] == ws[f] && |ws[f + 1..]| < |ws|
  {
  }

  /** The same as Overruns, said under a quantifier so that proofs only look inside words they name. */
  ghost predicate Lost(ws: seq<Word>, out: bool) {
    forall u {:trigger Look(u)} :: u == ws && Look(u) ==> Overruns(u, out)
  }

  ghost predicate Look(ws: seq<Word>) { true }

  lemma LostMeans(ws: seq<Word>, out: bool)
    ensures Lost(ws, out) <==> Overruns(ws, out)
  {
    assert Look(ws);
  }

  lemma LostAt(ws: seq<Word>, f: nat, out: bool) returns (here: bool)
    requires f == Cut(ws, 0) < |ws|
    ensures here == Overrun(ws[..f], out || IsBar(ws[f])) && (Lost(ws, out) <==> here || Lost(ws[f + 1..], out))
  {
    here := Overrun(ws[..f], out || IsBar(ws[f]));
    LostMeans(ws, out);
    LostMeans(ws[f + 1..], out);
  }

  /** A separator other than a bar that is the first one. */
  lemma LostFirst(ws: seq<Word>, p: nat, out: bool)
    requires p == Cut(ws, 0) < |ws| && !IsBar(ws[p])
    ensures Lost(ws, out) <==> Lost(ws[..p], out) || Lost(ws[p + 1..], out)
  {
    CutAhead(ws, p);
    var _ := LostAt(ws, p, out);
    LostMeans(ws[..p], out);
    assert ws[..p][..p] == ws[..p];
  }

  /** The words up to a later separator begin with the same command. */
  lemma LostLater(ws: seq<Word>, p: nat, out: bool) returns (here: bool)
    requires Cut(ws, 0) < p < |ws|
    ensures var f := Cut(ws, 0);
      (Lost(ws, out) <==> here || Lost(ws[f + 1..], out)) && (Lost(ws[..p], out) <==> here || Lost(ws[..p][f + 1..], out))
  {
    var f := Cut(ws, 0);
    CutAhead(ws, p);
    SplitSlices(ws, f, p);
    here := LostAt(ws, f, out);
    var _ := LostAt(ws[..p], f, out);
  }

  /** The word at p is a separator other than a bar, outside parentheses. */
  ghost predicate Divides(p: nat, ws: seq<Word>) {
    p < |ws| && forall u {:trigger Look(u)} :: u == ws && Look(u) ==> Depth(u[..p]) == 0 && Rank(u, p) < 4
  }

  lemma DividesMeans(p: nat, ws: seq<Word>)
    ensures Divides(p, ws) <==> p < |ws| && Depth(ws[..p]) == 0 && Rank(ws, p) < 4
  {
    assert Look(ws);
  }

  /** One step over the first separator, at f. */
  lemma LostStep(ws: seq<Word>, p: nat, out: bool) returns (f: nat, here: bool)
    requires Divides(p, ws)
    ensures f <= p
    ensures f == p ==> (Lost(ws, out) <==> Lost(ws[..p], out) || Lost(ws[p + 1..], out))
    ensures f < p ==> Divides(p - f - 1, ws[f + 1..]) && ws[f + 1..][p - f..] == ws[p + 1..]
    ensures f < p ==> (Lost(ws, out) <==> here || Lost(ws[f + 1..], out))
    ensures f < p ==> (Lost(ws[..p], out) <==> here || Lost(ws[f + 1..][..p - f - 1], out))
  {
    DividesMeans(p, ws);
    f, here := Cut(ws, 0), false;
    if f < p {
      SplitSlices(ws, f, p);
      here := LostLater(ws, p, out);
      DividesBehind(ws, f, p);
    } else {
      LostFirst(ws, p, out);
    }
  }

  lemma DividesBehind(ws: seq<Word>, f: nat, p: nat)
    requires f < p && Divides(p, ws) && Depth(ws[..f]) == 0 && Shift(ws[f]) == 0
    ensures Divides(p - f - 1, ws[f + 1..])
  {
    DividesMeans(p, ws);
    Behind(ws, f, p - f - 1);
    DividesMeans(p - f - 1, ws[f + 1..]);
  }

  /** A separator other than a bar can be the place to begin. */
  lemma {:induction false} LostSplit(ws: seq<Word>, p: nat, out: bool)
    requires Divides(p, ws)
    ensures Lost(ws, out) <==> Lost(ws[..p], out) || Lost(ws[p + 1..], out)
    decreases |ws|
  {
    var f, here := LostStep(ws, p, out);
    if f < p {
      LostSplit(ws[f + 1..], p - f - 1, out);
    }
  }

  /** Words whose parentheses match have no list that is not looked into. */
  lemma {:induction false} StraysClosed(ws: seq<Word>, out: bool)
    requires Depth(ws) == 0
    ensures Strays(ws, out) <==> Lost(ws, out)
    decreases |ws|
  {
    var p := Amp(ws, 0);
    LostMeans(ws, out);
    if p < |ws| {
      DividesMeans(p, ws);
      LostSplit(ws, p, out);
      LostMeans(ws[..p], out);
      DepthSplit(ws, p);
      StraysClosed(ws[p + 1..], out);
    }
  }

  lemma AmpSkip(ws: seq<Word>)
    requires ws != [] && Skipped(ws[0]) && Amp(ws, 0) > 0
    ensures Amp(ws[1..], 0) == Amp(ws, 0) - 1 && Depth(ws[1..]) == Depth(ws)
  {
    assert ws[..0] == [];
    forall j | 0 <= j < |ws|
      ensures Depth(ws[1..][..j]) == Depth(ws[..1 + j]) && (j + 1 < |ws| ==> Rank(ws[1..], j) == Rank(ws, 1 + j))
    {
      Behind(ws, 0, j);
    }
    AmpIs(ws[1..], Amp(ws, 0) - 1);
    assert ws[1..][..|ws| - 1] == ws[1..] && ws[..|ws|] == ws;
  }

  lemma SkipSlices(ws: seq<Word>, p: nat)
    requires 0 < p <= |ws|
    ensures ws[..p][1..] == ws[1..][..p - 1]
    ensures p < |ws| ==> ws[1..][p..] == ws[p + 1..]
    ensures p == |ws| ==> ws[..p] == ws && ws[1..][..p - 1] == ws[1..]
  {
  }

  /** A separator in front makes no difference. */
  lemma StraysSkip(ws: seq<Word>, out: bool)
    requires ws != [] && Skipped(ws[0])
    ensures Strays(ws, out) <==> Strays(ws[1..], out)
  {
    var p := Amp(ws, 0);
    if p == 0 {
      NothingOverruns(out);
      assert ws[..0] == [];
    } else {
      AmpSkip(ws);
      SkipSlices(ws, p);
      SkippedRank(ws);
      assert Rank(ws[..p], 0) == Rank(ws, 0);
      OverrunsSkip(ws[..p], out);
    }
  }

  lemma SkippedRank(ws: seq<Word>)
    requires ws != [] && Skipped(ws[0])
    ensures Rank(ws, 0) < 4
  {
  }

  lemma OverrunsSkip(ws: seq<Word>, out: bool)
    requires ws != [] && Rank(ws, 0) < 4
    ensures Overruns(ws, out) <==> Overruns(ws[1..], out)
  {
    NothingOverruns(out);
    assert ws[..0] == [];
    DividesMeans(0, ws);
    LostSplit(ws, 0, out);
    LostMeans(ws, out);
    LostMeans([], out);
    LostMeans(ws[1..], out);
  }

  // ---- one command -----------------------------------------------------------------------

  /** The depth the filling pass ends at is that of the words, less what redirections have taken. */
  lemma TurnSwallows(ws: seq<Word>, i: nat, st: Pass, specp: bool, ctx: set<Context>)
    requires i < |ws|
    ensures var r := Turn(ws, i, st, specp, ctx);
      r.1.l - st.l == (if r.0 == i then Shift(ws[i]) else 0) &&
      Swallowed(ws, i, st.l, Out(ctx)) == Swallowed(ws, r.0 + 1, r.1.l, Out(ctx)) - (if r.0 == i then 0 else Shift(ws[r.0]))
    ensures var r := Turn(ws, i, st, specp, ctx); forall k :: i <= k < r.0 ==> Shift(ws[k]) == 0
  {
    if st.l == 0 && First(ws[i]) == '>' {
      TakenOut(ws, i, st, ctx);
      BeforeTaken(ws, i, Out(ctx));
    } else if st.l == 0 && First(ws[i]) == '<' {
      TakenIn(ws, i, st, ctx);
      BeforeTaken(ws, i, Out(ctx));
    }
  }

  lemma TakenOut(ws: seq<Word>, i: nat, st: Pass, ctx: set<Context>)
    requires i < |ws| && First(ws[i]) == '>'
    ensures RedirectOut(ws, i, st, ctx).0 == Redirected(ws, i, Out(ctx))
  {
  }

  lemma TakenIn(ws: seq<Word>, i: nat, st: Pass, ctx: set<Context>)
    requires i < |ws| && First(ws[i]) == '<'
    ensures RedirectIn(ws, i, st, ctx).0 == Redirected(ws, i, Out(ctx))
  {
  }

  /** Only the last word of a redirection can be a parenthesis. */
  lemma BeforeTaken(ws: seq<Word>, i: nat, out: bool)
    requires i < |ws| && (First(ws[i]) == '<' || First(ws[i]) == '>')
    ensures forall k :: i <= k < Redirected(ws, i, out) ==> Shift(ws[k]) == 0
  {
  }

  lemma {:induction false} FillSwallows(ws: seq<Word>, i: nat, st: Pass, specp: bool, ctx: set<Context>)
    requires i <= |ws|
    ensures Fill(ws, i, st, specp, ctx).l == st.l + Depth(ws) - Depth(ws[..i]) + Swallowed(ws, i, st.l, Out(ctx))
    decreases |ws| - i
  {
    if i == |ws| {
      assert ws[..i] == ws;
    } else {
      var r := Turn(ws, i, st, specp, ctx);
      TurnSwallows(ws, i, st, specp, ctx);
      LevelKept(ws, i, r.0);
      DepthTake(ws, r.0);
      FillSwallows(ws, r.0 + 1, r.1, specp, ctx);
    }
  }

  /** From the last opening parenthesis at depth zero up to word k. */
  function Inside(ws: seq<Word>, lp: nat, k: nat): int
    requires lp <= |ws| && k <= |ws|
  {
    Depth(ws[..k]) - Depth(ws[..lp])
  }

  /** Parentheses match from lp to rp. */
  predicate Matched(ws: seq<Word>, lp: nat, rp: nat)
    requires lp <= rp <= |ws|
  {
    Inside(ws, lp, rp) == 0 && forall k :: lp <= k <= rp ==> Inside(ws, lp, k) >= 0
  }

  predicate Open(ws: seq<Word>, st: Pass, i: nat)
    requires st.lp.Some? && st.lp.value <= i <= |ws|
  {
    var lp := st.lp.value;
    Inside(ws, lp, i) == st.l - 1 && (st.rp.Some? ==> st.rp.value < lp) &&
    forall k :: lp <= k <= i ==> Inside(ws, lp, k) >= 0
  }

  /** What the filling pass knows of the last group: it is open, or closed where it should be. */
  predicate Grouping(ws: seq<Word>, st: Pass, i: nat)
    requires i <= |ws|
  {
    (st.lp.Some? ==> 0 < st.lp.value <= i) && (st.rp.Some? ==> st.rp.value < i) &&
    (st.l > 0 ==> st.lp.Some? && Open(ws, st, i)) &&
    (st.lp.Some? && st.rp.Some? && st.lp.value <= st.rp.value ==> Matched(ws, st.lp.value, st.rp.value))
  }

  lemma TurnGroups(ws: seq<Word>, i: nat, st: Pass, specp: bool, ctx: set<Context>)
    requires i < |ws| && Grouping(ws, st, i)
    ensures var r := Turn(ws, i, st, specp, ctx); Grouping(ws, r.1, r.0 + 1)
  {
    DepthTake(ws, i);
  }

  lemma {:induction false} FillGroups(ws: seq<Word>, i: nat, st: Pass, specp: bool, ctx: set<Context>)
    requires i <= |ws| && Grouping(ws, st, i)
    ensures Grouping(ws, Fill(ws, i, st, specp, ctx), |ws|)
    decreases |ws| - i
  {
    if i < |ws| {
      var r := Turn(ws, i, st, specp, ctx);
      TurnGroups(ws, i, st, specp, ctx);
      FillGroups(ws, r.0 + 1, r.1, specp, ctx);
    }
  }

  /** Whatever the words and errors: the words of a group that is read have matching parentheses. */
  lemma GroupBalanced(ws: seq<Word>, next: Word, ctx: set<Context>, err: Error)
    ensures var st := Fill(ws, 0, Start(next, err), Special(ws), ctx);
      Grouped(st, |ws|) ==> Balanced(ws[st.lp.value..st.rp.value])
  {
    FillGroups(ws, 0, Start(next, err), Special(ws), ctx);
    var st := Fill(ws, 0, Start(next, err), Special(ws), ctx);
    if Grouped(st, |ws|) {
      var lp, rp := st.lp.value, st.rp.value;
      forall k | 0 <= k <= rp - lp ensures Depth(ws[lp..rp][..k]) == Inside(ws, lp, lp + k) {
        DepthFrom(ws, lp, k);
        assert ws[lp..rp][..k] == ws[lp..][..k];
      }
      assert ws[lp..rp][..rp - lp] == ws[lp..rp];
    }
  }

  // ---- words without a stray closing parenthesis -------------------------------------------

  predicate NoStray(ws: seq<Word>) { forall i :: 0 <= i <= |ws| ==> Depth(ws[..i]) >= 0 }

  lemma DepthTaken(ws: seq<Word>, i: nat, out: bool)
    requires i < |ws| && (First(ws[i]) == '<' || First(ws[i]) == '>')
    ensures var r := Redirected(ws, i, out); Depth(ws[..r + 1]) == Depth(ws[..i]) + Shift(ws[r])
  {
    var r := Redirected(ws, i, out);
    BeforeTaken(ws, i, out);
    LevelKept(ws, i, r);
    DepthTake(ws, r);
  }

  lemma {:induction false} SwallowsLittle(ws: seq<Word>, i: nat, l: int, out: bool)
    requires NoStray(ws) && i <= |ws| && l <= Depth(ws[..i])
    ensures Swallowed(ws, i, l, out) <= Depth(ws[..i]) - l
    decreases |ws| - i
  {
    if i < |ws| {
      DepthTake(ws, i);
      if l == 0 && (First(ws[i]) == '<' || First(ws[i]) == '>') {
        var r := Redirected(ws, i, out);
        DepthTaken(ws, i, out);
        SwallowsLittle(ws, r + 1, l, out);
      } else {
        SwallowsLittle(ws, i + 1, l + Shift(ws[i]), out);
      }
    }
  }

  lemma SafeCommand(ws: seq<Word>, out: bool)
    requires NoStray(ws)
    ensures !Overrun(ws, out)
  {
    assert ws[..0] == [];
    SwallowsLittle(ws, 0, 0, out);
  }

  lemma SafeParts(ws: seq<Word>, p: nat)
    requires NoStray(ws) && p < |ws| && Depth(ws[..p]) == 0 && Shift(ws[p]) == 0
    ensures NoStray(ws[..p]) && NoStray(ws[p + 1..])
  {
    forall i | 0 <= i <= p ensures Depth(ws[..p][..i]) >= 0 {
      assert ws[..p][..i] == ws[..i];
    }
    var rest := ws[p + 1..];
    forall i | 0 <= i <= |rest| ensures Depth(rest[..i]) >= 0 {
      Behind(ws, p, i);
    }
  }

  lemma {:induction false} SafeList(ws: seq<Word>, out: bool)
    requires NoStray(ws)
    ensures !Overruns(ws, out)
    decreases |ws|
  {
    var p := Cut(ws, 0);
    if p == |ws| {
      SafeCommand(ws, out);
    } else {
      SafeParts(ws, p);
      SafeCommand(ws[..p], out || IsBar(ws[p]));
      SafeList(ws[p + 1..], out);
    }
  }

  lemma {:induction false} SafeLine(ws: seq<Word>, out: bool)
    requires NoStray(ws)
    ensures !Strays(ws, out)
    decreases |ws|
  {
    var p := Amp(ws, 0);
    if p == |ws| {
      SafeList(ws, out);
    } else {
      SafeParts(ws, p);
      SafeList(ws[..p], out);
      SafeLine(ws[p + 1..], out);
    }
  }

  // ---- every level -------------------------------------------------------------------------

  /** Before the first separator of a kind there is none of that kind outside parentheses. */
  lemma {:induction false} FindQuiet(ws: seq<Word>, i: nat, sep: Separator)
    requires i <= |ws|
    ensures var p := Find(ws, i, Depth(ws[..i]), sep);
      forall j :: i <= j < p && Depth(ws[..j]) == 0 ==> !Separates(ws[j], sep)
    decreases |ws| - i
  {
    if i < |ws| {
      DepthTake(ws, i);
      FindQuiet(ws, i + 1, sep);
    }
  }

  /** The part before the first separator of a level is quiet for the next one. */
  lemma QuietBefore(ws: seq<Word>, sep: Separator)
    requires Depth(ws) == 0 && Quiet(ws, RankOf(sep))
    ensures var p := Find(ws, 0, 0, sep); Quiet(ws[..p], RankOf(sep) + 1) && Depth(ws[..p]) == 0
  {
    assert ws[..0] == [] && ws[..|ws|] == ws;
    FindQuiet(ws, 0, sep);
    FindDepth(ws, 0, sep);
    var p := Find(ws, 0, 0, sep);
    forall j | 0 <= j < p && Depth(ws[..p][..j]) == 0 ensures Rank(ws[..p], j) > RankOf(sep) {
      Ahead(ws, p, j);
      RankSeparates(ws, j, sep);
    }
  }

  lemma RankSeparates(ws: seq<Word>, j: nat, sep: Separator)
    requires j < |ws|
    ensures Rank(ws, j) == RankOf(sep) ==> Separates(ws[j], sep)
    ensures Separates(ws[j], sep) && Rank(ws, j) >= RankOf(sep) ==> Rank(ws, j) == RankOf(sep)
  {
  }

  /** The separator itself. */
  lemma QuietAt(ws: seq<Word>, sep: Separator)
    requires Depth(ws) == 0 && Quiet(ws, RankOf(sep))
    ensures var p := Find(ws, 0, 0, sep);
      p < |ws| ==> Separates(ws[p], sep) && Depth(ws[..p]) == 0 == Depth(ws[p + 1..]) && Rank(ws, p) == RankOf(sep)
  {
    assert ws[..0] == [];
    FindDepth(ws, 0, sep);
    var p := Find(ws, 0, 0, sep);
    if p < |ws| {
      DepthSplit(ws, p);
      RankSeparates(ws, p, sep);
    }
  }

  /** The part behind a separator that is no bar is quiet for the same level. */
  lemma QuietBehind(ws: seq<Word>, p: nat, k: nat)
    requires Quiet(ws, k) && p < |ws| && Depth(ws[..p]) == 0 && Rank(ws, p) < 4
    ensures Quiet(ws[p + 1..], k)
  {
    var rest := ws[p + 1..];
    forall j | 0 <= j < |rest| && Depth(rest[..j]) == 0 ensures Rank(rest, j) >= k {
      Behind(ws, p, j);
    }
  }

  /** Words for level k: their parentheses match, and their separators bind as tightly. This, too,
      is said under a quantifier. */
  ghost predicate Ready(k: nat, ws: seq<Word>) {
    forall u {:trigger Look(u)} :: u == ws && Look(u) ==> Depth(u) == 0 && Quiet(u, k)
  }

  lemma ReadyMeans(k: nat, ws: seq<Word>)
    ensures Ready(k, ws) <==> Depth(ws) == 0 && Quiet(ws, k)
  {
    assert Look(ws);
  }

  /** What a level makes of its words, for the separators that are not bars. */
  lemma LevelParts(ws: seq<Word>, sep: Separator, out: bool)
    requires sep != Bar && Ready(RankOf(sep), ws)
    ensures var p := Find(ws, 0, 0, sep);
      if p == |ws| then Ready(RankOf(sep) + 1, ws)
      else
        Ready(RankOf(sep) + 1, ws[..p]) && Ready(RankOf(sep), ws[p + 1..]) &&
        (Lost(ws, out) <==> Lost(ws[..p], out) || Lost(ws[p + 1..], out))
  {
    ReadyMeans(RankOf(sep), ws);
    QuietBefore(ws, sep);
    QuietAt(ws, sep);
    var p := Find(ws, 0, 0, sep);
    ReadyMeans(RankOf(sep) + 1, ws[..p]);
    if p < |ws| {
      QuietBehind(ws, p, RankOf(sep));
      ReadyMeans(RankOf(sep), ws[p + 1..]);
      DividesMeans(p, ws);
      LostSplit(ws, p, out);
    } else {
      assert ws[..p] == ws;
    }
  }

  /** The same for bars, whose first part is a single command. */
  lemma BarParts(ws: seq<Word>, out: bool)
    requires Ready(4, ws)
    ensures var p := Find(ws, 0, 0, Bar);
      if p == |ws| then Depth(ws) == 0 && (Lost(ws, out) <==> Overrun(ws, out))
      else
        var rest := ws[if WithErrors(ws, p) then p + 2 else p + 1..];
        Depth(ws[..p]) == 0 && Ready(4, rest) && (Lost(ws, out) <==> Overrun(ws[..p], true) || Lost(rest, out))
  {
    ReadyMeans(4, ws);
    QuietAt(ws, Bar);
    BarCut(ws);
    var p := Find(ws, 0, 0, Bar);
    if p < |ws| {
      var _ := LostAt(ws, p, out);
      BehindBar(ws, p, out);
    } else {
      LostMeans(ws, out);
    }
  }

  /** The first bar is the first separator where only bars are. */
  lemma BarCut(ws: seq<Word>)
    requires Depth(ws) == 0 && Quiet(ws, 4)
    ensures Cut(ws, 0) == Find(ws, 0, 0, Bar)
  {
    QuietBefore(ws, Bar);
    QuietAt(ws, Bar);
    var p := Find(ws, 0, 0, Bar);
    forall j | 0 <= j < p && Depth(ws[..j]) == 0 ensures Rank(ws, j) == 9 {
      Ahead(ws, p, j);
    }
    CutIs(ws, p);
  }

  /** What follows a bar, and the `&` that belongs to it. */
  lemma BehindBar(ws: seq<Word>, p: nat, out: bool)
    requires Quiet(ws, 4) && p < |ws| && Depth(ws[..p]) == 0 && Rank(ws, p) == 4 && Depth(ws[p + 1..]) == 0
    ensures var rest := ws[if WithErrors(ws, p) then p + 2 else p + 1..];
      Ready(4, rest) && (Lost(rest, out) <==> Lost(ws[p + 1..], out))
  {
    var tail := ws[p + 1..];
    if WithErrors(ws, p) {
      TakenBehindBar(ws, p);
      SkippedRank(tail);
      OverrunsSkip(tail, out);
      LostMeans(tail, out);
      LostMeans(tail[1..], out);
      assert tail[1..] == ws[p + 2..];
    } else {
      forall j | 0 <= j < |tail| && Depth(tail[..j]) == 0 ensures Rank(tail, j) >= 4 {
        Behind(ws, p, j);
      }
      ReadyMeans(4, tail);
    }
  }

  lemma TakenBehindBar(ws: seq<Word>, p: nat)
    requires Quiet(ws, 4) && p < |ws| && Depth(ws[..p]) == 0 && Rank(ws, p) == 4 && Depth(ws[p + 1..]) == 0
    requires WithErrors(ws, p)
    ensures Ready(4, ws[p + 2..])
  {
    var tail, rest := ws[p + 1..], ws[p + 2..];
    assert tail[1..] == rest && tail[..0] == [];
    DepthSplit(tail, 0);
    DepthTake(ws, p);
    assert Rank(ws, p + 1) >= 4 && ws[p + 1] == "&";
    forall j | 0 <= j < |rest| && Depth(rest[..j]) == 0 ensures Rank(rest, j) >= 4 {
      Behind(ws, p + 1, j);
    }
    ReadyMeans(4, rest);
  }

  // ---- the parse, seen from afar -----------------------------------------------------------

  /** The parse at a level: 0 to 5 from `syn0` to `syn3`, and 6 for `syntax`. */
  function ParseAt(k: nat, ws: seq<Word>, next: Word, ctx: set<Context>, err: Error): Parsed {
    if k == 0 then Syn0(ws, next, ctx, err)
    else if k == 1 then Syn1(ws, next, ctx, err)
    else if k == 2 then Syn1a(ws, next, ctx, err)
    else if k == 3 then Syn1b(ws, next, ctx, err)
    else if k == 4 then Syn2(ws, next, ctx, err)
    else if k == 5 then Syn3(ws, next, ctx, err)
    else Syntax(ws, next, ctx, err)
  }

  /** It stays within the words. */
  ghost predicate Stays(k: nat, ws: seq<Word>, next: Word, ctx: set<Context>, err: Error) {
    forall u {:trigger Look(u)} :: u == ws && Look(u) ==> Sane(ParseAt(k, u, next, ctx, err).t)
  }

  lemma StaysMeans(k: nat, ws: seq<Word>, next: Word, ctx: set<Context>, err: Error)
    ensures Stays(k, ws, next, ctx, err) <==> Sane(ParseAt(k, ws, next, ctx, err).t)
  {
    assert Look(ws);
  }

  /** A level without its separator is the next one. */
  lemma LevelWhole(sep: Separator, ws: seq<Word>, next: Word, ctx: set<Context>, err: Error)
    requires sep != Bar && Find(ws, 0, 0, sep) == |ws|
    ensures Stays(RankOf(sep), ws, next, ctx, err) <==> Stays(RankOf(sep) + 1, ws, next, ctx, err)
  {
    StaysMeans(RankOf(sep), ws, next, ctx, err);
    StaysMeans(RankOf(sep) + 1, ws, next, ctx, err);
    match sep
    case Semicolon =>
    case OrOr =>
    case AndAnd =>
  }

  /** The two parts a level parses; err1 is the error after the first of them. */
  lemma ListCut(ws: seq<Word>, next: Word, ctx: set<Context>, err: Error) returns (err1: Error)
    requires Find(ws, 0, 0, Semicolon) < |ws|
    ensures var p := Find(ws, 0, 0, Semicolon);
      Stays(1, ws, next, ctx, err) <==> Stays(2, ws[..p], ws[p], ctx, err) && Stays(6, ws[p + 1..], next, ctx, err1)
  {
    var p := Find(ws, 0, 0, Semicolon);
    err1 := Syn1a(ws[..p], ws[p], ctx, err).err;
    StaysMeans(1, ws, next, ctx, err);
    StaysMeans(2, ws[..p], ws[p], ctx, err);
    StaysMeans(6, ws[p + 1..], next, ctx, err1);
  }

  lemma OrCut(ws: seq<Word>, next: Word, ctx: set<Context>, err: Error) returns (err1: Error)
    requires Find(ws, 0, 0, OrOr) < |ws|
    ensures var p := Find(ws, 0, 0, OrOr);
      Stays(2, ws, next, ctx, err) <==> Stays(3, ws[..p], ws[p], ctx, err) && Stays(2, ws[p + 1..], next, ctx, err1)
  {
    var p := Find(ws, 0, 0, OrOr);
    err1 := Syn1b(ws[..p], ws[p], ctx, err).err;
    StaysMeans(2, ws, next, ctx, err);
    StaysMeans(3, ws[..p], ws[p], ctx, err);
    StaysMeans(2, ws[p + 1..], next, ctx, err1);
  }

  lemma AndCut(ws: seq<Word>, next: Word, ctx: set<Context>, err: Error) returns (err1: Error)
    requires Find(ws, 0, 0, AndAnd) < |ws|
    ensures var p := Find(ws, 0, 0, AndAnd);
      Stays(3, ws, next, ctx, err) <==> Stays(4, ws[..p], ws[p], ctx, err) && Stays(3, ws[p + 1..], next, ctx, err1)
  {
    var p := Find(ws, 0, 0, AndAnd);
    err1 := Syn2(ws[..p], ws[p], ctx, err).err;
    StaysMeans(3, ws, next, ctx, err);
    StaysMeans(4, ws[..p], ws[p], ctx, err);
    StaysMeans(3, ws[p + 1..], next, ctx, err1);
  }

  lemma LevelCut(sep: Separator, ws: seq<Word>, next: Word, ctx: set<Context>, err: Error) returns (err1: Error)
    requires sep != Bar && Find(ws, 0, 0, sep) < |ws|
    ensures var k, p := RankOf(sep), Find(ws, 0, 0, sep);
      Stays(k, ws, next, ctx, err) <==>
        Stays(k + 1, ws[..p], ws[p], ctx, err) && Stays(if sep == Semicolon then 6 else k, ws[p + 1..], next, ctx, err1)
  {
    match sep {
      case Semicolon => err1 := ListCut(ws, next, ctx, err);
      case OrOr => err1 := OrCut(ws, next, ctx, err);
      case AndAnd => err1 := AndCut(ws, next, ctx, err);
    }
  }

  /** The same for `syn2`. */
  lemma BarParse(ws: seq<Word>, next: Word, ctx: set<Context>, err: Error) returns (ctx1: set<Context>, err1: Error)
    ensures var p := Find(ws, 0, 0, Bar);
      Stays(4, ws, next, ctx, err) <==>
        if p == |ws| then Stays(5, ws, next, ctx, err)
        else
          Stays(5, ws[..p], ws[p], ctx1, err) &&
          Stays(4, ws[if WithErrors(ws, p) then p + 2 else p + 1..], next, ctx + {PIN}, err1)
    ensures Out(ctx1) && Out(ctx + {PIN}) == Out(ctx)
  {
    var p := Find(ws, 0, 0, Bar);
    StaysMeans(4, ws, next, ctx, err);
    ctx1, err1 := {POUT}, err;
    if p == |ws| {
      StaysMeans(5, ws, next, ctx, err);
    } else {
      var both := WithErrors(ws, p);
      ctx1 := ctx + {POUT} + (if both then {PERR} else {});
      err1 := Syn3(ws[..p], ws[p], ctx1, err).err;
      StaysMeans(5, ws[..p], ws[p], ctx1, err);
      StaysMeans(4, ws[if both then p + 2 else p + 1..], next, ctx + {PIN}, err1);
    }
  }

  /** A command stays within its words unless it overruns, up to the group it may have. */
  lemma CommandParse(ws: seq<Word>, next: Word, ctx: set<Context>, err: Error)
    returns (grouped: bool, group: seq<Word>, next1: Word, err1: Error)
    requires Depth(ws) == 0
    ensures !grouped ==> (Stays(5, ws, next, ctx, err) <==> !Overrun(ws, Out(ctx)))
    ensures grouped ==> (Stays(5, ws, next, ctx, err) <==> Stays(0, group, next1, {PHERE}, err1))
    ensures grouped ==> !Overrun(ws, Out(ctx)) && |group| < |ws| && Balanced(group)
  {
    var st := Fill(ws, 0, Start(next, err), Special(ws), ctx);
    grouped, group, next1, err1 := !Special(ws) && Grouped(st, |ws|), [], next, err;
    CommandLevel(ws, next, ctx, err);
    StaysMeans(5, ws, next, ctx, err);
    if grouped {
      group, next1, err1 := ws[st.lp.value..st.rp.value], ws[st.rp.value], GroupError(st);
      GroupBalanced(ws, next, ctx, err);
      StaysMeans(0, group, next1, {PHERE}, err1);
    }
  }

  /** The filling pass over a command ends at depth zero or less exactly if it does not overrun. */
  lemma CommandLevel(ws: seq<Word>, next: Word, ctx: set<Context>, err: Error)
    requires Depth(ws) == 0
    ensures var st := Fill(ws, 0, Start(next, err), Special(ws), ctx);
      (Overrun(ws, Out(ctx)) <==> !Special(ws) && st.l > 0) && (st.l > 0 ==> st.lp.Some?) &&
      (st.lp.Some? ==> (Grouped(st, |ws|) <==> st.l <= 0)) &&
      (Grouped(st, |ws|) ==> st.lp.Some? && 0 < st.lp.value)
  {
    assert ws[..0] == [];
    FillSwallows(ws, 0, Start(next, err), Special(ws), ctx);
    FillGroups(ws, 0, Start(next, err), Special(ws), ctx);
    GroupClosedIff(ws, next, ctx, err);
  }

  // ---- exactly when ------------------------------------------------------------------------

  lemma {:induction false} AstrayCommand(ws: seq<Word>, next: Word, ctx: set<Context>, err: Error)
    requires Depth(ws) == 0
    ensures Stays(5, ws, next, ctx, err) <==> !Overrun(ws, Out(ctx))
    decreases |ws|, 0
  {
    var grouped, group, next1, err1 := CommandParse(ws, next, ctx, err);
    if grouped {
      AstrayLists(group, next1, {PHERE}, err1);
      SafeLine(group, false);
    }
  }

  lemma {:induction false} AstrayPipe(ws: seq<Word>, next: Word, ctx: set<Context>, err: Error)
    requires Ready(4, ws)
    ensures Stays(4, ws, next, ctx, err) <==> !Lost(ws, Out(ctx))
    decreases |ws|, 1
  {
    var p := Find(ws, 0, 0, Bar);
    var ctx1, err1 := BarParse(ws, next, ctx, err);
    BarParts(ws, Out(ctx));
    if p < |ws| {
      AstrayCommand(ws[..p], ws[p], ctx1, err);
      AstrayPipe(ws[if WithErrors(ws, p) then p + 2 else p + 1..], next, ctx + {PIN}, err1);
    } else {
      AstrayCommand(ws, next, ctx, err);
    }
  }

  /** What follows a `;`. */
  lemma {:induction false} AstrayRest(ws: seq<Word>, next: Word, ctx: set<Context>, err: Error)
    requires Ready(1, ws)
    ensures Stays(6, ws, next, ctx, err) <==> !Lost(ws, Out(ctx))
    decreases |ws|, 7
  {
    ReadyMeans(1, ws);
    StraysClosed(ws, Out(ctx));
    AstrayLine(ws, next, ctx, err);
  }

  /** The levels of `&&`, `||` and `;`. */
  lemma {:induction false} AstrayLevel(sep: Separator, ws: seq<Word>, next: Word, ctx: set<Context>, err: Error)
    requires sep != Bar && Ready(RankOf(sep), ws)
    ensures Stays(RankOf(sep), ws, next, ctx, err) <==> !Lost(ws, Out(ctx))
    decreases |ws|, 5 - RankOf(sep)
  {
    var p := Find(ws, 0, 0, sep);
    LevelParts(ws, sep, Out(ctx));
    if p < |ws| {
      var err1 := LevelCut(sep, ws, next, ctx, err);
      AstrayNext(sep, ws[..p], ws[p], ctx, err);
      if sep == Semicolon {
        AstrayRest(ws[p + 1..], next, ctx, err1);
      } else {
        AstrayLevel(sep, ws[p + 1..], next, ctx, err1);
      }
    } else {
      LevelWhole(sep, ws, next, ctx, err);
      AstrayNext(sep, ws, next, ctx, err);
    }
  }

  /** The level below. */
  lemma {:induction false} AstrayNext(sep: Separator, ws: seq<Word>, next: Word, ctx: set<Context>, err: Error)
    requires sep != Bar && Ready(RankOf(sep) + 1, ws)
    ensures Stays(RankOf(sep) + 1, ws, next, ctx, err) <==> !Lost(ws, Out(ctx))
    decreases |ws|, 5 - RankOf(sep), 0
  {
    match sep
    case Semicolon => AstrayLevel(OrOr, ws, next, ctx, err);
    case OrOr => AstrayLevel(AndAnd, ws, next, ctx, err);
    case AndAnd => AstrayPipe(ws, next, ctx, err);
  }

  /** `syn0` stops at the first `&` for the background, whatever errors there are. */
  lemma {:induction false} AmpersandFirst(ws: seq<Word>, i: nat, err: Error)
    requires i <= |ws|
    requires 0 < i < |ws| ==> !(Redirecting(ws[i - 1]) && ws[i] == "&")
    ensures FindAmpersand(ws, i, Depth(ws[..i]), err).at == Amp(ws, i)
    decreases |ws| - i
  {
    if i < |ws| && !(Depth(ws[..i]) == 0 && Rank(ws, i) == 0) {
      var j, err1 := AmpersandTurn(ws, i, err);
      if j == i + 2 {
        assert Rank(ws, i + 1) == 9 && Amp(ws, i + 1) == Amp(ws, i + 2);
      }
      AmpersandFirst(ws, j, err1);
    }
  }

  /** What `syn0` makes of its words. */
  lemma AmpersandParts(ws: seq<Word>, err: Error)
    ensures var s := FindAmpersand(ws, 0, 0, err);
      s.at == Amp(ws, 0) && (Depth(ws[..s.at]) == 0 ==> Ready(1, ws[..s.at])) &&
      if s.at < |ws| then Depth(ws[..s.at]) == 0 else ws[..s.at] == ws && s.l == Depth(ws)
  {
    assert ws[..0] == [] && ws[..|ws|] == ws;
    AmpersandFirst(ws, 0, err);
    AmpersandDepth(ws, 0, err);
    var p := Amp(ws, 0);
    forall j | 0 <= j < p && Depth(ws[..p][..j]) == 0 ensures Rank(ws[..p], j) >= 1 {
      Ahead(ws, p, j);
    }
    ReadyMeans(1, ws[..p]);
  }

  lemma BackgroundSane(t: Command)
    ensures Sane(Background(t)) == Sane(t)
  {
  }

  /** What `syn0` parses. */
  lemma AmpersandParse(ws: seq<Word>, next: Word, ctx: set<Context>, err: Error) returns (err1: Error, err2: Error)
    ensures var p := Amp(ws, 0);
      Stays(0, ws, next, ctx, err) <==>
        if p == |ws| then Depth(ws) == 0 ==> Stays(1, ws, next, ctx, err1)
        else Stays(1, ws[..p], ws[p], ctx, err1) && Stays(6, ws[p + 1..], next, ctx, err2)
  {
    AmpersandParts(ws, err);
    var s := FindAmpersand(ws, 0, 0, err);
    StaysMeans(0, ws, next, ctx, err);
    err1, err2 := s.err, s.err;
    if s.at < |ws| {
      var car := Syn1(ws[..s.at], ws[s.at], ctx, s.err);
      err2 := car.err;
      BackgroundSane(car.t);
      StaysMeans(1, ws[..s.at], ws[s.at], ctx, err1);
      StaysMeans(6, ws[s.at + 1..], next, ctx, err2);
    } else {
      StaysMeans(1, ws, next, ctx, err1);
    }
  }

  lemma {:induction false} AstrayLists(ws: seq<Word>, next: Word, ctx: set<Context>, err: Error)
    ensures Stays(0, ws, next, ctx, err) <==> !Strays(ws, Out(ctx))
    decreases |ws|, 5
  {
    AmpersandParts(ws, err);
    var p := Amp(ws, 0);
    var err1, err2 := AmpersandParse(ws, next, ctx, err);
    if p < |ws| {
      AstrayLevel(Semicolon, ws[..p], ws[p], ctx, err1);
      AstrayLine(ws[p + 1..], next, ctx, err2);
      LostMeans(ws[..p], Out(ctx));
    } else if Depth(ws) == 0 {
      AstrayLevel(Semicolon, ws, next, ctx, err1);
      LostMeans(ws, Out(ctx));
    }
  }

  lemma {:induction false} AstrayLine(ws: seq<Word>, next: Word, ctx: set<Context>, err: Error)
    ensures Stays(6, ws, next, ctx, err) <==> !Strays(ws, Out(ctx))
    decreases |ws|, 6
  {
    StaysMeans(6, ws, next, ctx, err);
    if ws == [] {
      NothingOverruns(Out(ctx));
    } else if Skipped(ws[0]) {
      StraysSkip(ws, Out(ctx));
      StaysMeans(6, ws[1..], next, ctx, err);
      AstrayLine(ws[1..], next, ctx, err);
    } else {
      StaysMeans(0, ws, next, ctx, err);
      AstrayLists(ws, next, ctx, err);
    }
  }

  /** The parser leaves the words it was given exactly if in one of the commands it looks into, not
      a keyword's, the redirections outside parentheses take more closing than opening parentheses
      for file names. Errors, found before or on the way, do not matter. */
  lemma AstrayIff(ws: seq<Word>, next: Word, ctx: set<Context>, err: Error)
    ensures Sane(Syntax(ws, next, ctx, err).t) <==> !Strays(ws, Out(ctx))
  {
    StaysMeans(6, ws, next, ctx, err);
    AstrayLine(ws, next, ctx, err);
  }

  /** In particular it never does if no closing parenthesis comes before its opening one. */
  lemma BalancedStays(ws: seq<Word>, next: Word, ctx: set<Context>, err: Error)
    requires forall i :: 0 <= i <= |ws| ==> Depth(ws[..i]) >= 0
    ensures Sane(Syntax(ws, next, ctx, err).t)
  {
    AstrayIff(ws, next, ctx, err);
    SafeLine(ws, Out(ctx));
  }

  /** That is not needed: a stray parenthesis alone does no harm. */
  lemma StrayStays(ws: seq<Word>)
    requires ws == [")", "("]
    ensures Depth(ws[..1]) < 0 && Sane(Syntax(ws, "\n", {}, NoError).t)
  {
    assert ws[..0] == [];
    DepthTake(ws, 0);
    DepthTake(ws, 1);
    assert ws[..2] == ws;
    AmpIs(ws, 2);
    CutIs(ws, 2);
    assert Swallowed(ws, 1, -1, false) == 0;
    AstrayIff(ws, "\n", {}, NoError);
  }

  lemma GroupLeftOpenStrays(ws: seq<Word>)
    requires ws == ["x", ">", ")", "(", "b"]
    ensures Strays(ws, false)
  {
    GroupLeftOpen(ws);
    AstrayIff(ws, "\n", {}, NoError);
  }
}
