/** csh's parser: recursive descent over a range of words, and the command tree it builds. */
module CshSyntax {

  type Word = string

  datatype Option<T> = None | Some(value: T)

  /** `word[0]` and `word[1]`, where the terminating NUL counts. */
  function First(w: Word): char { if w == "" then '\0' else w[0] }

  function Second(w: Word): char { if |w| < 2 then '\0' else w[1] }

  datatype Flag = AMPERSAND | APPEND | NOFORK | NOINTERRUPT | STDERR | OVERWRITE | READ

  datatype Joint = PIPE | LIST | OR | AND

  /** `struct command`. Null is the null pointer; Astray stands where the source would read on
      past the end of its range, which it does only after it has found an error. */
  datatype Command =
    | Null
    | Astray
    | Simple(flags: set<Flag>, words: seq<Word>, lef: Option<Word>, rit: Option<Word>)
    | Paren(flags: set<Flag>, sub: Command, lef: Option<Word>, rit: Option<Word>)
    | Node(joint: Joint, flags: set<Flag>, car: Command, cdr: Command)

  /** What `seterr` may hold. */
  datatype Error =
    | NoError | TooManyRP | TooManyLP | BadPlp | BadPlpS | OutRed | MisRed | RedPar | InRed | NullCom

  /** `seterror`: the first error stays. */
  function SetError(err: Error, e: Error): Error { if err == NoError then e else err }

  /** Where the words come from or go to. */
  datatype Context = PHERE | PIN | POUT | PERR

  datatype Parsed = Parsed(t: Command, err: Error)

  // ---- looking for a separator ---------------------------------------------------------

  function Shift(w: Word): int {
    if First(w) == '(' then 1 else if First(w) == ')' then -1 else 0
  }

  datatype Separator = Semicolon | OrOr | AndAnd | Bar

  predicate Separates(w: Word, sep: Separator) {
    match sep
    case Semicolon => First(w) == ';' || First(w) == '\n'
    case OrOr => First(w) == '|' && Second(w) == '|'
    case AndAnd => First(w) == '&' && Second(w) == '&'
    case Bar => First(w) == '|'
  }

  /** The first separator outside parentheses from word i on, or the end of the range. */
  function Find(ws: seq<Word>, i: nat, l: int, sep: Separator): (p: nat)
    requires i <= |ws|
    ensures i <= p <= |ws|
    decreases |ws| - i
  {
    if i == |ws| then i
    else if l == 0 && Separates(ws[i], sep) then i
    else Find(ws, i + 1, l + Shift(ws[i]), sep)
  }

  /** Where the loop of `syn0` stops, at what depth, and with what error. */
  datatype Stop = Stop(at: nat, l: int, err: Error)

  /** `|` or `>`, after which a word `&` is not a separator. */
  predicate Redirecting(w: Word) {
    (First(w) == '|' && Second(w) != '|') || First(w) == '>'
  }

  /** The loop of `syn0` from word i on. */
  function FindAmpersand(ws: seq<Word>, i: nat, l: int, err: Error): (s: Stop)
    requires i <= |ws|
    ensures i <= s.at <= |ws|
    decreases |ws| - i
  {
    if i == |ws| then Stop(i, l, err)
    else
      var w := ws[i];
      if First(w) == '(' then FindAmpersand(ws, i + 1, l + 1, err)
      else if First(w) == ')' then
        FindAmpersand(ws, i + 1, l - 1, if l - 1 < 0 then SetError(err, TooManyRP) else err)
      else if Redirecting(w) then
        FindAmpersand(ws, if i + 1 < |ws| && ws[i + 1] == "&" then i + 2 else i + 1, l, err)
      else if First(w) == '&' && l == 0 && Second(w) != '&' then Stop(i, l, err)
      else FindAmpersand(ws, i + 1, l, err)
  }

  // ---- the levels of the grammar -------------------------------------------------------

  /** A word that `syntax` passes over. */
  predicate Skipped(w: Word) { First(w) == ';' || First(w) == '&' || First(w) == '\n' }

  /** `syntax`: the words ws of a range, which the word next follows. */
  function Syntax(ws: seq<Word>, next: Word, ctx: set<Context>, err: Error): Parsed
    decreases |ws|, 6
  {
    if ws == [] then Parsed(Null, err)
    else if Skipped(ws[0]) then Syntax(ws[1..], next, ctx, err)
    else Syn0(ws, next, ctx, err)
  }

  /** What `syn0` makes of the command before an `&`. */
  function Background(t: Command): Command {
    match t
    case Node(joint, flags, car, cdr) =>
      if joint == PIPE then Node(joint, flags + {AMPERSAND, NOINTERRUPT}, car, cdr)
      else Paren({AMPERSAND, NOINTERRUPT}, t, None, None)
    case Simple(flags, words, lef, rit) => Simple(flags + {AMPERSAND, NOINTERRUPT}, words, lef, rit)
    case Paren(flags, sub, lef, rit) => Paren(flags + {AMPERSAND, NOINTERRUPT}, sub, lef, rit)
    case _ => t
  }

  function Syn0(ws: seq<Word>, next: Word, ctx: set<Context>, err: Error): Parsed
    decreases |ws|, 5
  {
    var s := FindAmpersand(ws, 0, 0, err);
    if s.at < |ws| then
      var car := Syn1(ws[..s.at], ws[s.at], ctx, s.err);
      // The source starts again at the ampersand, which `syntax` passes over.
      var cdr := Syntax(ws[s.at + 1..], next, ctx, car.err);
      Parsed(Node(LIST, {}, Background(car.t), cdr.t), cdr.err)
    else if s.l == 0 then Syn1(ws, next, ctx, s.err)
    else Parsed(Null, SetError(s.err, TooManyLP))
  }

  /** A list without its second half is that of its first. */
  function List(car: Command, cdr: Command): Command {
    if cdr == Null then Node(LIST, {}, Null, car) else Node(LIST, {}, car, cdr)
  }

  function Syn1(ws: seq<Word>, next: Word, ctx: set<Context>, err: Error): Parsed
    decreases |ws|, 4
  {
    var p := Find(ws, 0, 0, Semicolon);
    if p < |ws| then
      var car := Syn1a(ws[..p], ws[p], ctx, err);
      var cdr := Syntax(ws[p + 1..], next, ctx, car.err);
      Parsed(List(car.t, cdr.t), cdr.err)
    else Syn1a(ws, next, ctx, err)
  }

  function Syn1a(ws: seq<Word>, next: Word, ctx: set<Context>, err: Error): Parsed
    decreases |ws|, 3
  {
    var p := Find(ws, 0, 0, OrOr);
    if p < |ws| then
      var car := Syn1b(ws[..p], ws[p], ctx, err);
      var cdr := Syn1a(ws[p + 1..], next, ctx, car.err);
      Parsed(Node(OR, {}, car.t, cdr.t), cdr.err)
    else Syn1b(ws, next, ctx, err)
  }

  function Syn1b(ws: seq<Word>, next: Word, ctx: set<Context>, err: Error): Parsed
    decreases |ws|, 2
  {
    var p := Find(ws, 0, 0, AndAnd);
    if p < |ws| then
      var car := Syn2(ws[..p], ws[p], ctx, err);
      var cdr := Syn1b(ws[p + 1..], next, ctx, car.err);
      Parsed(Node(AND, {}, car.t, cdr.t), cdr.err)
    else Syn2(ws, next, ctx, err)
  }

  /** The bar at p is one of `|&`. */
  predicate WithErrors(ws: seq<Word>, p: nat) { p + 1 < |ws| && First(ws[p + 1]) == '&' }

  function Syn2(ws: seq<Word>, next: Word, ctx: set<Context>, err: Error): Parsed
    decreases |ws|, 1
  {
    var p := Find(ws, 0, 0, Bar);
    if p < |ws| then
      var both := WithErrors(ws, p);
      var car := Syn3(ws[..p], ws[p], ctx + {POUT} + (if both then {PERR} else {}), err);
      var cdr := Syn2(ws[if both then p + 2 else p + 1..], next, ctx + {PIN}, car.err);
      Parsed(Node(PIPE, if both then {STDERR} else {}, car.t, cdr.t), cdr.err)
    else Syn3(ws, next, ctx, err)
  }

  /** Commands whose words may be in parentheses. */
  predicate Keyword(w: Word) {
    w == "exit" || w == "foreach" || w == "if" || w == "@" || w == "set" || w == "switch" || w == "while"
  }

  /** `specp`: the first word that is not `else` is a keyword. */
  predicate Special(ws: seq<Word>)
    decreases |ws|
  {
    ws != [] && if ws[0] == "else" then Special(ws[1..]) else Keyword(ws[0])
  }

  function Syn3(ws: seq<Word>, next: Word, ctx: set<Context>, err: Error): Parsed
    decreases |ws|, 0
  {
    var st := Fill(ws, 0, Start(next, err), Special(ws), ctx);
    Syn3End(ws, st, Special(ws),
      if Grouped(st, |ws|) then Syn0(ws[st.lp.value..st.rp.value], ws[st.rp.value], {PHERE}, GroupError(st))
      else Parsed(Astray, GroupError(st)))
  }

  // ---- syn3: the words and redirections of one command ----------------------------------

  /** The filling pass: depth, number of words, the words stored, redirections, parentheses. */
  datatype Pass = Pass(l: int, n: nat, av: seq<Word>, flags: set<Flag>, lef: Option<Word>, rit: Option<Word>,
                       lp: Option<nat>, rp: Option<nat>, err: Error)

  function Start(next: Word, err: Error): Pass {
    Pass(0, 0, [], if First(next) == ')' then {NOFORK} else {}, None, None, None, None, err)
  }

  /** One of `<>()`. */
  predicate RelPar(w: Word) { First(w) == '<' || First(w) == '>' || First(w) == '(' || First(w) == ')' }

  /** A word is stored unless there has been an error, and counted in any case. */
  function Store(st: Pass, w: Word): Pass {
    st.(n := st.n + 1, av := if st.err == NoError then st.av + [w] else st.av)
  }

  function Fail(st: Pass, e: Error): Pass { st.(err := SetError(st.err, e)) }

  function Enter(st: Pass, i: nat, specp: bool): Pass {
    var st1 := if st.l == 0 && st.lp.Some? && !specp then Fail(st, BadPlp) else st;
    st1.(lp := if st.l == 0 then Some(i + 1) else st.lp, l := st.l + 1)
  }

  function Leave(st: Pass, i: nat): Pass {
    st.(l := st.l - 1, rp := if st.l - 1 == 0 then Some(i) else st.rp)
  }

  predicate At(ws: seq<Word>, i: nat, w: Word) { i < |ws| && ws[i] == w }

  /** A redirection leaves the words, the depth and the parentheses alone. */
  predicate SameWords(st: Pass, st1: Pass) {
    st1.l == st.l && st1.n == st.n && st1.av == st.av && st1.lp == st.lp && st1.rp == st.rp
  }

  /** The words after `>` at i: the last one taken, and what is known after it. */
  function RedirectOut(ws: seq<Word>, i: nat, st: Pass, ctx: set<Context>): (r: (nat, Pass))
    requires i < |ws|
    ensures i <= r.0 < |ws| && SameWords(st, r.1) && (st.err != NoError ==> r.1.err == st.err)
  {
    var st1 := if Second(ws[i]) == '>' then st.(flags := st.flags + {APPEND}) else st;
    var both := At(ws, i + 1, "&");
    var st2 := if both then st1.(flags := st1.flags + {STDERR}) else st1;
    var j := if both then i + 1 else i;
    if both && (POUT in ctx || PERR in ctx) then (j, Fail(st2, OutRed))
    else
      var bang := At(ws, j + 1, "!");
      var st3 := if bang then st2.(flags := st2.flags + {OVERWRITE}) else st2;
      var k := if bang then j + 1 else j;
      if k + 1 == |ws| then (k, Fail(st3, MisRed))
      else if RelPar(ws[k + 1]) then (k + 1, Fail(st3, MisRed))
      else if POUT in ctx && (PERR !in ctx || st3.rit.Some?) then (k + 1, Fail(st3, OutRed))
      else (k + 1, st3.(rit := Some(ws[k + 1])))
  }

  /** The words after `<` at i. */
  function RedirectIn(ws: seq<Word>, i: nat, st: Pass, ctx: set<Context>): (r: (nat, Pass))
    requires i < |ws|
    ensures i <= r.0 < |ws| && SameWords(st, r.1) && (st.err != NoError ==> r.1.err == st.err)
  {
    var st1 := if Second(ws[i]) == '<' then st.(flags := st.flags + {READ}) else st;
    if i + 1 == |ws| then (i, Fail(st1, MisRed))
    else if RelPar(ws[i + 1]) then (i + 1, Fail(st1, MisRed))
    else if PHERE in ctx && READ in st1.flags then (i + 1, Fail(st1, RedPar))
    else if PIN in ctx || st1.lef.Some? then (i + 1, Fail(st1, InRed))
    else (i + 1, st1.(lef := Some(ws[i + 1])))
  }

  /** One turn of the filling loop at word i: the last word taken, and the state after it. */
  function Turn(ws: seq<Word>, i: nat, st: Pass, specp: bool, ctx: set<Context>): (r: (nat, Pass))
    requires i < |ws|
    ensures i <= r.0 < |ws| && |st.av| <= |r.1.av|
  {
    var w := ws[i];
    if First(w) == '(' then
      var st1 := Enter(st, i, specp);
      (i, if specp then Store(st1, w) else st1)
    else if First(w) == ')' then
      var st1 := Leave(st, i);
      (i, if specp then Store(st1, w) else st1)
    else if First(w) == '>' && st.l == 0 then RedirectOut(ws, i, st, ctx)
    else if First(w) == '<' && st.l == 0 then RedirectIn(ws, i, st, ctx)
    else (i, if st.l != 0 && !specp then st else Store(st, w))
  }

  function Fill(ws: seq<Word>, i: nat, st: Pass, specp: bool, ctx: set<Context>): Pass
    requires i <= |ws|
    decreases |ws| - i
  {
    if i == |ws| then st
    else
      var r := Turn(ws, i, st, specp, ctx);
      Fill(ws, r.0 + 1, r.1, specp, ctx)
  }

  /** The last group found is closed after it was opened. */
  predicate Grouped(st: Pass, n: nat) {
    st.lp.Some? && st.rp.Some? && st.lp.value <= st.rp.value < n
  }

  function GroupError(st: Pass): Error { if st.n != 0 then SetError(st.err, BadPlpS) else st.err }

  /** The end of `syn3`, given what becomes of the words in parentheses. */
  function Syn3End(ws: seq<Word>, st: Pass, specp: bool, sub: Parsed): Parsed {
    if st.lp.Some? && !specp then Parsed(Paren(st.flags, sub.t, st.lef, st.rit), sub.err)
    else Parsed(Simple(st.flags, st.av, st.lef, st.rit), if st.n == 0 then SetError(st.err, NullCom) else st.err)
  }

  /** What the counting pass of `syn3` adds from word i on. */
  function Count(ws: seq<Word>, i: nat, l: int, specp: bool): int
    requires i <= |ws|
    decreases |ws| - i
  {
    if i == |ws| then 0
    else Weight(ws, i, l, specp) + Count(ws, i + 1, l + Shift(ws[i]), specp)
  }

  function Weight(ws: seq<Word>, i: nat, l: int, specp: bool): int
    requires i < |ws|
  {
    var w := ws[i];
    if Shift(w) != 0 then if specp then 1 else 0
    else if First(w) == '<' || First(w) == '>' then
      if l != 0 then if specp then 1 else 0
      else if i + 1 == |ws| || RelPar(ws[i + 1]) then 0
      else -1
    else if !specp && l != 0 then 0
    else 1
  }

  /** The word after a redirection makes up for what the redirection takes away, so the
      count never ends below zero. */
  lemma {:induction false} CountNonNegative(ws: seq<Word>, i: nat, l: int, specp: bool)
    requires i <= |ws|
    ensures Count(ws, i, l, specp) >= 0
    decreases |ws| - i
  {
    if i < |ws| {
      if Weight(ws, i, l, specp) < 0 {
        CountNonNegative(ws, i + 2, l, specp);
        assert Weight(ws, i + 1, l, specp) == 1;
      } else {
        CountNonNegative(ws, i + 1, l + Shift(ws[i]), specp);
      }
    }
  }

  /** Words outside parentheses that are no redirections. */
  lemma {:induction false} CountPlain(ws: seq<Word>, i: nat, j: nat, specp: bool)
    requires i <= j <= |ws| && forall k :: i <= k < j ==> !RelPar(ws[k])
    ensures Count(ws, i, 0, specp) == j - i + Count(ws, j, 0, specp)
    decreases j - i
  {
    if i < j {
      CountPlain(ws, i + 1, j, specp);
    }
  }

  /** A redirection and the words that belong to it. */
  lemma CountRedirection(ws: seq<Word>, i: nat, j: nat, specp: bool)
    requires i < j <= |ws| && (First(ws[i]) == '<' || First(ws[i]) == '>')
    requires forall k :: i < k < j ==> !RelPar(ws[k])
    requires j == i + 1 ==> i + 1 == |ws|
    ensures Count(ws, j, 0, specp) <= Count(ws, i, 0, specp)
  {
    CountPlain(ws, i + 1, j, specp);
  }

  /** A turn that finds no error stores no more than the words it takes have been counted for,
      and leaves the depth the counting pass has there. */
  lemma TurnCounted(ws: seq<Word>, i: nat, st: Pass, specp: bool, ctx: set<Context>)
    requires i < |ws| && st.err == NoError
    ensures var r := Turn(ws, i, st, specp, ctx);
      |r.1.av| <= |st.av| + Count(ws, i, st.l, specp) &&
      (r.1.err == NoError ==>
        |r.1.av| + Count(ws, r.0 + 1, r.1.l, specp) <= |st.av| + Count(ws, i, st.l, specp))
  {
    var r := Turn(ws, i, st, specp, ctx);
    CountNonNegative(ws, i, st.l, specp);
    CountNonNegative(ws, i + 1, st.l + Shift(ws[i]), specp);
    if st.l == 0 && (First(ws[i]) == '<' || First(ws[i]) == '>') && r.1.err == NoError {
      CountRedirection(ws, i, r.0 + 1, specp);
    }
  }

  /** After an error nothing more is stored. */
  lemma {:induction false} FillStops(ws: seq<Word>, i: nat, st: Pass, specp: bool, ctx: set<Context>)
    requires i <= |ws| && st.err != NoError
    ensures Fill(ws, i, st, specp, ctx).av == st.av
    decreases |ws| - i
  {
    if i < |ws| {
      var r := Turn(ws, i, st, specp, ctx);
      TurnFails(ws, i, st, specp, ctx);
      FillStops(ws, r.0 + 1, r.1, specp, ctx);
    }
  }

  /** The filling pass stores no more words than were counted. */
  lemma {:induction false} FillFits(ws: seq<Word>, i: nat, st: Pass, specp: bool, ctx: set<Context>)
    requires i <= |ws| && st.err == NoError
    ensures |Fill(ws, i, st, specp, ctx).av| <= |st.av| + Count(ws, i, st.l, specp)
    decreases |ws| - i
  {
    if i < |ws| {
      var j, st1 := CountedTurn(ws, i, st, specp, ctx);
      if st1.err == NoError {
        FillFits(ws, j, st1, specp, ctx);
      } else {
        FillStops(ws, j, st1, specp, ctx);
      }
    }
  }

  /** No redirection of the output has a modifier, which would be counted like a word. */
  predicate Direct(ws: seq<Word>) {
    forall k :: 0 <= k && k + 1 < |ws| && First(ws[k]) == '>' ==> ws[k + 1] != "&" && ws[k + 1] != "!"
  }

  /** A redirection without an error takes the word behind it and no other. */
  lemma RedirectExact(ws: seq<Word>, i: nat, st: Pass, specp: bool, ctx: set<Context>)
    requires i < |ws| && Direct(ws) && st.err == NoError && Turn(ws, i, st, specp, ctx).1.err == NoError
    requires st.l == 0 && (First(ws[i]) == '<' || First(ws[i]) == '>')
    ensures i + 1 < |ws| && !RelPar(ws[i + 1])
    ensures var r := Turn(ws, i, st, specp, ctx); r.0 == i + 1 && r.1.av == st.av && r.1.l == 0
  {
  }

  lemma RedirectCount(ws: seq<Word>, i: nat, specp: bool)
    requires i + 1 < |ws| && !RelPar(ws[i + 1]) && (First(ws[i]) == '<' || First(ws[i]) == '>')
    ensures Count(ws, i, 0, specp) == Count(ws, i + 2, 0, specp)
  {
    CountPlain(ws, i + 1, i + 2, specp);
  }

  lemma TurnExact(ws: seq<Word>, i: nat, st: Pass, specp: bool, ctx: set<Context>)
    requires i < |ws| && Direct(ws) && st.err == NoError && Turn(ws, i, st, specp, ctx).1.err == NoError
    ensures var r := Turn(ws, i, st, specp, ctx);
      |r.1.av| + Count(ws, r.0 + 1, r.1.l, specp) == |st.av| + Count(ws, i, st.l, specp)
  {
    if st.l == 0 && (First(ws[i]) == '<' || First(ws[i]) == '>') {
      RedirectExact(ws, i, st, specp, ctx);
      RedirectCount(ws, i, specp);
    } else {
      PlainExact(ws, i, st, specp, ctx);
    }
  }

  lemma PlainExact(ws: seq<Word>, i: nat, st: Pass, specp: bool, ctx: set<Context>)
    requires i < |ws| && st.err == NoError && Turn(ws, i, st, specp, ctx).1.err == NoError
    requires st.l != 0 || (First(ws[i]) != '<' && First(ws[i]) != '>')
    ensures var r := Turn(ws, i, st, specp, ctx);
      |r.1.av| + Count(ws, r.0 + 1, r.1.l, specp) == |st.av| + Count(ws, i, st.l, specp)
  {
  }

  /** Without an error, and without modifiers, it stores as many as were counted. */
  lemma {:induction false} FillExact(ws: seq<Word>, i: nat, st: Pass, specp: bool, ctx: set<Context>)
    requires i <= |ws| && Direct(ws) && st.err == NoError && Fill(ws, i, st, specp, ctx).err == NoError
    ensures |Fill(ws, i, st, specp, ctx).av| == |st.av| + Count(ws, i, st.l, specp)
    decreases |ws| - i
  {
    if i < |ws| {
      var r := Turn(ws, i, st, specp, ctx);
      if r.1.err != NoError {
        FillFails(ws, r.0 + 1, r.1, specp, ctx);
      }
      TurnExact(ws, i, st, specp, ctx);
      FillExact(ws, r.0 + 1, r.1, specp, ctx);
    }
  }

  lemma {:induction false} FillFails(ws: seq<Word>, i: nat, st: Pass, specp: bool, ctx: set<Context>)
    requires i <= |ws| && st.err != NoError
    ensures Fill(ws, i, st, specp, ctx).err == st.err
    decreases |ws| - i
  {
    if i < |ws| {
      var r := Turn(ws, i, st, specp, ctx);
      TurnFails(ws, i, st, specp, ctx);
      FillFails(ws, r.0 + 1, r.1, specp, ctx);
    }
  }

  /** Where a turn leads, and that it has stored no more than was counted. */
  lemma CountedTurn(ws: seq<Word>, i: nat, st: Pass, specp: bool, ctx: set<Context>) returns (j: nat, st1: Pass)
    requires i < |ws| && st.err == NoError
    ensures i < j <= |ws| && Fill(ws, i, st, specp, ctx) == Fill(ws, j, st1, specp, ctx)
    ensures |st1.av| <= |st.av| + Count(ws, i, st.l, specp)
    ensures st1.err == NoError ==> |st1.av| + Count(ws, j, st1.l, specp) <= |st.av| + Count(ws, i, st.l, specp)
  {
    TurnCounted(ws, i, st, specp, ctx);
    j, st1 := FillTurned(ws, i, st, specp, ctx);
  }

  lemma FillTurned(ws: seq<Word>, i: nat, st: Pass, specp: bool, ctx: set<Context>) returns (j: nat, st1: Pass)
    requires i < |ws|
    ensures Turn(ws, i, st, specp, ctx) == (j - 1, st1) && i < j <= |ws|
    ensures Fill(ws, i, st, specp, ctx) == Fill(ws, j, st1, specp, ctx)
  {
    var r := Turn(ws, i, st, specp, ctx);
    j, st1 := r.0 + 1, r.1;
  }

  /** An error stays, and nothing is stored after it. */
  lemma TurnFails(ws: seq<Word>, i: nat, st: Pass, specp: bool, ctx: set<Context>)
    requires i < |ws| && st.err != NoError
    ensures Turn(ws, i, st, specp, ctx).1.err == st.err && Turn(ws, i, st, specp, ctx).1.av == st.av
  {
  }
}
