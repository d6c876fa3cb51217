/** Printing command trees by the grammar of csh's parser, and what kind of word lists that gives. */
module CshPrinting {
  import opened CshSyntax
  import opened CshGroups

  // ---- trees in normal form, and their words ------------------------------------------

  /** The redirections of a command. */
  function Redirects(flags: set<Flag>, lef: Option<Word>, rit: Option<Word>): seq<Word> {
    (if lef.None? then [] else [if READ in flags then "<<" else "<", lef.value]) +
    (if rit.None? then [] else
       [if APPEND in flags then ">>" else ">"] + (if STDERR in flags then ["&"] else []) +
       (if OVERWRITE in flags then ["!"] else []) + [rit.value])
  }

  predicate InBackground(t: Command) {
    (t.Simple? || t.Paren? || t.Node?) && AMPERSAND in t.flags
  }

  /** The words between the two halves of a node. */
  function Between(joint: Joint, flags: set<Flag>, car: Command): seq<Word> {
    match joint
    case LIST => if InBackground(car) then ["&"] else [";"]
    case OR => ["||"]
    case AND => ["&&"]
    case PIPE => if STDERR in flags then ["|", "&"] else ["|"]
  }

  function Print(t: Command): seq<Word> {
    match t
    case Null => []
    case Astray => []
    case Simple(flags, words, lef, rit) => words + Redirects(flags, lef, rit)
    case Paren(flags, sub, lef, rit) => ["("] + Print(sub) + [")"] + Redirects(flags, lef, rit)
    case Node(joint, flags, car, cdr) =>
      if joint == LIST && car == Null then Print(cdr) + [";"]
      else Print(car) + Between(joint, flags, car) + Print(cdr)
  }

  /** The tree with the marks the parser adds: a command is not forked for if it is the last
      one before a closing parenthesis. */
  function Mark(t: Command, last: bool): Command {
    match t
    case Null => Null
    case Astray => Astray
    case Simple(flags, words, lef, rit) => Simple(flags + Forkless(last), words, lef, rit)
    case Paren(flags, sub, lef, rit) => Paren(flags + Forkless(last), Mark(sub, true), lef, rit)
    case Node(joint, flags, car, cdr) =>
      if joint == LIST && car == Null then Node(joint, flags, Null, Mark(cdr, false))
      else Node(joint, flags, Mark(car, false), Mark(cdr, last))
  }

  function Forkless(last: bool): set<Flag> { if last then {NOFORK} else {} }

  /** The command, if it were not in the background. */
  function Front(t: Command): (r: Command)
    ensures Size(r) == Size(t)
  {
    match t
    case Simple(flags, words, lef, rit) => Simple(flags - {AMPERSAND, NOINTERRUPT}, words, lef, rit)
    case Paren(flags, sub, lef, rit) => Paren(flags - {AMPERSAND, NOINTERRUPT}, sub, lef, rit)
    case Node(joint, flags, car, cdr) => Node(joint, flags - {AMPERSAND, NOINTERRUPT}, car, cdr)
    case _ => t
  }

  function Size(t: Command): nat {
    match t
    case Paren(_, sub, _, _) => 1 + Size(sub)
    case Node(_, _, car, cdr) => 1 + Size(car) + Size(cdr)
    case _ => 0
  }

  /** A word that means nothing to the parser. */
  predicate Plain(w: Word) { !Skipped(w) && !RelPar(w) && First(w) != '|' }

  /** Redirections the parser takes in the given place. */
  predicate Allowed(ctx: set<Context>, flags: set<Flag>, lef: Option<Word>, rit: Option<Word>) {
    flags <= {APPEND, STDERR, OVERWRITE, READ} &&
    (lef.None? ==> READ !in flags) &&
    (lef.Some? ==> Plain(lef.value) && PIN !in ctx && (READ in flags ==> PHERE !in ctx)) &&
    (rit.None? ==> flags <= {READ}) &&
    (rit.Some? ==> Plain(rit.value) && (rit.value == "!" ==> OVERWRITE in flags)) &&
    (rit.Some? && POUT in ctx ==> PERR in ctx) &&
    (STDERR in flags ==> POUT !in ctx && PERR !in ctx)
  }

  /** Never more closing parentheses than opening ones, and in the end as many. */
  predicate Balanced(ws: seq<Word>) {
    Depth(ws) == 0 && forall i :: 0 <= i <= |ws| ==> Depth(ws[..i]) >= 0
  }

  /** The words of a keyword's command: groups in parentheses are kept as they are. */
  predicate Kept(ws: seq<Word>) {
    Balanced(ws) &&
    forall i :: 0 <= i < |ws| && Depth(ws[..i]) == 0 ==> Plain(ws[i]) || First(ws[i]) == '('
  }

  predicate AllPlain(ws: seq<Word>) { forall i :: 0 <= i < |ws| ==> Plain(ws[i]) }

  /** What the level k of the grammar can produce: 0 for a list with background commands, then
      1 for `;`, 2 for `||`, 3 for `&&`, 4 for `|` and 5 for a single command. */
  predicate Normal(t: Command, k: nat, ctx: set<Context>)
    requires k <= 5
    decreases Size(t), 5 - k
  {
    if k == 5 then
      (t.Simple? && t.words != [] && (if Special(t.words) then Kept(t.words) else AllPlain(t.words)) &&
       Allowed(ctx, t.flags, t.lef, t.rit)) ||
      (t.Paren? && Normal(t.sub, 0, {PHERE}) && Allowed(ctx, t.flags, t.lef, t.rit))
    else if t.Node? && k == 4 && t.joint == PIPE then
      t.flags <= {STDERR} && Normal(t.car, 5, OutContext(t, ctx)) && Normal(t.cdr, 4, ctx + {PIN})
    else if t.Node? && ((k == 3 && t.joint == AND) || (k == 2 && t.joint == OR)) then
      t.flags == {} && Normal(t.car, k + 1, ctx) && Normal(t.cdr, k, ctx)
    else if t.Node? && k == 1 && t.joint == LIST then
      t.flags == {} &&
      if t.car == Null then Normal(t.cdr, 2, ctx) else Normal(t.car, 2, ctx) && Normal(t.cdr, 1, ctx)
    else if t.Node? && k == 0 && t.joint == LIST && InBackground(t.car) then
      t.flags == {} && t.car.flags == Front(t.car).flags + {AMPERSAND, NOINTERRUPT} &&
      Normal(Front(t.car), 4, ctx) &&
      (t.cdr == Null || Normal(t.cdr, 0, ctx))
    else Normal(t, k + 1, ctx)
  }

  function OutContext(t: Command, ctx: set<Context>): set<Context>
    requires t.Node?
  {
    ctx + {POUT} + if STDERR in t.flags then {PERR} else {}
  }

  // ---- words as the parser scans them --------------------------------------------------

  /** How tightly the word at i would bind as a separator; 9 for words that are none. */
  function Rank(ws: seq<Word>, i: nat): nat
    requires i < |ws|
  {
    var w := ws[i];
    if First(w) == '&' then
      if w == "&" && i > 0 && Redirecting(ws[i - 1]) then 9 else if Second(w) == '&' then 3 else 0
    else if First(w) == ';' || First(w) == '\n' then 1
    else if First(w) == '|' then if Second(w) == '|' then 2 else 4
    else 9
  }

  /** Outside parentheses only separators of rank k and more. */
  predicate Quiet(ws: seq<Word>, k: nat) {
    forall i {:trigger Rank(ws, i)} :: 0 <= i < |ws| && Depth(ws[..i]) == 0 ==> Rank(ws, i) >= k
  }

  predicate Fine(ws: seq<Word>, k: nat) {
    ws != [] && Balanced(ws) && Quiet(ws, k) && !Redirecting(ws[|ws| - 1]) && !Skipped(ws[0])
  }

  lemma FineWeaken(ws: seq<Word>, k: nat, j: nat)
    requires Fine(ws, k) && j <= k
    ensures Fine(ws, j)
  {
  }

  lemma {:induction false} FindFrom(ws: seq<Word>, i: nat, p: nat, sep: Separator)
    requires i <= p <= |ws|
    requires forall j :: i <= j < p && Depth(ws[..j]) == 0 ==> !Separates(ws[j], sep)
    requires p < |ws| ==> Depth(ws[..p]) == 0 && Separates(ws[p], sep)
    ensures Find(ws, i, Depth(ws[..i]), sep) == p
    decreases p - i
  {
    if i < p {
      DepthTake(ws, i);
      FindFrom(ws, i + 1, p, sep);
    }
  }

  function RankOf(sep: Separator): nat {
    match sep
    case Semicolon => 1
    case OrOr => 2
    case AndAnd => 3
    case Bar => 4
  }

  /** The loops stop at the first separator, or at none. */
  lemma FindsFirst(ws: seq<Word>, p: nat, sep: Separator)
    requires p <= |ws| && Quiet(ws[..p], RankOf(sep) + 1)
    requires p < |ws| ==> Depth(ws[..p]) == 0 && Separates(ws[p], sep)
    ensures Find(ws, 0, 0, sep) == p
  {
    forall j | 0 <= j < p && Depth(ws[..j]) == 0 ensures !Separates(ws[j], sep) {
      assert ws[..p][..j] == ws[..j];
      assert Rank(ws[..p], j) > RankOf(sep);
    }
    FindFrom(ws, 0, p, sep);
  }

  /** The word at i is an ampersand that `syn0` stops at if it is outside parentheses. */
  predicate Ampersand(ws: seq<Word>, i: nat)
    requires i < |ws|
  {
    Rank(ws, i) == 0
  }

  lemma {:induction false} AmpersandFrom(ws: seq<Word>, i: nat, p: nat)
    requires i <= p <= |ws|
    requires 0 < i < |ws| ==> !(Redirecting(ws[i - 1]) && ws[i] == "&")
    requires forall j :: i <= j < p ==> !(Depth(ws[..j]) == 0 && Ampersand(ws, j))
    requires forall j :: i <= j <= p ==> Depth(ws[..j]) >= 0
    requires p < |ws| ==> Depth(ws[..p]) == 0 && Ampersand(ws, p)
    ensures FindAmpersand(ws, i, Depth(ws[..i]), NoError) == Stop(p, Depth(ws[..p]), NoError)
    decreases p - i
  {
    if i < p {
      DepthTake(ws, i);
      if Redirecting(ws[i]) && i + 1 < |ws| && ws[i + 1] == "&" {
        DepthTake(ws, i + 1);
        AmpersandFrom(ws, i + 2, p);
      } else {
        AmpersandFrom(ws, i + 1, p);
        AmpersandPassed(ws, i, Depth(ws[..i]));
      }
    }
  }

  /** One word that is no ampersand to stop at. */
  lemma AmpersandPassed(ws: seq<Word>, i: nat, l: int)
    requires i < |ws| && l + Shift(ws[i]) >= 0 && !(l == 0 && Ampersand(ws, i))
    requires 0 < i ==> !(Redirecting(ws[i - 1]) && ws[i] == "&")
    requires !(Redirecting(ws[i]) && i + 1 < |ws| && ws[i + 1] == "&")
    ensures FindAmpersand(ws, i, l, NoError) == FindAmpersand(ws, i + 1, l + Shift(ws[i]), NoError)
  {
  }

  /** `syn0` finds no ampersand in words without one. */
  lemma NoAmpersand(ws: seq<Word>)
    requires Fine(ws, 1)
    ensures FindAmpersand(ws, 0, 0, NoError) == Stop(|ws|, 0, NoError)
  {
    assert ws[..|ws|] == ws;
    AmpersandFrom(ws, 0, |ws|);
  }

  lemma FirstAmpersand(a: seq<Word>, b: seq<Word>)
    requires Fine(a, 1)
    ensures FindAmpersand(a + ["&"] + b, 0, 0, NoError) == Stop(|a|, 0, NoError)
  {
    var ws := a + ["&"] + b;
    forall j | 0 <= j <= |a| ensures ws[..j] == a[..j] && (j < |a| ==> Rank(ws, j) == Rank(a, j)) {
    }
    assert a[..|a|] == a;
    AmpersandFrom(ws, 0, |a|);
  }

  // ---- putting words together ----------------------------------------------------------

  /** The separator words and the levels they may stand in. */
  predicate Joins(m: seq<Word>, k: nat) {
    (m == ["&"] && k == 0) || (m == [";"] && k <= 1) || (m == ["||"] && k <= 2) || (m == ["&&"] && k <= 3) ||
    ((m == ["|"] || m == ["|", "&"]) && k <= 4)
  }

  /** The three parts of a word list, at index i. */
  lemma Parts(a: seq<Word>, m: seq<Word>, b: seq<Word>, i: nat)
    requires i <= |a + m + b|
    ensures var ws := a + m + b;
      Depth(ws[..i]) ==
        if i <= |a| then Depth(a[..i])
        else if i <= |a| + |m| then Depth(a) + Depth(m[..i - |a|])
        else Depth(a) + Depth(m) + Depth(b[..i - |a| - |m|])
  {
    var ws := a + m + b;
    if i <= |a| {
      assert ws[..i] == a[..i];
    } else if i <= |a| + |m| {
      assert ws[..i] == a + m[..i - |a|];
      DepthAppend(a, m[..i - |a|]);
    } else {
      assert ws[..i] == a + m + b[..i - |a| - |m|];
      DepthAppend(a + m, b[..i - |a| - |m|]);
      DepthAppend(a, m);
    }
  }

  lemma Flat(m: seq<Word>)
    requires forall i :: 0 <= i < |m| ==> Shift(m[i]) == 0
    ensures forall i :: 0 <= i <= |m| ==> Depth(m[..i]) == 0
    ensures Depth(m) == 0
  {
    forall i | 0 <= i <= |m| ensures Depth(m[..i]) == 0 {
      FlatTo(m, i);
    }
    assert m[..|m|] == m;
  }

  lemma {:induction false} FlatTo(m: seq<Word>, i: nat)
    requires i <= |m| && forall j :: 0 <= j < |m| ==> Shift(m[j]) == 0
    ensures Depth(m[..i]) == 0
  {
    if i > 0 {
      FlatTo(m, i - 1);
      DepthTake(m, i - 1);
    }
  }

  lemma JoinBalanced(a: seq<Word>, m: seq<Word>, b: seq<Word>)
    requires Balanced(a) && Balanced(m) && Balanced(b)
    ensures Balanced(a + m + b)
  {
    var ws := a + m + b;
    forall i | 0 <= i <= |ws| ensures Depth(ws[..i]) >= 0 {
      Parts(a, m, b, i);
    }
    Parts(a, m, b, |ws|);
    assert ws[..|ws|] == ws && b[..|b|] == b && m[..|m|] == m && a[..|a|] == a;
  }

  lemma PartsRank(a: seq<Word>, m: seq<Word>, b: seq<Word>, i: nat)
    requires i < |a + m + b| && a != [] && !Redirecting(a[|a| - 1])
    requires b != [] ==> First(b[0]) != '&'
    ensures Rank(a + m + b, i) ==
      if i < |a| then Rank(a, i)
      else if i < |a| + |m| then Rank(m, i - |a|)
      else Rank(b, i - |a| - |m|)
  {
  }

  lemma JoinQuiet(a: seq<Word>, m: seq<Word>, b: seq<Word>, k: nat)
    requires a != [] && !Redirecting(a[|a| - 1]) && (b != [] ==> First(b[0]) != '&')
    requires Depth(a) == 0 && forall i :: 0 <= i < |m| ==> Shift(m[i]) == 0 && Rank(m, i) >= k
    requires Quiet(a, k) && Quiet(b, k)
    ensures Quiet(a + m + b, k)
  {
    var ws := a + m + b;
    Flat(m);
    forall i | 0 <= i < |ws| && Depth(ws[..i]) == 0 ensures Rank(ws, i) >= k {
      Parts(a, m, b, i);
      PartsRank(a, m, b, i);
      assert b[..0] == [];
    }
  }

  /** Two pieces with a separator between them. The second may be missing behind `&` and `;`. */
  lemma JoinFine(a: seq<Word>, m: seq<Word>, b: seq<Word>, k: nat)
    requires Fine(a, k) && Joins(m, k) && (if b == [] then m == ["&"] || m == [";"] else Fine(b, k))
    ensures Fine(a + m + b, k)
  {
    Flat(m);
    assert b == [] ==> b[..0] == [];
    JoinBalanced(a, m, b);
    assert forall i :: 0 <= i < |m| ==> Rank(m, i) >= k;
    JoinQuiet(a, m, b, k);
  }

  // ---- the words of one command --------------------------------------------------------

  /** Words outside parentheses of which none is a separator. */
  predicate NoSeparators(m: seq<Word>) {
    forall i :: 0 <= i < |m| ==> Shift(m[i]) == 0 && Rank(m, i) == 9
  }

  /** Words behind a command that belong to it. */
  lemma ExtendFine(a: seq<Word>, m: seq<Word>)
    requires Fine(a, 5) && NoSeparators(m) && (m != [] ==> First(m[0]) != '&' && !Redirecting(m[|m| - 1]))
    ensures Fine(a + m, 5)
  {
    var ws := a + m;
    Flat(m);
    forall i | 0 <= i <= |ws|
      ensures Depth(ws[..i]) == if i <= |a| then Depth(a[..i]) else 0
    {
      if i <= |a| {
        assert ws[..i] == a[..i];
      } else {
        assert ws[..i] == a + m[..i - |a|];
        DepthAppend(a, m[..i - |a|]);
      }
    }
    assert ws[..|ws|] == ws && a[..|a|] == a;
    forall i | 0 <= i < |ws| && Depth(ws[..i]) == 0 ensures Rank(ws, i) >= 5 {
      assert Rank(ws, i) == if i < |a| then Rank(a, i) else Rank(m, i - |a|);
    }
  }

  /** Redirections are no separators. */
  lemma RedirectsQuiet(ctx: set<Context>, flags: set<Flag>, lef: Option<Word>, rit: Option<Word>)
    requires Allowed(ctx, flags, lef, rit)
    ensures var m := Redirects(flags, lef, rit);
      NoSeparators(m) && (m != [] ==> First(m[0]) != '&' && !Redirecting(m[|m| - 1]))
  {
    var m := Redirects(flags, lef, rit);
    forall i | 0 <= i < |m| ensures Shift(m[i]) == 0 && Rank(m, i) == 9 {
      assert |m| <= 6;
    }
  }

  lemma PlainFine(ws: seq<Word>)
    requires ws != [] && AllPlain(ws)
    ensures Fine(ws, 5)
  {
    Flat(ws);
  }

  lemma KeptFine(ws: seq<Word>)
    requires ws != [] && Kept(ws)
    ensures Fine(ws, 5)
  {
    var n := |ws| - 1;
    DepthTake(ws, n);
    assert ws[..n + 1] == ws && ws[..0] == [];
  }

  /** A group in parentheses. */
  lemma GroupFine(a: seq<Word>)
    requires Balanced(a)
    ensures Fine(["("] + a + [")"], 5)
  {
    var ws := ["("] + a + [")"];
    var open, close := ["("], [")"];
    assert open[..0] == [] && close[..0] == [] && open[..1] == open && a[..|a|] == a;
    forall i | 0 <= i <= |ws|
      ensures Depth(ws[..i]) == if i == 0 || i == |ws| then 0 else 1 + Depth(a[..i - 1])
    {
      Parts(open, a, close, i);
      assert Depth(open) == 1 && Depth(close) == -1;
      if i == |ws| {
        assert close[..1] == close;
      }
    }
    assert ws[..|ws|] == ws;
  }

  /** Printed trees are fine for their level. */
  lemma {:induction false} PrintFine(t: Command, k: nat, ctx: set<Context>)
    requires k <= 5 && Normal(t, k, ctx)
    ensures Fine(Print(t), k)
    decreases Size(t), 5 - k
  {
    if k == 5 {
      if t.Simple? {
        if Special(t.words) { KeptFine(t.words); } else { PlainFine(t.words); }
        RedirectsQuiet(ctx, t.flags, t.lef, t.rit);
        ExtendFine(t.words, Redirects(t.flags, t.lef, t.rit));
      } else {
        PrintFine(t.sub, 0, {PHERE});
        GroupFine(Print(t.sub));
        RedirectsQuiet(ctx, t.flags, t.lef, t.rit);
        ExtendFine(["("] + Print(t.sub) + [")"], Redirects(t.flags, t.lef, t.rit));
      }
    } else if t.Node? && k == 4 && t.joint == PIPE {
      PrintFine(t.car, 5, OutContext(t, ctx));
      FineWeaken(Print(t.car), 5, 4);
      PrintFine(t.cdr, 4, ctx + {PIN});
      JoinFine(Print(t.car), Between(PIPE, t.flags, t.car), Print(t.cdr), 4);
    } else if t.Node? && ((k == 3 && t.joint == AND) || (k == 2 && t.joint == OR)) {
      PrintFine(t.car, k + 1, ctx);
      FineWeaken(Print(t.car), k + 1, k);
      PrintFine(t.cdr, k, ctx);
      JoinFine(Print(t.car), Between(t.joint, t.flags, t.car), Print(t.cdr), k);
    } else if t.Node? && k == 1 && t.joint == LIST {
      PrintList(t, ctx);
    } else if t.Node? && k == 0 && t.joint == LIST && InBackground(t.car) {
      PrintBackground(t, ctx);
    } else {
      PrintFine(t, k + 1, ctx);
      FineWeaken(Print(t), k + 1, k);
    }
  }

  lemma {:induction false} PrintList(t: Command, ctx: set<Context>)
    requires t.Node? && t.joint == LIST && Normal(t, 1, ctx)
    ensures Fine(Print(t), 1)
    decreases Size(t), 3
  {
    if t.car == Null {
      PrintFine(t.cdr, 2, ctx);
      FineWeaken(Print(t.cdr), 2, 1);
      JoinFine(Print(t.cdr), [";"], [], 1);
      assert Print(t) == Print(t.cdr) + [";"] + [];
    } else {
      PrintFine(t.car, 2, ctx);
      FineWeaken(Print(t.car), 2, 1);
      PrintFine(t.cdr, 1, ctx);
      Foreground(t.car, 2, ctx);
      JoinFine(Print(t.car), [";"], Print(t.cdr), 1);
    }
  }

  /** Only the first half of a list can be in the background. */
  lemma {:induction false} Foreground(t: Command, k: nat, ctx: set<Context>)
    requires 1 <= k <= 5 && Normal(t, k, ctx)
    ensures t.Simple? || t.Paren? || t.Node?
    ensures !InBackground(t) && (k >= 2 ==> !(t.Node? && t.joint == LIST))
    ensures k >= 4 ==> !(t.Node? && t.joint != PIPE)
    decreases 5 - k
  {
    if k < 5 && !(t.Node? && ((k == 4 && t.joint == PIPE) || (k == 3 && t.joint == AND) ||
                              (k == 2 && t.joint == OR) || (k == 1 && t.joint == LIST))) {
      Foreground(t, k + 1, ctx);
    }
  }

  lemma FrontSame(t: Command)
    requires t.Simple? || t.Paren? || t.Node?
    ensures Print(Front(t)) == Print(t)
  {
  }

  lemma {:induction false} PrintBackground(t: Command, ctx: set<Context>)
    requires t.Node? && t.joint == LIST && InBackground(t.car) && Normal(t, 0, ctx)
    ensures Fine(Print(t), 0) && Fine(Print(t.car), 4)
    decreases Size(t), 4
  {
    PrintFine(Front(t.car), 4, ctx);
    FrontSame(t.car);
    FineWeaken(Print(t.car), 4, 0);
    if t.cdr != Null {
      PrintFine(t.cdr, 0, ctx);
    }
    JoinFine(Print(t.car), ["&"], Print(t.cdr), 0);
  }
}
