/** What brace expansion means: the words of a pattern, independently of how braces are found. */
module CshBraceMeaning {
  import opened CshBraces

  /** A pattern: characters, classes in square brackets, and groups of alternatives. */
  datatype Pattern =
    | End
    | Char(c: char, rest: Pattern)
    | Class(text: Word, rest: Pattern)
    | Group(alts: Alternation, rest: Pattern)

  datatype Alternation = One(last: Pattern) | More(first: Pattern, others: Alternation)

  /** How a pattern is written. */
  function Show(p: Pattern): Word {
    match p
    case End => ""
    case Char(c, rest) => [c] + Show(rest)
    case Class(text, rest) => "[" + (text + ("]" + Show(rest)))
    case Group(alts, rest) => "{" + (ShowAlts(alts) + ("}" + Show(rest)))
  }

  function ShowAlts(alts: Alternation): Word {
    match alts
    case One(p) => Show(p)
    case More(p, others) => Show(p) + ("," + ShowAlts(others))
  }

  /** Characters that can stand for themselves; inside a group fewer can. */
  predicate WellFormed(p: Pattern, inside: bool) {
    match p
    case End => true
    case Char(c, rest) =>
      c != '{' && (inside ==> c != '}' && c != ',' && c != '[') && WellFormed(rest, inside)
    case Class(text, rest) => '{' !in text && ']' !in text && WellFormed(rest, inside)
    case Group(alts, rest) => WellFormedAlts(alts) && WellFormed(rest, inside)
  }

  predicate WellFormedAlts(alts: Alternation) {
    match alts
    case One(p) => WellFormed(p, true)
    case More(p, others) => WellFormed(p, true) && WellFormedAlts(others)
  }

  /** Every word of xs in front of every word of ys. */
  function Cross(xs: seq<Word>, ys: seq<Word>): seq<Word>
    decreases |xs|
  {
    if xs == [] then [] else Prefixed(xs[0], ys) + Cross(xs[1..], ys)
  }

  function Prefixed(x: Word, ys: seq<Word>): seq<Word>
    decreases |ys|
  {
    if ys == [] then [] else [x + ys[0]] + Prefixed(x, ys[1..])
  }

  /** The words of a pattern: the product of what its parts can be, the leftmost varying slowest. */
  function Words(p: Pattern): seq<Word> {
    match p
    case End => [""]
    case Char(c, rest) => Cross([[c]], Words(rest))
    case Class(text, rest) => Cross(["[" + text + "]"], Words(rest))
    case Group(alts, rest) => Cross(Choices(alts), Words(rest))
  }

  function Choices(alts: Alternation): seq<Word> {
    match alts
    case One(p) => Words(p)
    case More(p, others) => Words(p) + Choices(others)
  }

  // ---- the product ---------------------------------------------------------------------

  lemma {:induction false} PrefixedAppend(x: Word, ys: seq<Word>, zs: seq<Word>)
    ensures Prefixed(x, ys + zs) == Prefixed(x, ys) + Prefixed(x, zs)
    decreases |ys|
  {
    if ys == [] {
      assert ys + zs == zs;
    } else {
      PrefixedAppend(x, ys[1..], zs);
      assert (ys + zs)[1..] == ys[1..] + zs;
    }
  }

  lemma {:induction false} PrefixedTwice(x: Word, y: Word, zs: seq<Word>)
    ensures Prefixed(x, Prefixed(y, zs)) == Prefixed(x + y, zs)
    decreases |zs|
  {
    if zs != [] {
      PrefixedTwice(x, y, zs[1..]);
      assert x + (y + zs[0]) == (x + y) + zs[0];
    }
  }

  lemma CrossOne(x: Word, ys: seq<Word>)
    ensures Cross([x], ys) == Prefixed(x, ys)
  {
    assert [x][1..] == [] && Prefixed(x, ys) + [] == Prefixed(x, ys);
  }

  lemma {:induction false} CrossAppend(xs: seq<Word>, ys: seq<Word>, zs: seq<Word>)
    ensures Cross(xs + ys, zs) == Cross(xs, zs) + Cross(ys, zs)
    decreases |xs|
  {
    if xs == [] {
      assert xs + ys == ys;
    } else {
      CrossAppend(xs[1..], ys, zs);
      assert (xs + ys)[1..] == xs[1..] + ys;
    }
  }

  lemma {:induction false} PrefixedCross(x: Word, ys: seq<Word>, zs: seq<Word>)
    ensures Prefixed(x, Cross(ys, zs)) == Cross(Prefixed(x, ys), zs)
    decreases |ys|
  {
    if ys != [] {
      PrefixedCross(x, ys[1..], zs);
      PrefixedAppend(x, Prefixed(ys[0], zs), Cross(ys[1..], zs));
      PrefixedTwice(x, ys[0], zs);
      assert Prefixed(x, ys)[1..] == Prefixed(x, ys[1..]);
    }
  }

  lemma {:induction false} CrossAssociative(xs: seq<Word>, ys: seq<Word>, zs: seq<Word>)
    ensures Cross(xs, Cross(ys, zs)) == Cross(Cross(xs, ys), zs)
    decreases |xs|
  {
    if xs != [] {
      CrossAssociative(xs[1..], ys, zs);
      PrefixedCross(xs[0], ys, zs);
      CrossAppend(Prefixed(xs[0], ys), Cross(xs[1..], ys), zs);
    }
  }

  lemma {:induction false} PrefixedEmpty(ys: seq<Word>)
    ensures Prefixed("", ys) == ys
    decreases |ys|
  {
    if ys != [] {
      PrefixedEmpty(ys[1..]);
      assert "" + ys[0] == ys[0];
    }
  }

  function Append(p: Pattern, q: Pattern): Pattern {
    match p
    case End => q
    case Char(c, rest) => Char(c, Append(rest, q))
    case Class(text, rest) => Class(text, Append(rest, q))
    case Group(alts, rest) => Group(alts, Append(rest, q))
  }

  lemma {:induction false} WordsAppend(p: Pattern, q: Pattern)
    ensures Words(Append(p, q)) == Cross(Words(p), Words(q))
  {
    match p
    case End =>
      CrossOne("", Words(q));
      PrefixedEmpty(Words(q));
    case Char(c, rest) =>
      WordsAppend(rest, q);
      CrossAssociative([[c]], Words(rest), Words(q));
    case Class(text, rest) =>
      WordsAppend(rest, q);
      CrossAssociative(["[" + text + "]"], Words(rest), Words(q));
    case Group(alts, rest) =>
      WordsAppend(rest, q);
      CrossAssociative(Choices(alts), Words(rest), Words(q));
  }

  lemma Regroup<T>(a: seq<T>, b: seq<T>, c: seq<T>)
    ensures a + (b + c) == (a + b) + c
  {
  }

  lemma Regroup3<T>(a: seq<T>, b: seq<T>, c: seq<T>, x: seq<T>, y: seq<T>)
    ensures a + (b + (c + (x + y))) == (a + (b + (c + x))) + y
  {
    Regroup(c, x, y);
    Regroup(b, c + x, y);
    Regroup(a, b + (c + x), y);
  }

  lemma {:induction false} ShowAppend(p: Pattern, q: Pattern)
    ensures Show(Append(p, q)) == Show(p) + Show(q)
  {
    match p
    case End =>
    case Char(c, rest) =>
      ShowAppend(rest, q);
      Regroup([c], Show(rest), Show(q));
    case Class(text, rest) =>
      ShowAppend(rest, q);
      Regroup3("[", text, "]", Show(rest), Show(q));
    case Group(alts, rest) =>
      ShowAppend(rest, q);
      Regroup3("{", ShowAlts(alts), "}", Show(rest), Show(q));
  }

  lemma {:induction false} WellFormedAppend(p: Pattern, q: Pattern)
    requires WellFormed(p, false) && WellFormed(q, false)
    ensures WellFormed(Append(p, q), false)
  {
    match p
    case End =>
    case Char(_, rest) => WellFormedAppend(rest, q);
    case Class(_, rest) => WellFormedAppend(rest, q);
    case Group(_, rest) => WellFormedAppend(rest, q);
  }

  lemma {:induction false} Outside(p: Pattern)
    requires WellFormed(p, true)
    ensures WellFormed(p, false)
  {
    match p
    case End =>
    case Char(_, rest) => Outside(rest);
    case Class(_, rest) => Outside(rest);
    case Group(_, rest) => Outside(rest);
  }

  // ---- the first group -----------------------------------------------------------------

  /** No groups. */
  predicate Ungrouped(p: Pattern) {
    match p
    case End => true
    case Char(_, rest) => Ungrouped(rest)
    case Class(_, rest) => Ungrouped(rest)
    case Group(_, _) => false
  }

  lemma {:induction false} UngroupedWords(p: Pattern)
    requires Ungrouped(p) && WellFormed(p, false)
    ensures Words(p) == [Show(p)] && '{' !in Show(p)
  {
    match p
    case End =>
    case Char(c, rest) =>
      UngroupedWords(rest);
      CrossOne([c], Words(rest));
      assert [Show(rest)][1..] == [];
    case Class(text, rest) =>
      UngroupedWords(rest);
      CrossOne("[" + text + "]", Words(rest));
      assert [Show(rest)][1..] == [];
      assert "[" + text + "]" + Show(rest) == Show(p);
  }

  /** The part before the first group, and the first group with what follows. */
  function Before(p: Pattern): Pattern {
    match p
    case End => End
    case Char(c, rest) => Char(c, Before(rest))
    case Class(text, rest) => Class(text, Before(rest))
    case Group(_, _) => End
  }

  function From(p: Pattern): Pattern {
    match p
    case End => End
    case Char(_, rest) => From(rest)
    case Class(_, rest) => From(rest)
    case Group(_, _) => p
  }

  lemma {:induction false} SplitAtGroup(p: Pattern)
    requires !Ungrouped(p)
    ensures From(p).Group? && Ungrouped(Before(p)) && p == Append(Before(p), From(p))
    ensures forall inside :: WellFormed(p, inside) ==> WellFormed(Before(p), inside) && WellFormed(From(p), inside)
  {
    match p
    case Char(_, rest) => SplitAtGroup(rest);
    case Class(_, rest) => SplitAtGroup(rest);
    case Group(_, _) =>
  }

  // ---- how the loops pass over a pattern -----------------------------------------------

  /** The word s has the text t at position i. Proofs look only at the places they name. */
  ghost predicate Has(s: Word, i: nat, t: Word) {
    i + |t| <= |s| && forall k {:trigger Place(k)} :: Place(k) && 0 <= k < |t| ==> s[i + k] == t[k]
  }

  ghost predicate Place(k: int) { true }

  lemma HasBoth(s: Word, i: nat, a: Word, b: Word)
    requires Has(s, i, a + b)
    ensures Has(s, i, a) && Has(s, i + |a|, b)
  {
    forall k: nat | 0 <= k < |a| ensures s[i + k] == a[k] {
      assert Place(k);
    }
    forall k: nat | 0 <= k < |b| ensures s[i + |a| + k] == b[k] {
      assert Place(|a| + k);
    }
  }

  lemma HasFirst(s: Word, i: nat, c: char, t: Word)
    requires Has(s, i, [c] + t)
    ensures i < |s| && s[i] == c && Has(s, i + 1, t)
  {
    HasBoth(s, i, [c], t);
    assert Place(0);
  }

  /** The text a, the character c, and t. */
  lemma HasAround(s: Word, i: nat, a: Word, c: char, t: Word)
    requires Has(s, i, a + ([c] + t))
    ensures Has(s, i, a) && i + |a| < |s| && s[i + |a|] == c && Has(s, i + |a| + 1, t)
  {
    HasBoth(s, i, a, [c] + t);
    HasFirst(s, i + |a|, c, t);
  }

  lemma {:induction false} ClassScan(s: Word, i: nat, j: nat)
    requires i <= j < |s| && s[j] == ']' && forall k :: i <= k < j ==> s[k] != ']'
    ensures ClassEnd(s, i) == j
    decreases j - i
  {
    if i < j {
      ClassScan(s, i + 1, j);
    }
  }

  lemma SkipClass(s: Word, i: nat, text: Word, t: Word)
    requires Has(s, i, "[" + (text + ("]" + t))) && ']' !in text
    ensures i + |text| + 2 <= |s| && s[i] == '[' && ClassEnd(s, i + 1) == i + 1 + |text| && Has(s, i + |text| + 2, t)
  {
    HasFirst(s, i, '[', text + ("]" + t));
    HasAround(s, i + 1, text, ']', t);
    forall k | i + 1 <= k < i + 1 + |text| ensures s[k] != ']' {
      assert Place(k - i - 1);
    }
    ClassScan(s, i + 1, i + 1 + |text|);
  }

  /** Both passes go on at j as they would at i. */
  predicate Passes(s: Word, pl: nat, i: nat, j: nat, pe: nat, l: nat)
    requires pl <= i <= j <= pe < |s|
  {
    Close(s, i, l) == Close(s, j, l) && Alternatives(s, pl, i, pe, l) == Alternatives(s, pl, j, pe, l)
  }

  lemma CharPasses(s: Word, pl: nat, i: nat, pe: nat, l: nat)
    requires pl <= i < pe < |s| && s[i] != '[' && s[i] != '{' && s[i] != '}' && (s[i] == ',' ==> l > 0)
    ensures Passes(s, pl, i, i + 1, pe, l)
  {
  }

  lemma ClassPasses(s: Word, pl: nat, i: nat, pe: nat, l: nat)
    requires pl <= i < pe < |s| && s[i] == '[' && ClassEnd(s, i + 1) < pe
    ensures Passes(s, pl, i, ClassEnd(s, i + 1) + 1, pe, l)
  {
  }

  lemma GroupPasses(s: Word, pl: nat, i: nat, j: nat, pe: nat, l: nat)
    requires pl <= i < j < pe < |s| && s[i] == '{' && s[j] == '}' && Passes(s, pl, i + 1, j, pe, l + 1)
    ensures Passes(s, pl, i, j + 1, pe, l)
  {
  }

  lemma PassesOn(s: Word, pl: nat, i: nat, j: nat, k: nat, pe: nat, l: nat)
    requires pl <= i <= j <= k <= pe < |s| && Passes(s, pl, i, j, pe, l) && Passes(s, pl, j, k, pe, l)
    ensures Passes(s, pl, i, k, pe, l)
  {
  }

  /** Both passes step over a pattern inside a group as a whole. */
  lemma {:induction false} ScanPattern(s: Word, pl: nat, i: nat, pe: nat, l: nat, p: Pattern)
    requires WellFormed(p, true) && Has(s, i, Show(p)) && pl <= i && i + |Show(p)| <= pe < |s|
    ensures Passes(s, pl, i, i + |Show(p)|, pe, l)
    decreases p, 1
  {
    if p != End {
      var j := ScanFirst(s, pl, i, pe, l, p);
      ScanPattern(s, pl, j, pe, l, p.rest);
      PassesOn(s, pl, i, j, i + |Show(p)|, pe, l);
    }
  }

  /** The first part of a pattern, which ends at j. */
  lemma {:induction false} ScanFirst(s: Word, pl: nat, i: nat, pe: nat, l: nat, p: Pattern) returns (j: nat)
    requires WellFormed(p, true) && Has(s, i, Show(p)) && pl <= i && i + |Show(p)| <= pe < |s| && p != End
    ensures i <= j && j + |Show(p.rest)| == i + |Show(p)| && Has(s, j, Show(p.rest)) && Passes(s, pl, i, j, pe, l)
    decreases p, 0
  {
    match p
    case Char(c, rest) =>
      ScanChar(s, pl, i, pe, l, c, Show(rest));
      j := i + 1;
    case Class(text, rest) =>
      ScanClass(s, pl, i, pe, l, text, Show(rest));
      j := i + |text| + 2;
    case Group(alts, rest) =>
      ScanInner(s, pl, i, pe, l, alts, Show(rest));
      j := i + |ShowAlts(alts)| + 2;
  }

  lemma ScanChar(s: Word, pl: nat, i: nat, pe: nat, l: nat, c: char, t: Word)
    requires c != '[' && c != '{' && c != '}' && c != ',' && Has(s, i, [c] + t) && pl <= i && i + 1 + |t| <= pe < |s|
    ensures Passes(s, pl, i, i + 1, pe, l) && Has(s, i + 1, t)
  {
    HasFirst(s, i, c, t);
    CharPasses(s, pl, i, pe, l);
  }

  lemma ScanClass(s: Word, pl: nat, i: nat, pe: nat, l: nat, text: Word, t: Word)
    requires ']' !in text && Has(s, i, "[" + (text + ("]" + t))) && pl <= i && i + |text| + 2 + |t| <= pe < |s|
    ensures Passes(s, pl, i, i + |text| + 2, pe, l) && Has(s, i + |text| + 2, t)
  {
    SkipClass(s, i, text, t);
    ClassPasses(s, pl, i, pe, l);
  }

  lemma {:induction false} ScanInner(s: Word, pl: nat, i: nat, pe: nat, l: nat, alts: Alternation, t: Word)
    requires WellFormedAlts(alts) && Has(s, i, "{" + (ShowAlts(alts) + ("}" + t)))
    requires pl <= i && i + |ShowAlts(alts)| + 2 + |t| <= pe < |s|
    ensures Passes(s, pl, i, i + |ShowAlts(alts)| + 2, pe, l) && Has(s, i + |ShowAlts(alts)| + 2, t)
    decreases alts, 1
  {
    var y := ShowAlts(alts);
    HasFirst(s, i, '{', y + ("}" + t));
    HasAround(s, i + 1, y, '}', t);
    ScanAlts(s, pl, i + 1, pe, l + 1, alts);
    GroupPasses(s, pl, i, i + 1 + |y|, pe, l);
  }

  lemma {:induction false} ScanAlts(s: Word, pl: nat, i: nat, pe: nat, l: nat, alts: Alternation)
    requires WellFormedAlts(alts) && Has(s, i, ShowAlts(alts)) && pl <= i && i + |ShowAlts(alts)| <= pe < |s| && l > 0
    ensures Passes(s, pl, i, i + |ShowAlts(alts)|, pe, l)
    decreases alts, 0
  {
    match alts
    case One(p) => ScanPattern(s, pl, i, pe, l, p);
    case More(p, others) =>
      var j := i + |Show(p)|;
      HasAround(s, i, Show(p), ',', ShowAlts(others));
      ScanPattern(s, pl, i, pe, l, p);
      CharPasses(s, pl, j, pe, l);
      ScanAlts(s, pl, j + 1, pe, l, others);
      PassesOn(s, pl, i, j, j + 1, pe, l);
      PassesOn(s, pl, i, j + 1, i + |ShowAlts(alts)|, pe, l);
  }

  /** The alternatives, written out. */
  function Texts(alts: Alternation): seq<Word> {
    match alts
    case One(p) => [Show(p)]
    case More(p, others) => [Show(p)] + Texts(others)
  }

  lemma {:induction false} ScanGroup(s: Word, i: nat, pe: nat, alts: Alternation)
    requires WellFormedAlts(alts) && Has(s, i, ShowAlts(alts)) && pe == i + |ShowAlts(alts)| < |s| && s[pe] == '}'
    ensures Close(s, i, 0) == Ok(pe) && Alternatives(s, i, i, pe, 0) == Texts(alts)
    decreases alts
  {
    match alts
    case One(p) => LastAlternative(s, i, pe, p);
    case More(p, others) =>
      var j := FirstAlternative(s, i, pe, p, others);
      ScanGroup(s, j, pe, others);
  }

  /** The first alternative, and where the next one begins. */
  lemma FirstAlternative(s: Word, i: nat, pe: nat, p: Pattern, others: Alternation) returns (j: nat)
    requires WellFormed(p, true) && WellFormedAlts(others) && Has(s, i, ShowAlts(More(p, others)))
    requires pe == i + |ShowAlts(More(p, others))| < |s|
    ensures Has(s, j, ShowAlts(others)) && pe == j + |ShowAlts(others)| && Close(s, i, 0) == Close(s, j, 0)
    ensures Alternatives(s, i, i, pe, 0) == [Show(p)] + Alternatives(s, j, j, pe, 0)
  {
    j := i + |Show(p)| + 1;
    NextAlternative(s, i, pe, p, ShowAlts(others));
  }

  lemma LastAlternative(s: Word, i: nat, pe: nat, p: Pattern)
    requires WellFormed(p, true) && Has(s, i, Show(p)) && pe == i + |Show(p)| < |s| && s[pe] == '}'
    ensures Close(s, i, 0) == Ok(pe) && Alternatives(s, i, i, pe, 0) == [Show(p)]
  {
    ScanPattern(s, i, i, pe, 0, p);
    LastText(s, i, pe, Show(p));
  }

  lemma NextAlternative(s: Word, i: nat, pe: nat, p: Pattern, t: Word)
    requires WellFormed(p, true) && Has(s, i, Show(p) + ("," + t)) && pe == i + |Show(p)| + 1 + |t| < |s|
    ensures var j := i + |Show(p)|;
      Has(s, j + 1, t) && Close(s, i, 0) == Close(s, j + 1, 0) &&
      Alternatives(s, i, i, pe, 0) == [Show(p)] + Alternatives(s, j + 1, j + 1, pe, 0)
  {
    HasAround(s, i, Show(p), ',', t);
    ScanPattern(s, i, i, pe, 0, p);
    NextText(s, i, i + |Show(p)|, pe, Show(p));
  }

  lemma NextText(s: Word, i: nat, j: nat, pe: nat, t: Word)
    requires Has(s, i, t) && j == i + |t| < pe < |s| && s[j] == ','
    ensures Alternatives(s, i, j, pe, 0) == [t] + Alternatives(s, j + 1, j + 1, pe, 0)
    ensures Close(s, j, 0) == Close(s, j + 1, 0)
  {
    TextAt(s, i, t);
  }

  lemma TextAt(s: Word, i: nat, t: Word)
    requires Has(s, i, t)
    ensures s[i..i + |t|] == t
  {
    forall k: nat | 0 <= k < |t| ensures s[i..i + |t|][k] == t[k] {
      assert Place(k);
    }
  }

  lemma LastText(s: Word, i: nat, pe: nat, t: Word)
    requires Has(s, i, t) && pe == i + |t| < |s| && s[pe] == '}'
    ensures Alternatives(s, i, pe, pe, 0) == [t]
  {
    TextAt(s, i, t);
    assert Alternatives(s, pe + 1, pe + 1, pe, 0) == [];
  }

  lemma {:induction false} BraceAt(s: Word, i: nat, b: nat)
    requires i <= b < |s| && s[b] == '{' && forall k :: i <= k < b ==> s[k] != '{'
    ensures Brace(s, i) == b
    decreases b - i
  {
    if i < b {
      BraceAt(s, i + 1, b);
    }
  }

  /** `globbrace` finds the first group of a pattern and its alternatives. */
  lemma FirstGroup(before: Pattern, alts: Alternation, rest: Pattern)
    requires Ungrouped(before) && WellFormed(before, false) && WellFormedAlts(alts)
    ensures var s := Show(before) + Show(Group(alts, rest));
      Brace(s, 0) == |Show(before)| < |s| && Globbrace(s) == Ok(Around(Show(before), Texts(alts), Show(rest)))
  {
    UngroupedWords(before);
    GroupIn(Show(before) + Show(Group(alts, rest)), Show(before), alts, Show(rest));
  }

  lemma GroupIn(s: Word, x: Word, alts: Alternation, z: Word)
    requires WellFormedAlts(alts) && '{' !in x && s == x + ("{" + (ShowAlts(alts) + ("}" + z)))
    ensures Brace(s, 0) == |x| < |s| && Globbrace(s) == Ok(Around(x, Texts(alts), z))
  {
    var y := ShowAlts(alts);
    Located(s, x, y, z);
    forall k | 0 <= k < |x| ensures s[k] != '{' {
      assert s[k] == x[k] && x[k] in x;
    }
    GroupAt(s, |x|, |x| + 1 + |y|, alts, x, z);
  }

  lemma GroupAt(s: Word, b: nat, pe: nat, alts: Alternation, x: Word, z: Word)
    requires WellFormedAlts(alts) && b < |s| && s[b] == '{' && forall k :: 0 <= k < b ==> s[k] != '{'
    requires Has(s, b + 1, ShowAlts(alts)) && pe == b + 1 + |ShowAlts(alts)| < |s| && s[pe] == '}'
    requires s[..b] == x && s[pe + 1..] == z
    ensures Brace(s, 0) == b && Globbrace(s) == Ok(Around(x, Texts(alts), z))
  {
    BraceAt(s, 0, b);
    ScanGroup(s, b + 1, pe, alts);
    GlobbraceSplits(s, b, pe);
  }

  lemma GlobbraceSplits(s: Word, b: nat, pe: nat)
    requires b < |s| && s[b] == '{' && Brace(s, 0) == b && b < pe < |s| && Close(s, b + 1, 0) == Ok(pe)
    ensures Globbrace(s) == Ok(Around(s[..b], Alternatives(s, b + 1, b + 1, pe, 0), s[pe + 1..]))
  {
  }

  /** Where the parts of a word with a group are. */
  lemma Located(s: Word, x: Word, y: Word, z: Word)
    requires s == x + ("{" + (y + ("}" + z)))
    ensures |s| == |x| + |y| + |z| + 2 && s[..|x|] == x && s[|x|] == '{' && Has(s, |x| + 1, y)
    ensures s[|x| + 1 + |y|] == '}' && s[|x| + 1 + |y| + 1..] == z
    ensures forall k :: 0 <= k < |x| ==> s[k] == x[k]
  {
  }

  // ---- the meaning ---------------------------------------------------------------------

  /** The pattern can be empty. */
  predicate CanVanish(p: Pattern) {
    match p
    case End => true
    case Char(_, _) => false
    case Class(_, _) => false
    case Group(alts, rest) => AnyVanish(alts) && CanVanish(rest)
  }

  predicate AnyVanish(alts: Alternation) {
    match alts
    case One(p) => CanVanish(p)
    case More(p, others) => CanVanish(p) || AnyVanish(others)
  }

  /** The pattern can come down to a last empty pair of braces and nothing else. */
  predicate Stuck(p: Pattern) {
    match p
    case End => false
    case Char(_, _) => false
    case Class(_, _) => false
    case Group(alts, rest) => if rest == End then alts == One(End) || AnyStuck(alts) else AnyVanish(alts) && Stuck(rest)
  }

  predicate AnyStuck(alts: Alternation) {
    match alts
    case One(p) => Stuck(p)
    case More(p, others) => Stuck(p) || AnyStuck(others)
  }

  lemma {:induction false} StuckAppend(p: Pattern, q: Pattern)
    ensures Stuck(Append(p, q)) == if q == End then Stuck(p) else CanVanish(p) && Stuck(q)
  {
    match p
    case End =>
    case Char(_, rest) => StuckAppend(rest, q);
    case Class(_, rest) => StuckAppend(rest, q);
    case Group(_, rest) =>
      StuckAppend(rest, q);
      if q != End && rest != End {
        StuckAppend(rest, q);
      }
  }

  /** One of the words `globbrace` makes can get stuck. */
  predicate AnyStuckAround(before: Pattern, alts: Alternation, rest: Pattern) {
    match alts
    case One(p) => Stuck(Append(before, Append(p, rest)))
    case More(p, others) => Stuck(Append(before, Append(p, rest))) || AnyStuckAround(before, others, rest)
  }

  lemma {:induction false} StuckStep(before: Pattern, alts: Alternation, rest: Pattern)
    requires Ungrouped(before)
    ensures AnyStuckAround(before, alts, rest) ==
      (before == End && if rest == End then AnyStuck(alts) else AnyVanish(alts) && Stuck(rest))
  {
    match alts
    case One(p) => StuckAppend(p, rest);
    case More(p, others) =>
      StuckAppend(p, rest);
      StuckStep(before, others, rest);
  }

  lemma {:induction false} WordsPlain(p: Pattern, w: Word)
    requires WellFormed(p, false) && w in Words(p)
    ensures '{' !in w
  {
    match p
    case End =>
    case Char(c, rest) =>
      var y := CrossParts([[c]], Words(rest), w);
      WordsPlain(rest, y.1);
    case Class(text, rest) =>
      var y := CrossParts(["[" + text + "]"], Words(rest), w);
      WordsPlain(rest, y.1);
    case Group(alts, rest) =>
      var y := CrossParts(Choices(alts), Words(rest), w);
      ChoicesPlain(alts, y.0);
      WordsPlain(rest, y.1);
  }

  lemma {:induction false} ChoicesPlain(alts: Alternation, w: Word)
    requires WellFormedAlts(alts) && w in Choices(alts)
    ensures '{' !in w
  {
    match alts
    case One(p) =>
      Outside(p);
      WordsPlain(p, w);
    case More(p, others) =>
      if w in Words(p) {
        Outside(p);
        WordsPlain(p, w);
      } else {
        ChoicesPlain(others, w);
      }
  }

  lemma {:induction false} PrefixedParts(x: Word, ys: seq<Word>, w: Word) returns (y: Word)
    requires w in Prefixed(x, ys)
    ensures y in ys && w == x + y
    decreases |ys|
  {
    if w == x + ys[0] {
      y := ys[0];
    } else {
      y := PrefixedParts(x, ys[1..], w);
    }
  }

  lemma {:induction false} CrossParts(xs: seq<Word>, ys: seq<Word>, w: Word) returns (xy: (Word, Word))
    requires w in Cross(xs, ys)
    ensures xy.0 in xs && xy.1 in ys && w == xy.0 + xy.1
    decreases |xs|
  {
    if w in Prefixed(xs[0], ys) {
      var y := PrefixedParts(xs[0], ys, w);
      xy := (xs[0], y);
    } else {
      xy := CrossParts(xs[1..], ys, w);
    }
  }

  /** What an expansion must be: the product, or a list with a pair of braces left over. */
  predicate Meets(r: Result<seq<Word>>, words: seq<Word>, stuck: bool) {
    r.Ok? && if stuck then "{}" in r.value else r.value == words
  }

  lemma {:induction false} Meaning(p: Pattern)
    requires WellFormed(p, false)
    ensures Meets(Expand(Show(p)), Words(p), Stuck(p))
    decreases |Show(p)| + 1, 1, End
  {
    if Ungrouped(p) {
      UngroupedWords(p);
      NoBrace(Show(p), 0);
      UngroupedStuck(p);
    } else {
      GroupMeaning(p);
    }
  }

  lemma {:induction false} NoBrace(s: Word, i: nat)
    requires i <= |s| && '{' !in s
    ensures Brace(s, i) == |s|
    decreases |s| - i
  {
    if i < |s| {
      NoBrace(s, i + 1);
    }
  }

  lemma {:induction false} UngroupedStuck(p: Pattern)
    requires Ungrouped(p)
    ensures !Stuck(p)
  {
  }

  lemma {:induction false} GroupMeaning(p: Pattern)
    requires WellFormed(p, false) && !Ungrouped(p)
    ensures Meets(Expand(Show(p)), Words(p), Stuck(p))
    decreases |Show(p)| + 1, 0, End
  {
    SplitAtGroup(p);
    var before, alts, rest := Before(p), From(p).alts, From(p).rest;
    var s := Show(p);
    ShowAppend(before, From(p));
    FirstGroup(before, alts, rest);
    StuckAppend(before, From(p));
    if Untouched(s) {
      EmptyPair(before, alts, rest);
    } else {
      var bl := Around(Show(before), Texts(alts), Show(rest));
      ShorterAll(bl, |s|);
      AltsMeaning(before, alts, rest, |s|);
      StuckStep(before, alts, rest);
      GroupStuck(before, alts, rest);
      GroupWords(before, alts, rest);
    }
  }

  /** The words of all the patterns with one alternative in place of the group. */
  function WordsAround(before: Pattern, alts: Alternation, rest: Pattern): seq<Word> {
    match alts
    case One(p) => Words(Append(before, Append(p, rest)))
    case More(p, others) => Words(Append(before, Append(p, rest))) + WordsAround(before, others, rest)
  }

  lemma {:induction false} AltsMeaning(before: Pattern, alts: Alternation, rest: Pattern, n: nat)
    requires WellFormed(before, false) && WellFormedAlts(alts) && WellFormed(rest, false)
    requires |Show(before)| + |ShowAlts(alts)| + |Show(rest)| < n
    ensures Meets(ExpandAll(Around(Show(before), Texts(alts), Show(rest))), WordsAround(before, alts, rest),
                  AnyStuckAround(before, alts, rest))
    decreases n, 3, alts
  {
    match alts
    case One(p) =>
      OneMeaning(before, p, rest, n);
      FirstAround(Show(before), Show(p), [], Show(rest));
    case More(p, others) =>
      OneMeaning(before, p, rest, n);
      AltsMeaning(before, others, rest, n);
      FirstAround(Show(before), Show(p), Texts(others), Show(rest));
  }

  lemma {:induction false} OneMeaning(before: Pattern, p: Pattern, rest: Pattern, n: nat)
    requires WellFormed(before, false) && WellFormed(p, true) && WellFormed(rest, false)
    requires |Show(before)| + |Show(p)| + |Show(rest)| < n
    ensures var q := Append(before, Append(p, rest));
      Meets(Expand(Show(before) + Show(p) + Show(rest)), Words(q), Stuck(q))
    decreases n, 2, End
  {
    Outside(p);
    WellFormedAppend(p, rest);
    WellFormedAppend(before, Append(p, rest));
    ShowThree(before, p, rest);
    Meaning(Append(before, Append(p, rest)));
  }

  lemma ShowThree(a: Pattern, b: Pattern, c: Pattern)
    ensures Show(Append(a, Append(b, c))) == Show(a) + Show(b) + Show(c)
  {
    ShowAppend(b, c);
    ShowAppend(a, Append(b, c));
    Regroup(Show(a), Show(b), Show(c));
  }

  /** The expansion of the first word comes first. */
  lemma FirstAround(x: Word, a: Word, alts: seq<Word>, z: Word)
    ensures ExpandAll(Around(x, [a] + alts, z)) == Both(Expand(x + a + z), ExpandAll(Around(x, alts, z)))
    ensures alts == [] && Expand(x + a + z).Ok? ==> ExpandAll(Around(x, [a] + alts, z)) == Expand(x + a + z)
    ensures [a] + [] == [a]
  {
    assert Around(x, [a] + alts, z) == [x + a + z] + Around(x, alts, z);
    assert ([x + a + z] + Around(x, alts, z))[1..] == Around(x, alts, z);
    if alts == [] && Expand(x + a + z).Ok? {
      assert Expand(x + a + z).value + [] == Expand(x + a + z).value;
    }
  }

  lemma {:induction false} GroupWords(before: Pattern, alts: Alternation, rest: Pattern)
    requires Ungrouped(before) && WellFormed(before, false)
    ensures WordsAround(before, alts, rest) == Words(Append(before, Group(alts, rest)))
  {
    var x, r := Show(before), Words(rest);
    UngroupedWords(before);
    WordsAppend(before, Group(alts, rest));
    CrossOne(x, Cross(Choices(alts), r));
    match alts
    case One(p) =>
      WordsAppend(p, rest);
      WordsAppend(before, Append(p, rest));
      CrossOne(x, Cross(Words(p), r));
    case More(p, others) =>
      WordsAppend(p, rest);
      WordsAppend(before, Append(p, rest));
      CrossOne(x, Cross(Words(p), r));
      GroupWords(before, others, rest);
      WordsAppend(before, Group(others, rest));
      CrossOne(x, Cross(Choices(others), r));
      CrossAppend(Words(p), Choices(others), r);
      PrefixedAppend(x, Cross(Words(p), r), Cross(Choices(others), r));
  }

  lemma GroupStuck(before: Pattern, alts: Alternation, rest: Pattern)
    requires Ungrouped(before) && !(before == End && alts == One(End) && rest == End)
    ensures Stuck(Append(before, Group(alts, rest))) == AnyStuckAround(before, alts, rest)
  {
    StuckStep(before, alts, rest);
    StuckAppend(before, Group(alts, rest));
  }

  /** A pattern expands to the product of its alternatives, in order from left to right, exactly
      if it cannot come down to a pair of braces, which is left as it is. */
  lemma ExpansionIsProduct(p: Pattern)
    requires WellFormed(p, false)
    ensures Expand(Show(p)).Ok?
    ensures Expand(Show(p)) == Ok(Words(p)) <==> !Stuck(p)
  {
    Meaning(p);
    if Stuck(p) && "{}" in Words(p) {
      WordsPlain(p, "{}");
    }
  }

  lemma EmptyPair(before: Pattern, alts: Alternation, rest: Pattern)
    requires Untouched(Show(before) + Show(Group(alts, rest)))
    ensures before == End && alts == One(End) && rest == End
  {
    assert |Show(before)| + |ShowAlts(alts)| + |Show(rest)| == 0;
    assert alts.One? && Show(alts.last) == "";
  }

  // ---- a word that gets stuck ----------------------------------------------------------

  function Pair(): Pattern { Group(One(End), End) }

  lemma PairFacts()
    ensures Show(Pair()) == "{}" && Words(Pair()) == [""] && WellFormed(Pair(), true) && Stuck(Pair())
  {
    assert ShowAlts(One(End)) == "" && Show(End) == "";
    assert Choices(One(End)) == [""];
    CrossOne("", [""]);
    PrefixedEmpty([""]);
  }

  lemma CharFacts(c: char)
    requires c != '{' && c != '}' && c != ',' && c != '['
    ensures Show(Char(c, End)) == [c] && Words(Char(c, End)) == [[c]] && WellFormed(Char(c, End), true)
  {
    CrossOne([c], [""]);
    assert [""][1..] == [] && [c] + "" == [c];
  }

  /** A group of two alternatives and nothing else. */
  lemma TwoFacts(p: Pattern, q: Pattern)
    requires WellFormed(p, true) && WellFormed(q, true)
    ensures var g := Group(More(p, One(q)), End);
      Show(g) == "{" + Show(p) + "," + Show(q) + "}" && Words(g) == Words(p) + Words(q) && WellFormed(g, false) &&
      (Stuck(p) ==> Stuck(g))
  {
    var alts := More(p, One(q));
    assert ShowAlts(alts) == Show(p) + ("," + Show(q));
    assert Choices(alts) == Words(p) + Words(q);
    assert Show(End) == "" && Words(End) == [""] && WellFormed(End, false);
    CrossEnd(Words(p) + Words(q));
    Regroup("{" + Show(p), ",", Show(q));
    Regroup("{", Show(p), "," + Show(q));
    assert "}" + "" == "}";
  }

  lemma {:induction false} CrossEnd(xs: seq<Word>)
    ensures Cross(xs, [""]) == xs
    decreases |xs|
  {
    if xs != [] {
      CrossEnd(xs[1..]);
      assert xs[0] + "" == xs[0] && [""][1..] == [];
    }
  }

  /** For `{{},a}`, for instance, the first word of the product is empty; the expansion leaves the
      braces instead. */
  lemma NestedPairIsLeft(c: char)
    requires c != '{' && c != '}' && c != ',' && c != '['
    ensures var p, s := Group(More(Pair(), One(Char(c, End))), End), "{" + "{}" + "," + [c] + "}";
      Show(p) == s && Words(p) == [""] + [[c]] && Expand(s).Ok? && "{}" in Expand(s).value
  {
    PairFacts();
    CharFacts(c);
    TwoFacts(Pair(), Char(c, End));
    Meaning(Group(More(Pair(), One(Char(c, End))), End));
  }
}
