/** Brace expansion of one word: what csh's `globbrace` makes of the first group. */
module CshBraces {

  type Word = string

  datatype Result<T> = Ok(value: T) | Missing(c: char)

  /** The next `]` from i on, or the end of the word. */
  function ClassEnd(s: Word, i: nat): (j: nat)
    requires i <= |s|
    ensures i <= j <= |s| && (j < |s| ==> s[j] == ']') && forall k :: i <= k < j ==> s[k] != ']'
    decreases |s| - i
  {
    if i == |s| || s[i] == ']' then i else ClassEnd(s, i + 1)
  }

  /** The `}` that closes the group around position i, l groups further in. What is between
      square brackets does not count. */
  function Close(s: Word, i: nat, l: nat): (r: Result<nat>)
    requires i <= |s|
    ensures r.Ok? ==> i <= r.value < |s| && s[r.value] == '}'
    decreases |s| - i
  {
    if i == |s| then Missing('}')
    else if s[i] == '[' then
      var j := ClassEnd(s, i + 1);
      if j == |s| then Missing(']') else Close(s, j + 1, l)
    else if s[i] == '{' then Close(s, i + 1, l + 1)
    else if s[i] == '}' then if l == 0 then Ok(i) else Close(s, i + 1, l - 1)
    else Close(s, i + 1, l)
  }

  /** The alternatives up to the end pe of the group: the one that began at pl, and those after it. */
  function Alternatives(s: Word, pl: nat, i: nat, pe: nat, l: nat): (r: seq<Word>)
    requires pl <= i <= pe + 1 && pe < |s|
    ensures forall k :: 0 <= k < |r| ==> |r[k]| <= pe - pl
    decreases pe + 1 - i
  {
    if i > pe then []
    else if s[i] == '[' then
      var j := ClassEnd(s, i + 1);
      if j > pe then [] else Alternatives(s, pl, j + 1, pe, l)
    else if s[i] == '{' then Alternatives(s, pl, i + 1, pe, l + 1)
    else if s[i] == '}' && l > 0 then Alternatives(s, pl, i + 1, pe, l - 1)
    else if s[i] == '}' || (s[i] == ',' && l == 0) then [s[pl..i]] + Alternatives(s, i + 1, i + 1, pe, l)
    else Alternatives(s, pl, i + 1, pe, l)
  }

  function Around(before: Word, alts: seq<Word>, after: Word): (r: seq<Word>)
    ensures |r| == |alts| && forall i :: 0 <= i < |alts| ==> r[i] == before + alts[i] + after
  {
    seq(|alts|, i requires 0 <= i < |alts| => before + alts[i] + after)
  }

  /** The first opening brace, or the end of the word. */
  function Brace(s: Word, i: nat): (b: nat)
    requires i <= |s|
    ensures i <= b <= |s| && (b < |s| ==> s[b] == '{') && forall k :: i <= k < b ==> s[k] != '{'
    decreases |s| - i
  {
    if i == |s| || s[i] == '{' then i else Brace(s, i + 1)
  }

  /** `globbrace`: one word for every alternative of the first group. */
  function Globbrace(s: Word): (r: Result<seq<Word>>)
    requires Brace(s, 0) < |s|
    ensures r.Ok? ==> forall k :: 0 <= k < |r.value| ==> |r.value[k]| < |s|
  {
    var b := Brace(s, 0);
    match Close(s, b + 1, 0)
    case Missing(c) => Missing(c)
    case Ok(pe) => Ok(Around(s[..b], Alternatives(s, b + 1, b + 1, pe, 0), s[pe + 1..]))
  }

  // ---- the loops of globbrace ----------------------------------------------------------

  method FindClassEnd(s: Word, i: nat) returns (j: nat)
    requires i <= |s|
    ensures j == ClassEnd(s, i)
  {
    j := i;
    while j < |s| && s[j] != ']'
      invariant i <= j <= |s| && ClassEnd(s, i) == ClassEnd(s, j)
    {
      j := j + 1;
    }
  }

  method FindClose(s: Word, p: nat) returns (r: Result<nat>)
    requires p <= |s|
    ensures r == Close(s, p, 0)
  {
    var i, pe := 0, p;
    while pe < |s|
      invariant p <= pe <= |s| && 0 <= i && Close(s, p, 0) == Close(s, pe, i)
      decreases |s| - pe
    {
      if s[pe] == '[' {
        pe := FindClassEnd(s, pe + 1);
        if pe == |s| {
          return Missing(']');
        }
      } else if s[pe] == '{' {
        i := i + 1;
      } else if s[pe] == '}' {
        if i == 0 {
          return Ok(pe);
        }
        i := i - 1;
      }
      pe := pe + 1;
    }
    return Missing('}');
  }

  /** `globbrace(s)`; its second pass never finds an open bracket. */
  method SplitBraces(s: Word) returns (r: Result<seq<Word>>)
    requires Brace(s, 0) < |s|
    ensures r == Globbrace(s)
  {
    var b := 0;
    while s[b] != '{'
      invariant b <= Brace(s, 0) == Brace(s, b)
      decreases |s| - b
    {
      b := b + 1;
    }
    var closed := FindClose(s, b + 1);
    if closed.Missing? {
      return Missing(closed.c);
    }
    var bl := CutAlternatives(s, b, closed.value);
    return Ok(bl);
  }

  /** The second pass of `globbrace`, which finds no bracket left open. */
  method CutAlternatives(s: Word, b: nat, pe: nat) returns (bl: seq<Word>)
    requires b < pe < |s| && Close(s, b + 1, 0) == Ok(pe)
    ensures bl == Around(s[..b], Alternatives(s, b + 1, b + 1, pe, 0), s[pe + 1..])
  {
    bl := [];
    var before, after := s[..b], s[pe + 1..];
    var i, pl, pm := 0, b + 1, b + 1;
    ghost var found, rest := [], Alternatives(s, pl, pm, pe, i);
    ghost var all := rest;
    while pm <= pe
      invariant b < pl <= pm <= pe + 1 && 0 <= i
      invariant bl == Around(before, found, after)
      invariant rest == Alternatives(s, pl, pm, pe, i) && all == found + rest
      invariant pm <= pe ==> Close(s, pm, i) == Ok(pe)
      decreases pe + 1 - pm
    {
      var cut, at := false, pm;
      cut, pm, i := PassOver(s, at, i, pl, pe);
      if cut {
        var alt := s[pl..at];
        rest := Alternatives(s, pm, pm, pe, i);
        Regroup(found, [alt], rest);
        AroundLast(before, found, alt, after);
        bl := bl + [before + alt + after];
        found := found + [alt];
        pl := pm;
      }
    }
    assert found == all;
  }

  /** The switch of the second pass, and the step behind what it has looked at. */
  method PassOver(s: Word, pm: nat, i: nat, ghost pl: nat, ghost pe: nat) returns (cut: bool, p: nat, l: nat)
    requires pl <= pm <= pe < |s| && Close(s, pm, i) == Ok(pe)
    ensures pm < p <= pe + 1 && (p <= pe ==> Close(s, p, l) == Ok(pe))
    ensures !cut ==> Alternatives(s, pl, p, pe, l) == Alternatives(s, pl, pm, pe, i)
    ensures cut ==> i == l == 0 && Alternatives(s, pl, pm, pe, i) == [s[pl..pm]] + Alternatives(s, p, p, pe, l)
  {
    cut, p, l := false, pm, i;
    if s[p] == '[' {
      p := FindClassEnd(s, p + 1);
    } else if s[p] == '{' {
      l := l + 1;
    } else if s[p] == '}' && l > 0 {
      l := l - 1;
    } else if s[p] == '}' || (s[p] == ',' && l == 0) {
      cut := true;
    }
    p := p + 1;
  }

  lemma Regroup<T>(a: seq<T>, b: seq<T>, c: seq<T>)
    ensures (a + b) + c == a + (b + c)
  {
  }

  lemma AroundLast(before: Word, alts: seq<Word>, a: Word, after: Word)
    ensures Around(before, alts + [a], after) == Around(before, alts, after) + [before + a + after]
  {
  }

  // ---- the expansion -------------------------------------------------------------------

  /** Words left as they are for find(1). */
  predicate Untouched(s: Word) { s == "{" || s == "{}" }

  function Both(a: Result<seq<Word>>, b: Result<seq<Word>>): Result<seq<Word>> {
    if a.Missing? then a else if b.Missing? then b else Ok(a.value + b.value)
  }

  /** The recursive brace expansion of a word: the alternatives of its first group, expanded
      one after the other. */
  function Expand(s: Word): Result<seq<Word>>
    decreases |s| + 1, 0
  {
    if Untouched(s) || Brace(s, 0) == |s| then Ok([s])
    else
      match Globbrace(s)
      case Missing(c) => Missing(c)
      case Ok(alts) => ExpandShorter(alts, |s|)
  }

  function ExpandShorter(ws: seq<Word>, n: nat): Result<seq<Word>>
    requires forall w :: w in ws ==> |w| < n
    decreases n, |ws|
  {
    if ws == [] then Ok([]) else Both(Expand(ws[0]), ExpandShorter(ws[1..], n))
  }

  /** The expansion of a list of words, from left to right. */
  function ExpandAll(ws: seq<Word>): Result<seq<Word>>
    decreases |ws|
  {
    if ws == [] then Ok([]) else Both(Expand(ws[0]), ExpandAll(ws[1..]))
  }

  lemma {:induction false} ShorterAll(ws: seq<Word>, n: nat)
    requires forall w :: w in ws ==> |w| < n
    ensures ExpandShorter(ws, n) == ExpandAll(ws)
    decreases |ws|
  {
    if ws != [] {
      ShorterAll(ws[1..], n);
    }
  }

  lemma BothAssociative(a: Result<seq<Word>>, b: Result<seq<Word>>, c: Result<seq<Word>>)
    ensures Both(Both(a, b), c) == Both(a, Both(b, c))
  {
    if a.Ok? && b.Ok? && c.Ok? {
      assert (a.value + b.value) + c.value == a.value + (b.value + c.value);
    }
  }

  lemma {:induction false} ExpandAppend(a: seq<Word>, b: seq<Word>)
    ensures ExpandAll(a + b) == Both(ExpandAll(a), ExpandAll(b))
    decreases |a|
  {
    if a == [] {
      assert a + b == b;
      assert ExpandAll(b).Ok? ==> [] + ExpandAll(b).value == ExpandAll(b).value;
    } else {
      assert (a + b)[1..] == a[1..] + b;
      ExpandAppend(a[1..], b);
      BothAssociative(Expand(a[0]), ExpandAll(a[1..]), ExpandAll(b));
    }
  }

  /** Words the expansion takes one after the other, the alternatives in between included. */
  function Steps(s: Word): nat
    decreases |s| + 1, 0
  {
    if Untouched(s) || Brace(s, 0) == |s| then 1
    else match Globbrace(s)
      case Missing(_) => 1
      case Ok(alts) => 1 + StepsShorter(alts, |s|)
  }

  function StepsShorter(ws: seq<Word>, n: nat): nat
    requires forall w :: w in ws ==> |w| < n
    decreases n, |ws|
  {
    if ws == [] then 0 else Steps(ws[0]) + StepsShorter(ws[1..], n)
  }

  function StepsAll(ws: seq<Word>): nat
    decreases |ws|
  {
    if ws == [] then 0 else Steps(ws[0]) + StepsAll(ws[1..])
  }

  lemma {:induction false} StepsShorterAll(ws: seq<Word>, n: nat)
    requires forall w :: w in ws ==> |w| < n
    ensures StepsShorter(ws, n) == StepsAll(ws)
    decreases |ws|
  {
    if ws != [] {
      StepsShorterAll(ws[1..], n);
    }
  }

  lemma {:induction false} StepsAppend(a: seq<Word>, b: seq<Word>)
    ensures StepsAll(a + b) == StepsAll(a) + StepsAll(b)
    decreases |a|
  {
    if a == [] {
      assert a + b == b;
    } else {
      assert (a + b)[1..] == a[1..] + b;
      StepsAppend(a[1..], b);
    }
  }

  /** Rewriting the first word into its alternatives keeps the expansion and leaves fewer steps. */
  lemma Rewrite(s: Word, rest: seq<Word>)
    requires !Untouched(s) && Brace(s, 0) < |s| && Globbrace(s).Ok?
    ensures ExpandAll(Globbrace(s).value + rest) == ExpandAll([s] + rest)
    ensures StepsAll(Globbrace(s).value + rest) < StepsAll([s] + rest)
  {
    var alts := Globbrace(s).value;
    ExpandAppend(alts, rest);
    StepsAppend(alts, rest);
    ShorterAll(alts, |s|);
    StepsShorterAll(alts, |s|);
    assert ([s] + rest)[1..] == rest;
  }
}
