/** The loops of csh's parser, each against the function that says what it computes. */
module CshParser {
  import opened CshSyntax

  /** The loops of `syn1`, `syn1a`, `syn1b` and `syn2`. */
  method FindSeparator(ws: seq<Word>, sep: Separator) returns (p: nat)
    ensures p == Find(ws, 0, 0, sep) <= |ws|
  {
    var l := 0;
    p := 0;
    while p < |ws|
      invariant p <= |ws| && Find(ws, 0, 0, sep) == Find(ws, p, l, sep)
    {
      if l == 0 && Separates(ws[p], sep) {
        return;
      }
      if First(ws[p]) == '(' {
        l := l + 1;
      } else if First(ws[p]) == ')' {
        l := l - 1;
      }
      p := p + 1;
    }
  }

  /** The loop of `syn0`. */
  method FindBackground(ws: seq<Word>, err: Error) returns (s: Stop)
    ensures s == FindAmpersand(ws, 0, 0, err)
  {
    var p, l, e := 0, 0, err;
    while p < |ws|
      invariant p <= |ws| && FindAmpersand(ws, 0, 0, err) == FindAmpersand(ws, p, l, e)
    {
      var w := ws[p];
      if First(w) == '(' {
        l := l + 1;
      } else if First(w) == ')' {
        l := l - 1;
        if l < 0 {
          e := SetError(e, TooManyRP);
        }
      } else if Redirecting(w) {
        if p + 1 < |ws| && ws[p + 1] == "&" {
          p := p + 1;
        }
      } else if First(w) == '&' && l == 0 && Second(w) != '&' {
        return Stop(p, l, e);
      }
      p := p + 1;
    }
    return Stop(p, l, e);
  }

  method ParseSyntax(ws: seq<Word>, next: Word, ctx: set<Context>, err: Error) returns (r: Parsed)
    ensures r == Syntax(ws, next, ctx, err)
    decreases |ws|, 6
  {
    var p := 0;
    assert ws[0..] == ws;
    while p < |ws|
      invariant p <= |ws| && Syntax(ws, next, ctx, err) == Syntax(ws[p..], next, ctx, err)
    {
      if !Skipped(ws[p]) {
        r := ParseSyn0(ws[p..], next, ctx, err);
        return;
      }
      assert ws[p..][1..] == ws[p + 1..];
      p := p + 1;
    }
    return Parsed(Null, err);
  }

  method ParseSyn0(ws: seq<Word>, next: Word, ctx: set<Context>, err: Error) returns (r: Parsed)
    ensures r == Syn0(ws, next, ctx, err)
    decreases |ws|, 5
  {
    var s := FindBackground(ws, err);
    if s.at < |ws| {
      var car := ParseSyn1(ws[..s.at], ws[s.at], ctx, s.err);
      var cdr := ParseSyntax(ws[s.at + 1..], next, ctx, car.err);
      return Parsed(Node(LIST, {}, Background(car.t), cdr.t), cdr.err);
    }
    if s.l == 0 {
      r := ParseSyn1(ws, next, ctx, s.err);
    } else {
      r := Parsed(Null, SetError(s.err, TooManyLP));
    }
  }

  method ParseSyn1(ws: seq<Word>, next: Word, ctx: set<Context>, err: Error) returns (r: Parsed)
    ensures r == Syn1(ws, next, ctx, err)
    decreases |ws|, 4
  {
    var p := FindSeparator(ws, Semicolon);
    if p < |ws| {
      var car := ParseSyn1a(ws[..p], ws[p], ctx, err);
      var cdr := ParseSyntax(ws[p + 1..], next, ctx, car.err);
      return Parsed(List(car.t, cdr.t), cdr.err);
    }
    r := ParseSyn1a(ws, next, ctx, err);
  }

  method ParseSyn1a(ws: seq<Word>, next: Word, ctx: set<Context>, err: Error) returns (r: Parsed)
    ensures r == Syn1a(ws, next, ctx, err)
    decreases |ws|, 3
  {
    var p := FindSeparator(ws, OrOr);
    if p < |ws| {
      var car := ParseSyn1b(ws[..p], ws[p], ctx, err);
      var cdr := ParseSyn1a(ws[p + 1..], next, ctx, car.err);
      return Parsed(Node(OR, {}, car.t, cdr.t), cdr.err);
    }
    r := ParseSyn1b(ws, next, ctx, err);
  }

  method ParseSyn1b(ws: seq<Word>, next: Word, ctx: set<Context>, err: Error) returns (r: Parsed)
    ensures r == Syn1b(ws, next, ctx, err)
    decreases |ws|, 2
  {
    var p := FindSeparator(ws, AndAnd);
    if p < |ws| {
      var car := ParseSyn2(ws[..p], ws[p], ctx, err);
      var cdr := ParseSyn1b(ws[p + 1..], next, ctx, car.err);
      return Parsed(Node(AND, {}, car.t, cdr.t), cdr.err);
    }
    r := ParseSyn2(ws, next, ctx, err);
  }

  method ParseSyn2(ws: seq<Word>, next: Word, ctx: set<Context>, err: Error) returns (r: Parsed)
    ensures r == Syn2(ws, next, ctx, err)
    decreases |ws|, 1
  {
    var p := FindSeparator(ws, Bar);
    if p < |ws| {
      var both := p + 1 < |ws| && First(ws[p + 1]) == '&';
      var car := ParseSyn3(ws[..p], ws[p], ctx + {POUT} + (if both then {PERR} else {}), err);
      var cdr := ParseSyn2(ws[if both then p + 2 else p + 1..], next, ctx + {PIN}, car.err);
      return Parsed(Node(PIPE, if both then {STDERR} else {}, car.t, cdr.t), cdr.err);
    }
    r := ParseSyn3(ws, next, ctx, err);
  }

  /** `specp` */
  method IsSpecial(ws: seq<Word>) returns (specp: bool)
    ensures specp == Special(ws)
  {
    var p := 0;
    assert ws[0..] == ws;
    while p < |ws| && ws[p] == "else"
      invariant p <= |ws| && Special(ws) == Special(ws[p..])
    {
      assert ws[p..][1..] == ws[p + 1..];
      p := p + 1;
    }
    return p < |ws| && Keyword(ws[p]);
  }

  /** The counting pass of `syn3`; its last test never finds a negative count. */
  method CountWords(ws: seq<Word>, specp: bool) returns (n: nat)
    ensures n == Count(ws, 0, 0, specp)
  {
    var k, l := 0, 0;
    for p := 0 to |ws|
      invariant k + Count(ws, p, l, specp) == Count(ws, 0, 0, specp)
    {
      var c := First(ws[p]);
      if c == '(' {
        k := if specp then k + 1 else k;
        l := l + 1;
      } else if c == ')' {
        k := if specp then k + 1 else k;
        l := l - 1;
      } else if c == '>' || c == '<' {
        if l != 0 {
          k := if specp then k + 1 else k;
        } else if p + 1 != |ws| && !RelPar(ws[p + 1]) {
          k := k - 1;
        }
      } else if specp || l == 0 {
        k := k + 1;
      }
    }
    CountNonNegative(ws, 0, 0, specp);
    return k;
  }

  /** The word is counted, and stored unless there has been an error. */
  method StoreWord(av: array<Word>, st: Pass, w: Word) returns (st1: Pass)
    requires |st.av| < av.Length && av[..|st.av|] == st.av && (st.err == NoError ==> |st.av| == st.n)
    modifies av
    ensures st1 == Store(st, w) && (st.err == NoError ==> |st1.av| == st1.n)
    ensures |st1.av| <= av.Length && av[..|st1.av|] == st1.av
  {
    if st.err == NoError {
      av[st.n] := w;
    }
    st1 := Store(st, w);
  }

  /** The filling pass of `syn3`: every word stored lands inside the array that was allocated
      for the words counted and a null pointer. */
  method FillWords(ws: seq<Word>, next: Word, ctx: set<Context>, specp: bool, err: Error, av: array<Word>)
    returns (st: Pass)
    requires av.Length == Count(ws, 0, 0, specp) + 1
    modifies av
    ensures st == Fill(ws, 0, Start(next, err), specp, ctx)
    ensures |st.av| < av.Length && av[..|st.av|] == st.av && (st.err == NoError ==> |st.av| == st.n)
  {
    st := Start(next, err);
    AllFit(ws, next, ctx, specp, err);
    var p := 0;
    while p < |ws|
      invariant p <= |ws| && Fill(ws, p, st, specp, ctx) == Fill(ws, 0, Start(next, err), specp, ctx)
      invariant |Fill(ws, p, st, specp, ctx).av| < av.Length && |st.av| < av.Length && av[..|st.av|] == st.av
      invariant st.err == NoError ==> |st.av| == st.n
      decreases |ws| - p
    {
      StillFits(ws, p, st, specp, ctx);
      p, st := FillTurn(ws, p, st, ctx, specp, av);
      p := p + 1;
    }
  }

  /** The array has room for all words the filling pass stores. */
  lemma AllFit(ws: seq<Word>, next: Word, ctx: set<Context>, specp: bool, err: Error)
    ensures |Fill(ws, 0, Start(next, err), specp, ctx).av| <= Count(ws, 0, 0, specp)
  {
    CountNonNegative(ws, 0, 0, specp);
    if err == NoError {
      FillFits(ws, 0, Start(next, err), specp, ctx);
    } else {
      FillStops(ws, 0, Start(next, err), specp, ctx);
    }
  }

  /** One turn of the filling pass. */
  method FillTurn(ws: seq<Word>, i: nat, before: Pass, ctx: set<Context>, specp: bool, av: array<Word>)
    returns (p: nat, st: Pass)
    requires i < |ws| && |before.av| <= |Turn(ws, i, before, specp, ctx).1.av| < av.Length
    requires av[..|before.av|] == before.av && (before.err == NoError ==> |before.av| == before.n)
    modifies av
    ensures (p, st) == Turn(ws, i, before, specp, ctx)
    ensures av[..|st.av|] == st.av && (st.err == NoError ==> |st.av| == st.n)
  {
    p, st := i, before;
    var w := ws[p];
    var keep := false;
    if First(w) == '(' {
      st := Enter(st, p, specp);
      keep := specp;
    } else if First(w) == ')' {
      st := Leave(st, p);
      keep := specp;
    } else if First(w) == '>' && st.l == 0 {
      var r := RedirectOut(ws, p, st, ctx);
      p, st := r.0, r.1;
    } else if First(w) == '<' && st.l == 0 {
      var r := RedirectIn(ws, p, st, ctx);
      p, st := r.0, r.1;
    } else {
      keep := st.l == 0 || specp;
    }
    if keep {
      st := StoreWord(av, st, w);
    }
  }

  /** What a turn has stored is part of what the whole pass stores. */
  lemma StillFits(ws: seq<Word>, i: nat, st: Pass, specp: bool, ctx: set<Context>)
    requires i < |ws|
    ensures |st.av| <= |Turn(ws, i, st, specp, ctx).1.av| <= |Fill(ws, i, st, specp, ctx).av|
  {
    var r := Turn(ws, i, st, specp, ctx);
    FillGrows(ws, r.0 + 1, r.1, specp, ctx);
  }

  lemma {:induction false} FillGrows(ws: seq<Word>, i: nat, st: Pass, specp: bool, ctx: set<Context>)
    requires i <= |ws|
    ensures |st.av| <= |Fill(ws, i, st, specp, ctx).av|
    decreases |ws| - i
  {
    if i < |ws| {
      var r := Turn(ws, i, st, specp, ctx);
      FillGrows(ws, r.0 + 1, r.1, specp, ctx);
    }
  }

  method ParseSyn3(ws: seq<Word>, next: Word, ctx: set<Context>, err: Error) returns (r: Parsed)
    ensures r == Syn3(ws, next, ctx, err)
    decreases |ws|, 0
  {
    var specp := IsSpecial(ws);
    var n := CountWords(ws, specp);
    var av := new Word[n + 1];
    var st := FillWords(ws, next, ctx, specp, err, av);
    if st.lp.Some? && !specp {
      var e := if st.n != 0 then SetError(st.err, BadPlpS) else st.err;
      var sub := Parsed(Astray, e);
      if Grouped(st, |ws|) {
        sub := ParseSyn0(ws[st.lp.value..st.rp.value], ws[st.rp.value], {PHERE}, e);
      }
      return Parsed(Paren(st.flags, sub.t, st.lef, st.rit), sub.err);
    }
    return Parsed(Simple(st.flags, av[..|st.av|], st.lef, st.rit), if st.n == 0 then SetError(st.err, NullCom) else st.err);
  }
}
