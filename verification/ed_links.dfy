/** The links of ed's line buffer as a value, and undoing as an operation on them. */
module EdLinks {

  /** `line_t`, without the place of its text in the scratch file. */
  class Line {
    var forw: Line
    var back: Line

    constructor ()
      ensures forw == back == this
    {
      forw, back := this, this;
    }
  }

  /** The q_forw and q_back fields of a set of lines. */
  datatype Links = Links(f: map<Line, Line>, b: map<Line, Line>)

  /** q_forw and q_back of a line; a line that is not among them stands for itself. */
  function F(l: Links, x: Line): Line { if x in l.f then l.f[x] else x }

  function B(l: Links, x: Line): Line { if x in l.b then l.b[x] else x }

  /** `REQUE(pred, succ)`. */
  function Reque(l: Links, pred: Line, succ: Line): Links {
    Links(l.f[pred := succ], l.b[succ := pred])
  }

  /** One entry of the undo stack, or one pair of entries for a move: the gap (h1, t1) the
      lines were taken from and the gap (h2, t2) they were put into. */
  datatype Change =
    | Add(h: Line, t: Line)
    | Del(h: Line, t: Line)
    | Move(h1: Line, t1: Line, h2: Line, t2: Line)

  /** What the entry has become once it has been undone. */
  function Toggle(c: Change): Change {
    match c
    case Add(h, t) => Del(h, t)
    case Del(h, t) => Add(h, t)
    case Move(h1, t1, h2, t2) => Move(h2, t2, h1, t1)
  }

  /** The relinking that `pop_undo_stack` does for one entry. */
  function Undo1(l: Links, c: Change): Links {
    match c
    case Add(h, t) =>
      Reque(l, B(l, h), F(l, t))
    case Del(h, t) =>
      var l1 := Reque(l, B(l, h), h);
      Reque(l1, t, F(l1, t))
    case Move(h1, t1, h2, t2) =>
      var l1 := Reque(l, h1, F(l, h2));
      var l2 := Reque(l1, B(l1, t2), t1);
      Reque(l2, h2, t2)
  }

  ghost predicate In(l: Links, s: set<Line>) {
    s <= l.f.Keys && s <= l.b.Keys
  }

  /** The links around the lines of an entry are as the change left them. */
  ghost predicate Attached(l: Links, c: Change) {
    match c
    case Add(h, t) =>
      var a, n := B(l, h), F(l, t);
      In(l, {h, t, a, n}) && F(l, a) == h && B(l, n) == t && a != t && n != h
    case Del(h, t) =>
      var a, n := B(l, h), F(l, t);
      In(l, {h, t, a, n}) && F(l, a) == n && B(l, n) == a && a != t && n != h
    case Move(h1, t1, h2, t2) =>
      var first, last := F(l, h2), B(l, t2);
      In(l, {h1, t1, h2, t2, first, last}) &&
      F(l, h1) == t1 && B(l, t1) == h1 && B(l, first) == h2 && F(l, last) == t2 &&
      h1 != h2 && t1 != t2 && last != h1 && last != h2 && first != t1 && first != t2
  }

  /** Undoing an entry leaves its counterpart attached, and undoing that restores every link. */
  lemma UndoInverse(l: Links, c: Change)
    requires Attached(l, c)
    ensures Attached(Undo1(l, c), Toggle(c)) && Undo1(Undo1(l, c), Toggle(c)) == l
  {
    var r := Undo1(Undo1(l, c), Toggle(c));
    assert r.f == l.f;
    assert r.b == l.b;
  }

  /** Undo from the top of the stack, which is the end of cs, to the bottom. */
  function UndoAll(l: Links, cs: seq<Change>): Links
    decreases |cs|
  {
    if cs == [] then l else UndoAll(Undo1(l, cs[|cs| - 1]), cs[..|cs| - 1])
  }

  /** Each entry finds its lines attached when its turn comes. */
  ghost predicate Legal(l: Links, cs: seq<Change>)
    decreases |cs|
  {
    cs == [] ||
    var c := cs[|cs| - 1];
    Attached(l, c) && Legal(Undo1(l, c), cs[..|cs| - 1])
  }

  /** The stack as an undo leaves it: reversed, with every entry's counterpart. */
  function Flip(cs: seq<Change>): (r: seq<Change>)
    ensures |r| == |cs| && forall i :: 0 <= i < |cs| ==> r[i] == Toggle(cs[|cs| - 1 - i])
  {
    if cs == [] then [] else [Toggle(cs[|cs| - 1])] + Flip(cs[..|cs| - 1])
  }

  lemma FlipFlip(cs: seq<Change>)
    ensures Flip(Flip(cs)) == cs
  {
  }

  /** A new top entry whose undoing leads to a state the rest of the stack is legal for. */
  lemma LegalTop(l: Links, cs: seq<Change>, c: Change)
    requires Attached(l, c) && Legal(Undo1(l, c), cs)
    ensures Legal(l, cs + [c]) && UndoAll(l, cs + [c]) == UndoAll(Undo1(l, c), cs)
  {
    assert (cs + [c])[..|cs|] == cs;
  }

  /** The bottom entry is undone last. */
  lemma {:induction false} UndoBottom(l: Links, c: Change, cs: seq<Change>)
    requires Legal(l, cs) && Attached(UndoAll(l, cs), c)
    ensures Legal(l, [c] + cs) && UndoAll(l, [c] + cs) == Undo1(UndoAll(l, cs), c)
    decreases |cs|
  {
    if cs == [] {
      assert [c] + cs == [c] && [c][..0] == [];
    } else {
      var n := |cs| - 1;
      assert ([c] + cs)[..n + 1] == [c] + cs[..n];
      UndoBottom(Undo1(l, cs[n]), c, cs[..n]);
    }
  }

  /** Undoing twice restores every link of every line, for every legal stack. */
  lemma {:induction false} UndoTwice(l: Links, cs: seq<Change>)
    requires Legal(l, cs)
    ensures Legal(UndoAll(l, cs), Flip(cs)) && UndoAll(UndoAll(l, cs), Flip(cs)) == l
    decreases |cs|
  {
    if cs != [] {
      var c, rest := cs[|cs| - 1], cs[..|cs| - 1];
      var l1 := Undo1(l, c);
      UndoTwice(l1, rest);
      UndoInverse(l, c);
      UndoBottom(UndoAll(l1, rest), Toggle(c), Flip(rest));
      assert Flip(cs) == [Toggle(c)] + Flip(rest);
    }
  }

  // ---- more lines in the buffer ----------------------------------------------------

  /** m has every line of l with the same links, and perhaps more lines. */
  ghost predicate Extends(m: Links, l: Links) {
    (forall x :: x in l.f ==> x in m.f && m.f[x] == l.f[x]) &&
    (forall x :: x in l.b ==> x in m.b && m.b[x] == l.b[x])
  }

  lemma UndoExtends(m: Links, l: Links, c: Change)
    requires Extends(m, l) && Attached(l, c)
    ensures Attached(m, c) && Extends(Undo1(m, c), Undo1(l, c))
  {
  }

  /** Entries know nothing of lines added later. */
  lemma {:induction false} LegalExtends(m: Links, l: Links, cs: seq<Change>)
    requires Extends(m, l) && Legal(l, cs)
    ensures Legal(m, cs) && Extends(UndoAll(m, cs), UndoAll(l, cs))
    decreases |cs|
  {
    if cs != [] {
      var c := cs[|cs| - 1];
      UndoExtends(m, l, c);
      LegalExtends(Undo1(m, c), Undo1(l, c), cs[..|cs| - 1]);
    }
  }

  // ---- rings -----------------------------------------------------------------------

  ghost predicate Linked(l: Links, x: Line, y: Line) {
    x in l.f && y in l.b && l.f[x] == y && l.b[y] == x
  }

  /** Neighbours in s are linked both ways. */
  ghost predicate Chain(l: Links, s: seq<Line>) {
    forall i, j :: 0 <= i && j == i + 1 && j < |s| ==> Linked(l, s[i], s[j])
  }

  ghost predicate NoDuplicates(s: seq<Line>) {
    forall i, j :: 0 <= i < j < |s| ==> s[i] != s[j]
  }

  /** The lines of the buffer in order, starting with the header, back to the header. */
  ghost predicate Ring(l: Links, s: seq<Line>) {
    s != [] && NoDuplicates(s) && Chain(l, s + [s[0]])
  }

  lemma ChainAppend(l: Links, a: seq<Line>, b: seq<Line>)
    ensures Chain(l, a + b) <==>
      Chain(l, a) && Chain(l, b) && (a != [] && b != [] ==> Linked(l, a[|a| - 1], b[0]))
  {
    if Chain(l, a + b) {
      forall i, j | 0 <= i && j == i + 1 && j < |a| ensures Linked(l, a[i], a[j]) {
        assert (a + b)[i] == a[i] && (a + b)[j] == a[j];
      }
      forall i, j | 0 <= i && j == i + 1 && j < |b| ensures Linked(l, b[i], b[j]) {
        assert (a + b)[|a| + i] == b[i] && (a + b)[|a| + j] == b[j];
      }
      if a != [] && b != [] {
        assert (a + b)[|a| - 1] == a[|a| - 1] && (a + b)[|a|] == b[0];
      }
    }
  }

  /** A link set outside a chain leaves it a chain. */
  lemma ChainFrame(l: Links, p: Line, q: Line, s: seq<Line>)
    requires Chain(l, s)
    requires forall i :: 0 <= i < |s| - 1 ==> s[i] != p
    requires forall i :: 1 <= i < |s| ==> s[i] != q
    ensures Chain(Reque(l, p, q), s)
  {
  }

  lemma ChainExtends(m: Links, l: Links, s: seq<Line>)
    requires Extends(m, l) && Chain(l, s)
    ensures Chain(m, s)
  {
  }

  ghost predicate Apart(a: seq<Line>, b: seq<Line>) {
    forall i, j :: 0 <= i < |a| && 0 <= j < |b| ==> a[i] != b[j]
  }

  lemma NoDuplicatesAppend(a: seq<Line>, b: seq<Line>)
    ensures NoDuplicates(a + b) <==> NoDuplicates(a) && NoDuplicates(b) && Apart(a, b)
  {
    var s := a + b;
    if NoDuplicates(s) {
      forall i, j | 0 <= i < j < |a| ensures a[i] != a[j] {
        assert s[i] == a[i] && s[j] == a[j];
      }
      forall i, j | 0 <= i < j < |b| ensures b[i] != b[j] {
        assert s[|a| + i] == b[i] && s[|a| + j] == b[j];
      }
      forall i, j | 0 <= i < |a| && 0 <= j < |b| ensures a[i] != b[j] {
        assert s[i] == a[i] && s[|a| + j] == b[j];
      }
    }
  }

  lemma ApartAppend(a: seq<Line>, b: seq<Line>, c: seq<Line>)
    ensures Apart(a + b, c) <==> Apart(a, c) && Apart(b, c)
    ensures Apart(c, a + b) <==> Apart(c, a) && Apart(c, b)
  {
    if Apart(a + b, c) {
      assert forall i :: 0 <= i < |a| ==> (a + b)[i] == a[i];
      assert forall i :: 0 <= i < |b| ==> (a + b)[|a| + i] == b[i];
    }
    if Apart(c, a + b) {
      assert forall i :: 0 <= i < |a| ==> (a + b)[i] == a[i];
      assert forall i :: 0 <= i < |b| ==> (a + b)[|a| + i] == b[i];
    }
  }

  /** A ring cut into three stretches, the first with the header. */
  ghost predicate Ring3(l: Links, a: seq<Line>, s: seq<Line>, b: seq<Line>) {
    a != [] && s != [] &&
    NoDuplicates(a) && NoDuplicates(s) && NoDuplicates(b) && Apart(a, s) && Apart(a, b) && Apart(s, b) &&
    Chain(l, a) && Chain(l, s) && Chain(l, b + [a[0]]) &&
    Linked(l, a[|a| - 1], s[0]) && Linked(l, s[|s| - 1], (b + [a[0]])[0])
  }

  lemma CutRing3(l: Links, a: seq<Line>, s: seq<Line>, b: seq<Line>)
    requires a != [] && s != []
    ensures Ring(l, a + s + b) <==> Ring3(l, a, s, b)
  {
    var r := a + s + b;
    NoDuplicatesAppend(a + s, b);
    NoDuplicatesAppend(a, s);
    ApartAppend(a, s, b);
    assert r[0] == a[0] && r + [r[0]] == (a + s) + (b + [a[0]]);
    ChainAppend(l, a + s, b + [a[0]]);
    ChainAppend(l, a, s);
  }

  lemma CutRing2(l: Links, a: seq<Line>, b: seq<Line>)
    requires a != []
    ensures Ring(l, a + b) <==>
      NoDuplicates(a) && NoDuplicates(b) && Apart(a, b) && Chain(l, a) && Chain(l, b + [a[0]]) &&
      Linked(l, a[|a| - 1], (b + [a[0]])[0])
  {
    var r := a + b;
    NoDuplicatesAppend(a, b);
    assert r[0] == a[0] && r + [r[0]] == a + (b + [a[0]]);
    ChainAppend(l, a, b + [a[0]]);
  }

  /** The lines of a stretch in the ring are attached the way an added stretch is. */
  lemma StretchAttached(l: Links, a: seq<Line>, s: seq<Line>, b: seq<Line>)
    requires Ring3(l, a, s, b)
    ensures Attached(l, Add(s[0], s[|s| - 1]))
    ensures B(l, s[0]) == a[|a| - 1] && F(l, s[|s| - 1]) == (b + [a[0]])[0]
  {
    assert (b + [a[0]])[0] == if b == [] then a[0] else b[0];
    ChainEnds(l, a);
    ChainEnds(l, s);
    ChainEnds(l, b + [a[0]]);
    assert (b + [a[0]])[|b|] == a[0] && a[0] in l.b;
  }

  /** All lines of a ring have both links. */
  lemma ChainEnds(l: Links, s: seq<Line>)
    requires Chain(l, s)
    ensures forall i :: 0 <= i < |s| - 1 ==> s[i] in l.f
    ensures forall i :: 1 <= i < |s| ==> s[i] in l.b
  {
    forall i | 0 <= i < |s| - 1 ensures s[i] in l.f {
      assert Linked(l, s[i], s[i + 1]);
    }
    forall i | 1 <= i < |s| ensures s[i] in l.b {
      assert Linked(l, s[i - 1], s[i]);
    }
  }

  /** Taking a stretch out of the ring is what undoing its addition does. */
  lemma RingDelete(l: Links, a: seq<Line>, s: seq<Line>, b: seq<Line>)
    requires Ring3(l, a, s, b)
    ensures var p, n := a[|a| - 1], (b + [a[0]])[0];
      Reque(l, p, n) == Undo1(l, Add(s[0], s[|s| - 1])) && Ring(Reque(l, p, n), a + b)
  {
    var p, n := a[|a| - 1], (b + [a[0]])[0];
    StretchAttached(l, a, s, b);
    var l' := Reque(l, p, n);
    assert n == if b == [] then a[0] else b[0];
    ChainFrame(l, p, n, a);
    ChainFrame(l, p, n, b + [a[0]]);
    CutRing2(l', a, b);
  }

  /** `INSQUE(x, pred)` for a line x that is not in the ring. */
  lemma RingInsert(l: Links, a: seq<Line>, x: Line, b: seq<Line>)
    requires a != [] && Ring(l, a + b) && x !in a && x !in b
    ensures var p, n := a[|a| - 1], (b + [a[0]])[0];
      F(l, p) == n && Ring(Reque(Reque(l, x, n), p, x), a + [x] + b)
  {
    var p, n := a[|a| - 1], (b + [a[0]])[0];
    CutRing2(l, a, b);
    assert n == if b == [] then a[0] else b[0];
    var l1 := Reque(l, x, n);
    var l2 := Reque(l1, p, x);
    ChainFrame(l, x, n, a);
    ChainFrame(l1, p, x, a);
    ChainFrame(l, x, n, b + [a[0]]);
    ChainFrame(l1, p, x, b + [a[0]]);
    CutRing3(l2, a, [x], b);
  }

  /** A ring cut into four stretches. */
  ghost predicate Ring4(l: Links, a: seq<Line>, m: seq<Line>, s: seq<Line>, b: seq<Line>) {
    Ring3(l, a, m, s + b) && s != [] && Chain(l, b + [a[0]]) && Apart(s, b) && Apart(m, s) && Apart(m, b) &&
    Apart(a, s) && Apart(a, b) && NoDuplicates(s) && NoDuplicates(b) && Chain(l, s) &&
    Linked(l, s[|s| - 1], (b + [a[0]])[0])
  }

  lemma CutRing4(l: Links, a: seq<Line>, m: seq<Line>, s: seq<Line>, b: seq<Line>)
    requires a != [] && m != [] && s != []
    ensures Ring(l, a + m + s + b) <==> Ring4(l, a, m, s, b)
  {
    assert a + m + s + b == a + m + (s + b);
    CutRing3(l, a, m, s + b);
    NoDuplicatesAppend(s, b);
    ApartAppend(s, b, m);
    ApartAppend(s, b, a);
    assert (s + b) + [a[0]] == s + (b + [a[0]]);
    ChainAppend(l, s, b + [a[0]]);
  }

  /** The six lines at the seams p|m0, m1|s0 and s1|n of four stretches. */
  ghost predicate Seams(l: Links, p: Line, m0: Line, m1: Line, s0: Line, s1: Line, n: Line) {
    In(l, {p, m0, m1, s0, s1, n}) && Linked(l, p, m0) && Linked(l, m1, s0) && Linked(l, s1, n) &&
    p != m1 && p != s1 && m1 != s1 && n != m0 && n != s0 && m0 != s0
  }

  lemma SeamsOf(l: Links, a: seq<Line>, m: seq<Line>, s: seq<Line>, b: seq<Line>)
    requires Ring4(l, a, m, s, b)
    ensures Seams(l, a[|a| - 1], m[0], m[|m| - 1], s[0], s[|s| - 1], (b + [a[0]])[0])
  {
    ChainEnds(l, a);
    ChainEnds(l, m);
    ChainEnds(l, s);
    ChainEnds(l, b + [a[0]]);
    assert (b + [a[0]])[0] == if b == [] then a[0] else b[0];
    assert (b + [a[0]])[|b|] == a[0] && a[0] in l.b;
    assert (s + b + [a[0]])[0] == s[0];
  }

  /** The relinking of a move to the right, and of one to the left. */
  lemma SwapSeams(l: Links, p: Line, m0: Line, m1: Line, s0: Line, s1: Line, n: Line)
    requires Seams(l, p, m0, m1, s0, s1, n)
    ensures Attached(l, Move(s1, n, p, s0)) && Attached(l, Move(p, m0, m1, n))
    ensures var r := Undo1(l, Move(s1, n, p, s0));
      Linked(r, p, s0) && Linked(r, s1, m0) && Linked(r, m1, n) && AgreeBut(r, l, {p, m1, s1}, {m0, s0, n})
    ensures Undo1(l, Move(s1, n, p, s0)) == Undo1(l, Move(p, m0, m1, n))
  {
    var r, r' := Undo1(l, Move(s1, n, p, s0)), Undo1(l, Move(p, m0, m1, n));
    assert r.f == r'.f;
    assert r.b == r'.b;
  }

  ghost predicate AgreeBut(r: Links, l: Links, fs: set<Line>, bs: set<Line>) {
    (forall x :: x in l.f && x !in fs ==> x in r.f && r.f[x] == l.f[x]) &&
    (forall x :: x in l.b && x !in bs ==> x in r.b && r.b[x] == l.b[x])
  }

  /** The three links `move_lines` sets when stretches m and s change places, whichever of the
      two is the one that moves. Undoing a move the other way sets the same three. */
  lemma RingSwap(l: Links, a: seq<Line>, m: seq<Line>, s: seq<Line>, b: seq<Line>)
    requires Ring(l, a + m + s + b) && a != [] && m != [] && s != []
    ensures var p, n := a[|a| - 1], (b + [a[0]])[0];
      var right := Move(s[|s| - 1], n, p, s[0]);
      var left := Move(p, m[0], m[|m| - 1], n);
      Attached(l, right) && Attached(l, left) && Undo1(l, right) == Undo1(l, left) &&
      Ring(Undo1(l, right), a + s + m + b)
  {
    var p, n := a[|a| - 1], (b + [a[0]])[0];
    var r := Undo1(l, Move(s[|s| - 1], n, p, s[0]));
    CutRing4(l, a, m, s, b);
    SeamsOf(l, a, m, s, b);
    SwapSeams(l, p, m[0], m[|m| - 1], s[0], s[|s| - 1], n);
    SwappedChains(l, r, a, m, s, b);
    assert ((m + b) + [a[0]])[0] == m[0];
    ChainAppend(r, m, b + [a[0]]);
    assert (m + b) + [a[0]] == m + (b + [a[0]]);
    NoDuplicatesAppend(m, b);
    ApartAppend(m, b, s);
    ApartAppend(m, b, a);
    CutRing4(r, a, s, m, b);
  }

  /** Only the links at the seams of the four stretches have changed. */
  lemma SwappedChains(l: Links, l': Links, a: seq<Line>, m: seq<Line>, s: seq<Line>, b: seq<Line>)
    requires Ring4(l, a, m, s, b)
    requires AgreeBut(l', l, {a[|a| - 1], m[|m| - 1], s[|s| - 1]}, {m[0], s[0], (b + [a[0]])[0]})
    ensures Chain(l', a) && Chain(l', m) && Chain(l', s) && Chain(l', b + [a[0]])
  {
  }
}
