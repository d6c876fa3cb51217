/** ed's line buffer: a ring of line nodes behind a header, a cached cursor into it,
    and an undo stack that relinks what editing has unlinked. */
module EdBuffer {
  import opened EdLinks

  datatype Kind = UADD | UDEL | UMOV | VMOV

  /** `undo_t`. */
  datatype Undo = Undo(kind: Kind, h: Line, t: Line)

  /** The entry with the lowest bit of its type flipped. */
  function Flipped(u: Undo): Undo {
    match u.kind
    case UADD => u.(kind := UDEL)
    case UDEL => u.(kind := UADD)
    case UMOV => u.(kind := VMOV)
    case VMOV => u.(kind := UMOV)
  }

  predicate IsMove(u: Undo) { u.kind == UMOV || u.kind == VMOV }

  /** How many entries of the stack the change takes. */
  function Width(c: Change): nat { if c.Move? then 2 else 1 }

  /** These entries stand for the change; the tags of a pair do not matter. */
  ghost predicate Stands(us: seq<Undo>, c: Change) {
    match c
    case Add(h, t) => us == [Undo(UADD, h, t)]
    case Del(h, t) => us == [Undo(UDEL, h, t)]
    case Move(h1, t1, h2, t2) =>
      |us| == 2 && IsMove(us[0]) && IsMove(us[1]) &&
      us[0].h == h1 && us[0].t == t1 && us[1].h == h2 && us[1].t == t2
  }

  ghost predicate Encodes(stack: seq<Undo>, cs: seq<Change>)
    decreases |cs|
  {
    if cs == [] then stack == []
    else
      var k := |stack| - Width(cs[|cs| - 1]);
      0 <= k && Stands(stack[k..], cs[|cs| - 1]) && Encodes(stack[..k], cs[..|cs| - 1])
  }

  lemma {:induction false} EncodesBottom(us: seq<Undo>, c: Change, stack: seq<Undo>, cs: seq<Change>)
    requires Stands(us, c) && Encodes(stack, cs)
    ensures Encodes(us + stack, [c] + cs)
    decreases |cs|
  {
    if cs == [] {
      assert us + stack == us && [c] + cs == [c] && [c][..0] == [];
      assert us[|us| - Width(c)..] == us && us[..0] == [];
    } else {
      var n := |cs| - 1;
      var k := |stack| - Width(cs[n]);
      EncodesBottom(us, c, stack[..k], cs[..n]);
      Suffix(us, stack, k);
      Suffix([c], cs, n);
      assert ([c] + cs)[n + 1] == cs[n];
    }
  }

  lemma Suffix<T>(a: seq<T>, b: seq<T>, k: nat)
    requires k <= |b|
    ensures (a + b)[|a| + k..] == b[k..] && (a + b)[..|a| + k] == a + b[..k]
  {
  }

  lemma EncodesTop(stack: seq<Undo>, cs: seq<Change>, us: seq<Undo>, c: Change)
    requires Encodes(stack, cs) && Stands(us, c)
    ensures Encodes(stack + us, cs + [c])
  {
    var k := |stack + us| - Width(c);
    assert (stack + us)[k..] == us && (stack + us)[..k] == stack;
    assert (cs + [c])[..|cs|] == cs;
  }

  /** The entries of one change after they have been undone and the stack reversed. */
  function Counterpart(us: seq<Undo>): seq<Undo>
    requires 1 <= |us| <= 2
  {
    if |us| == 1 then [Flipped(us[0])] else [us[1], Flipped(us[0])]
  }

  lemma CounterpartStands(us: seq<Undo>, c: Change)
    requires Stands(us, c)
    ensures 1 <= |us| <= 2 && Stands(Counterpart(us), Toggle(c))
  {
  }

  /** The undo stack after `pop_undo_stack`. */
  function Turned(stack: seq<Undo>, cs: seq<Change>): seq<Undo>
    requires Encodes(stack, cs)
    decreases |cs|
  {
    if cs == [] then []
    else
      var k := |stack| - Width(cs[|cs| - 1]);
      Counterpart(stack[k..]) + Turned(stack[..k], cs[..|cs| - 1])
  }

  lemma {:induction false} TurnedEncodes(stack: seq<Undo>, cs: seq<Change>)
    requires Encodes(stack, cs)
    ensures Encodes(Turned(stack, cs), Flip(cs)) && |Turned(stack, cs)| == |stack|
    decreases |cs|
  {
    if cs != [] {
      var n := |cs| - 1;
      var k := |stack| - Width(cs[n]);
      TurnedEncodes(stack[..k], cs[..n]);
      CounterpartStands(stack[k..], cs[n]);
      EncodesBottom(Counterpart(stack[k..]), Toggle(cs[n]), Turned(stack[..k], cs[..n]), Flip(cs[..n]));
      assert Flip(cs) == [Toggle(cs[n])] + Flip(cs[..n]);
    }
  }

  /** `INC_MOD(l, k)`. */
  function IncMod(l: int, k: int): int { if l + 1 > k then 0 else l + 1 }

  /** Ring, said under a quantifier so that proofs only look inside a sequence they name. */
  ghost predicate Held(l: Links, s: seq<Line>) {
    forall t {:trigger Look(t)} :: t == s && Look(t) ==> Ring(l, t)
  }

  ghost predicate Look(s: seq<Line>) { true }

  lemma HeldMeans(l: Links, s: seq<Line>)
    ensures Held(l, s) <==> Ring(l, s)
  {
    assert Look(s);
  }

  lemma RingNeighbours(l: Links, s: seq<Line>, i: nat)
    requires Held(l, s) && i < |s|
    ensures s[i] in l.f && s[i] in l.b
    ensures F(l, s[i]) == s[IncMod(i, |s| - 1)]
    ensures B(l, s[i]) == s[if i == 0 then |s| - 1 else i - 1]
  {
    HeldMeans(l, s);
    var r := s + [s[0]];
    assert Linked(l, r[i], r[i + 1]);
    if i == 0 {
      assert Linked(l, r[|s| - 1], r[|s|]);
    } else {
      assert Linked(l, r[i - 1], r[i]);
    }
  }

  /** Deleting lines from..to of a buffer: one pair of links, undone by the pushed entry. */
  lemma DeleteFacts(l: Links, r: seq<Line>, from: nat, to: nat)
    requires Held(l, r) && 1 <= from <= to < |r|
    ensures var l' := Reque(l, r[from - 1], r[IncMod(to, |r| - 1)]);
      Held(l', r[..from] + r[to + 1..]) &&
      Attached(l', Del(r[from], r[to])) && Undo1(l', Del(r[from], r[to])) == l
  {
    HeldMeans(l, r);
    HeldMeans(Reque(l, r[from - 1], r[IncMod(to, |r| - 1)]), r[..from] + r[to + 1..]);
    var a, s, b := r[..from], r[from..to + 1], r[to + 1..];
    assert r == a + s + b;
    assert r[IncMod(to, |r| - 1)] == (b + [a[0]])[0];
    CutRing3(l, a, s, b);
    StretchAttached(l, a, s, b);
    RingDelete(l, a, s, b);
    UndoInverse(l, Add(s[0], s[|s| - 1]));
  }

  /** What the fields of the lines and of the buffer amount to. */
  datatype View = View(
    /** every line node there is, the header among them */
    nodes: set<Line>,
    /** what their link fields hold */
    links: Links,
    /** the lines of the buffer in order, behind the header */
    ring: seq<Line>,
    /** what the undo stack stands for */
    changes: seq<Change>,
    /** the buffer the undo stack leads back to */
    base: seq<Line>)
  {
    /** What it is after the line x has been put behind line c. */
    ghost function Put(c: nat, x: Line): View
      requires c < |ring|
    {
      var n := ring[IncMod(c, |ring| - 1)];
      this.(nodes := nodes + {x}, ring := Inserted(ring, c, [x]), links := Reque(Reque(links, x, n), ring[c], x))
    }
  }

  /** Everything undone; what was the buffer is now what the stack leads back to. */
  ghost function Reverted(v: View): View {
    View(v.nodes, UndoAll(v.links, v.changes), v.base, Flip(v.changes), v.ring)
  }

  /** The stack stands for changes that can be undone from the links l, back to the buffer base.
      This is said under a quantifier so that proofs only look inside a stack they name. */
  ghost predicate Sound(l: Links, stack: seq<Undo>, cs: seq<Change>, base: seq<Line>) {
    forall s {:trigger Inside(s)} :: s == stack && Inside(s) ==>
      Encodes(s, cs) && Legal(l, cs) && Held(UndoAll(l, cs), base)
  }

  ghost predicate Inside(s: seq<Undo>) { true }

  lemma SoundMeans(l: Links, stack: seq<Undo>, cs: seq<Change>, base: seq<Line>)
    ensures Sound(l, stack, cs, base) <==>
      Encodes(stack, cs) && Legal(l, cs) && Held(UndoAll(l, cs), base)
  {
    assert Inside(stack);
  }

  /** A change on top of a sound stack whose undoing leads back to the links the stack was sound for. */
  lemma SoundTop(l: Links, stack: seq<Undo>, cs: seq<Change>, base: seq<Line>, l': Links, us: seq<Undo>, c: Change)
    requires Sound(l, stack, cs, base) && Stands(us, c) && Attached(l', c) && Undo1(l', c) == l
    ensures Sound(l', stack + us, cs + [c], base)
  {
    SoundMeans(l, stack, cs, base);
    LegalTop(l', cs, c);
    EncodesTop(stack, cs, us, c);
    SoundMeans(l', stack + us, cs + [c], base);
  }

  /** The buffer r after its lines first..second have moved behind line addr. */
  function Moved(r: seq<Line>, first: nat, second: nat, addr: nat): seq<Line>
    requires 1 <= first <= second < |r| && addr < |r| && !(first <= addr < second)
  {
    if addr < first then r[..addr + 1] + r[first..second + 1] + r[addr + 1..first] + r[second + 1..]
    else r[..first] + r[second + 1..addr + 1] + r[first..second + 1] + r[addr + 1..]
  }

  /** The relinking of `move_lines`, as a change, and the change its two entries stand for. */
  function Forward(r: seq<Line>, first: nat, second: nat, addr: nat): Change
    requires 1 <= first <= second < |r| && addr < |r|
  {
    var n := |r| - 1;
    Move(r[addr], r[IncMod(addr, n)], r[first - 1], r[IncMod(second, n)])
  }

  /** The entries pushed for a move: the gap left behind and the gap moved into. */
  function MoveEntries(r: seq<Line>, first: nat, second: nat, addr: nat): seq<Undo>
    requires 1 <= first <= second < |r| && addr < |r|
  {
    var n := |r| - 1;
    [Undo(UMOV, r[first - 1], r[IncMod(second, n)]), Undo(UMOV, r[addr], r[IncMod(addr, n)])]
  }

  /** The number of the first of the moved lines where they have moved to. */
  function MovedTo(first: nat, second: nat, addr: nat): int {
    if addr < first then addr + 1 else addr - (second - first)
  }

  /** The lines first..second, and those around them, at k in q as they are at t and f in r. */
  ghost predicate Placed(q: seq<Line>, k: int, r: seq<Line>, first: nat, second: nat, t: int, f: int)
    requires first <= second < |r|
  {
    var m := k + (second - first);
    |q| == |r| && 1 <= k <= m < |q| && q[k..m + 1] == r[first..second + 1] && 0 <= t < |r| && 0 <= f < |r| &&
    q[k - 1] == r[t] && q[IncMod(m, |q| - 1)] == r[IncMod(f, |r| - 1)]
  }

  lemma MovedLeftAround(r: seq<Line>, first: nat, second: nat, addr: nat)
    requires 1 <= first <= second < |r| && addr < first - 1
    ensures Placed(Moved(r, first, second, addr), addr + 1, r, first, second, addr, addr)
  {
    var a, s, b, c := r[..addr + 1], r[first..second + 1], r[addr + 1..first], r[second + 1..];
    var q := a + s + b + c;
    assert q[|a|..|a| + |s|] == s;
    assert q[|a| + |s|] == b[0];
  }

  lemma MovedRightAround(r: seq<Line>, first: nat, second: nat, addr: nat)
    requires 1 <= first <= second < addr < |r|
    ensures Placed(Moved(r, first, second, addr), addr - (second - first), r, first, second, addr, addr)
  {
    var a, s, b, c := r[..first], r[second + 1..addr + 1], r[first..second + 1], r[addr + 1..];
    var q := a + s + b + c;
    assert q[|a| + |s|..|a| + |s| + |b|] == b;
    assert q[|a| + |s| - 1] == s[|s| - 1];
    assert c != [] ==> q[|a| + |s| + |b|] == c[0];
    assert q[0] == a[0];
  }

  /** Lines that have moved, and the lines around them. */
  lemma MovedAround(r: seq<Line>, first: nat, second: nat, addr: nat)
    requires 1 <= first <= second < |r| && (addr < first - 1 || second < addr < |r|)
    ensures Placed(Moved(r, first, second, addr), MovedTo(first, second, addr), r, first, second, addr, addr)
  {
    if addr < first {
      MovedLeftAround(r, first, second, addr);
    } else {
      MovedRightAround(r, first, second, addr);
    }
  }

  lemma MovedNowhere(r: seq<Line>, first: nat, second: nat, addr: nat)
    requires 1 <= first <= second < |r| && (addr == first - 1 || addr == second)
    ensures Moved(r, first, second, addr) == r
  {
  }

  lemma GapNeighbours(l: Links, r: seq<Line>, first: nat, second: nat, addr: nat)
    requires Held(l, r) && 1 <= first <= second < |r| && addr < |r|
    ensures var n := IncMod(second, |r| - 1);
      F(l, r[first - 1]) == r[first] && B(l, r[n]) == r[second] && F(l, r[addr]) == r[IncMod(addr, |r| - 1)] &&
      r[first] != r[n] && In(l, {r[first], r[second], r[IncMod(addr, |r| - 1)]})
  {
    HeldMeans(l, r);
    var n := IncMod(second, |r| - 1);
    RingNeighbours(l, r, first - 1);
    RingNeighbours(l, r, n);
    RingNeighbours(l, r, addr);
    RingNeighbours(l, r, first);
    RingNeighbours(l, r, second);
    RingNeighbours(l, r, IncMod(addr, |r| - 1));
  }

  lemma SwappedLeft(l: Links, r: seq<Line>, first: nat, second: nat, addr: nat)
    requires Ring(l, r) && 1 <= first <= second < |r| && addr < first - 1
    ensures var c := Forward(r, first, second, addr);
      Attached(l, c) && Ring(Undo1(l, c), Moved(r, first, second, addr))
  {
    var a, m, s, b := r[..addr + 1], r[addr + 1..first], r[first..second + 1], r[second + 1..];
    assert r == a + m + s + b;
    assert r[IncMod(second, |r| - 1)] == (b + [a[0]])[0];
    assert a[|a| - 1] == r[addr] && m[0] == r[addr + 1] && m[|m| - 1] == r[first - 1];
    RingSwap(l, a, m, s, b);
  }

  lemma MovedLeft(l: Links, r: seq<Line>, first: nat, second: nat, addr: nat)
    requires Held(l, r) && 1 <= first <= second < |r| && addr < first - 1
    ensures var c := Forward(r, first, second, addr);
      Attached(l, c) && Held(Undo1(l, c), Moved(r, first, second, addr))
  {
    HeldMeans(l, r);
    SwappedLeft(l, r, first, second, addr);
    HeldMeans(Undo1(l, Forward(r, first, second, addr)), Moved(r, first, second, addr));
  }

  lemma SwappedRight(l: Links, r: seq<Line>, first: nat, second: nat, addr: nat)
    requires Ring(l, r) && 1 <= first <= second < addr < |r|
    ensures var c := Forward(r, first, second, addr);
      Attached(l, c) && Ring(Undo1(l, c), Moved(r, first, second, addr))
  {
    var a, m, s, b := r[..first], r[first..second + 1], r[second + 1..addr + 1], r[addr + 1..];
    assert r == a + m + s + b;
    assert r[IncMod(addr, |r| - 1)] == (b + [a[0]])[0];
    assert a[|a| - 1] == r[first - 1] && s[0] == r[second + 1] && s[|s| - 1] == r[addr];
    RingSwap(l, a, m, s, b);
  }

  lemma MovedRight(l: Links, r: seq<Line>, first: nat, second: nat, addr: nat)
    requires Held(l, r) && 1 <= first <= second < addr < |r|
    ensures var c := Forward(r, first, second, addr);
      Attached(l, c) && Held(Undo1(l, c), Moved(r, first, second, addr))
  {
    HeldMeans(l, r);
    SwappedRight(l, r, first, second, addr);
    HeldMeans(Undo1(l, Forward(r, first, second, addr)), Moved(r, first, second, addr));
  }

  /** The two entries of a move lead back where the move came from. */
  lemma MoveFacts(l: Links, r: seq<Line>, first: nat, second: nat, addr: nat)
    requires Held(l, r) && 1 <= first <= second < |r| && addr < |r| && (addr < first - 1 || second < addr)
    ensures var c := Forward(r, first, second, addr);
      Held(Undo1(l, c), Moved(r, first, second, addr)) &&
      Attached(Undo1(l, c), Toggle(c)) && Undo1(Undo1(l, c), Toggle(c)) == l
  {
    if addr < first {
      MovedLeft(l, r, first, second, addr);
    } else {
      MovedRight(l, r, first, second, addr);
    }
    UndoInverse(l, Forward(r, first, second, addr));
  }

  /** The stack after `pop_undo_stack` has relinked everything and before it reverses it: of a
      pair of entries only the lower one changes its tag. */
  function Marked(stack: seq<Undo>, cs: seq<Change>): seq<Undo>
    requires Encodes(stack, cs)
    decreases |cs|
  {
    if cs == [] then []
    else
      var k := |stack| - Width(cs[|cs| - 1]);
      Marked(stack[..k], cs[..|cs| - 1]) + stack[k..][0 := Flipped(stack[k])]
  }

  ghost predicate Reversal<T>(r: seq<T>, s: seq<T>) {
    |r| == |s| && forall i :: 0 <= i < |s| ==> r[i] == s[|s| - 1 - i]
  }

  lemma {:induction false} MarkedTurned(stack: seq<Undo>, cs: seq<Change>)
    requires Encodes(stack, cs)
    ensures Reversal(Turned(stack, cs), Marked(stack, cs))
    decreases |cs|
  {
    if cs != [] {
      var n := |cs| - 1;
      var k := |stack| - Width(cs[n]);
      MarkedTurned(stack[..k], cs[..n]);
      var us := stack[k..];
      assert Reversal(Counterpart(us), us[0 := Flipped(us[0])]);
      ReversalAppend(Counterpart(us), us[0 := Flipped(us[0])], Turned(stack[..k], cs[..n]), Marked(stack[..k], cs[..n]));
    }
  }

  lemma ReversalAppend<T>(r1: seq<T>, s1: seq<T>, r2: seq<T>, s2: seq<T>)
    requires Reversal(r1, s1) && Reversal(r2, s2)
    ensures Reversal(r1 + r2, s2 + s1)
  {
  }

  lemma ReversalUnique<T>(r: seq<T>, r': seq<T>, s: seq<T>)
    requires Reversal(r, s) && Reversal(r', s)
    ensures r == r'
  {
  }

  /** The same entry, but for the tag of an entry of a move. */
  predicate Alike(u: Undo, v: Undo) {
    u.h == v.h && u.t == v.t && (u.kind == v.kind || (IsMove(u) && IsMove(v)))
  }

  predicate AllAlike(us: seq<Undo>, vs: seq<Undo>) {
    |us| == |vs| && forall i :: 0 <= i < |us| ==> Alike(us[i], vs[i])
  }

  /** Stacks that stand for the same changes differ in the tags of moves only. */
  lemma {:induction false} EncodesAlike(us: seq<Undo>, vs: seq<Undo>, cs: seq<Change>)
    requires Encodes(us, cs) && Encodes(vs, cs)
    ensures AllAlike(us, vs)
    decreases |cs|
  {
    if cs != [] {
      var n := |cs| - 1;
      var k, m := |us| - Width(cs[n]), |vs| - Width(cs[n]);
      EncodesAlike(us[..k], vs[..m], cs[..n]);
      assert us == us[..k] + us[k..] && vs == vs[..m] + vs[m..];
      assert AllAlike(us[k..], vs[m..]);
    }
  }

  /** What `pop_undo_stack` leaves can itself be undone, and leads back to where it came from. */
  lemma SoundTurned(l: Links, stack: seq<Undo>, cs: seq<Change>, base: seq<Line>, ring: seq<Line>)
    requires Sound(l, stack, cs, base) && Held(l, ring)
    ensures Encodes(stack, cs) && Held(UndoAll(l, cs), base)
    ensures Sound(UndoAll(l, cs), Turned(stack, cs), Flip(cs), ring)
  {
    SoundMeans(l, stack, cs, base);
    UndoTwice(l, cs);
    TurnedEncodes(stack, cs);
    SoundMeans(UndoAll(l, cs), Turned(stack, cs), Flip(cs), ring);
  }

  lemma SoundExtends(m: Links, l: Links, stack: seq<Undo>, cs: seq<Change>, base: seq<Line>)
    requires Extends(m, l) && Sound(l, stack, cs, base)
    ensures Sound(m, stack, cs, base)
  {
    SoundMeans(l, stack, cs, base);
    SoundMeans(m, stack, cs, base);
    LegalExtends(m, l, cs);
    HeldMeans(UndoAll(l, cs), base);
    HeldMeans(UndoAll(m, cs), base);
    ChainExtends(UndoAll(m, cs), UndoAll(l, cs), base + [base[0]]);
  }

  /** The buffer r with new lines behind line n. */
  function Inserted(r: seq<Line>, n: nat, news: seq<Line>): seq<Line>
    requires n < |r|
  {
    r[..n + 1] + news + r[n + 1..]
  }

  /** The links m come from l by putting news behind line n of the buffer r. */
  ghost predicate Grown(m: Links, l: Links, r: seq<Line>, n: nat, news: seq<Line>)
    requires n < |r|
  {
    AgreeBut(m, l, {r[n]}, {r[IncMod(n, |r| - 1)]}) &&
    forall x :: x in news ==> x !in l.f && x !in l.b
  }

  /** The entry pushed for appended lines. */
  function AddEntry(news: seq<Line>): seq<Undo> {
    if news == [] then [] else [Undo(UADD, news[0], news[|news| - 1])]
  }

  lemma InsertFacts(l: Links, r: seq<Line>, c: nat, x: Line)
    requires Held(l, r) && c < |r| && x !in r
    ensures Held(Reque(Reque(l, x, r[IncMod(c, |r| - 1)]), r[c], x), Inserted(r, c, [x]))
  {
    var n := r[IncMod(c, |r| - 1)];
    HeldMeans(l, r);
    HeldMeans(Reque(Reque(l, x, n), r[c], x), Inserted(r, c, [x]));
    var a, b := r[..c + 1], r[c + 1..];
    assert r == a + b;
    assert n == (b + [a[0]])[0];
    RingInsert(l, a, x, b);
  }

  lemma InsertedMore(r0: seq<Line>, n: nat, news: seq<Line>, x: Line)
    requires n < |r0|
    ensures var r, c := Inserted(r0, n, news), n + |news|;
      r[IncMod(c, |r| - 1)] == r0[IncMod(n, |r0| - 1)] &&
      r[c] == (if news == [] then r0[n] else news[|news| - 1]) &&
      Inserted(r, c, [x]) == Inserted(r0, n, news + [x])
  {
    var r, c := Inserted(r0, n, news), n + |news|;
    assert r[..c + 1] == r0[..n + 1] + news;
    assert r[c + 1..] == r0[n + 1..];
  }

  lemma AgreeMore(m: Links, l: Links, p: Line, q: Line, p': Line, x: Line)
    requires AgreeBut(m, l, {p}, {q}) && x !in l.f && x !in l.b && (p' == p || p' !in l.f)
    ensures AgreeBut(Reque(Reque(m, x, q), p', x), l, {p}, {q})
  {
  }

  /** One more line keeps the links grown. */
  lemma GrownMore(l0: Links, r0: seq<Line>, n: nat, l: Links, news: seq<Line>, x: Line)
    requires n < |r0| && Grown(l, l0, r0, n, news) && x !in l0.f && x !in l0.b
    ensures var r, c := Inserted(r0, n, news), n + |news|;
      Grown(Reque(Reque(l, x, r[IncMod(c, |r| - 1)]), r[c], x), l0, r0, n, news + [x])
    ensures Inserted(Inserted(r0, n, news), n + |news|, [x]) == Inserted(r0, n, news + [x])
  {
    InsertedMore(r0, n, news, x);
    AgreeMore(l, l0, r0[n], r0[IncMod(n, |r0| - 1)], if news == [] then r0[n] else news[|news| - 1], x);
  }

  /** Undoing the addition of lines leaves the old links, and the new lines out of the buffer. */
  lemma AddFacts(l0: Links, r0: seq<Line>, n: nat, l: Links, news: seq<Line>)
    requires n < |r0| && Held(l0, r0) && Grown(l, l0, r0, n, news) && news != []
    requires Held(l, Inserted(r0, n, news))
    ensures var c := Add(news[0], news[|news| - 1]); Attached(l, c) && Extends(Undo1(l, c), l0)
  {
    HeldMeans(l, Inserted(r0, n, news));
    var a, b := r0[..n + 1], r0[n + 1..];
    assert Inserted(r0, n, news) == a + news + b;
    CutRing3(l, a, news, b);
    StretchAttached(l, a, news, b);
    assert (b + [a[0]])[0] == r0[IncMod(n, |r0| - 1)];
    RingNeighbours(l0, r0, n);
    RingNeighbours(l0, r0, IncMod(n, |r0| - 1));
  }

  lemma SoundAdd(l0: Links, r0: seq<Line>, n: nat, l: Links, news: seq<Line>,
                 stack: seq<Undo>, cs: seq<Change>, base: seq<Line>)
    requires n < |r0| && Held(l0, r0) && Grown(l, l0, r0, n, news) && news != []
    requires Held(l, Inserted(r0, n, news)) && Sound(l0, stack, cs, base)
    ensures Sound(l, stack + [Undo(UADD, news[0], news[|news| - 1])], cs + [Add(news[0], news[|news| - 1])], base)
  {
    var c := Add(news[0], news[|news| - 1]);
    AddFacts(l0, r0, n, l, news);
    SoundExtends(Undo1(l, c), l0, stack, cs, base);
    SoundTop(Undo1(l, c), stack, cs, base, l, [Undo(UADD, c.h, c.t)], c);
  }

  /** The link fields of the lines hold the given links. */
  ghost predicate Mirrors(nodes: set<Line>, l: Links)
    reads nodes
  {
    (forall x :: x in nodes ==> x in l.f && x in l.b && x.forw == l.f[x] && x.back == l.b[x]) &&
    l.f.Keys <= nodes && l.b.Keys <= nodes
  }

  /** `REQUE(pred, succ)`. */
  method Requeue(pred: Line, succ: Line, ghost nodes: set<Line>, ghost l: Links)
    requires Mirrors(nodes, l) && pred in nodes && succ in nodes
    modifies pred`forw, succ`back
    ensures Mirrors(nodes, Reque(l, pred, succ))
  {
    pred.forw := succ;
    succ.back := pred;
  }

  /** The three `REQUE`s of `move_lines`. */
  method Rehang(a1: Line, b1: Line, b2: Line, ghost c: Change, ghost nodes: set<Line>, ghost l: Links)
    requires Mirrors(nodes, l) && {a1, b1, b2} <= nodes && c == Move(b2, F(l, b2), b1, a1)
    requires {b2.forw, b1.forw, a1.back} <= nodes && b1.forw != a1
    modifies b2`forw, b1`forw, a1`back, b1.forw`back, a1.back`forw, b2.forw`back
    ensures Mirrors(nodes, Undo1(l, c))
  {
    var a2 := b2.forw;
    Requeue(b2, b1.forw, nodes, l);
    ghost var l1 := Reque(l, b2, F(l, b1));
    Requeue(a1.back, a2, nodes, l1);
    ghost var l2 := Reque(l1, B(l1, a1), a2);
    Requeue(b1, a1, nodes, l2);
  }

  /** `INSQUE(x, pred)`. */
  method Insque(x: Line, pred: Line, ghost nodes: set<Line>, ghost l: Links)
    requires Mirrors(nodes, l) && pred in nodes && pred.forw in nodes && x !in nodes
    modifies x, pred`forw, pred.forw`back
    ensures Mirrors(nodes + {x}, Reque(Reque(l, x, F(l, pred)), pred, x))
  {
    ghost var l0 := Links(l.f[x := x.forw], l.b[x := x.back]);
    ghost var n := F(l, pred);
    InsqueLinks(l, x, x.forw, x.back, n, pred);
    Requeue(x, pred.forw, nodes + {x}, l0);
    Requeue(pred, x, nodes + {x}, Reque(l0, x, n));
  }

  /** It does not matter what the links of the new line were. */
  lemma InsqueLinks(l: Links, x: Line, forw: Line, back: Line, n: Line, pred: Line)
    requires x != n && x != pred
    ensures Reque(Reque(Links(l.f[x := forw], l.b[x := back]), x, n), pred, x) == Reque(Reque(l, x, n), pred, x)
  {
    assert l.f[x := forw][x := n] == l.f[x := n];
    Overwritten(l.b, x, back, n, x, pred);
  }

  lemma Overwritten<K, V>(m: map<K, V>, x: K, u: V, n: K, v: V, w: V)
    ensures m[x := u][n := v][x := w] == m[n := v][x := w]
  {
  }

  /** The case of `pop_undo_stack` for UADD. */
  method UnlinkAdded(h: Line, t: Line, ghost nodes: set<Line>, ghost l: Links)
    requires Mirrors(nodes, l) && Attached(l, Add(h, t))
    modifies nodes
    ensures Mirrors(nodes, Undo1(l, Add(h, t)))
  {
    Requeue(h.back, t.forw, nodes, l);
  }

  /** The case for UDEL. */
  method RelinkDeleted(h: Line, t: Line, ghost nodes: set<Line>, ghost l: Links)
    requires Mirrors(nodes, l) && Attached(l, Del(h, t))
    modifies nodes
    ensures Mirrors(nodes, Undo1(l, Del(h, t)))
  {
    Requeue(h.back, h, nodes, l);
    Requeue(t, t.forw, nodes, Reque(l, B(l, h), h));
  }

  /** The case for UMOV and VMOV, for the two entries of a move. */
  method MoveBack(lower: Undo, upper: Undo, ghost nodes: set<Line>, ghost l: Links)
    requires Mirrors(nodes, l) && Attached(l, Move(lower.h, lower.t, upper.h, upper.t))
    modifies nodes
    ensures Mirrors(nodes, Undo1(l, Move(lower.h, lower.t, upper.h, upper.t)))
  {
    Requeue(lower.h, upper.h.forw, nodes, l);
    ghost var l1 := Reque(l, lower.h, F(l, upper.h));
    Requeue(upper.t.back, lower.t, nodes, l1);
    Requeue(upper.h, upper.t, nodes, Reque(l1, B(l1, upper.t), lower.t));
  }

  /** The switch of `pop_undo_stack`: relink for the entry below n, or for the pair. */
  method UndoEntry(us: seq<Undo>, n: nat, ghost c: Change, ghost nodes: set<Line>, ghost l: Links) returns (m: nat)
    requires Mirrors(nodes, l) && Attached(l, c)
    requires 0 < n <= |us| && Width(c) <= n && Stands(us[n - Width(c)..n], c)
    modifies nodes
    ensures Mirrors(nodes, Undo1(l, c)) && m == n - Width(c)
  {
    m := n - 1;
    ghost var top := us[n - Width(c)..n];
    match us[m].kind {
      case UADD =>
        assert top[|top| - 1] == us[m];
        UnlinkAdded(us[m].h, us[m].t, nodes, l);
      case UDEL =>
        assert top[|top| - 1] == us[m];
        RelinkDeleted(us[m].h, us[m].t, nodes, l);
      case _ =>
        assert top[|top| - 1] == us[m] && top[0] == us[n - Width(c)];
        MoveBack(us[m - 1], us[m], nodes, l);
        m := m - 1;
    }
  }

  /** The first loop of `pop_undo_stack`: relink from the top of the stack down. */
  method UndoLinks(stack: seq<Undo>, ghost cs: seq<Change>, ghost nodes: set<Line>, ghost l: Links)
    returns (us: seq<Undo>)
    requires Mirrors(nodes, l) && Encodes(stack, cs) && Legal(l, cs)
    modifies nodes
    ensures Mirrors(nodes, UndoAll(l, cs)) && us == Marked(stack, cs)
  {
    us := stack;
    var n := |us|;
    ghost var rest, now := cs, l;
    assert stack[..n] == stack;
    while n > 0
      invariant n <= |us| && Encodes(us[..n], rest)
      invariant Mirrors(nodes, now) && Legal(now, rest) && UndoAll(now, rest) == UndoAll(l, cs)
      invariant Marked(stack, cs) == Marked(us[..n], rest) + us[n..]
      decreases n
    {
      ghost var c, m := rest[|rest| - 1], n;
      TopStands(us, n, rest);
      n := UndoEntry(us, n, c, nodes, now);
      MarkedStep(us, m, n, rest);
      us := us[n := Flipped(us[n])];
      now, rest := Undo1(now, c), rest[..|rest| - 1];
    }
    assert us[..0] == [] && us[0..] == us;
  }

  lemma TopStands(us: seq<Undo>, n: nat, cs: seq<Change>)
    requires 0 < n <= |us| && Encodes(us[..n], cs)
    ensures cs != [] && Width(cs[|cs| - 1]) <= n
    ensures Stands(us[n - Width(cs[|cs| - 1])..n], cs[|cs| - 1])
  {
    var k := n - Width(cs[|cs| - 1]);
    assert us[..n][k..] == us[k..n];
  }

  lemma MarkedStep(us: seq<Undo>, m: nat, n: nat, cs: seq<Change>)
    requires n < m <= |us| && cs != [] && Encodes(us[..m], cs) && m - n == Width(cs[|cs| - 1])
    ensures var us' := us[n := Flipped(us[n])];
      Encodes(us'[..n], cs[..|cs| - 1]) &&
      Marked(us[..m], cs) + us[m..] == Marked(us'[..n], cs[..|cs| - 1]) + us'[n..]
  {
    TailStep(us, m, n, Flipped(us[n]));
    Regroup(Marked(us[..n], cs[..|cs| - 1]), us[..m][n..][0 := Flipped(us[n])], us[m..]);
  }

  lemma TailStep<T>(us: seq<T>, m: nat, n: nat, u: T)
    requires n < m <= |us|
    ensures us[..m][..n] == us[..n] == us[n := u][..n] && us[..m][n] == us[n]
    ensures us[..m][n..][0 := u] + us[m..] == us[n := u][n..]
  {
  }

  lemma Regroup<T>(a: seq<T>, b: seq<T>, c: seq<T>)
    ensures (a + b) + c == a + (b + c)
  {
  }

  /** The second loop of `pop_undo_stack`: reverse the stack by swaps. */
  method ReverseStack(us: seq<Undo>) returns (r: seq<Undo>)
    ensures Reversal(r, us)
  {
    r := us;
    var n := |us|;
    while n > (|us| + 1) / 2
      invariant |r| == |us| && (|us| + 1) / 2 <= n <= |us|
      invariant forall i :: n <= i < |us| || 0 <= i < |us| - n ==> r[i] == us[|us| - 1 - i]
      invariant forall i :: |us| - n <= i < n ==> r[i] == us[i]
    {
      n := n - 1;
      assert |us| - 1 - n < n;
      r := r[n := r[|us| - 1 - n]][|us| - 1 - n := r[n]];
    }
  }

  /** Both loops of `pop_undo_stack`. */
  method UndoStack(stack: seq<Undo>, ghost cs: seq<Change>, ghost nodes: set<Line>, ghost l: Links)
    returns (us: seq<Undo>)
    requires Mirrors(nodes, l) && Encodes(stack, cs) && Legal(l, cs)
    modifies nodes
    ensures Mirrors(nodes, UndoAll(l, cs)) && us == Turned(stack, cs)
  {
    us := UndoLinks(stack, cs, nodes, l);
    us := ReverseStack(us);
    MarkedTurned(stack, cs);
    ReversalUnique(us, Turned(stack, cs), Marked(stack, cs));
  }

  class Buffer {
    /** `buffer_head` */
    const head: Line
    /** the cursor `get_addressed_line_node` keeps between calls, and its number */
    var lp: Line
    var on: nat
    var currentAddr: nat
    var addrLast: nat
    /** addresses to go back to; -1 when undoing is not possible */
    var uCurrentAddr: int
    var uAddrLast: int
    var ustack: seq<Undo>
    var modified: bool
    /** what only the proof sees */
    ghost var g: View

    ghost predicate Mirrored()
      reads this`g, g.nodes
    {
      Mirrors(g.nodes, g.links)
    }

    ghost function At(n: nat): Line
      reads this`g
      requires n < |g.ring|
    {
      g.ring[n]
    }

    ghost predicate RingOk()
      reads this, g.nodes
    {
      Mirrored() && Held(g.links, g.ring) && |g.ring| == addrLast + 1 && g.ring[0] == head &&
      on < |g.ring| && lp == g.ring[on]
    }

    /** The undo stack can be undone from the top to the bottom, and leads to the base buffer. */
    ghost predicate UndoOk()
      reads this
    {
      Sound(g.links, ustack, g.changes, g.base) && g.base != [] && g.base[0] == head &&
      (uCurrentAddr == -1 || uAddrLast == -1 || (0 <= uCurrentAddr <= uAddrLast == |g.base| - 1))
    }

    ghost predicate Valid()
      reads this, g.nodes
    {
      RingOk() && UndoOk() && currentAddr <= addrLast
    }

    constructor ()
      ensures Valid() && g.ring == [head] && g.nodes == {head} && fresh(head)
      ensures g.changes == [] && uCurrentAddr == uAddrLast == -1
    {
      var h := new Line();
      head, lp, on := h, h, 0;
      currentAddr, addrLast, uCurrentAddr, uAddrLast := 0, 0, -1, -1;
      ustack, modified := [], false;
      g := View({h}, Links(map[h := h], map[h := h]), [h], [], [h]);
      new;
      SoundMeans(g.links, ustack, g.changes, g.base);
    }

    /** The cursor goes forward, line by line, to line n. */
    method StepForward(n: nat) returns (ghost steps: nat)
      requires RingOk() && on <= n <= addrLast
      modifies this`lp, this`on
      ensures RingOk() && on == n && steps == n - old(on)
    {
      steps := 0;
      while on < n
        invariant on <= n && lp == g.ring[on] && steps == on - old(on)
      {
        RingNeighbours(g.links, g.ring, on);
        lp, on, steps := lp.forw, on + 1, steps + 1;
      }
    }

    /** The cursor goes back, line by line, to line n. */
    method StepBack(n: nat) returns (ghost steps: nat)
      requires RingOk() && n <= on
      modifies this`lp, this`on
      ensures RingOk() && on == n && steps == old(on) - n
    {
      steps := 0;
      while on > n
        invariant n <= on < |g.ring| && lp == g.ring[on] && steps == old(on) - on
      {
        RingNeighbours(g.links, g.ring, on);
        lp, on, steps := lp.back, on - 1, steps + 1;
      }
    }

    /** `get_addressed_line_node(n)`, with the number of links it follows. */
    method GetAddressedLineNode(n: nat) returns (r: Line, ghost steps: nat)
      requires RingOk() && n <= addrLast
      modifies this`lp, this`on
      ensures RingOk() && r == g.ring[n] == lp && on == n && r in g.nodes
      ensures 2 * steps <= addrLast + 1
      ensures unchanged(this`addrLast, this`uCurrentAddr, this`uAddrLast, this`ustack)
    {
      if n > on {
        if n <= (on + addrLast) / 2 {
          steps := StepForward(n);
        } else {
          RingNeighbours(g.links, g.ring, 0);
          lp := head.back;
          on := addrLast;
          steps := StepBack(n);
          steps := steps + 1;
        }
      } else {
        if n >= on / 2 {
          steps := StepBack(n);
        } else {
          lp := head;
          on := 0;
          steps := StepForward(n);
        }
      }
      r := lp;
      RingNeighbours(g.links, g.ring, n);
    }

    /** `get_line_node_addr(lp)`: the line's number. A line not in the buffer is an error (-2),
        except that in an empty buffer every line counts as number 0. */
    method GetLineNodeAddr(line: Line) returns (n: int)
      requires RingOk()
      ensures line in g.ring ==> 0 <= n <= addrLast && g.ring[n] == line
      ensures line !in g.ring ==> n == if addrLast == 0 then 0 else -2
    {
      var cp := head;
      n := 0;
      while cp != line
        invariant 0 <= n <= addrLast && cp == g.ring[n] && line !in g.ring[..n]
        decreases addrLast - n
      {
        RingNeighbours(g.links, g.ring, n);
        cp := cp.forw;
        if cp == head {
          HeadOnlyFirst(g.links, g.ring, n);
          assert g.ring == g.ring[..n] + [g.ring[n]];
          if n != 0 {
            n := -2;
          }
          return;
        }
        n := n + 1;
      }
    }

    /** `push_undo_stack(type, from, to)`. */
    method PushUndoStack(kind: Kind, from: nat, to: nat)
      requires RingOk() && from <= addrLast && to <= addrLast
      modifies this`lp, this`on, this`ustack
      ensures RingOk() && on == from
      ensures ustack == old(ustack) + [Undo(kind, g.ring[from], g.ring[to])]
      ensures unchanged(this`addrLast, this`uCurrentAddr, this`uAddrLast)
    {
      var t, _ := GetAddressedLineNode(to);
      var h, _ := GetAddressedLineNode(from);
      ustack := ustack + [Undo(kind, h, t)];
    }

    /** `clear_undo_stack`, but for giving back the deleted lines' memory. */
    method ClearUndoStack()
      requires RingOk() && currentAddr <= addrLast
      modifies this`ustack, this`uCurrentAddr, this`uAddrLast, this`g
      ensures Valid() && ustack == [] && g.changes == [] && g.base == g.ring
      ensures uCurrentAddr == currentAddr && uAddrLast == addrLast
    {
      ustack := [];
      uCurrentAddr := currentAddr;
      uAddrLast := addrLast;
      g := g.(changes := [], base := g.ring);
      SoundMeans(g.links, ustack, g.changes, g.base);
    }

    /** `add_line_node(x)`. */
    method AddLineNode(x: Line)
      requires RingOk() && currentAddr <= addrLast && x !in g.nodes
      modifies this`lp, this`on, this`addrLast, this`currentAddr, this`g
      modifies x, At(currentAddr)`forw, At(IncMod(currentAddr, addrLast))`back
      ensures RingOk() && on == old(currentAddr) && unchanged(this`uCurrentAddr, this`uAddrLast, this`ustack)
      ensures addrLast == old(addrLast) + 1 && currentAddr == old(currentAddr) + 1
      ensures g == old(g).Put(old(currentAddr), x)
    {
      ghost var v, c := g, currentAddr;
      var cp, _ := GetAddressedLineNode(currentAddr);
      PutFacts(x, c);
      Insque(x, cp, v.nodes, v.links);
      Enter(v.Put(c, x));
    }

    lemma PutFacts(x: Line, c: nat)
      requires RingOk() && x !in g.nodes && c <= addrLast
      ensures Held(g.Put(c, x).links, g.Put(c, x).ring) && g.Put(c, x).ring[..c + 1] == g.ring[..c + 1]
      ensures g.ring[c] in g.nodes && g.ring[c].forw in g.nodes
      ensures F(g.links, g.ring[c]) == g.ring[IncMod(c, addrLast)] == g.ring[c].forw
    {
      RingNeighbours(g.links, g.ring, c);
      RingNeighbours(g.links, g.ring, IncMod(c, addrLast));
      AllNodes(x);
      InsertFacts(g.links, g.ring, c, x);
    }

    /** The end of `add_line_node`. */
    method Enter(ghost v: View)
      requires Mirrors(v.nodes, v.links)
      modifies this`addrLast, this`currentAddr, this`g
      ensures Mirrored() && g == v && addrLast == old(addrLast) + 1 && currentAddr == old(currentAddr) + 1
      ensures unchanged(this`lp, this`on, this`ustack, this`uCurrentAddr, this`uAddrLast)
    {
      addrLast := addrLast + 1;
      currentAddr := currentAddr + 1;
      g := v;
    }

    lemma AllNodes(x: Line)
      requires RingOk() && x !in g.nodes
      ensures x !in g.ring
    {
      forall i | 0 <= i < |g.ring| ensures g.ring[i] in g.nodes {
        RingNeighbours(g.links, g.ring, i);
      }
    }

    /** The lines news have been put behind line n of the buffer v, and the stack was has one
        entry for them. */
    ghost predicate Appending(v: View, was: seq<Undo>, n: nat, news: seq<Line>)
      reads this, g.nodes
    {
      RingOk() && n < |v.ring| && Grown(g.links, v.links, v.ring, n, news) &&
      g == v.(nodes := g.nodes, links := g.links, ring := Inserted(v.ring, n, news)) && v.nodes <= g.nodes &&
      (news == [] ==> g == v) && (forall x :: x in news ==> x in g.nodes - v.nodes) &&
      v.links.f.Keys <= v.nodes && v.links.b.Keys <= v.nodes &&
      currentAddr == n + |news| && ustack == was + AddEntry(news)
    }

    /** `append_lines(n)` for the given number of input lines. */
    method AppendLines(n: nat, count: nat) returns (ghost news: seq<Line>)
      requires Valid() && n <= addrLast
      modifies this`lp, this`on, this`ustack, this`modified, this`addrLast, this`currentAddr, this`g, g.nodes
      ensures Valid() && currentAddr == n + count && modified == (old(modified) || count > 0)
      ensures |news| == count && forall x :: x in news ==> x !in old(g).nodes && fresh(x)
      ensures g.ring == Inserted(old(g).ring, n, news) && g.base == old(g).base
      ensures g.changes == old(g).changes + if count == 0 then [] else [Add(news[0], news[count - 1])]
    {
      ghost var v, was := g, ustack;
      news := AppendLoop(n, count);
      NoteChange(v, was, n, news);
    }

    /** The loop of `append_lines`. */
    method AppendLoop(n: nat, count: nat) returns (ghost news: seq<Line>)
      requires RingOk() && n <= addrLast
      modifies this`lp, this`on, this`ustack, this`modified, this`addrLast, this`currentAddr, this`g, g.nodes
      ensures Appending(old(g), old(ustack), n, news) && |news| == count && fresh(g.nodes - old(g).nodes)
      ensures modified == (old(modified) || count > 0) && unchanged(this`uCurrentAddr, this`uAddrLast)
    {
      ghost var v, was := g, ustack;
      currentAddr := n;
      news := [];
      AppendingNothing(n);
      for i := 0 to count
        invariant Growing(v, was, n, news) && |news| == i && modified == (old(modified) || i > 0)
        invariant unchanged(this`uCurrentAddr, this`uAddrLast) && fresh(g.nodes - v.nodes)
      {
        var x := AppendStep(i > 0, v, was, n, news);
        news := news + [x];
      }
      GrowingMeans(v, was, n, news);
    }

    /** The same as `Appending`, hidden from the loop. */
    ghost predicate Growing(v: View, was: seq<Undo>, n: nat, news: seq<Line>)
      reads this, g.nodes
    {
      forall u {:trigger Look(u)} :: u == news && Look(u) ==> Appending(v, was, n, u)
    }

    lemma GrowingMeans(v: View, was: seq<Undo>, n: nat, news: seq<Line>)
      ensures Growing(v, was, n, news) <==> Appending(v, was, n, news)
    {
      assert Look(news);
    }

    method AppendStep(up: bool, ghost v: View, ghost was: seq<Undo>, n: nat, ghost news: seq<Line>) returns (x: Line)
      requires Growing(v, was, n, news) && up == (news != [])
      modifies this`lp, this`on, this`ustack, this`modified, this`addrLast, this`currentAddr, this`g, g.nodes
      ensures Growing(v, was, n, news + [x]) && modified
      ensures fresh(x) && g.nodes == old(g).nodes + {x} && unchanged(this`uCurrentAddr, this`uAddrLast)
    {
      GrowingMeans(v, was, n, news);
      x := AppendOne(up, v, was, n, news);
      GrowingMeans(v, was, n, news + [x]);
    }

    lemma AppendingNothing(n: nat)
      requires RingOk() && n <= addrLast && currentAddr == n
      ensures Growing(g, ustack, n, [])
    {
      GrowingMeans(g, ustack, n, []);
    }

    /** One line: `put_sbuf_line`, and the entry's last line, or a new entry. */
    method AppendOne(up: bool, ghost v: View, ghost was: seq<Undo>, n: nat, ghost news: seq<Line>) returns (x: Line)
      requires Appending(v, was, n, news) && up == (news != [])
      modifies this`lp, this`on, this`ustack, this`modified, this`addrLast, this`currentAddr, this`g, g.nodes
      ensures Appending(v, was, n, news + [x]) && modified
      ensures fresh(x) && g.nodes == old(g).nodes + {x} && unchanged(this`uCurrentAddr, this`uAddrLast)
    {
      ghost var v1, us := g, ustack;
      x := PutNoted(up);
      AppendedOne(v, was, n, news, x, v1, us);
    }

    method PutNoted(up: bool) returns (x: Line)
      requires RingOk() && currentAddr <= addrLast && (up ==> ustack != [])
      modifies this`lp, this`on, this`ustack, this`modified, this`addrLast, this`currentAddr, this`g, g.nodes
      ensures RingOk() && modified && unchanged(this`uCurrentAddr, this`uAddrLast)
      ensures fresh(x) && x !in old(g).nodes
      ensures currentAddr == old(currentAddr) + 1 < |g.ring| && g == old(g).Put(old(currentAddr), x)
      ensures var y, us := g.ring[currentAddr], old(ustack);
        ustack == if up then us[..|us| - 1] + [us[|us| - 1].(t := y)] else us + [Undo(UADD, y, y)]
    {
      x := PutLine();
      NoteLine(up);
    }

    /** `put_sbuf_line`, but for the text of the line. */
    method PutLine() returns (x: Line)
      requires RingOk() && currentAddr <= addrLast
      modifies this`lp, this`on, this`addrLast, this`currentAddr, this`g, g.nodes
      ensures RingOk() && unchanged(this`uCurrentAddr, this`uAddrLast, this`ustack)
      ensures fresh(x) && x !in old(g).nodes
      ensures addrLast == old(addrLast) + 1 && currentAddr == old(currentAddr) + 1
      ensures g == old(g).Put(old(currentAddr), x)
    {
      x := new Line();
      RingNeighbours(g.links, g.ring, currentAddr);
      RingNeighbours(g.links, g.ring, IncMod(currentAddr, addrLast));
      AddLineNode(x);
    }

    lemma AppendedOne(v: View, was: seq<Undo>, n: nat, news: seq<Line>, x: Line, v1: View, us: seq<Undo>)
      requires n < |v.ring| && n + |news| < |v1.ring| && x !in v1.nodes
      requires Grown(v1.links, v.links, v.ring, n, news) && v.nodes <= v1.nodes
      requires forall y :: y in news ==> y in v1.nodes - v.nodes
      requires v1 == v.(nodes := v1.nodes, links := v1.links, ring := Inserted(v.ring, n, news))
      requires v.links.f.Keys <= v.nodes && v.links.b.Keys <= v.nodes
      requires us == was + AddEntry(news)
      requires RingOk() && g == v1.Put(n + |news|, x) && currentAddr == n + |news| + 1
      requires var y := g.ring[currentAddr];
        ustack == if news != [] then us[..|us| - 1] + [us[|us| - 1].(t := y)] else us + [Undo(UADD, y, y)]
      ensures Appending(v, was, n, news + [x])
    {
      GrownMore(v.links, v.ring, n, v1.links, news, x);
    }

    /** The entry for a line that has been added: a new one, or the end of the last one. */
    method NoteLine(up: bool)
      requires RingOk() && currentAddr <= addrLast && (up ==> ustack != [])
      modifies this`lp, this`on, this`ustack, this`modified
      ensures RingOk() && modified && unchanged(this`addrLast, this`uCurrentAddr, this`uAddrLast)
      ensures var x, us := g.ring[currentAddr], old(ustack);
        ustack == if up then us[..|us| - 1] + [us[|us| - 1].(t := x)] else us + [Undo(UADD, x, x)]
    {
      if up {
        var t, _ := GetAddressedLineNode(currentAddr);
        ustack := ustack[..|ustack| - 1] + [ustack[|ustack| - 1].(t := t)];
      } else {
        PushUndoStack(UADD, currentAddr, currentAddr);
      }
      modified := true;
    }

    /** The finished entry is one more change. */
    ghost method NoteChange(v: View, was: seq<Undo>, n: nat, news: seq<Line>)
      requires Appending(v, was, n, news) && Held(v.links, v.ring) && Sound(v.links, was, v.changes, v.base)
      modifies this`g
      ensures RingOk() && Sound(g.links, ustack, g.changes, g.base)
      ensures g == old(g).(changes := v.changes + if news == [] then [] else [Add(news[0], news[|news| - 1])])
    {
      if news == [] {
        assert was + AddEntry(news) == was && v.changes + [] == v.changes;
        SoundExtends(g.links, v.links, was, v.changes, v.base);
      } else {
        SoundAdd(v.links, v.ring, n, g.links, news, was, v.changes, v.base);
        g := g.(changes := v.changes + [Add(news[0], news[|news| - 1])]);
      }
    }

    /** `delete_lines(from, to)`. */
    method DeleteLines(from: nat, to: nat)
      requires Valid() && 1 <= from <= to <= addrLast
      modifies this`lp, this`on, this`ustack, this`modified, this`addrLast, this`currentAddr
      modifies this`g, At(from - 1)`forw, At(IncMod(to, addrLast))`back
      ensures Valid() && g.ring == old(g.ring)[..from] + old(g.ring)[to + 1..] && currentAddr == from - 1 && modified
      ensures g.changes == old(g.changes) + [Del(old(g.ring)[from], old(g.ring)[to])]
    {
      ghost var v, was := g, ustack;
      ghost var c := Del(v.ring[from], v.ring[to]);
      var p, n := DeleteEnds(from, to);
      Unlink(p, n, from, to, v.changes + [c]);
      Deleted(v, from, to, was);
    }

    /** The entry, and the lines before and after the ones to go; the cursor stays on the first. */
    method DeleteEnds(from: nat, to: nat) returns (p: Line, n: Line)
      requires RingOk() && 1 <= from <= to <= addrLast
      modifies this`lp, this`on, this`ustack
      ensures RingOk() && on == from - 1 && p == g.ring[from - 1] && n == g.ring[IncMod(to, addrLast)]
      ensures p in g.nodes && n in g.nodes && ustack == old(ustack) + [Undo(UDEL, g.ring[from], g.ring[to])]
      ensures unchanged(this`addrLast, this`uCurrentAddr, this`uAddrLast)
    {
      PushUndoStack(UDEL, from, to);
      var after, _ := GetAddressedLineNode(IncMod(to, addrLast));
      var before, _ := GetAddressedLineNode(from - 1);
      return before, after;
    }

    /** The lines between p and n leave the ring. */
    method Unlink(p: Line, n: Line, from: nat, to: nat, ghost cs: seq<Change>)
      requires Mirrored() && p in g.nodes && n in g.nodes && 1 <= from <= to < |g.ring| == addrLast + 1
      modifies this`addrLast, this`currentAddr, this`modified, this`g, p`forw, n`back
      ensures Mirrored()
      ensures on == old(on) && lp == old(lp)
      ensures g == old(g).(links := Reque(old(g).links, p, n), changes := cs,
                           ring := old(g).ring[..from] + old(g).ring[to + 1..])
      ensures currentAddr == from - 1 <= addrLast == |g.ring| - 1 && modified
      ensures unchanged(this`uCurrentAddr, this`uAddrLast, this`ustack)
    {
      ghost var v := g.(links := Reque(g.links, p, n), ring := g.ring[..from] + g.ring[to + 1..], changes := cs);
      Requeue(p, n, g.nodes, g.links);
      Shrink(from, to, v);
    }

    /** The end of `delete_lines`. */
    method Shrink(from: nat, to: nat, ghost v: View)
      requires Mirrors(v.nodes, v.links) && 1 <= from <= to <= addrLast
      modifies this`addrLast, this`currentAddr, this`modified, this`g
      ensures Mirrored() && g == v && modified
      ensures addrLast == old(addrLast) - (to - from + 1) && currentAddr == from - 1
      ensures unchanged(this`lp, this`on, this`uCurrentAddr, this`uAddrLast, this`ustack)
    {
      addrLast := addrLast - (to - from + 1);
      currentAddr := from - 1;
      modified := true;
      g := v;
    }

    lemma Deleted(v: View, from: nat, to: nat, was: seq<Undo>)
      requires Held(v.links, v.ring) && 1 <= from <= to < |v.ring| && v.ring[0] == head
      requires on == from - 1 && lp == v.ring[on] && Mirrored() && |g.ring| == addrLast + 1
      requires var r, c := v.ring, Del(v.ring[from], v.ring[to]);
        g == v.(links := Reque(v.links, r[from - 1], r[IncMod(to, |r| - 1)]), changes := v.changes + [c],
                ring := r[..from] + r[to + 1..]) &&
        ustack == was + [Undo(UDEL, r[from], r[to])]
      requires Sound(v.links, was, v.changes, v.base)
      ensures RingOk() && Sound(g.links, ustack, g.changes, g.base)
    {
      var c := Del(v.ring[from], v.ring[to]);
      DeleteFacts(v.links, v.ring, from, to);
      SoundTop(v.links, was, v.changes, v.base, g.links, [Undo(UDEL, c.h, c.t)], c);
    }

    /** `move_lines(addr)` for the lines first..second. */
    method MoveLines(first: nat, second: nat, addr: nat)
      requires Valid() && 1 <= first <= second <= addrLast && addr <= addrLast && !(first <= addr < second)
      modifies this`lp, this`on, this`ustack, this`modified, this`currentAddr, this`g, g.nodes
      ensures Valid() && g.ring == Moved(old(g).ring, first, second, addr) && modified
      ensures currentAddr == (if addr < first - 1 then addr + second - first + 1
                              else if addr <= second then second else addr)
      ensures g.changes == (if addr == first - 1 || addr == second then old(g).changes
                            else old(g).changes + [Toggle(Forward(old(g).ring, first, second, addr))])
    {
      var n := IncMod(second, addrLast);
      var p := first - 1;
      if addr == first - 1 || addr == second {
        var _, _ := MoveNowhere(n, p, second);
        MovedNowhere(g.ring, first, second, addr);
      } else {
        var _, _ := MoveApart(first, second, addr, n, p);
      }
    }

    /** The lines stay where they are; the lookups only move the cursor. The results are the lines
        around them. */
    method MoveNowhere(n: nat, p: nat, second: nat) returns (b2: Line, a2: Line)
      requires Valid() && n <= addrLast && p <= addrLast && second <= addrLast
      modifies this`lp, this`on, this`currentAddr, this`modified
      ensures Valid() && currentAddr == second && modified && unchanged(this`g)
      ensures b2 == g.ring[p] && a2 == g.ring[n]
    {
      var after, _ := GetAddressedLineNode(n);
      var before, _ := GetAddressedLineNode(p);
      b2, a2 := before, after;
      currentAddr := second;
      modified := true;
    }

    /** The lines go elsewhere, between the lines that are the results. */
    method MoveApart(first: nat, second: nat, addr: nat, n: nat, p: nat) returns (b2: Line, a2: Line)
      requires RingOk() && 1 <= first <= second <= addrLast && (addr < first - 1 || second < addr <= addrLast)
      requires n == IncMod(second, addrLast) && p == first - 1
      requires Sound(g.links, ustack, g.changes, g.base)
      modifies this`lp, this`on, this`ustack, this`modified, this`currentAddr, this`g, g.nodes
      ensures unchanged(this`addrLast, this`uCurrentAddr, this`uAddrLast)
      ensures RingOk() && Sound(g.links, ustack, g.changes, g.base)
      ensures currentAddr == (if addr < first then addr + second - first + 1 else addr) <= addrLast && modified
      ensures b2 == old(g).ring[addr] && a2 == old(g).ring[IncMod(addr, |old(g).ring| - 1)]
      ensures var c := Forward(old(g).ring, first, second, addr);
        g == View(old(g).nodes, Undo1(old(g).links, c), Moved(old(g).ring, first, second, addr),
                  old(g).changes + [Toggle(c)], old(g).base)
    {
      ghost var v, was := g, ustack;
      ghost var c := Forward(v.ring, first, second, addr);
      var a1, b1;
      a1, b1, b2 := MoveEnds(first, second, addr, n, p);
      a2 := b2.forw;
      Relocate(a1, b1, b2, addr + (if addr < first then second - first + 1 else 0), c, Moved(v.ring, first, second, addr));
      MovedOk(v, first, second, addr, was);
    }

    /** The three relinkings, which make the ring r, and what goes with them. */
    method Relocate(a1: Line, b1: Line, b2: Line, at: nat, ghost c: Change, ghost r: seq<Line>)
      requires Mirrored() && {a1, b1, b2} <= g.nodes && c == Move(b2, F(g.links, b2), b1, a1)
      requires {b2.forw, b1.forw, a1.back} <= g.nodes && b1.forw != a1
      modifies this`currentAddr, this`modified, this`g, g.nodes
      ensures Mirrored() && currentAddr == at && modified
      ensures g == View(old(g).nodes, Undo1(old(g).links, c), r, old(g).changes + [Toggle(c)], old(g).base)
      ensures unchanged(this`lp, this`on, this`ustack, this`addrLast, this`uCurrentAddr, this`uAddrLast)
    {
      ghost var v := g;
      Rehang(a1, b1, b2, c, v.nodes, v.links);
      Settle(at, View(v.nodes, Undo1(v.links, c), r, v.changes + [Toggle(c)], v.base));
    }

    /** The two entries and the three lines next to the gaps, the lowest of them looked up last. */
    method MoveEnds(first: nat, second: nat, addr: nat, n: nat, p: nat) returns (a1: Line, b1: Line, b2: Line)
      requires RingOk() && 1 <= first <= second <= addrLast && addr <= addrLast
      requires n == IncMod(second, addrLast) && p == first - 1
      modifies this`lp, this`on, this`ustack
      ensures RingOk() && on == (if addr < first then addr else p)
      ensures a1 == g.ring[n] && b1 == g.ring[p] && b2 == g.ring[addr] && {a1, b1, b2} <= g.nodes
      ensures {b2.forw, b1.forw, a1.back} <= g.nodes && b1.forw != a1
      ensures b2.forw == g.ring[IncMod(addr, addrLast)]
      ensures Forward(g.ring, first, second, addr) == Move(b2, F(g.links, b2), b1, a1)
      ensures ustack == old(ustack) + MoveEntries(g.ring, first, second, addr)
      ensures unchanged(this`addrLast, this`uCurrentAddr, this`uAddrLast)
    {
      PushMove(first, second, addr, n, p);
      a1, b1, b2 := GapLines(first, addr, n, p);
      GapNeighbours(g.links, g.ring, first, second, addr);
    }

    /** The two entries of a move. */
    method PushMove(first: nat, second: nat, addr: nat, n: nat, p: nat)
      requires RingOk() && 1 <= first <= second <= addrLast && addr <= addrLast
      requires n == IncMod(second, addrLast) && p == first - 1
      modifies this`lp, this`on, this`ustack
      ensures RingOk() && ustack == old(ustack) + MoveEntries(g.ring, first, second, addr)
      ensures unchanged(this`addrLast, this`uCurrentAddr, this`uAddrLast)
    {
      PushUndoStack(UMOV, p, n);
      PushUndoStack(UMOV, addr, IncMod(addr, addrLast));
    }

    method GapLines(first: nat, addr: nat, n: nat, p: nat) returns (a1: Line, b1: Line, b2: Line)
      requires RingOk() && first <= addrLast && addr <= addrLast && n <= addrLast && p + 1 == first
      modifies this`lp, this`on
      ensures RingOk() && on == (if addr < first then addr else p)
      ensures a1 == g.ring[n] && b1 == g.ring[p] && b2 == g.ring[addr] && a1 in g.nodes && b1 in g.nodes && b2 in g.nodes
      ensures unchanged(this`addrLast, this`uCurrentAddr, this`uAddrLast, this`ustack)
    {
      var x, _ := GetAddressedLineNode(n);
      if addr < first {
        var y, _ := GetAddressedLineNode(p);
        var z, _ := GetAddressedLineNode(addr);
        return x, y, z;
      } else {
        var z, _ := GetAddressedLineNode(addr);
        var y, _ := GetAddressedLineNode(p);
        return x, y, z;
      }
    }

    /** The end of `move_lines`. */
    method Settle(at: nat, ghost v: View)
      requires Mirrors(v.nodes, v.links)
      modifies this`currentAddr, this`modified, this`g
      ensures Mirrored() && g == v && currentAddr == at && modified
      ensures unchanged(this`lp, this`on, this`ustack, this`addrLast, this`uCurrentAddr, this`uAddrLast)
    {
      currentAddr := at;
      modified := true;
      g := v;
    }

    lemma MovedOk(v: View, first: nat, second: nat, addr: nat, was: seq<Undo>)
      requires Held(v.links, v.ring) && 1 <= first <= second < |v.ring| && addr < |v.ring|
      requires (addr < first - 1 || second < addr) && v.ring[0] == head && |v.ring| == addrLast + 1
      requires on == (if addr < first then addr else first - 1) && lp == v.ring[on] && Mirrored()
      requires var c := Forward(v.ring, first, second, addr);
        g == View(v.nodes, Undo1(v.links, c), Moved(v.ring, first, second, addr), v.changes + [Toggle(c)], v.base)
      requires ustack == was + MoveEntries(v.ring, first, second, addr)
      requires Sound(v.links, was, v.changes, v.base)
      ensures RingOk() && Sound(g.links, ustack, g.changes, g.base)
    {
      var c := Forward(v.ring, first, second, addr);
      MoveFacts(v.links, v.ring, first, second, addr);
      SoundTop(v.links, was, v.changes, v.base, g.links, MoveEntries(v.ring, first, second, addr), Toggle(c));
    }

    /** `pop_undo_stack`: everything on the stack is undone, and the stack turned around, so that
        the next call redoes it. */
    method PopUndoStack() returns (ok: bool)
      requires Valid()
      modifies this`lp, this`on, this`ustack, this`modified, this`currentAddr, this`addrLast
      modifies this`uCurrentAddr, this`uAddrLast, this`g, g.nodes
      ensures Valid() && ok == (old(uCurrentAddr) != -1 && old(uAddrLast) != -1)
      ensures Encodes(old(ustack), old(g).changes)
      ensures !ok ==> g == old(g) && ustack == old(ustack) && modified == old(modified)
      ensures !ok ==> currentAddr == old(currentAddr) && addrLast == old(addrLast)
      ensures ok ==> g == Reverted(old(g)) && ustack == Turned(old(ustack), old(g).changes)
      ensures ok ==> modified == (old(modified) || old(ustack) != [])
      ensures ok ==> currentAddr == old(uCurrentAddr) && addrLast == old(uAddrLast)
      ensures ok ==> uCurrentAddr == old(currentAddr) && uAddrLast == old(addrLast)
    {
      SoundMeans(g.links, ustack, g.changes, g.base);
      if uCurrentAddr == -1 || uAddrLast == -1 {
        return false;
      }
      StartUndo();
      UndoEverything();
      return true;
    }

    /** The beginning of `pop_undo_stack`, which leaves the cursor on the header. */
    method StartUndo()
      requires Valid()
      modifies this`lp, this`on, this`modified
      ensures Valid() && on == 0 && modified == (old(modified) || ustack != [])
    {
      if ustack != [] {
        modified := true;
      }
      var first, _ := GetAddressedLineNode(0);
    }

    /** What `pop_undo_stack` does once it knows that it can. */
    method UndoEverything()
      requires Valid() && uCurrentAddr != -1 && uAddrLast != -1 && on == 0 && Encodes(ustack, g.changes)
      modifies this`ustack, this`currentAddr, this`addrLast
      modifies this`uCurrentAddr, this`uAddrLast, this`g, g.nodes
      ensures Valid() && g == Reverted(old(g)) && ustack == Turned(old(ustack), old(g).changes)
      ensures currentAddr == old(uCurrentAddr) && addrLast == old(uAddrLast)
      ensures uCurrentAddr == old(currentAddr) && uAddrLast == old(addrLast)
    {
      ghost var v, was := g, ustack;
      SoundMeans(g.links, ustack, g.changes, g.base);
      var us := UndoStack(ustack, v.changes, v.nodes, v.links);
      Exchange(us, Reverted(v));
      RevertedOk(v, was);
    }

    /** The end of `pop_undo_stack`. */
    method Exchange(us: seq<Undo>, ghost v: View)
      requires Mirrors(v.nodes, v.links) && 0 <= uCurrentAddr && 0 <= uAddrLast
      modifies this`ustack, this`currentAddr, this`addrLast, this`uCurrentAddr, this`uAddrLast, this`g
      ensures Mirrored() && g == v && ustack == us && unchanged(this`lp, this`on)
      ensures currentAddr == old(uCurrentAddr) && addrLast == old(uAddrLast)
      ensures uCurrentAddr == old(currentAddr) && uAddrLast == old(addrLast)
    {
      ustack := us;
      currentAddr, uCurrentAddr := uCurrentAddr, currentAddr;
      addrLast, uAddrLast := uAddrLast, addrLast;
      g := v;
    }

    lemma RevertedOk(v: View, was: seq<Undo>)
      requires Sound(v.links, was, v.changes, v.base) && Held(v.links, v.ring) && Encodes(was, v.changes)
      requires Mirrored() && g == Reverted(v) && ustack == Turned(was, v.changes)
      requires on == 0 && lp == head && v.ring != [] && v.ring[0] == head && v.base != [] && v.base[0] == head
      requires currentAddr <= addrLast == |v.base| - 1 && 0 <= uCurrentAddr <= uAddrLast == |v.ring| - 1
      ensures Valid()
    {
      SoundTurned(v.links, was, v.changes, v.base, v.ring);
    }
  }

  /** Undoing and undoing that: every link of every line, the order of the lines, both addresses
      and the stack are as they were, but for the tags of moves. */
  method PopTwice(buf: Buffer)
    requires buf.Valid() && buf.uCurrentAddr != -1 && buf.uAddrLast != -1
    modifies buf, buf.g.nodes
    ensures buf.Valid() && buf.g == old(buf.g)
    ensures forall x :: x in old(buf.g).nodes ==> x.forw == old(x.forw) && x.back == old(x.back)
    ensures buf.currentAddr == old(buf.currentAddr) && buf.addrLast == old(buf.addrLast)
    ensures buf.uCurrentAddr == old(buf.uCurrentAddr) && buf.uAddrLast == old(buf.uAddrLast)
    ensures AllAlike(buf.ustack, old(buf.ustack))
  {
    ghost var v, was := buf.g, buf.ustack;
    RevertedTwice(v, was);
    var ok := buf.PopUndoStack();
    ghost var mid := buf.ustack;
    ok := buf.PopUndoStack();
    SoundMeans(buf.g.links, buf.ustack, buf.g.changes, buf.g.base);
    EncodesAlike(buf.ustack, was, v.changes);
  }

  lemma RevertedTwice(v: View, stack: seq<Undo>)
    requires Sound(v.links, stack, v.changes, v.base)
    ensures Reverted(Reverted(v)) == v && Encodes(stack, v.changes)
  {
    SoundMeans(v.links, stack, v.changes, v.base);
    UndoTwice(v.links, v.changes);
    FlipFlip(v.changes);
  }

  lemma HeadOnlyFirst(l: Links, s: seq<Line>, n: nat)
    requires Held(l, s) && n < |s| && F(l, s[n]) == s[0]
    ensures n == |s| - 1
  {
    HeldMeans(l, s);
    RingNeighbours(l, s, n);
  }
}
