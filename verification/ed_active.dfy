/** ed's list of lines a global command still has to visit. */
module EdActive {
  import opened EdLinks

  /** The lines of an active list that have not been cleared. */
  function Remaining(list: seq<Line?>): seq<Line>
    decreases |list|
  {
    if list == [] then []
    else if list[0] == null then Remaining(list[1..])
    else [list[0]] + Remaining(list[1..])
  }

  function Without(s: seq<Line>, gone: set<Line>): seq<Line>
    decreases |s|
  {
    if s == [] then []
    else if s[0] in gone then Without(s[1..], gone)
    else [s[0]] + Without(s[1..], gone)
  }

  /** No line is active twice. */
  ghost predicate Distinct(list: seq<Line?>) {
    forall i, j :: 0 <= i < j < |list| && list[i] != null ==> list[i] != list[j]
  }

  /** The list with the given lines cleared. */
  ghost predicate Cleared(new_: seq<Line?>, old_: seq<Line?>, gone: set<Line>) {
    |new_| == |old_| &&
    forall i :: 0 <= i < |old_| ==> new_[i] == if old_[i] in gone then null else old_[i]
  }

  /** Clearing lines in place takes them out of what remains and keeps the order of the others. */
  lemma {:induction false} ClearedRemaining(new_: seq<Line?>, old_: seq<Line?>, gone: set<Line>)
    requires Cleared(new_, old_, gone)
    ensures Remaining(new_) == Without(Remaining(old_), gone)
    decreases |old_|
  {
    if old_ != [] {
      ClearedRemaining(new_[1..], old_[1..], gone);
    }
  }

  lemma {:induction false} RemainingSkips(list: seq<Line?>, n: nat)
    requires n <= |list| && forall i :: 0 <= i < n ==> list[i] == null
    ensures Remaining(list) == Remaining(list[n..])
    decreases n
  {
    if n == 0 {
      assert list[0..] == list;
    } else {
      RemainingSkips(list[1..], n - 1);
      assert list[1..][n - 1..] == list[n..];
    }
  }

  lemma NextFacts(list: seq<Line?>, from: nat, to: nat)
    requires from <= to <= |list| && forall i :: from <= i < to ==> list[i] == null
    requires to < |list| ==> list[to] != null
    ensures to == |list| ==> Remaining(list[from..]) == [] == Remaining(list[to..])
    ensures to < |list| ==> Remaining(list[from..]) == [list[to]] + Remaining(list[to + 1..])
  {
    RemainingSkips(list[from..], to - from);
    assert list[from..][to - from..] == list[to..];
    if to < |list| {
      assert list[to..][1..] == list[to + 1..];
    }
  }

  /** The lines of the buffer from np up to, but not including, mp. */
  ghost predicate Span(range: seq<Line>, np: Line, mp: Line)
    reads range
  {
    mp !in range && np == (range + [mp])[0] &&
    forall i :: 0 <= i < |range| ==> range[i].forw == (range + [mp])[i + 1]
  }

  lemma SpanEnd(range: seq<Line>, mp: Line, k: nat)
    requires mp !in range && k <= |range| && (range + [mp])[k] == mp
    ensures range[..k] == range
  {
  }

  function Lines(range: seq<Line>): set<Line> {
    set x | x in range
  }

  class ActiveList {
    var list: seq<Line?>
    /** index of the next line to visit */
    var ptr: nat
    /** where the next search for a line to clear starts */
    var ndx: nat

    ghost predicate Valid()
      reads this
    {
      Distinct(list) && ptr <= |list| && (ndx < |list| || ndx == 0)
    }

    /** The lines `next_active_node` has still to return. */
    ghost function Pending(): seq<Line>
      requires ptr <= |list|
      reads this
    {
      Remaining(list[ptr..])
    }

    constructor ()
      ensures Valid() && list == []
    {
      list, ptr, ndx := [], 0, 0;
    }

    /** `set_active_node(x)`, for a line not yet active. */
    method SetActive(x: Line)
      requires Valid() && x !in list
      modifies this`list
      ensures Valid() && list == old(list) + [x]
    {
      list := list + [x];
    }

    /** `clear_active_list()` */
    method Clear()
      modifies this
      ensures Valid() && list == [] && Pending() == []
    {
      list, ptr, ndx := [], 0, 0;
    }

    /** The index moves on, from the end of the list to its beginning. */
    method Advance()
      requires ndx < |list|
      modifies this`ndx
      ensures ndx == (if old(ndx) + 1 == |list| then 0 else old(ndx) + 1)
    {
      ndx := if ndx + 1 > |list| - 1 then 0 else ndx + 1;
    }

    /** The inner loop of `unset_active_nodes`: search for lp, once around from where the last
        search stopped, and clear it. */
    method UnsetOne(lp: Line)
      requires Valid()
      modifies this`list, this`ndx
      ensures Valid() && Cleared(list, old(list), {lp})
    {
      ghost var start := ndx;
      var i := 0;
      while i < |list|
        invariant i <= |list| && list == old(list) && Valid()
        invariant ndx == (if start + i < |list| || |list| == 0 then start + i else start + i - |list|)
        invariant forall k :: 0 <= k < |list| && (start <= k < start + i || k < start + i - |list|) ==> list[k] != lp
      {
        if list[ndx] == lp {
          list := list[ndx := null];
          Advance();
          return;
        }
        Advance();
        i := i + 1;
      }
    }

    /** `unset_active_nodes(np, mp)`. */
    method UnsetActiveNodes(np: Line, mp: Line, ghost range: seq<Line>)
      requires Valid() && Span(range, np, mp)
      modifies this`list, this`ndx
      ensures Valid() && Cleared(list, old(list), Lines(range))
      ensures Pending() == Without(old(Pending()), Lines(range))
    {
      ghost var k := 0;
      var lp := np;
      while lp != mp
        invariant k <= |range| && lp == (range + [mp])[k] && Valid()
        invariant Cleared(list, old(list), Lines(range[..k]))
        decreases |range| - k
      {
        assert range[..k + 1] == range[..k] + [range[k]];
        UnsetOne(lp);
        lp := lp.forw;
        k := k + 1;
      }
      SpanEnd(range, mp, k);
      assert Cleared(list[ptr..], old(list)[ptr..], Lines(range));
      ClearedRemaining(list[ptr..], old(list)[ptr..], Lines(range));
    }

    /** `next_active_node()`. */
    method NextActiveNode() returns (x: Line?)
      requires Valid()
      modifies this`ptr
      ensures Valid()
      ensures x == null ==> old(Pending()) == [] == Pending()
      ensures x != null ==> old(Pending()) == [x] + Pending()
    {
      while ptr < |list| && list[ptr] == null
        invariant old(ptr) <= ptr <= |list| && forall i :: old(ptr) <= i < ptr ==> list[i] == null
      {
        ptr := ptr + 1;
      }
      NextFacts(list, old(ptr), ptr);
      if ptr < |list| {
        x := list[ptr];
        ptr := ptr + 1;
      } else {
        x := null;
      }
    }
  }

  /** What happens while a global command runs: the next line is visited, or the command run on
      a line takes lines out of the buffer. */
  datatype Step = Visit | Unset(gone: set<Line>)

  /** The lines visited by a run, and those still pending after it. */
  function Visited(pending: seq<Line>, run: seq<Step>): seq<Line>
    decreases |run|
  {
    if run == [] then []
    else match run[0]
      case Visit => pending[..Min1(pending)] + Visited(pending[Min1(pending)..], run[1..])
      case Unset(gone) => Visited(Without(pending, gone), run[1..])
  }

  function Left(pending: seq<Line>, run: seq<Step>): seq<Line>
    decreases |run|
  {
    if run == [] then pending
    else match run[0]
      case Visit => Left(pending[Min1(pending)..], run[1..])
      case Unset(gone) => Left(Without(pending, gone), run[1..])
  }

  function Min1<T>(s: seq<T>): (n: nat)
    ensures n <= |s|
  {
    if s == [] then 0 else 1
  }

  /** The lines that were taken out before their turn came. */
  function Dropped(pending: seq<Line>, run: seq<Step>): set<Line>
    decreases |run|
  {
    if run == [] then {}
    else match run[0]
      case Visit => Dropped(pending[Min1(pending)..], run[1..])
      case Unset(gone) => (Lines(pending) * gone) + Dropped(Without(pending, gone), run[1..])
  }

  /** Every line that is not dropped is visited once, in the original order, or still pending. */
  lemma {:induction false} VisitsInOrder(pending: seq<Line>, run: seq<Step>)
    requires NoDuplicates(pending)
    ensures Dropped(pending, run) <= Lines(pending)
    ensures Visited(pending, run) + Left(pending, run) == Without(pending, Dropped(pending, run))
    decreases |run|
  {
    if run == [] {
      WithoutNothing(pending, {});
    } else {
      match run[0]
      case Visit =>
        var k := Min1(pending);
        VisitsInOrder(pending[k..], run[1..]);
        if k == 1 {
          var gone := Dropped(pending[1..], run[1..]);
          assert pending[0] !in gone;
        }
      case Unset(gone) =>
        WithoutKeeps(pending, gone);
        VisitsInOrder(Without(pending, gone), run[1..]);
        forall x | x in Without(pending, gone) ensures x in pending {
          WithoutMember(pending, gone, x);
        }
        WithoutBoth(pending, gone, Dropped(Without(pending, gone), run[1..]));
    }
  }

  lemma {:induction false} WithoutMember(s: seq<Line>, gone: set<Line>, x: Line)
    ensures x in Without(s, gone) <==> x in s && x !in gone
    decreases |s|
  {
    if s != [] {
      WithoutMember(s[1..], gone, x);
    }
  }

  lemma {:induction false} WithoutNothing(s: seq<Line>, gone: set<Line>)
    requires forall x :: x in s ==> x !in gone
    ensures Without(s, gone) == s
    decreases |s|
  {
    if s != [] {
      WithoutNothing(s[1..], gone);
    }
  }

  lemma {:induction false} WithoutKeeps(s: seq<Line>, gone: set<Line>)
    requires NoDuplicates(s)
    ensures NoDuplicates(Without(s, gone))
    decreases |s|
  {
    if s != [] {
      WithoutKeeps(s[1..], gone);
      WithoutMember(s[1..], gone, s[0]);
    }
  }

  lemma {:induction false} WithoutBoth(s: seq<Line>, a: set<Line>, b: set<Line>)
    ensures Without(Without(s, a), b) == Without(s, Lines(s) * a + b)
    decreases |s|
  {
    if s != [] {
      WithoutBoth(s[1..], a, b);
      WithoutSame(s[1..], Lines(s) * a + b, Lines(s[1..]) * a + b);
    }
  }

  lemma {:induction false} WithoutSame(s: seq<Line>, a: set<Line>, b: set<Line>)
    requires forall x :: x in s ==> (x in a <==> x in b)
    ensures Without(s, a) == Without(s, b)
    decreases |s|
  {
    if s != [] {
      WithoutSame(s[1..], a, b);
    }
  }
}
