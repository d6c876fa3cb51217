/** Editing during a global command: the buffer and the list of lines still to visit together. */
module EdGlobal {
  import opened EdLinks
  import opened EdBuffer
  import EdActive

  /** The lines from..to of the buffer, as `unset_active_nodes` walks over them. */
  lemma BufferSpan(buf: Buffer, from: nat, to: nat)
    requires buf.RingOk() && 1 <= from <= to <= buf.addrLast
    ensures EdActive.Span(buf.g.ring[from..to + 1], buf.g.ring[from - 1].forw, buf.g.ring[IncMod(to, buf.addrLast)])
  {
    var r := buf.g.ring;
    var range, mp := r[from..to + 1], r[IncMod(to, buf.addrLast)];
    HeldMeans(buf.g.links, r);
    RingNeighbours(buf.g.links, r, from - 1);
    forall i | 0 <= i < |range| ensures range[i].forw == (range + [mp])[i + 1] {
      RingNeighbours(buf.g.links, r, from + i);
    }
  }

  /** Cleared lines are not pending. */
  lemma {:induction false} NotPending(pending: seq<Line>, gone: set<Line>)
    ensures forall x :: x in gone ==> x !in EdActive.Without(pending, gone)
  {
    forall x | x in gone ensures x !in EdActive.Without(pending, gone) {
      EdActive.WithoutMember(pending, gone, x);
    }
  }

  /** The lines of a stretch, which ends in front of n, are cleared. */
  method Forget(list: EdActive.ActiveList, x: Line, n: Line, ghost gone: seq<Line>)
    requires list.Valid() && EdActive.Span(gone, x, n)
    modifies list`list, list`ndx
    ensures list.Valid() && list.Pending() == EdActive.Without(old(list.Pending()), EdActive.Lines(gone))
    ensures forall y :: y in gone ==> y !in list.Pending()
  {
    ghost var pending := list.Pending();
    list.UnsetActiveNodes(x, n, gone);
    NotPending(pending, EdActive.Lines(gone));
  }

  /** `delete_lines` during a global command: the lines that go will not be visited, the others will,
      in the same order. */
  method DeleteLines(buf: Buffer, list: EdActive.ActiveList, from: nat, to: nat)
    requires buf.Valid() && list.Valid() && 1 <= from <= to <= buf.addrLast
    modifies buf`lp, buf`on, buf`ustack, buf`modified, buf`addrLast, buf`currentAddr, list`list, list`ndx
    modifies buf`g, buf.At(from - 1)`forw, buf.At(IncMod(to, buf.addrLast))`back
    ensures buf.Valid() && buf.g.ring == old(buf.g.ring)[..from] + old(buf.g.ring)[to + 1..]
    ensures buf.currentAddr == from - 1 && buf.modified
    ensures buf.g.changes == old(buf.g.changes) + [Del(old(buf.g.ring)[from], old(buf.g.ring)[to])]
    ensures list.Valid()
    ensures list.Pending() == EdActive.Without(old(list.Pending()), EdActive.Lines(old(buf.g.ring)[from..to + 1]))
    ensures forall x :: x in old(buf.g.ring)[from..to + 1] ==> x !in list.Pending()
  {
    ghost var v, was := buf.g, buf.ustack;
    var p, n := buf.DeleteEnds(from, to);
    BufferSpan(buf, from, to);
    Forget(list, p.forw, n, v.ring[from..to + 1]);
    buf.Unlink(p, n, from, to, v.changes + [Del(v.ring[from], v.ring[to])]);
    buf.Deleted(v, from, to, was);
  }

  /** Lines that have come to stand at k, as `unset_active_nodes` walks over them. */
  lemma PlacedSpan(buf: Buffer, k: int, r: seq<Line>, first: nat, second: nat, t: int, f: int)
    requires buf.RingOk() && first <= second < |r| && Placed(buf.g.ring, k, r, first, second, t, f)
    ensures r[t] in buf.g.nodes && EdActive.Span(r[first..second + 1], r[t].forw, r[IncMod(f, |r| - 1)])
  {
    BufferSpan(buf, k, k + (second - first));
    RingNeighbours(buf.g.links, buf.g.ring, k - 1);
  }

  /** Lines that have moved, or stayed, are not visited again. */
  method PassOver(buf: Buffer, list: EdActive.ActiveList, b2: Line, a2: Line,
                  ghost k: int, ghost r: seq<Line>, ghost first: nat, ghost second: nat, ghost t: int, ghost f: int)
    requires buf.RingOk() && list.Valid() && first <= second < |r| && Placed(buf.g.ring, k, r, first, second, t, f)
    requires b2 == r[t] && a2 == r[IncMod(f, |r| - 1)]
    modifies list`list, list`ndx
    ensures list.Valid()
    ensures list.Pending() == EdActive.Without(old(list.Pending()), EdActive.Lines(r[first..second + 1]))
    ensures forall x :: x in r[first..second + 1] ==> x !in list.Pending()
  {
    PlacedSpan(buf, k, r, first, second, t, f);
    Forget(list, b2.forw, a2, r[first..second + 1]);
  }

  /** The lines stay where they are. */
  method MoveNowhere(buf: Buffer, list: EdActive.ActiveList, first: nat, second: nat)
    requires buf.Valid() && list.Valid() && 1 <= first <= second <= buf.addrLast
    modifies buf`lp, buf`on, buf`currentAddr, buf`modified, list`list, list`ndx
    ensures buf.Valid() && buf.g == old(buf.g) && buf.currentAddr == second && buf.modified
    ensures list.Valid()
    ensures list.Pending() == EdActive.Without(old(list.Pending()), EdActive.Lines(old(buf.g.ring)[first..second + 1]))
    ensures forall x :: x in old(buf.g.ring)[first..second + 1] ==> x !in list.Pending()
  {
    var b2, a2 := buf.MoveNowhere(IncMod(second, buf.addrLast), first - 1, second);
    PassOver(buf, list, b2, a2, first, buf.g.ring, first, second, first - 1, second);
  }

  /** The lines go elsewhere. */
  method MoveApart(buf: Buffer, list: EdActive.ActiveList, first: nat, second: nat, addr: nat)
    requires buf.RingOk() && Sound(buf.g.links, buf.ustack, buf.g.changes, buf.g.base) && list.Valid()
    requires 1 <= first <= second <= buf.addrLast && (addr < first - 1 || second < addr <= buf.addrLast)
    modifies buf`lp, buf`on, buf`ustack, buf`modified, buf`currentAddr, buf`g, buf.g.nodes, list`list, list`ndx
    ensures buf.RingOk() && Sound(buf.g.links, buf.ustack, buf.g.changes, buf.g.base)
    ensures buf.currentAddr == (if addr < first then addr + second - first + 1 else addr) <= buf.addrLast && buf.modified
    ensures unchanged(buf`addrLast, buf`uCurrentAddr, buf`uAddrLast)
    ensures buf.g.ring == Moved(old(buf.g.ring), first, second, addr) && buf.g.base == old(buf.g.base)
    ensures buf.g.changes == old(buf.g.changes) + [Toggle(Forward(old(buf.g.ring), first, second, addr))]
    ensures list.Valid()
    ensures list.Pending() == EdActive.Without(old(list.Pending()), EdActive.Lines(old(buf.g.ring)[first..second + 1]))
    ensures forall x :: x in old(buf.g.ring)[first..second + 1] ==> x !in list.Pending()
  {
    ghost var r := buf.g.ring;
    var b2, a2 := buf.MoveApart(first, second, addr, IncMod(second, buf.addrLast), first - 1);
    MovedAround(r, first, second, addr);
    PassOver(buf, list, b2, a2, MovedTo(first, second, addr), r, first, second, addr, addr);
  }

  /** `move_lines` during a global command: nor will moved lines be visited where they are now. */
  method MoveLines(buf: Buffer, list: EdActive.ActiveList, first: nat, second: nat, addr: nat)
    requires buf.Valid() && list.Valid()
    requires 1 <= first <= second <= buf.addrLast && addr <= buf.addrLast && !(first <= addr < second)
    modifies buf`lp, buf`on, buf`ustack, buf`modified, buf`currentAddr, buf`g, buf.g.nodes, list`list, list`ndx
    ensures buf.Valid() && buf.g.ring == Moved(old(buf.g.ring), first, second, addr) && buf.modified
    ensures buf.currentAddr == (if addr < first - 1 then addr + second - first + 1
                                else if addr <= second then second else addr)
    ensures buf.g.changes == (if addr == first - 1 || addr == second then old(buf.g.changes)
                              else old(buf.g.changes) + [Toggle(Forward(old(buf.g.ring), first, second, addr))])
    ensures list.Valid()
    ensures list.Pending() == EdActive.Without(old(list.Pending()), EdActive.Lines(old(buf.g.ring)[first..second + 1]))
    ensures forall x :: x in old(buf.g.ring)[first..second + 1] ==> x !in list.Pending()
  {
    if addr == first - 1 || addr == second {
      MoveNowhere(buf, list, first, second);
      MovedNowhere(buf.g.ring, first, second, addr);
    } else {
      MoveApart(buf, list, first, second, addr);
    }
  }

  /** `pop_undo_stack` during a global command ends it: no line is visited any more. */
  method PopUndoStack(buf: Buffer, list: EdActive.ActiveList) returns (ok: bool)
    requires buf.Valid() && list.Valid()
    modifies buf`lp, buf`on, buf`ustack, buf`modified, buf`currentAddr, buf`addrLast
    modifies buf`uCurrentAddr, buf`uAddrLast, buf`g, buf.g.nodes, list
    ensures buf.Valid() && list.Valid() && ok == (old(buf.uCurrentAddr) != -1 && old(buf.uAddrLast) != -1)
    ensures ok ==> buf.g == Reverted(old(buf.g)) && list.Pending() == []
    ensures ok ==> buf.currentAddr == old(buf.uCurrentAddr) && buf.addrLast == old(buf.uAddrLast)
    ensures ok ==> buf.uCurrentAddr == old(buf.currentAddr) && buf.uAddrLast == old(buf.addrLast)
    ensures !ok ==> buf.g == old(buf.g) && list.Pending() == old(list.Pending())
  {
    ok := buf.PopUndoStack();
    if ok {
      list.Clear();
    }
  }
}
