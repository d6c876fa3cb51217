/** csh's job table in the heap: linked process records, and loops around rings of friends. */
module CshJobTable {
  import opened CshJobs

  // ---- once around a ring --------------------------------------------------------------

  /** The processes of p's job, from p on around its ring. */
  ghost predicate Circle(t: Table, p: Process, ring: seq<Process>) {
    |ring| > 0 && ring[0] == p && p in t.recs && Befriend(t.recs, ring) &&
    forall q :: q in t.recs ==> (q in ring <==> Leader(t, q) == Leader(t, p))
  }

  lemma SomeCircle(t: Table, p: Process) returns (ring: seq<Process>)
    requires Valid(t) && p in t.recs
    ensures Circle(t, p, ring)
  {
    ValidMeans(t);
    ShapedMeans(t);
    var l, a := Leader(t, p), t.home[p].at;
    var r := t.jobs[l];
    JobRing(t, l);
    ring := r[a..] + r[..a];
    Rotated(t.recs, r, a);
    forall q | q in t.recs ensures q in ring <==> Leader(t, q) == l {
      assert q in ring <==> q in r;
    }
  }

  ghost predicate Befriend(recs: map<Process, Rec>, r: seq<Process>) {
    Distinct(r) && forall i :: 0 <= i < |r| ==> r[i] in recs && recs[r[i]].friends == Next(r, i)
  }

  lemma Rotated(recs: map<Process, Rec>, r: seq<Process>, a: nat)
    requires Befriend(recs, r) && a < |r|
    ensures Befriend(recs, r[a..] + r[..a]) && forall q :: q in r <==> q in r[a..] + r[..a]
  {
    var ring := r[a..] + r[..a];
    RotatedDistinct(r, a);
    forall i | 0 <= i < |ring| ensures ring[i] in recs && recs[ring[i]].friends == Next(ring, i) {
      RotatedAt(r, a, i);
    }
    assert r == r[..a] + r[a..];
  }

  lemma RotatedAt(r: seq<Process>, a: nat, i: nat)
    requires a < |r| && i < |r|
    ensures var ring, k := r[a..] + r[..a], if i < |r| - a then a + i else i - (|r| - a);
      ring[i] == r[k] && Next(ring, i) == Next(r, k)
  {
  }

  lemma RotatedDistinct(r: seq<Process>, a: nat)
    requires Distinct(r) && a < |r|
    ensures Distinct(r[a..] + r[..a])
  {
    var ring := r[a..] + r[..a];
    forall i, j | 0 <= i < j < |ring| ensures ring[i] != ring[j] {
      RotatedAt(r, a, i);
      RotatedAt(r, a, j);
    }
  }

  lemma JobRing(t: Table, l: Process)
    requires Housed(t) && Ringed(t) && l in t.jobs
    ensures var r := t.jobs[l];
      Befriend(t.recs, r) && forall q :: q in t.recs ==> (q in r <==> Leader(t, q) == l)
  {
    var r := t.jobs[l];
    assert HomesOf(t.home, l, r);
    forall q | q in t.recs ensures q in r <==> Leader(t, q) == l {
      if Leader(t, q) == l {
        assert r[t.home[q].at] == q;
      }
    }
    forall i, j | 0 <= i < j < |r| ensures r[i] != r[j] {
      assert t.home[r[i]].at == i && t.home[r[j]].at == j;
    }
  }

  /** The records with f applied to some processes. */
  ghost function On(recs: map<Process, Rec>, s: seq<Process>, f: Rec -> Rec): map<Process, Rec> {
    map p | p in recs :: if p in s then f(recs[p]) else recs[p]
  }

  lemma OnNone(recs: map<Process, Rec>, ring: seq<Process>, f: Rec -> Rec)
    ensures On(recs, ring[..0], f) == recs
  {
  }

  /** One turn of a loop around a ring, at its k-th process. */
  lemma Turn(t: Table, p: Process, ring: seq<Process>, k: nat, f: Rec -> Rec)
    requires Circle(t, p, ring) && k < |ring|
    ensures var recs := On(t.recs, ring[..k], f);
      ring[k] in recs && recs[ring[k]] == t.recs[ring[k]] &&
      On(t.recs, ring[..k + 1], f) == recs[ring[k] := f(t.recs[ring[k]])]
    ensures t.recs[ring[k]].friends == Next(ring, k) && (Next(ring, k) == p <==> k + 1 == |ring|)
  {
    assert ring[k] !in ring[..k];
    assert ring[..k + 1] == ring[..k] + [ring[k]];
    if k + 1 < |ring| {
      assert ring[0] != ring[k + 1];
    }
  }

  /** Where the ring goes on, and that it ends where it began. */
  lemma NextFriend(t: Table, p: Process, ring: seq<Process>, k: nat)
    requires Circle(t, p, ring) && k < |ring|
    ensures ring[k] in t.recs && t.recs[ring[k]].friends == Next(ring, k) && (Next(ring, k) == p <==> k + 1 == |ring|)
  {
    if k + 1 < |ring| {
      assert ring[0] != ring[k + 1];
    }
  }

  lemma MoreFlags(t: Table, ring: seq<Process>, k: nat)
    requires k < |ring|
    ensures JobFlags(t, ring[..k + 1]) == JobFlags(t, ring[..k]) + R(t, ring[k]).flags
  {
    assert ring[..k + 1][..k] == ring[..k];
  }

  lemma OnWholeJob(t: Table, p: Process, ring: seq<Process>, f: Rec -> Rec)
    requires Circle(t, p, ring)
    ensures On(t.recs, ring[..|ring|], f) == OnJob(t, Leader(t, p), f)
  {
    assert ring[..|ring|] == ring;
  }

  ghost predicate MirrorsRecs(recs: map<Process, Rec>)
    reads recs.Keys
  {
    forall p :: p in recs ==> recs[p] == Rec(p.friends, p.flags, p.index, p.pid, p.jobid)
  }

  method FlushOne(np: Process, ghost recs: map<Process, Rec>)
    requires MirrorsRecs(recs) && np in recs
    modifies np`index, np`pid, np`flags
    ensures MirrorsRecs(recs[np := FlushedRec(recs[np])])
  {
    np.index := 0;
    np.pid := 0;
    np.flags := np.flags - {NEEDNOTE};
  }

  /** The loop of `pflush` around the job. */
  method FlushRing(l: Process, ghost t: Table, ghost ring: seq<Process>)
    requires MirrorsRecs(t.recs) && Circle(t, l, ring)
    modifies t.recs.Keys
    ensures MirrorsRecs(OnJob(t, Leader(t, l), FlushedRec))
  {
    var np, again := l, true;
    ghost var k, recs := 0, t.recs;
    OnNone(t.recs, ring, FlushedRec);
    while again
      invariant k <= |ring| && (again <==> k < |ring|) && (again ==> np == ring[k])
      invariant recs == On(t.recs, ring[..k], FlushedRec) && recs.Keys == t.recs.Keys && MirrorsRecs(recs)
      decreases |ring| - k
    {
      Turn(t, l, ring, k, FlushedRec);
      var next := np.friends;
      FlushOne(np, recs);
      recs := recs[np := FlushedRec(recs[np])];
      np := next;
      k := k + 1;
      again := np != l;
    }
    OnWholeJob(t, l, ring, FlushedRec);
  }

  /** The loop of `pstart` around the job. */
  method StartRing(pp: Process, foreground: bool, ghost t: Table, ghost ring: seq<Process>)
    requires MirrorsRecs(t.recs) && Circle(t, pp, ring)
    modifies t.recs.Keys
    ensures MirrorsRecs(OnJob(t, Leader(t, pp), Starter(foreground)))
  {
    var np, again := pp, true;
    ghost var f := Starter(foreground);
    ghost var k, recs := 0, t.recs;
    OnNone(t.recs, ring, f);
    while again
      invariant k <= |ring| && (again <==> k < |ring|) && (again ==> np == ring[k])
      invariant recs == On(t.recs, ring[..k], f) && recs.Keys == t.recs.Keys && MirrorsRecs(recs)
      decreases |ring| - k
    {
      Turn(t, pp, ring, k, f);
      var next := np.friends;
      StartOne(np, foreground, recs);
      recs := recs[np := StartedRec(recs[np], foreground)];
      np := next;
      k := k + 1;
      again := np != pp;
    }
    OnWholeJob(t, pp, ring, f);
  }

  method StartOne(np: Process, foreground: bool, ghost recs: map<Process, Rec>)
    requires MirrorsRecs(recs) && np in recs
    modifies np`flags
    ensures MirrorsRecs(recs[np := StartedRec(recs[np], foreground)])
  {
    if RUNNING in np.flags || STOPPED in np.flags {
      var fs := np.flags - {STOPPED} + {RUNNING};
      np.flags := if foreground then fs + {FOREGND} else fs - {FOREGND};
    }
  }

  /** The second loop of `pchild` around the job. */
  method ReportRing(pp: Process, ghost t: Table, ghost ring: seq<Process>)
    requires MirrorsRecs(t.recs) && Circle(t, pp, ring)
    modifies t.recs.Keys
    ensures MirrorsRecs(OnJob(t, Leader(t, pp), ReportedRec))
  {
    var fp, again := pp, true;
    ghost var k, recs := 0, t.recs;
    OnNone(t.recs, ring, ReportedRec);
    while again
      invariant k <= |ring| && (again <==> k < |ring|) && (again ==> fp == ring[k])
      invariant recs == On(t.recs, ring[..k], ReportedRec) && recs.Keys == t.recs.Keys && MirrorsRecs(recs)
      decreases |ring| - k
    {
      Turn(t, pp, ring, k, ReportedRec);
      var next := fp.friends;
      ReportOne(fp, recs);
      recs := recs[fp := ReportedRec(recs[fp])];
      fp := next;
      k := k + 1;
      again := fp != pp;
    }
    OnWholeJob(t, pp, ring, ReportedRec);
  }

  method ReportOne(fp: Process, ghost recs: map<Process, Rec>)
    requires MirrorsRecs(recs) && fp in recs
    modifies fp`flags
    ensures MirrorsRecs(recs[fp := ReportedRec(recs[fp])])
  {
    if STOPPED in fp.flags {
      fp.flags := fp.flags + {REPORTED};
    }
  }

  /** In a live job only the leader's pid is the job's. */
  lemma LeadingIff(t: Table, p: Process)
    requires Valid(t) && p in t.recs && R(t, p).pid != 0
    ensures Leading(R(t, p)) <==> p == Leader(t, p)
    ensures Live(t, Leader(t, p))
  {
    ValidMeans(t);
    var l := Leader(t, p);
    assert Member(t.recs[p], R(t, l));
    assert Leader(t, l) == l && Member(t.recs[l], R(t, l));
  }

  lemma Along(t: Table, p: Process, ring: seq<Process>, k: nat)
    requires Valid(t) && Circle(t, p, ring) && R(t, p).pid != 0 && k < |ring|
    ensures ring[k] in t.recs && R(t, ring[k]).pid != 0 && Leader(t, ring[k]) == Leader(t, p) && Leader(t, p) in ring
  {
    ValidMeans(t);
    assert ring[k] in ring && Leader(t, ring[k]) == Leader(t, p);
    LiveTogether(t, p);
    LiveTogether(t, ring[k]);
    assert Leader(t, p) in t.jobs && Leader(t, p) in t.recs;
    assert Leader(t, Leader(t, p)) == Leader(t, p);
  }

  lemma LeadsItself(t: Table, l: Process)
    requires Valid(t) && Live(t, l)
    ensures Leader(t, l) == l && l in t.recs
  {
    ValidMeans(t);
  }

  /** The leader has not been passed at the k-th process of the ring. */
  ghost predicate Walking(t: Table, p: Process, ring: seq<Process>, k: nat) {
    k < |ring| && ring[k] in t.recs && Leader(t, p) in ring[k..] && R(t, ring[k]).pid != 0 &&
    (Leading(R(t, ring[k])) <==> ring[k] == Leader(t, p)) && Live(t, Leader(t, p))
  }

  lemma WalkStart(t: Table, p: Process, ring: seq<Process>)
    requires Valid(t) && Circle(t, p, ring) && R(t, p).pid != 0
    ensures Walking(t, p, ring, 0)
  {
    Along(t, p, ring, 0);
    LeadingIff(t, p);
    assert ring[0..] == ring;
  }

  lemma WalkOn(t: Table, p: Process, ring: seq<Process>, k: nat)
    requires Valid(t) && Circle(t, p, ring) && R(t, p).pid != 0 && Walking(t, p, ring, k) && !Leading(R(t, ring[k]))
    ensures Walking(t, p, ring, k + 1) && t.recs[ring[k]].friends == ring[k + 1]
  {
    LaterIn(ring, k, Leader(t, p));
    Along(t, p, ring, k + 1);
    LeadingIff(t, ring[k + 1]);
  }

  lemma LaterIn(ring: seq<Process>, k: nat, l: Process)
    requires k < |ring| && l in ring[k..] && l != ring[k]
    ensures l in ring[k + 1..] && k + 1 < |ring|
  {
    assert ring[k..] == [ring[k]] + ring[k + 1..];
  }

  /** The flags of a job do not depend on where the ring starts. */
  lemma {:induction false} FlagIn(t: Table, ring: seq<Process>, f: Flag)
    ensures f in JobFlags(t, ring) <==> exists i :: 0 <= i < |ring| && f in R(t, ring[i]).flags
    decreases |ring|
  {
    if ring != [] {
      var n := |ring| - 1;
      FlagIn(t, ring[..n], f);
      if f in JobFlags(t, ring[..n]) {
        var i :| 0 <= i < |ring[..n]| && f in R(t, ring[..n][i]).flags;
        assert ring[i] == ring[..n][i];
      }
      if exists i :: 0 <= i < |ring| && f in R(t, ring[i]).flags {
        var i :| 0 <= i < |ring| && f in R(t, ring[i]).flags;
        if i < n {
          assert ring[..n][i] == ring[i];
        }
      }
    }
  }

  lemma SameJobFlags(t: Table, a: seq<Process>, b: seq<Process>)
    requires forall p :: p in a <==> p in b
    ensures JobFlags(t, a) == JobFlags(t, b)
  {
    forall f ensures f in JobFlags(t, a) <==> f in JobFlags(t, b) {
      FlagIn(t, a, f);
      FlagIn(t, b, f);
      if i :| 0 <= i < |a| && f in R(t, a[i]).flags {
        assert a[i] in b;
      }
      if i :| 0 <= i < |b| && f in R(t, b[i]).flags {
        assert b[i] in a;
      }
    }
  }

  class JobTable {
    /** `proclist`, the newest process first */
    var procs: seq<Process>
    var pcurrjob: Process?
    var pcurrent: Process?
    var pprevious: Process?
    var pmaxindex: nat
    /** all of it as a value */
    ghost var g: Table

    ghost predicate Mirrored()
      reads this, g.recs.Keys
    {
      procs == g.procs && pcurrjob == g.building && pcurrent == g.current && pprevious == g.previous &&
      pmaxindex == g.maxIndex && MirrorsRecs(g.recs)
    }

    ghost predicate AllListed()
      reads this
    {
      forall i :: 0 <= i < |g.procs| ==> g.procs[i] in g.recs
    }

    constructor ()
      ensures Mirrored() && Valid(g) && g == Empty()
    {
      procs, pcurrjob, pcurrent, pprevious, pmaxindex := [], null, null, null, 0;
      g := Empty();
      new;
      EmptyValid();
    }

    /** `pgetcurr(pp)` */
    method PGetCurr(pp: Process) returns (r: Process?)
      requires Mirrored() && AllListed()
      ensures r == GetCurrent(g, pp)
    {
      var xp: Process? := null;
      for i := 0 to |procs|
        invariant GetCurrentFrom(g, i, pp, xp) == GetCurrent(g, pp)
      {
        var np := procs[i];
        if np != pcurrent && np != pp && np.pid != 0 && np.pid == np.jobid {
          if STOPPED in np.flags {
            return np;
          }
          if xp == null {
            xp := np;
          }
        }
      }
      return xp;
    }

    /** `pclrcurr(pp)` */
    method PClrCurr(pp: Process)
      requires Mirrored() && AllListed()
      modifies this`pcurrent, this`pprevious, this`g
      ensures Mirrored() && g == ClearCurrent(old(g), pp)
    {
      if pp == pcurrent {
        if pprevious != null {
          pcurrent := pprevious;
          g := g.(current := pcurrent);
          pprevious := PGetCurr(pp);
        } else {
          pcurrent := PGetCurr(pp);
          g := g.(current := pcurrent);
          pprevious := PGetCurr(pp);
        }
      } else if pp == pprevious {
        pprevious := PGetCurr(pp);
      }
      g := ClearCurrent(old(g), pp);
    }

    /** From friend to friend, up to the one whose pid is the job's. */
    method FindLeader(p: Process) returns (pp: Process)
      requires Mirrored() && Valid(g) && p in g.recs && R(g, p).pid != 0
      ensures pp == Leader(g, p) && Live(g, pp)
    {
      pp := p;
      ghost var ring := SomeCircle(g, p);
      ghost var k := 0;
      WalkStart(g, p, ring);
      while pp.pid != pp.jobid
        invariant k < |ring| && pp == ring[k] && Walking(g, p, ring, k)
        decreases |ring| - k
      {
        WalkOn(g, p, ring, k);
        pp := pp.friends;
        k := k + 1;
      }
    }

    /** The largest index in use. */
    method FindMax() returns (idx: nat)
      requires procs == g.procs && AllListed() && MirrorsRecs(g.recs)
      ensures idx == MaxIndex(g.procs, g.recs)
    {
      idx := 0;
      for i := 0 to |procs|
        invariant idx == MaxIndex(procs[..i], g.recs)
      {
        assert procs[..i + 1][..i] == procs[..i];
        if procs[i].index > idx {
          idx := procs[i].index;
        }
      }
      assert procs[..|procs|] == procs;
    }

    lemma ListedNow()
      requires Valid(g)
      ensures AllListed()
    {
      ValidMeans(g);
    }

    /** `pflush(p)` */
    method PFlush(p: Process)
      requires Mirrored() && Valid(g) && p in g.recs
      modifies this`pcurrent, this`pprevious, this`pcurrjob, this`pmaxindex, this`g, g.recs.Keys
      ensures Mirrored() && Valid(g)
      ensures g == if R(old(g), p).pid == 0 then old(g) else Flush(old(g), Leader(old(g), p))
    {
      if p.pid == 0 {
        return;
      }
      ghost var t := g;
      var pp := FindLeader(p);
      ListedNow();
      FlushStep(t, pp);
      LeadsItself(t, pp);
      PClrCurr(pp);
      FlushRecords(pp, t);
    }

    /** The rest of `pflush`, for the leader of a job that is no longer current or previous. */
    method FlushRecords(pp: Process, ghost t: Table)
      requires Mirrored() && Valid(t) && pp in t.recs && g == ClearCurrent(t, pp) && Leader(t, pp) == pp
      requires forall i :: 0 <= i < |t.procs| ==> t.procs[i] in t.recs
      modifies this`pcurrjob, this`pmaxindex, this`g, g.recs.Keys
      ensures Mirrored() && g == Flush(t, pp)
    {
      if pp == pcurrjob {
        pcurrjob := null;
      }
      var idx := pp.index;
      ghost var ring := SomeCircle(t, pp);
      FlushRing(pp, t, ring);
      FlushEnds(t, pp);
      RecountMax(idx, Flush(t, pp));
    }

    static lemma FlushEnds(t: Table, l: Process)
      requires l in t.recs && forall i :: 0 <= i < |t.procs| ==> t.procs[i] in t.recs
      ensures var t1, r := ClearCurrent(t, l), Flush(t, l);
        r.procs == t.procs && r.recs == OnJob(t, l, FlushedRec) && r.recs.Keys == t.recs.Keys &&
        r.current == t1.current && r.previous == t1.previous && r.building == (if t.building == l then null else t.building) &&
        r.maxIndex == (if R(t, l).index == t.maxIndex then MaxIndex(r.procs, r.recs) else t.maxIndex) &&
        t1.recs == t.recs && t1.maxIndex == t.maxIndex && t1.building == t.building && t1.procs == t.procs &&
        forall i :: 0 <= i < |r.procs| ==> r.procs[i] in r.recs
    {
      FlushShape(t, l);
    }

    /** The largest index is looked for again if it was that of the flushed job. */
    method RecountMax(idx: nat, ghost r: Table)
      requires procs == r.procs && MirrorsRecs(r.recs) && forall i :: 0 <= i < |r.procs| ==> r.procs[i] in r.recs
      modifies this`pmaxindex, this`g
      ensures g == r && procs == old(procs) && MirrorsRecs(r.recs)
      ensures pmaxindex == if idx == old(pmaxindex) then MaxIndex(r.procs, r.recs) else old(pmaxindex)
      ensures unchanged(this`pcurrent, this`pprevious, this`pcurrjob)
    {
      g := r;
      if idx == pmaxindex {
        pmaxindex := FindMax();
      }
    }

    /** `pflushall` */
    method PFlushAll()
      requires Mirrored() && Valid(g)
      modifies this`pcurrent, this`pprevious, this`pcurrjob, this`pmaxindex, this`g, g.recs.Keys
      ensures Mirrored() && Valid(g) && g == FlushAll(old(g), 0)
      ensures pcurrent == pprevious == pcurrjob == null && pmaxindex == 0
      ensures forall i :: 0 <= i < |procs| ==> procs[i].pid == 0
    {
      ghost var t := g;
      FlushAllStep(t, 0);
      for i := 0 to |procs|
        invariant Mirrored() && Valid(g) && FlushAll(g, i) == FlushAll(t, 0)
        invariant procs == t.procs && g.recs.Keys == t.recs.Keys
      {
        ListedNow();
        if procs[i].pid != 0 {
          ghost var l := Leader(g, procs[i]);
          FlushShape(g, l);
          assert Flush(g, l).(procs := g.procs) == Flush(g, l);
          PFlush(procs[i]);
        }
      }
      ListedNow();
    }

    /** One turn of `pnote`, with the walk of `pprint` around the job. */
    method PNoteOne(pp: Process)
      requires Mirrored() && Valid(g) && pp in g.recs && NEEDNOTE in R(g, pp).flags
      modifies this`pcurrent, this`pprevious, this`pcurrjob, this`pmaxindex, this`g, g.recs.Keys
      ensures Mirrored() && Valid(g) && g == Noted(old(g), pp)
    {
      NotedStep(g, pp);
      NotedMiddle(g, pp);
      SetProcessFlags(pp, pp.flags - {NEEDNOTE});
      var l := FindLeader(pp);
      LeadsItself(g, l);
      ghost var ring := SomeCircle(g, l);
      RingFlags(g, g, l, ring);
      var fs := CollectFlags(l, ring);
      if RUNNING !in fs && STOPPED !in fs {
        PFlush(pp);
      }
    }

    /** `pnote` */
    method PNote()
      requires Mirrored() && Valid(g)
      modifies this`pcurrent, this`pprevious, this`pcurrjob, this`pmaxindex, this`g, g.recs.Keys
      ensures Mirrored() && Valid(g) && g == NoteAll(old(g), 0)
      ensures forall i :: 0 <= i < |procs| ==> NEEDNOTE !in procs[i].flags
    {
      ghost var t := g;
      NoteAllStep(t, 0);
      for i := 0 to |procs|
        invariant Mirrored() && Valid(g) && NoteAll(g, i) == NoteAll(t, 0)
        invariant procs == t.procs && g.recs.Keys == t.recs.Keys
      {
        PNoteAt(i);
      }
      ListedNow();
    }

    /** The body of the loop of `pnote`. */
    method PNoteAt(i: nat)
      requires Mirrored() && Valid(g) && i < |procs|
      modifies this`pcurrent, this`pprevious, this`pcurrjob, this`pmaxindex, this`g, g.recs.Keys
      ensures Mirrored() && Valid(g) && NoteAll(g, i + 1) == NoteAll(old(g), i)
      ensures procs == old(g).procs && g.recs.Keys == old(g).recs.Keys
    {
      ListedNow();
      NoteAllTurn(g, i);
      if NEEDNOTE in procs[i].flags {
        NotedLess(g, procs[i]);
        PNoteOne(procs[i]);
      }
    }

    /** `donotify`, for the leader of a live job. */
    method DoNotify(pp: Process)
      requires Mirrored() && Valid(g) && Live(g, pp)
      modifies this`g, pp`flags
      ensures Mirrored() && Valid(g) && pp in old(g).recs
      ensures g == SetFlags(old(g), pp, R(old(g), pp).flags + {NOTIFY}) == Apply(old(g), Notify(pp))
    {
      NotifyStep(g, pp);
      SetProcessFlags(pp, pp.flags + {NOTIFY});
    }

    /** `pstart(pp, foreground)`, for the leader of a live job. */
    method PStart(pp: Process, foreground: bool)
      requires Mirrored() && Valid(g) && Live(g, pp)
      modifies this`pcurrent, this`pprevious, this`g, g.recs.Keys
      ensures Mirrored() && Valid(g) && g == Start(old(g), pp, foreground)
    {
      ghost var t := g;
      LeadsItself(t, pp);
      StartStep(t, pp, foreground);
      ListedNow();
      StartRecords(pp, foreground);
      if !foreground {
        PClrCurr(pp);
      }
    }

    method StartRecords(pp: Process, foreground: bool)
      requires Mirrored() && Valid(g) && pp in g.recs && Leader(g, pp) == pp
      modifies this`g, g.recs.Keys
      ensures Mirrored() && g == old(g).(recs := OnJob(old(g), pp, Starter(foreground)))
    {
      ghost var t := g;
      ghost var ring := SomeCircle(t, pp);
      StartRing(pp, foreground, t, ring);
      g := t.(recs := OnJob(t, pp, Starter(foreground)));
    }

    /** The first loop of `pchild` around the job. */
    method CollectFlags(pp: Process, ghost ring: seq<Process>) returns (fs: set<Flag>)
      requires Mirrored() && Circle(g, pp, ring)
      ensures fs == JobFlags(g, ring)
    {
      var fp, again := pp, true;
      fs := {};
      ghost var k := 0;
      while again
        invariant k <= |ring| && (again <==> k < |ring|) && (again ==> fp == ring[k]) && fs == JobFlags(g, ring[..k])
        decreases |ring| - k
      {
        NextFriend(g, pp, ring, k);
        MoreFlags(g, ring, k);
        fs := fs + fp.flags;
        fp := fp.friends;
        k := k + 1;
        again := fp != pp;
      }
      assert ring[..k] == ring;
    }

    /** The process gets the flags fs, in the heap and in what the proof sees. */
    method SetProcessFlags(pp: Process, fs: set<Flag>)
      requires Mirrored() && pp in g.recs
      modifies this`g, pp`flags
      ensures Mirrored() && g == SetFlags(old(g), pp, fs)
    {
      pp.flags := fs;
      g := SetFlags(g, pp, fs);
    }

    /** `pchild`, when wait3 has reported the status s of a process that is running or stopped. */
    method PChild(pp: Process, s: Status, notify: bool)
      requires Mirrored() && Valid(g) && pp in g.recs && R(g, pp).pid != 0
      requires RUNNING in R(g, pp).flags || STOPPED in R(g, pp).flags
      modifies this`pcurrent, this`pprevious, this`pcurrjob, this`pmaxindex, this`g, g.recs.Keys
      ensures Mirrored() && Valid(g) && g == Child(old(g), pp, s, notify)
    {
      ChildStep(g, pp, s, notify);
      var jobflags := TakeStatus(pp, s);
      if RUNNING !in jobflags && REPORTED !in jobflags {
        SettleJob(pp, jobflags, notify);
      }
    }

    /** The first part of `pchild`: the new state of the process, and the flags of its job. */
    method TakeStatus(pp: Process, s: Status) returns (jobflags: set<Flag>)
      requires Mirrored() && Valid(g) && pp in g.recs && R(g, pp).pid != 0
      requires RUNNING in R(g, pp).flags || STOPPED in R(g, pp).flags
      modifies this`g, g.recs.Keys
      ensures Mirrored() && Valid(g) && pp in g.recs && R(g, pp).pid != 0 && Leader(g, pp) == Leader(old(g), pp)
      ensures var t1 := SetFlags(old(g), pp, NewFlags(R(old(g), pp).flags, s));
        jobflags == JobFlags(t1, Ring(old(g), Leader(old(g), pp))) &&
        g == SetFlags(t1, pp, R(t1, pp).flags - {FOREGND})
    {
      ghost var t := g;
      ghost var ring := SomeCircle(t, pp);
      SetProcessFlags(pp, NewFlags(pp.flags, s));
      CircleKept(t, g, pp, ring);
      jobflags := CollectFlags(pp, ring);
      RingFlags(t, g, pp, ring);
      SetProcessFlags(pp, pp.flags - {FOREGND});
      TakeStep(t, pp, s);
    }

    /** The end of a turn of `pchild`. */
    method SettleJob(pp: Process, jobflags: set<Flag>, notify: bool)
      requires Mirrored() && Valid(g) && pp in g.recs && R(g, pp).pid != 0
      modifies this`pcurrent, this`pprevious, this`pcurrjob, this`pmaxindex, this`g, g.recs.Keys
      ensures Mirrored() && g == Settle(old(g), Leader(old(g), pp), jobflags, notify)
    {
      ReportStoppedJob(pp);
      var fp := FindLeader(pp);
      PointToJob(fp, jobflags);
      if FOREGND !in jobflags {
        NotifyJob(fp, jobflags, notify);
      }
    }

    /** The end of a background job is told now, or noted to be told later. */
    method NotifyJob(fp: Process, jobflags: set<Flag>, notify: bool)
      requires Mirrored() && Valid(g) && Live(g, fp)
      modifies this`pcurrent, this`pprevious, this`pcurrjob, this`pmaxindex, this`g, g.recs.Keys
      ensures Mirrored()
      ensures g == if !(NOTIFY in jobflags || notify) then SetFlags(old(g), fp, R(old(g), fp).flags + {NEEDNOTE})
                   else if STOPPED in jobflags then old(g) else Flush(old(g), fp)
    {
      LeadsItself(g, fp);
      if NOTIFY in jobflags || notify {
        if STOPPED !in jobflags {
          PFlush(fp);
        }
      } else {
        SetProcessFlags(fp, fp.flags + {NEEDNOTE});
      }
    }

    method ReportStoppedJob(pp: Process)
      requires Mirrored() && Valid(g) && pp in g.recs && R(g, pp).pid != 0
      modifies this`g, g.recs.Keys
      ensures Mirrored() && g == old(g).(recs := OnJob(old(g), Leader(old(g), pp), ReportedRec))
      ensures Valid(g) && pp in g.recs && R(g, pp).pid != 0
    {
      ghost var t := g;
      ghost var ring := SomeCircle(t, pp);
      ReportedLive(t, pp);
      ReportRing(pp, t, ring);
      g := t.(recs := OnJob(t, Leader(t, pp), ReportedRec));
    }

    /** A stopped job becomes the current one, a finished one is it no longer. */
    method PointToJob(fp: Process, jobflags: set<Flag>)
      requires Mirrored() && Valid(g) && Live(g, fp)
      modifies this`pcurrent, this`pprevious, this`g
      ensures Mirrored() && Valid(g) && Live(g, fp)
      ensures g == if STOPPED in jobflags then MakeCurrent(old(g), fp) else ClearCurrent(old(g), fp)
    {
      ListedNow();
      if STOPPED in jobflags {
        MakeCurrentStep(g, fp);
        if pcurrent != null && pcurrent != fp {
          pprevious := pcurrent;
        }
        pcurrent := fp;
        g := MakeCurrent(g, fp);
      } else {
        ClearCurrentStep(g, fp);
        PClrCurr(fp);
      }
    }

    /** `palloc` for a process the shell has forked, whose pid is not that of a process in the list. */
    method PAlloc(pid: nat, background: bool) returns (pp: Process)
      requires Mirrored() && Valid(g) && pid != 0 && forall q :: q in g.recs ==> g.recs[q].pid != pid
      modifies this`procs, this`pcurrent, this`pprevious, this`pcurrjob, this`pmaxindex, this`g, g.recs.Keys
      ensures Mirrored() && Valid(g) && fresh(pp) && pp in g.recs && R(g, pp).pid == pid
      ensures g == Apply(old(g), Alloc(pp, pid, background))
      ensures old(g).building == null ==> g == AllocLeader(old(g), pp, pid, background)
      ensures old(g).building != null ==>
        Ring(old(g), old(g).building) != [] && g == AllocFriend(old(g), pp, pid, background)
    {
      pp := new Process(pid, RunningFlags(background));
      NewIsFresh(g, pp, pid);
      StepKeeps(g, Alloc(pp, pid, background));
      if pcurrjob != null {
        BuildingOk(g);
        JoinJob(pp, pid, background);
      } else {
        StartJob(pp, pid, background);
      }
    }

    /** `palloc` when a job is being built: the process goes to the end of its ring. */
    method JoinJob(pp: Process, pid: nat, background: bool)
      requires Mirrored() && Valid(g) && pp !in g.recs && g.building != null && Ring(g, g.building) != []
      requires pp.pid == pid && pp.flags == RunningFlags(background)
      modifies this`procs, this`g, pp`index, pp`friends, pp`jobid, g.recs.Keys
      ensures Mirrored() && g == AllocFriend(old(g), pp, pid, background)
    {
      var fp := LastFriend(pcurrjob);
      LinkFriend(pp, pcurrjob, fp, g.recs);
      Prepend(pp, AllocFriend(g, pp, pid, background));
    }

    method Prepend(pp: Process, ghost t: Table)
      requires procs == g.procs && pcurrjob == g.building && pcurrent == g.current && pprevious == g.previous
      requires pmaxindex == g.maxIndex && MirrorsRecs(t.recs) && t.procs == [pp] + g.procs
      requires t.building == g.building && t.current == g.current && t.previous == g.previous && t.maxIndex == g.maxIndex
      modifies this`procs, this`g
      ensures Mirrored() && g == t
    {
      procs := [pp] + procs;
      g := t;
    }

    /** From friend to friend, up to the one before the leader. */
    method LastFriend(l: Process) returns (fp: Process)
      requires Mirrored() && Valid(g) && g.building == l
      ensures l in g.recs && Ring(g, l) != [] && fp == Ring(g, l)[|Ring(g, l)| - 1] && fp in g.recs
    {
      ghost var ring := LeaderCircle(g, l);
      ghost var k := 0;
      fp := l;
      Turn(g, l, ring, k, FlushedRec);
      while fp.friends != l
        invariant k < |ring| && fp == ring[k] && fp in g.recs && g.recs[fp].friends == Next(ring, k)
        invariant Next(ring, k) == l <==> k + 1 == |ring|
        decreases |ring| - k
      {
        Turn(g, l, ring, k + 1, FlushedRec);
        fp := fp.friends;
        k := k + 1;
      }
    }

    /** `palloc` when no job is being built: the process leads a new one. */
    method StartJob(pp: Process, pid: nat, background: bool)
      requires Mirrored() && Valid(g) && pp !in g.recs && g.building == null
      requires pp.pid == pid && pp.flags == RunningFlags(background)
      modifies this`procs, this`pcurrent, this`pprevious, this`pcurrjob, this`pmaxindex, this`g, pp`index, pp`jobid, pp`friends
      ensures Mirrored() && g == AllocLeader(old(g), pp, pid, background)
    {
      var i := ChooseIndex();
      LinkLeader(pp, i, g.recs);
      EnterTable(pp, i, AllocLeader(g, pp, pid, background));
    }

    /** The pointers of the table when the job that pp leads is new. */
    method EnterTable(pp: Process, i: nat, ghost t: Table)
      requires procs == g.procs && pcurrent == g.current && pprevious == g.previous && pmaxindex == g.maxIndex
      requires MirrorsRecs(t.recs) && t.procs == [pp] + g.procs && t.building == pp
      requires t.current == if g.current == null then pp else g.current
      requires t.previous == if g.current != null && g.previous == null then pp else g.previous
      requires t.maxIndex == if i > g.maxIndex then i else g.maxIndex
      modifies this`procs, this`pcurrent, this`pprevious, this`pcurrjob, this`pmaxindex, this`g
      ensures Mirrored() && g == t
    {
      pcurrjob := pp;
      if i > pmaxindex {
        pmaxindex := i;
      }
      if pcurrent == null {
        pcurrent := pp;
      } else if pprevious == null {
        pprevious := pp;
      }
      procs := [pp] + procs;
      g := t;
    }

    /** The index of a new job. */
    method ChooseIndex() returns (i: nat)
      requires procs == g.procs && pmaxindex == g.maxIndex && MirrorsRecs(g.recs) && Valid(g)
      ensures i == NewIndex(g)
    {
      if pmaxindex < BIGINDEX {
        return pmaxindex + 1;
      }
      i := 1;
      ghost var n := |procs| + 1;
      while true
        invariant 1 <= i <= n && FreeIndex(g, i, n) == FreeIndex(g, 1, n)
        invariant forall j :: 1 <= j < i ==> !Unused(g, j)
        decreases n - i
      {
        var free := IsFree(i);
        if free {
          return;
        }
        SomeUnused(g, i + 1);
        i := i + 1;
      }
    }

    method IsFree(i: nat) returns (free: bool)
      requires procs == g.procs && MirrorsRecs(g.recs) && Valid(g)
      ensures free == Unused(g, i)
    {
      ListedNow();
      for k := 0 to |procs|
        invariant forall j :: 0 <= j < k ==> R(g, procs[j]).index != i
      {
        if procs[k].index == i {
          assert procs[k] in g.procs;
          return false;
        }
      }
      return true;
    }

    /** `pendjob` */
    method PEndJob()
      requires Mirrored() && Valid(g)
      modifies this`pcurrjob, this`g
      ensures Mirrored() && Valid(g) && g == old(g).(building := null) == Apply(old(g), EndJob)
    {
      EndJobStep(g);
      pcurrjob := null;
      g := g.(building := null);
    }

    /** The sweep at the start of `pwait`: flushed processes are unlinked. */
    method PSweep()
      requires Mirrored() && Valid(g)
      modifies this`procs, this`g
      ensures Mirrored() && Valid(g) && g == Sweep(old(g)) == Apply(old(g), SweepDead) && WholeJobs(old(g), g)
      ensures forall i :: 0 <= i < |procs| ==> procs[i].pid != 0
    {
      SweepStep(g);
      ListedNow();
      UnlinkDead();
      g := Sweep(g);
      ListedNow();
    }

    method UnlinkDead()
      requires Mirrored() && AllListed()
      modifies this`procs
      ensures procs == Swept(g.procs, g.recs)
    {
      ghost var j, kept, all := 0, [], procs;
      var i := 0;
      while i < |procs|
        invariant j <= |all| && procs == kept + all[j..] && i == |kept|
        invariant kept == Swept(all[..j], g.recs)
        decreases |all| - j
      {
        assert all[..j + 1][..j] == all[..j];
        Middle(kept, all, j);
        if procs[i].pid == 0 {
          procs := procs[..i] + procs[i + 1..];
        } else {
          kept := kept + [procs[i]];
          i := i + 1;
        }
        j := j + 1;
      }
      assert all[..j] == all && procs == kept;
    }
  }

  lemma ReportedLive(t: Table, p: Process)
    requires Valid(t) && p in t.recs && R(t, p).pid != 0
    ensures var t1 := t.(recs := OnJob(t, Leader(t, p), ReportedRec));
      Valid(t1) && p in t1.recs && R(t1, p).pid != 0
  {
    ReportedStep(t, Leader(t, p));
  }

  lemma NewIsFresh(t: Table, p: Process, pid: nat)
    requires Valid(t) && p !in t.recs && pid != 0 && forall q :: q in t.recs ==> t.recs[q].pid != pid
    ensures Fresh(t, p, pid)
  {
    ValidMeans(t);
    HomeKeys(t);
  }

  /** Around the ring from the leader of the job being built. */
  lemma LeaderCircle(t: Table, l: Process) returns (ring: seq<Process>)
    requires Valid(t) && t.building == l
    ensures Circle(t, l, ring) && ring == Ring(t, l) && l in t.recs
  {
    BuildingOk(t);
    LeadsItself(t, l);
    ValidMeans(t);
    ShapedMeans(t);
    ring := Ring(t, l);
    JobRing(t, l);
    assert HomesOf(t.home, l, ring);
  }

  /** The fields of a new process that leads a job. */
  method LinkLeader(pp: Process, i: nat, ghost recs: map<Process, Rec>)
    requires MirrorsRecs(recs) && pp !in recs
    modifies pp`index, pp`friends, pp`jobid
    ensures MirrorsRecs(recs[pp := Rec(pp, pp.flags, i, pp.pid, pp.pid)])
  {
    pp.jobid := pp.pid;
    pp.friends := pp;
    pp.index := i;
  }

  /** The fields of a new process that joins l's job behind fp. */
  method LinkFriend(pp: Process, l: Process, fp: Process, ghost recs: map<Process, Rec>)
    requires MirrorsRecs(recs) && l in recs && fp in recs && pp !in recs
    modifies pp`index, pp`friends, pp`jobid, fp`friends
    ensures MirrorsRecs(recs[fp := recs[fp].(friends := pp)][pp := Rec(l, pp.flags, recs[l].index, pp.pid, recs[l].pid)])
  {
    pp.index := l.index;
    pp.friends := l;
    pp.jobid := l.pid;
    fp.friends := pp;
  }

  lemma Middle(kept: seq<Process>, procs: seq<Process>, j: nat)
    requires j < |procs|
    ensures var s := kept + procs[j..];
      s[|kept|] == procs[j] && s[..|kept|] + s[|kept| + 1..] == kept + procs[j + 1..] &&
      s == kept + [procs[j]] + procs[j + 1..]
  {
  }

  lemma CircleKept(t: Table, t1: Table, p: Process, ring: seq<Process>)
    requires Circle(t, p, ring) && t1.home == t.home && t1.recs.Keys == t.recs.Keys
    requires forall q :: q in t.recs ==> t1.recs[q].friends == t.recs[q].friends
    ensures Circle(t1, p, ring)
  {
    forall q | q in t1.recs ensures q in ring <==> Leader(t1, q) == Leader(t1, p) {
      assert Leader(t1, q) == Leader(t, q) && Leader(t1, p) == Leader(t, p);
    }
  }

  /** The flags collected around the ring are those of the job. */
  lemma RingFlags(t: Table, t1: Table, p: Process, ring: seq<Process>)
    requires Valid(t) && Circle(t, p, ring)
    ensures JobFlags(t1, ring) == JobFlags(t1, Ring(t, Leader(t, p)))
  {
    var l := Leader(t, p);
    ValidMeans(t);
    ShapedMeans(t);
    JobRing(t, l);
    forall q ensures q in ring <==> q in Ring(t, l) {
      if q in ring {
        assert q in t.recs;
      }
      if q in Ring(t, l) {
        assert q in t.recs;
      }
    }
    SameJobFlags(t1, ring, Ring(t, l));
  }
}
