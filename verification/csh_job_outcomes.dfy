/** What becomes of a job when a status is reported, and which jobs the shell turns to: said of the table
    before and the table after. */
module CshJobOutcomes {
  import opened CshJobs

  // ---- the flags of a job ------------------------------------------------------------------

  /** Another process of p's job has the flag. */
  ghost predicate Other(t: Table, p: Process, f: Flag) {
    exists q :: q in t.recs && q != p && Leader(t, q) == Leader(t, p) && f in R(t, q).flags
  }

  lemma {:induction false} JobFlagsHas(t: Table, ring: seq<Process>, f: Flag)
    ensures f in JobFlags(t, ring) <==> exists i :: 0 <= i < |ring| && f in R(t, ring[i]).flags
    decreases |ring|
  {
    if ring != [] {
      var n := |ring| - 1;
      JobFlagsHas(t, ring[..n], f);
      if f in JobFlags(t, ring[..n]) {
        var i :| 0 <= i < n && f in R(t, ring[..n][i]).flags;
        assert ring[i] == ring[..n][i];
      }
      if i :| 0 <= i < n && f in R(t, ring[i]).flags {
        assert ring[..n][i] == ring[i];
      }
    }
  }

  /** The ring of a job holds just its processes. */
  lemma RingIs(t: Table, l: Process)
    requires Valid(t) && l in t.jobs
    ensures forall q :: q in Ring(t, l) <==> q in t.recs && Leader(t, q) == l
  {
    ValidMeans(t);
    ShapedMeans(t);
    assert HomesOf(t.home, l, t.jobs[l]);
    forall q | q in t.recs && Leader(t, q) == l ensures q in Ring(t, l) {
      assert t.home[q].leader == l && t.jobs[l][t.home[q].at] == q;
    }
  }

  /** The flags of a job once p has its new ones. */
  lemma FlagsOfJob(t: Table, p: Process, fs: set<Flag>, f: Flag)
    requires Valid(t) && p in t.recs && R(t, p).pid != 0
    ensures f in JobFlags(SetFlags(t, p, fs), Ring(t, Leader(t, p))) <==> f in fs || Other(t, p, f)
  {
    var l, t1 := Leader(t, p), SetFlags(t, p, fs);
    LeaderLive(t, p);
    RingIs(t, l);
    JobFlagsHas(t1, Ring(t, l), f);
    if f in fs {
      assert p in Ring(t, l);
      var i :| 0 <= i < |Ring(t, l)| && Ring(t, l)[i] == p;
      assert f in R(t1, Ring(t, l)[i]).flags;
    }
    if Other(t, p, f) {
      var q :| q in t.recs && q != p && Leader(t, q) == Leader(t, p) && f in R(t, q).flags;
      assert q in Ring(t, l);
      var i :| 0 <= i < |Ring(t, l)| && Ring(t, l)[i] == q;
      assert f in R(t1, Ring(t, l)[i]).flags;
    }
    if i :| 0 <= i < |Ring(t, l)| && f in R(t1, Ring(t, l)[i]).flags {
      var q := Ring(t, l)[i];
      assert q in Ring(t, l);
      assert q == p ==> f in fs;
    }
  }

  /** The flags a status leaves and adds. */
  lemma FlagsOfStatus(was: set<Flag>, s: Status)
    ensures var fs := NewFlags(was, s);
      RUNNING !in fs && REPORTED !in fs && (STOPPED in fs <==> s.Stopped?) &&
      (FOREGND in fs <==> FOREGND in was) && (NOTIFY in fs <==> NOTIFY in was) &&
      (DUMPED in fs <==> DUMPED in was || (s.Signalled? && s.core))
  {
  }

  // ---- what a status does --------------------------------------------------------------------

  /** Some process of the job goes on running, or has been reported, so that nothing more is done. */
  ghost predicate Unfinished(t: Table, p: Process) { Other(t, p, RUNNING) || Other(t, p, REPORTED) }

  /** The job is stopped now. */
  ghost predicate Halted(t: Table, p: Process, s: Status) { s.Stopped? || Other(t, p, STOPPED) }

  /** The flag is set for some process of the job, p included. */
  ghost predicate Somewhere(t: Table, p: Process, f: Flag) { f in R(t, p).flags || Other(t, p, f) }

  ghost predicate Due(t: Table, p: Process) {
    Valid(t) && p in t.recs && R(t, p).pid != 0 && (RUNNING in R(t, p).flags || STOPPED in R(t, p).flags)
  }

  /** The flags of the job that `pchild` collects. */
  lemma Collected(t: Table, p: Process, s: Status) returns (fs: set<Flag>)
    requires Due(t, p)
    ensures fs == JobFlags(SetFlags(t, p, NewFlags(R(t, p).flags, s)), Ring(t, Leader(t, p)))
    ensures (RUNNING in fs || REPORTED in fs <==> Unfinished(t, p)) && (STOPPED in fs <==> Halted(t, p, s))
    ensures (FOREGND in fs <==> Somewhere(t, p, FOREGND)) && (NOTIFY in fs <==> Somewhere(t, p, NOTIFY))
  {
    var new1 := NewFlags(R(t, p).flags, s);
    fs := JobFlags(SetFlags(t, p, new1), Ring(t, Leader(t, p)));
    FlagsOfStatus(R(t, p).flags, s);
    FlagsOfJob(t, p, new1, RUNNING);
    FlagsOfJob(t, p, new1, REPORTED);
    FlagsOfJob(t, p, new1, STOPPED);
    FlagsOfJob(t, p, new1, FOREGND);
    FlagsOfJob(t, p, new1, NOTIFY);
  }

  /** The table in which the process has its new flags. */
  function Marked(t: Table, p: Process, s: Status): Table {
    var t1 := SetFlags(t, p, NewFlags(R(t, p).flags, s));
    SetFlags(t1, p, R(t1, p).flags - {FOREGND})
  }

  lemma ChildIs(t: Table, p: Process, s: Status, notify: bool) returns (fs: set<Flag>)
    requires Due(t, p)
    ensures Unfinished(t, p) ==> Child(t, p, s, notify) == Marked(t, p, s)
    ensures !Unfinished(t, p) ==> Child(t, p, s, notify) == Settle(Marked(t, p, s), Leader(t, p), fs, notify)
    ensures STOPPED in fs <==> Halted(t, p, s)
    ensures (FOREGND in fs <==> Somewhere(t, p, FOREGND)) && (NOTIFY in fs <==> Somewhere(t, p, NOTIFY))
    ensures Valid(Marked(t, p, s)) && Live(Marked(t, p, s), Leader(t, p))
  {
    fs := Collected(t, p, s);
    TakeStep(t, p, s);
    LeaderLive(t, p);
  }

  /** A finished job that is told about at once is flushed. */
  predicate Gone(fs: set<Flag>, notify: bool) { STOPPED !in fs && FOREGND !in fs && (NOTIFY in fs || notify) }

  /** A job in the background that is not told about at once needs a note. */
  predicate Noticed(fs: set<Flag>, notify: bool) { FOREGND !in fs && NOTIFY !in fs && !notify }

  /** What settling a job does to the record of a process. */
  lemma SettledRecord(t: Table, l: Process, fs: set<Flag>, notify: bool, q: Process)
    requires q in t.recs && Leader(t, l) == l && l in t.recs
    ensures var r := Settle(t, l, fs, notify);
      q in r.recs && Leader(r, q) == Leader(t, q) && (Leader(t, q) != l ==> r.recs[q] == t.recs[q]) &&
      Reported(R(t, q).flags, R(r, q).flags, Leader(t, q) == l) &&
      R(r, q).pid == (if Gone(fs, notify) && Leader(t, q) == l then 0 else R(t, q).pid)
  {
    var t1 := t.(recs := OnJob(t, l, ReportedRec));
    var t2 := if STOPPED in fs then MakeCurrent(t1, l) else ClearCurrent(t1, l);
    assert t2.recs == t1.recs && t2.home == t.home;
    SettledEnd(t2, l, fs, notify, q);
    MarkedReported(R(t, q));
  }

  /** Flags before and after: marks apart, they are the same, and stopped processes of the job have been
      reported. */
  predicate Reported(fs: set<Flag>, gs: set<Flag>, job: bool) {
    gs - {REPORTED, NEEDNOTE} == fs - {REPORTED, NEEDNOTE} && (job && STOPPED in fs ==> REPORTED in gs) &&
    (REPORTED in gs ==> REPORTED in fs || STOPPED in fs)
  }

  lemma MarkedReported(r: Rec)
    ensures Reported(r.flags, ReportedRec(r).flags, true) && Reported(r.flags, r.flags, false)
  {
  }

  /** The flush or the note, if there is one. */
  lemma SettledEnd(t: Table, l: Process, fs: set<Flag>, notify: bool, q: Process)
    requires q in t.recs && Leader(t, l) == l && l in t.recs
    ensures var r := if FOREGND in fs then t else if NOTIFY in fs || notify then (if STOPPED in fs then t else Flush(t, l))
                     else SetFlags(t, l, R(t, l).flags + {NEEDNOTE});
      q in r.recs && Leader(r, q) == Leader(t, q) && (Leader(t, q) != l ==> r.recs[q] == t.recs[q]) &&
      R(r, q).flags - {NEEDNOTE} == R(t, q).flags - {NEEDNOTE} &&
      R(r, q).pid == (if Gone(fs, notify) && Leader(t, q) == l then 0 else R(t, q).pid)
  {
    FlushShape(t, l);
  }

  lemma SettledNote(t: Table, l: Process, fs: set<Flag>, notify: bool, q: Process)
    requires q in t.recs && Leader(t, l) == l && l in t.recs
    ensures var r := Settle(t, l, fs, notify);
      NEEDNOTE in R(r, q).flags <==>
        (q == l && Noticed(fs, notify)) || (NEEDNOTE in R(t, q).flags && !(Gone(fs, notify) && Leader(t, q) == l))
  {
    var t1 := t.(recs := OnJob(t, l, ReportedRec));
    var t2 := if STOPPED in fs then MakeCurrent(t1, l) else ClearCurrent(t1, l);
    assert t2.recs == t1.recs && t2.home == t.home;
    if FOREGND !in fs && (NOTIFY in fs || notify) && STOPPED !in fs {
      FlushShape(t2, l);
    }
  }

  lemma SettledPointers(t: Table, l: Process, fs: set<Flag>, notify: bool)
    requires Valid(t) && Live(t, l)
    ensures var r, t1 := Settle(t, l, fs, notify), t.(recs := OnJob(t, l, ReportedRec));
      if STOPPED in fs then
        r.current == l && r.previous == if t.current != null && t.current != l then t.current else t.previous
      else r.current == ClearCurrent(t1, l).current != l && r.previous == ClearCurrent(t1, l).previous != l
  {
    var t1 := t.(recs := OnJob(t, l, ReportedRec));
    ReportedStep(t, l);
    ClearCurrentStep(t1, l);
    if STOPPED !in fs {
      FlushShape(ClearCurrent(t1, l), l);
    }
  }

  // ---- which job the shell turns to --------------------------------------------------------------

  /** A live job other than a and b, by its leader. */
  predicate Offered(t: Table, q: Process, a: Process?, b: Process?) {
    q != a && q != b && R(t, q).pid != 0 && R(t, q).pid == R(t, q).jobid
  }

  predicate OfferedStopped(t: Table, q: Process, a: Process?, b: Process?) {
    Offered(t, q, a, b) && STOPPED in R(t, q).flags
  }

  /** r is the first stopped job on the list other than a and b, or if there is none the first job other
      than those, or if there is none nothing. */
  ghost predicate Chosen(t: Table, r: Process?, a: Process?, b: Process?) {
    if exists i :: 0 <= i < |t.procs| && OfferedStopped(t, t.procs[i], a, b) then
      exists i :: 0 <= i < |t.procs| && r == t.procs[i] && OfferedStopped(t, t.procs[i], a, b) &&
        forall j :: 0 <= j < i ==> !OfferedStopped(t, t.procs[j], a, b)
    else if exists i :: 0 <= i < |t.procs| && Offered(t, t.procs[i], a, b) then
      exists i :: 0 <= i < |t.procs| && r == t.procs[i] && Offered(t, t.procs[i], a, b) &&
        forall j :: 0 <= j < i ==> !Offered(t, t.procs[j], a, b)
    else r == null
  }

  /** xp is the first job offered among the first i processes. */
  ghost predicate FirstOf(t: Table, i: nat, pp: Process, xp: Process?)
    requires i <= |t.procs|
  {
    if xp == null then forall j :: 0 <= j < i ==> !Offered(t, t.procs[j], t.current, pp)
    else
      exists k :: 0 <= k < i && xp == t.procs[k] && Offered(t, t.procs[k], t.current, pp) &&
        forall j :: 0 <= j < k ==> !Offered(t, t.procs[j], t.current, pp)
  }

  lemma {:induction false} ChosenFrom(t: Table, i: nat, pp: Process, xp: Process?)
    requires i <= |t.procs| && FirstOf(t, i, pp, xp)
    requires forall j :: 0 <= j < i ==> !OfferedStopped(t, t.procs[j], t.current, pp)
    ensures Chosen(t, GetCurrentFrom(t, i, pp, xp), t.current, pp)
    decreases |t.procs| - i
  {
    if i < |t.procs| {
      var p := t.procs[i];
      if !OfferedStopped(t, p, t.current, pp) {
        ChosenFrom(t, i + 1, pp, if Candidate(t, p, pp) && xp == null then p else xp);
      }
    }
  }

  lemma GetCurrentChosen(t: Table, pp: Process)
    ensures Chosen(t, GetCurrent(t, pp), t.current, pp)
  {
    ChosenFrom(t, 0, pp, null);
  }

  /** The current and the previous job when l must be neither: what was previous becomes current, and
      what is missing is chosen. */
  ghost predicate Repointed(t: Table, l: Process, r: Table) {
    if t.current == l then
      (if t.previous != null then r.current == t.previous else Chosen(t, r.current, l, l)) &&
      Chosen(t, r.previous, r.current, l)
    else if t.previous == l then r.current == t.current && Chosen(t, r.previous, t.current, l)
    else r.current == t.current && r.previous == t.previous
  }

  lemma ClearCurrentRepoints(t: Table, l: Process)
    ensures Repointed(t, l, ClearCurrent(t, l))
  {
    if l == t.current {
      var t1 := t.(current := if t.previous != null then t.previous else GetCurrent(t, l));
      GetCurrentChosen(t, l);
      GetCurrentChosen(t1, l);
      ChosenAlike(t1, t, ClearCurrent(t, l).previous, t1.current, l);
    } else if l == t.previous {
      GetCurrentChosen(t, l);
    }
  }

  /** Two tables offer the same jobs other than l. */
  ghost predicate SameOffers(t: Table, u: Table, l: Process) {
    t.procs == u.procs &&
    forall q :: q in t.procs && q != l ==>
      (Leading(R(t, q)) <==> Leading(R(u, q))) &&
      (Leading(R(t, q)) ==> (STOPPED in R(t, q).flags <==> STOPPED in R(u, q).flags))
  }

  lemma ChosenAlike(t: Table, u: Table, r: Process?, a: Process?, l: Process)
    requires SameOffers(t, u, l) && Chosen(t, r, a, l)
    ensures Chosen(u, r, a, l)
  {
    forall i | 0 <= i < |t.procs|
      ensures Offered(t, t.procs[i], a, l) == Offered(u, t.procs[i], a, l)
      ensures OfferedStopped(t, t.procs[i], a, l) == OfferedStopped(u, t.procs[i], a, l)
    {
      assert t.procs[i] in t.procs;
    }
  }

  // ---- the theorems about pchild ---------------------------------------------------------------

  /** The process is in the one state the status says. */
  lemma StateReported(t: Table, p: Process, s: Status, notify: bool)
    requires Due(t, p)
    ensures var fs := R(Child(t, p, s, notify), p).flags;
      InState(fs, s) && FOREGND !in fs && (DUMPED in fs <==> DUMPED in R(t, p).flags || (s.Signalled? && s.core))
  {
    var m, r := Marked(t, p, s), Child(t, p, s, notify);
    var fs := ChildIs(t, p, s, notify);
    MarkedFlags(t, p, s);
    if !Unfinished(t, p) {
      LeaderKept(t, p, s);
      SettledRecord(m, Leader(t, p), fs, notify, p);
      MarksApart(R(m, p).flags, R(r, p).flags, s);
    }
  }

  lemma MarksApart(fs: set<Flag>, gs: set<Flag>, s: Status)
    requires gs - {REPORTED, NEEDNOTE} == fs - {REPORTED, NEEDNOTE} && InState(fs, s)
    ensures InState(gs, s) && (FOREGND in gs <==> FOREGND in fs) && (DUMPED in gs <==> DUMPED in fs)
  {
    Unmarked(fs);
    Unmarked(gs);
  }

  lemma Unmarked(fs: set<Flag>)
    ensures var gs := fs - {REPORTED, NEEDNOTE};
      fs * STATES == gs * STATES && (FOREGND in gs <==> FOREGND in fs) && (DUMPED in gs <==> DUMPED in fs)
  {
  }

  /** Exactly one flag tells how the process is. */
  predicate InState(fs: set<Flag>, s: Status) {
    match s
    case Stopped => fs * STATES == {STOPPED}
    case Exited(code) => fs * STATES == if code == 0 then {NEXITED} else {AEXITED}
    case Signalled(interrupt, _) => fs * STATES == if interrupt then {INTERRUPTED} else {SIGNALED}
  }

  lemma LeaderKept(t: Table, p: Process, s: Status)
    requires Due(t, p)
    ensures var l, m := Leader(t, p), Marked(t, p, s);
      l in m.recs && Leader(m, l) == l && p in m.recs && m.recs.Keys == t.recs.Keys && m.home == t.home &&
      forall q :: q in t.recs && q != p ==> m.recs[q] == t.recs[q]
  {
    LeaderLive(t, p);
    ValidMeans(t);
  }

  lemma MarkedFlags(t: Table, p: Process, s: Status)
    requires Due(t, p)
    ensures var fs := R(Marked(t, p, s), p).flags;
      InState(fs, s) && FOREGND !in fs && (DUMPED in fs <==> DUMPED in R(t, p).flags || (s.Signalled? && s.core))
  {
    var was := R(t, p).flags;
    OneStateOf(t, p);
    NewFlagsState(was, s);
    FlagsOfStatus(was, s);
    SameStates(NewFlags(was, s), NewFlags(was, s) - {FOREGND});
  }

  lemma NewFlagsState(was: set<Flag>, s: Status)
    requires OneState(was) && (RUNNING in was || STOPPED in was)
    ensures InState(NewFlags(was, s), s)
  {
    StateIs(was, if RUNNING in was then RUNNING else STOPPED);
    StatesReplaced(was, StatusFlags(s));
    StatusOne(s);
  }

  lemma SameStates(fs: set<Flag>, gs: set<Flag>)
    requires fs - {REPORTED, NEEDNOTE, FOREGND} == gs - {REPORTED, NEEDNOTE, FOREGND}
    ensures fs * STATES == gs * STATES && (DUMPED in fs <==> DUMPED in gs)
  {
    OutsideThose(fs);
    OutsideThose(gs);
  }

  lemma OutsideThose(fs: set<Flag>)
    ensures var gs := fs - {REPORTED, NEEDNOTE, FOREGND}; fs * STATES == gs * STATES && (DUMPED in fs <==> DUMPED in gs)
  {
  }

  /** While a process of the job is running, or once the job has been reported, nothing changes but the
      flags of the process. */
  lemma JobGoesOn(t: Table, p: Process, s: Status, notify: bool)
    requires Due(t, p) && Unfinished(t, p)
    ensures var r := Child(t, p, s, notify);
      p in r.recs && r == t.(recs := t.recs[p := t.recs[p].(flags := R(r, p).flags)])
  {
    var fs := ChildIs(t, p, s, notify);
  }

  /** A job that is stopped becomes the current one, and the one that was current the previous one. It is
      still there, and those of its processes that are stopped have been reported. */
  lemma JobStops(t: Table, p: Process, s: Status, notify: bool)
    requires Due(t, p) && !Unfinished(t, p) && Halted(t, p, s)
    ensures var r, l := Child(t, p, s, notify), Leader(t, p);
      r.current == l && r.previous == (if t.current != null && t.current != l then t.current else t.previous) &&
      (forall q :: q in t.recs ==> q in r.recs && R(r, q).pid == R(t, q).pid) &&
      (forall q :: q in t.recs && Leader(t, q) == l && STOPPED in R(r, q).flags ==> REPORTED in R(r, q).flags)
  {
    var fs := ChildIs(t, p, s, notify);
    var m, l, r := Marked(t, p, s), Leader(t, p), Child(t, p, s, notify);
    LeaderKept(t, p, s);
    SettledPointers(m, l, fs, notify);
    forall q | q in t.recs
      ensures q in r.recs && R(r, q).pid == R(t, q).pid
      ensures Leader(t, q) == l && STOPPED in R(r, q).flags ==> REPORTED in R(r, q).flags
    {
      SettledRecord(m, l, fs, notify, q);
      if STOPPED in R(r, q).flags {
        SameStates(R(m, q).flags, R(r, q).flags);
        assert STOPPED in R(r, q).flags * STATES;
      }
    }
  }

  /** A job at an end is flushed, all of it, exactly if it is in the background and is told about at once;
      then and otherwise the current and the previous job are found anew if it was one of them. */
  lemma JobEnds(t: Table, p: Process, s: Status, notify: bool)
    requires Due(t, p) && !Unfinished(t, p) && !Halted(t, p, s)
    ensures var r, l := Child(t, p, s, notify), Leader(t, p);
      Repointed(t, l, r) && r.current != l && r.previous != l &&
      var gone := !Somewhere(t, p, FOREGND) && (Somewhere(t, p, NOTIFY) || notify);
      forall q :: q in t.recs ==> q in r.recs && R(r, q).pid == if gone && Leader(t, q) == l then 0 else R(t, q).pid
  {
    var fs := ChildIs(t, p, s, notify);
    var m, l, r := Marked(t, p, s), Leader(t, p), Child(t, p, s, notify);
    LeaderKept(t, p, s);
    SettledPointers(m, l, fs, notify);
    forall q | q in t.recs
      ensures q in r.recs && R(r, q).pid ==
        if !Somewhere(t, p, FOREGND) && (Somewhere(t, p, NOTIFY) || notify) && Leader(t, q) == l then 0 else R(t, q).pid
    {
      SettledRecord(m, l, fs, notify, q);
    }
    PointersAlike(t, p, s, r);
  }

  /** The choice is the same in the table before, but for p, which leads no other job. */
  lemma PointersAlike(t: Table, p: Process, s: Status, r: Table)
    requires Due(t, p)
    requires var l, m := Leader(t, p), Marked(t, p, s);
      var m1 := m.(recs := OnJob(m, l, ReportedRec));
      r.current == ClearCurrent(m1, l).current && r.previous == ClearCurrent(m1, l).previous
    ensures Repointed(t, Leader(t, p), r)
  {
    var l, m := Leader(t, p), Marked(t, p, s);
    var m1 := m.(recs := OnJob(m, l, ReportedRec));
    var c := ClearCurrent(m1, l);
    ClearCurrentRepoints(m1, l);
    MarkedOffers(t, p, s);
    if t.current == l {
      if t.previous == null {
        ChosenAlike(m1, t, c.current, l, l);
      }
      ChosenAlike(m1, t, c.previous, c.current, l);
    } else if t.previous == l {
      ChosenAlike(m1, t, c.previous, t.current, l);
    }
  }

  lemma MarkedOffers(t: Table, p: Process, s: Status)
    requires Due(t, p)
    ensures var l, m := Leader(t, p), Marked(t, p, s);
      SameOffers(m.(recs := OnJob(m, l, ReportedRec)), t, l)
  {
    var l, m := Leader(t, p), Marked(t, p, s);
    var m1 := m.(recs := OnJob(m, l, ReportedRec));
    ValidMeans(t);
    LeaderKept(t, p, s);
    forall q | q in t.procs && q != l
      ensures Leading(R(m1, q)) <==> Leading(R(t, q))
      ensures Leading(R(t, q)) ==> (STOPPED in R(m1, q).flags <==> STOPPED in R(t, q).flags)
    {
      if q in t.recs {
        if q == p && Leading(R(t, q)) {
          LeadingLive(t, p);
          assert false;
        }
      }
    }
  }

  /** The leader needs a note exactly if the job is in the background and is not told about at once, or if
      it needed one and has not been flushed. */
  lemma NoteNeeded(t: Table, p: Process, s: Status, notify: bool, q: Process)
    requires Due(t, p) && !Unfinished(t, p) && q in t.recs
    ensures var r, l := Child(t, p, s, notify), Leader(t, p);
      var now := Somewhere(t, p, NOTIFY) || notify;
      NEEDNOTE in R(r, q).flags <==>
        (q == l && !Somewhere(t, p, FOREGND) && !now) ||
        (NEEDNOTE in R(t, q).flags && !(Leader(t, q) == l && !Halted(t, p, s) && !Somewhere(t, p, FOREGND) && now))
  {
    var fs := ChildIs(t, p, s, notify);
    LeaderKept(t, p, s);
    SettledNote(Marked(t, p, s), Leader(t, p), fs, notify, q);
    MarkedNote(t, p, s);
  }

  lemma MarkedNote(t: Table, p: Process, s: Status)
    requires Due(t, p)
    ensures NEEDNOTE in R(Marked(t, p, s), p).flags <==> NEEDNOTE in R(t, p).flags
  {
    StatusTellsNothing(s);
  }

  /** No other job is touched. */
  lemma OthersUntouched(t: Table, p: Process, s: Status, notify: bool, q: Process)
    requires Due(t, p) && q in t.recs && Leader(t, q) != Leader(t, p)
    ensures var r := Child(t, p, s, notify); q in r.recs && r.recs[q] == t.recs[q]
  {
    var fs := ChildIs(t, p, s, notify);
    LeaderKept(t, p, s);
    if !Unfinished(t, p) {
      SettledRecord(Marked(t, p, s), Leader(t, p), fs, notify, q);
    }
  }

  // ---- starting, building and noting jobs -------------------------------------------------------

  /** Starting a job makes its processes that are not at an end run, in the foreground or not, and changes
      no other record; in the background the job is neither current nor previous any more. */
  lemma JobStarts(t: Table, l: Process, foreground: bool, q: Process)
    requires Valid(t) && Live(t, l) && q in t.recs
    ensures var r := Start(t, l, foreground);
      q in r.recs && r.recs[q] == t.recs[q].(flags := R(r, q).flags) &&
      if Leader(t, q) == l && (RUNNING in R(t, q).flags || STOPPED in R(t, q).flags) then
        RUNNING in R(r, q).flags && STOPPED !in R(r, q).flags && (FOREGND in R(r, q).flags <==> foreground) &&
        forall f :: f != RUNNING && f != STOPPED && f != FOREGND ==> (f in R(r, q).flags <==> f in R(t, q).flags)
      else R(r, q).flags == R(t, q).flags
  {
  }

  lemma StartPoints(t: Table, l: Process, foreground: bool)
    requires Valid(t) && Live(t, l)
    ensures var r := Start(t, l, foreground);
      if foreground then r.current == t.current && r.previous == t.previous else Repointed(t, l, r)
  {
    var t1 := t.(recs := OnJob(t, l, Starter(foreground)));
    if !foreground {
      var c := ClearCurrent(t1, l);
      ClearCurrentRepoints(t1, l);
      StartedOffers(t, l, foreground);
      if t.current == l {
        if t.previous == null {
          ChosenAlike(t1, t, c.current, l, l);
        }
        ChosenAlike(t1, t, c.previous, c.current, l);
      } else if t.previous == l {
        ChosenAlike(t1, t, c.previous, t.current, l);
      }
    }
  }

  lemma StartedOffers(t: Table, l: Process, foreground: bool)
    requires Valid(t) && Live(t, l)
    ensures SameOffers(t.(recs := OnJob(t, l, Starter(foreground))), t, l)
  {
    ValidMeans(t);
    var t1 := t.(recs := OnJob(t, l, Starter(foreground)));
    forall q | q in t.procs && q != l
      ensures Leading(R(t1, q)) <==> Leading(R(t, q))
      ensures Leading(R(t, q)) ==> (STOPPED in R(t1, q).flags <==> STOPPED in R(t, q).flags)
    {
      if q in t.recs && Leading(R(t, q)) {
        LeadingLive(t, q);
        assert Leader(t, q) == q;
      }
    }
  }

  /** A new job: its one process, its index, and which pointers it fills. */
  lemma NewJob(t: Table, p: Process, pid: nat, background: bool)
    requires Valid(t) && Fresh(t, p, pid)
    ensures var r := AllocLeader(t, p, pid, background);
      r.procs == [p] + t.procs && r.building == p && p in r.recs && r.recs[p].friends == p &&
      R(r, p).pid == R(r, p).jobid == pid && R(r, p).flags == (if background then {RUNNING} else {RUNNING, FOREGND}) &&
      (forall q :: q in t.recs && q != p ==> q in r.recs && r.recs[q] == t.recs[q])
    ensures var r := AllocLeader(t, p, pid, background);
      if t.maxIndex < 9 then R(r, p).index == t.maxIndex + 1
      else R(r, p).index > 0 && Unused(t, R(r, p).index) && forall j :: 1 <= j < R(r, p).index ==> !Unused(t, j)
    ensures var r := AllocLeader(t, p, pid, background);
      r.maxIndex >= t.maxIndex && r.maxIndex >= R(r, p).index && (r.maxIndex == t.maxIndex || r.maxIndex == R(r, p).index)
    ensures var r := AllocLeader(t, p, pid, background);
      if t.current == null then r.current == p && r.previous == t.previous
      else r.current == t.current && r.previous == if t.previous == null then p else t.previous
  {
    ValidMeans(t);
    NewIndexUnused(t);
    FreeFrom(t, 1, |t.procs| + 1);
    FreeAtMost(t, 1, |t.procs| + 1);
  }

  /** A process that joins a job: the flags it has. */
  lemma NewMember(t: Table, p: Process, pid: nat, background: bool)
    requires Valid(t) && Fresh(t, p, pid) && t.building != null && Ring(t, t.building) != []
    ensures var r := AllocFriend(t, p, pid, background);
      r.procs == [p] + t.procs && p in r.recs && R(r, p).pid == pid && R(r, p).jobid == R(t, t.building).pid &&
      R(r, p).index == R(t, t.building).index && R(r, p).flags == (if background then {RUNNING} else {RUNNING, FOREGND}) &&
      r.current == t.current && r.previous == t.previous && r.building == t.building
  {
  }

  /** Once a job has been told about it is flushed exactly if none of its processes runs or is stopped. */
  lemma JobNoted(t: Table, p: Process, q: Process)
    requires Valid(t) && p in t.recs && NEEDNOTE in R(t, p).flags && q in t.recs
    ensures var r, l := Noted(t, p), Leader(t, p);
      var over := !Somewhere(t, p, RUNNING) && !Somewhere(t, p, STOPPED);
      NEEDNOTE !in R(r, p).flags && q in r.recs && R(r, q).pid == if over && Leader(t, q) == l then 0 else R(t, q).pid
  {
    var fs, l := R(t, p).flags - {NEEDNOTE}, Leader(t, p);
    NotedStep(t, p);
    FlagsOfJob(t, p, fs, RUNNING);
    FlagsOfJob(t, p, fs, STOPPED);
    FlushShape(SetFlags(t, p, fs), l);
  }

  // The steps of a run are the operations these laws and the job table's methods are about.

  lemma WaitIs(t: Table, p: Process, s: Status, notify: bool)
    ensures Apply(t, Wait(p, s, notify)) == Child(t, p, s, notify)
  {
  }

  lemma StartJobIs(t: Table, l: Process, foreground: bool)
    ensures Apply(t, StartJob(l, foreground)) == Start(t, l, foreground)
  {
  }

  lemma FlushJobIs(t: Table, l: Process)
    ensures Apply(t, FlushJob(l)) == Flush(t, l)
  {
  }

  lemma NoteIs(t: Table, p: Process)
    requires p in t.recs
    ensures Apply(t, Note(p)) == Noted(t, p)
  {
  }

  /** Asking for a notice marks the job's leader and changes nothing else. */
  lemma JobMarked(t: Table, l: Process, q: Process)
    requires Valid(t) && Live(t, l) && q in t.recs
    ensures var r := Apply(t, Notify(l));
      q in r.recs && r.recs[q].(flags := t.recs[q].flags) == t.recs[q] &&
      (forall f :: f in R(r, q).flags <==> f in R(t, q).flags || (q == l && f == NOTIFY)) &&
      r.(recs := t.recs) == t
  {
    NotifyStep(t, l);
  }

  /** A sweep keeps the order of the processes it leaves. */
  lemma {:induction false} SweptOrder(procs: seq<Process>, recs: map<Process, Rec>, i: nat, j: nat) returns (a: nat, b: nat)
    requires i < j < |Swept(procs, recs)|
    ensures a < b < |procs| && Swept(procs, recs)[i] == procs[a] && Swept(procs, recs)[j] == procs[b]
    decreases |procs|
  {
    var n := |procs| - 1;
    var front := Swept(procs[..n], recs);
    if j < |front| {
      a, b := SweptOrder(procs[..n], recs, i, j);
    } else {
      a := SweptFrom(procs[..n], recs, i);
      b := n;
    }
  }

  lemma {:induction false} SweptFrom(procs: seq<Process>, recs: map<Process, Rec>, i: nat) returns (a: nat)
    requires i < |Swept(procs, recs)|
    ensures a < |procs| && Swept(procs, recs)[i] == procs[a]
    decreases |procs|
  {
    var n := |procs| - 1;
    if i < |Swept(procs[..n], recs)| {
      a := SweptFrom(procs[..n], recs, i);
    } else {
      a := n;
    }
  }
}
