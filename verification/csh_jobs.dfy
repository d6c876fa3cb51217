/** csh's job table as a value, the steps that change it, and what every step keeps. */
module CshJobs {

  datatype Flag =
    | RUNNING | STOPPED | NEXITED | AEXITED | SIGNALED | INTERRUPTED
    | NOTIFY | FOREGND | DUMPED | REPORTED | NEEDNOTE

  /** `struct process`; `proclist` itself is a list of these. */
  class Process {
    var friends: Process
    var flags: set<Flag>
    var index: nat
    var pid: nat
    var jobid: nat

    constructor (id: nat, fs: set<Flag>)
      ensures friends == this && pid == id && flags == fs && index == 0 && jobid == 0
    {
      friends, pid, flags, index, jobid := this, id, fs, 0, 0;
    }
  }

  /** The fields of a process. */
  datatype Rec = Rec(friends: Process, flags: set<Flag>, index: nat, pid: nat, jobid: nat)

  datatype Home = Home(leader: Process, at: nat)

  datatype Table = Table(
    /** `proclist`, the newest process first */
    procs: seq<Process>,
    recs: map<Process, Rec>,
    /** `pcurrjob`, `pcurrent`, `pprevious` and `pmaxindex` */
    building: Process?,
    current: Process?,
    previous: Process?,
    maxIndex: nat,
    /** for every job its processes, the leader first, and for every process its place there */
    jobs: map<Process, seq<Process>>,
    home: map<Process, Home>)

  function R(t: Table, p: Process): Rec { if p in t.recs then t.recs[p] else Rec(p, {}, 0, 0, 0) }

  function Leader(t: Table, p: Process): Process { if p in t.home then t.home[p].leader else p }

  function Ring(t: Table, l: Process): seq<Process> { if l in t.jobs then t.jobs[l] else [] }

  /** The next one in the ring, behind the last the first. */
  function Next(ring: seq<Process>, i: nat): Process
    requires i < |ring|
  {
    ring[if i + 1 == |ring| then 0 else i + 1]
  }

  // ---- what holds in every table -------------------------------------------------------

  ghost predicate Distinct(procs: seq<Process>) {
    forall i, j :: 0 <= i < j < |procs| ==> procs[i] != procs[j]
  }

  ghost predicate Listed(t: Table) {
    (forall p :: p in t.recs ==> p in t.procs) && (forall i :: 0 <= i < |t.procs| ==> t.procs[i] in t.recs) &&
    t.home.Keys == t.recs.Keys
  }

  /** Every process is where its home says. */
  ghost predicate Placed(home: map<Process, Home>, jobs: map<Process, seq<Process>>) {
    forall p :: p in home ==>
      home[p].leader in jobs && home[p].at < |jobs[home[p].leader]| && jobs[home[p].leader][home[p].at] == p
  }

  /** Every place of a job is the home of the process there; the leader comes first. */
  ghost predicate Homes(home: map<Process, Home>, jobs: map<Process, seq<Process>>) {
    forall l :: l in jobs ==> HomesOf(home, l, jobs[l])
  }

  ghost predicate HomesOf(home: map<Process, Home>, l: Process, ring: seq<Process>) {
    |ring| > 0 && ring[0] == l && forall i :: 0 <= i < |ring| ==> ring[i] in home && home[ring[i]] == Home(l, i)
  }

  /** The processes of the list are those of the jobs, each in one place of one job. */
  ghost predicate Housed(t: Table) {
    Distinct(t.procs) && Listed(t) && Placed(t.home, t.jobs) && Homes(t.home, t.jobs)
  }

  /** The friends of each job make one ring. */
  ghost predicate Ringed(t: Table)
    requires Housed(t)
  {
    forall p :: p in t.recs ==> t.recs[p].friends == Next(t.jobs[t.home[p].leader], t.home[p].at)
  }

  /** A process of a live job, and one of a flushed job. */
  predicate Member(r: Rec, leader: Rec) {
    if leader.pid == 0 then r.pid == 0 && r.index == 0
    else r.pid != 0 && r.jobid == leader.pid && r.index == leader.index != 0
  }

  /** The shape of the lists, said under a quantifier so that proofs only look inside a table
      they name. */
  ghost predicate Shaped(t: Table) {
    forall u {:trigger Peek(u)} :: u == t && Peek(u) ==> Housed(u) && Ringed(u)
  }

  ghost predicate Peek(t: Table) { true }

  lemma ShapedMeans(t: Table)
    ensures Shaped(t) <==> Housed(t) && Ringed(t)
  {
    assert Peek(t);
  }

  ghost predicate LeadersListed(t: Table) {
    forall p {:trigger Leader(t, p)} :: p in t.recs ==> Leader(t, p) in t.recs && Leader(t, p) in t.jobs
  }

  ghost predicate LeadersLead(t: Table) {
    forall l :: l in t.jobs ==> l in t.recs && Leader(t, l) == l
  }

  /** Leaders are processes of the list, and lead their own jobs. */
  ghost predicate Grounded(t: Table) {
    (forall i :: 0 <= i < |t.procs| ==> t.procs[i] in t.recs) && LeadersListed(t) && LeadersLead(t)
  }

  /** All processes of a job are live, under the leader's pid and index, or none is. */
  ghost predicate Members(t: Table) {
    forall p {:trigger Leader(t, p)} :: p in t.recs ==> Member(t.recs[p], R(t, Leader(t, p)))
  }

  ghost predicate PidsDiffer(t: Table) {
    forall p, q :: p in t.recs && q in t.recs && t.recs[p].pid == t.recs[q].pid != 0 ==> p == q
  }

  ghost predicate IndicesDiffer(t: Table) {
    forall p, q :: p in t.jobs && q in t.jobs && R(t, p).index == R(t, q).index != 0 ==> p == q
  }

  ghost predicate Indexed(t: Table) { Members(t) && PidsDiffer(t) && IndicesDiffer(t) }

  predicate Live(t: Table, l: Process?) {
    l != null && l in t.jobs && R(t, l).pid != 0
  }

  predicate LiveOrNull(t: Table, l: Process?) { l == null || Live(t, l) }

  /** The current and the previous job are two live jobs, or missing, the current one last. */
  predicate Pointed(t: Table) {
    LiveOrNull(t, t.building) && LiveOrNull(t, t.current) && LiveOrNull(t, t.previous) &&
    (t.current == null ==> t.previous == null) && (t.current != null ==> t.current != t.previous)
  }

  const STATES: set<Flag> := {RUNNING, STOPPED, NEXITED, AEXITED, SIGNALED, INTERRUPTED}

  predicate OneState(fs: set<Flag>) { |fs * STATES| == 1 }

  /** Every process is in one state, and nothing is to be told any more about a flushed one. */
  ghost predicate Stated(t: Table) {
    forall p :: p in t.recs ==> OneState(t.recs[p].flags) && (t.recs[p].pid == 0 ==> NEEDNOTE !in t.recs[p].flags)
  }

  /** The largest index in use. */
  function MaxIndex(procs: seq<Process>, recs: map<Process, Rec>): nat
    decreases |procs|
  {
    if procs == [] then 0
    else
      var n := |procs| - 1;
      var m := MaxIndex(procs[..n], recs);
      if procs[n] in recs && recs[procs[n]].index > m then recs[procs[n]].index else m
  }

  ghost predicate Sound(t: Table) {
    Shaped(t) && Grounded(t) && Indexed(t) && Pointed(t) && Stated(t) &&
    t.maxIndex == MaxIndex(t.procs, t.recs)
  }

  /** What holds in every table, hidden like the shape. */
  ghost predicate Valid(t: Table) {
    forall u {:trigger Peek(u)} :: u == t && Peek(u) ==> Sound(u)
  }

  lemma ValidMeans(t: Table)
    ensures Valid(t) <==> Sound(t)
  {
    assert Peek(t);
  }

  // ---- the steps -----------------------------------------------------------------------

  /** A job `pgetcurr(pp)` may return. */
  predicate Candidate(t: Table, p: Process, pp: Process) {
    p != t.current && p != pp && R(t, p).pid != 0 && R(t, p).pid == R(t, p).jobid
  }

  /** The first stopped candidate from i on, or else xp, or else the first candidate. */
  function GetCurrentFrom(t: Table, i: nat, pp: Process, xp: Process?): Process?
    requires i <= |t.procs|
    decreases |t.procs| - i
  {
    if i == |t.procs| then xp
    else
      var p := t.procs[i];
      if Candidate(t, p, pp) then
        if STOPPED in R(t, p).flags then p
        else GetCurrentFrom(t, i + 1, pp, if xp == null then p else xp)
      else GetCurrentFrom(t, i + 1, pp, xp)
  }

  /** `pgetcurr(pp)` */
  function GetCurrent(t: Table, pp: Process): Process? {
    GetCurrentFrom(t, 0, pp, null)
  }

  /** `pclrcurr(pp)` */
  function ClearCurrent(t: Table, pp: Process): (r: Table)
    ensures r == t.(current := r.current, previous := r.previous)
  {
    if pp == t.current then
      if t.previous != null then
        var t1 := t.(current := t.previous);
        t1.(previous := GetCurrent(t1, pp))
      else
        var t1 := t.(current := GetCurrent(t, pp));
        t1.(previous := GetCurrent(t1, pp))
    else if pp == t.previous then t.(previous := GetCurrent(t, pp))
    else t
  }

  function FlushedRec(r: Rec): Rec { r.(index := 0, pid := 0, flags := r.flags - {NEEDNOTE}) }

  /** The records with f applied to the processes of one job. */
  function OnJob(t: Table, l: Process, f: Rec -> Rec): map<Process, Rec> {
    map p | p in t.recs :: if Leader(t, p) == l then f(t.recs[p]) else t.recs[p]
  }

  /** `pflush`, for the leader of a live job. */
  function Flush(t: Table, l: Process): Table {
    var t1 := ClearCurrent(t, l);
    var recs := OnJob(t, l, FlushedRec);
    t1.(building := if t.building == l then null else t.building, recs := recs,
        maxIndex := if R(t, l).index == t.maxIndex then MaxIndex(t.procs, recs) else t.maxIndex)
  }

  function StartedRec(r: Rec, foreground: bool): Rec {
    if RUNNING in r.flags || STOPPED in r.flags then
      var fs := r.flags - {STOPPED} + {RUNNING};
      r.(flags := if foreground then fs + {FOREGND} else fs - {FOREGND})
    else r
  }

  function Starter(foreground: bool): Rec -> Rec { (r: Rec) => StartedRec(r, foreground) }

  /** `pstart(l, foreground)` */
  function Start(t: Table, l: Process, foreground: bool): Table {
    var t1 := t.(recs := OnJob(t, l, Starter(foreground)));
    if foreground then t1 else ClearCurrent(t1, l)
  }

  /** What wait3 reports about a process. */
  datatype Status = Stopped | Signalled(interrupt: bool, core: bool) | Exited(code: nat)

  function StatusFlags(s: Status): set<Flag> {
    match s
    case Stopped => {STOPPED}
    case Signalled(interrupt, core) => {if interrupt then INTERRUPTED else SIGNALED} + (if core then {DUMPED} else {})
    case Exited(code) => if code != 0 then {AEXITED} else {NEXITED}
  }

  function NewFlags(fs: set<Flag>, s: Status): set<Flag> {
    fs - {RUNNING, STOPPED, REPORTED} + StatusFlags(s)
  }

  /** All the flags of a job's processes. */
  function JobFlags(t: Table, ring: seq<Process>): set<Flag>
    decreases |ring|
  {
    if ring == [] then {} else JobFlags(t, ring[..|ring| - 1]) + R(t, ring[|ring| - 1]).flags
  }

  function ReportedRec(r: Rec): Rec { if STOPPED in r.flags then r.(flags := r.flags + {REPORTED}) else r }

  /** A stopped job becomes the current one. */
  function MakeCurrent(t: Table, l: Process): Table {
    t.(previous := if t.current != null && t.current != l then t.current else t.previous, current := l)
  }

  function SetFlags(t: Table, p: Process, fs: set<Flag>): Table {
    t.(recs := t.recs[p := R(t, p).(flags := fs)])
  }

  /** The end of a turn of `pchild`: no process of the job is running, and it is noted or
      reported, now or later; a job reported as finished is flushed. */
  function Settle(t: Table, l: Process, fs: set<Flag>, notify: bool): Table {
    var t1 := t.(recs := OnJob(t, l, ReportedRec));
    var t2 := if STOPPED in fs then MakeCurrent(t1, l) else ClearCurrent(t1, l);
    if FOREGND in fs then t2
    else if NOTIFY in fs || notify then if STOPPED in fs then t2 else Flush(t2, l)
    else SetFlags(t2, l, R(t2, l).flags + {NEEDNOTE})
  }

  /** `pchild` when wait3 reports the status s of p. */
  function Child(t: Table, p: Process, s: Status, notify: bool): Table {
    var l := Leader(t, p);
    var t1 := SetFlags(t, p, NewFlags(R(t, p).flags, s));
    var fs := JobFlags(t1, Ring(t, l));
    var t2 := SetFlags(t1, p, R(t1, p).flags - {FOREGND});
    if RUNNING in fs || REPORTED in fs then t2 else Settle(t2, l, fs, notify)
  }

  /** No process of the list has index i. */
  predicate Unused(t: Table, i: nat) {
    forall p :: p in t.procs ==> R(t, p).index != i
  }

  const BIGINDEX := 9

  /** The smallest index from i on that is not in use, if it is at most n. */
  function FreeIndex(t: Table, i: nat, n: nat): nat
    decreases n - i
  {
    if i >= n || Unused(t, i) then i else FreeIndex(t, i + 1, n)
  }

  /** The index of a new job. */
  function NewIndex(t: Table): nat {
    if t.maxIndex < BIGINDEX then t.maxIndex + 1 else FreeIndex(t, 1, |t.procs| + 1)
  }

  function RunningFlags(background: bool): set<Flag> {
    if background then {RUNNING} else {RUNNING, FOREGND}
  }

  /** `palloc` for a process that starts a job. */
  function AllocLeader(t: Table, p: Process, pid: nat, background: bool): Table {
    var i := NewIndex(t);
    Table([p] + t.procs, t.recs[p := Rec(p, RunningFlags(background), i, pid, pid)], p,
          if t.current == null then p else t.current,
          if t.current != null && t.previous == null then p else t.previous,
          if i > t.maxIndex then i else t.maxIndex,
          t.jobs[p := [p]], t.home[p := Home(p, 0)])
  }

  /** `palloc` for a process that joins the job being built. */
  function AllocFriend(t: Table, p: Process, pid: nat, background: bool): Table
    requires t.building != null && Ring(t, t.building) != []
  {
    var l := t.building;
    var ring := Ring(t, l);
    var last := ring[|ring| - 1];
    t.(procs := [p] + t.procs,
       recs := t.recs[last := R(t, last).(friends := p)]
                     [p := Rec(l, RunningFlags(background), R(t, l).index, pid, R(t, l).pid)],
       jobs := t.jobs[l := ring + [p]], home := t.home[p := Home(l, |ring|)])
  }

  /** The list without the processes that have been flushed. */
  function Swept(procs: seq<Process>, recs: map<Process, Rec>): seq<Process>
    decreases |procs|
  {
    if procs == [] then []
    else
      var n := |procs| - 1;
      var rest := Swept(procs[..n], recs);
      if procs[n] in recs && recs[procs[n]].pid == 0 then rest else rest + [procs[n]]
  }

  /** The sweep at the start of `pwait`. */
  function Sweep(t: Table): Table {
    t.(procs := Swept(t.procs, t.recs),
       recs := map p | p in t.recs && t.recs[p].pid != 0 :: t.recs[p],
       home := map p | p in t.home && R(t, p).pid != 0 :: t.home[p],
       jobs := map l | l in t.jobs && R(t, l).pid != 0 :: t.jobs[l])
  }

  // ---- the pointers --------------------------------------------------------------------

  /** Only leaders have their job's pid. */
  ghost predicate Leads(t: Table) {
    forall i :: 0 <= i < |t.procs| && Leading(R(t, t.procs[i])) ==> Live(t, t.procs[i])
  }

  predicate Leading(r: Rec) { r.pid != 0 && r.pid == r.jobid }

  lemma AllLead(t: Table)
    requires Grounded(t) && Indexed(t)
    ensures Leads(t)
  {
    forall i | 0 <= i < |t.procs| && Leading(R(t, t.procs[i])) ensures Live(t, t.procs[i]) {
      LeadingLive(t, t.procs[i]);
    }
  }

  lemma LeadingLive(t: Table, p: Process)
    requires Grounded(t) && Members(t) && PidsDiffer(t) && p in t.recs && Leading(R(t, p))
    ensures Live(t, p)
  {
    assert Member(t.recs[p], R(t, Leader(t, p)));
  }

  /** `pgetcurr` finds a live job other than pp and the current one. */
  lemma {:induction false} GetCurrentFacts(t: Table, i: nat, pp: Process, xp: Process?)
    requires Leads(t) && i <= |t.procs| && (xp != null ==> Live(t, xp) && Candidate(t, xp, pp))
    ensures var r := GetCurrentFrom(t, i, pp, xp);
      (r != null ==> Live(t, r) && Candidate(t, r, pp)) && (xp != null ==> r != null)
    decreases |t.procs| - i
  {
    if i < |t.procs| {
      var p := t.procs[i];
      GetCurrentFacts(t, i + 1, pp, if Candidate(t, p, pp) && xp == null then p else xp);
    }
  }

  /** If it finds nothing there is no other job but those two. */
  lemma {:induction false} GetCurrentNone(t: Table, i: nat, pp: Process)
    requires Leads(t) && i <= |t.procs| && GetCurrentFrom(t, i, pp, null) == null
    ensures forall j :: i <= j < |t.procs| ==> !Candidate(t, t.procs[j], pp)
    decreases |t.procs| - i
  {
    if i < |t.procs| {
      var p := t.procs[i];
      if Candidate(t, p, pp) {
        GetCurrentFacts(t, i + 1, pp, p);
      } else {
        GetCurrentNone(t, i + 1, pp);
      }
    }
  }

  lemma {:induction false} GetCurrentNothing(t: Table, i: nat, pp: Process)
    requires i <= |t.procs| && forall j :: i <= j < |t.procs| ==> !Candidate(t, t.procs[j], pp)
    ensures GetCurrentFrom(t, i, pp, null) == null
    decreases |t.procs| - i
  {
    if i < |t.procs| {
      GetCurrentNothing(t, i + 1, pp);
    }
  }

  /** A job is made current before it is made previous. */
  lemma PreviousLater(t: Table, pp: Process)
    requires Leads(t) && t.current == pp && GetCurrent(t, pp) == null
    ensures GetCurrent(t.(current := null), pp) == null
  {
    var t1 := t.(current := null);
    GetCurrentNone(t, 0, pp);
    forall j | 0 <= j < |t1.procs| ensures !Candidate(t1, t1.procs[j], pp) {
      assert !Candidate(t, t.procs[j], pp);
    }
    GetCurrentNothing(t1, 0, pp);
  }

  /** `pclrcurr` leaves pp neither current nor previous. */
  lemma ClearCurrentFacts(t: Table, pp: Process)
    requires Leads(t) && Pointed(t)
    ensures var r := ClearCurrent(t, pp);
      Pointed(r) && r.current != pp && r.previous != pp
  {
    if pp == t.current {
      var t1 := t.(current := if t.previous != null then t.previous else GetCurrent(t, pp));
      GetCurrentFacts(t, 0, pp, null);
      GetCurrentFacts(t1, 0, pp, null);
      if t1.current == null {
        PreviousLater(t, pp);
      }
    } else if pp == t.previous {
      GetCurrentFacts(t, 0, pp, null);
    }
  }

  // ---- the largest index ---------------------------------------------------------------

  lemma {:induction false} MaxBounds(procs: seq<Process>, recs: map<Process, Rec>, i: nat)
    requires i < |procs| && procs[i] in recs
    ensures recs[procs[i]].index <= MaxIndex(procs, recs)
    decreases |procs|
  {
    var n := |procs| - 1;
    if i < n {
      MaxBounds(procs[..n], recs, i);
    }
  }

  lemma {:induction false} MaxReached(procs: seq<Process>, recs: map<Process, Rec>) returns (i: nat)
    requires MaxIndex(procs, recs) > 0
    ensures i < |procs| && procs[i] in recs && recs[procs[i]].index == MaxIndex(procs, recs)
    decreases |procs|
  {
    var n := |procs| - 1;
    if MaxIndex(procs, recs) == MaxIndex(procs[..n], recs) {
      i := MaxReached(procs[..n], recs);
    } else {
      i := n;
    }
  }

  /** The largest index is bounded by m and, unless it is 0, in use. */
  lemma MaxIs(procs: seq<Process>, recs: map<Process, Rec>, m: nat, i: nat)
    requires forall j :: 0 <= j < |procs| && procs[j] in recs ==> recs[procs[j]].index <= m
    requires m > 0 ==> i < |procs| && procs[i] in recs && recs[procs[i]].index == m
    ensures MaxIndex(procs, recs) == m
  {
    if m > 0 {
      MaxBounds(procs, recs, i);
    }
    if MaxIndex(procs, recs) > 0 {
      var j := MaxReached(procs, recs);
    }
  }

  // ---- steps that change records only --------------------------------------------------

  /** The same processes in the same rings. */
  ghost predicate SameShape(t: Table, t1: Table) {
    t1.procs == t.procs && t1.jobs == t.jobs && t1.home == t.home && t1.recs.Keys == t.recs.Keys &&
    forall p :: p in t.recs ==> t1.recs[p].friends == t.recs[p].friends
  }

  lemma HousedKept(t: Table, t1: Table)
    requires Housed(t) && Ringed(t) && SameShape(t, t1)
    ensures Housed(t1) && Ringed(t1)
  {
  }

  lemma ShapeKept(t: Table, t1: Table)
    requires Shaped(t) && SameShape(t, t1)
    ensures Shaped(t1)
  {
    ShapedMeans(t);
    HousedKept(t, t1);
    ShapedMeans(t1);
  }

  lemma GroundKept(t: Table, t1: Table)
    requires Grounded(t) && SameShape(t, t1)
    ensures Grounded(t1)
  {
    forall p | p in t1.recs ensures Leader(t1, p) in t1.recs && Leader(t1, p) in t1.jobs {
      assert Leader(t, p) == Leader(t1, p);
    }
    forall l | l in t1.jobs ensures Leader(t1, l) == l {
      assert Leader(t, l) == l;
    }
  }

  /** Flags changed, and nothing else. */
  ghost predicate SameButFlags(t: Table, t1: Table) {
    SameShape(t, t1) && t1.maxIndex == t.maxIndex &&
    forall p :: p in t.recs ==> t1.recs[p] == t.recs[p].(flags := t1.recs[p].flags)
  }

  lemma {:induction false} SameMax(procs: seq<Process>, recs: map<Process, Rec>, recs1: map<Process, Rec>)
    requires recs.Keys == recs1.Keys && forall p :: p in recs ==> recs1[p].index == recs[p].index
    ensures MaxIndex(procs, recs1) == MaxIndex(procs, recs)
    decreases |procs|
  {
    if procs != [] {
      SameMax(procs[..|procs| - 1], recs, recs1);
    }
  }

  lemma FlagsKept(t: Table, t1: Table)
    requires Sound(t) && SameButFlags(t, t1) && Stated(t1)
    requires t1.building == t.building && t1.current == t.current && t1.previous == t.previous
    ensures Sound(t1)
  {
    ShapeKept(t, t1);
    GroundKept(t, t1);
    SameMax(t.procs, t.recs, t1.recs);
    IndexedKept(t, t1);
    LiveKept(t, t1);
  }

  lemma IndexedKept(t: Table, t1: Table)
    requires Grounded(t) && Indexed(t) && SameButFlags(t, t1)
    ensures Indexed(t1)
  {
    forall p | p in t1.recs ensures Member(t1.recs[p], R(t1, Leader(t1, p))) {
      assert Leader(t, p) in t.recs && Member(t.recs[p], R(t, Leader(t, p)));
    }
  }

  lemma LiveKept(t: Table, t1: Table)
    requires Grounded(t) && SameButFlags(t, t1)
    ensures forall l: Process? :: Live(t, l) ==> Live(t1, l)
  {
  }

  // ---- pflush --------------------------------------------------------------------------

  lemma ClearCurrentKeeps(t: Table, l: Process)
    requires Sound(t)
    ensures var r := ClearCurrent(t, l);
      Sound(r) && r.current != l && r.previous != l
  {
    AllLead(t);
    ClearCurrentFacts(t, l);
    var r := ClearCurrent(t, l);
    SameLists(t, r);
  }

  /** The invariant does not depend on which jobs are current. */
  lemma SameLists(t: Table, r: Table)
    requires Sound(t) && r == t.(building := r.building, current := r.current, previous := r.previous) && Pointed(r)
    ensures Sound(r)
  {
    ShapeKept(t, r);
    GroundKept(t, r);
    IndexedKept(t, r);
  }

  lemma StateKept(fs: set<Flag>, gs: set<Flag>)
    requires OneState(fs) && fs - gs !! STATES && gs - fs !! STATES
    ensures OneState(gs)
  {
    assert fs * STATES == gs * STATES;
  }

  lemma FlushMembers(t: Table, t1: Table, l: Process)
    requires Grounded(t) && Members(t) && l in t.jobs
    requires t1.recs == OnJob(t, l, FlushedRec) && t1.home == t.home && t1.jobs == t.jobs
    ensures Members(t1)
  {
    forall p | p in t1.recs ensures Member(t1.recs[p], R(t1, Leader(t1, p))) {
      assert Leader(t, p) in t.recs && Member(t.recs[p], R(t, Leader(t, p)));
    }
  }

  lemma FlushIndexed(t: Table, t1: Table, l: Process)
    requires Grounded(t) && Indexed(t) && l in t.jobs
    requires t1.recs == OnJob(t, l, FlushedRec) && t1.home == t.home && t1.jobs == t.jobs
    ensures Indexed(t1)
  {
    FlushMembers(t, t1, l);
    forall q | q in t.jobs ensures R(t1, q).index == if q == l then 0 else R(t, q).index {
      assert Leader(t, q) == q;
    }
  }

  lemma FlushMax(t: Table, l: Process, recs: map<Process, Rec>)
    requires Grounded(t) && Members(t) && l in t.jobs && recs == OnJob(t, l, FlushedRec) && R(t, l).pid != 0
    requires forall i :: 0 <= i < |t.procs| ==> t.procs[i] in t.recs
    requires t.maxIndex == MaxIndex(t.procs, t.recs) != R(t, l).index
    ensures MaxIndex(t.procs, recs) == t.maxIndex
  {
    forall j | 0 <= j < |t.procs| && t.procs[j] in recs ensures recs[t.procs[j]].index <= t.maxIndex {
      MaxBounds(t.procs, t.recs, j);
    }
    var i := 0;
    if t.maxIndex > 0 {
      i := MaxReached(t.procs, t.recs);
      assert Member(t.recs[t.procs[i]], R(t, Leader(t, t.procs[i])));
    }
    MaxIs(t.procs, recs, t.maxIndex, i);
  }

  lemma FlushStated(t: Table, t1: Table, l: Process)
    requires Stated(t) && t1.recs == OnJob(t, l, FlushedRec)
    ensures Stated(t1)
  {
    forall p | p in t.recs ensures OneState(FlushedRec(t.recs[p]).flags) {
      StateKept(t.recs[p].flags, FlushedRec(t.recs[p]).flags);
    }
  }

  lemma FlushShape(t: Table, l: Process)
    ensures var t1, r := ClearCurrent(t, l), Flush(t, l);
      SameShape(t, r) && r.recs == OnJob(t, l, FlushedRec) &&
      r.current == t1.current && r.previous == t1.previous && r.building == (if t.building == l then null else t.building) &&
      forall p :: p in t.recs ==> r.recs[p] == if Leader(t, p) == l then FlushedRec(t.recs[p]) else t.recs[p]
  {
  }

  lemma FlushedMax(t: Table, l: Process)
    requires Grounded(t) && Members(t) && l in t.jobs && R(t, l).pid != 0
    requires t.maxIndex == MaxIndex(t.procs, t.recs)
    ensures Flush(t, l).maxIndex == MaxIndex(t.procs, OnJob(t, l, FlushedRec))
  {
    if R(t, l).index != t.maxIndex {
      FlushMax(t, l, OnJob(t, l, FlushedRec));
    }
  }

  /** `pflush` of a live job: none of its processes is live afterwards, all others are as they
      were, and nothing points to it. */
  lemma FlushKeeps(t: Table, l: Process)
    requires Sound(t) && Live(t, l)
    ensures var r := Flush(t, l);
      Sound(r) && SameShape(t, r) && r.building != l && r.current != l && r.previous != l &&
      forall p :: p in t.recs ==> r.recs[p] == if Leader(t, p) == l then FlushedRec(t.recs[p]) else t.recs[p]
  {
    var r := Flush(t, l);
    ClearCurrentKeeps(t, l);
    FlushShape(t, l);
    ShapeKept(t, r);
    FlushPointed(t, l);
    FlushValid(t, r, l);
  }

  lemma FlushValid(t: Table, r: Table, l: Process)
    requires Sound(t) && Live(t, l) && r == Flush(t, l)
    requires Shaped(r) && Pointed(r) && SameShape(t, r) && r.recs == OnJob(t, l, FlushedRec)
    ensures Sound(r)
  {
    GroundKept(t, r);
    FlushIndexed(t, r, l);
    FlushStated(t, r, l);
    FlushedMax(t, l);
  }

  lemma FlushPointed(t: Table, l: Process)
    requires Grounded(t) && Pointed(ClearCurrent(t, l))
    requires ClearCurrent(t, l).current != l && ClearCurrent(t, l).previous != l
    ensures Pointed(Flush(t, l))
  {
    var t1, r := ClearCurrent(t, l), Flush(t, l);
    FlushShape(t, l);
    StillLive(t, r, l, t1.current);
    StillLive(t, r, l, t1.previous);
    StillLive(t, r, l, t1.building);
  }

  lemma StillLive(t: Table, r: Table, l: Process, q: Process?)
    requires Grounded(t) && r.recs == OnJob(t, l, FlushedRec) && r.jobs == t.jobs
    ensures q != l && Live(t, q) ==> Live(r, q)
  {
    if q != l && Live(t, q) {
      assert Leader(t, q) == q;
    }
  }

  // ---- pstart and pchild ---------------------------------------------------------------

  lemma StateIs(fs: set<Flag>, a: Flag)
    requires OneState(fs) && a in fs && a in STATES
    ensures fs * STATES == {a}
  {
    OnlyOne(fs * STATES, a);
  }

  lemma OnlyOne<T>(s: set<T>, a: T)
    requires |s| == 1 && a in s
    ensures s == {a}
  {
    assert |s - {a}| == 0;
    assert s == s - {a} + {a};
  }

  lemma SubsetSize<T>(a: set<T>, b: set<T>)
    requires a <= b
    ensures |a| <= |b|
  {
    assert b == a + (b - a);
  }

  lemma RunningAgain(fs: set<Flag>)
    requires fs * STATES <= {RUNNING, STOPPED}
    ensures OneState(fs - {STOPPED} + {RUNNING})
  {
    var gs := fs - {STOPPED} + {RUNNING};
    assert gs * STATES <= fs * STATES + {RUNNING};
    assert gs * STATES == {RUNNING};
  }

  lemma StartedState(r: Rec, foreground: bool)
    requires OneState(r.flags)
    ensures OneState(StartedRec(r, foreground).flags)
  {
    if RUNNING in r.flags || STOPPED in r.flags {
      StateIs(r.flags, if RUNNING in r.flags then RUNNING else STOPPED);
      RunningAgain(r.flags);
      ForegroundKept(r.flags - {STOPPED} + {RUNNING});
    }
  }

  lemma ForegroundKept(fs: set<Flag>)
    requires OneState(fs)
    ensures OneState(fs + {FOREGND}) && OneState(fs - {FOREGND})
  {
    StateKept(fs, fs + {FOREGND});
    StateKept(fs, fs - {FOREGND});
  }

  /** A status ends the state the process was in. */
  lemma NewState(fs: set<Flag>, s: Status)
    requires OneState(fs) && (RUNNING in fs || STOPPED in fs)
    ensures OneState(NewFlags(fs, s))
  {
    StateIs(fs, if RUNNING in fs then RUNNING else STOPPED);
    StatesReplaced(fs, StatusFlags(s));
    StatusOne(s);
  }

  lemma StatesReplaced(fs: set<Flag>, x: set<Flag>)
    requires fs * STATES <= {RUNNING, STOPPED}
    ensures (fs - {RUNNING, STOPPED, REPORTED} + x) * STATES == x * STATES
  {
    var gs := fs - {RUNNING, STOPPED, REPORTED};
    assert gs * STATES <= fs * STATES && gs * STATES == {};
    assert (gs + x) * STATES == gs * STATES + x * STATES;
  }

  lemma StatusOne(s: Status)
    ensures StatusFlags(s) * STATES == {StatusState(s)}
  {
    forall a | a in StatusFlags(s) ensures a == StatusState(s) || a == DUMPED {
    }
  }

  function StatusState(s: Status): Flag {
    match s
    case Stopped => STOPPED
    case Signalled(interrupt, _) => if interrupt then INTERRUPTED else SIGNALED
    case Exited(code) => if code != 0 then AEXITED else NEXITED
  }

  /** A change of flags that keeps one state. */
  lemma OnJobKeeps(t: Table, l: Process, f: Rec -> Rec)
    requires Sound(t) && forall p :: p in t.recs ==> OnlyFlags(t.recs[p], f(t.recs[p]))
    ensures Sound(t.(recs := OnJob(t, l, f))) && SameButFlags(t, t.(recs := OnJob(t, l, f)))
  {
    OnJobFlags(t, l, f);
    FlagsKept(t, t.(recs := OnJob(t, l, f)));
  }

  predicate OnlyFlags(r: Rec, r1: Rec) {
    r1 == r.(flags := r1.flags) && (OneState(r.flags) ==> OneState(r1.flags)) &&
    (NEEDNOTE in r1.flags ==> NEEDNOTE in r.flags)
  }

  lemma OnJobFlags(t: Table, l: Process, f: Rec -> Rec)
    requires Stated(t) && forall p :: p in t.recs ==> OnlyFlags(t.recs[p], f(t.recs[p]))
    ensures var t1 := t.(recs := OnJob(t, l, f)); SameButFlags(t, t1) && Stated(t1)
  {
    var t1 := t.(recs := OnJob(t, l, f));
    forall p | p in t.recs ensures OnlyFlags(t.recs[p], t1.recs[p]) {
      assert OnlyFlags(t.recs[p], f(t.recs[p]));
    }
  }

  lemma StartedKeeps(t: Table, l: Process, foreground: bool)
    requires Valid(t)
    ensures var t1 := t.(recs := OnJob(t, l, Starter(foreground)));
      Valid(t1) && SameButFlags(t, t1)
  {
    ValidMeans(t);
    forall p | p in t.recs ensures OnlyFlags(t.recs[p], StartedRec(t.recs[p], foreground)) {
      StartedState(t.recs[p], foreground);
    }
    OnJobKeeps(t, l, Starter(foreground));
    ValidMeans(t.(recs := OnJob(t, l, Starter(foreground))));
  }

  lemma ClearCurrentStep(t: Table, l: Process)
    requires Valid(t)
    ensures var r := ClearCurrent(t, l); Valid(r) && r.current != l && r.previous != l
  {
    ValidMeans(t);
    ClearCurrentKeeps(t, l);
    ValidMeans(ClearCurrent(t, l));
  }

  lemma FlushStep(t: Table, l: Process)
    requires Valid(t) && Live(t, l)
    ensures Valid(Flush(t, l)) && Flushed(t, l, Flush(t, l))
  {
    ValidMeans(t);
    FlushKeeps(t, l);
    ValidMeans(Flush(t, l));
  }

  /** The records after a flush, and that no pointer to the job is left. */
  ghost predicate Flushed(t: Table, l: Process, r: Table) {
    SameShape(t, r) && r.building != l && r.current != l && r.previous != l &&
    forall p :: p in t.recs ==> r.recs[p] == if Leader(t, p) == l then FlushedRec(t.recs[p]) else t.recs[p]
  }

  lemma LiveStill(t: Table, t1: Table, l: Process)
    requires Valid(t) && SameButFlags(t, t1)
    ensures Live(t1, l) == Live(t, l)
  {
    ValidMeans(t);
  }

  /** `pstart` for the leader of a live job. */
  lemma StartStep(t: Table, l: Process, foreground: bool)
    requires Valid(t)
    ensures var r := Start(t, l, foreground);
      Valid(r) && SameButFlags(t, r) && (!foreground ==> r.current != l && r.previous != l)
  {
    StartedKeeps(t, l, foreground);
    ClearCurrentStep(t.(recs := OnJob(t, l, Starter(foreground))), l);
  }

  lemma SetFlagsStep(t: Table, p: Process, fs: set<Flag>)
    requires Valid(t) && p in t.recs && OneState(fs) && (R(t, p).pid == 0 ==> NEEDNOTE !in fs)
    ensures var t1 := SetFlags(t, p, fs);
      Valid(t1) && SameButFlags(t, t1) && R(t1, p).flags == fs && forall l :: Live(t1, l) == Live(t, l)
  {
    ValidMeans(t);
    FlagsKept(t, SetFlags(t, p, fs));
    ValidMeans(SetFlags(t, p, fs));
  }

  lemma ReportedFlags(t: Table)
    ensures forall p :: p in t.recs ==> OnlyFlags(t.recs[p], ReportedRec(t.recs[p]))
  {
    forall p | p in t.recs ensures OnlyFlags(t.recs[p], ReportedRec(t.recs[p])) {
      if OneState(t.recs[p].flags) {
        StateKept(t.recs[p].flags, ReportedRec(t.recs[p]).flags);
      }
    }
  }

  lemma ReportedStep(t: Table, l: Process)
    requires Valid(t)
    ensures var t1 := t.(recs := OnJob(t, l, ReportedRec)); Valid(t1) && SameButFlags(t, t1) && Live(t1, l) == Live(t, l)
  {
    ValidMeans(t);
    ReportedFlags(t);
    OnJobKeeps(t, l, ReportedRec);
    LiveStill(t, t.(recs := OnJob(t, l, ReportedRec)), l);
    ValidMeans(t.(recs := OnJob(t, l, ReportedRec)));
  }

  lemma MakeCurrentStep(t: Table, l: Process)
    requires Valid(t) && Live(t, l)
    ensures Valid(MakeCurrent(t, l)) && Live(MakeCurrent(t, l), l)
  {
    ValidMeans(t);
    SameLists(t, MakeCurrent(t, l));
    ValidMeans(MakeCurrent(t, l));
  }

  lemma OneStateOf(t: Table, p: Process)
    requires Valid(t) && p in t.recs
    ensures OneState(R(t, p).flags) && (R(t, p).pid == 0 ==> NEEDNOTE !in R(t, p).flags)
  {
    ValidMeans(t);
  }

  lemma NoteStep(t: Table, l: Process)
    requires Valid(t) && Live(t, l)
    ensures Valid(SetFlags(t, l, R(t, l).flags + {NEEDNOTE}))
  {
    LiveListed(t, l);
    OneStateOf(t, l);
    StateKept(R(t, l).flags, R(t, l).flags + {NEEDNOTE});
    SetFlagsStep(t, l, R(t, l).flags + {NEEDNOTE});
  }

  /** `pnote` for one process: its job is told about, and flushed if it is at an end. */
  function Noted(t: Table, p: Process): Table
    requires p in t.recs
  {
    var t1, l := SetFlags(t, p, R(t, p).flags - {NEEDNOTE}), Leader(t, p);
    var fs := JobFlags(t1, Ring(t1, l));
    if RUNNING in fs || STOPPED in fs then t1 else Flush(t1, l)
  }

  /** A process that needs a note has not been flushed, so that its job has a leader to be found. */
  lemma NotedStep(t: Table, p: Process)
    requires Valid(t) && p in t.recs && NEEDNOTE in R(t, p).flags
    ensures R(t, p).pid != 0 && Live(t, Leader(t, p)) && Valid(Noted(t, p))
  {
    OneStateOf(t, p);
    NotedMiddle(t, p);
    FlushStep(SetFlags(t, p, R(t, p).flags - {NEEDNOTE}), Leader(t, p));
  }

  /** The table when the process is marked, and before its job is looked at. */
  lemma NotedMiddle(t: Table, p: Process)
    requires Valid(t) && p in t.recs && NEEDNOTE in R(t, p).flags
    ensures var t1 := SetFlags(t, p, R(t, p).flags - {NEEDNOTE});
      Valid(t1) && R(t1, p).pid != 0 && Leader(t1, p) == Leader(t, p) && Live(t1, Leader(t, p))
  {
    OneStateOf(t, p);
    StateKept(R(t, p).flags, R(t, p).flags - {NEEDNOTE});
    LeaderLive(t, p);
    SetFlagsStep(t, p, R(t, p).flags - {NEEDNOTE});
  }

  /** One note less is needed, and no other one more. */
  lemma NotedLess(t: Table, p: Process)
    requires Valid(t) && p in t.recs
    ensures var r := Noted(t, p);
      r.procs == t.procs && r.recs.Keys == t.recs.Keys && NEEDNOTE !in R(r, p).flags &&
      forall q :: q in t.recs && NEEDNOTE in R(r, q).flags ==> NEEDNOTE in R(t, q).flags
  {
    FlushShape(SetFlags(t, p, R(t, p).flags - {NEEDNOTE}), Leader(t, p));
  }

  /** `pnote` from process i of the list on. */
  function NoteAll(t: Table, i: nat): Table
    decreases |t.procs| - i
  {
    if i >= |t.procs| then t
    else if t.procs[i] !in t.recs || NEEDNOTE !in R(t, t.procs[i]).flags then NoteAll(t, i + 1)
    else NoteAll(Noted(t, t.procs[i]).(procs := t.procs), i + 1)
  }

  lemma NoteAllTurn(t: Table, i: nat)
    requires Valid(t) && i < |t.procs|
    ensures t.procs[i] in t.recs
    ensures NEEDNOTE in R(t, t.procs[i]).flags ==> NoteAll(Noted(t, t.procs[i]), i + 1) == NoteAll(t, i)
    ensures NEEDNOTE !in R(t, t.procs[i]).flags ==> NoteAll(t, i + 1) == NoteAll(t, i)
  {
    ListedIn(t, i);
    if NEEDNOTE in R(t, t.procs[i]).flags {
      NotedLess(t, t.procs[i]);
      var r := Noted(t, t.procs[i]);
      assert r.(procs := t.procs) == r;
    }
  }

  /** After `pnote` nothing is left to be told. */
  lemma {:induction false} NoteAllStep(t: Table, i: nat)
    requires Valid(t) && i <= |t.procs| && forall j :: 0 <= j < i ==> NEEDNOTE !in R(t, t.procs[j]).flags
    ensures var r := NoteAll(t, i);
      Valid(r) && r.procs == t.procs && forall j :: 0 <= j < |r.procs| ==> NEEDNOTE !in R(r, r.procs[j]).flags
    decreases |t.procs| - i
  {
    if i < |t.procs| {
      var p := t.procs[i];
      ListedIn(t, i);
      if NEEDNOTE !in R(t, p).flags {
        NoteAllStep(t, i + 1);
      } else {
        NotedStep(t, p);
        NotedLess(t, p);
        var r := Noted(t, p);
        assert r.(procs := t.procs) == r;
        forall j | 0 <= j <= i ensures NEEDNOTE !in R(r, r.procs[j]).flags {
          ListedIn(t, j);
        }
        NoteAllStep(r, i + 1);
      }
    }
  }

  /** `donotify` */
  lemma NotifyStep(t: Table, l: Process)
    requires Valid(t) && Live(t, l)
    ensures l in t.recs && Valid(SetFlags(t, l, R(t, l).flags + {NOTIFY}))
  {
    LiveListed(t, l);
    OneStateOf(t, l);
    StateKept(R(t, l).flags, R(t, l).flags + {NOTIFY});
    SetFlagsStep(t, l, R(t, l).flags + {NOTIFY});
  }

  lemma LiveListed(t: Table, l: Process)
    requires Live(t, l)
    ensures l in t.recs
  {
  }

  lemma SettleStep(t: Table, l: Process, fs: set<Flag>, notify: bool)
    requires Valid(t) && Live(t, l)
    ensures Valid(Settle(t, l, fs, notify))
  {
    var t1 := t.(recs := OnJob(t, l, ReportedRec));
    ReportedStep(t, l);
    if STOPPED in fs {
      MakeCurrentStep(t1, l);
      NoteStep(MakeCurrent(t1, l), l);
    } else {
      ClearCurrentStep(t1, l);
      FlushStep(ClearCurrent(t1, l), l);
      NoteStep(ClearCurrent(t1, l), l);
    }
  }

  /** The table when `pchild` has set the flags of the process. */
  lemma TakeStep(t: Table, p: Process, s: Status)
    requires Valid(t) && p in t.recs && (RUNNING in R(t, p).flags || STOPPED in R(t, p).flags)
    ensures var t1 := SetFlags(t, p, NewFlags(R(t, p).flags, s));
      var t2 := SetFlags(t1, p, R(t1, p).flags - {FOREGND});
      Valid(t2) && forall l :: Live(t2, l) == Live(t, l)
  {
    var fs := NewFlags(R(t, p).flags, s);
    OneStateOf(t, p);
    TakenFlags(R(t, p).flags, s, fs);
    SetFlagsStep(t, p, fs);
    SetFlagsStep(SetFlags(t, p, fs), p, fs - {FOREGND});
  }

  lemma TakenFlags(was: set<Flag>, s: Status, fs: set<Flag>)
    requires OneState(was) && (RUNNING in was || STOPPED in was) && fs == NewFlags(was, s)
    ensures OneState(fs) && OneState(fs - {FOREGND}) && (NEEDNOTE in fs ==> NEEDNOTE in was)
  {
    NewState(was, s);
    ForegroundKept(fs);
    StatusTellsNothing(s);
  }

  lemma StatusTellsNothing(s: Status)
    ensures NEEDNOTE !in StatusFlags(s)
  {
  }

  /** `pchild` for a process that is running or stopped. */
  lemma ChildStep(t: Table, p: Process, s: Status, notify: bool)
    requires Valid(t) && p in t.recs && R(t, p).pid != 0
    requires RUNNING in R(t, p).flags || STOPPED in R(t, p).flags
    ensures Valid(Child(t, p, s, notify))
  {
    var l := Leader(t, p);
    var t1 := SetFlags(t, p, NewFlags(R(t, p).flags, s));
    var t2 := SetFlags(t1, p, R(t1, p).flags - {FOREGND});
    TakeStep(t, p, s);
    LeaderLive(t, p);
    SettleStep(t2, l, JobFlags(t1, Ring(t, l)), notify);
  }

  lemma LeaderLive(t: Table, p: Process)
    requires Valid(t) && p in t.recs && R(t, p).pid != 0
    ensures Live(t, Leader(t, p))
  {
    ValidMeans(t);
    assert Member(t.recs[p], R(t, Leader(t, p)));
  }

  // ---- palloc --------------------------------------------------------------------------

  lemma {:induction false} FreeFrom(t: Table, i: nat, n: nat)
    ensures var r := FreeIndex(t, i, n);
      i <= r && (r < n ==> Unused(t, r)) && forall j :: i <= j < r && j < n ==> !Unused(t, j)
    decreases n - i
  {
    if i < n && !Unused(t, i) {
      FreeFrom(t, i + 1, n);
    }
  }

  /** One of these processes has index i. */
  ghost predicate Uses(procs: seq<Process>, t: Table, i: nat) {
    exists k :: 0 <= k < |procs| && R(t, procs[k]).index == i
  }

  /** As many indices as there are processes cannot all be in use beside one more. */
  lemma {:induction false} Pigeonhole(procs: seq<Process>, t: Table, used: set<nat>)
    requires forall i :: i in used ==> Uses(procs, t, i)
    ensures |used| <= |procs|
    decreases |procs|
  {
    if procs == [] {
      assert used == {};
    } else {
      var n := |procs| - 1;
      var last := R(t, procs[n]).index;
      var rest := used - {last};
      forall i | i in rest ensures Uses(procs[..n], t, i) {
        assert Uses(procs, t, i);
        var k :| 0 <= k < |procs| && R(t, procs[k]).index == i;
        assert procs[..n][k] == procs[k];
      }
      Pigeonhole(procs[..n], t, rest);
      SubsetSize(used, rest + {last});
    }
  }

  function UpTo(n: nat): (s: set<nat>)
    ensures |s| == n && forall i :: i in s <==> 1 <= i <= n
  {
    if n == 0 then {} else UpTo(n - 1) + {n}
  }

  /** The search for a free index ends at the latest one behind the number of processes. */
  lemma SomeUnused(t: Table, i: nat)
    requires forall j :: 1 <= j < i ==> !Unused(t, j)
    ensures i <= |t.procs| + 1
  {
    if i > 1 {
      forall j | j in UpTo(i - 1) ensures Uses(t.procs, t, j) {
        assert !Unused(t, j);
        var p :| p in t.procs && R(t, p).index == j;
      }
      Pigeonhole(t.procs, t, UpTo(i - 1));
    }
  }

  /** The index of a new job is not in use. */
  lemma NewIndexUnused(t: Table)
    requires Grounded(t) && t.maxIndex == MaxIndex(t.procs, t.recs)
    ensures NewIndex(t) > 0 && Unused(t, NewIndex(t))
  {
    if t.maxIndex < BIGINDEX {
      forall p | p in t.procs ensures R(t, p).index != t.maxIndex + 1 {
        var i :| 0 <= i < |t.procs| && t.procs[i] == p;
        MaxBounds(t.procs, t.recs, i);
      }
    } else {
      var n := |t.procs| + 1;
      FreeFrom(t, 1, n);
      if FreeIndex(t, 1, n) >= n && !Unused(t, n) {
        SomeUnused(t, n + 1);
      }
      FreeAtMost(t, 1, n);
    }
  }

  lemma {:induction false} FreeAtMost(t: Table, i: nat, n: nat)
    requires i <= n
    ensures FreeIndex(t, i, n) <= n
    decreases n - i
  {
    if i < n && !Unused(t, i) {
      FreeAtMost(t, i + 1, n);
    }
  }

  /** A new process with a pid no live process has. */
  ghost predicate Fresh(t: Table, p: Process, pid: nat) {
    p !in t.recs && p !in t.home && p !in t.jobs && pid != 0 && forall q :: q in t.recs ==> t.recs[q].pid != pid
  }

  lemma LeaderShaped(t: Table, p: Process, pid: nat, background: bool)
    requires Shaped(t) && Fresh(t, p, pid)
    ensures Shaped(AllocLeader(t, p, pid, background))
  {
    ShapedMeans(t);
    LeaderHoused(t, AllocLeader(t, p, pid, background), p);
    ShapedMeans(AllocLeader(t, p, pid, background));
  }

  lemma LeaderHoused(t: Table, r: Table, p: Process)
    requires Housed(t) && Ringed(t) && p !in t.recs && p !in t.home && p !in t.jobs
    requires r.procs == [p] + t.procs && r.jobs == t.jobs[p := [p]] && r.home == t.home[p := Home(p, 0)]
    requires r.recs.Keys == t.recs.Keys + {p} && r.recs[p].friends == p
    requires forall q :: q in t.recs ==> r.recs[q] == t.recs[q]
    ensures Housed(r) && Ringed(r)
  {
    ListedFront(t, r, p);
    AlonePlaced(t, r, p);
    AloneHomes(t, r, p);
    AloneRinged(t, r, p);
  }

  /** A job of its own for p. */
  ghost predicate Alone(t: Table, r: Table, p: Process) {
    p !in t.home && p !in t.jobs && r.jobs == t.jobs[p := [p]] && r.home == t.home[p := Home(p, 0)]
  }

  lemma AlonePlaced(t: Table, r: Table, p: Process)
    requires Placed(t.home, t.jobs) && Alone(t, r, p)
    ensures Placed(r.home, r.jobs)
  {
    forall q | q in r.home
      ensures r.home[q].leader in r.jobs && r.home[q].at < |r.jobs[r.home[q].leader]| &&
        r.jobs[r.home[q].leader][r.home[q].at] == q
    {
      if q != p {
        assert r.home[q] == t.home[q];
      }
    }
  }

  lemma AloneHomes(t: Table, r: Table, p: Process)
    requires Homes(t.home, t.jobs) && Alone(t, r, p)
    ensures Homes(r.home, r.jobs)
  {
    forall l | l in r.jobs ensures HomesOf(r.home, l, r.jobs[l]) {
      if l != p {
        assert HomesOf(t.home, l, t.jobs[l]);
      }
    }
  }

  lemma AloneRinged(t: Table, r: Table, p: Process)
    requires Housed(t) && Ringed(t) && Housed(r) && Alone(t, r, p) && r.recs.Keys == t.recs.Keys + {p}
    requires r.recs[p].friends == p && forall q :: q in t.recs ==> r.recs[q] == t.recs[q]
    ensures Ringed(r)
  {
    forall q | q in r.recs ensures r.recs[q].friends == Next(r.jobs[r.home[q].leader], r.home[q].at) {
      if q != p {
        assert r.home[q] == t.home[q] && t.recs[q].friends == Next(t.jobs[t.home[q].leader], t.home[q].at);
      }
    }
  }

  lemma ListedFront(t: Table, r: Table, p: Process)
    requires Distinct(t.procs) && Listed(t) && p !in t.recs
    requires r.procs == [p] + t.procs && r.recs.Keys == t.recs.Keys + {p} == r.home.Keys
    ensures Distinct(r.procs) && Listed(r)
  {
    forall q | q in r.recs ensures q in r.procs {
      if q != p {
        assert q in t.procs;
      }
    }
  }

  lemma LeaderGrounded(t: Table, p: Process, pid: nat, background: bool)
    requires Grounded(t) && Fresh(t, p, pid)
    ensures Grounded(AllocLeader(t, p, pid, background))
  {
    var r := AllocLeader(t, p, pid, background);
    forall q | q in r.recs ensures Leader(r, q) in r.recs && Leader(r, q) in r.jobs {
      if q != p {
        assert Leader(r, q) == Leader(t, q);
      }
    }
    forall l | l in r.jobs ensures l in r.recs && Leader(r, l) == l {
      if l != p {
        assert Leader(r, l) == Leader(t, l);
      }
    }
  }

  lemma LeaderIndexed(t: Table, p: Process, pid: nat, background: bool)
    requires Grounded(t) && Indexed(t) && Fresh(t, p, pid) && Unused(t, NewIndex(t)) && NewIndex(t) > 0
    requires forall q :: q in t.recs ==> q in t.procs
    ensures Indexed(AllocLeader(t, p, pid, background))
  {
    var r := AllocLeader(t, p, pid, background);
    forall q | q in r.recs ensures Member(r.recs[q], R(r, Leader(r, q))) {
      if q != p {
        assert Leader(r, q) == Leader(t, q);
        assert Member(t.recs[q], R(t, Leader(t, q)));
      }
    }
    forall l | l in t.jobs ensures R(r, l) == R(t, l) && R(t, l).index != NewIndex(t) {
      assert Leader(t, l) == l;
    }
    assert R(r, p).index == NewIndex(t);
    IndicesFront(t, r, p);
  }

  lemma IndicesFront(t: Table, r: Table, p: Process)
    requires IndicesDiffer(t) && r.jobs.Keys == t.jobs.Keys + {p}
    requires forall l :: l in t.jobs ==> R(r, l) == R(t, l) && R(t, l).index != R(r, p).index
    ensures IndicesDiffer(r)
  {
  }

  lemma {:induction false} MaxFront(p: Process, procs: seq<Process>, recs: map<Process, Rec>, recs1: map<Process, Rec>)
    requires p !in procs && p in recs1
    requires forall q :: q in procs ==> q in recs && q in recs1 && recs1[q].index == recs[q].index
    ensures MaxIndex([p] + procs, recs1) ==
      if recs1[p].index > MaxIndex(procs, recs) then recs1[p].index else MaxIndex(procs, recs)
    decreases |procs|
  {
    var n := |procs| - 1;
    if procs == [] {
      assert ([p] + procs)[..0] == [];
    } else {
      MaxFront(p, procs[..n], recs, recs1);
      assert ([p] + procs)[..n + 1] == [p] + procs[..n];
    }
  }

  lemma ListedAll(t: Table)
    requires Shaped(t)
    ensures forall p :: p in t.recs ==> p in t.procs
  {
    ShapedMeans(t);
  }

  /** `palloc` for the first process of a job. */
  lemma AllocLeaderStep(t: Table, p: Process, pid: nat, background: bool)
    requires Valid(t) && Fresh(t, p, pid)
    ensures var r := AllocLeader(t, p, pid, background);
      Valid(r) && Live(r, p) && Unused(t, R(r, p).index) && NewIndex(t) <= t.maxIndex + 1
  {
    var r := AllocLeader(t, p, pid, background);
    ValidMeans(t);
    LeaderShaped(t, p, pid, background);
    LeaderGrounded(t, p, pid, background);
    NewIndexUnused(t);
    ListedAll(t);
    LeaderIndexed(t, p, pid, background);
    MaxFront(p, t.procs, t.recs, r.recs);
    NewStated(t, r, p, background);
    LeaderPointed(t, p, pid, background);
    NewIndexSmall(t);
    ValidMeans(r);
  }

  /** The index of a new job is at most one more than the largest in use. */
  lemma NewIndexSmall(t: Table)
    requires Grounded(t) && t.maxIndex == MaxIndex(t.procs, t.recs)
    ensures NewIndex(t) <= t.maxIndex + 1
  {
    if t.maxIndex >= BIGINDEX {
      var n := |t.procs| + 1;
      FreeFrom(t, 1, n);
      var i := NewIndex(t);
      if t.maxIndex + 1 < i {
        FreeAtMost(t, 1, n);
        assert !Unused(t, t.maxIndex + 1);
        var p :| p in t.procs && R(t, p).index == t.maxIndex + 1;
        var k :| 0 <= k < |t.procs| && t.procs[k] == p;
        MaxBounds(t.procs, t.recs, k);
      }
    }
  }

  lemma NewStated(t: Table, r: Table, p: Process, background: bool)
    requires Stated(t) && p in r.recs && r.recs[p].flags == RunningFlags(background)
    requires forall q :: q in r.recs && q != p ==>
      q in t.recs && r.recs[q].flags == t.recs[q].flags && r.recs[q].pid == t.recs[q].pid
    ensures Stated(r)
  {
    assert RunningFlags(background) * STATES == {RUNNING};
  }

  lemma LeaderPointed(t: Table, p: Process, pid: nat, background: bool)
    requires Grounded(t) && Pointed(t) && Fresh(t, p, pid)
    ensures Pointed(AllocLeader(t, p, pid, background))
  {
  }

  /** Room for one more process at the end of the ring of the job being built. */
  ghost predicate Building(t: Table, l: Process) {
    t.building == l && l in t.jobs && |t.jobs[l]| > 0 && t.jobs[l][|t.jobs[l]| - 1] in t.recs
  }

  lemma BuildingOk(t: Table)
    requires Valid(t) && t.building != null
    ensures Building(t, t.building) && Ring(t, t.building) == t.jobs[t.building] && Live(t, t.building)
  {
    ValidMeans(t);
    ShapedMeans(t);
    assert HomesOf(t.home, t.building, t.jobs[t.building]);
  }

  /** The changes to the lists when p joins the end of l's ring. */
  ghost predicate RingGrown(t: Table, r: Table, l: Process, p: Process) {
    Building(t, l) && p !in t.recs && p !in t.home && p !in t.jobs &&
    var ring := t.jobs[l];
    r.procs == [p] + t.procs && r.jobs == t.jobs[l := ring + [p]] && r.home == t.home[p := Home(l, |ring|)] &&
    r.recs.Keys == t.recs.Keys + {p}
  }

  lemma GrownPlaced(t: Table, r: Table, l: Process, p: Process)
    requires Placed(t.home, t.jobs) && RingGrown(t, r, l, p)
    ensures Placed(r.home, r.jobs)
  {
    forall q | q in r.home
      ensures r.home[q].leader in r.jobs && r.home[q].at < |r.jobs[r.home[q].leader]| &&
        r.jobs[r.home[q].leader][r.home[q].at] == q
    {
      if q != p {
        assert r.home[q] == t.home[q];
      }
    }
  }

  lemma GrownHomes(t: Table, r: Table, l: Process, p: Process)
    requires Homes(t.home, t.jobs) && RingGrown(t, r, l, p)
    ensures Homes(r.home, r.jobs)
  {
    forall k | k in r.jobs ensures HomesOf(r.home, k, r.jobs[k]) {
      assert HomesOf(t.home, k, t.jobs[k]);
    }
  }

  /** The friends of the last process and of the new one are set, all others are as they were. */
  ghost predicate Befriended(t: Table, r: Table, l: Process, p: Process)
    requires RingGrown(t, r, l, p)
  {
    var last := t.jobs[l][|t.jobs[l]| - 1];
    r.recs[p].friends == l && r.recs[last].friends == p &&
    forall q :: q in t.recs && q != last ==> r.recs[q].friends == t.recs[q].friends
  }

  lemma GrownRinged(t: Table, r: Table, l: Process, p: Process)
    requires Housed(t) && Ringed(t) && Housed(r) && RingGrown(t, r, l, p) && Befriended(t, r, l, p)
    ensures Ringed(r)
  {
    var ring := t.jobs[l];
    assert HomesOf(t.home, l, ring);
    forall q | q in r.recs ensures r.recs[q].friends == Next(r.jobs[r.home[q].leader], r.home[q].at) {
      if q != p {
        OldFriend(t, r, l, p, q);
      }
    }
  }

  lemma OldFriend(t: Table, r: Table, l: Process, p: Process, q: Process)
    requires Housed(t) && RingGrown(t, r, l, p) && Befriended(t, r, l, p) && q in t.recs && q != p
    requires t.recs[q].friends == Next(t.jobs[t.home[q].leader], t.home[q].at)
    requires HomesOf(t.home, l, t.jobs[l]) && Placed(r.home, r.jobs) && q in r.home
    ensures r.recs[q].friends == Next(r.jobs[r.home[q].leader], r.home[q].at)
  {
    var ring := t.jobs[l];
    assert r.home[q] == t.home[q];
    if t.home[q].leader == l {
      assert ring[t.home[q].at] == q;
      if t.home[q].at < |ring| - 1 {
        assert q != ring[|ring| - 1];
      }
    } else {
      assert t.home[ring[|ring| - 1]].leader == l;
    }
  }

  lemma FriendGrown(t: Table, p: Process, pid: nat, background: bool)
    requires Fresh(t, p, pid) && t.building != null && Building(t, t.building)
    requires Ring(t, t.building) == t.jobs[t.building]
    ensures var r := AllocFriend(t, p, pid, background);
      RingGrown(t, r, t.building, p) && Befriended(t, r, t.building, p)
  {
  }

  lemma FriendShaped(t: Table, p: Process, pid: nat, background: bool)
    requires Shaped(t) && Fresh(t, p, pid) && t.building != null && Building(t, t.building)
    requires Ring(t, t.building) == t.jobs[t.building]
    ensures Shaped(AllocFriend(t, p, pid, background))
  {
    var l, r := t.building, AllocFriend(t, p, pid, background);
    FriendGrown(t, p, pid, background);
    GrownShaped(t, r, l, p);
  }

  lemma GrownShaped(t: Table, r: Table, l: Process, p: Process)
    requires Shaped(t) && RingGrown(t, r, l, p) && Befriended(t, r, l, p)
    ensures Shaped(r)
  {
    ShapedMeans(t);
    ListedFront(t, r, p);
    GrownPlaced(t, r, l, p);
    GrownHomes(t, r, l, p);
    GrownRinged(t, r, l, p);
    ShapedMeans(r);
  }

  /** A new process joins the job of l. */
  ghost predicate Joined(t: Table, r: Table, l: Process, p: Process, pid: nat) {
    l in t.jobs && r.jobs.Keys == t.jobs.Keys && r.recs.Keys == t.recs.Keys + {p} && r.procs == [p] + t.procs &&
    r.home.Keys == t.home.Keys + {p} && Leader(r, p) == l &&
    (forall q :: q in t.home && q != p ==> r.home[q] == t.home[q]) &&
    (forall q :: q in t.recs && q != p ==> r.recs[q] == t.recs[q].(friends := r.recs[q].friends)) &&
    r.recs[p].pid == pid && r.recs[p].index == R(t, l).index && r.recs[p].jobid == R(t, l).pid
  }

  lemma FriendJoined(t: Table, p: Process, pid: nat, background: bool)
    requires Fresh(t, p, pid) && t.building != null && Building(t, t.building) && Ring(t, t.building) == t.jobs[t.building]
    ensures var r := AllocFriend(t, p, pid, background);
      Joined(t, r, t.building, p, pid) && r.recs[p].flags == RunningFlags(background)
  {
  }

  lemma JoinedLeader(t: Table, r: Table, l: Process, p: Process, pid: nat, q: Process)
    requires Joined(t, r, l, p, pid) && t.home.Keys == t.recs.Keys && q in t.recs && q != p
    ensures Leader(r, q) == Leader(t, q)
  {
    assert r.home[q] == t.home[q];
  }

  lemma JoinedLeaders(t: Table, r: Table, l: Process, p: Process, pid: nat, q: Process)
    requires Grounded(t) && Fresh(t, p, pid) && Joined(t, r, l, p, pid) && t.home.Keys == t.recs.Keys && q in r.recs
    ensures Leader(r, q) in r.recs && Leader(r, q) in r.jobs
  {
    if q != p {
      JoinedLeader(t, r, l, p, pid, q);
      assert Leader(t, q) in t.recs;
    } else {
      assert l in t.recs;
    }
  }

  lemma JoinedGrounded(t: Table, r: Table, l: Process, p: Process, pid: nat)
    requires Grounded(t) && Fresh(t, p, pid) && Joined(t, r, l, p, pid) && t.home.Keys == t.recs.Keys
    ensures Grounded(r)
  {
    JoinedProcs(t, r, p);
    JoinedListed(t, r, l, p, pid);
    JoinedLead(t, r, l, p, pid);
  }

  lemma JoinedListed(t: Table, r: Table, l: Process, p: Process, pid: nat)
    requires Grounded(t) && Fresh(t, p, pid) && Joined(t, r, l, p, pid) && t.home.Keys == t.recs.Keys
    ensures LeadersListed(r)
  {
    forall q | q in r.recs ensures Leader(r, q) in r.recs && Leader(r, q) in r.jobs {
      JoinedLeaders(t, r, l, p, pid, q);
    }
  }

  lemma JoinedLead(t: Table, r: Table, l: Process, p: Process, pid: nat)
    requires Grounded(t) && Fresh(t, p, pid) && Joined(t, r, l, p, pid) && t.home.Keys == t.recs.Keys
    ensures LeadersLead(r)
  {
    forall k | k in r.jobs ensures k in r.recs && Leader(r, k) == k {
      JoinedLeads(t, r, l, p, pid, k);
    }
  }

  lemma JoinedProcs(t: Table, r: Table, p: Process)
    requires (forall i :: 0 <= i < |t.procs| ==> t.procs[i] in t.recs)
    requires r.procs == [p] + t.procs && r.recs.Keys == t.recs.Keys + {p}
    ensures forall i :: 0 <= i < |r.procs| ==> r.procs[i] in r.recs
  {
  }

  lemma JoinedLeads(t: Table, r: Table, l: Process, p: Process, pid: nat, k: Process)
    requires Grounded(t) && Fresh(t, p, pid) && Joined(t, r, l, p, pid) && t.home.Keys == t.recs.Keys && k in r.jobs
    ensures k in r.recs && Leader(r, k) == k
  {
    assert k in t.recs && k != p && Leader(t, k) == k;
    JoinedLeader(t, r, l, p, pid, k);
  }

  lemma JoinedMembers(t: Table, r: Table, l: Process, p: Process, pid: nat)
    requires Grounded(t) && Members(t) && Fresh(t, p, pid) && Joined(t, r, l, p, pid) && t.home.Keys == t.recs.Keys
    requires R(t, l).pid != 0
    ensures Members(r)
  {
    assert Leader(t, l) == l && Member(t.recs[l], R(t, l));
    forall q | q in r.recs ensures Member(r.recs[q], R(r, Leader(r, q))) {
      if q != p {
        assert Leader(r, q) == Leader(t, q);
        assert Member(t.recs[q], R(t, Leader(t, q)));
      }
    }
  }

  lemma JoinedIndexed(t: Table, r: Table, l: Process, p: Process, pid: nat)
    requires Grounded(t) && Indexed(t) && Fresh(t, p, pid) && Joined(t, r, l, p, pid) && t.home.Keys == t.recs.Keys
    requires R(t, l).pid != 0
    ensures Indexed(r)
  {
    JoinedMembers(t, r, l, p, pid);
    forall k | k in t.jobs ensures R(r, k).index == R(t, k).index {
      assert Leader(t, k) == k;
    }
  }

  lemma JoinedMax(t: Table, r: Table, l: Process, p: Process, pid: nat)
    requires Grounded(t) && Fresh(t, p, pid) && Joined(t, r, l, p, pid) && r.maxIndex == t.maxIndex
    requires t.maxIndex == MaxIndex(t.procs, t.recs) && l in t.procs
    ensures r.maxIndex == MaxIndex(r.procs, r.recs)
  {
    MaxFront(p, t.procs, t.recs, r.recs);
    var k :| 0 <= k < |t.procs| && t.procs[k] == l;
    MaxBounds(t.procs, t.recs, k);
  }

  /** `palloc` for a further process of the job being built. */
  lemma AllocFriendStep(t: Table, p: Process, pid: nat, background: bool)
    requires Valid(t) && Fresh(t, p, pid) && t.building != null
    ensures Building(t, t.building) && Ring(t, t.building) == t.jobs[t.building]
    ensures Valid(AllocFriend(t, p, pid, background))
  {
    BuildingOk(t);
    var l, r := t.building, AllocFriend(t, p, pid, background);
    FriendJoined(t, p, pid, background);
    ValidMeans(t);
    FriendShaped(t, p, pid, background);
    JoinedSound(t, r, l, p, pid, background);
    ValidMeans(r);
  }

  lemma JoinedSound(t: Table, r: Table, l: Process, p: Process, pid: nat, background: bool)
    requires Sound(t) && Fresh(t, p, pid) && Joined(t, r, l, p, pid) && Shaped(r) && Live(t, l)
    requires r.recs[p].flags == RunningFlags(background) && r.maxIndex == t.maxIndex
    requires r.building == t.building && r.current == t.current && r.previous == t.previous
    ensures Sound(r)
  {
    ListedAll(t);
    HomeKeys(t);
    JoinedGrounded(t, r, l, p, pid);
    JoinedIndexed(t, r, l, p, pid);
    JoinedMax(t, r, l, p, pid);
    NewStated(t, r, p, background);
    JoinedPointed(t, r, l, p, pid);
  }

  lemma JoinedPointed(t: Table, r: Table, l: Process, p: Process, pid: nat)
    requires Pointed(t) && Fresh(t, p, pid) && Joined(t, r, l, p, pid)
    requires r.building == t.building && r.current == t.current && r.previous == t.previous
    ensures Pointed(r)
  {
  }

  lemma HomeKeys(t: Table)
    requires Shaped(t)
    ensures t.home.Keys == t.recs.Keys
  {
    ShapedMeans(t);
  }

  // ---- the sweep of pwait --------------------------------------------------------------

  lemma {:induction false} SweptKeeps(procs: seq<Process>, recs: map<Process, Rec>)
    requires Distinct(procs) && forall i :: 0 <= i < |procs| ==> procs[i] in recs
    ensures var r := Swept(procs, recs);
      Distinct(r) && (forall p :: p in r <==> p in procs && recs[p].pid != 0) &&
      forall i :: 0 <= i < |r| ==> r[i] in recs && recs[r[i]].pid != 0
    decreases |procs|
  {
    if procs != [] {
      var n := |procs| - 1;
      SweptKeeps(procs[..n], recs);
      assert procs == procs[..n] + [procs[n]];
      assert procs[n] !in procs[..n];
    }
  }

  lemma {:induction false} SweptMax(procs: seq<Process>, recs: map<Process, Rec>, recs1: map<Process, Rec>)
    requires forall i :: 0 <= i < |procs| ==> procs[i] in recs
    requires forall p :: p in recs && recs[p].pid == 0 ==> recs[p].index == 0
    requires forall p :: p in recs && recs[p].pid != 0 ==> p in recs1 && recs1[p] == recs[p]
    ensures MaxIndex(Swept(procs, recs), recs1) == MaxIndex(procs, recs)
    decreases |procs|
  {
    if procs != [] {
      var n := |procs| - 1;
      SweptMax(procs[..n], recs, recs1);
      var rest := Swept(procs[..n], recs);
      assert (rest + [procs[n]])[..|rest|] == rest;
    }
  }

  /** A process is live exactly if the leader of its job is. */
  lemma LiveTogether(t: Table, p: Process)
    requires Grounded(t) && Members(t) && p in t.recs
    ensures R(t, p).pid != 0 <==> R(t, Leader(t, p)).pid != 0
    ensures R(t, p).pid == 0 ==> R(t, p).index == 0
  {
    assert Member(t.recs[p], R(t, Leader(t, p)));
  }

  lemma SweepListed(t: Table)
    requires Housed(t)
    ensures var r := Sweep(t); Distinct(r.procs) && Listed(r)
  {
    SweptKeeps(t.procs, t.recs);
  }

  lemma SweepPlaced(t: Table)
    requires Housed(t) && Grounded(t) && Members(t)
    ensures Placed(Sweep(t).home, Sweep(t).jobs)
  {
    var r := Sweep(t);
    forall p | p in r.home
      ensures r.home[p].leader in r.jobs && r.home[p].at < |r.jobs[r.home[p].leader]| &&
        r.jobs[r.home[p].leader][r.home[p].at] == p
    {
      LiveTogether(t, p);
    }
  }

  lemma SweepHomes(t: Table)
    requires Housed(t) && Grounded(t) && Members(t)
    ensures Homes(Sweep(t).home, Sweep(t).jobs)
  {
    var r := Sweep(t);
    forall l | l in r.jobs ensures HomesOf(r.home, l, r.jobs[l]) {
      assert HomesOf(t.home, l, t.jobs[l]);
      forall i | 0 <= i < |t.jobs[l]| ensures t.jobs[l][i] in r.home {
        assert Leader(t, t.jobs[l][i]) == l;
        LiveTogether(t, t.jobs[l][i]);
      }
    }
  }

  lemma SweepRinged(t: Table)
    requires Housed(t) && Ringed(t) && Housed(Sweep(t))
    ensures Ringed(Sweep(t))
  {
  }

  lemma SweepShaped(t: Table)
    requires Shaped(t) && Grounded(t) && Members(t)
    ensures Shaped(Sweep(t))
  {
    ShapedMeans(t);
    SweepListed(t);
    SweepPlaced(t);
    SweepHomes(t);
    SweepRinged(t);
    ShapedMeans(Sweep(t));
  }

  lemma SweepLeader(t: Table, p: Process)
    requires t.home.Keys == t.recs.Keys && p in Sweep(t).recs
    ensures p in t.recs && Leader(Sweep(t), p) == Leader(t, p) && R(Sweep(t), p) == R(t, p) && R(t, p).pid != 0
  {
  }

  lemma SweepJob(t: Table, l: Process)
    requires Grounded(t) && t.home.Keys == t.recs.Keys && l in Sweep(t).jobs
    ensures l in t.jobs && l in Sweep(t).recs && Leader(Sweep(t), l) == l && R(Sweep(t), l) == R(t, l)
  {
    assert Leader(t, l) == l;
  }

  lemma SweepGrounded(t: Table)
    requires Grounded(t) && Members(t) && Distinct(t.procs) && t.home.Keys == t.recs.Keys
    ensures Grounded(Sweep(t)) && Members(Sweep(t))
  {
    var r := Sweep(t);
    SweptKeeps(t.procs, t.recs);
    forall p | p in r.recs
      ensures Leader(r, p) in r.recs && Leader(r, p) in r.jobs && Member(r.recs[p], R(r, Leader(r, p)))
    {
      SweepLeader(t, p);
      LiveTogether(t, p);
      assert Member(t.recs[p], R(t, Leader(t, p)));
    }
    forall l | l in r.jobs ensures l in r.recs && Leader(r, l) == l {
      SweepJob(t, l);
    }
  }

  lemma SweepIndexed(t: Table)
    requires Grounded(t) && Indexed(t) && t.home.Keys == t.recs.Keys
    ensures PidsDiffer(Sweep(t)) && IndicesDiffer(Sweep(t))
  {
    var r := Sweep(t);
    forall l | l in r.jobs ensures l in t.jobs && R(r, l) == R(t, l) {
      SweepJob(t, l);
    }
  }

  lemma SweepPointed(t: Table)
    requires Grounded(t) && Pointed(t)
    ensures Pointed(Sweep(t))
  {
  }

  lemma SweepMax(t: Table)
    requires Grounded(t) && Members(t)
    ensures MaxIndex(Sweep(t).procs, Sweep(t).recs) == MaxIndex(t.procs, t.recs)
  {
    forall p | p in t.recs && t.recs[p].pid == 0 ensures t.recs[p].index == 0 {
      LiveTogether(t, p);
    }
    SweptMax(t.procs, t.recs, Sweep(t).recs);
  }

  /** A job is removed whole or kept whole. */
  ghost predicate WholeJobs(t: Table, r: Table) {
    forall p :: p in t.recs ==> (p in r.procs <==> R(t, Leader(t, p)).pid != 0)
  }

  lemma DistinctProcs(t: Table)
    requires Shaped(t)
    ensures Distinct(t.procs)
  {
    ShapedMeans(t);
  }

  /** The sweep removes exactly the flushed jobs, all of their processes. */
  lemma SweepStep(t: Table)
    requires Valid(t)
    ensures Valid(Sweep(t)) && WholeJobs(t, Sweep(t))
  {
    ValidMeans(t);
    HomeKeys(t);
    DistinctProcs(t);
    ListedAll(t);
    SweepShaped(t);
    SweepGrounded(t);
    SweepIndexed(t);
    SweepPointed(t);
    SweepMax(t);
    SweptKeeps(t.procs, t.recs);
    forall p | p in t.recs ensures p in Sweep(t).procs <==> R(t, Leader(t, p)).pid != 0 {
      LiveTogether(t, p);
    }
    ValidMeans(Sweep(t));
  }

  // ---- pflushall, and every run --------------------------------------------------------

  /** `pflushall` from the i-th process of the list on. */
  function FlushAll(t: Table, i: nat): Table
    decreases |t.procs| - i
  {
    if i >= |t.procs| then t
    else if R(t, t.procs[i]).pid == 0 then FlushAll(t, i + 1)
    else
      var r := Flush(t, Leader(t, t.procs[i]));
      FlushAll(r.(procs := t.procs), i + 1)
  }

  lemma FlushedProcs(t: Table, l: Process)
    ensures Flush(t, l).procs == t.procs
  {
  }

  /** After `pflushall` no process is live, and there is no current or previous job. */
  lemma {:induction false} FlushAllStep(t: Table, i: nat)
    requires Valid(t) && i <= |t.procs| && forall j :: 0 <= j < i ==> R(t, t.procs[j]).pid == 0
    ensures var r := FlushAll(t, i);
      Valid(r) && r.procs == t.procs && (forall j :: 0 <= j < |r.procs| ==> R(r, r.procs[j]).pid == 0) &&
      r.current == null && r.previous == null && r.building == null && r.maxIndex == 0
    decreases |t.procs| - i
  {
    if i == |t.procs| {
      NothingLive(t);
    } else {
      var p := t.procs[i];
      ListedIn(t, i);
      if R(t, p).pid == 0 {
        FlushAllStep(t, i + 1);
      } else {
        var l := Leader(t, p);
        LeaderLive(t, p);
        FlushStep(t, l);
        FlushedProcs(t, l);
        var r := Flush(t, l);
        assert r.(procs := t.procs) == r;
        forall j | 0 <= j <= i ensures R(r, r.procs[j]).pid == 0 {
          ListedIn(t, j);
        }
        FlushAllStep(r, i + 1);
      }
    }
  }

  lemma ListedIn(t: Table, i: nat)
    requires Valid(t) && i < |t.procs|
    ensures t.procs[i] in t.recs
  {
    ValidMeans(t);
  }

  lemma NothingLive(t: Table)
    requires Valid(t) && forall j :: 0 <= j < |t.procs| ==> R(t, t.procs[j]).pid == 0
    ensures t.current == null && t.previous == null && t.building == null && t.maxIndex == 0
  {
    ValidMeans(t);
    ListedAll(t);
    if t.maxIndex > 0 {
      var i := MaxReached(t.procs, t.recs);
      LiveTogether(t, t.procs[i]);
    }
    forall p | p in t.recs ensures R(t, p).pid == 0 {
      var j :| 0 <= j < |t.procs| && t.procs[j] == p;
    }
  }

  function Empty(): Table { Table([], map[], null, null, null, 0, map[], map[]) }

  lemma EmptyValid()
    ensures Valid(Empty())
  {
    ShapedMeans(Empty());
    ValidMeans(Empty());
  }

  /** What can happen to the table. */
  datatype Step =
    | Alloc(p: Process, pid: nat, background: bool)
    | EndJob
    | Wait(q: Process, status: Status, notify: bool)
    | StartJob(l: Process, foreground: bool)
    | FlushJob(j: Process)
    | Note(n: Process)
    | Notify(k: Process)
    | SweepDead

  /** New processes and pids are new, a status is reported for a process that is running or
      stopped, a note is due for a process that needs one, and jobs are started, flushed and marked
      by their leaders. */
  ghost predicate Allowed(t: Table, s: Step) {
    match s
    case Alloc(p, pid, _) => Fresh(t, p, pid)
    case EndJob => true
    case Wait(q, _, _) =>
      q in t.recs && R(t, q).pid != 0 && (RUNNING in R(t, q).flags || STOPPED in R(t, q).flags)
    case StartJob(l, _) => Live(t, l)
    case FlushJob(l) => Live(t, l)
    case Note(p) => p in t.recs && NEEDNOTE in R(t, p).flags
    case Notify(l) => Live(t, l)
    case SweepDead => true
  }

  function Apply(t: Table, s: Step): Table {
    match s
    case Alloc(p, pid, background) =>
      if t.building == null then AllocLeader(t, p, pid, background)
      else if Ring(t, t.building) == [] then t
      else AllocFriend(t, p, pid, background)
    case EndJob => t.(building := null)
    case Wait(q, status, notify) => Child(t, q, status, notify)
    case StartJob(l, foreground) => Start(t, l, foreground)
    case FlushJob(l) => Flush(t, l)
    case Note(p) => if p in t.recs then Noted(t, p) else t
    case Notify(l) => if l in t.recs then SetFlags(t, l, R(t, l).flags + {NOTIFY}) else t
    case SweepDead => Sweep(t)
  }

  lemma EndJobStep(t: Table)
    requires Valid(t)
    ensures Valid(t.(building := null))
  {
    ValidMeans(t);
    SameLists(t, t.(building := null));
    ValidMeans(t.(building := null));
  }

  /** Every step keeps what holds in every table. */
  lemma StepKeeps(t: Table, s: Step)
    requires Valid(t) && Allowed(t, s)
    ensures Valid(Apply(t, s))
  {
    match s
    case Alloc(p, pid, background) =>
      if t.building == null {
        AllocLeaderStep(t, p, pid, background);
      } else {
        AllocFriendStep(t, p, pid, background);
      }
    case EndJob => EndJobStep(t);
    case Wait(q, status, notify) => ChildStep(t, q, status, notify);
    case StartJob(l, foreground) => StartStep(t, l, foreground);
    case FlushJob(l) => FlushStep(t, l);
    case Note(p) => NotedStep(t, p);
    case Notify(l) => NotifyStep(t, l);
    case SweepDead => SweepStep(t);
  }

  function Run(steps: seq<Step>): Table
    decreases |steps|
  {
    if steps == [] then Empty() else Apply(Run(steps[..|steps| - 1]), steps[|steps| - 1])
  }

  ghost predicate AllAllowed(steps: seq<Step>)
    decreases |steps|
  {
    steps == [] || (AllAllowed(steps[..|steps| - 1]) && Allowed(Run(steps[..|steps| - 1]), steps[|steps| - 1]))
  }

  /** Every table that can be reached is valid. */
  lemma {:induction false} EveryRun(steps: seq<Step>)
    requires AllAllowed(steps)
    ensures Valid(Run(steps)) && Sound(Run(steps))
    decreases |steps|
  {
    if steps == [] {
      EmptyValid();
    } else {
      var n := |steps| - 1;
      EveryRun(steps[..n]);
      StepKeeps(Run(steps[..n]), steps[n]);
    }
    ValidMeans(Run(steps));
  }
}
