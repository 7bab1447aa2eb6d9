/**
  The job definition table, its synchronisation at start-up, and the agreement
  between the enabled flags in the table and the jobs a started manager has in
  its schedule.
*/
module JobTable {
  import opened Basics
  import opened CronState
  import opened CronManager
  import CronSystem

  datatype JobRow = JobRow(
    name: string,
    interval: string,
    description: Option<string>,
    enabled: bool,
    lastRun: Option<int>,
    lastStatus: Option<string>,
    deleted: bool)

  type Table = seq<JobRow>

  predicate IsLive(row: JobRow, name: string) {
    !row.deleted && row.name == name
  }

  predicate HasRow(t: Table, name: string) {
    exists i | 0 <= i < |t| :: IsLive(t[i], name)
  }

  /** The partial unique index of the table: live rows have different names. */
  predicate UniqueLive(t: Table) {
    forall i, j | 0 <= i < j < |t| && !t[i].deleted && !t[j].deleted :: t[i].name != t[j].name
  }

  /**
    Insert, or on a name that is there already overwrite interval and description. New rows get the column's default
    flag.
  */
  function Upsert(t: Table, job: Job, columnDefault: bool): Table {
    if HasRow(t, job.name)
    then seq(|t|, i requires 0 <= i < |t| =>
      if IsLive(t[i], job.name) then t[i].(interval := job.interval, description := None) else t[i])
    else t + [JobRow(job.name, job.interval, None, columnDefault, None, None, false)]
  }

  function SetFlag(t: Table, name: string, enabled: bool): Table {
    seq(|t|, i requires 0 <= i < |t| => if IsLive(t[i], name) then t[i].(enabled := enabled) else t[i])
  }

  function SetLastRun(t: Table, name: string, status: string, now: int): Table {
    seq(|t|, i requires 0 <= i < |t| =>
      if IsLive(t[i], name) then t[i].(lastRun := Some(now), lastStatus := Some(status)) else t[i])
  }

  /** A job without a row counts as enabled. */
  function IsEnabled(t: Table, name: string): bool {
    if t == [] then true
    else if IsLive(t[0], name) then t[0].enabled
    else IsEnabled(t[1..], name)
  }

  function Sync(t: Table, jobs: seq<Job>, columnDefault: bool): Table {
    if jobs == [] then t
    else Upsert(Sync(t, jobs[..|jobs| - 1], columnDefault), jobs[|jobs| - 1], columnDefault)
  }

  // ----- synchronisation

  lemma {:induction false} EnabledIsRowFlag(t: Table, name: string, i: nat)
    requires UniqueLive(t) && i < |t| && IsLive(t[i], name)
    ensures IsEnabled(t, name) == t[i].enabled
  {
    if IsLive(t[0], name) {
      assert i == 0;
    } else {
      EnabledIsRowFlag(t[1..], name, i - 1);
    }
  }

  /** Existing rows keep everything but interval and description; deleted rows keep everything; nothing is removed. */
  lemma {:induction false} SyncKeepsRows(t: Table, jobs: seq<Job>, dflt: bool)
    requires UniqueLive(t)
    ensures |Sync(t, jobs, dflt)| >= |t|
    ensures forall i | 0 <= i < |t| ::
              Sync(t, jobs, dflt)[i] == t[i].(interval := Sync(t, jobs, dflt)[i].interval,
                                             description := Sync(t, jobs, dflt)[i].description)
    ensures forall i | 0 <= i < |t| && (t[i].deleted || !Known(jobs, t[i].name)) :: Sync(t, jobs, dflt)[i] == t[i]
    ensures forall i | |t| <= i < |Sync(t, jobs, dflt)| ::
              Sync(t, jobs, dflt)[i].enabled == dflt && Known(jobs, Sync(t, jobs, dflt)[i].name)
  {
    if jobs == [] {
    } else {
      var rest, last := jobs[..|jobs| - 1], jobs[|jobs| - 1];
      SyncKeepsRows(t, rest, dflt);
      assert jobs == rest + [last];
      assert last in jobs;
      assert forall j | j in rest :: j in jobs;
    }
  }

  predicate DistinctNames(jobs: seq<Job>) {
    forall i, j | 0 <= i < j < |jobs| :: jobs[i].name != jobs[j].name
  }

  /**
    What synchronisation writes: with distinct names the live row of every job has the job's interval and no
    description; a row that is new has the default flag and has not run yet.
  */
  lemma {:induction false} SyncWrites(t: Table, jobs: seq<Job>, dflt: bool)
    requires UniqueLive(t) && DistinctNames(jobs)
    ensures forall i, j | 0 <= i < |Sync(t, jobs, dflt)| && j in jobs && IsLive(Sync(t, jobs, dflt)[i], j.name) ::
              Sync(t, jobs, dflt)[i].interval == j.interval && Sync(t, jobs, dflt)[i].description == None
    ensures |Sync(t, jobs, dflt)| >= |t|
    ensures forall i | |t| <= i < |Sync(t, jobs, dflt)| ::
              var row := Sync(t, jobs, dflt)[i];
              row.enabled == dflt && row.lastRun == None && row.lastStatus == None && !row.deleted
  {
    if jobs == [] {
    } else {
      var rest, last := jobs[..|jobs| - 1], jobs[|jobs| - 1];
      assert jobs == rest + [last];
      SyncWrites(t, rest, dflt);
      assert forall j | j in rest :: j.name != last.name;
      UpsertWrites(Sync(t, rest, dflt), last, dflt);
    }
  }

  lemma UpsertWrites(t: Table, job: Job, dflt: bool)
    ensures var u := Upsert(t, job, dflt);
            |u| >= |t| &&
            (forall i | 0 <= i < |u| && IsLive(u[i], job.name) ::
               u[i].interval == job.interval && u[i].description == None) &&
            (forall i | 0 <= i < |t| && !IsLive(t[i], job.name) :: u[i] == t[i]) &&
            (forall i | 0 <= i < |t| :: u[i] == t[i].(interval := u[i].interval, description := u[i].description)) &&
            (forall i | |t| <= i < |u| ::
               IsLive(u[i], job.name) && u[i].enabled == dflt && u[i].lastRun == None && u[i].lastStatus == None)
  {
  }

  /** After synchronisation there is one live row per name, and every job has one. */
  lemma {:induction false} SyncOneRowPerName(t: Table, jobs: seq<Job>, dflt: bool)
    requires UniqueLive(t)
    ensures UniqueLive(Sync(t, jobs, dflt))
    ensures forall n | HasRow(t, n) || Known(jobs, n) :: HasRow(Sync(t, jobs, dflt), n)
  {
    if jobs == [] {
    } else {
      var rest, last := jobs[..|jobs| - 1], jobs[|jobs| - 1];
      SyncOneRowPerName(t, rest, dflt);
      var mid := Sync(t, rest, dflt);
      var done := Upsert(mid, last, dflt);
      assert jobs == rest + [last];
      forall n | HasRow(t, n) || Known(jobs, n)
        ensures HasRow(done, n)
      {
        if n != last.name {
          assert HasRow(mid, n);
          var i :| 0 <= i < |mid| && IsLive(mid[i], n);
          assert IsLive(done[i], n);
        } else if HasRow(mid, n) {
          var i :| 0 <= i < |mid| && IsLive(mid[i], n);
          assert IsLive(done[i], n);
        } else {
          assert IsLive(done[|mid|], n);
        }
      }
    }
  }

  /** The interval the last job of that name asks for. */
  function LastInterval(jobs: seq<Job>, name: string, otherwise: string): string {
    if jobs == [] then otherwise
    else if jobs[|jobs| - 1].name == name then jobs[|jobs| - 1].interval
    else LastInterval(jobs[..|jobs| - 1], name, otherwise)
  }

  /** What synchronisation makes of the rows when every job has one already. */
  function Relabelled(row: JobRow, jobs: seq<Job>): JobRow {
    if !row.deleted && Known(jobs, row.name)
    then row.(interval := LastInterval(jobs, row.name, row.interval), description := None)
    else row
  }

  lemma {:induction false} SyncOfSettled(t: Table, jobs: seq<Job>, dflt: bool)
    requires UniqueLive(t) && forall j | j in jobs :: HasRow(t, j.name)
    ensures |Sync(t, jobs, dflt)| == |t|
    ensures forall i | 0 <= i < |t| :: Sync(t, jobs, dflt)[i] == Relabelled(t[i], jobs)
  {
    if jobs == [] {
    } else {
      var rest, last := jobs[..|jobs| - 1], jobs[|jobs| - 1];
      assert jobs == rest + [last];
      SyncOfSettled(t, rest, dflt);
      var mid := Sync(t, rest, dflt);
      assert HasRow(mid, last.name) by {
        var i :| 0 <= i < |t| && IsLive(t[i], last.name);
        assert IsLive(mid[i], last.name);
      }
      forall i | 0 <= i < |t|
        ensures Sync(t, jobs, dflt)[i] == Relabelled(t[i], jobs)
      {
        assert Known(jobs, t[i].name) <==> Known(rest, t[i].name) || t[i].name == last.name by {
          assert forall j | j in rest :: j in jobs;
          assert last in jobs;
        }
      }
    }
  }

  /** After synchronisation each job's row carries the interval of the last job of its name, and no description. */
  lemma {:induction false} SyncIntervals(t: Table, jobs: seq<Job>, dflt: bool)
    requires UniqueLive(t)
    ensures forall i | 0 <= i < |Sync(t, jobs, dflt)| ::
              Sync(t, jobs, dflt)[i] == Relabelled(Sync(t, jobs, dflt)[i], jobs)
  {
    if jobs == [] {
    } else {
      var rest, last := jobs[..|jobs| - 1], jobs[|jobs| - 1];
      assert jobs == rest + [last];
      SyncIntervals(t, rest, dflt);
      var mid, done := Sync(t, rest, dflt), Sync(t, jobs, dflt);
      forall i | 0 <= i < |done|
        ensures done[i] == Relabelled(done[i], jobs)
      {
        assert Known(jobs, done[i].name) <==> Known(rest, done[i].name) || done[i].name == last.name by {
          assert forall j | j in rest :: j in jobs;
          assert last in jobs;
        }
        if i < |mid| {
          assert mid[i] == Relabelled(mid[i], rest);
        }
      }
    }
  }

  /** Synchronising twice is synchronising once, duplicate job names included. */
  lemma SyncIdempotent(t: Table, jobs: seq<Job>, dflt: bool)
    requires UniqueLive(t)
    ensures Sync(Sync(t, jobs, dflt), jobs, dflt) == Sync(t, jobs, dflt)
  {
    var once := Sync(t, jobs, dflt);
    SyncOneRowPerName(t, jobs, dflt);
    SyncIntervals(t, jobs, dflt);
    SyncOfSettled(once, jobs, dflt);
  }

  // ----- agreement of table and schedule

  /** The schedule is a bijection, and a job is in it exactly when its row says enabled. */
  ghost predicate Agree(m: Inst, t: Table, jobs: seq<Job>) {
    Bijection(m) && UniqueLive(t) &&
    (forall j | j in jobs :: HasRow(t, j.name)) &&
    (forall n | n in m.entryMap :: Known(jobs, n)) &&
    (forall j | j in jobs :: j.name in m.entryMap <==> IsEnabled(t, j.name))
  }

  const CREATED := EMPTY.(clock := Created)

  /** The loop of Start over the first jobs: enabled ones are registered. */
  function Registered(m: Inst, t: Table, jobs: seq<Job>): Inst {
    if jobs == [] then m
    else
      var rest, last := Registered(m, t, jobs[..|jobs| - 1]), jobs[|jobs| - 1];
      if IsEnabled(t, last.name) then AddEntry(rest, last.name) else rest
  }

  lemma KnownAppend(jobs: seq<Job>, last: Job, n: string)
    ensures Known(jobs + [last], n) <==> Known(jobs, n) || n == last.name
  {
    assert last in jobs + [last];
    assert forall j | j in jobs :: j in jobs + [last];
  }

  /** Only the schedule changes. */
  predicate SameButSchedule(m: Inst, k: Inst) {
    k == m.(entryMap := k.entryMap, table := k.table, nextEntry := k.nextEntry)
  }

  lemma {:induction false} RegisteredAgrees(m: Inst, t: Table, jobs: seq<Job>)
    requires Bijection(m) && m.entryMap == map[] && DistinctNames(jobs)
    ensures Bijection(Registered(m, t, jobs)) && SameButSchedule(m, Registered(m, t, jobs))
    ensures forall n :: n in Registered(m, t, jobs).entryMap <==> Known(jobs, n) && IsEnabled(t, n)
  {
    if jobs == [] {
    } else {
      var rest, last := jobs[..|jobs| - 1], jobs[|jobs| - 1];
      assert jobs == rest + [last];
      RegisteredAgrees(m, t, rest);
      assert !Known(rest, last.name);
      if IsEnabled(t, last.name) {
        AddKeepsBijection(Registered(m, t, rest), last.name);
      }
      forall n
        ensures Known(jobs, n) <==> Known(rest, n) || n == last.name
      {
        KnownAppend(rest, last, n);
      }
    }
  }

  /** A successful start from scratch establishes the agreement. */
  lemma StartAgrees(t: Table, jobs: seq<Job>, dflt: bool)
    requires UniqueLive(t) && DistinctNames(jobs)
    ensures Agree(Registered(CREATED, Sync(t, jobs, dflt), jobs), Sync(t, jobs, dflt), jobs)
  {
    SyncOneRowPerName(t, jobs, dflt);
    RegisteredAgrees(CREATED, Sync(t, jobs, dflt), jobs);
    assert forall j | j in jobs :: Known(jobs, j.name);
  }

  /**
    Instances that have all been started successfully are an initial state of the system of interleaved handler
    runs.
  */
  lemma StartedInstancesAreInitial(s: CronSystem.State, t: Table, jobs: seq<Job>)
    requires DistinctNames(jobs)
    requires forall i | 0 <= i < |s.insts| :: s.insts[i] == Registered(CREATED, t, jobs).(clock := Ticking)
    requires s.runs == [] && s.rows == [] && s.keys == map[] && s.ended == {}
    ensures CronSystem.Initial(s)
  {
    RegisteredAgrees(CREATED, t, jobs);
  }

  /** What reaches the manager and the table while the service runs. */
  datatype Request =
    | EnableRequest(name: string)
    | DisableRequest(name: string, force: bool)
    | RunEnded(name: string, status: string, now: int)

  function Handled(m: Inst, t: Table, jobs: seq<Job>, parses: string -> bool, req: Request): (Inst, Table) {
    match req
    case EnableRequest(n) => (Enabled(m, jobs, parses, n), SetFlag(t, n, true))
    case DisableRequest(n, force) => (Disabled(m, n, force), SetFlag(t, n, false))
    case RunEnded(n, status, now) => (m, SetLastRun(t, n, status, now))
  }

  function HandledAll(m: Inst, t: Table, jobs: seq<Job>, parses: string -> bool, reqs: seq<Request>): (Inst, Table)
    decreases |reqs|
  {
    if reqs == [] then (m, t)
    else
      var (m', t') := Handled(m, t, jobs, parses, reqs[0]);
      HandledAll(m', t', jobs, parses, reqs[1..])
  }

  lemma SameLiveRows(t: Table, u: Table)
    requires |t| == |u| && UniqueLive(t)
    requires forall i | 0 <= i < |t| :: u[i].name == t[i].name && u[i].deleted == t[i].deleted
    ensures UniqueLive(u)
    ensures forall n | HasRow(t, n) :: HasRow(u, n)
  {
    forall n | HasRow(t, n)
      ensures HasRow(u, n)
    {
      var i :| 0 <= i < |t| && IsLive(t[i], n);
      assert IsLive(u[i], n);
    }
  }

  lemma SameNames(t: Table, u: Table, n: string)
    requires |t| == |u| && forall i | 0 <= i < |t| :: u[i].name == t[i].name && u[i].deleted == t[i].deleted
    ensures HasRow(u, n) <==> HasRow(t, n)
  {
    assert forall i | 0 <= i < |t| :: IsLive(t[i], n) <==> IsLive(u[i], n);
  }

  lemma {:induction false} NoRowEnabled(t: Table, name: string)
    requires !HasRow(t, name)
    ensures IsEnabled(t, name)
  {
    if t == [] {
    } else {
      assert forall i | 0 <= i < |t[1..]| :: t[1..][i] == t[i + 1];
      NoRowEnabled(t[1..], name);
    }
  }

  lemma {:induction false} FlagSet(t: Table, name: string, enabled: bool, n: string)
    requires HasRow(t, n)
    ensures IsEnabled(SetFlag(t, name, enabled), n) == if n == name then enabled else IsEnabled(t, n)
  {
    assert SetFlag(t, name, enabled)[1..] == SetFlag(t[1..], name, enabled);
    if IsLive(t[0], n) {
      assert IsLive(SetFlag(t, name, enabled)[0], n);
    } else {
      var i :| 0 <= i < |t| && IsLive(t[i], n);
      assert IsLive(t[1..][i - 1], n);
      FlagSet(t[1..], name, enabled, n);
    }
  }

  lemma {:induction false} LastRunKeepsFlag(t: Table, name: string, status: string, now: int, n: string)
    ensures IsEnabled(SetLastRun(t, name, status, now), n) == IsEnabled(t, n)
  {
    if t == [] {
    } else {
      assert SetLastRun(t, name, status, now)[1..] == SetLastRun(t[1..], name, status, now);
      LastRunKeepsFlag(t[1..], name, status, now, n);
    }
  }

  lemma KnownIsFound(jobs: seq<Job>, name: string)
    ensures FindJob(jobs, name) < |jobs| <==> Known(jobs, name)
  {
    var i := FindJob(jobs, name);
    if i < |jobs| {
      assert jobs[i] in jobs;
    }
  }

  lemma FlagsAfterEnable(t: Table, jobs: seq<Job>, name: string)
    requires UniqueLive(t) && forall j | j in jobs :: HasRow(t, j.name)
    ensures var u := SetFlag(t, name, true);
            UniqueLive(u) &&
            forall j | j in jobs ::
              HasRow(u, j.name) && IsEnabled(u, j.name) == (j.name == name || IsEnabled(t, j.name))
  {
    SameLiveRows(t, SetFlag(t, name, true));
    forall j | j in jobs
      ensures IsEnabled(SetFlag(t, name, true), j.name) == (j.name == name || IsEnabled(t, j.name))
    {
      FlagSet(t, name, true, j.name);
    }
  }

  lemma AddedAgrees(m: Inst, t: Table, jobs: seq<Job>, name: string)
    requires Agree(m, t, jobs) && Known(jobs, name) && name !in m.entryMap
    ensures Agree(AddEntry(m, name), SetFlag(t, name, true), jobs)
  {
    FlagsAfterEnable(t, jobs, name);
    AddKeepsBijection(m, name);
  }

  /** Setting the flag alone keeps the agreement unless the job is a known one that is not scheduled. */
  lemma FlagOnlyAgrees(m: Inst, t: Table, jobs: seq<Job>, name: string)
    requires Agree(m, t, jobs)
    ensures Agree(m, SetFlag(t, name, true), jobs) <==> !Known(jobs, name) || name in m.entryMap
  {
    FlagsAfterEnable(t, jobs, name);
    if Known(jobs, name) && name !in m.entryMap {
      var j :| j in jobs && j.name == name;
      assert IsEnabled(SetFlag(t, name, true), j.name);
    }
  }

  /**
    Enabling keeps the agreement exactly when the job is unknown, is scheduled already, or can be added: the scheduler
    exists and the interval parses.
  */
  lemma EnableAgreement(m: Inst, t: Table, jobs: seq<Job>, parses: string -> bool, name: string)
    requires Agree(m, t, jobs)
    ensures Agree(Enabled(m, jobs, parses, name), SetFlag(t, name, true), jobs) <==>
            !Known(jobs, name) || name in m.entryMap ||
            (m.clock != Absent && parses(jobs[FindJob(jobs, name)].interval))
  {
    KnownIsFound(jobs, name);
    FlagOnlyAgrees(m, t, jobs, name);
    if Known(jobs, name) && name !in m.entryMap {
      AddedAgrees(m, t, jobs, name);
    }
  }

  /**
    With the scheduler disabled by configuration, the schedule is empty: that agrees only with flags that are all
    off.
  */
  lemma DisabledStartAgreesIff(t: Table, jobs: seq<Job>)
    requires UniqueLive(t) && forall j | j in jobs :: HasRow(t, j.name)
    ensures Agree(EMPTY, t, jobs) <==> forall j | j in jobs :: !IsEnabled(t, j.name)
  {
  }

  /** And then every request to enable a known job breaks the agreement, whatever its interval: the flag stays set. */
  lemma EnableWithoutScheduler(t: Table, jobs: seq<Job>, parses: string -> bool, name: string)
    requires Agree(EMPTY, t, jobs) && Known(jobs, name)
    ensures Handled(EMPTY, t, jobs, parses, EnableRequest(name)) == (EMPTY, SetFlag(t, name, true))
    ensures EnableError(EMPTY, jobs, parses, name) == NoScheduler
    ensures !Agree(EMPTY, SetFlag(t, name, true), jobs)
  {
    KnownIsFound(jobs, name);
    EnableAgreement(EMPTY, t, jobs, parses, name);
  }

  /** One such input: one job, whose interval parses and whose row is off. */
  lemma OneJobWithoutScheduler()
    ensures var jobs := [Job("sync", "* * * * * *", SkipIfRunning)];
            var t := [JobRow("sync", "* * * * * *", None, false, None, None, false)];
            var after := Handled(EMPTY, t, jobs, _ => true, EnableRequest("sync"));
            Agree(EMPTY, t, jobs) && after.0 == EMPTY && IsEnabled(after.1, "sync") && !Agree(after.0, after.1, jobs)
  {
    var jobs := [Job("sync", "* * * * * *", SkipIfRunning)];
    var t := [JobRow("sync", "* * * * * *", None, false, None, None, false)];
    assert IsLive(t[0], "sync") && jobs[0] in jobs;
    EnableWithoutScheduler(t, jobs, _ => true, "sync");
    FlagSet(t, "sync", true, "sync");
  }

  lemma DisableAgreement(m: Inst, t: Table, jobs: seq<Job>, name: string, force: bool)
    requires Agree(m, t, jobs)
    ensures Agree(Disabled(m, name, force), SetFlag(t, name, false), jobs)
  {
    RemoveKeepsBijection(m, name);
    SameLiveRows(t, SetFlag(t, name, false));
    forall j | j in jobs
      ensures IsEnabled(SetFlag(t, name, false), j.name) == (j.name != name && IsEnabled(t, j.name))
    {
      FlagSet(t, name, false, j.name);
    }
  }

  lemma RunEndedAgreement(m: Inst, t: Table, jobs: seq<Job>, name: string, status: string, now: int)
    requires Agree(m, t, jobs)
    ensures Agree(m, SetLastRun(t, name, status, now), jobs)
  {
    SameLiveRows(t, SetLastRun(t, name, status, now));
    forall j | j in jobs
      ensures IsEnabled(SetLastRun(t, name, status, now), j.name) == IsEnabled(t, j.name)
    {
      LastRunKeepsFlag(t, name, status, now, j.name);
    }
  }

  lemma {:induction false} RequestsAgree(m: Inst, t: Table, jobs: seq<Job>, parses: string -> bool, reqs: seq<Request>)
    requires Agree(m, t, jobs) && m.clock != Absent && forall j | j in jobs :: parses(j.interval)
    ensures var (m', t') := HandledAll(m, t, jobs, parses, reqs); Agree(m', t', jobs)
    decreases |reqs|
  {
    if reqs == [] {
    } else {
      var (m', t') := Handled(m, t, jobs, parses, reqs[0]);
      match reqs[0] {
        case EnableRequest(n) =>
          EnableAgreement(m, t, jobs, parses, n);
          if Known(jobs, n) {
            assert jobs[FindJob(jobs, n)] in jobs;
          }
        case DisableRequest(n, force) => DisableAgreement(m, t, jobs, n, force);
        case RunEnded(n, status, now) => RunEndedAgreement(m, t, jobs, n, status, now);
      }
      RequestsAgree(m', t', jobs, parses, reqs[1..]);
    }
  }

  /** After a successful start with distinct names and valid intervals, every run of requests keeps the agreement. */
  lemma AgreementHolds(t: Table, jobs: seq<Job>, dflt: bool, parses: string -> bool, reqs: seq<Request>)
    requires UniqueLive(t) && DistinctNames(jobs) && forall j | j in jobs :: parses(j.interval)
    ensures var start := Sync(t, jobs, dflt);
            var (m', t') := HandledAll(Registered(CREATED, start, jobs).(clock := Ticking), start, jobs, parses, reqs);
            Agree(m', t', jobs)
  {
    StartAgrees(t, jobs, dflt);
    var start := Sync(t, jobs, dflt);
    RequestsAgree(Registered(CREATED, start, jobs).(clock := Ticking), start, jobs, parses, reqs);
  }

  // ----- the objects

  class CronJobService {
    const columnDefault: bool
    var rows: Table

    constructor (columnDefault: bool, rows: Table)
      ensures this.columnDefault == columnDefault && this.rows == rows
    {
      this.columnDefault, this.rows := columnDefault, rows;
    }

    method SyncJobDefinitions(jobs: seq<Job>)
      modifies this
      ensures rows == Sync(old(rows), jobs, columnDefault)
    {
      var i := 0;
      while i < |jobs|
        invariant 0 <= i <= |jobs|
        invariant rows == Sync(old(rows), jobs[..i], columnDefault)
      {
        rows := Upsert(rows, jobs[i], columnDefault);
        assert jobs[..i + 1][..i] == jobs[..i];
        i := i + 1;
      }
      assert jobs[..i] == jobs;
    }

    /** The flag of that job is what was asked for if it has a row; no other flag, column or row changes. */
    method SetEnabled(name: string, enabled: bool)
      modifies this
      ensures rows == SetFlag(old(rows), name, enabled) && |rows| == |old(rows)|
      ensures forall i | 0 <= i < |rows| :: rows[i] == old(rows)[i].(enabled := rows[i].enabled)
      ensures forall n: string :: HasRow(rows, n) <==> HasRow(old(rows), n)
      ensures forall n: string ::
                IsEnabled(rows, n) == if n == name && HasRow(old(rows), n) then enabled else IsEnabled(old(rows), n)
    {
      ghost var before := rows;
      rows := SetFlag(rows, name, enabled);
      forall n: string
        ensures HasRow(rows, n) <==> HasRow(before, n)
        ensures IsEnabled(rows, n) == if n == name && HasRow(before, n) then enabled else IsEnabled(before, n)
      {
        SameNames(before, rows, n);
        if HasRow(before, n) {
          FlagSet(before, name, enabled, n);
        } else {
          NoRowEnabled(before, n);
          NoRowEnabled(rows, n);
        }
      }
    }

    method IsJobEnabled(name: string) returns (enabled: bool)
      ensures enabled == IsEnabled(rows, name)
      ensures !HasRow(rows, name) ==> enabled
      ensures UniqueLive(rows) ==> forall i | 0 <= i < |rows| && IsLive(rows[i], name) :: enabled == rows[i].enabled
    {
      enabled := IsEnabled(rows, name);
      forall i | UniqueLive(rows) && 0 <= i < |rows| && IsLive(rows[i], name)
        ensures enabled == rows[i].enabled
      {
        EnabledIsRowFlag(rows, name, i);
      }
      if !HasRow(rows, name) {
        NoRowEnabled(rows, name);
      }
    }

    /** The live row of that name, if any, gets the outcome; no flag, no other column and no other row changes. */
    method UpdateLastRun(name: string, status: string, now: int)
      modifies this
      ensures rows == SetLastRun(old(rows), name, status, now) && |rows| == |old(rows)|
      ensures forall i | 0 <= i < |rows| && !IsLive(old(rows)[i], name) :: rows[i] == old(rows)[i]
      ensures forall i | 0 <= i < |rows| && IsLive(old(rows)[i], name) ::
                IsLive(rows[i], name) && rows[i].lastRun == Some(now) && rows[i].lastStatus == Some(status)
      ensures forall n: string ::
                IsEnabled(rows, n) == IsEnabled(old(rows), n) && (HasRow(rows, n) <==> HasRow(old(rows), n))
    {
      ghost var before := rows;
      rows := SetLastRun(rows, name, status, now);
      forall n: string
        ensures IsEnabled(rows, n) == IsEnabled(before, n) && (HasRow(rows, n) <==> HasRow(before, n))
      {
        LastRunKeepsFlag(before, name, status, now, n);
        SameNames(before, rows, n);
      }
    }
  }

  /**
    Start: create the scheduler, synchronise the definitions, register every enabled job, and only then set it going.
    It fails exactly when an enabled job has an interval that does not parse.
  */
  method Start(m: JobManager, service: CronJobService, cfgEnabled: bool) returns (err: ManagerError)
    requires m.View() == EMPTY
    modifies m, service
    ensures !cfgEnabled ==> err == Fine && m.View() == EMPTY && service.rows == old(service.rows)
    ensures cfgEnabled ==> service.rows == Sync(old(service.rows), m.jobs, service.columnDefault)
    ensures cfgEnabled ==>
              (err == Fine <==> forall j | j in m.jobs && IsEnabled(service.rows, j.name) :: m.parses(j.interval))
    ensures cfgEnabled && err == Fine ==> m.View() == Registered(CREATED, service.rows, m.jobs).(clock := Ticking)
    ensures err != Fine ==> err == BadInterval && m.clock == Created
  {
    if !cfgEnabled {
      return Fine;
    }
    m.clock := Created;
    service.SyncJobDefinitions(m.jobs);
    var i := 0;
    while i < |m.jobs|
      invariant 0 <= i <= |m.jobs|
      invariant service.rows == Sync(old(service.rows), m.jobs, service.columnDefault)
      invariant m.View() == Registered(CREATED, service.rows, m.jobs[..i]) && m.clock == Created
      invariant forall k | 0 <= k < i && IsEnabled(service.rows, m.jobs[k].name) :: m.parses(m.jobs[k].interval)
    {
      assert m.jobs[..i + 1][..i] == m.jobs[..i];
      var enabled := service.IsJobEnabled(m.jobs[i].name);
      if enabled {
        err := m.RegisterJob(m.jobs[i]);
        if err != Fine {
          assert m.jobs[i] in m.jobs;
          return;
        }
      }
      i := i + 1;
    }
    assert m.jobs[..i] == m.jobs;
    m.clock := Ticking;
    err := Fine;
  }

  /** The two request handlers: first the flag in the table, then the scheduler. */
  class CronJobHandler {
    const service: CronJobService
    const manager: JobManager

    constructor (service: CronJobService, manager: JobManager)
      ensures this.service == service && this.manager == manager
    {
      this.service, this.manager := service, manager;
    }

    method Enable(name: string) returns (err: ManagerError)
      modifies service, manager
      ensures (manager.View(), service.rows) ==
              Handled(old(manager.View()), old(service.rows), manager.jobs, manager.parses, EnableRequest(name))
      ensures err == EnableError(old(manager.View()), manager.jobs, manager.parses, name)
      ensures HasRow(old(service.rows), name) ==> IsEnabled(service.rows, name)
      ensures err == ManagerError.Fine <==> Known(manager.jobs, name) && name in manager.entryMap
    {
      service.SetEnabled(name, true);
      err := manager.EnableJob(name);
    }

    method Disable(name: string, force: bool)
      modifies service, manager
      ensures (manager.View(), service.rows) ==
              Handled(old(manager.View()), old(service.rows), manager.jobs, manager.parses, DisableRequest(name, force))
      ensures manager.entryMap == old(manager.entryMap) - {name}
      ensures manager.cancelled ==
              old(manager.cancelled) + if force && name in manager.cancelMap then {manager.cancelMap[name]} else {}
      ensures HasRow(old(service.rows), name) ==> !IsEnabled(service.rows, name)
    {
      service.SetEnabled(name, false);
      manager.DisableJob(name, force);
    }
  }
}
