/**
  The bookkeeping of one scheduler instance: the entry table of its cron
  scheduler, the entry map, the map of cancel functions and the contexts that
  have been cancelled. A cancel function is named by the execution (handler
  run) whose context it cancels.
*/
module CronState {

  datatype Mode = SkipIfRunning | DelayIfRunning | AllowConcurrent

  datatype Job = Job(name: string, interval: string, mode: Mode)

  /** The scheduler object: not created yet, created, started, stopped. */
  datatype Clock = Absent | Created | Ticking | Halted

  datatype Inst = Inst(
    clock: Clock,
    table: map<nat, string>,
    nextEntry: nat,
    entryMap: map<string, nat>,
    cancelMap: map<string, nat>,
    cancelled: set<nat>)

  /** NoScheduler: a job is added to a scheduler that was never created. That call panics, and nothing is changed. */
  datatype ManagerError = Fine | JobNotFound | JobRunning | BadInterval | NoScheduler

  const EMPTY := Inst(Absent, map[], 0, map[], map[], {})

  /** The first job of that name, if any. */
  function FindJob(jobs: seq<Job>, name: string): (i: nat)
    ensures i <= |jobs|
    ensures i < |jobs| ==> jobs[i].name == name
    ensures forall k | 0 <= k < i :: jobs[k].name != name
  {
    if jobs == [] then 0
    else if jobs[0].name == name then 0
    else 1 + FindJob(jobs[1..], name)
  }

  predicate Known(jobs: seq<Job>, name: string) {
    exists j | j in jobs :: j.name == name
  }

  function AddEntry(m: Inst, name: string): Inst {
    m.(table := m.table[m.nextEntry := name], nextEntry := m.nextEntry + 1, entryMap := m.entryMap[name := m.nextEntry])
  }

  function RemoveEntry(m: Inst, name: string): Inst {
    if name in m.entryMap then m.(table := m.table - {m.entryMap[name]}, entryMap := m.entryMap - {name}) else m
  }

  function CancelCurrent(m: Inst, name: string): Inst {
    if name in m.cancelMap then m.(cancelled := m.cancelled + {m.cancelMap[name]}) else m
  }

  function Disabled(m: Inst, name: string, cancelRunning: bool): Inst {
    if cancelRunning then CancelCurrent(RemoveEntry(m, name), name) else RemoveEntry(m, name)
  }

  function Stopped(m: Inst): Inst {
    if m.clock == Absent then m else m.(clock := Halted, cancelled := m.cancelled + m.cancelMap.Values)
  }

  function CancelRegistered(m: Inst, name: string, run: nat): Inst {
    m.(cancelMap := m.cancelMap[name := run])
  }

  function CancelSelf(m: Inst, run: nat): Inst {
    m.(cancelled := m.cancelled + {run})
  }

  function CancelDropped(m: Inst, name: string): Inst {
    m.(cancelMap := m.cancelMap - {name})
  }

  function TriggerError(m: Inst, jobs: seq<Job>, name: string, force: bool): ManagerError {
    var i := FindJob(jobs, name);
    if i == |jobs| then JobNotFound
    else if !force && name in m.cancelMap && jobs[i].mode != AllowConcurrent then JobRunning
    else Fine
  }

  function EnableError(m: Inst, jobs: seq<Job>, parses: string -> bool, name: string): ManagerError {
    var i := FindJob(jobs, name);
    if i == |jobs| then JobNotFound
    else if name in m.entryMap then Fine
    else if m.clock == Absent then NoScheduler
    else if parses(jobs[i].interval) then Fine
    else BadInterval
  }

  function Enabled(m: Inst, jobs: seq<Job>, parses: string -> bool, name: string): Inst {
    if EnableError(m, jobs, parses, name) == Fine && name !in m.entryMap then AddEntry(m, name) else m
  }

  /** The entry map and the table of live cron entries are each other's inverse. */
  predicate Bijection(m: Inst) {
    (forall n | n in m.entryMap :: m.entryMap[n] in m.table && m.table[m.entryMap[n]] == n) &&
    (forall e | e in m.table :: e < m.nextEntry && m.table[e] in m.entryMap && m.entryMap[m.table[e]] == e)
  }

  lemma AddKeepsBijection(m: Inst, name: string)
    requires Bijection(m) && name !in m.entryMap
    ensures Bijection(AddEntry(m, name))
    ensures AddEntry(m, name).entryMap.Keys == m.entryMap.Keys + {name}
  {
  }

  lemma RemoveKeepsBijection(m: Inst, name: string)
    requires Bijection(m)
    ensures Bijection(RemoveEntry(m, name))
    ensures RemoveEntry(m, name).entryMap.Keys == m.entryMap.Keys - {name}
  {
  }

  /** Taking a job out of the schedule and putting it back leaves the same jobs scheduled, under a new entry. */
  lemma DisableEnable(m: Inst, jobs: seq<Job>, parses: string -> bool, name: string, cancelRunning: bool)
    requires Bijection(m) && name in m.entryMap && m.clock != Absent
    requires FindJob(jobs, name) < |jobs| && parses(jobs[FindJob(jobs, name)].interval)
    ensures var m' := Enabled(Disabled(m, name, cancelRunning), jobs, parses, name);
            m'.entryMap.Keys == m.entryMap.Keys && m'.entryMap[name] !in m.table &&
            m'.cancelMap == m.cancelMap &&
            forall n | n in m.entryMap && n != name :: m'.entryMap[n] == m.entryMap[n]
  {
  }
}

/** The job manager object. */
module CronManager {
  import opened CronState

  class JobManager {
    const jobs: seq<Job>
    const parses: string -> bool
    var clock: Clock
    var table: map<nat, string>
    var nextEntry: nat
    var entryMap: map<string, nat>
    var cancelMap: map<string, nat>
    var cancelled: set<nat>

    ghost function View(): Inst
      reads this
    {
      Inst(clock, table, nextEntry, entryMap, cancelMap, cancelled)
    }

    constructor (jobs: seq<Job>, parses: string -> bool)
      ensures View() == EMPTY && this.jobs == jobs && this.parses == parses
    {
      this.jobs, this.parses := jobs, parses;
      clock, table, nextEntry, entryMap, cancelMap, cancelled := Absent, map[], 0, map[], map[], {};
    }

    /** The wrapped job goes into the cron table first, its entry id into the map afterwards. */
    method RegisterJob(j: Job) returns (err: ManagerError)
      modifies this
      ensures err == if clock == Absent then NoScheduler else if parses(j.interval) then Fine else BadInterval
      ensures View() == if err == Fine then AddEntry(old(View()), j.name) else old(View())
    {
      if clock == Absent {
        return NoScheduler;
      }
      if !parses(j.interval) {
        return BadInterval;
      }
      var id := nextEntry;
      table, nextEntry := table[id := j.name], nextEntry + 1;
      entryMap := entryMap[j.name := id];
      err := Fine;
    }

    method EnableJob(name: string) returns (err: ManagerError)
      modifies this
      ensures err == EnableError(old(View()), jobs, parses, name)
      ensures View() == Enabled(old(View()), jobs, parses, name)
      ensures err == JobNotFound <==> forall j | j in jobs :: j.name != name
      ensures err == Fine <==> Known(jobs, name) && name in entryMap
      ensures err == NoScheduler <==> Known(jobs, name) && name !in old(entryMap) && clock == Absent
      ensures err == BadInterval <==>
              Known(jobs, name) && name !in old(entryMap) && clock != Absent &&
              exists i | 0 <= i < |jobs| ::
                jobs[i].name == name && (forall k | 0 <= k < i :: jobs[k].name != name) && !parses(jobs[i].interval)
      ensures forall other | other != name :: other in entryMap <==> other in old(entryMap)
    {
      var i := 0;
      while i < |jobs|
        invariant 0 <= i <= FindJob(jobs, name)
        invariant View() == old(View())
      {
        if jobs[i].name == name {
          if name in entryMap {
            return Fine;
          }
          err := RegisterJob(jobs[i]);
          return;
        }
        i := i + 1;
      }
      err := JobNotFound;
    }

    method DisableJob(name: string, cancelRunning: bool)
      modifies this
      ensures View() == Disabled(old(View()), name, cancelRunning)
      ensures entryMap == old(entryMap) - {name}
      ensures table == if name in old(entryMap) then old(table) - {old(entryMap)[name]} else old(table)
      ensures cancelled == old(cancelled) + if cancelRunning && name in cancelMap then {cancelMap[name]} else {}
    {
      if name in entryMap {
        table := table - {entryMap[name]};
        entryMap := entryMap - {name};
      }
      if cancelRunning {
        if name in cancelMap {
          cancelled := cancelled + {cancelMap[name]};
        }
      }
    }

    /** Every registered cancel function is called, in whatever order the map is walked. */
    method Stop()
      modifies this
      ensures View() == Stopped(old(View()))
      ensures old(clock) != Absent ==> clock == Halted && forall n | n in cancelMap :: cancelMap[n] in cancelled
    {
      if clock == Absent {
        return;
      }
      clock := Halted;
      var names := cancelMap.Keys;
      while names != {}
        invariant names <= cancelMap.Keys
        invariant View() == old(View()).(clock := Halted, cancelled := cancelled)
        invariant cancelled == old(cancelled) + set n | n in cancelMap && n !in names :: cancelMap[n]
        decreases names
      {
        var name :| name in names;
        names := names - {name};
        cancelled := cancelled + {cancelMap[name]};
      }
    }

    method TriggerManual(name: string, force: bool) returns (err: ManagerError)
      ensures err == TriggerError(View(), jobs, name, force)
      ensures err == JobNotFound <==> forall j | j in jobs :: j.name != name
      ensures err == JobRunning <==>
              !force && name in cancelMap &&
              exists i | 0 <= i < |jobs| ::
                jobs[i].name == name && (forall k | 0 <= k < i :: jobs[k].name != name) &&
                jobs[i].mode != AllowConcurrent
      ensures err == JobNotFound || err == JobRunning || err == Fine
    {
      var i := 0;
      while i < |jobs|
        invariant 0 <= i <= FindJob(jobs, name)
      {
        if jobs[i].name == name {
          if !force {
            var running := name in cancelMap;
            if running && jobs[i].mode != AllowConcurrent {
              return JobRunning;
            }
          }
          return Fine;
        }
        i := i + 1;
      }
      err := JobNotFound;
    }

    /**
      The first locked section of a handler: its cancel function goes under the name, whatever was there. From now on a
      disable with cancellation reaches this run, and an unforced trigger of a job that may not overlap is refused.
    */
    method RegisterCancel(name: string, run: nat)
      modifies this`cancelMap
      ensures View() == CancelRegistered(old(View()), name, run)
      ensures run in Disabled(View(), name, true).cancelled
      ensures var i := FindJob(jobs, name);
              i < |jobs| && jobs[i].mode != AllowConcurrent ==> TriggerError(View(), jobs, name, false) == JobRunning
      ensures forall other: string, force | other != name ::
                TriggerError(View(), jobs, other, force) == TriggerError(old(View()), jobs, other, force)
    {
      cancelMap := cancelMap[name := run];
    }

    /**
      The deferred end of a handler: cancel its own context, then drop the entry of the name, whoever wrote it. From now
      on no trigger of that name is refused as running, and a disable with cancellation cancels nobody.
    */
    method LeaveHandler(name: string, run: nat)
      modifies this`cancelMap, this`cancelled
      ensures View() == CancelDropped(CancelSelf(old(View()), run), name)
      ensures forall force :: TriggerError(View(), jobs, name, force) != JobRunning
      ensures Disabled(View(), name, true).cancelled == View().cancelled == old(cancelled) + {run}
      ensures forall other: string, force | other != name ::
                TriggerError(View(), jobs, other, force) == TriggerError(old(View()), jobs, other, force)
    {
      cancelled := cancelled + {run};
      cancelMap := cancelMap - {name};
    }
  }
}
