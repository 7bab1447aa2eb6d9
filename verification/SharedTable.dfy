/**
  Several instances over one job table. A request sets the flag that all of them
  share, but reaches the schedule of the one instance that serves it. When flags
  and schedules agree on every instance is decided by who was asked last.
*/
module SharedTable {
  import opened CronState
  import opened JobTable

  /** A request, served by instance i. */
  datatype Call = Call(i: nat, req: Request)

  ghost predicate Addressed(calls: seq<Call>, n: nat) {
    forall k | 0 <= k < |calls| :: calls[k].i < n
  }

  function Serve(insts: seq<Inst>, t: Table, jobs: seq<Job>, parses: string -> bool, calls: seq<Call>)
    : (r: (seq<Inst>, Table))
    requires Addressed(calls, |insts|)
    ensures |r.0| == |insts|
  {
    if calls == [] then (insts, t)
    else
      var (before, table) := Serve(insts, t, jobs, parses, calls[..|calls| - 1]);
      var c := calls[|calls| - 1];
      var (m, u) := Handled(before[c.i], table, jobs, parses, c.req);
      (before[c.i := m], u)
  }

  /** What the last request about a job asked for, whoever served it. */
  function Wanted(calls: seq<Call>, n: string, otherwise: bool): bool {
    if calls == [] then otherwise
    else
      match calls[|calls| - 1].req
      case EnableRequest(name) => if name == n then true else Wanted(calls[..|calls| - 1], n, otherwise)
      case DisableRequest(name, _) => if name == n then false else Wanted(calls[..|calls| - 1], n, otherwise)
      case RunEnded(_, _, _) => Wanted(calls[..|calls| - 1], n, otherwise)
  }

  /** What the last request about a job that this instance served asked for, if it was able to do it. */
  function Done(calls: seq<Call>, i: nat, n: string, able: bool, otherwise: bool): bool {
    if calls == [] then otherwise
    else
      var rest, c := calls[..|calls| - 1], calls[|calls| - 1];
      if c.i != i then Done(rest, i, n, able, otherwise)
      else
        match c.req
        case EnableRequest(name) => (name == n && able) || Done(rest, i, n, able, otherwise)
        case DisableRequest(name, _) => name != n && Done(rest, i, n, able, otherwise)
        case RunEnded(_, _, _) => Done(rest, i, n, able, otherwise)
  }

  /** The instance has a scheduler, and the interval of the job parses. */
  predicate Able(m: Inst, jobs: seq<Job>, parses: string -> bool, n: string) {
    m.clock != Absent && var k := FindJob(jobs, n); k < |jobs| && parses(jobs[k].interval)
  }

  /** A table with one live row for every job, and schedules of known jobs only. */
  ghost predicate Sound(insts: seq<Inst>, t: Table, jobs: seq<Job>) {
    UniqueLive(t) && (forall j | j in jobs :: HasRow(t, j.name)) &&
    forall i | 0 <= i < |insts| :: Bijection(insts[i]) && forall n | n in insts[i].entryMap :: Known(jobs, n)
  }

  ghost predicate AllAgree(insts: seq<Inst>, t: Table, jobs: seq<Job>) {
    forall i | 0 <= i < |insts| :: Agree(insts[i], t, jobs)
  }

  // ----- one request

  lemma HandledFlag(m: Inst, t: Table, jobs: seq<Job>, parses: string -> bool, req: Request, n: string)
    requires HasRow(t, n)
    ensures var u := Handled(m, t, jobs, parses, req).1;
            HasRow(u, n) && IsEnabled(u, n) == Wanted([Call(0, req)], n, IsEnabled(t, n))
  {
    var u := Handled(m, t, jobs, parses, req).1;
    SameNames(t, u, n);
    assert [Call(0, req)][..0] == [];
    match req
    case EnableRequest(name) => FlagSet(t, name, true, n);
    case DisableRequest(name, _) => FlagSet(t, name, false, n);
    case RunEnded(name, status, now) => LastRunKeepsFlag(t, name, status, now, n);
  }

  lemma HandledSchedule(m: Inst, t: Table, jobs: seq<Job>, parses: string -> bool, req: Request, n: string)
    requires Bijection(m) && Known(jobs, n)
    ensures var k := Handled(m, t, jobs, parses, req).0;
            Bijection(k) && k.clock == m.clock &&
            (n in k.entryMap <==> Done([Call(0, req)], 0, n, Able(m, jobs, parses, n), n in m.entryMap))
  {
    KnownIsFound(jobs, n);
    assert [Call(0, req)][..0] == [];
    match req
    case EnableRequest(name) =>
      if name !in m.entryMap {
        AddKeepsBijection(m, name);
      }
    case DisableRequest(name, _) => RemoveKeepsBijection(m, name);
    case RunEnded(_, _, _) =>
  }

  lemma KeepsKnown(m: Inst, t: Table, jobs: seq<Job>, parses: string -> bool, req: Request)
    requires Bijection(m) && forall n | n in m.entryMap :: Known(jobs, n)
    ensures var k := Handled(m, t, jobs, parses, req).0;
            Bijection(k) && forall n | n in k.entryMap :: Known(jobs, n)
  {
    match req
    case EnableRequest(name) =>
      KnownIsFound(jobs, name);
      if name !in m.entryMap {
        AddKeepsBijection(m, name);
      }
    case DisableRequest(name, _) => RemoveKeepsBijection(m, name);
    case RunEnded(_, _, _) =>
  }

  lemma HandledSound(m: Inst, t: Table, jobs: seq<Job>, parses: string -> bool, req: Request)
    requires Sound([m], t, jobs)
    ensures var (k, u) := Handled(m, t, jobs, parses, req); Sound([k], u, jobs)
  {
    var (k, u) := Handled(m, t, jobs, parses, req);
    assert Bijection([m][0]);
    SameLiveRows(t, u);
    KeepsKnown(m, t, jobs, parses, req);
  }

  // ----- any number of requests

  lemma {:induction false} ServedSound(insts: seq<Inst>, t: Table, jobs: seq<Job>, parses: string -> bool,
                                       calls: seq<Call>)
    requires Sound(insts, t, jobs) && Addressed(calls, |insts|)
    ensures var (ms, u) := Serve(insts, t, jobs, parses, calls); Sound(ms, u, jobs)
  {
    if calls == [] {
    } else {
      var rest, c := calls[..|calls| - 1], calls[|calls| - 1];
      ServedSound(insts, t, jobs, parses, rest);
      var (ms, u) := Serve(insts, t, jobs, parses, rest);
      assert Sound([ms[c.i]], u, jobs);
      HandledSound(ms[c.i], u, jobs, parses, c.req);
      assert forall k: Inst :: Sound([k], Handled(ms[c.i], u, jobs, parses, c.req).1, jobs) ==> Bijection([k][0]);
    }
  }

  /** The flag of a job is what the last request about it asked for. */
  lemma {:induction false} FlagIsWanted(insts: seq<Inst>, t: Table, jobs: seq<Job>, parses: string -> bool,
                                        calls: seq<Call>, n: string)
    requires Addressed(calls, |insts|) && HasRow(t, n)
    ensures var u := Serve(insts, t, jobs, parses, calls).1;
            HasRow(u, n) && IsEnabled(u, n) == Wanted(calls, n, IsEnabled(t, n))
  {
    if calls == [] {
    } else {
      var rest, c := calls[..|calls| - 1], calls[|calls| - 1];
      FlagIsWanted(insts, t, jobs, parses, rest, n);
      var (ms, u) := Serve(insts, t, jobs, parses, rest);
      HandledFlag(ms[c.i], u, jobs, parses, c.req, n);
      assert [Call(0, c.req)][..0] == [];
    }
  }

  /** The schedule of an instance is what the last request that it served asked for, as far as it was able. */
  lemma {:induction false} ScheduleIsDone(insts: seq<Inst>, t: Table, jobs: seq<Job>, parses: string -> bool,
                                          calls: seq<Call>, i: nat, n: string)
    requires Addressed(calls, |insts|) && i < |insts| && Bijection(insts[i]) && Known(jobs, n)
    ensures var m := Serve(insts, t, jobs, parses, calls).0[i];
            Bijection(m) && m.clock == insts[i].clock &&
            (n in m.entryMap <==> Done(calls, i, n, Able(insts[i], jobs, parses, n), n in insts[i].entryMap))
  {
    if calls == [] {
    } else {
      var rest, c := calls[..|calls| - 1], calls[|calls| - 1];
      ScheduleIsDone(insts, t, jobs, parses, rest, i, n);
      if c.i == i {
        var (ms, u) := Serve(insts, t, jobs, parses, rest);
        HandledSchedule(ms[i], u, jobs, parses, c.req, n);
        assert [Call(0, c.req)][..0] == [];
      }
    }
  }

  /** The instance has done what the last request of all about the job asked for. */
  predicate Settled(insts: seq<Inst>, t: Table, jobs: seq<Job>, parses: string -> bool, calls: seq<Call>, i: nat,
                    n: string)
    requires i < |insts|
  {
    Done(calls, i, n, Able(insts[i], jobs, parses, n), n in insts[i].entryMap) == Wanted(calls, n, IsEnabled(t, n))
  }

  lemma OneAgreesIff(insts: seq<Inst>, t: Table, jobs: seq<Job>, parses: string -> bool, calls: seq<Call>, i: nat)
    requires Sound(insts, t, jobs) && Addressed(calls, |insts|) && i < |insts|
    ensures var (ms, u) := Serve(insts, t, jobs, parses, calls);
            Agree(ms[i], u, jobs) <==> forall j | j in jobs :: Settled(insts, t, jobs, parses, calls, i, j.name)
  {
    var (ms, u) := Serve(insts, t, jobs, parses, calls);
    ServedSound(insts, t, jobs, parses, calls);
    forall j | j in jobs
      ensures (j.name in ms[i].entryMap <==> IsEnabled(u, j.name)) <==>
              Settled(insts, t, jobs, parses, calls, i, j.name)
    {
      assert Known(jobs, j.name);
      ScheduleIsDone(insts, t, jobs, parses, calls, i, j.name);
      FlagIsWanted(insts, t, jobs, parses, calls, j.name);
    }
  }

  /**
    Exactly when flags and schedules agree on every instance after a run of requests: for each job, each instance has
    done what the last request of all asked for.
  */
  lemma AllAgreeIff(insts: seq<Inst>, t: Table, jobs: seq<Job>, parses: string -> bool, calls: seq<Call>)
    requires Sound(insts, t, jobs) && Addressed(calls, |insts|)
    ensures var (ms, u) := Serve(insts, t, jobs, parses, calls);
            AllAgree(ms, u, jobs) <==>
            forall i, j | 0 <= i < |insts| && j in jobs :: Settled(insts, t, jobs, parses, calls, i, j.name)
  {
    var (ms, u) := Serve(insts, t, jobs, parses, calls);
    if AllAgree(ms, u, jobs) {
      forall i, j | 0 <= i < |insts| && j in jobs
        ensures Settled(insts, t, jobs, parses, calls, i, j.name)
      {
        assert Agree(ms[i], u, jobs);
        OneAgreesIff(insts, t, jobs, parses, calls, i);
      }
    }
    if forall i, j | 0 <= i < |insts| && j in jobs :: Settled(insts, t, jobs, parses, calls, i, j.name) {
      forall i | 0 <= i < |insts|
        ensures Agree(ms[i], u, jobs)
      {
        OneAgreesIff(insts, t, jobs, parses, calls, i);
      }
    }
  }

  function Toggle(n: string, on: bool, force: bool): Request {
    if on then EnableRequest(n) else DisableRequest(n, force)
  }

  /** What one request settles, for each instance k and each job x. */
  lemma OneSettled(insts: seq<Inst>, t: Table, jobs: seq<Job>, parses: string -> bool, i: nat, n: string, on: bool,
                   force: bool, k: nat, x: string)
    requires k < |insts| && (x in insts[k].entryMap <==> IsEnabled(t, x))
    ensures Settled(insts, t, jobs, parses, [Call(i, Toggle(n, on, force))], k, x) <==>
            x != n || IsEnabled(t, n) == on || (k == i && (on ==> Able(insts[i], jobs, parses, n)))
  {
    var calls, able := [Call(i, Toggle(n, on, force))], Able(insts[k], jobs, parses, x);
    assert calls[..|calls| - 1] == [];
    assert Done([], k, x, able, x in insts[k].entryMap) == (x in insts[k].entryMap);
    assert Wanted([], x, IsEnabled(t, x)) == IsEnabled(t, x);
    assert Wanted(calls, x, IsEnabled(t, x)) == if x == n then on else IsEnabled(t, x);
  }

  lemma ServeOne(insts: seq<Inst>, t: Table, jobs: seq<Job>, parses: string -> bool, i: nat, req: Request)
    requires i < |insts|
    ensures var (m, u) := Handled(insts[i], t, jobs, parses, req);
            Serve(insts, t, jobs, parses, [Call(i, req)]) == (insts[i := m], u)
  {
    assert [Call(i, req)][..0] == [];
  }

  lemma AgreeIsSound(insts: seq<Inst>, t: Table, jobs: seq<Job>, i: nat)
    requires AllAgree(insts, t, jobs) && i < |insts|
    ensures Sound(insts, t, jobs)
    ensures forall k, j | 0 <= k < |insts| && j in jobs :: j.name in insts[k].entryMap <==> IsEnabled(t, j.name)
  {
    assert Agree(insts[i], t, jobs);
    forall k | 0 <= k < |insts|
      ensures Bijection(insts[k]) && forall n | n in insts[k].entryMap :: Known(jobs, n)
      ensures forall j | j in jobs :: j.name in insts[k].entryMap <==> IsEnabled(t, j.name)
    {
      assert Agree(insts[k], t, jobs);
    }
  }

  /**
    One request to several instances that agree: it keeps them in agreement exactly when it is about no known job, asks
    for what is so already, or is served by the only instance, which must be able to do it.
  */
  lemma OneCallIff(insts: seq<Inst>, t: Table, jobs: seq<Job>, parses: string -> bool, i: nat, n: string, on: bool,
                   force: bool)
    requires AllAgree(insts, t, jobs) && i < |insts|
    ensures var (m, u) := Handled(insts[i], t, jobs, parses, Toggle(n, on, force));
            AllAgree(insts[i := m], u, jobs) <==>
            !Known(jobs, n) || IsEnabled(t, n) == on || (|insts| == 1 && (on ==> Able(insts[i], jobs, parses, n)))
  {
    var calls := [Call(i, Toggle(n, on, force))];
    AgreeIsSound(insts, t, jobs, i);
    ServeOne(insts, t, jobs, parses, i, Toggle(n, on, force));
    AllAgreeIff(insts, t, jobs, parses, calls);
    forall k: nat, j | k < |insts| && j in jobs
      ensures Settled(insts, t, jobs, parses, calls, k, j.name) <==>
              j.name != n || IsEnabled(t, n) == on || (k == i && (on ==> Able(insts[i], jobs, parses, n)))
    {
      OneSettled(insts, t, jobs, parses, i, n, on, force, k, j.name);
    }
    if Known(jobs, n) {
      var j :| j in jobs && j.name == n;
      var other: nat := if i > 0 then 0 else |insts| - 1;
      assert Settled(insts, t, jobs, parses, calls, other, j.name) <==>
             IsEnabled(t, n) == on || (other == i && (on ==> Able(insts[i], jobs, parses, n)));
      assert Settled(insts, t, jobs, parses, calls, i, j.name) <==>
             IsEnabled(t, n) == on || (on ==> Able(insts[i], jobs, parses, n));
    }
  }
}
