/**
  When the cancel map of an instance is complete for a skip or delay job: when
  every live handler of the job can be found in it. All results are about one
  job `n` on one instance `i`; the other jobs and instances do what they like.
*/
module CronCompleteness {
  import opened CronState
  import opened CronSystem

  predicate OfJob(run: Run, i: nat, n: string) {
    !run.manual && run.inst == i && run.name == n
  }

  /** A scheduled run that has been launched and can still touch the cancel map. */
  predicate Pending(run: Run) {
    !run.manual && !run.phase.Left? && !run.phase.Over?
  }

  ghost predicate SomePending(s: State, i: nat, n: string) {
    exists r: nat :: r < |s.runs| && Pending(s.runs[r]) && OfJob(s.runs[r], i, n)
  }

  /** Some handler of the job is live on the instance. */
  ghost predicate SomeLive(s: State, i: nat, n: string) {
    exists r: nat :: r < |s.runs| && Live(s.runs[r]) && OfJob(s.runs[r], i, n)
  }

  /** The map knows the job exactly when a handler of it is live. */
  ghost predicate Complete(s: State, i: nat, n: string) {
    i < |s.insts| && (n in s.insts[i].cancelMap <==> SomeLive(s, i, n))
  }

  /** The step puts the job back into the schedule of a ticking clock. */
  predicate PutsBack(cfg: Config, s: State, step: Step, i: nat, n: string) {
    step == Enable(i, n) && i < |s.insts| && s.insts[i].clock == Ticking && n !in s.insts[i].entryMap &&
    EnableError(s.insts[i], cfg.jobs, cfg.parses, n) == Fine
  }

  /** The job is not put back while a run of its removed entry is pending. */
  ghost predicate OrderlyStep(cfg: Config, s: State, step: Step, i: nat, n: string) {
    PutsBack(cfg, s, step, i, n) ==> !SomePending(s, i, n)
  }

  ghost predicate Orderly(cfg: Config, s: State, steps: seq<Step>, i: nat, n: string)
    decreases |steps|
  {
    steps != [] && CanTake(cfg, s, steps[0]) ==>
      OrderlyStep(cfg, s, steps[0], i, n) && Orderly(cfg, Next(cfg, s, steps[0]), steps[1..], i, n)
  }

  // ----- what holds in every run

  /** Entry numbers are never used for two jobs. */
  ghost predicate EntriesOwned(s: State, i: nat)
    requires i < |s.insts|
  {
    var m := s.insts[i];
    (forall r: nat | r < |s.runs| && !s.runs[r].manual && s.runs[r].inst == i ::
       s.runs[r].entry < m.nextEntry && (s.runs[r].entry in m.table ==> m.table[s.runs[r].entry] == s.runs[r].name)) &&
    (forall r: nat, q: nat | r < |s.runs| && q < |s.runs| && !s.runs[r].manual && !s.runs[q].manual &&
                             s.runs[r].inst == i && s.runs[q].inst == i && s.runs[r].entry == s.runs[q].entry ::
       s.runs[r].name == s.runs[q].name)
  }

  /** The wrapper of an entry lets one run in at a time. */
  ghost predicate OneInside(s: State, i: nat, n: string) {
    forall r: nat, q: nat | r < |s.runs| && q < |s.runs| && Inside(s.runs[r]) && Inside(s.runs[q]) &&
                            OfJob(s.runs[r], i, n) && OfJob(s.runs[q], i, n) && s.runs[r].entry == s.runs[q].entry ::
      r == q
  }

  ghost predicate WellKept(s: State, i: nat, n: string) {
    Inv(s) && i < |s.insts| && Bijection(s.insts[i]) && EntriesOwned(s, i) && OneInside(s, i, n)
  }

  /** Which instances' entry maps a step changes. */
  lemma StepEntryMaps(cfg: Config, s: State, step: Step, i: nat)
    requires CanTake(cfg, s, step) && i < |s.insts|
    ensures |Next(cfg, s, step).insts| == |s.insts|
    ensures var before, after := s.insts[i], Next(cfg, s, step).insts[i];
            if step.Enable? && step.i == i then after == Enabled(before, cfg.jobs, cfg.parses, step.name)
            else if step.Disable? && step.i == i then after == Disabled(before, step.name, step.cancelRunning)
            else
              after.entryMap == before.entryMap && after.table == before.table && after.nextEntry == before.nextEntry &&
              (after.clock == before.clock || after.clock == Halted)
  {
  }

  lemma StepBijection(cfg: Config, s: State, step: Step, i: nat)
    requires CanTake(cfg, s, step) && i < |s.insts| && Bijection(s.insts[i])
    ensures i < |Next(cfg, s, step).insts| && Bijection(Next(cfg, s, step).insts[i])
  {
    StepEntryMaps(cfg, s, step, i);
    if step.Enable? && step.i == i && step.name !in s.insts[i].entryMap {
      AddKeepsBijection(s.insts[i], step.name);
    } else if step.Disable? && step.i == i {
      RemoveKeepsBijection(s.insts[i], step.name);
    }
  }

  lemma StepEntriesOwned(cfg: Config, s: State, step: Step, i: nat)
    requires CanTake(cfg, s, step) && i < |s.insts| && Bijection(s.insts[i]) && EntriesOwned(s, i)
    ensures i < |Next(cfg, s, step).insts| && EntriesOwned(Next(cfg, s, step), i)
  {
    StepRuns(cfg, s, step);
    StepEvolves(cfg, s, step);
    StepEntryMaps(cfg, s, step, i);
  }

  /** Only an admission lets a run in, and not while the wrapper of its entry is taken. */
  lemma StepOneInside(cfg: Config, s: State, step: Step, i: nat, n: string)
    requires CanTake(cfg, s, step) && OneInside(s, i, n) && ModeOf(cfg, n) != AllowConcurrent
    ensures OneInside(Next(cfg, s, step), i, n)
  {
    var t := Next(cfg, s, step);
    StepRuns(cfg, s, step);
    StepEvolves(cfg, s, step);
    forall r: nat, q: nat | r < |t.runs| && q < |t.runs| && Inside(t.runs[r]) && Inside(t.runs[q]) &&
                            OfJob(t.runs[r], i, n) && OfJob(t.runs[q], i, n) && t.runs[r].entry == t.runs[q].entry
      ensures r == q
    {
      assert r < |s.runs| && q < |s.runs|;
      assert !Inside(s.runs[r]) ==> step == Admit(r) && !EntryBusy(s, i, s.runs[r].entry);
      assert !Inside(s.runs[q]) ==> step == Admit(q) && !EntryBusy(s, i, s.runs[q].entry);
    }
  }

  lemma StepWellKept(cfg: Config, s: State, step: Step, i: nat, n: string)
    requires CanTake(cfg, s, step) && WellKept(s, i, n) && ModeOf(cfg, n) != AllowConcurrent
    ensures WellKept(Next(cfg, s, step), i, n)
  {
    StepInv(cfg, s, step);
    StepBijection(cfg, s, step, i);
    StepEntriesOwned(cfg, s, step, i);
    StepOneInside(cfg, s, step, i, n);
  }

  /** Every reachable state is well kept, after disorderly runs too. */
  lemma {:induction false} RunWellKept(cfg: Config, s: State, steps: seq<Step>, t: State, i: nat, n: string)
    requires WellKept(s, i, n) && IsRun(cfg, s, steps, t) && ModeOf(cfg, n) != AllowConcurrent
    ensures WellKept(t, i, n)
    decreases |steps|
  {
    if steps == [] {
    } else {
      StepWellKept(cfg, s, steps[0], i, n);
      RunWellKept(cfg, Next(cfg, s, steps[0]), steps[1..], t, i, n);
    }
  }

  // ----- what holds in orderly runs

  /** As long as the clock ticks, the pending runs of the job belong to its present entry. */
  ghost predicate EntryAgrees(s: State, i: nat, n: string)
    requires i < |s.insts|
  {
    s.insts[i].clock == Ticking && n in s.insts[i].entryMap ==>
      forall r: nat | r < |s.runs| && Pending(s.runs[r]) && OfJob(s.runs[r], i, n) ::
        s.runs[r].entry == s.insts[i].entryMap[n]
  }

  ghost predicate SameEntry(s: State, i: nat, n: string) {
    forall r: nat, q: nat | r < |s.runs| && q < |s.runs| && Pending(s.runs[r]) && Pending(s.runs[q]) &&
                            OfJob(s.runs[r], i, n) && OfJob(s.runs[q], i, n) :: s.runs[r].entry == s.runs[q].entry
  }

  ghost predicate LiveRegistered(s: State, i: nat, n: string)
    requires i < |s.insts|
  {
    forall r: nat | r < |s.runs| && Live(s.runs[r]) && OfJob(s.runs[r], i, n) ::
      n in s.insts[i].cancelMap && s.insts[i].cancelMap[n] == r
  }

  ghost predicate OrderlyInv(s: State, i: nat, n: string) {
    WellKept(s, i, n) && EntryAgrees(s, i, n) && SameEntry(s, i, n) && LiveRegistered(s, i, n)
  }

  lemma InitialOrderly(s: State, i: nat, n: string)
    requires Initial(s) && i < |s.insts|
    ensures OrderlyInv(s, i, n)
  {
  }

  /** A pending run was pending before, or has just been launched by the present entry of its job. */
  lemma StepPending(cfg: Config, s: State, step: Step, i: nat, n: string, r: nat)
    requires CanTake(cfg, s, step) && i < |s.insts| && Bijection(s.insts[i])
    requires r < |Next(cfg, s, step).runs| && Pending(Next(cfg, s, step).runs[r])
    requires OfJob(Next(cfg, s, step).runs[r], i, n)
    ensures var after := Next(cfg, s, step).runs[r];
            if r < |s.runs| then Pending(s.runs[r]) && OfJob(s.runs[r], i, n) && after.entry == s.runs[r].entry
            else step.Tick? && step.i == i && s.insts[i].clock == Ticking && n in s.insts[i].entryMap &&
                 after.entry == s.insts[i].entryMap[n] && after.phase == Queued
  {
    StepRuns(cfg, s, step);
    StepEvolves(cfg, s, step);
  }

  lemma StepEntries(cfg: Config, s: State, step: Step, i: nat, n: string)
    requires OrderlyInv(s, i, n) && CanTake(cfg, s, step) && OrderlyStep(cfg, s, step, i, n)
    ensures i < |Next(cfg, s, step).insts|
    ensures EntryAgrees(Next(cfg, s, step), i, n) && SameEntry(Next(cfg, s, step), i, n)
  {
    var t := Next(cfg, s, step);
    StepEntryMaps(cfg, s, step, i);
    forall r: nat, q: nat | r < |t.runs| && q < |t.runs| && Pending(t.runs[r]) && Pending(t.runs[q]) &&
                            OfJob(t.runs[r], i, n) && OfJob(t.runs[q], i, n)
      ensures t.runs[r].entry == t.runs[q].entry
    {
      StepPending(cfg, s, step, i, n, r);
      StepPending(cfg, s, step, i, n, q);
    }
    forall r: nat | r < |t.runs| && Pending(t.runs[r]) && OfJob(t.runs[r], i, n) &&
                    t.insts[i].clock == Ticking && n in t.insts[i].entryMap
      ensures t.runs[r].entry == t.insts[i].entryMap[n]
    {
      StepPending(cfg, s, step, i, n, r);
    }
  }

  lemma StepLiveRegistered(cfg: Config, s: State, step: Step, i: nat, n: string)
    requires OrderlyInv(s, i, n) && CanTake(cfg, s, step)
    ensures i < |Next(cfg, s, step).insts| && LiveRegistered(Next(cfg, s, step), i, n)
  {
    var t := Next(cfg, s, step);
    StepRuns(cfg, s, step);
    StepCancelMaps(cfg, s, step, i);
    forall r: nat | r < |t.runs| && Live(t.runs[r]) && OfJob(t.runs[r], i, n)
      ensures n in t.insts[i].cancelMap && t.insts[i].cancelMap[n] == r
    {
      StepPending(cfg, s, step, i, n, r);
      assert !Live(s.runs[r]) ==> step == Register(r);
      if step.Register? || step.Unregister? {
        assert Inside(s.runs[step.r]) && Pending(s.runs[step.r]) by {
          assert RunOk(s, step.r);
        }
      }
    }
  }

  lemma OrderlyStepInv(cfg: Config, s: State, step: Step, i: nat, n: string)
    requires OrderlyInv(s, i, n) && CanTake(cfg, s, step) && OrderlyStep(cfg, s, step, i, n)
    requires ModeOf(cfg, n) != AllowConcurrent
    ensures OrderlyInv(Next(cfg, s, step), i, n)
  {
    StepWellKept(cfg, s, step, i, n);
    StepEntries(cfg, s, step, i, n);
    StepLiveRegistered(cfg, s, step, i, n);
  }

  lemma {:induction false} OrderlyRunInv(cfg: Config, s: State, steps: seq<Step>, t: State, i: nat, n: string)
    requires OrderlyInv(s, i, n) && IsRun(cfg, s, steps, t) && Orderly(cfg, s, steps, i, n)
    requires ModeOf(cfg, n) != AllowConcurrent
    ensures OrderlyInv(t, i, n)
    decreases |steps|
  {
    if steps == [] {
    } else {
      OrderlyStepInv(cfg, s, steps[0], i, n);
      OrderlyRunInv(cfg, Next(cfg, s, steps[0]), steps[1..], t, i, n);
    }
  }

  lemma OrderlyIsComplete(s: State, i: nat, n: string)
    requires OrderlyInv(s, i, n)
    ensures Complete(s, i, n)
  {
    assert InstOk(s, i);
    if n in s.insts[i].cancelMap {
      var r := s.insts[i].cancelMap[n];
      assert Live(s.runs[r]) && OfJob(s.runs[r], i, n);
    }
  }

  /**
    For skip and delay jobs, in orderly runs: a name is in the cancel map exactly when a handler of it is live, there is
    at most one, an unforced manual trigger is refused exactly then, and disabling with cancellation reaches it, as does
    stopping the scheduler. A handler that holds the lock of the job is still the one in the map.
  */
  lemma CancelMapComplete(cfg: Config, s: State, steps: seq<Step>, t: State, i: nat, n: string)
    requires Initial(s) && IsRun(cfg, s, steps, t) && i < |s.insts| && Orderly(cfg, s, steps, i, n)
    requires ModeOf(cfg, n) != AllowConcurrent
    ensures Complete(t, i, n)
    ensures TriggerError(t.insts[i], cfg.jobs, n, false) == JobRunning <==> SomeLive(t, i, n)
    ensures forall r: nat, q: nat | r < |t.runs| && q < |t.runs| && Live(t.runs[r]) && Live(t.runs[q]) &&
                                    OfJob(t.runs[r], i, n) && OfJob(t.runs[q], i, n) :: r == q
    ensures forall r: nat | r < |t.runs| && Live(t.runs[r]) && OfJob(t.runs[r], i, n) ::
              r in Disabled(t.insts[i], n, true).cancelled &&
              (t.insts[i].clock != Absent ==> r in Stopped(t.insts[i]).cancelled)
    ensures forall r: nat | Holds(t, r) && OfJob(t.runs[r], i, n) ::
              n in t.insts[i].cancelMap && t.insts[i].cancelMap[n] == r
  {
    InitialOrderly(s, i, n);
    OrderlyRunInv(cfg, s, steps, t, i, n);
    OrderlyIsComplete(t, i, n);
  }

  // ----- the condition is exact

  predicate NoEnable(steps: seq<Step>, i: nat, n: string) {
    forall k | 0 <= k < |steps| :: steps[k] != Enable(i, n)
  }

  /** One state can lead to another without the job being enabled in between. */
  ghost predicate LeadsTo(cfg: Config, s: State, t: State, i: nat, n: string) {
    exists steps :: IsRun(cfg, s, steps, t) && NoEnable(steps, i, n)
  }

  lemma Stay(cfg: Config, s: State, i: nat, n: string)
    ensures LeadsTo(cfg, s, s, i, n)
  {
    assert IsRun(cfg, s, [], s) && NoEnable([], i, n);
  }

  lemma Cons(cfg: Config, s: State, step: Step, t: State, i: nat, n: string)
    requires CanTake(cfg, s, step) && step != Enable(i, n) && LeadsTo(cfg, Next(cfg, s, step), t, i, n)
    ensures LeadsTo(cfg, s, t, i, n)
  {
    var steps :| IsRun(cfg, Next(cfg, s, step), steps, t) && NoEnable(steps, i, n);
    assert ([step] + steps)[1..] == steps;
    assert IsRun(cfg, s, [step] + steps, t) && NoEnable([step] + steps, i, n);
  }

  lemma {:induction false} Concat(cfg: Config, s: State, steps: seq<Step>, u: State, t: State, i: nat, n: string)
    requires IsRun(cfg, s, steps, u) && NoEnable(steps, i, n) && LeadsTo(cfg, u, t, i, n)
    ensures LeadsTo(cfg, s, t, i, n)
    decreases |steps|
  {
    if steps == [] {
    } else {
      assert NoEnable(steps[1..], i, n);
      Concat(cfg, Next(cfg, s, steps[0]), steps[1..], u, t, i, n);
      assert steps[0] != Enable(i, n);
      Cons(cfg, s, steps[0], t, i, n);
    }
  }

  lemma Transitive(cfg: Config, s: State, u: State, t: State, i: nat, n: string)
    requires LeadsTo(cfg, s, u, i, n) && LeadsTo(cfg, u, t, i, n)
    ensures LeadsTo(cfg, s, t, i, n)
  {
    var steps :| IsRun(cfg, s, steps, u) && NoEnable(steps, i, n);
    Concat(cfg, s, steps, u, t, i, n);
  }

  /** Nothing that matters for new activations of the instance has changed, nor any run but r. */
  ghost predicate OnlyMoved(s: State, t: State, i: nat, r: nat) {
    |t.runs| == |s.runs| && |t.insts| == |s.insts| && i < |s.insts| && r < |s.runs| &&
    (forall q: nat | q < |s.runs| && q != r :: t.runs[q] == s.runs[q]) &&
    (var a, b := s.runs[r], t.runs[r];
     b.inst == a.inst && b.name == a.name && b.manual == a.manual && b.entry == a.entry) &&
    (var a, b := s.insts[i], t.insts[i];
     b.clock == a.clock && b.table == a.table && b.entryMap == a.entryMap && b.nextEntry == a.nextEntry)
  }

  /** A handler that has been admitted and has not dropped its map entry yet. */
  predicate Started(run: Run) {
    Pending(run) && !run.phase.Queued?
  }

  /** What is left to do before the handler can drop its map entry. */
  function ToGo(run: Run): nat
    requires Started(run)
  {
    match run.phase
    case Admitted => 9
    case Registered => 8
    case Asked => 7
    case Locked => 6
    case InFlight(_) => 5
    case Finished(_, _) => 4
    case Recorded => 3
    case Unlocked => 2
    case _ => 1
  }

  /** The next step of a handler; it does not insist on the lock. */
  function Onward(run: Run, r: nat): Step
    requires Started(run) && !run.phase.Cancelled?
  {
    match run.phase
    case Admitted => Register(r)
    case Registered => Ask(r)
    case Asked => TryLock(r, false, true)
    case Locked => Begin(r, true)
    case InFlight(_) => Finish(r, Returned)
    case Finished(_, _) => End(r)
    case Recorded => Unlock(r, true)
    case _ => CancelOwn(r)
  }

  lemma OnwardPossible(cfg: Config, s: State, r: nat)
    requires Inv(s) && r < |s.runs| && Started(s.runs[r]) && !s.runs[r].phase.Cancelled?
    ensures CanTake(cfg, s, Onward(s.runs[r], r)) && Acts(Onward(s.runs[r], r)) && Onward(s.runs[r], r).r == r
  {
    assert RunOk(s, r);
  }

  lemma OnwardMoves(cfg: Config, s: State, i: nat, r: nat)
    requires Inv(s) && i < |s.insts| && r < |s.runs| && Started(s.runs[r]) && !s.runs[r].phase.Cancelled?
    ensures var step := Onward(s.runs[r], r);
            CanTake(cfg, s, step) && OnlyMoved(s, Next(cfg, s, step), i, r) &&
            Started(Next(cfg, s, step).runs[r]) && ToGo(Next(cfg, s, step).runs[r]) < ToGo(s.runs[r])
  {
    OnwardPossible(cfg, s, r);
    StepRuns(cfg, s, Onward(s.runs[r], r));
    StepEntryMaps(cfg, s, Onward(s.runs[r], r), i);
  }

  /** A started handler can always be driven to the point where it drops its map entry. */
  lemma {:induction false} Drive(cfg: Config, s: State, i: nat, n: string, r: nat) returns (t: State)
    requires Inv(s) && i < |s.insts| && r < |s.runs| && Started(s.runs[r])
    ensures LeadsTo(cfg, s, t, i, n) && Inv(t) && OnlyMoved(s, t, i, r) && t.runs[r].phase == Cancelled
    decreases ToGo(s.runs[r])
  {
    if s.runs[r].phase.Cancelled? {
      t := s;
      Stay(cfg, s, i, n);
    } else {
      var step := Onward(s.runs[r], r);
      OnwardMoves(cfg, s, i, r);
      StepInv(cfg, s, step);
      t := Drive(cfg, Next(cfg, s, step), i, n, r);
      Cons(cfg, s, step, t, i, n);
    }
  }

  /** The same runs, whatever their phases. */
  ghost predicate SameRuns(s: State, t: State) {
    |t.runs| == |s.runs| &&
    forall q: nat | q < |s.runs| ::
      t.runs[q].inst == s.runs[q].inst && t.runs[q].manual == s.runs[q].manual && t.runs[q].entry == s.runs[q].entry
  }

  /** A run that waits for a free wrapper is let in. */
  lemma Admitting(cfg: Config, s: State, i: nat, n: string, h: nat) returns (t: State)
    requires Inv(s) && h < |s.runs| && s.runs[h].phase.Queued? && OfJob(s.runs[h], i, n)
    requires !EntryBusy(s, i, s.runs[h].entry)
    ensures LeadsTo(cfg, s, t, i, n) && Inv(t) && t.insts == s.insts
    ensures t.runs == s.runs[h := s.runs[h].(phase := Admitted)] && SameRuns(s, t)
  {
    t := Next(cfg, s, Admit(h));
    StepInv(cfg, s, Admit(h));
    Stay(cfg, t, i, n);
    Cons(cfg, s, Admit(h), t, i, n);
  }

  /** The one run inside the wrapper leaves it. */
  lemma Leaving(cfg: Config, s: State, i: nat, n: string, q: nat) returns (t: State)
    requires WellKept(s, i, n) && q < |s.runs| && s.runs[q].phase == Left && OfJob(s.runs[q], i, n)
    ensures LeadsTo(cfg, s, t, i, n) && Inv(t) && t.insts == s.insts
    ensures t.runs == s.runs[q := s.runs[q].(phase := Over)] && SameRuns(s, t) && !EntryBusy(t, i, s.runs[q].entry)
  {
    t := Next(cfg, s, Leave(q));
    StepInv(cfg, s, Leave(q));
    Stay(cfg, t, i, n);
    Cons(cfg, s, Leave(q), t, i, n);
    forall x: nat | x < |t.runs| && t.runs[x].inst == i && t.runs[x].entry == s.runs[q].entry
      ensures !Inside(t.runs[x])
    {
      assert Inside(s.runs[x]) ==> OfJob(s.runs[x], i, n);
    }
  }

  /** The run inside is about to leave: it does, and the waiting one is let in. */
  lemma LetInAfter(cfg: Config, s: State, i: nat, n: string, h: nat, q: nat) returns (t: State)
    requires WellKept(s, i, n) && h < |s.runs| && s.runs[h].phase.Queued? && OfJob(s.runs[h], i, n)
    requires q < |s.runs| && s.runs[q].phase == Left && OfJob(s.runs[q], i, n) && s.runs[q].entry == s.runs[h].entry
    ensures LeadsTo(cfg, s, t, i, n) && Inv(t) && t.insts == s.insts && SameRuns(s, t)
    ensures h < |t.runs| && Started(t.runs[h]) && OfJob(t.runs[h], i, n)
  {
    var u := Leaving(cfg, s, i, n, q);
    t := Admitting(cfg, u, i, n, h);
    Transitive(cfg, s, u, t, i, n);
  }

  /** A run that waits for a taken wrapper is let in, or the one inside is a handler that has started. */
  lemma LetInNext(cfg: Config, s: State, i: nat, n: string, h: nat) returns (t: State, r: nat)
    requires WellKept(s, i, n) && h < |s.runs| && s.runs[h].phase.Queued? && OfJob(s.runs[h], i, n)
    requires EntryBusy(s, i, s.runs[h].entry)
    ensures LeadsTo(cfg, s, t, i, n) && Inv(t) && t.insts == s.insts && SameRuns(s, t)
    ensures r < |t.runs| && Started(t.runs[r]) && OfJob(t.runs[r], i, n)
  {
    var e := s.runs[h].entry;
    var q: nat :| q < |s.runs| && Inside(s.runs[q]) && s.runs[q].inst == i && s.runs[q].entry == e;
    assert OfJob(s.runs[q], i, n);
    if s.runs[q].phase.Left? {
      t := LetInAfter(cfg, s, i, n, h, q);
      r := h;
    } else {
      t, r := s, q;
      Stay(cfg, s, i, n);
    }
  }

  /** A waiting run is let in, or a handler of its entry has started already. */
  lemma LetIn(cfg: Config, s: State, i: nat, n: string, h: nat) returns (t: State, r: nat)
    requires WellKept(s, i, n) && h < |s.runs| && Pending(s.runs[h]) && OfJob(s.runs[h], i, n)
    ensures LeadsTo(cfg, s, t, i, n) && Inv(t) && t.insts == s.insts && SameRuns(s, t)
    ensures r < |t.runs| && Started(t.runs[r]) && OfJob(t.runs[r], i, n)
  {
    if !s.runs[h].phase.Queued? {
      t, r := s, h;
      Stay(cfg, s, i, n);
    } else if EntryBusy(s, i, s.runs[h].entry) {
      t, r := LetInNext(cfg, s, i, n, h);
    } else {
      t := Admitting(cfg, s, i, n, h);
      r := h;
    }
  }

  /** The job has an entry that no run belongs to yet. */
  ghost predicate FreshEntry(s: State, i: nat, n: string, e: nat) {
    i < |s.insts| && s.insts[i].clock == Ticking && e in s.insts[i].table && s.insts[i].table[e] == n &&
    forall q: nat | q < |s.runs| && !s.runs[q].manual && s.runs[q].inst == i :: s.runs[q].entry != e
  }

  /** The fresh entry launches a run, whose wrapper is free. */
  lemma Launched(cfg: Config, s: State, i: nat, n: string, e: nat) returns (t: State)
    requires FreshEntry(s, i, n, e)
    ensures LeadsTo(cfg, s, t, i, n) && t.insts == s.insts
    ensures t.runs == s.runs + [Run(i, n, false, e, Admitted, false)]
  {
    var q := |s.runs|;
    var u := Next(cfg, s, Tick(i, e));
    assert u.runs == s.runs + [Run(i, n, false, e, Queued, false)];
    assert !EntryBusy(u, i, e);
    t := Next(cfg, u, Admit(q));
    Stay(cfg, t, i, n);
    Cons(cfg, u, Admit(q), t, i, n);
    Cons(cfg, s, Tick(i, e), t, i, n);
  }

  /** The handler registers. */
  lemma Launching(cfg: Config, s: State, i: nat, n: string, e: nat) returns (t: State)
    requires FreshEntry(s, i, n, e)
    ensures LeadsTo(cfg, s, t, i, n) && |t.insts| == |s.insts|
    ensures t.insts[i] == CancelRegistered(s.insts[i], n, |s.runs|)
    ensures t.runs == s.runs + [Run(i, n, false, e, Registered, false)]
  {
    var u := Launched(cfg, s, i, n, e);
    t := Next(cfg, u, Register(|s.runs|));
    Stay(cfg, t, i, n);
    Cons(cfg, u, Register(|s.runs|), t, i, n);
    Transitive(cfg, s, u, t, i, n);
  }

  /** An old handler that is about to leave takes the map entry of a new one with it. */
  lemma TakesAway(cfg: Config, s: State, i: nat, n: string, e: nat, r: nat) returns (t: State)
    requires FreshEntry(s, i, n, e) && r < |s.runs| && OfJob(s.runs[r], i, n) && s.runs[r].phase == Cancelled
    ensures LeadsTo(cfg, s, t, i, n)
    ensures i < |t.insts| && SomeLive(t, i, n) && n !in t.insts[i].cancelMap
  {
    var u := Launching(cfg, s, i, n, e);
    t := Next(cfg, u, Unregister(r));
    assert t.runs[|s.runs|] == u.runs[|s.runs|];
    assert Live(t.runs[|s.runs|]) && OfJob(t.runs[|s.runs|], i, n);
    Stay(cfg, t, i, n);
    Cons(cfg, u, Unregister(r), t, i, n);
    Transitive(cfg, s, u, t, i, n);
  }

  /**
    As long as an old run of the job is pending and the job has a fresh entry, a handler can become impossible to
    find.
  */
  lemma OldRunHides(cfg: Config, s: State, i: nat, n: string, e: nat, h: nat) returns (t: State)
    requires WellKept(s, i, n) && FreshEntry(s, i, n, e)
    requires h < |s.runs| && Pending(s.runs[h]) && OfJob(s.runs[h], i, n)
    ensures LeadsTo(cfg, s, t, i, n)
    ensures i < |t.insts| && SomeLive(t, i, n) && n !in t.insts[i].cancelMap
  {
    var u, r := LetIn(cfg, s, i, n, h);
    assert FreshEntry(u, i, n, e);
    var v := Drive(cfg, u, i, n, r);
    assert FreshEntry(v, i, n, e);
    t := TakesAway(cfg, v, i, n, e, r);
    Transitive(cfg, u, v, t, i, n);
    Transitive(cfg, s, u, t, i, n);
  }

  /** Whoever puts a job back while a run of its removed entry is pending opens the way to a handler nobody can find. */
  lemma PutBackHides(cfg: Config, s: State, i: nat, n: string) returns (t: State)
    requires WellKept(s, i, n) && PutsBack(cfg, s, Enable(i, n), i, n) && SomePending(s, i, n)
    requires ModeOf(cfg, n) != AllowConcurrent
    ensures LeadsTo(cfg, Next(cfg, s, Enable(i, n)), t, i, n)
    ensures i < |t.insts| && SomeLive(t, i, n) && n !in t.insts[i].cancelMap
  {
    var h: nat :| h < |s.runs| && Pending(s.runs[h]) && OfJob(s.runs[h], i, n);
    StepWellKept(cfg, s, Enable(i, n), i, n);
    t := OldRunHides(cfg, Next(cfg, s, Enable(i, n)), i, n, s.insts[i].nextEntry, h);
  }

  /** So it is in every reachable state, whatever the run that led there. */
  lemma ReachablePutBackHides(cfg: Config, s0: State, before: seq<Step>, s: State, i: nat, n: string) returns (t: State)
    requires Initial(s0) && i < |s0.insts| && IsRun(cfg, s0, before, s) && ModeOf(cfg, n) != AllowConcurrent
    requires PutsBack(cfg, s, Enable(i, n), i, n) && SomePending(s, i, n)
    ensures LeadsTo(cfg, Next(cfg, s, Enable(i, n)), t, i, n)
    ensures i < |t.insts| && SomeLive(t, i, n) && n !in t.insts[i].cancelMap
  {
    InitialOrderly(s0, i, n);
    RunWellKept(cfg, s0, before, s, i, n);
    t := PutBackHides(cfg, s, i, n);
  }

  /** However things go on, as long as the job is not enabled again, the map stays complete. */
  ghost predicate SafeNow(cfg: Config, s: State, i: nat, n: string) {
    forall t | LeadsTo(cfg, s, t, i, n) :: Complete(t, i, n)
  }

  /** That is so at every point of a run. */
  ghost predicate Safe(cfg: Config, s: State, steps: seq<Step>, i: nat, n: string)
    decreases |steps|
  {
    SafeNow(cfg, s, i, n) &&
    (steps != [] && CanTake(cfg, s, steps[0]) ==> Safe(cfg, Next(cfg, s, steps[0]), steps[1..], i, n))
  }

  lemma {:induction false} NoEnableIsOrderly(cfg: Config, s: State, steps: seq<Step>, i: nat, n: string)
    requires NoEnable(steps, i, n)
    ensures Orderly(cfg, s, steps, i, n)
    decreases |steps|
  {
    if steps == [] || !CanTake(cfg, s, steps[0]) {
    } else {
      NoEnableIsOrderly(cfg, Next(cfg, s, steps[0]), steps[1..], i, n);
    }
  }

  lemma LeadsToKeeps(cfg: Config, s: State, t: State, i: nat, n: string)
    requires OrderlyInv(s, i, n) && LeadsTo(cfg, s, t, i, n) && ModeOf(cfg, n) != AllowConcurrent
    ensures OrderlyInv(t, i, n)
  {
    var steps :| IsRun(cfg, s, steps, t) && NoEnable(steps, i, n);
    NoEnableIsOrderly(cfg, s, steps, i, n);
    OrderlyRunInv(cfg, s, steps, t, i, n);
  }

  lemma OrderlyIsSafeNow(cfg: Config, s: State, i: nat, n: string)
    requires OrderlyInv(s, i, n) && ModeOf(cfg, n) != AllowConcurrent
    ensures SafeNow(cfg, s, i, n)
  {
    forall t | LeadsTo(cfg, s, t, i, n)
      ensures Complete(t, i, n)
    {
      LeadsToKeeps(cfg, s, t, i, n);
      OrderlyIsComplete(t, i, n);
    }
  }

  /** One call: enabling the job keeps the map complete for ever after exactly when the call is orderly. */
  lemma EnableIsSafeIff(cfg: Config, s: State, i: nat, n: string)
    requires OrderlyInv(s, i, n) && CanTake(cfg, s, Enable(i, n)) && ModeOf(cfg, n) != AllowConcurrent
    ensures SafeNow(cfg, Next(cfg, s, Enable(i, n)), i, n) <==> OrderlyStep(cfg, s, Enable(i, n), i, n)
  {
    if OrderlyStep(cfg, s, Enable(i, n), i, n) {
      OrderlyStepInv(cfg, s, Enable(i, n), i, n);
      OrderlyIsSafeNow(cfg, Next(cfg, s, Enable(i, n)), i, n);
    } else {
      var t := PutBackHides(cfg, s, i, n);
      assert !Complete(t, i, n);
    }
  }

  lemma {:induction false} SafeFromIff(cfg: Config, s: State, steps: seq<Step>, t: State, i: nat, n: string)
    requires OrderlyInv(s, i, n) && IsRun(cfg, s, steps, t) && ModeOf(cfg, n) != AllowConcurrent
    ensures Safe(cfg, s, steps, i, n) <==> Orderly(cfg, s, steps, i, n)
    decreases |steps|
  {
    OrderlyIsSafeNow(cfg, s, i, n);
    if steps == [] {
    } else {
      var u := Next(cfg, s, steps[0]);
      if OrderlyStep(cfg, s, steps[0], i, n) {
        OrderlyStepInv(cfg, s, steps[0], i, n);
        SafeFromIff(cfg, u, steps[1..], t, i, n);
      } else {
        EnableIsSafeIff(cfg, s, i, n);
        assert !SafeNow(cfg, u, i, n);
      }
    }
  }

  /**
    Exactly when the map is complete: from no point of a run can it become incomplete without a further enable, if and
    only if the job was never put back into the schedule while a run of its removed entry was pending.
  */
  lemma CompleteIff(cfg: Config, s: State, steps: seq<Step>, t: State, i: nat, n: string)
    requires Initial(s) && IsRun(cfg, s, steps, t) && i < |s.insts| && ModeOf(cfg, n) != AllowConcurrent
    ensures Safe(cfg, s, steps, i, n) <==> Orderly(cfg, s, steps, i, n)
  {
    InitialOrderly(s, i, n);
    SafeFromIff(cfg, s, steps, t, i, n);
  }

  /** Taking a job out of the schedule and putting it back at once is enough while a run of it is pending. */
  lemma DisableEnableHides(cfg: Config, s: State, i: nat, n: string, cancelRunning: bool) returns (t: State)
    requires WellKept(s, i, n) && s.insts[i].clock == Ticking && n in s.insts[i].entryMap && SomePending(s, i, n)
    requires ModeOf(cfg, n) != AllowConcurrent && cfg.parses(cfg.jobs[FindJob(cfg.jobs, n)].interval)
    ensures var u := Next(cfg, s, Disable(i, n, cancelRunning));
            CanTake(cfg, u, Enable(i, n)) && LeadsTo(cfg, Next(cfg, u, Enable(i, n)), t, i, n)
    ensures i < |t.insts| && SomeLive(t, i, n) && n !in t.insts[i].cancelMap
  {
    var u := Next(cfg, s, Disable(i, n, cancelRunning));
    StepWellKept(cfg, s, Disable(i, n, cancelRunning), i, n);
    assert u.runs == s.runs;
    t := PutBackHides(cfg, u, i, n);
  }

  lemma ReachableDisableEnableHides(cfg: Config, s0: State, before: seq<Step>, s: State, i: nat, n: string,
                                    cancelRunning: bool) returns (t: State)
    requires Initial(s0) && i < |s0.insts| && IsRun(cfg, s0, before, s) && ModeOf(cfg, n) != AllowConcurrent
    requires i < |s.insts| && s.insts[i].clock == Ticking && n in s.insts[i].entryMap && SomePending(s, i, n)
    requires cfg.parses(cfg.jobs[FindJob(cfg.jobs, n)].interval)
    ensures var u := Next(cfg, s, Disable(i, n, cancelRunning));
            CanTake(cfg, u, Enable(i, n)) && LeadsTo(cfg, Next(cfg, u, Enable(i, n)), t, i, n)
    ensures i < |t.insts| && SomeLive(t, i, n) && n !in t.insts[i].cancelMap
  {
    InitialOrderly(s0, i, n);
    RunWellKept(cfg, s0, before, s, i, n);
    t := DisableEnableHides(cfg, s, i, n, cancelRunning);
  }

  // ----- one disorderly run

  function OneJob(): Config {
    Config([Job("sync", "* * * * * *", SkipIfRunning)], _ => true, true)
  }

  /** One started instance with that job scheduled as entry 0. */
  function OneInstance(): State {
    State([Inst(Ticking, map[0 := "sync"], 1, map["sync" := 0], map[], {})], [], [], map[], 0, {})
  }

  /**
    The job is taken out of the schedule and put back while its first handler is at work. When that handler leaves, it
    takes the second one's entry with it, and an unforced manual trigger of a running skip job is let through.
  */
  lemma DisorderlyRunHidesHandler() returns (s: State, t: State)
    ensures Initial(OneInstance()) && ModeOf(OneJob(), "sync") == SkipIfRunning
    ensures LeadsTo(OneJob(), OneInstance(), s, 0, "sync") && CanTake(OneJob(), s, Disable(0, "sync", false))
    ensures var u := Next(OneJob(), s, Disable(0, "sync", false));
            CanTake(OneJob(), u, Enable(0, "sync")) &&
            LeadsTo(OneJob(), Next(OneJob(), u, Enable(0, "sync")), t, 0, "sync")
    ensures 0 < |t.insts| && SomeLive(t, 0, "sync") && "sync" !in t.insts[0].cancelMap
    ensures TriggerError(t.insts[0], OneJob().jobs, "sync", false) == CronState.Fine
  {
    var cfg, s0 := OneJob(), OneInstance();
    InitialOrderly(s0, 0, "sync");
    assert FreshEntry(s0, 0, "sync", 0);
    s := Launching(cfg, s0, 0, "sync", 0);
    LeadsToKeeps(cfg, s0, s, 0, "sync");
    assert FindJob(cfg.jobs, "sync") == 0;
    assert Pending(s.runs[0]) && OfJob(s.runs[0], 0, "sync");
    t := DisableEnableHides(cfg, s, 0, "sync", false);
  }
}
