/**
  Several scheduler instances sharing one execution table and, through etcd,
  one distributed lock per job, with every handler run interleaved step by step.

  A scheduled run passes through its phases in this order:
    Queued      the scheduler has launched it
    Admitted    past the skip/delay wrapper of its cron entry
    Registered  its cancel function is in the map
    Asked       its session has a key on the path of the job (if there is a locker)
    Locked      its key is the oldest one there (or there is no locker)
    InFlight    its start is recorded and the job runs
    Finished    the job has returned and its final status is known
    Recorded    that status is written
    Unlocked    the lock is given back (also where a refused run goes)
    Cancelled   it has cancelled its own context
    Left        it has removed the map entry of its name
    Over
  A manual run starts at Locked, never holds a lock, never enters the map, and is over once recorded.
*/
module CronSystem {
  import opened CronState
  import opened Counting
  import opened LockStore
  import opened LockPaths

  datatype Status = Running | Success | Failed | Aborted | Panicked
  datatype Result = Returned | Errored | Panicking

  datatype Phase =
    | Queued | Admitted | Registered | Asked | Locked
    | InFlight(row: int) | Finished(row: int, status: Status)
    | Recorded | Unlocked | Cancelled | Left | Over

  const NO_ROW := -1

  /** `refused`: its attempt to take the distributed lock failed. */
  datatype Run = Run(inst: nat, name: string, manual: bool, entry: nat, phase: Phase, refused: bool)

  /** One row of the execution table; `writer` is the run that wrote it. */
  datatype Row = Row(name: string, manual: bool, status: Status, writer: nat)

  datatype Config = Config(jobs: seq<Job>, parses: string -> bool, hasLocker: bool)

  /**
    `keys` and `rev` are the store behind the locks: the session of a run is its number. `ended` are the manual runs
    whose request is over.
  */
  datatype State = State(insts: seq<Inst>, runs: seq<Run>, rows: seq<Row>, keys: Keys, rev: int, ended: set<nat>)

  datatype Step =
    | Tick(i: nat, entry: nat)
    | Admit(r: nat)
    | Register(r: nat)
    | Ask(r: nat)                               // without a locker there is nothing to ask for
    | TryLock(r: nat, ok: bool, closed: bool)   // a refused attempt closes its session, which may fail
    | Begin(r: nat, ok: bool)                   // RecordStart, which may fail
    | Finish(r: nat, result: Result)
    | End(r: nat)                               // RecordEnd and UpdateLastRun
    | Unlock(r: nat, closed: bool)              // giving the lock back may fail
    | CancelOwn(r: nat)
    | Unregister(r: nat)
    | Leave(r: nat)
    | LoseLease(r: nat)                         // the lease of a run ends while it is still at work
    | Expire(r: nat)                            // the lease of a run that is not at work ends
    | Trigger(i: nat, name: string, force: bool)
    | RequestEnds(r: nat)                       // the request that triggered a manual run is answered or dropped
    | Enable(i: nat, name: string)
    | Disable(i: nat, name: string, cancelRunning: bool)
    | Stop(i: nat)

  function ModeOf(cfg: Config, name: string): Mode {
    var i := FindJob(cfg.jobs, name);
    if i < |cfg.jobs| then cfg.jobs[i].mode else AllowConcurrent
  }

  // ----- the lock of a job

  /** The adapter puts the locks of all jobs under one prefix. */
  const CRON_PREFIX := "cron"

  function LockPath(name: string): string {
    BuildKeyPath(CRON_PREFIX, name)
  }

  lemma LockPathInjective(a: string, b: string)
    ensures LockPath(a) == "/gapi/lock/cron/" + a
    ensures LockPath(a) == LockPath(b) <==> a == b
  {
    var p := "/gapi/lock/cron/";
    assert LOCK_PREFIX + CRON_PREFIX + "/" == p;
    assert LockPath(a) == p + a && LockPath(b) == p + b;
    assert a == (p + a)[|p|..] && b == (p + b)[|p|..];
  }

  predicate HasKey(s: State, r: nat)
    requires r < |s.runs|
  {
    (LockPath(s.runs[r].name), r) in s.keys
  }

  // ----- contexts

  datatype Context = Background | WithCancel(parent: Context, id: nat) | WithoutCancel(parent: Context)

  /** Whether a context is done, given whose cancel functions have been called. */
  predicate IsDone(c: Context, called: set<nat>) {
    match c
    case Background => false
    case WithCancel(parent, id) => id in called || IsDone(parent, called)
    case WithoutCancel(_) => false
  }

  /** A scheduled run has a context of its own; a manual one inherits that of its request, detached from its end. */
  function ContextOf(run: Run, r: nat): Context {
    if run.manual then WithoutCancel(WithCancel(Background, r)) else WithCancel(Background, r)
  }

  // ----- phases

  /** Inside the skip/delay wrapper of its entry. */
  predicate Inside(run: Run) {
    !run.manual && !run.phase.Queued? && !run.phase.Over?
  }

  /** From the moment its cancel function is registered until it drops the entry of its name. */
  predicate Live(run: Run) {
    !run.manual && !run.phase.Queued? && !run.phase.Admitted? && !run.phase.Left? && !run.phase.Over?
  }

  /** Between taking the distributed lock and giving it back. */
  predicate Critical(run: Run) {
    !run.manual && (run.phase.Locked? || run.phase.InFlight? || run.phase.Finished? || run.phase.Recorded?)
  }

  predicate HasOpenRow(run: Run) {
    (run.phase.InFlight? || run.phase.Finished?) && run.phase.row != NO_ROW
  }

  predicate Begun(run: Run) {
    !run.phase.Queued? && !run.phase.Admitted? && !run.phase.Registered? && !run.phase.Asked? && !run.phase.Locked?
  }

  predicate HasAsked(run: Run) {
    !run.manual && !run.phase.Queued? && !run.phase.Admitted? && !run.phase.Registered?
  }

  predicate Executing(run: Run) {
    run.phase.InFlight? || run.phase.Finished?
  }

  // ----- steps

  predicate CanStep(s: State, r: nat, from: Phase) {
    r < |s.runs| && s.runs[r].phase == from
  }

  /** The steps that a run takes itself. */
  predicate Acts(step: Step) {
    step.Admit? || step.Register? || step.Ask? || step.TryLock? || step.Begin? || step.Finish? || step.End? ||
    step.Unlock? || step.CancelOwn? || step.Unregister? || step.Leave?
  }

  ghost predicate CanTake(cfg: Config, s: State, step: Step) {
    match step
    case Tick(i, e) => i < |s.insts| && s.insts[i].clock == Ticking && e in s.insts[i].table
    case Admit(r) =>
      CanStep(s, r, Queued) &&
      (ModeOf(cfg, s.runs[r].name) == DelayIfRunning ==> !EntryBusy(s, s.runs[r].inst, s.runs[r].entry))
    case Register(r) => CanStep(s, r, Admitted) && s.runs[r].inst < |s.insts|
    case Ask(r) => CanStep(s, r, Registered)
    case TryLock(r, ok, _) =>
      CanStep(s, r, Asked) && (ok ==> Owns(s.keys, LockPath(s.runs[r].name), r))
    case Begin(r, _) => CanStep(s, r, Locked)
    case Finish(r, _) => r < |s.runs| && s.runs[r].phase.InFlight? && s.runs[r].inst < |s.insts|
    case End(r) => r < |s.runs| && s.runs[r].phase.Finished? && s.runs[r].phase.row < |s.rows|
    case Unlock(r, _) => CanStep(s, r, Recorded)
    case CancelOwn(r) => CanStep(s, r, Unlocked) && s.runs[r].inst < |s.insts|
    case Unregister(r) => CanStep(s, r, Cancelled) && s.runs[r].inst < |s.insts|
    case Leave(r) => CanStep(s, r, Left)
    case LoseLease(r) => r < |s.runs| && HasKey(s, r) && Critical(s.runs[r])
    case Expire(r) => r < |s.runs| && HasKey(s, r) && !Critical(s.runs[r])
    case Trigger(i, _, _) => i < |s.insts|
    case RequestEnds(r) => r < |s.runs| && s.runs[r].manual
    case Enable(i, _) => i < |s.insts|
    case Disable(i, _, _) => i < |s.insts|
    case Stop(i) => i < |s.insts|
  }

  /** The token of a skip wrapper, or the mutex of a delay wrapper, is taken. Every cron entry has its own. */
  ghost predicate EntryBusy(s: State, i: nat, e: nat) {
    exists r: nat :: r < |s.runs| && Inside(s.runs[r]) && s.runs[r].inst == i && s.runs[r].entry == e
  }

  /** A panic wins over a cancelled context, which wins over the error of the job. */
  function FinalStatus(cancelled: bool, result: Result): Status {
    if result == Panicking then Panicked
    else if cancelled then Aborted
    else if result == Errored then Failed
    else Success
  }

  ghost function PhaseAfter(cfg: Config, s: State, step: Step): Phase
    requires CanTake(cfg, s, step) && Acts(step)
  {
    var run := s.runs[step.r];
    match step
    case Admit(_) =>
      if ModeOf(cfg, run.name) == SkipIfRunning && EntryBusy(s, run.inst, run.entry) then Over else Admitted
    case Register(_) => Registered
    case Ask(_) => if cfg.hasLocker then Asked else Locked
    case TryLock(_, ok, _) => if ok then Locked else Unlocked
    case Begin(_, ok) => InFlight(if ok then |s.rows| else NO_ROW)
    case Finish(r, result) =>
      Finished(run.phase.row, FinalStatus(IsDone(ContextOf(run, r), s.insts[run.inst].cancelled + s.ended), result))
    case End(_) => if run.manual then Over else Recorded
    case Unlock(_, _) => Unlocked
    case CancelOwn(_) => Cancelled
    case Unregister(_) => Left
    case _ => Over
  }

  ghost function RunsAfter(cfg: Config, s: State, step: Step): seq<Run>
    requires CanTake(cfg, s, step)
  {
    if Acts(step) then
      s.runs[step.r := s.runs[step.r].(phase := PhaseAfter(cfg, s, step),
                                       refused := s.runs[step.r].refused || (step.TryLock? && !step.ok))]
    else
      match step
      case Tick(i, e) => s.runs + [Run(i, s.insts[i].table[e], false, e, Queued, false)]
      case Trigger(i, name, force) =>
        if TriggerError(s.insts[i], cfg.jobs, name, force) == Fine then s.runs + [Run(i, name, true, 0, Locked, false)]
        else s.runs
      case _ => s.runs
  }

  ghost function InstsAfter(cfg: Config, s: State, step: Step): seq<Inst>
    requires CanTake(cfg, s, step)
  {
    match step
    case Register(r) =>
      var run := s.runs[r];
      s.insts[run.inst := CancelRegistered(s.insts[run.inst], run.name, r)]
    case CancelOwn(r) => s.insts[s.runs[r].inst := CancelSelf(s.insts[s.runs[r].inst], r)]
    case Unregister(r) =>
      var run := s.runs[r];
      s.insts[run.inst := CancelDropped(s.insts[run.inst], run.name)]
    case Enable(i, name) => s.insts[i := Enabled(s.insts[i], cfg.jobs, cfg.parses, name)]
    case Disable(i, name, cancelRunning) => s.insts[i := Disabled(s.insts[i], name, cancelRunning)]
    case Stop(i) => s.insts[i := Stopped(s.insts[i])]
    case _ => s.insts
  }

  ghost function RowsAfter(cfg: Config, s: State, step: Step): seq<Row>
    requires CanTake(cfg, s, step)
  {
    match step
    case Begin(r, true) => s.rows + [Row(s.runs[r].name, s.runs[r].manual, Running, r)]
    case End(r) =>
      var ph := s.runs[r].phase;
      if ph.row < 0 then s.rows else s.rows[ph.row := s.rows[ph.row].(status := ph.status)]
    case _ => s.rows
  }

  ghost function KeysAfter(cfg: Config, s: State, step: Step): Keys
    requires CanTake(cfg, s, step)
  {
    match step
    case Ask(r) => if cfg.hasLocker then Put(s.keys, LockPath(s.runs[r].name), r, s.rev) else s.keys
    case TryLock(r, ok, closed) => if ok || !closed then s.keys else Revoke(s.keys, r)
    case Unlock(r, closed) => if closed then Revoke(s.keys, r) else s.keys
    case LoseLease(r) => Revoke(s.keys, r)
    case Expire(r) => Revoke(s.keys, r)
    case _ => s.keys
  }

  ghost function Next(cfg: Config, s: State, step: Step): State
    requires CanTake(cfg, s, step)
  {
    State(InstsAfter(cfg, s, step), RunsAfter(cfg, s, step), RowsAfter(cfg, s, step), KeysAfter(cfg, s, step),
          if step.Ask? then s.rev + 1 else s.rev, if step.RequestEnds? then s.ended + {step.r} else s.ended)
  }

  /** Nothing has run yet; every instance is in a state that its start can leave it in. */
  ghost predicate Initial(s: State) {
    s.runs == [] && s.rows == [] && s.keys == map[] && s.ended == {} &&
    forall i | 0 <= i < |s.insts| ::
      Bijection(s.insts[i]) && s.insts[i].cancelMap == map[] && s.insts[i].cancelled == {}
  }

  ghost predicate IsRun(cfg: Config, s: State, steps: seq<Step>, t: State)
    decreases |steps|
  {
    if steps == [] then s == t
    else CanTake(cfg, s, steps[0]) && IsRun(cfg, Next(cfg, s, steps[0]), steps[1..], t)
  }

  // ----- what holds in every mode and every interleaving

  /** Whoever is at work and still has its key is first on the path. */
  ghost predicate OwnerOk(s: State, r: nat)
    requires r < |s.runs|
  {
    Critical(s.runs[r]) && HasKey(s, r) ==> Owns(s.keys, LockPath(s.runs[r].name), r)
  }

  ghost predicate PhaseOk(s: State, r: nat)
    requires r < |s.runs|
  {
    var run := s.runs[r];
    run.inst < |s.insts| &&
    (run.manual ==> run.phase.Locked? || Executing(run) || run.phase.Over?) &&
    (Executing(run) ==> run.phase.row >= NO_ROW)
  }

  /** A refused run only winds up. */
  ghost predicate RefusedOk(s: State, r: nat)
    requires r < |s.runs|
  {
    var run := s.runs[r];
    run.refused ==> !run.manual && (run.phase.Unlocked? || run.phase.Cancelled? || run.phase.Left? || run.phase.Over?)
  }

  /** The status a run is about to write is final, and no manual run was cancelled. */
  ghost predicate StatusOk(s: State, r: nat)
    requires r < |s.runs|
  {
    var run := s.runs[r];
    run.phase.Finished? ==> run.phase.status != Running && (run.manual ==> run.phase.status != Aborted)
  }

  /** The row a run has open is its own and says running. */
  ghost predicate LinkOk(s: State, r: nat)
    requires r < |s.runs|
  {
    var run := s.runs[r];
    HasOpenRow(run) ==>
      0 <= run.phase.row < |s.rows| && s.rows[run.phase.row].writer == r && s.rows[run.phase.row].status == Running
  }

  ghost predicate RunOk(s: State, r: nat)
    requires r < |s.runs|
  {
    OwnerOk(s, r) && PhaseOk(s, r) && RefusedOk(s, r) && StatusOk(s, r) && LinkOk(s, r)
  }

  ghost predicate RowOk(s: State, k: nat)
    requires k < |s.rows|
  {
    var row := s.rows[k];
    row.writer < |s.runs| &&
    row.name == s.runs[row.writer].name && row.manual == s.runs[row.writer].manual &&
    !s.runs[row.writer].refused && Begun(s.runs[row.writer]) &&
    (row.status == Running ==> HasOpenRow(s.runs[row.writer]) && s.runs[row.writer].phase.row == k) &&
    (row.manual ==> row.status != Aborted)
  }

  ghost predicate InstOk(s: State, i: nat)
    requires i < |s.insts|
  {
    var m := s.insts[i];
    forall n | n in m.cancelMap ::
      m.cancelMap[n] < |s.runs| && Live(s.runs[m.cancelMap[n]]) &&
      s.runs[m.cancelMap[n]].name == n && s.runs[m.cancelMap[n]].inst == i
  }

  /**
    Every key belongs to a scheduled run that asked for it, on the path of its job, and no two were created at the
    same revision.
  */
  ghost predicate KeysOk(s: State) {
    (forall k | k in s.keys ::
       k.1 < |s.runs| && HasAsked(s.runs[k.1]) && k.0 == LockPath(s.runs[k.1].name) && s.keys[k] < s.rev) &&
    (forall k, l | k in s.keys && l in s.keys && s.keys[k] == s.keys[l] :: k == l)
  }

  /** A run has at most one row: two rows of one run are the same row. */
  ghost predicate RowsDistinct(s: State) {
    forall k, l | 0 <= k < |s.rows| && 0 <= l < |s.rows| && s.rows[k].writer == s.rows[l].writer :: k == l
  }

  /** Only manual runs have a request that can end. */
  ghost predicate EndedOk(s: State) {
    forall r | r in s.ended :: r < |s.runs| && s.runs[r].manual
  }

  ghost predicate Inv(s: State) {
    (forall r | 0 <= r < |s.runs| :: RunOk(s, r)) &&
    (forall k | 0 <= k < |s.rows| :: RowOk(s, k)) &&
    (forall i | 0 <= i < |s.insts| :: InstOk(s, i)) &&
    KeysOk(s) && RowsDistinct(s) && EndedOk(s)
  }

  /** How a run may differ after any step: who it is stays, and it only goes forward. */
  predicate Evolves(a: Run, b: Run) {
    b.inst == a.inst && b.name == a.name && b.manual == a.manual && b.entry == a.entry &&
    (Begun(a) ==> Begun(b) && b.refused == a.refused) && (HasAsked(a) ==> HasAsked(b))
  }

  /** A step moves at most the run that takes it, and adds at most one run. */
  lemma StepRuns(cfg: Config, s: State, step: Step)
    requires CanTake(cfg, s, step)
    ensures |s.runs| <= |Next(cfg, s, step).runs| <= |s.runs| + 1
    ensures forall r | 0 <= r < |s.runs| && !(Acts(step) && step.r == r) :: Next(cfg, s, step).runs[r] == s.runs[r]
    ensures Acts(step) ==> step.r < |s.runs| == |Next(cfg, s, step).runs|
    ensures |Next(cfg, s, step).runs| > |s.runs| ==>
              var added := Next(cfg, s, step).runs[|s.runs|];
              added.inst < |s.insts| && !added.refused &&
              if added.manual then step.Trigger? && added.phase == Locked
              else step.Tick? && step.entry in s.insts[step.i].table &&
                   added == Run(step.i, s.insts[step.i].table[step.entry], false, step.entry, Queued, false)
  {
  }

  lemma ActorEvolves(cfg: Config, s: State, step: Step)
    requires CanTake(cfg, s, step) && Acts(step)
    ensures step.r < |s.runs| == |Next(cfg, s, step).runs|
    ensures Evolves(s.runs[step.r], Next(cfg, s, step).runs[step.r])
  {
  }

  lemma StepEvolves(cfg: Config, s: State, step: Step)
    requires CanTake(cfg, s, step)
    ensures |s.runs| <= |Next(cfg, s, step).runs|
    ensures forall r | 0 <= r < |s.runs| :: Evolves(s.runs[r], Next(cfg, s, step).runs[r])
  {
    StepRuns(cfg, s, step);
    if Acts(step) {
      ActorEvolves(cfg, s, step);
    }
  }

  lemma StepOpenRows(cfg: Config, s: State, step: Step)
    requires CanTake(cfg, s, step) && !step.End?
    ensures forall r | 0 <= r < |s.runs| && HasOpenRow(s.runs[r]) ::
              r < |Next(cfg, s, step).runs| && HasOpenRow(Next(cfg, s, step).runs[r]) &&
              Next(cfg, s, step).runs[r].phase.row == s.runs[r].phase.row
  {
    StepRuns(cfg, s, step);
  }

  lemma StepStaysLive(cfg: Config, s: State, step: Step)
    requires CanTake(cfg, s, step) && !step.Unregister?
    ensures forall r | 0 <= r < |s.runs| && Live(s.runs[r]) ::
              r < |Next(cfg, s, step).runs| && Live(Next(cfg, s, step).runs[r])
  {
    StepRuns(cfg, s, step);
  }

  /** A key appears only by asking, with a new revision. */
  lemma StepAddsKey(cfg: Config, s: State, step: Step)
    requires CanTake(cfg, s, step)
    ensures forall k | k in Next(cfg, s, step).keys ::
              if k in s.keys then Next(cfg, s, step).keys[k] == s.keys[k]
              else step.Ask? && cfg.hasLocker && step.r < |s.runs| && k == (LockPath(s.runs[step.r].name), step.r) &&
                   Next(cfg, s, step).keys[k] == s.rev
    ensures s.rev <= Next(cfg, s, step).rev && (step.Ask? ==> s.rev < Next(cfg, s, step).rev)
  {
  }

  lemma StepKeys(cfg: Config, s: State, step: Step)
    requires Inv(s) && CanTake(cfg, s, step)
    ensures KeysOk(Next(cfg, s, step))
  {
    var t := Next(cfg, s, step);
    StepAddsKey(cfg, s, step);
    StepEvolves(cfg, s, step);
    forall k | k in t.keys
      ensures k.1 < |t.runs| && HasAsked(t.runs[k.1]) && k.0 == LockPath(t.runs[k.1].name) && t.keys[k] < t.rev
    {
      if k in s.keys {
        assert Evolves(s.runs[k.1], t.runs[k.1]);
      } else {
        assert RunOk(s, step.r) && Evolves(s.runs[step.r], t.runs[step.r]);
      }
    }
  }

  /** A key can get in front of nobody: whoever is first on a path stays first as long as it keeps its key. */
  lemma StepOwners(cfg: Config, s: State, step: Step, p: string, r: nat)
    requires Inv(s) && CanTake(cfg, s, step)
    requires Owns(s.keys, p, r) && (p, r) in Next(cfg, s, step).keys
    ensures Owns(Next(cfg, s, step).keys, p, r)
  {
  }

  /** Keys appear only by asking; taking the lock needs the oldest one. */
  lemma StepOwnerOk(cfg: Config, s: State, step: Step, r: nat)
    requires Inv(s) && CanTake(cfg, s, step) && r < |Next(cfg, s, step).runs|
    ensures OwnerOk(Next(cfg, s, step), r)
  {
    var t := Next(cfg, s, step);
    StepRuns(cfg, s, step);
    if r < |s.runs| && Critical(t.runs[r]) && HasKey(t, r) {
      assert RunOk(s, r);
      StepEvolves(cfg, s, step);
      assert HasKey(s, r);
      if !Critical(s.runs[r]) {
        assert step.TryLock? && step.r == r && step.ok;
      }
      StepOwners(cfg, s, step, LockPath(s.runs[r].name), r);
    }
  }

  lemma StepPhases(cfg: Config, s: State, step: Step, r: nat)
    requires Inv(s) && CanTake(cfg, s, step) && r < |Next(cfg, s, step).runs|
    ensures PhaseOk(Next(cfg, s, step), r) && RefusedOk(Next(cfg, s, step), r) && StatusOk(Next(cfg, s, step), r)
  {
    StepRuns(cfg, s, step);
    assert r < |s.runs| ==> RunOk(s, r);
  }

  lemma StepLinks(cfg: Config, s: State, step: Step, r: nat)
    requires Inv(s) && CanTake(cfg, s, step) && r < |Next(cfg, s, step).runs|
    ensures LinkOk(Next(cfg, s, step), r)
  {
    StepRuns(cfg, s, step);
    assert r < |s.runs| ==> RunOk(s, r);
    if step.End? {
      assert RunOk(s, step.r);
    }
  }

  lemma RowsUntouched(cfg: Config, s: State, step: Step)
    requires Inv(s) && CanTake(cfg, s, step) && !step.Begin? && !step.End?
    ensures forall k | 0 <= k < |Next(cfg, s, step).rows| :: RowOk(Next(cfg, s, step), k)
    ensures RowsDistinct(Next(cfg, s, step))
  {
    StepEvolves(cfg, s, step);
    StepOpenRows(cfg, s, step);
    var t := Next(cfg, s, step);
    forall k | 0 <= k < |t.rows|
      ensures RowOk(t, k)
    {
      assert RowOk(s, k);
      assert Evolves(s.runs[s.rows[k].writer], t.runs[s.rows[k].writer]);
    }
  }

  lemma RowAdded(cfg: Config, s: State, r: nat, ok: bool)
    requires Inv(s) && CanTake(cfg, s, Begin(r, ok))
    ensures forall k | 0 <= k < |Next(cfg, s, Begin(r, ok)).rows| :: RowOk(Next(cfg, s, Begin(r, ok)), k)
    ensures RowsDistinct(Next(cfg, s, Begin(r, ok)))
  {
    var t := Next(cfg, s, Begin(r, ok));
    assert RunOk(s, r);
    forall k | 0 <= k < |s.rows|
      ensures RowOk(t, k) && s.rows[k].writer != r
    {
      assert RowOk(s, k);
    }
  }

  lemma RowFinished(cfg: Config, s: State, r: nat)
    requires Inv(s) && CanTake(cfg, s, End(r))
    ensures forall k | 0 <= k < |Next(cfg, s, End(r)).rows| :: RowOk(Next(cfg, s, End(r)), k)
    ensures RowsDistinct(Next(cfg, s, End(r)))
  {
    var t := Next(cfg, s, End(r));
    assert RunOk(s, r);
    forall k | 0 <= k < |s.rows|
      ensures RowOk(t, k)
    {
      assert RowOk(s, k);
    }
    forall k, l | 0 <= k < |t.rows| && 0 <= l < |t.rows| && t.rows[k].writer == t.rows[l].writer
      ensures k == l
    {
      assert s.rows[k].writer == s.rows[l].writer;
    }
  }

  lemma StepRows(cfg: Config, s: State, step: Step)
    requires Inv(s) && CanTake(cfg, s, step)
    ensures forall k | 0 <= k < |Next(cfg, s, step).rows| :: RowOk(Next(cfg, s, step), k)
    ensures RowsDistinct(Next(cfg, s, step))
  {
    match step
    case Begin(r, ok) => RowAdded(cfg, s, r, ok);
    case End(r) => RowFinished(cfg, s, r);
    case _ => RowsUntouched(cfg, s, step);
  }

  /** The cancel map of an instance gains an entry only by Register; it loses one only by Unregister. */
  lemma StepCancelMaps(cfg: Config, s: State, step: Step, i: nat)
    requires CanTake(cfg, s, step) && i < |s.insts|
    ensures |Next(cfg, s, step).insts| == |s.insts|
    ensures var before, after := s.insts[i].cancelMap, Next(cfg, s, step).insts[i].cancelMap;
            if step.Register? && s.runs[step.r].inst == i then after == before[s.runs[step.r].name := step.r]
            else if step.Unregister? && s.runs[step.r].inst == i then after == before - {s.runs[step.r].name}
            else after == before
  {
  }

  lemma StepInsts(cfg: Config, s: State, step: Step)
    requires Inv(s) && CanTake(cfg, s, step)
    ensures forall i | 0 <= i < |Next(cfg, s, step).insts| :: InstOk(Next(cfg, s, step), i)
  {
    var t := Next(cfg, s, step);
    StepEvolves(cfg, s, step);
    if !step.Unregister? {
      StepStaysLive(cfg, s, step);
    }
    forall i | 0 <= i < |s.insts|
      ensures |t.insts| == |s.insts| && InstOk(t, i)
    {
      StepCancelMaps(cfg, s, step, i);
      assert InstOk(s, i);
      if step.Register? || step.Unregister? {
        assert RunOk(s, step.r);
      }
    }
  }

  lemma StepEnded(cfg: Config, s: State, step: Step)
    requires EndedOk(s) && CanTake(cfg, s, step)
    ensures EndedOk(Next(cfg, s, step))
  {
    StepEvolves(cfg, s, step);
  }

  lemma StepInv(cfg: Config, s: State, step: Step)
    requires Inv(s) && CanTake(cfg, s, step)
    ensures Inv(Next(cfg, s, step))
  {
    forall r: nat | r < |Next(cfg, s, step).runs|
      ensures RunOk(Next(cfg, s, step), r)
    {
      StepOwnerOk(cfg, s, step, r);
      StepPhases(cfg, s, step, r);
      StepLinks(cfg, s, step, r);
    }
    StepRows(cfg, s, step);
    StepInsts(cfg, s, step);
    StepKeys(cfg, s, step);
    StepEnded(cfg, s, step);
  }

  lemma {:induction false} RunInv(cfg: Config, s: State, steps: seq<Step>, t: State)
    requires Inv(s) && IsRun(cfg, s, steps, t)
    ensures Inv(t)
    decreases |steps|
  {
    if steps == [] {
    } else {
      StepInv(cfg, s, steps[0]);
      RunInv(cfg, Next(cfg, s, steps[0]), steps[1..], t);
    }
  }

  // ----- main results for every mode and every interleaving

  /** At work, and the lease still alive. */
  predicate Holds(s: State, r: nat) {
    r < |s.runs| && Critical(s.runs[r]) && HasKey(s, r)
  }

  /**
    At most one scheduled run of a name is between taking the distributed lock and giving it back with its lease alive,
    on however many instances: its key is the oldest on the path of the job.
  */
  lemma OneHolderPerName(cfg: Config, s: State, steps: seq<Step>, t: State, r: nat, q: nat)
    requires Initial(s) && IsRun(cfg, s, steps, t) && Holds(t, r)
    ensures Owns(t.keys, LockPath(t.runs[r].name), r)
    ensures Holds(t, q) && t.runs[r].name == t.runs[q].name ==> r == q
  {
    RunInv(cfg, s, steps, t);
    assert RunOk(t, r);
    if Holds(t, q) && t.runs[r].name == t.runs[q].name {
      assert RunOk(t, q);
      var p := LockPath(t.runs[r].name);
      assert t.keys[(p, r)] == t.keys[(p, q)];
    }
  }

  /** Locks of different jobs never meet: whoever else has a key on the path is a run of the same job. */
  lemma LocksAreSeparate(cfg: Config, s: State, steps: seq<Step>, t: State, r: nat, n: string)
    requires Initial(s) && IsRun(cfg, s, steps, t) && (LockPath(n), r) in t.keys
    ensures r < |t.runs| && t.runs[r].name == n && !t.runs[r].manual
  {
    RunInv(cfg, s, steps, t);
    LockPathInjective(n, t.runs[r].name);
  }

  predicate NoLeaseLost(steps: seq<Step>) {
    forall k | 0 <= k < |steps| :: !steps[k].LoseLease?
  }

  ghost predicate AllLeased(s: State) {
    forall r: nat | r < |s.runs| && Critical(s.runs[r]) :: HasKey(s, r)
  }

  lemma StepKeepsLeases(cfg: Config, s: State, step: Step)
    requires cfg.hasLocker && Inv(s) && AllLeased(s) && CanTake(cfg, s, step) && !step.LoseLease?
    ensures AllLeased(Next(cfg, s, step))
  {
    var t := Next(cfg, s, step);
    StepRuns(cfg, s, step);
    StepEvolves(cfg, s, step);
    forall r: nat | r < |t.runs| && Critical(t.runs[r])
      ensures HasKey(t, r)
    {
      assert r < |s.runs| && t.runs[r].name == s.runs[r].name;
      if !Critical(s.runs[r]) {
        assert step.TryLock? && step.r == r && step.ok;
      }
    }
  }

  lemma {:induction false} LeasesKept(cfg: Config, s: State, steps: seq<Step>, t: State)
    requires cfg.hasLocker && Inv(s) && AllLeased(s) && IsRun(cfg, s, steps, t) && NoLeaseLost(steps)
    ensures AllLeased(t)
    decreases |steps|
  {
    if steps == [] {
    } else {
      StepInv(cfg, s, steps[0]);
      StepKeepsLeases(cfg, s, steps[0]);
      LeasesKept(cfg, Next(cfg, s, steps[0]), steps[1..], t);
    }
  }

  /** As long as nobody at work loses its lease, no two scheduled runs of one name execute at the same time. */
  lemma MutualExclusion(cfg: Config, s: State, steps: seq<Step>, t: State, r: nat, q: nat)
    requires cfg.hasLocker && Initial(s) && IsRun(cfg, s, steps, t) && NoLeaseLost(steps)
    requires r < |t.runs| && q < |t.runs| && t.runs[r].name == t.runs[q].name
    requires Critical(t.runs[r]) && Critical(t.runs[q])
    ensures r == q
  {
    LeasesKept(cfg, s, steps, t);
    OneHolderPerName(cfg, s, steps, t, r, q);
  }

  /** An activation that did not get the lock never writes a row. */
  lemma RefusedWritesNothing(cfg: Config, s: State, steps: seq<Step>, t: State, r: nat)
    requires Initial(s) && IsRun(cfg, s, steps, t)
    requires r < |t.runs| && t.runs[r].refused
    ensures forall k | 0 <= k < |t.rows| :: t.rows[k].writer != r
  {
    RunInv(cfg, s, steps, t);
    forall k | 0 <= k < |t.rows|
      ensures t.rows[k].writer != r
    {
      assert RowOk(t, k);
    }
  }

  /** Each entry of the cancel map cancels a live run of that name; a name without a live run is not in the map. */
  lemma CancelMapSound(cfg: Config, s: State, steps: seq<Step>, t: State, i: nat, n: string)
    requires Initial(s) && IsRun(cfg, s, steps, t) && i < |t.insts|
    ensures n in t.insts[i].cancelMap ==>
              var r := t.insts[i].cancelMap[n];
              r < |t.runs| && Live(t.runs[r]) && t.runs[r].name == n && t.runs[r].inst == i
    ensures (forall r | 0 <= r < |t.runs| && Live(t.runs[r]) && t.runs[r].inst == i :: t.runs[r].name != n)
            ==> n !in t.insts[i].cancelMap
  {
    RunInv(cfg, s, steps, t);
    assert InstOk(t, i);
  }

  // ----- the order in which a handler winds up

  lemma {:induction false} RunPrefix(cfg: Config, s: State, steps: seq<Step>, t: State, k: nat) returns (u: State)
    requires IsRun(cfg, s, steps, t) && k < |steps|
    ensures IsRun(cfg, s, steps[..k], u) && CanTake(cfg, u, steps[k])
    decreases |steps|
  {
    if k == 0 {
      u := s;
    } else {
      u := RunPrefix(cfg, Next(cfg, s, steps[0]), steps[1..], t, k - 1);
      assert steps[..k][1..] == steps[1..][..k - 1];
    }
  }

  /** The step after which a handler no longer works under its lock. */
  predicate LetsGo(step: Step, r: nat) {
    (step.Unlock? && step.r == r) || (step.TryLock? && !step.ok && step.r == r)
  }

  predicate Released(s: State, r: nat) {
    r < |s.runs| && (s.runs[r].phase.Unlocked? || s.runs[r].phase.Cancelled? || s.runs[r].phase.Left?)
  }

  lemma {:induction false} ReleasedBefore(cfg: Config, s: State, steps: seq<Step>, t: State, r: nat) returns (a: nat)
    requires IsRun(cfg, s, steps, t) && !Released(s, r) && Released(t, r)
    ensures a < |steps| && LetsGo(steps[a], r)
    decreases |steps|
  {
    var u := Next(cfg, s, steps[0]);
    StepRuns(cfg, s, steps[0]);
    if Released(u, r) {
      a := 0;
    } else {
      var b := ReleasedBefore(cfg, u, steps[1..], t, r);
      a := b + 1;
    }
  }

  predicate SelfCancelled(s: State, r: nat) {
    r < |s.runs| && (s.runs[r].phase.Cancelled? || s.runs[r].phase.Left?)
  }

  lemma {:induction false} SelfCancelledBefore(cfg: Config, s: State, steps: seq<Step>, t: State, r: nat)
    returns (b: nat)
    requires IsRun(cfg, s, steps, t) && !SelfCancelled(s, r) && SelfCancelled(t, r)
    ensures b < |steps| && steps[b] == CancelOwn(r)
    decreases |steps|
  {
    var u := Next(cfg, s, steps[0]);
    StepRuns(cfg, s, steps[0]);
    if SelfCancelled(u, r) {
      b := 0;
    } else {
      var c := SelfCancelledBefore(cfg, u, steps[1..], t, r);
      b := c + 1;
    }
  }

  /**
    In every mode and interleaving a handler lets go of its lock first, then cancels its own context, and only then
    drops the entry of its name from the cancel map.
  */
  lemma WindUpOrder(cfg: Config, s: State, steps: seq<Step>, t: State, k: nat, r: nat) returns (a: nat, b: nat)
    requires Initial(s) && IsRun(cfg, s, steps, t) && k < |steps| && steps[k] == Unregister(r)
    ensures a < b < k && steps[b] == CancelOwn(r) && LetsGo(steps[a], r)
  {
    var u := RunPrefix(cfg, s, steps, t, k);
    b := SelfCancelledBefore(cfg, s, steps[..k], u, r);
    var v := RunPrefix(cfg, s, steps, t, b);
    a := ReleasedBefore(cfg, s, steps[..b], v, r);
  }

  // ----- what the scheduler and the requests can do

  /** A launched run is turned away exactly when its job skips overlapping runs and one of its entry is inside. */
  lemma TurnedAwayIff(cfg: Config, s: State, r: nat, j: nat)
    requires CanTake(cfg, s, Admit(r)) && j < |cfg.jobs| && cfg.jobs[j].name == s.runs[r].name
    requires forall k | 0 <= k < j :: cfg.jobs[k].name != s.runs[r].name
    ensures Next(cfg, s, Admit(r)).runs[r].phase ==
            if cfg.jobs[j].mode == SkipIfRunning && EntryBusy(s, s.runs[r].inst, s.runs[r].entry) then Over
            else Admitted
    ensures cfg.jobs[j].mode == DelayIfRunning ==> !EntryBusy(s, s.runs[r].inst, s.runs[r].entry)
  {
    assert FindJob(cfg.jobs, s.runs[r].name) == j;
  }

  /** And it can always be admitted or turned away, unless its job waits for the one that is inside. */
  lemma AdmissionPossible(cfg: Config, s: State, r: nat)
    requires r < |s.runs| && s.runs[r].phase == Queued
    ensures !CanTake(cfg, s, Admit(r)) ==>
              exists j | 0 <= j < |cfg.jobs| ::
                cfg.jobs[j].name == s.runs[r].name && cfg.jobs[j].mode == DelayIfRunning &&
                EntryBusy(s, s.runs[r].inst, s.runs[r].entry)
  {
    if !CanTake(cfg, s, Admit(r)) {
      var j := FindJob(cfg.jobs, s.runs[r].name);
      assert cfg.jobs[j].name == s.runs[r].name && cfg.jobs[j].mode == DelayIfRunning;
    }
  }

  lemma {:induction false} NeverTicksAgain(cfg: Config, s: State, steps: seq<Step>, t: State, i: nat, k: nat)
    requires IsRun(cfg, s, steps, t) && i < |s.insts| && s.insts[i].clock != Ticking && k < |steps|
    ensures !(steps[k].Tick? && steps[k].i == i)
    decreases |steps|
  {
    if k == 0 {
    } else {
      NeverTicksAgain(cfg, Next(cfg, s, steps[0]), steps[1..], t, i, k - 1);
    }
  }

  /** After an instance was stopped its scheduler launches nothing any more. */
  lemma {:induction false} NoTickAfterStop(cfg: Config, s: State, steps: seq<Step>, t: State, i: nat, j: nat, k: nat)
    requires IsRun(cfg, s, steps, t) && j < k < |steps| && steps[j] == Stop(i)
    ensures !(steps[k].Tick? && steps[k].i == i)
    decreases |steps|
  {
    var u := Next(cfg, s, steps[0]);
    if j == 0 {
      NeverTicksAgain(cfg, u, steps[1..], t, i, k - 1);
    } else {
      NoTickAfterStop(cfg, u, steps[1..], t, i, j - 1, k - 1);
    }
  }

  /** The step calls cancel functions of an instance because it was asked to. */
  predicate AsksToCancel(step: Step, i: nat) {
    step == Stop(i) || (step.Disable? && step.i == i && step.cancelRunning)
  }

  lemma StepCancels(cfg: Config, s: State, step: Step, i: nat, r: nat)
    requires CanTake(cfg, s, step) && i < |s.insts| && r !in s.insts[i].cancelled
    ensures |Next(cfg, s, step).insts| == |s.insts|
    ensures r in Next(cfg, s, step).insts[i].cancelled ==>
              step == CancelOwn(r) ||
              (AsksToCancel(step, i) && r in s.insts[i].cancelMap.Values)
  {
  }

  /** Nobody is cancelled unasked: by itself at its end, or by a stop or a disable that says so, found in the map. */
  lemma {:induction false} CancelledOnlyWhenAsked(cfg: Config, s: State, steps: seq<Step>, t: State, i: nat, r: nat)
    returns (j: nat)
    requires IsRun(cfg, s, steps, t) && i < |s.insts| && r !in s.insts[i].cancelled
    requires i < |t.insts| && r in t.insts[i].cancelled
    ensures j < |steps| && (steps[j] == CancelOwn(r) || AsksToCancel(steps[j], i))
    decreases |steps|
  {
    var u := Next(cfg, s, steps[0]);
    StepCancels(cfg, s, steps[0], i, r);
    if r in u.insts[i].cancelled {
      j := 0;
    } else {
      var k := CancelledOnlyWhenAsked(cfg, u, steps[1..], t, i, r);
      j := k + 1;
    }
  }

  // ----- the execution ledger

  function RunningRows(s: State): set<int> {
    set k | 0 <= k < |s.rows| && s.rows[k].status == Running
  }

  function OpenRuns(s: State): set<int> {
    set r | 0 <= r < |s.runs| && HasOpenRow(s.runs[r])
  }

  function ExecutingRuns(s: State): set<int> {
    set r | 0 <= r < |s.runs| && Executing(s.runs[r])
  }

  /** Rows in status running and runs that have opened a row correspond one to one. */
  lemma LedgerBalances(s: State)
    requires Inv(s)
    ensures |RunningRows(s)| == |OpenRuns(s)|
  {
    var f := map k | k in RunningRows(s) :: s.rows[k].writer as int;
    forall k | k in f
      ensures f[k] in OpenRuns(s)
    {
      assert RowOk(s, k);
    }
    forall r | r in OpenRuns(s)
      ensures r in f.Values
    {
      assert RunOk(s, r);
      assert s.runs[r].phase.row in f && f[s.runs[r].phase.row] == r;
    }
    assert f.Values == OpenRuns(s);
    SameSize(RunningRows(s), OpenRuns(s), f);
  }

  predicate RecordsSucceed(steps: seq<Step>) {
    forall k | 0 <= k < |steps| && steps[k].Begin? :: steps[k].ok
  }

  lemma {:induction false} AllRecorded(cfg: Config, s: State, steps: seq<Step>, t: State)
    requires IsRun(cfg, s, steps, t) && RecordsSucceed(steps)
    requires ExecutingRuns(s) == OpenRuns(s)
    ensures ExecutingRuns(t) == OpenRuns(t)
    decreases |steps|
  {
    if steps == [] {
    } else {
      var u := Next(cfg, s, steps[0]);
      forall r | 0 <= r < |u.runs| && Executing(u.runs[r])
        ensures HasOpenRow(u.runs[r])
      {
        assert r < |s.runs| && Executing(s.runs[r]) ==> r in ExecutingRuns(s) && r in OpenRuns(s);
      }
      AllRecorded(cfg, u, steps[1..], t);
    }
  }

  /** With recorder writes succeeding, as many rows are in status running as executions are in flight. */
  lemma RunningRowsCountExecutions(cfg: Config, s: State, steps: seq<Step>, t: State)
    requires Initial(s) && IsRun(cfg, s, steps, t) && RecordsSucceed(steps)
    ensures |RunningRows(t)| == |ExecutingRuns(t)|
  {
    RunInv(cfg, s, steps, t);
    assert ExecutingRuns(s) == OpenRuns(s);
    AllRecorded(cfg, s, steps, t);
    LedgerBalances(t);
  }

  /** One step finishes at most a running row, and leaves every finished row as it is. */
  lemma StepKeepsFinished(cfg: Config, s: State, step: Step, k: nat)
    requires Inv(s) && CanTake(cfg, s, step) && k < |s.rows|
    ensures k < |Next(cfg, s, step).rows|
    ensures var before, after := s.rows[k], Next(cfg, s, step).rows[k];
            after == before ||
            (before.status == Running && after.status != Running && after == before.(status := after.status))
  {
    if step.End? {
      assert RunOk(s, step.r);
    }
  }

  /**
    A row is finished once and for all: it is finished as soon as its run no longer executes, never changes again, and
    if it was triggered manually it does not end cancelled.
  */
  lemma {:induction false} FinishedOnce(cfg: Config, s: State, steps: seq<Step>, t: State, k: nat)
    requires Inv(s) && IsRun(cfg, s, steps, t) && k < |s.rows|
    ensures k < |t.rows|
    ensures s.rows[k].status != Running ==> t.rows[k] == s.rows[k]
    ensures t.rows[k].manual ==> t.rows[k].status != Aborted
    ensures t.rows[k].writer < |t.runs|
    ensures !Executing(t.runs[t.rows[k].writer]) ==> t.rows[k].status != Running
    decreases |steps|
  {
    if steps != [] {
      StepInv(cfg, s, steps[0]);
      StepKeepsFinished(cfg, s, steps[0], k);
      FinishedOnce(cfg, Next(cfg, s, steps[0]), steps[1..], t, k);
    } else {
      assert RowOk(s, k);
    }
  }

  // ----- what the rows tell

  /** What a row must say about the run whose job has just returned this result. */
  ghost predicate Tells(s: State, r: nat, result: Result, status: Status) {
    r < |s.runs| && s.runs[r].inst < |s.insts| &&
    var called := !s.runs[r].manual && r in s.insts[s.runs[r].inst].cancelled;
    (status == Panicked <==> result == Panicking) &&
    (status == Aborted <==> result != Panicking && called) &&
    (status == Failed <==> result == Errored && !called) &&
    (status == Success <==> result == Returned && !called)
  }

  lemma FinishTells(cfg: Config, s: State, r: nat, result: Result)
    requires Inv(s) && CanTake(cfg, s, Finish(r, result))
    ensures Next(cfg, s, Finish(r, result)).runs[r].phase.Finished?
    ensures Next(cfg, s, Finish(r, result)).runs[r].phase.row == s.runs[r].phase.row
    ensures Tells(s, r, result, Next(cfg, s, Finish(r, result)).runs[r].phase.status)
  {
    assert RunOk(s, r);
    var run := s.runs[r];
    if run.manual {
      assert !IsDone(ContextOf(run, r), s.insts[run.inst].cancelled + s.ended);
    } else {
      assert r !in s.ended;
      assert IsDone(ContextOf(run, r), s.insts[run.inst].cancelled + s.ended) <==> r in s.insts[run.inst].cancelled;
    }
  }

  /** Once the final status is known, it is the one that is written. */
  lemma {:induction false} StatusIsWritten(cfg: Config, s: State, steps: seq<Step>, t: State, r: nat, k: nat)
    requires Inv(s) && IsRun(cfg, s, steps, t) && r < |s.runs| && k < |s.rows| && k < |t.rows|
    requires s.runs[r].phase.Finished? && s.runs[r].phase.row == k && t.rows[k].status != Running
    ensures t.rows[k].status == s.runs[r].phase.status
    decreases |steps|
  {
    assert RunOk(s, r);
    if steps == [] {
    } else {
      var u := Next(cfg, s, steps[0]);
      StepInv(cfg, s, steps[0]);
      StepRuns(cfg, s, steps[0]);
      if steps[0] == End(r) {
        FinishedOnce(cfg, u, steps[1..], t, k);
      } else {
        StepKeepsFinished(cfg, s, steps[0], k);
        StatusIsWritten(cfg, u, steps[1..], t, r, k);
      }
    }
  }

  /** The row is not there yet, or its job is still running. */
  predicate OpenOrAbsent(s: State, k: nat) {
    k < |s.rows| ==>
      s.rows[k].status == Running && s.rows[k].writer < |s.runs| && s.runs[s.rows[k].writer].phase.InFlight?
  }

  lemma {:induction false} RowTells(cfg: Config, s: State, steps: seq<Step>, t: State, k: nat)
    returns (j: nat, u: State)
    requires Inv(s) && IsRun(cfg, s, steps, t) && k < |t.rows| && t.rows[k].status != Running
    requires OpenOrAbsent(s, k)
    ensures j < |steps| && IsRun(cfg, s, steps[..j], u) && CanTake(cfg, u, steps[j])
    ensures steps[j].Finish? && steps[j].r == t.rows[k].writer
    ensures Tells(u, steps[j].r, steps[j].result, t.rows[k].status)
    decreases |steps|
  {
    if k < |s.rows| {
      assert RowOk(s, k);
    }
    var w := Next(cfg, s, steps[0]);
    StepInv(cfg, s, steps[0]);
    StepRuns(cfg, s, steps[0]);
    if k < |s.rows| && steps[0].Finish? && steps[0].r == s.rows[k].writer {
      FinishTells(cfg, s, steps[0].r, steps[0].result);
      StatusIsWritten(cfg, w, steps[1..], t, steps[0].r, k);
      WriterStays(cfg, w, steps[1..], t, k);
      j, u := 0, s;
    } else {
      StillInFlight(cfg, s, steps[0], k);
      var i;
      i, u := RowTells(cfg, w, steps[1..], t, k);
      j := i + 1;
      assert steps[..j][1..] == steps[1..][..i];
    }
  }

  lemma {:induction false} WriterStays(cfg: Config, s: State, steps: seq<Step>, t: State, k: nat)
    requires Inv(s) && IsRun(cfg, s, steps, t) && k < |s.rows|
    ensures k < |t.rows| && t.rows[k].writer == s.rows[k].writer
    decreases |steps|
  {
    if steps == [] {
    } else {
      StepInv(cfg, s, steps[0]);
      StepKeepsFinished(cfg, s, steps[0], k);
      WriterStays(cfg, Next(cfg, s, steps[0]), steps[1..], t, k);
    }
  }

  /** A row is opened by a run that starts to execute, and stays open until its job has returned. */
  lemma StillInFlight(cfg: Config, s: State, step: Step, k: nat)
    requires Inv(s) && CanTake(cfg, s, step)
    requires OpenOrAbsent(s, k)
    requires k < |s.rows| ==> !(step.Finish? && step.r == s.rows[k].writer)
    ensures OpenOrAbsent(Next(cfg, s, step), k)
  {
    StepRuns(cfg, s, step);
    if k < |s.rows| {
      assert RowOk(s, k);
      StepKeepsFinished(cfg, s, step, k);
      if step.End? {
        assert RunOk(s, step.r);
      }
    }
  }

  /**
    What a finished row says is what became of its run: a panic if the job panicked; else cancelled exactly when the
    cancel function of that run had been called by the time the job returned; else failed or success as it returned.
  */
  lemma RowTellsOutcome(cfg: Config, s: State, steps: seq<Step>, t: State, k: nat) returns (j: nat, u: State)
    requires Initial(s) && IsRun(cfg, s, steps, t) && k < |t.rows| && t.rows[k].status != Running
    ensures j < |steps| && IsRun(cfg, s, steps[..j], u) && steps[j].Finish? && steps[j].r == t.rows[k].writer
    ensures steps[j].r < |u.runs| && u.runs[steps[j].r].inst < |u.insts|
    ensures var r, result, status := steps[j].r, steps[j].result, t.rows[k].status;
            var called := !u.runs[r].manual && r in u.insts[u.runs[r].inst].cancelled;
            (status == Panicked <==> result == Panicking) &&
            (status == Aborted <==> result != Panicking && called) &&
            (status == Failed <==> result == Errored && !called) &&
            (status == Success <==> result == Returned && !called)
  {
    j, u := RowTells(cfg, s, steps, t, k);
  }
}
