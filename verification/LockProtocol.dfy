/**
  Any number of clients, each of them running one batch lock and its unlock,
  interleaved one etcd round trip at a time. A client's session is its index.
  Besides the ordinary steps there are faults: a wait that times out or
  breaks, deletions and revocations that fail, and clients that crash. A crashed
  client, or one whose revocation failed, keeps its keys until the lease expires.
*/
module LockProtocol {
  import opened Lexicographic
  import opened LockStore
  import opened LockPaths
  import opened Counting

  datatype Phase =
    | Acquiring(next: nat, asked: bool)  // paths before `next` are acquired; `asked`: the next one is requested
    | Leaving(next: nat)                 // the wait for `next` is over without success; its key is still to be deleted
    | Held                               // LockBatch has returned its result
    | Releasing(left: nat)               // paths before `left` still have to be released; then the session is closed
    | Lost                               // the lease is no longer kept alive
    | Done

  datatype Client = Client(paths: seq<string>, tryLock: bool, phase: Phase)

  datatype State = State(keys: Keys, rev: int, clients: seq<Client>)

  datatype Step =
    | Ask(c: nat)
    | Grant(c: nat)
    | Refuse(c: nat)
    | Unlock(c: nat)
    | Release(c: nat, ok: bool)
    | Close(c: nat, ok: bool)
    | Expire(c: nat)
    | Break(c: nat)
    | Clean(c: nat, ok: bool)
    | Crash(c: nat)

  /** The steps that need a fault of the environment. */
  predicate Fault(step: Step) {
    step.Break? || step.Crash? || ((step.Clean? || step.Release? || step.Close?) && !step.ok)
  }

  /** Whether a client may take a step, given the keys in the store. */
  predicate Allowed(keys: Keys, me: Client, step: Step) {
    var ph := me.phase;
    match step
    case Ask(c) => ph.Acquiring? && ph.next < |me.paths| && !ph.asked
    case Grant(c) => ph.Acquiring? && ph.next < |me.paths| && ph.asked && Owns(keys, me.paths[ph.next], c)
    case Refuse(c) =>
      me.tryLock && ph.Acquiring? && ph.next < |me.paths| && ph.asked && !Owns(keys, me.paths[ph.next], c)
    case Unlock(c) => ph.Held?
    case Release(c, ok) => ph.Releasing? && 0 < ph.left <= |me.paths|
    case Close(c, ok) => ph.Releasing? && ph.left == 0
    case Expire(c) => ph.Lost?
    case Break(c) => ph.Acquiring? && ph.next < |me.paths|
    case Clean(c, ok) => ph.Leaving? && ph.next < |me.paths|
    case Crash(c) => !ph.Lost? && !ph.Done?
  }

  function PhaseAfter(keys: Keys, me: Client, step: Step): Phase
    requires Allowed(keys, me, step)
  {
    var ph := me.phase;
    match step
    case Ask(_) => Acquiring(ph.next, true)
    case Grant(_) => if ph.next + 1 == |me.paths| then Held else Acquiring(ph.next + 1, false)
    case Refuse(_) => Leaving(ph.next)
    case Unlock(_) => Releasing(|me.paths|)
    case Release(_, _) => Releasing(ph.left - 1)
    case Close(_, ok) => if ok then Done else Lost
    case Expire(_) => Done
    case Break(_) => Leaving(ph.next)
    case Clean(_, _) => Releasing(ph.next)
    case Crash(_) => Lost
  }

  function KeysAfter(keys: Keys, rev: int, me: Client, step: Step): Keys
    requires Allowed(keys, me, step)
  {
    var c, ph := step.c, me.phase;
    match step
    case Ask(_) => Put(keys, me.paths[ph.next], c, rev)
    case Release(_, ok) => if ok then Drop(keys, me.paths[ph.left - 1], c) else keys
    case Close(_, ok) => if ok then Revoke(keys, c) else keys
    case Expire(_) => Revoke(keys, c)
    case Clean(_, ok) => if ok then Drop(keys, me.paths[ph.next], c) else keys
    case _ => keys
  }

  predicate Enabled(s: State, step: Step) {
    step.c < |s.clients| && Allowed(s.keys, s.clients[step.c], step)
  }

  function Next(s: State, step: Step): State
    requires Enabled(s, step)
  {
    var c, me := step.c, s.clients[step.c];
    State(KeysAfter(s.keys, s.rev, me, step), if step.Ask? then s.rev + 1 else s.rev,
          s.clients[c := me.(phase := PhaseAfter(s.keys, me, step))])
  }

  predicate Initial(s: State) {
    s.keys == map[] &&
    forall c | 0 <= c < |s.clients| ::
      s.clients[c].phase == Acquiring(0, false) && s.clients[c].paths != [] && Ascending(s.clients[c].paths)
  }

  ghost predicate IsRun(s: State, steps: seq<Step>, t: State)
    decreases |steps|
  {
    if steps == [] then s == t
    else Enabled(s, steps[0]) && IsRun(Next(s, steps[0]), steps[1..], t)
  }

  // ----- invariant

  /** The paths a client may and must have a key on, given its phase. */
  predicate HoldsRight(me: Client, held: set<string>) {
    match me.phase
    case Acquiring(i, asked) =>
      i < |me.paths| && held == SetOf(me.paths[..if asked then i + 1 else i])
    case Leaving(i) => i < |me.paths| && held <= SetOf(me.paths)
    case Held => held == SetOf(me.paths)
    case Releasing(i) => i <= |me.paths| && held <= SetOf(me.paths)
    case Lost => held <= SetOf(me.paths)
    case Done => held == {}
  }

  /** The paths a client has acquired and not begun to give back, as long as its lease is alive. */
  function Acquired(me: Client): seq<string> {
    match me.phase
    case Acquiring(i, _) => if i <= |me.paths| then me.paths[..i] else me.paths
    case Held => me.paths
    case _ => []
  }

  ghost predicate ClientOk(s: State, c: nat)
    requires c < |s.clients|
  {
    var me := s.clients[c];
    Ascending(me.paths) && me.paths != [] &&
    HoldsRight(me, Paths(s.keys, c)) &&
    forall p | p in Acquired(me) :: Owns(s.keys, p, c)
  }

  ghost predicate KeysOk(s: State) {
    (forall k | k in s.keys :: k.1 < |s.clients| && s.keys[k] < s.rev) &&
    (forall k, l | k in s.keys && l in s.keys && s.keys[k] == s.keys[l] :: k == l)
  }

  ghost predicate Inv(s: State) {
    KeysOk(s) && forall c | 0 <= c < |s.clients| :: ClientOk(s, c)
  }

  lemma InitialInv(s: State)
    requires Initial(s)
    ensures Inv(s)
  {
    forall c | 0 <= c < |s.clients|
      ensures ClientOk(s, c)
    {
      assert s.clients[c].paths[..0] == [];
    }
  }

  /** A step of one client leaves the keys of every other session alone. */
  lemma StepFrame(s: State, step: Step)
    requires Enabled(s, step)
    ensures Others(Next(s, step).keys, step.c) == Others(s.keys, step.c)
    ensures forall d | 0 <= d < |s.clients| && d != step.c :: Next(s, step).clients[d] == s.clients[d]
  {
  }

  lemma KeysOkKept(s: State, step: Step)
    requires Inv(s) && Enabled(s, step)
    ensures KeysOk(Next(s, step))
  {
  }

  lemma OtherKept(s: State, step: Step, d: nat)
    requires Inv(s) && Enabled(s, step)
    requires d < |s.clients| && d != step.c
    ensures ClientOk(Next(s, step), d)
  {
    var t := Next(s, step);
    StepFrame(s, step);
    assert ClientOk(s, d);
    PathsMembers(s.keys, d);
    PathsMembers(t.keys, d);
    assert Paths(t.keys, d) == Paths(s.keys, d) by {
      forall p: string
        ensures (p, d) in t.keys <==> (p, d) in s.keys
      {
        assert (p, d) in Others(t.keys, step.c) <==> (p, d) in Others(s.keys, step.c);
      }
    }
    forall p | p in Acquired(t.clients[d])
      ensures Owns(t.keys, p, d)
    {
      assert Owns(s.keys, p, d);
      assert (p, d) in Others(t.keys, step.c) && t.keys[(p, d)] == s.keys[(p, d)];
      assert step.Ask? ==> s.keys[(p, d)] < s.rev;
    }
  }

  lemma AskKept(s: State, c: nat)
    requires Inv(s) && Enabled(s, Ask(c))
    ensures ClientOk(Next(s, Ask(c)), c)
  {
    var t, me := Next(s, Ask(c)), s.clients[c];
    var i := me.phase.next;
    assert ClientOk(s, c);
    PutPaths(s.keys, me.paths[i], c, s.rev);
    assert me.paths[..i + 1] == me.paths[..i] + [me.paths[i]];
    assert SetOf(me.paths[..i + 1]) == SetOf(me.paths[..i]) + {me.paths[i]};
    assert Acquired(t.clients[c]) == Acquired(me);
    forall p | p in Acquired(me)
      ensures Owns(t.keys, p, c)
    {
      PutKeepsOwned(s.keys, me.paths[i], c, s.rev, p);
    }
  }

  lemma GrantKept(s: State, c: nat)
    requires Inv(s) && Enabled(s, Grant(c))
    ensures ClientOk(Next(s, Grant(c)), c)
  {
    var me := s.clients[c];
    var i := me.phase.next;
    assert ClientOk(s, c);
    assert me.paths[..i + 1] == me.paths[..i] + [me.paths[i]];
    assert i + 1 == |me.paths| ==> me.paths[..i + 1] == me.paths;
  }

  lemma SelfKept(s: State, step: Step)
    requires Inv(s) && Enabled(s, step)
    ensures ClientOk(Next(s, step), step.c)
  {
    var t, c := Next(s, step), step.c;
    match step
    case Ask(_) => AskKept(s, c);
    case Grant(_) => GrantKept(s, c);
    case _ =>
      assert ClientOk(s, c);
      ShrinkOk(s.clients[c], Paths(s.keys, c));
      PathsMembers(s.keys, c);
      PathsMembers(t.keys, c);
      assert Paths(t.keys, c) <= Paths(s.keys, c);
  }

  lemma ShrinkOk(me: Client, held: set<string>)
    requires HoldsRight(me, held)
    ensures held <= SetOf(me.paths)
  {
  }

  lemma StepInv(s: State, step: Step)
    requires Inv(s) && Enabled(s, step)
    ensures Inv(Next(s, step))
  {
    KeysOkKept(s, step);
    SelfKept(s, step);
    forall d: nat | d < |s.clients| && d != step.c
      ensures ClientOk(Next(s, step), d)
    {
      OtherKept(s, step, d);
    }
  }

  lemma {:induction false} RunInv(s: State, steps: seq<Step>, t: State)
    requires Inv(s) && IsRun(s, steps, t)
    ensures Inv(t)
    decreases |steps|
  {
    if steps == [] {
    } else {
      StepInv(s, steps[0]);
      RunInv(Next(s, steps[0]), steps[1..], t);
    }
  }

  /** Keys are kept as they are, or created with a revision that was not in use yet. */
  ghost predicate OnlyYounger(before: Keys, after: Keys, rev: int) {
    forall k | k in after :: (k in before && after[k] == before[k]) || after[k] >= rev
  }

  lemma StepOnlyYounger(s: State, step: Step)
    requires Enabled(s, step)
    ensures s.rev <= Next(s, step).rev && OnlyYounger(s.keys, Next(s, step).keys, s.rev)
  {
  }

  lemma StepKeepsOthers(s: State, step: Step, c: nat)
    requires Enabled(s, step) && step.c != c
    ensures Own(Next(s, step).keys, c) == Own(s.keys, c)
  {
    var t := Next(s, step);
    StepFrame(s, step);
    forall k: (string, Session) | k.1 == c
      ensures (k in t.keys <==> k in s.keys) && (k in s.keys ==> t.keys[k] == s.keys[k])
    {
      assert k in Others(t.keys, step.c) <==> k in Others(s.keys, step.c);
      assert k in s.keys ==> Others(t.keys, step.c)[k] == Others(s.keys, step.c)[k];
    }
  }

  /**
    What the others do while a client does nothing: the client keeps its keys, and every key that is new is younger
    than all that were there, its own included. This is what the lock client relies on between two round trips.
  */
  lemma {:induction false} OthersQueueUp(s: State, steps: seq<Step>, t: State, c: nat)
    requires IsRun(s, steps, t) && c < |s.clients|
    requires forall k | 0 <= k < |steps| :: steps[k].c != c
    ensures |t.clients| == |s.clients| && t.clients[c] == s.clients[c] && Own(t.keys, c) == Own(s.keys, c)
    ensures s.rev <= t.rev && OnlyYounger(s.keys, t.keys, s.rev)
    decreases |steps|
  {
    if steps == [] {
    } else {
      var u := Next(s, steps[0]);
      StepOnlyYounger(s, steps[0]);
      StepKeepsOthers(s, steps[0], c);
      OthersQueueUp(u, steps[1..], t, c);
      assert forall k | k in t.keys && k in u.keys && t.keys[k] == u.keys[k] :: k in s.keys || u.keys[k] >= s.rev;
    }
  }

  // ----- mutual exclusion and all-or-nothing

  /** In every reachable state no two clients with live leases have acquired the same path. */
  lemma MutualExclusion(s: State, steps: seq<Step>, t: State, c: nat, d: nat, path: string)
    requires Initial(s) && IsRun(s, steps, t)
    requires c < |t.clients| && d < |t.clients|
    requires path in Acquired(t.clients[c]) && path in Acquired(t.clients[d])
    ensures c == d
  {
    InitialInv(s);
    RunInv(s, steps, t);
    assert ClientOk(t, c) && ClientOk(t, d);
    assert t.keys[(path, c)] == t.keys[(path, d)];
  }

  /** A client whose batch lock has returned owns exactly the requested paths; one that is done has no key left. */
  lemma AllOrNothing(s: State, steps: seq<Step>, t: State, c: nat)
    requires Initial(s) && IsRun(s, steps, t) && c < |t.clients|
    ensures t.clients[c].phase.Held? ==>
              Paths(t.keys, c) == SetOf(t.clients[c].paths) && forall p | p in t.clients[c].paths :: Owns(t.keys, p, c)
    ensures t.clients[c].phase.Done? ==> Own(t.keys, c) == map[]
  {
    InitialInv(s);
    RunInv(s, steps, t);
    assert ClientOk(t, c);
    PathsMembers(t.keys, c);
  }

  // ----- no deadlock

  /** The path a blocked client waits for. Try mode never waits. */
  predicate Blocked(s: State, c: nat) {
    c < |s.clients| &&
    var me := s.clients[c];
    !me.tryLock && me.phase.Acquiring? && me.phase.asked && me.phase.next < |me.paths| &&
    !Owns(s.keys, me.paths[me.phase.next], c)
  }

  function Wanted(s: State, c: nat): string
    requires Blocked(s, c)
  {
    s.clients[c].paths[s.clients[c].phase.next]
  }

  /** Client d has an older key on the path that c waits for. */
  predicate WaitsFor(s: State, c: nat, d: nat) {
    Blocked(s, c) && (Wanted(s, c), c) in s.keys && (Wanted(s, c), d) in s.keys &&
    s.keys[(Wanted(s, c), d)] < s.keys[(Wanted(s, c), c)]
  }

  /** The order along which waiting always goes up: later path first, then older key. */
  predicate Before(s: State, c: nat, d: nat)
    requires Blocked(s, c) && Blocked(s, d)
    requires (Wanted(s, c), c) in s.keys && (Wanted(s, d), d) in s.keys
  {
    Less(Wanted(s, c), Wanted(s, d)) ||
    (Wanted(s, c) == Wanted(s, d) && s.keys[(Wanted(s, d), d)] < s.keys[(Wanted(s, c), c)])
  }

  lemma BlockedHasKey(s: State, c: nat)
    requires Inv(s) && Blocked(s, c)
    ensures (Wanted(s, c), c) in s.keys
  {
    var me := s.clients[c];
    assert ClientOk(s, c);
    PathsMembers(s.keys, c);
    assert me.paths[..me.phase.next + 1][me.phase.next] == Wanted(s, c);
  }

  lemma BlockedWaits(s: State, c: nat)
    requires Inv(s) && Blocked(s, c)
    ensures exists d: nat :: d < |s.clients| && WaitsFor(s, c, d)
  {
    BlockedHasKey(s, c);
    var p := Wanted(s, c);
    var k :| k in s.keys && k.0 == p && s.keys[k] < s.keys[(p, c)];
    assert k == (p, k.1);
    assert WaitsFor(s, c, k.1);
  }

  lemma WaitingGoesUp(s: State, c: nat, d: nat)
    requires Inv(s) && WaitsFor(s, c, d) && Blocked(s, d)
    ensures (Wanted(s, d), d) in s.keys && Before(s, c, d)
  {
    BlockedHasKey(s, d);
    var p, me := Wanted(s, c), s.clients[d];
    var i := me.phase.next;
    assert ClientOk(s, d);
    PathsMembers(s.keys, d);
    assert p in me.paths[..i + 1];
    var j :| 0 <= j <= i && me.paths[j] == p;
    Reflexive(p);
    assert Leq(p, me.paths[i]);
  }

  lemma BeforeTransitive(s: State, a: nat, b: nat, c: nat)
    requires Inv(s) && Blocked(s, a) && Blocked(s, b) && Blocked(s, c)
    requires (Wanted(s, a), a) in s.keys && (Wanted(s, b), b) in s.keys && (Wanted(s, c), c) in s.keys
    requires Before(s, a, b) && Before(s, b, c)
    ensures Before(s, a, c)
  {
    var p, q, r := Wanted(s, a), Wanted(s, b), Wanted(s, c);
    Reflexive(p);
    Reflexive(q);
    Transitive(p, q, r);
    if p == r {
      Antisymmetric(p, q);
    }
  }

  /** Along a chain of waiting clients the order goes up from the first to the last. */
  lemma {:induction false} ChainGoesUp(s: State, chain: seq<nat>)
    requires Inv(s) && |chain| >= 2
    requires forall k | 0 <= k < |chain| :: Blocked(s, chain[k])
    requires forall k | 0 <= k < |chain| - 1 :: WaitsFor(s, chain[k], chain[k + 1])
    ensures (Wanted(s, chain[0]), chain[0]) in s.keys
    ensures (Wanted(s, chain[|chain| - 1]), chain[|chain| - 1]) in s.keys
    ensures Before(s, chain[0], chain[|chain| - 1])
  {
    var n := |chain|;
    BlockedHasKey(s, chain[0]);
    WaitingGoesUp(s, chain[n - 2], chain[n - 1]);
    if n > 2 {
      ChainGoesUp(s, chain[..n - 1]);
      BeforeTransitive(s, chain[0], chain[n - 2], chain[n - 1]);
    }
  }

  /** No reachable state has a cycle of clients each waiting for the next one. */
  lemma NoWaitCycle(s: State, steps: seq<Step>, t: State, cycle: seq<nat>)
    requires Initial(s) && IsRun(s, steps, t)
    requires cycle != []
    ensures !(forall k | 0 <= k < |cycle| :: WaitsFor(t, cycle[k], cycle[if k + 1 == |cycle| then 0 else k + 1]))
  {
    InitialInv(s);
    RunInv(s, steps, t);
    if forall k | 0 <= k < |cycle| :: WaitsFor(t, cycle[k], cycle[if k + 1 == |cycle| then 0 else k + 1]) {
      var chain := cycle + [cycle[0]];
      forall k | 0 <= k < |chain| - 1
        ensures WaitsFor(t, chain[k], chain[k + 1])
      {
        assert WaitsFor(t, cycle[k], cycle[if k + 1 == |cycle| then 0 else k + 1]);
      }
      forall k | 0 <= k < |chain|
        ensures Blocked(t, chain[k])
      {
        var j := if k == |cycle| then 0 else k;
        assert WaitsFor(t, cycle[j], cycle[if j + 1 == |cycle| then 0 else j + 1]);
      }
      ChainGoesUp(t, chain);
      assert false;
    }
  }

  /** Among the first n clients, if any is blocked, one is at the top of the waiting order. */
  lemma {:induction false} TopBlocked(s: State, n: nat) returns (top: nat)
    requires Inv(s) && n <= |s.clients|
    requires exists c: nat :: c < n && Blocked(s, c)
    ensures top < n && Blocked(s, top) && (Wanted(s, top), top) in s.keys
    ensures forall d: nat | d < n && Blocked(s, d) :: (Wanted(s, d), d) in s.keys && !Before(s, top, d)
  {
    if exists c: nat :: c < n - 1 && Blocked(s, c) {
      top := TopBlocked(s, n - 1);
      var d := n - 1;
      if Blocked(s, d) {
        BlockedHasKey(s, d);
        if Before(s, top, d) {
          forall e: nat | e < n && Blocked(s, e)
            ensures (Wanted(s, e), e) in s.keys && !Before(s, d, e)
          {
            BlockedHasKey(s, e);
            if e < n - 1 && Before(s, d, e) {
              BeforeTransitive(s, top, d, e);
            }
          }
          top := d;
        }
      }
    } else {
      top := n - 1;
      BlockedHasKey(s, top);
    }
  }

  ghost predicate AllDone(s: State) {
    forall c | 0 <= c < |s.clients| :: s.clients[c].phase.Done?
  }

  /** A client that is neither done nor blocked can take an ordinary step. */
  lemma FreeClientMoves(s: State, c: nat)
    requires Inv(s) && c < |s.clients| && !s.clients[c].phase.Done? && !Blocked(s, c)
    ensures exists step :: Enabled(s, step) && !Fault(step)
  {
    assert ClientOk(s, c);
    var me := s.clients[c];
    match me.phase
    case Acquiring(i, asked) =>
      if !asked {
        assert Enabled(s, Ask(c)) && !Fault(Ask(c));
      } else if Owns(s.keys, me.paths[i], c) {
        assert Enabled(s, Grant(c)) && !Fault(Grant(c));
      } else {
        assert Enabled(s, Refuse(c)) && !Fault(Refuse(c));
      }
    case Leaving(i) => assert Enabled(s, Clean(c, true)) && !Fault(Clean(c, true));
    case Held => assert Enabled(s, Unlock(c)) && !Fault(Unlock(c));
    case Releasing(i) =>
      if i == 0 {
        assert Enabled(s, Close(c, true)) && !Fault(Close(c, true));
      } else {
        assert Enabled(s, Release(c, true)) && !Fault(Release(c, true));
      }
    case Lost => assert Enabled(s, Expire(c)) && !Fault(Expire(c));
  }

  /** As long as some client is not done, some ordinary step is possible: no deadlock. */
  lemma DeadlockFree(s: State)
    requires Inv(s) && !AllDone(s)
    ensures exists step :: Enabled(s, step) && !Fault(step)
  {
    var c :| 0 <= c < |s.clients| && !s.clients[c].phase.Done?;
    if Blocked(s, c) {
      var top := TopBlocked(s, |s.clients|);
      BlockedWaits(s, top);
      var d: nat :| d < |s.clients| && WaitsFor(s, top, d);
      if Blocked(s, d) {
        WaitingGoesUp(s, top, d);
        assert false;
      }
      assert ClientOk(s, d);
      PathsMembers(s.keys, d);
      FreeClientMoves(s, d);
    } else {
      FreeClientMoves(s, c);
    }
  }

  // ----- termination

  /** The steps a client has left, at most. */
  function Left(me: Client): nat {
    match me.phase
    case Acquiring(i, asked) =>
      |me.paths| + 3 + (if i < |me.paths| then 2 * (|me.paths| - i) - (if asked then 1 else 0) else 0)
    case Leaving(i) => i + 3
    case Held => |me.paths| + 3
    case Releasing(i) => i + 2
    case Lost => 1
    case Done => 0
  }

  function TotalLeft(clients: seq<Client>): nat {
    if clients == [] then 0 else Left(clients[0]) + TotalLeft(clients[1..])
  }

  lemma {:induction false} TotalLeftUpdate(clients: seq<Client>, c: nat, me: Client)
    requires c < |clients|
    ensures TotalLeft(clients[c := me]) == TotalLeft(clients) - Left(clients[c]) + Left(me)
  {
    if c == 0 {
      assert clients[0 := me][1..] == clients[1..];
    } else {
      TotalLeftUpdate(clients[1..], c - 1, me);
      assert clients[c := me][1..] == clients[1..][c - 1 := me];
    }
  }

  /** Every step, faults included, uses up some of what is left. */
  lemma StepShrinks(s: State, step: Step)
    requires Inv(s) && Enabled(s, step)
    ensures TotalLeft(Next(s, step).clients) < TotalLeft(s.clients)
  {
    assert ClientOk(s, step.c);
    TotalLeftUpdate(s.clients, step.c, Next(s, step).clients[step.c]);
  }

  /** Every run, whatever its faults, is at most as long as the measure of its first state. */
  lemma {:induction false} RunsAreBounded(s: State, steps: seq<Step>, t: State)
    requires Inv(s) && IsRun(s, steps, t)
    ensures |steps| + TotalLeft(t.clients) <= TotalLeft(s.clients)
    decreases |steps|
  {
    if steps == [] {
    } else {
      StepInv(s, steps[0]);
      StepShrinks(s, steps[0]);
      RunsAreBounded(Next(s, steps[0]), steps[1..], t);
    }
  }

  /** Every run that cannot go on has finished all its clients and left the store empty. */
  lemma MaximalRunEndsEmpty(s: State, steps: seq<Step>, t: State)
    requires Initial(s) && IsRun(s, steps, t)
    requires forall step :: Enabled(t, step) ==> Fault(step)
    ensures AllDone(t) && t.keys == map[]
    ensures |steps| <= TotalLeft(s.clients)
  {
    InitialInv(s);
    RunInv(s, steps, t);
    RunsAreBounded(s, steps, t);
    if !AllDone(t) {
      DeadlockFree(t);
      assert false;
    }
    forall p: string, c: nat
      ensures (p, c) !in t.keys
    {
      if c < |t.clients| {
        assert ClientOk(t, c);
        PathsMembers(t.keys, c);
      }
    }
    assert forall k | k in t.keys :: k == (k.0, k.1);
  }

  /** A call of LockBatch or TryLockBatch with at least one key. */
  datatype Batch = Batch(prefix: string, keys: seq<string>, tryLock: bool)

  function StartOf(batches: seq<Batch>): State {
    State(map[], 0, seq(|batches|, i requires 0 <= i < |batches| =>
      Client(LockOrder(batches[i].prefix, batches[i].keys), batches[i].tryLock, Acquiring(0, false))))
  }

  lemma StartIsInitial(batches: seq<Batch>)
    requires forall b | b in batches :: b.keys != []
    ensures Initial(StartOf(batches))
  {
    var s := StartOf(batches);
    forall c | 0 <= c < |s.clients|
      ensures s.clients[c].paths != [] && Ascending(s.clients[c].paths)
    {
      assert batches[c] in batches;
      LockOrderAscends(batches[c].prefix, batches[c].keys);
    }
  }

  /**
    Arbitrary batches, with arbitrary prefixes and duplicate keys: no run ever meets
    a cycle of waiting clients, and a run that cannot go on has finished every client and emptied the store.
  */
  lemma EveryBatchCompletes(batches: seq<Batch>, steps: seq<Step>, t: State, cycle: seq<nat>)
    requires forall b | b in batches :: b.keys != []
    requires IsRun(StartOf(batches), steps, t)
    ensures cycle != [] ==>
              !(forall k | 0 <= k < |cycle| :: WaitsFor(t, cycle[k], cycle[if k + 1 == |cycle| then 0 else k + 1]))
    ensures (forall step :: Enabled(t, step) ==> Fault(step)) ==> AllDone(t) && t.keys == map[]
  {
    var s := StartOf(batches);
    StartIsInitial(batches);
    if cycle != [] {
      NoWaitCycle(s, steps, t, cycle);
    }
    if forall step :: Enabled(t, step) ==> Fault(step) {
      MaximalRunEndsEmpty(s, steps, t);
    }
  }

  /** Batches under different prefixes without a slash never wait for each other. */
  lemma DifferentPrefixesNeverWait(batches: seq<Batch>, steps: seq<Step>, t: State, c: nat, d: nat)
    requires (forall b | b in batches :: b.keys != []) && IsRun(StartOf(batches), steps, t)
    requires c < |batches| && d < |batches| && batches[c].prefix != batches[d].prefix
    requires batches[c].prefix != "" && '/' !in batches[c].prefix
    requires batches[d].prefix != "" && '/' !in batches[d].prefix
    ensures !WaitsFor(t, c, d)
  {
    var s := StartOf(batches);
    StartIsInitial(batches);
    InitialInv(s);
    RunInv(s, steps, t);
    RunKeepsPaths(s, steps, t);
    if WaitsFor(t, c, d) {
      var p := Wanted(t, c);
      assert ClientOk(t, d);
      PathsMembers(t.keys, d);
      ShrinkOk(t.clients[d], Paths(t.keys, d));
      assert p in SetOf(t.clients[c].paths) && p in SetOf(t.clients[d].paths);
      LockOrderAscends(batches[c].prefix, batches[c].keys);
      LockOrderAscends(batches[d].prefix, batches[d].keys);
      NamespacesDisjoint(batches[c].prefix, batches[c].keys, batches[d].prefix, batches[d].keys);
      assert false;
    }
  }

  lemma {:induction false} RunKeepsPaths(s: State, steps: seq<Step>, t: State)
    requires IsRun(s, steps, t)
    ensures |t.clients| == |s.clients| && forall c | 0 <= c < |s.clients| :: t.clients[c].paths == s.clients[c].paths
    decreases |steps|
  {
    if steps == [] {
    } else {
      RunKeepsPaths(Next(s, steps[0]), steps[1..], t);
    }
  }

  // ----- fairness

  /** The sessions with an older key on a path. */
  function InFront(keys: Keys, p: string, c: nat): set<nat> {
    set k | k in keys && k.0 == p && (p, c) in keys && keys[k] < keys[(p, c)] :: k.1
  }

  /** Who is granted a path along a run. */
  ghost function GrantedOn(s: State, steps: seq<Step>, p: string): set<nat>
    decreases |steps|
  {
    if steps == [] || !Enabled(s, steps[0]) then {}
    else (if Grants(s, steps[0], p) then {steps[0].c} else {}) + GrantedOn(Next(s, steps[0]), steps[1..], p)
  }

  predicate Grants(s: State, step: Step, p: string)
    requires Enabled(s, step)
  {
    step.Grant? && s.clients[step.c].paths[s.clients[step.c].phase.next] == p
  }

  /** While a client does nothing nobody gets in front of it, and whoever is granted its path was in front. */
  lemma StepInFront(s: State, step: Step, p: string, c: nat)
    requires Inv(s) && Enabled(s, step) && step.c != c && (p, c) in s.keys
    ensures (p, c) in Next(s, step).keys && InFront(Next(s, step).keys, p, c) <= InFront(s.keys, p, c)
    ensures Grants(s, step, p) ==> step.c in InFront(s.keys, p, c)
  {
    var t := Next(s, step);
    StepFrame(s, step);
    assert (p, c) in Others(s.keys, step.c) && (p, c) in Others(t.keys, step.c);
    assert t.keys[(p, c)] == Others(t.keys, step.c)[(p, c)] == s.keys[(p, c)];
    forall k | k in t.keys && k.0 == p && t.keys[k] < t.keys[(p, c)]
      ensures k in s.keys && s.keys[k] == t.keys[k]
    {
      assert step.Ask? ==> s.keys[(p, c)] < s.rev;
    }
    if Grants(s, step, p) {
      assert (p, step.c) in s.keys && s.keys[(p, step.c)] != s.keys[(p, c)];
    }
  }

  /**
    Nobody overtakes, in any run: while a client waits with its key in the queue of a path, the sessions in front of it
    only get fewer, and only they are granted the path. So at most as many clients go first as were in front of it.
  */
  lemma {:induction false} NoOvertaking(s: State, steps: seq<Step>, t: State, p: string, c: nat)
    requires Inv(s) && IsRun(s, steps, t) && (p, c) in s.keys
    requires forall k | 0 <= k < |steps| :: steps[k].c != c
    ensures (p, c) in t.keys && InFront(t.keys, p, c) <= InFront(s.keys, p, c)
    ensures GrantedOn(s, steps, p) <= InFront(s.keys, p, c)
    ensures |GrantedOn(s, steps, p)| <= |InFront(s.keys, p, c)|
    decreases |steps|
  {
    if steps == [] {
    } else {
      StepInFront(s, steps[0], p, c);
      StepInv(s, steps[0]);
      NoOvertaking(Next(s, steps[0]), steps[1..], t, p, c);
      SubsetSize(GrantedOn(s, steps, p), InFront(s.keys, p, c));
    }
  }
}
