/**
  The lock client itself: LockBatch, TryLockBatch, Unlock and rollback, run
  against an etcd whose other users act between any two of its round trips. Every
  call is traced: what it does to the store is a sequence of steps of one client
  of LockProtocol, taken between round trips.
*/
module Locker {
  import opened Basics
  import opened Lexicographic
  import opened LockStore
  import opened LockPaths
  import P = LockProtocol

  datatype CallError = Fine | Deadline | Broken

  /**
    What happens around one round trip: the keys the other sessions hold when it is served, the revision a key
    created by it gets, whether the caller gets an error, whether the request took effect all the same, and whether
    the lease of the caller's session has ended by then, with all its keys.
  */
  datatype Reply = Reply(others: Keys, rev: int, fault: CallError, landed: bool, lapsed: bool)

  datatype LockError =
    NoError | EmptyKeys | SessionFailed | NotAcquired | Timeout | AcquireFailed | ReleaseFailed | CloseFailed

  datatype Op = Release(path: string, ok: bool) | Close(ok: bool)

  /** Keys created later have larger revisions. */
  ghost predicate Ordered(world: nat -> Reply) {
    forall t: nat :: InOrder(world, t)
  }

  ghost predicate InOrder(world: nat -> Reply, t: nat) {
    (forall k | k in world(t).others :: world(t).others[k] < world(t).rev) &&
    world(t).rev <= world(t + 1).rev &&
    Follows(world(t).others, world(t + 1).others, world(t).rev)
  }

  ghost predicate Follows(before: Keys, after: Keys, rev: int) {
    forall k | k in after :: (k in before && before[k] == after[k]) || after[k] > rev
  }

  /** Nothing fails, the lease lives on, and nobody else wants any of the paths. */
  ghost predicate Quiet(world: nat -> Reply, paths: set<string>) {
    forall t: nat :: world(t).fault == Fine && !world(t).lapsed && forall k | k in world(t).others :: k.0 !in paths
  }

  /** At some moment between two round trips another session had a key on one of the paths. */
  ghost predicate Contended(world: nat -> Reply, from: nat, to: nat, paths: set<string>, s: Session) {
    exists t: nat, k | k in world(t).others :: from < t <= to && k.0 in paths && k.1 != s
  }

  /** Some round trip in between was answered with an error, or found the lease ended. */
  ghost predicate Troubled(world: nat -> Reply, from: nat, to: nat) {
    exists t: nat :: from < t <= to && (world(t).fault != Fine || world(t).lapsed)
  }

  /** Some round trip in between was answered with this error. */
  ghost predicate Answered(world: nat -> Reply, from: nat, to: nat, fault: CallError) {
    exists t: nat :: from < t <= to && world(t).fault == fault
  }

  /** Some round trip in between found the lease ended. */
  ghost predicate Lapsed(world: nat -> Reply, from: nat, to: nat) {
    exists t: nat :: from < t <= to && world(t).lapsed
  }

  /** The error of the first operation that failed. */
  function FirstError(ops: seq<Op>): LockError {
    if ops == [] then NoError
    else if ops[0].ok then FirstError(ops[1..])
    else if ops[0].Release? then ReleaseFailed else CloseFailed
  }

  lemma {:induction false} FirstErrorAppend(ops: seq<Op>, op: Op)
    ensures FirstError(ops + [op]) == if FirstError(ops) == NoError then FirstError([op]) else FirstError(ops)
  {
    if ops == [] {
      assert ops + [op] == [op];
    } else {
      assert (ops + [op])[1..] == ops[1..] + [op];
      FirstErrorAppend(ops[1..], op);
    }
  }

  /** What that is: no error if all succeeded, and otherwise that of the first failure, by its kind. */
  lemma {:induction false} FirstErrorMeans(ops: seq<Op>)
    ensures FirstError(ops) == NoError <==> forall i | 0 <= i < |ops| :: ops[i].ok
    ensures forall k | 0 <= k < |ops| && !ops[k].ok && (forall i | 0 <= i < k :: ops[i].ok) ::
              FirstError(ops) == if ops[k].Release? then ReleaseFailed else CloseFailed
  {
    if ops == [] {
    } else {
      FirstErrorMeans(ops[1..]);
      assert forall i | 0 <= i < |ops| - 1 :: ops[1..][i] == ops[i + 1];
    }
  }

  /** One release per mutex, last acquired first, and then the end of the session. */
  predicate ReleasesAll(mutexes: seq<string>, ops: seq<Op>) {
    |ops| == |mutexes| + 1 && ops[|mutexes|].Close? && Reversed(mutexes, ops[..|mutexes|])
  }

  lemma OneMoreRelease(mutexes: seq<string>, ops: seq<Op>, op: Op)
    requires Reversed(mutexes, ops) && |ops| < |mutexes| && op.Release? && op.path == mutexes[|mutexes| - 1 - |ops|]
    ensures Reversed(mutexes, ops + [op])
    ensures FirstError(ops + [op]) == if FirstError(ops) == NoError && !op.ok then ReleaseFailed else FirstError(ops)
  {
    FirstErrorAppend(ops, op);
  }

  /** The sequence ended with a successful revocation. */
  predicate Closed(ops: seq<Op>) {
    ops != [] && ops[|ops| - 1].ok
  }

  /** The mutexes so far, last acquired first. */
  predicate Reversed(mutexes: seq<string>, ops: seq<Op>) {
    |ops| <= |mutexes| &&
    forall i | 0 <= i < |ops| :: ops[i].Release? && ops[i].path == mutexes[|mutexes| - 1 - i]
  }

  /** Session s keeps its keys; the others have what `now` says. */
  function Merge(keys: Keys, now: Keys, s: Session): Keys {
    Own(keys, s) + Others(now, s)
  }

  lemma MergeParts(keys: Keys, now: Keys, s: Session)
    ensures Own(Merge(keys, now, s), s) == Own(keys, s)
    ensures Others(Merge(keys, now, s), s) == Others(now, s)
    ensures forall p: string | (p, s) in Merge(keys, now, s) ::
              (p, s) in keys && Merge(keys, now, s)[(p, s)] == keys[(p, s)]
  {
    assert Own(Merge(keys, now, s), s) == Own(keys, s);
    assert Others(Merge(keys, now, s), s) == Others(now, s);
  }

  ghost predicate StillOwned(before: Keys, after: Keys, s: Session) {
    forall p: string | Owns(before, p, s) :: Owns(after, p, s)
  }

  /** One more path is held and owned, and what was owned still is. */
  ghost predicate Gained(before: Keys, after: Keys, path: string, s: Session) {
    Paths(after, s) == Paths(before, s) + {path} && Owns(after, path, s) && StillOwned(before, after, s)
  }

  lemma PutParts(keys: Keys, path: string, s: Session, rev: int)
    ensures Paths(Put(keys, path, s, rev), s) == Paths(keys, s) + {path}
    ensures Others(Put(keys, path, s, rev), s) == Others(keys, s)
    ensures StillOwned(keys, Put(keys, path, s, rev), s)
  {
    PutPaths(keys, path, s, rev);
    forall p: string | Owns(keys, p, s)
      ensures Owns(Put(keys, path, s, rev), p, s)
    {
      PutKeepsOwned(keys, path, s, rev, p);
    }
  }

  lemma DropParts(keys: Keys, path: string, s: Session)
    ensures Paths(Drop(keys, path, s), s) == Paths(keys, s) - {path}
    ensures Others(Drop(keys, path, s), s) == Others(keys, s)
  {
    PathsMembers(keys, s);
    PathsMembers(Drop(keys, path, s), s);
  }

  lemma RevokeParts(keys: Keys, s: Session)
    ensures Own(Revoke(keys, s), s) == map[] && Others(Revoke(keys, s), s) == Others(keys, s)
  {
    assert Others(Revoke(keys, s), s) == Others(keys, s);
  }

  lemma NoPaths(keys: Keys, s: Session)
    ensures Own(keys, s) == map[] ==> Paths(keys, s) == {}
  {
    PathsMembers(keys, s);
    assert forall p: string | (p, s) in keys :: (p, s) in Own(keys, s);
  }

  lemma NothingToDrop(keys: Keys, path: string, s: Session)
    requires Paths(keys, s) == {}
    ensures Drop(keys, path, s) == keys
  {
    PathsMembers(keys, s);
    assert path !in Paths(keys, s);
  }

  /** Whatever the others do between two round trips, they cannot get in front of an owner. */
  lemma NotOvertaken(keys: Keys, before: Keys, after: Keys, rev: int, p: string, s: Session)
    requires Others(keys, s) == Others(before, s) && Follows(before, after, rev)
    requires Owns(keys, p, s) && keys[(p, s)] <= rev
    ensures Owns(Merge(keys, after, s), p, s)
  {
    var next := Merge(keys, after, s);
    assert (p, s) in Own(keys, s) && (p, s) in next && next[(p, s)] == keys[(p, s)];
    forall k | k in next && k.0 == p && k.1 != s
      ensures next[(p, s)] <= next[k]
    {
      assert k in Others(after, s) && next[k] == after[k];
      if k in before && before[k] == next[k] {
        assert k in Others(before, s);
        assert k in keys && keys[k] == next[k];
      }
    }
    assert forall k | k in next && k.0 == p && k.1 == s :: k == (p, s);
  }

  lemma AllStillOwned(keys: Keys, before: Keys, after: Keys, rev: int, s: Session)
    requires Others(keys, s) == Others(before, s) && Follows(before, after, rev)
    requires forall p: string | (p, s) in keys :: keys[(p, s)] <= rev
    ensures StillOwned(keys, Merge(keys, after, s), s)
  {
    forall p: string | Owns(keys, p, s)
      ensures Owns(Merge(keys, after, s), p, s)
    {
      NotOvertaken(keys, before, after, rev, p, s);
    }
  }

  /** Not owning a path one has a key on means that somebody else is there. */
  lemma ContentionSeen(world: nat -> Reply, from: nat, t: nat, keys: Keys, path: string, s: Session)
    requires Others(keys, s) == Others(world(t).others, s) && from < t
    requires (path, s) in keys && !Owns(keys, path, s)
    ensures Contended(world, from, t, {path}, s) && !Quiet(world, {path})
  {
    var k :| k in keys && k.0 == path && keys[k] < keys[(path, s)];
    assert k == (path, k.1);
    assert k in Others(keys, s) && k in world(t).others;
  }

  /**
    Why acquiring can end with an error: a refusal needs somebody else on one of the paths; a timeout needs an answer
    that says so or the end of the caller's context; any other failure of blocking mode needs another error or the end
    of the lease, and in try mode any error will do.
  */
  ghost predicate Excused(world: nat -> Reply, from: nat, to: nat, paths: set<string>, s: Session, tryLock: bool,
                          deadline: nat, err: LockError)
  {
    match err
    case NoError => true
    case NotAcquired => Contended(world, from, to, paths, s)
    case Timeout => Answered(world, from, to, Deadline) || deadline <= to
    case AcquireFailed =>
      Answered(world, from, to, Broken) || Lapsed(world, from, to) || (tryLock && Answered(world, from, to, Deadline))
    case _ => Troubled(world, from, to)
  }

  lemma ExcuseWidens(world: nat -> Reply, from: nat, to: nat, path: string, from': nat, to': nat, paths: set<string>,
                     s: Session, tryLock: bool, deadline: nat, err: LockError)
    requires Excused(world, from, to, {path}, s, tryLock, deadline, err)
    requires from' <= from && to <= to' && path in paths
    ensures Excused(world, from', to', paths, s, tryLock, deadline, err)
  {
  }

  /** If all others lock under other prefixes, and no prefix has a slash or is empty, nobody is ever in front. */
  lemma NamespacesNeverContend(world: nat -> Reply, from: nat, to: nat, prefix: string, keys: seq<string>, s: Session)
    requires prefix != "" && '/' !in prefix
    requires forall t: nat, k | k in world(t).others && k.1 != s ::
               exists q: string, key: string :: q != "" && '/' !in q && q != prefix && k.0 == BuildKeyPath(q, key)
    ensures !Contended(world, from, to, SetOf(BuildAll(prefix, keys)), s)
  {
    forall t: nat, k | k in world(t).others && k.1 != s
      ensures k.0 !in SetOf(BuildAll(prefix, keys))
    {
      var q: string, key: string :| q != "" && '/' !in q && q != prefix && k.0 == BuildKeyPath(q, key);
      NamespacesDisjoint(prefix, keys, q, [key]);
      assert BuildAll(q, [key])[0] == k.0;
    }
  }

  lemma QuietNarrows(world: nat -> Reply, paths: set<string>, path: string)
    requires path in paths
    ensures Quiet(world, paths) ==> Quiet(world, {path})
  {
  }

  /** The session has a key on exactly these paths, and owns each of them. */
  ghost predicate HoldsExactly(keys: Keys, s: Session, paths: seq<string>) {
    Paths(keys, s) == SetOf(paths) && forall p | p in paths :: Owns(keys, p, s)
  }

  /** What was acquired before the failure was released in reverse order and the session was revoked. */
  ghost predicate RolledBack(paths: seq<string>, ops: seq<Op>, keys: Keys, s: Session) {
    (exists n: nat :: n < |paths| && ReleasesAll(paths[..n], ops)) &&
    (Closed(ops) ==> Own(keys, s) == map[])
  }

  lemma HoldsNothing(keys: Keys, s: Session, paths: seq<string>)
    requires Own(keys, s) == map[] && paths == []
    ensures HoldsExactly(keys, s, paths)
  {
    PathsMembers(keys, s);
    assert forall p: string | (p, s) in keys :: (p, s) in Own(keys, s);
  }

  lemma HoldsSameSet(keys: Keys, s: Session, paths: seq<string>, others: seq<string>)
    requires HoldsExactly(keys, s, paths) && SetOf(others) == SetOf(paths)
    ensures HoldsExactly(keys, s, others)
  {
    assert forall p | p in others :: p in SetOf(paths);
  }

  lemma HoldsEach(store: Keys, s: Session, prefix: string, keys: seq<string>)
    requires HoldsExactly(store, s, BuildAll(prefix, keys))
    ensures forall k | k in keys :: Owns(store, "/gapi/lock/" + (if prefix == "" then k else prefix + "/" + k), s)
    ensures forall path | path in Paths(store, s) ::
              exists k :: k in keys && path == "/gapi/lock/" + if prefix == "" then k else prefix + "/" + k
  {
    forall k | k in keys
      ensures Owns(store, "/gapi/lock/" + (if prefix == "" then k else prefix + "/" + k), s)
    {
      var i :| 0 <= i < |keys| && keys[i] == k;
      PathParts(prefix, k);
      assert BuildAll(prefix, keys)[i] == BuildKeyPath(prefix, k);
    }
    forall path | path in Paths(store, s)
      ensures exists k :: k in keys && path == "/gapi/lock/" + if prefix == "" then k else prefix + "/" + k
    {
      var i :| 0 <= i < |keys| && BuildAll(prefix, keys)[i] == path;
      PathParts(prefix, keys[i]);
    }
  }

  lemma HoldsOneMore(before: Keys, after: Keys, s: Session, paths: seq<string>, i: nat)
    requires i < |paths| && HoldsExactly(before, s, paths[..i])
    requires Gained(before, after, paths[i], s)
    ensures HoldsExactly(after, s, paths[..i + 1])
  {
    assert paths[..i + 1] == paths[..i] + [paths[i]];
  }

  // ----- the trace of a call, as a client of the protocol

  /** The store at a round trip, how far the client has come, and whether it has created a key in this round trip. */
  datatype View = View(tick: nat, keys: Keys, me: P.Client, spent: bool)

  datatype Move = Trip | Act(step: P.Step)

  /** A round trip lets the others act; a step of the client must be one the protocol allows. */
  function Moved(world: nat -> Reply, s: Session, v: View, move: Move): Option<View> {
    match move
    case Trip => Some(View(v.tick + 1, Merge(v.keys, world(v.tick + 1).others, s), v.me, false))
    case Act(step) =>
      if step.c == s && P.Allowed(v.keys, v.me, step) && !(step.Ask? && v.spent) then
        Some(View(v.tick, P.KeysAfter(v.keys, world(v.tick).rev, v.me, step),
                  v.me.(phase := P.PhaseAfter(v.keys, v.me, step)), v.spent || step.Ask?))
      else None
  }

  ghost predicate MovedAt(world: nat -> Reply, s: Session, views: seq<View>, moves: seq<Move>, i: nat)
    requires |views| == |moves| + 1 && i < |moves|
  {
    Moved(world, s, views[i], moves[i]) == Some(views[i + 1])
  }

  /** The moves lead from the first view to the last. */
  ghost predicate Leads(world: nat -> Reply, s: Session, views: seq<View>, moves: seq<Move>) {
    |views| == |moves| + 1 && forall i: nat | i < |moves| :: MovedAt(world, s, views, moves, i)
  }

  lemma LeadsOn(world: nat -> Reply, s: Session, views: seq<View>, moves: seq<Move>, move: Move, v: View)
    requires Leads(world, s, views, moves) && Moved(world, s, views[|moves|], move) == Some(v)
    ensures Leads(world, s, views + [v], moves + [move])
  {
    forall i: nat | i < |moves| + 1
      ensures MovedAt(world, s, views + [v], moves + [move], i)
    {
      if i < |moves| {
        assert MovedAt(world, s, views, moves, i);
      }
    }
  }

  /** The client after its turn on the next path: further on, or on its way out. */
  function Turned(me: P.Client, got: bool): P.Client
    requires me.phase.Acquiring?
  {
    var i := me.phase.next;
    me.(phase := if !got then P.Releasing(i) else if i + 1 == |me.paths| then P.Held else P.Acquiring(i + 1, false))
  }

  /** One step back on the way out. */
  function Backed(me: P.Client): P.Client {
    match me.phase
    case Acquiring(i, _) => me.(phase := P.Releasing(i))
    case Leaving(i) => me.(phase := P.Releasing(i))
    case Releasing(l) => me.(phase := P.Releasing(if l == 0 then 0 else l - 1))
    case _ => me
  }

  /** A client whose lease has ended has nothing left to do in the store. */
  function IfAlive(alive: bool, me: P.Client): P.Client {
    if alive then me else me.(phase := P.Done)
  }

  /** The client is about to ask for this path. */
  predicate Facing(me: P.Client, path: string) {
    me.phase.Acquiring? && !me.phase.asked && me.phase.next < |me.paths| && me.paths[me.phase.next] == path
  }

  /** The client has asked for this path. */
  predicate Asking(me: P.Client, path: string) {
    me.phase.Acquiring? && me.phase.asked && me.phase.next < |me.paths| && me.paths[me.phase.next] == path
  }

  /** The client is about to delete its key on this path. */
  predicate Dropping(me: P.Client, path: string) {
    (me.phase.Leaving? && me.phase.next < |me.paths| && me.paths[me.phase.next] == path) ||
    (me.phase.Releasing? && 0 < me.phase.left <= |me.paths| && me.paths[me.phase.left - 1] == path)
  }

  /** On the way out with these mutexes still to release, or without a lease. */
  predicate Releasable(alive: bool, me: P.Client, mutexes: seq<string>) {
    if alive then me.phase == P.Releasing(|mutexes|) && mutexes <= me.paths else me.phase.Done?
  }

  /** That, or holding the whole batch. */
  predicate Unlockable(alive: bool, me: P.Client, mutexes: seq<string>) {
    Releasable(alive, me, mutexes) || (alive && me.phase.Held? && mutexes == me.paths)
  }

  /** The client is through with its batch; it is done unless the revocation of its session failed. */
  predicate Departed(before: P.Client, me: P.Client, closed: bool) {
    me == before.(phase := P.Done) || (!closed && me == before.(phase := P.Lost))
  }

  class Etcd {
    const world: nat -> Reply
    var keys: Keys
    var tick: nat
    var alive: bool
    var log: seq<Op>
    ghost var me: P.Client
    ghost var spent: bool
    ghost var views: seq<View>
    ghost var moves: seq<Move>

    /** `alive` is about the lease of session s; without one the session has no keys. */
    ghost predicate Valid(s: Session)
      reads this
    {
      Ordered(world) &&
      Others(keys, s) == Others(world(tick).others, s) &&
      (forall p: string | (p, s) in keys :: keys[(p, s)] <= world(tick).rev) &&
      (!alive ==> Own(keys, s) == map[])
    }

    /** The moves since the start of the call lead to where things are now. */
    ghost predicate Traced(s: Session)
      reads this
    {
      Leads(world, s, views, moves) && views[|moves|] == View(tick, keys, me, spent)
    }

    /** Start tracing a call. */
    ghost method Trace(client: P.Client, s: Session)
      modifies this`me, this`spent, this`views, this`moves
      ensures me == client && views == [View(tick, keys, client, true)] && moves == [] && Traced(s)
    {
      me, spent, views, moves := client, true, [View(tick, keys, client, true)], [];
    }

    /** The client took a step when the store was `was`, and made it what it is now. */
    ghost method Record(was: Keys, step: P.Step, s: Session)
      requires Leads(world, s, views, moves) && views[|moves|] == View(tick, was, me, spent)
      requires (step.Ask? ==> !spent) && step.c == s && P.Allowed(was, me, step)
      requires keys == P.KeysAfter(was, world(tick).rev, me, step)
      modifies this`me, this`spent, this`views, this`moves
      ensures Traced(s) && old(views) < views
      ensures me == old(me).(phase := P.PhaseAfter(was, old(me), step))
    {
      var after := View(tick, keys, me.(phase := P.PhaseAfter(was, me, step)), spent || step.Ask?);
      LeadsOn(world, s, views, moves, Act(step), after);
      me, spent, views, moves := after.me, after.spent, views + [after], moves + [Act(step)];
    }

    /** Time passes up to the next round trip: the others have acted. */
    method Elapse(s: Session) returns (fault: CallError)
      requires Valid(s) && Traced(s)
      modifies this`keys, this`tick, this`spent, this`views, this`moves
      ensures Valid(s) && Traced(s) && old(views) < views && !spent
      ensures tick == old(tick) + 1 && fault == world(tick).fault
      ensures Own(keys, s) == old(Own(keys, s)) && StillOwned(old(keys), keys, s)
    {
      ghost var before, now := keys, tick;
      tick := tick + 1;
      keys := Merge(keys, world(tick).others, s);
      fault := world(tick).fault;
      LeadsOn(world, s, views, moves, Trip, View(tick, keys, me, false));
      spent, views, moves := false, views + [View(tick, keys, me, false)], moves + [Trip];
      assert InOrder(world, now);
      MergeParts(before, world(tick).others, s);
      AllStillOwned(before, world(now).others, world(now + 1).others, world(now).rev, s);
    }

    /** A round trip. It may find that the lease has ended; in the protocol that is a crash and its expiry. */
    method Exchange(s: Session) returns (fault: CallError)
      requires Valid(s) && Traced(s) && (alive ==> !me.phase.Lost? && !me.phase.Done?)
      modifies this`keys, this`tick, this`alive, this`me, this`spent, this`views, this`moves
      ensures Valid(s) && Traced(s) && old(views) < views
      ensures tick == old(tick) + 1 && fault == world(tick).fault && (alive ==> !spent)
      ensures alive == (old(alive) && !world(tick).lapsed)
      ensures me == IfAlive(alive || !old(alive), old(me))
      ensures alive ==> StillOwned(old(keys), keys, s) && Paths(keys, s) == old(Paths(keys, s))
      ensures !alive ==> Paths(keys, s) == {}
    {
      ghost var before := keys;
      fault := Elapse(s);
      SamePaths(before, keys, s);
      if alive && world(tick).lapsed {
        ghost var mid := keys;
        Record(keys, P.Crash(s), s);
        keys, alive := Revoke(keys, s), false;
        RevokeParts(mid, s);
        Record(mid, P.Expire(s), s);
      }
      NoPaths(keys, s);
    }

    /** The request of a mutex: create the key on the path unless the session already has it. */
    method Request(path: string, s: Session) returns (fault: CallError)
      requires Valid(s) && Traced(s) && alive && Facing(me, path)
      modifies this`keys, this`tick, this`alive, this`me, this`spent, this`views, this`moves
      ensures Valid(s) && Traced(s) && old(views) < views && tick > old(tick)
      ensures me == IfAlive(alive, if fault == Fine then old(me).(phase := P.Acquiring(old(me.phase.next), true))
                                   else Backed(old(me)))
      ensures fault == Fine ==> alive && (path, s) in keys && world(tick).fault == Fine
      ensures fault == Fine ==> Paths(keys, s) == old(Paths(keys, s)) + {path} && StillOwned(old(keys), keys, s)
      ensures fault != Fine ==> world(tick).fault == fault || (fault == Broken && world(tick).lapsed)
      ensures fault != Fine ==> Paths(keys, s) <= old(Paths(keys, s)) + {path}
    {
      fault := Exchange(s);
      if !alive {
        return if fault == Fine then Broken else fault;
      }
      if fault == Fine || world(tick).landed {
        ghost var mid := keys;
        keys := Put(keys, path, s, world(tick).rev);
        PutParts(mid, path, s, world(tick).rev);
        Record(mid, P.Ask(s), s);
      }
      if fault != Fine {
        Record(keys, P.Break(s), s);
        Record(keys, P.Clean(s, false), s);
      }
    }

    /** The deletion of a mutex's key. */
    method Delete(path: string, s: Session) returns (fault: CallError)
      requires Valid(s) && Traced(s) && (if alive then Dropping(me, path) else me.phase.Done?)
      modifies this`keys, this`tick, this`alive, this`me, this`spent, this`views, this`moves
      ensures Valid(s) && Traced(s) && old(views) < views && tick == old(tick) + 1
      ensures (alive ==> old(alive)) && me == IfAlive(alive, Backed(old(me)))
      ensures fault == world(tick).fault
      ensures Paths(keys, s) <= old(Paths(keys, s))
      ensures fault == Fine ==> path !in Paths(keys, s)
      ensures alive ==> old(Paths(keys, s)) - {path} <= Paths(keys, s)
    {
      fault := Exchange(s);
      ghost var mid := keys;
      var gone := fault == Fine || world(tick).landed;
      if gone {
        keys := Drop(keys, path, s);
        DropParts(mid, path, s);
      }
      if alive {
        Record(mid, if me.phase.Leaving? then P.Clean(s, gone) else P.Release(s, gone), s);
      } else {
        NothingToDrop(mid, path, s);
      }
    }

    /** How Mutex.TryLock and Mutex.Lock begin: request the key, and take the lock if nobody is in front. */
    method Claim(path: string, s: Session) returns (fault: CallError, got: bool)
      requires Valid(s) && Traced(s) && alive && Facing(me, path)
      modifies this`keys, this`tick, this`alive, this`me, this`spent, this`views, this`moves
      ensures Valid(s) && Traced(s) && old(views) < views && tick > old(tick)
      ensures fault != Fine ==> me == IfAlive(alive, Backed(old(me)))
      ensures fault == Deadline ==> Answered(world, old(tick), tick, Deadline)
      ensures fault == Broken ==> Answered(world, old(tick), tick, Broken) || Lapsed(world, old(tick), tick)
      ensures fault != Fine ==> Paths(keys, s) <= old(Paths(keys, s)) + {path}
      ensures fault == Fine ==>
                alive && Paths(keys, s) == old(Paths(keys, s)) + {path} && StillOwned(old(keys), keys, s)
      ensures fault == Fine && got ==> me == Turned(old(me), true) && Owns(keys, path, s)
      ensures fault == Fine && !got ==>
                me == old(me).(phase := P.Acquiring(old(me.phase.next), true)) && !Owns(keys, path, s) &&
                Contended(world, old(tick), tick, {path}, s) && !Quiet(world, {path})
    {
      fault := Request(path, s);
      got := fault == Fine && Owns(keys, path, s);
      if got {
        Record(keys, P.Grant(s), s);
      } else if fault == Fine {
        ContentionSeen(world, old(tick), tick, keys, path, s);
      }
    }

    /** What TryLock does when somebody is in front. */
    method TakeBack(path: string, s: Session) returns (err: LockError)
      requires Valid(s) && Traced(s) && alive && Asking(me, path) && me.tryLock && !Owns(keys, path, s)
      modifies this`keys, this`tick, this`alive, this`me, this`spent, this`views, this`moves
      ensures Valid(s) && Traced(s) && old(views) < views && tick > old(tick)
      ensures me == IfAlive(alive, Turned(old(me), false))
      ensures err == NotAcquired ||
              (err == AcquireFailed &&
               (Answered(world, old(tick), tick, Broken) || Answered(world, old(tick), tick, Deadline)))
      ensures Paths(keys, s) <= old(Paths(keys, s))
      ensures err == NotAcquired ==> path !in Paths(keys, s)
      ensures err == NotAcquired && alive ==> Paths(keys, s) == old(Paths(keys, s)) - {path}
    {
      Record(keys, P.Refuse(s), s);
      var fault := Delete(path, s);
      err := if fault == Fine then NotAcquired else AcquireFailed;
    }

    /** Mutex.TryLock: request the key, and take it back when somebody is in front. */
    method TryLock(path: string, s: Session) returns (err: LockError)
      requires Valid(s) && Traced(s) && alive && Facing(me, path) && me.tryLock
      modifies this`keys, this`tick, this`alive, this`me, this`spent, this`views, this`moves
      ensures Valid(s) && Traced(s) && old(views) < views && tick > old(tick)
      ensures me == IfAlive(alive, Turned(old(me), err == NoError))
      ensures err == NoError || err == NotAcquired || err == AcquireFailed
      ensures Quiet(world, {path}) ==> err == NoError
      ensures err == NotAcquired ==> Contended(world, old(tick), tick, {path}, s)
      ensures err == NotAcquired ==> path !in Paths(keys, s)
      ensures Excused(world, old(tick), tick, {path}, s, true, 0, err)
      ensures Paths(keys, s) <= old(Paths(keys, s)) + {path}
      ensures err == NoError ==> alive && Gained(old(keys), keys, path, s)
    {
      var fault, got := Claim(path, s);
      if fault != Fine {
        return AcquireFailed;
      }
      if got {
        return NoError;
      }
      err := TakeBack(path, s);
    }

    /**
      Wait until nobody is in front; an error, the end of the lease, or the end of the caller's context at the round
      trip `deadline`, ends the wait, and then the key is taken back if there still is one.
    */
    method Await(path: string, s: Session, deadline: nat) returns (err: LockError)
      requires Valid(s) && Traced(s) && alive && Asking(me, path)
      modifies this`keys, this`tick, this`alive, this`me, this`spent, this`views, this`moves
      ensures Valid(s) && Traced(s) && old(views) < views && tick >= old(tick)
      ensures me == IfAlive(alive, Turned(old(me), err == NoError))
      ensures err == NoError || err == Timeout || err == AcquireFailed
      ensures Excused(world, old(tick), tick, {path}, s, false, deadline, err)
      ensures Paths(keys, s) <= old(Paths(keys, s))
      ensures err != NoError && world(tick).fault == Fine ==> path !in Paths(keys, s)
      ensures err == NoError ==> alive && Paths(keys, s) == old(Paths(keys, s)) && Owns(keys, path, s)
      ensures err == NoError ==> StillOwned(old(keys), keys, s)
    {
      var fault := Fine;
      while fault == Fine && alive && !Owns(keys, path, s) && tick < deadline
        invariant Valid(s) && Traced(s) && old(views) <= views && tick >= old(tick)
        invariant me == IfAlive(alive, old(me))
        invariant if alive then Paths(keys, s) == old(Paths(keys, s)) && StillOwned(old(keys), keys, s)
                  else Paths(keys, s) == {}
        invariant fault != Fine ==> old(tick) < tick && world(tick).fault == fault
        invariant !alive ==> old(tick) < tick && old(views) < views && world(tick).lapsed
        decreases deadline - tick
      {
        fault := Exchange(s);
      }
      if fault == Fine && !alive {
        return AcquireFailed;
      }
      if fault == Fine && Owns(keys, path, s) {
        Record(keys, P.Grant(s), s);
        return NoError;
      }
      if alive {
        Record(keys, P.Break(s), s);
      }
      err := if fault == Broken then AcquireFailed else Timeout;
      var ignored := Delete(path, s);
    }

    /** Mutex.Lock: request the key, and wait for it unless nobody is in front. */
    method Lock(path: string, s: Session, deadline: nat) returns (err: LockError)
      requires Valid(s) && Traced(s) && alive && Facing(me, path) && !me.tryLock
      modifies this`keys, this`tick, this`alive, this`me, this`spent, this`views, this`moves
      ensures Valid(s) && Traced(s) && old(views) < views && tick > old(tick)
      ensures me == IfAlive(alive, Turned(old(me), err == NoError))
      ensures err == NoError || err == Timeout || err == AcquireFailed
      ensures Quiet(world, {path}) ==> err == NoError
      ensures Excused(world, old(tick), tick, {path}, s, false, deadline, err)
      ensures Paths(keys, s) <= old(Paths(keys, s)) + {path}
      ensures err == NoError ==> alive && Gained(old(keys), keys, path, s)
    {
      var fault, got := Claim(path, s);
      if fault != Fine {
        return if fault == Deadline then Timeout else AcquireFailed;
      }
      if got {
        return NoError;
      }
      err := Await(path, s, deadline);
    }

    /** One turn of the loop of LockBatch, in the mode of the call. */
    method Acquire(path: string, s: Session, tryLock: bool, deadline: nat) returns (err: LockError)
      requires Valid(s) && Traced(s) && alive && Facing(me, path) && me.tryLock == tryLock
      modifies this`keys, this`tick, this`alive, this`me, this`spent, this`views, this`moves
      ensures Valid(s) && Traced(s) && old(views) < views && tick > old(tick)
      ensures me == IfAlive(alive, Turned(old(me), err == NoError))
      ensures err == NoError || err == AcquireFailed || (tryLock && err == NotAcquired) || (!tryLock && err == Timeout)
      ensures Quiet(world, {path}) ==> err == NoError
      ensures Excused(world, old(tick), tick, {path}, s, tryLock, deadline, err)
      ensures err == NoError ==> alive && Gained(old(keys), keys, path, s)
    {
      if tryLock {
        err := TryLock(path, s);
      } else {
        err := Lock(path, s, deadline);
      }
    }

    /** Mutex.Unlock: delete the key. */
    method Unlock(path: string, s: Session) returns (ok: bool)
      requires Valid(s) && Traced(s) && (if alive then me.phase.Releasing? && Dropping(me, path) else me.phase.Done?)
      modifies this`keys, this`tick, this`alive, this`log, this`me, this`spent, this`views, this`moves
      ensures Valid(s) && Traced(s) && old(views) < views && tick > old(tick)
      ensures (alive ==> old(alive)) && me == IfAlive(alive, Backed(old(me)))
      ensures log == old(log) + [Release(path, ok)]
      ensures Paths(keys, s) <= old(Paths(keys, s)) && (ok ==> path !in Paths(keys, s))
      ensures alive ==> old(Paths(keys, s)) - {path} <= Paths(keys, s)
    {
      var fault := Delete(path, s);
      ok := fault == Fine;
      log := log + [Release(path, ok)];
    }

    /** Session.Close: revoke the lease. One that has ended already cannot be revoked. */
    method CloseSession(s: Session) returns (ok: bool)
      requires Valid(s) && Traced(s) && (if alive then me.phase == P.Releasing(0) else me.phase.Done?)
      modifies this`keys, this`tick, this`alive, this`log, this`me, this`spent, this`views, this`moves
      ensures Valid(s) && Traced(s) && old(views) < views && tick >= old(tick)
      ensures Departed(old(me), me, ok)
      ensures log == old(log) + [Close(ok)]
      ensures Paths(keys, s) <= old(Paths(keys, s))
      ensures ok ==> Own(keys, s) == map[]
    {
      var fault := Exchange(s);
      ok := fault == Fine && alive;
      if alive {
        ghost var mid := keys;
        var gone := ok || world(tick).landed;
        if gone {
          keys, alive := Revoke(keys, s), false;
          RevokeParts(mid, s);
          NoPaths(keys, s);
        }
        Record(mid, P.Close(s, gone), s);
      }
      log := log + [Close(ok)];
    }
  }

  lemma SamePaths(a: Keys, b: Keys, s: Session)
    requires Own(a, s) == Own(b, s)
    ensures Paths(a, s) == Paths(b, s)
  {
    PathsMembers(a, s);
    PathsMembers(b, s);
    forall p: string
      ensures p in Paths(a, s) <==> p in Paths(b, s)
    {
      assert (p, s) in Own(a, s) <==> (p, s) in Own(b, s);
    }
  }

  class LockResult {
    const etcd: Etcd
    const session: Session
    var mutexes: seq<string>
    var done: bool

    constructor (etcd: Etcd, session: Session)
      ensures this.etcd == etcd && this.session == session && mutexes == [] && !done
    {
      this.etcd, this.session, mutexes, done := etcd, session, [], false;
    }

    /** One turn of the loop of Unlock; `before` is the first error so far. */
    method ReleaseNext(i: nat, before: LockError) returns (err: LockError, ghost op: Op)
      requires etcd.Valid(session) && etcd.Traced(session) && i < |mutexes|
      requires Releasable(etcd.alive, etcd.me, mutexes[..i + 1])
      modifies etcd
      ensures etcd.Valid(session) && etcd.Traced(session) && etcd.tick >= old(etcd.tick) && old(etcd.views) < etcd.views
      ensures Releasable(etcd.alive, etcd.me, mutexes[..i])
      ensures etcd.me == IfAlive(etcd.alive, old(etcd.me).(phase := P.Releasing(i)))
      ensures op.Release? && op.path == mutexes[i] && etcd.log == old(etcd.log) + [op]
      ensures err == if before == NoError && !op.ok then ReleaseFailed else before
      ensures Paths(etcd.keys, session) <= old(Paths(etcd.keys, session))
    {
      assert etcd.alive ==> mutexes[..i + 1][i] == etcd.me.paths[i];
      assert mutexes[..i] <= mutexes[..i + 1];
      var ok := etcd.Unlock(mutexes[i], session);
      err := if before == NoError && !ok then ReleaseFailed else before;
      op := Release(mutexes[i], ok);
    }

    /** The loop of Unlock: try every mutex once, last first, also after a failure. */
    method ReleaseMutexes() returns (err: LockError, ghost ops: seq<Op>)
      requires etcd.Valid(session) && etcd.Traced(session)
      requires Releasable(etcd.alive, etcd.me, mutexes)
      modifies etcd
      ensures etcd.Valid(session) && etcd.tick >= old(etcd.tick)
      ensures etcd.Traced(session) && old(etcd.views) <= etcd.views
      ensures etcd.me == IfAlive(etcd.alive, old(etcd.me).(phase := P.Releasing(0)))
      ensures etcd.log == old(etcd.log) + ops && |ops| == |mutexes| && Reversed(mutexes, ops) && err == FirstError(ops)
      ensures Paths(etcd.keys, session) <= old(Paths(etcd.keys, session))
    {
      err, ops := NoError, [];
      var i := |mutexes|;
      assert mutexes[..i] == mutexes;
      while i > 0
        invariant 0 <= i <= |mutexes|
        invariant etcd.Valid(session) && etcd.tick >= old(etcd.tick)
        invariant etcd.Traced(session) && old(etcd.views) <= etcd.views
        invariant Releasable(etcd.alive, etcd.me, mutexes[..i])
        invariant etcd.me == IfAlive(etcd.alive, old(etcd.me).(phase := P.Releasing(i)))
        invariant etcd.log == old(etcd.log) + ops && |ops| == |mutexes| - i && Reversed(mutexes, ops)
        invariant err == FirstError(ops)
        invariant Paths(etcd.keys, session) <= old(Paths(etcd.keys, session))
      {
        i := i - 1;
        ghost var op;
        err, op := ReleaseNext(i, err);
        OneMoreRelease(mutexes, ops, op);
        ops := ops + [op];
      }
    }

    /** Release everything: the mutexes, and then the session whatever became of them. */
    method ReleaseAll() returns (err: LockError, ghost ops: seq<Op>)
      requires etcd.Valid(session) && etcd.Traced(session) && Unlockable(etcd.alive, etcd.me, mutexes)
      modifies etcd
      ensures etcd.Valid(session) && etcd.tick >= old(etcd.tick) && etcd.log == old(etcd.log) + ops
      ensures ReleasesAll(mutexes, ops) && err == FirstError(ops)
      ensures etcd.Traced(session) && old(etcd.views) < etcd.views && Departed(old(etcd.me), etcd.me, Closed(ops))
      ensures Closed(ops) ==> Own(etcd.keys, session) == map[]
      ensures Paths(etcd.keys, session) <= old(Paths(etcd.keys, session))
    {
      if etcd.me.phase.Held? {
        etcd.Record(etcd.keys, P.Unlock(session), session);
      }
      err, ops := ReleaseMutexes();
      var ok := etcd.CloseSession(session);
      if !ok && err == NoError {
        err := CloseFailed;
      }
      FirstErrorAppend(ops, Close(ok));
      assert ops == (ops + [Close(ok)])[..|mutexes|];
      ops := ops + [Close(ok)];
    }

    /**
      Only the first call acts: it tries every mutex once, last first, then revokes the session, and reports the
      first error.
    */
    method Unlock() returns (err: LockError, ghost ops: seq<Op>)
      requires etcd.Valid(session)
      requires !done ==> etcd.Traced(session) && Unlockable(etcd.alive, etcd.me, mutexes)
      modifies etcd, this`done
      ensures etcd.Valid(session) && done && etcd.tick >= old(etcd.tick) && etcd.log == old(etcd.log) + ops
      ensures old(done) ==> err == NoError && unchanged(etcd)
      ensures !old(done) ==> ReleasesAll(mutexes, ops) && err == FirstError(ops)
      ensures err == NoError <==> forall i | 0 <= i < |ops| :: ops[i].ok
      ensures !old(done) ==>
                etcd.Traced(session) && old(etcd.views) < etcd.views && Departed(old(etcd.me), etcd.me, Closed(ops))
      ensures Closed(ops) ==> Own(etcd.keys, session) == map[]
      ensures Paths(etcd.keys, session) <= old(Paths(etcd.keys, session))
    {
      if done {
        return NoError, [];
      }
      done := true;
      err, ops := ReleaseAll();
      FirstErrorMeans(ops);
    }

    /** What LockBatch does on any failure of its loop. */
    method Rollback() returns (ghost ops: seq<Op>)
      requires etcd.Valid(session) && !done && etcd.Traced(session)
      requires Releasable(etcd.alive, etcd.me, mutexes)
      modifies etcd, this`done
      ensures etcd.Valid(session) && etcd.tick >= old(etcd.tick) && etcd.log == old(etcd.log) + ops
      ensures etcd.Traced(session) && old(etcd.views) < etcd.views && Departed(old(etcd.me), etcd.me, Closed(ops))
      ensures ReleasesAll(mutexes, ops)
      ensures Closed(ops) ==> Own(etcd.keys, session) == map[]
    {
      if mutexes == [] {
        var ok := etcd.CloseSession(session);
        ops := [Close(ok)];
        return;
      }
      var ignored;
      ignored, ops := Unlock();
    }
  }

  /** One turn of that loop: the next path is acquired too, or everything so far is rolled back. */
  method AcquireNext(result: LockResult, paths: seq<string>, i: nat, tryLock: bool, deadline: nat)
    returns (err: LockError, ghost ops: seq<Op>)
    requires result.etcd.Valid(result.session) && result.etcd.Traced(result.session) && i < |paths|
    requires !result.done && result.mutexes == paths[..i]
    requires HoldsExactly(result.etcd.keys, result.session, paths[..i]) && result.etcd.alive
    requires result.etcd.me == P.Client(paths, tryLock, P.Acquiring(i, false))
    modifies result.etcd, result
    ensures result.etcd.Valid(result.session) && result.etcd.tick >= old(result.etcd.tick)
    ensures result.etcd.Traced(result.session) && old(result.etcd.views) <= result.etcd.views
    ensures result.etcd.log == old(result.etcd.log) + ops
    ensures err == NoError || err == AcquireFailed || (tryLock && err == NotAcquired) || (!tryLock && err == Timeout)
    ensures Quiet(result.etcd.world, {paths[i]}) ==> err == NoError
    ensures Excused(result.etcd.world, old(result.etcd.tick), result.etcd.tick, {paths[i]}, result.session, tryLock,
                    deadline, err)
    ensures err == NoError ==>
              result.etcd.alive && !result.done && result.mutexes == paths[..i + 1] && ops == [] &&
              HoldsExactly(result.etcd.keys, result.session, paths[..i + 1]) &&
              result.etcd.me == P.Client(paths, tryLock, if i + 1 == |paths| then P.Held else P.Acquiring(i + 1, false))
    ensures err != NoError ==>
              result.mutexes == paths[..i] && ReleasesAll(result.mutexes, ops) &&
              (Closed(ops) ==> Own(result.etcd.keys, result.session) == map[]) &&
              Departed(old(result.etcd.me), result.etcd.me, Closed(ops))
  {
    var etcd, session := result.etcd, result.session;
    ghost var before, keysBefore := etcd.tick, etcd.keys;
    err := etcd.Acquire(paths[i], session, tryLock, deadline);
    if err != NoError {
      ghost var failed := etcd.tick;
      ops := result.Rollback();
      ExcuseWidens(etcd.world, before, failed, paths[i], before, etcd.tick, {paths[i]}, session, tryLock, deadline,
                   err);
      return;
    }
    HoldsOneMore(keysBefore, etcd.keys, session, paths, i);
    result.mutexes, ops := result.mutexes + [paths[i]], [];
  }

  /** The loop of LockBatch: acquire the paths in order; on the first failure roll everything back. */
  method AcquireAll(result: LockResult, paths: seq<string>, tryLock: bool, deadline: nat)
    returns (err: LockError, ghost ops: seq<Op>)
    requires result.etcd.Valid(result.session) && paths != []
    requires Own(result.etcd.keys, result.session) == map[] && result.mutexes == [] && !result.done
    requires result.etcd.Traced(result.session) && result.etcd.alive
    requires result.etcd.me == P.Client(paths, tryLock, P.Acquiring(0, false))
    modifies result.etcd, result
    ensures result.etcd.Valid(result.session) && result.etcd.tick >= old(result.etcd.tick)
    ensures result.etcd.Traced(result.session) && old(result.etcd.views) <= result.etcd.views
    ensures if err == NoError then result.etcd.me == P.Client(paths, tryLock, P.Held)
            else Departed(old(result.etcd.me), result.etcd.me, Closed(ops))
    ensures err == NoError || err == AcquireFailed || (tryLock && err == NotAcquired) || (!tryLock && err == Timeout)
    ensures Quiet(result.etcd.world, SetOf(paths)) ==> err == NoError
    ensures Excused(result.etcd.world, old(result.etcd.tick), result.etcd.tick, SetOf(paths), result.session, tryLock,
                    deadline, err)
    ensures err == NoError ==>
              result.etcd.alive && !result.done && result.mutexes == paths && ops == [] &&
              HoldsExactly(result.etcd.keys, result.session, paths)
    ensures result.etcd.log == old(result.etcd.log) + ops
    ensures err != NoError ==>
              result.mutexes < paths && ReleasesAll(result.mutexes, ops) &&
              (Closed(ops) ==> Own(result.etcd.keys, result.session) == map[])
  {
    var etcd, session := result.etcd, result.session;
    var i := 0;
    err, ops := NoError, [];
    HoldsNothing(etcd.keys, session, paths[..0]);
    while i < |paths|
      invariant 0 <= i <= |paths| && etcd.tick >= old(etcd.tick)
      invariant etcd.Valid(session) && etcd.log == old(etcd.log)
      invariant !result.done && result.mutexes == paths[..i] && err == NoError && ops == []
      invariant HoldsExactly(etcd.keys, session, paths[..i]) && etcd.alive
      invariant etcd.Traced(session) && old(etcd.views) <= etcd.views
      invariant etcd.me == P.Client(paths, tryLock, if i == |paths| then P.Held else P.Acquiring(i, false))
    {
      QuietNarrows(etcd.world, SetOf(paths), paths[i]);
      ghost var before := etcd.tick;
      err, ops := AcquireNext(result, paths, i, tryLock, deadline);
      if err != NoError {
        ExcuseWidens(etcd.world, before, etcd.tick, paths[i], old(etcd.tick), etcd.tick, SetOf(paths), session,
                     tryLock, deadline, err);
        return;
      }
      i := i + 1;
    }
    assert paths[..|paths|] == paths;
  }

  /**
    All or nothing. Success: the fresh session is alive and owns exactly the requested paths. Error after the
    session was opened: every acquired mutex was released in reverse order and the session was revoked, so it holds
    nothing unless that revocation itself failed. In all cases the other sessions hold just what they themselves
    made of the store. Without an answer that is an error, and while its lease lives, blocking mode fails only when
    the caller's context ends, at the round trip `deadline`.
  */
  method LockBatch(etcd: Etcd, session: Session, keys: seq<string>, prefix: string, tryLock: bool, deadline: nat)
    returns (result: LockResult?, err: LockError, ghost ops: seq<Op>)
    requires etcd.Valid(session) && Own(etcd.keys, session) == map[]
    modifies etcd
    ensures etcd.Valid(session)
    ensures keys == [] <==> err == EmptyKeys
    ensures err == NoError <==> result != null
    ensures tryLock ==> err != Timeout
    ensures !tryLock ==> err != NotAcquired
    ensures keys != [] && Quiet(etcd.world, SetOf(BuildAll(prefix, keys))) ==> err == NoError
    ensures err != EmptyKeys ==>
              Excused(etcd.world, old(etcd.tick), etcd.tick, SetOf(BuildAll(prefix, keys)), session, tryLock, deadline,
                      err)
    ensures err == NoError ==>
              fresh(result) && result.etcd == etcd && result.session == session && !result.done &&
              result.mutexes == LockOrder(prefix, keys) &&
              HoldsExactly(etcd.keys, session, BuildAll(prefix, keys))
    ensures err == NoError ==>
              forall k | k in keys ::
                Owns(etcd.keys, "/gapi/lock/" + (if prefix == "" then k else prefix + "/" + k), session)
    ensures err == NoError ==>
              forall path | path in Paths(etcd.keys, session) ::
                exists k :: k in keys && path == "/gapi/lock/" + if prefix == "" then k else prefix + "/" + k
    ensures err != EmptyKeys ==>
              etcd.Traced(session) &&
              etcd.views[0] == View(old(etcd.tick), old(etcd.keys),
                                    P.Client(LockOrder(prefix, keys), tryLock, P.Acquiring(0, false)), true)
    ensures err == NoError ==> etcd.alive && etcd.me == P.Client(LockOrder(prefix, keys), tryLock, P.Held)
    ensures err == NotAcquired || err == Timeout || err == AcquireFailed ==>
              Departed(etcd.views[0].me, etcd.me, Closed(ops)) &&
              RolledBack(LockOrder(prefix, keys), ops, etcd.keys, session)
    ensures etcd.log == old(etcd.log) + ops
    ensures err == NoError || err == EmptyKeys || err == SessionFailed ==> ops == []
    ensures err == EmptyKeys || err == SessionFailed ==> Own(etcd.keys, session) == map[]
  {
    if |keys| == 0 {
      return null, EmptyKeys, [];
    }
    var paths := LockOrder(prefix, keys);
    LockOrderAscends(prefix, keys);
    result, err, ops := LockInOrder(etcd, session, paths, tryLock, deadline);
    if err == NoError {
      HoldsSameSet(etcd.keys, session, paths, BuildAll(prefix, keys));
      HoldsEach(etcd.keys, session, prefix, keys);
    }
  }

  /** LockBatch from the session on, for the paths in the order in which they are locked. */
  method LockInOrder(etcd: Etcd, session: Session, paths: seq<string>, tryLock: bool, deadline: nat)
    returns (result: LockResult?, err: LockError, ghost ops: seq<Op>)
    requires etcd.Valid(session) && Own(etcd.keys, session) == map[] && paths != []
    modifies etcd
    ensures etcd.Valid(session) && etcd.Traced(session) && etcd.log == old(etcd.log) + ops
    ensures err == NoError <==> result != null
    ensures err == NoError || err == SessionFailed || err == AcquireFailed || (tryLock && err == NotAcquired) ||
            (!tryLock && err == Timeout)
    ensures Quiet(etcd.world, SetOf(paths)) ==> err == NoError
    ensures Excused(etcd.world, old(etcd.tick), etcd.tick, SetOf(paths), session, tryLock, deadline, err)
    ensures etcd.views[0] ==
            View(old(etcd.tick), old(etcd.keys), P.Client(paths, tryLock, P.Acquiring(0, false)), true)
    ensures err == NoError ==>
              fresh(result) && result.etcd == etcd && result.session == session && !result.done &&
              result.mutexes == paths && HoldsExactly(etcd.keys, session, paths) &&
              etcd.alive && etcd.me == P.Client(paths, tryLock, P.Held)
    ensures err == NoError || err == SessionFailed ==> ops == []
    ensures err == SessionFailed ==> Own(etcd.keys, session) == map[]
    ensures err != NoError && err != SessionFailed ==>
              Departed(etcd.views[0].me, etcd.me, Closed(ops)) && RolledBack(paths, ops, etcd.keys, session)
  {
    etcd.Trace(P.Client(paths, tryLock, P.Acquiring(0, false)), session);
    etcd.alive := false;
    var fault := etcd.Exchange(session);
    if fault != Fine {
      return null, SessionFailed, [];
    }
    etcd.alive := true;
    result := new LockResult(etcd, session);
    err, ops := AcquireAll(result, paths, tryLock, deadline);
    if err != NoError {
      assert result.mutexes == paths[..|result.mutexes|];
      return null, err, ops;
    }
  }
}
