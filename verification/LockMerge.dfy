/**
  The lock client against itself: several clients run the code of Locker at the
  same time against one store. What each of them is served at a round trip is
  the store as the others have left it. Their traces then merge into one run of
  LockProtocol, so what is proved there holds of the code.

  A client sees the revisions through a mirror that doubles them and leaves room
  for its own next key; only their order matters.
*/
module LockMerge {
  import opened Lexicographic
  import opened LockStore
  import opened LockPaths
  import P = LockProtocol
  import L = Locker

  function Mirror(keys: Keys, c: Session): Keys {
    map k | k in keys :: if k.1 == c then 2 * keys[k] - 1 else 2 * keys[k]
  }

  lemma MirrorOwns(keys: Keys, c: Session, p: string)
    ensures Owns(Mirror(keys, c), p, c) <==> Owns(keys, p, c)
  {
    if Owns(Mirror(keys, c), p, c) {
      forall k | k in keys && k.0 == p
        ensures keys[(p, c)] <= keys[k]
      {
        assert Mirror(keys, c)[(p, c)] <= Mirror(keys, c)[k];
      }
    }
  }

  /** What a client may do, and what comes of it, is the same in its mirror. */
  lemma MirrorStep(keys: Keys, rev: int, c: Session, me: P.Client, step: P.Step)
    requires step.c == c
    ensures P.Allowed(Mirror(keys, c), me, step) <==> P.Allowed(keys, me, step)
    ensures P.Allowed(keys, me, step) ==>
              P.PhaseAfter(Mirror(keys, c), me, step) == P.PhaseAfter(keys, me, step) &&
              P.KeysAfter(Mirror(keys, c), 2 * rev - 1, me, step) == Mirror(P.KeysAfter(keys, rev, me, step), c)
  {
    if step.Grant? || step.Refuse? {
      if me.phase.Acquiring? && me.phase.next < |me.paths| {
        MirrorOwns(keys, c, me.paths[me.phase.next]);
      }
    }
  }

  /** A reply shows a client the keys of the others and the next revision, as they are. */
  predicate Served(reply: L.Reply, g: P.State, c: Session) {
    reply.others == Others(Mirror(g.keys, c), c) && reply.rev == 2 * g.rev - 1
  }

  // ----- what the client relies on is so

  lemma {:induction false} RunOnlyYounger(s: P.State, steps: seq<P.Step>, t: P.State)
    requires P.IsRun(s, steps, t)
    ensures s.rev <= t.rev && P.OnlyYounger(s.keys, t.keys, s.rev)
    decreases |steps|
  {
    if steps == [] {
    } else {
      var u := P.Next(s, steps[0]);
      P.StepOnlyYounger(s, steps[0]);
      RunOnlyYounger(u, steps[1..], t);
      assert forall k | k in t.keys && k in u.keys && t.keys[k] == u.keys[k] :: k in s.keys || u.keys[k] >= s.rev;
    }
  }

  ghost predicate Reaches(s: P.State, t: P.State) {
    exists steps :: P.IsRun(s, steps, t)
  }

  /** Replies that show one protocol run at successive moments are in the order that the lock client requires. */
  lemma ServedIsOrdered(world: nat -> L.Reply, at: nat -> P.State, c: Session)
    requires forall t: nat :: Served(world(t), at(t), c) && P.Inv(at(t)) && Reaches(at(t), at(t + 1))
    ensures L.Ordered(world)
  {
    forall t: nat
      ensures L.InOrder(world, t)
    {
      assert Served(world(t), at(t), c) && P.Inv(at(t)) && Served(world(t + 1), at(t + 1), c);
      assert Reaches(at(t), at(t + 1));
      var steps :| P.IsRun(at(t), steps, at(t + 1));
      RunOnlyYounger(at(t), steps, at(t + 1));
    }
  }

  // ----- merging

  /** The trace of one client, as Locker keeps it. */
  datatype Trace = Trace(views: seq<L.View>, moves: seq<L.Move>)

  /** The store after a move; a step that the protocol does not allow would leave it as it is. */
  function Moved(g: P.State, move: L.Move): P.State {
    if move.Act? && P.Enabled(g, move.step) then P.Next(g, move.step) else g
  }

  /**
    The traces are run in this order, from these positions on: every round trip is served by the store as it is then,
    and what a client does in a round trip comes before anybody else's next move.
  */
  ghost predicate Interleaves(worlds: nat -> (nat -> L.Reply), g: P.State, traces: seq<Trace>, pos: seq<nat>, last: int,
                              order: seq<nat>, t: P.State)
    decreases |order|
  {
    |pos| == |traces| &&
    if order == [] then g == t && forall c | 0 <= c < |traces| :: pos[c] == |traces[c].moves|
    else
      var c := order[0];
      c < |traces| && pos[c] < |traces[c].moves| < |traces[c].views| &&
      var move := traces[c].moves[pos[c]];
      (if move.Trip? then Served(worlds(c)(traces[c].views[pos[c]].tick + 1), g, c) else last == c) &&
      Interleaves(worlds, Moved(g, move), traces, pos[c := pos[c] + 1], c, order[1..], t)
  }

  /** The steps of all clients, in that order. */
  ghost function Merged(traces: seq<Trace>, pos: seq<nat>, order: seq<nat>): seq<P.Step>
    requires |pos| == |traces|
    decreases |order|
  {
    if order == [] || order[0] >= |traces| || pos[order[0]] >= |traces[order[0]].moves| then []
    else
      var c := order[0];
      var move := traces[c].moves[pos[c]];
      StepOf(move) + Merged(traces, pos[c := pos[c] + 1], order[1..])
  }

  function Zeros(n: nat): seq<nat> {
    seq(n, _ => 0)
  }

  function Lengths(traces: seq<Trace>): seq<nat> {
    seq(|traces|, c requires 0 <= c < |traces| => |traces[c].moves|)
  }

  function StepOf(move: L.Move): seq<P.Step> {
    if move.Act? then [move.step] else []
  }

  lemma RunMove(g: P.State, move: L.Move, steps: seq<P.Step>, t: P.State)
    requires (move.Act? ==> P.Enabled(g, move.step)) && P.IsRun(Moved(g, move), steps, t)
    ensures P.IsRun(g, StepOf(move) + steps, t)
  {
    if move.Act? {
      assert ([move.step] + steps)[1..] == steps;
    } else {
      assert [] + steps == steps;
    }
  }

  ghost predicate AllLead(worlds: nat -> (nat -> L.Reply), traces: seq<Trace>) {
    forall c: nat | c < |traces| :: L.Leads(worlds(c), c, traces[c].views, traces[c].moves)
  }

  /** Each client has come as far as its trace says, and its own keys are those it sees in its mirror. */
  ghost predicate InStep(g: P.State, traces: seq<Trace>, pos: seq<nat>) {
    |pos| == |traces| == |g.clients| &&
    forall c: nat | c < |traces| ::
      pos[c] < |traces[c].views| && g.clients[c] == traces[c].views[pos[c]].me &&
      Own(traces[c].views[pos[c]].keys, c) == Own(Mirror(g.keys, c), c)
  }

  /** The client that moved last sees the whole store, and the next revision unless it has used it. */
  ghost predicate UpToDate(worlds: nat -> (nat -> L.Reply), g: P.State, traces: seq<Trace>, pos: seq<nat>, c: int) {
    |pos| == |traces| && 0 <= c < |traces| && pos[c] < |traces[c].views| &&
    var v := traces[c].views[pos[c]];
    v.keys == Mirror(g.keys, c) && (!v.spent ==> worlds(c)(v.tick).rev == 2 * g.rev - 1)
  }

  lemma AfterTrip(worlds: nat -> (nat -> L.Reply), g: P.State, traces: seq<Trace>, pos: seq<nat>, c: nat)
    requires AllLead(worlds, traces) && InStep(g, traces, pos) && c < |traces|
    requires pos[c] < |traces[c].moves| && traces[c].moves[pos[c]].Trip?
    requires Served(worlds(c)(traces[c].views[pos[c]].tick + 1), g, c)
    ensures InStep(g, traces, pos[c := pos[c] + 1])
    ensures UpToDate(worlds, g, traces, pos[c := pos[c] + 1], c)
  {
    var tr := traces[c];
    assert L.MovedAt(worlds(c), c, tr.views, tr.moves, pos[c]);
    var v, w := tr.views[pos[c]], tr.views[pos[c] + 1];
    var mirror := Mirror(g.keys, c);
    assert w.keys == L.Merge(v.keys, Others(mirror, c), c);
    assert Own(v.keys, c) == Own(mirror, c);
    assert Own(mirror, c) + Others(Others(mirror, c), c) == mirror;
  }

  lemma OthersOwn(keys: Keys, after: Keys, d: Session)
    requires Own(after, d) == Own(keys, d)
    ensures Own(Mirror(after, d), d) == Own(Mirror(keys, d), d)
  {
    forall k: (string, Session) | k.1 == d
      ensures (k in after <==> k in keys) && (k in keys ==> after[k] == keys[k])
    {
      assert k in Own(after, d) <==> k in Own(keys, d);
      assert k in keys ==> Own(after, d)[k] == Own(keys, d)[k];
    }
  }

  lemma AfterStep(worlds: nat -> (nat -> L.Reply), g: P.State, traces: seq<Trace>, pos: seq<nat>, c: nat)
    requires AllLead(worlds, traces) && InStep(g, traces, pos) && UpToDate(worlds, g, traces, pos, c)
    requires pos[c] < |traces[c].moves| && traces[c].moves[pos[c]].Act?
    ensures P.Enabled(g, traces[c].moves[pos[c]].step)
    ensures InStep(P.Next(g, traces[c].moves[pos[c]].step), traces, pos[c := pos[c] + 1])
    ensures UpToDate(worlds, P.Next(g, traces[c].moves[pos[c]].step), traces, pos[c := pos[c] + 1], c)
  {
    var tr := traces[c];
    assert L.MovedAt(worlds(c), c, tr.views, tr.moves, pos[c]);
    var v, step := tr.views[pos[c]], tr.moves[pos[c]].step;
    MirrorStep(g.keys, g.rev, c, v.me, step);
    var h := P.Next(g, step);
    assert tr.views[pos[c] + 1].keys == Mirror(h.keys, c);
    forall d: nat | d < |traces| && d != c
      ensures h.clients[d] == g.clients[d] && Own(Mirror(h.keys, d), d) == Own(Mirror(g.keys, d), d)
    {
      P.StepKeepsOthers(g, step, d);
      OthersOwn(g.keys, h.keys, d);
    }
  }

  lemma NextMove(worlds: nat -> (nat -> L.Reply), g: P.State, traces: seq<Trace>, pos: seq<nat>, last: int,
                 order: seq<nat>, t: P.State)
    requires AllLead(worlds, traces) && InStep(g, traces, pos) && order != []
    requires 0 <= last < |traces| ==> UpToDate(worlds, g, traces, pos, last)
    requires Interleaves(worlds, g, traces, pos, last, order, t)
    ensures var c := order[0];
            c < |traces| && pos[c] < |traces[c].moves| &&
            var move, next := traces[c].moves[pos[c]], pos[c := pos[c] + 1];
            InStep(Moved(g, move), traces, next) && UpToDate(worlds, Moved(g, move), traces, next, c) &&
            Interleaves(worlds, Moved(g, move), traces, next, c, order[1..], t) &&
            (move.Act? ==> P.Enabled(g, move.step)) &&
            Merged(traces, pos, order) == StepOf(move) + Merged(traces, next, order[1..])
  {
    var c := order[0];
    if traces[c].moves[pos[c]].Trip? {
      AfterTrip(worlds, g, traces, pos, c);
    } else {
      AfterStep(worlds, g, traces, pos, c);
    }
  }

  /** Whatever the interleaving, the traces of the clients merge into one run of the protocol. */
  lemma {:induction false} TracesMerge(worlds: nat -> (nat -> L.Reply), g: P.State, traces: seq<Trace>, pos: seq<nat>,
                                       last: int, order: seq<nat>, t: P.State)
    requires AllLead(worlds, traces) && InStep(g, traces, pos)
    requires 0 <= last < |traces| ==> UpToDate(worlds, g, traces, pos, last)
    requires Interleaves(worlds, g, traces, pos, last, order, t)
    ensures P.IsRun(g, Merged(traces, pos, order), t)
    ensures InStep(t, traces, Lengths(traces))
    decreases |order|
  {
    if order == [] {
      assert pos == Lengths(traces) && g == t;
    } else {
      var c := order[0];
      var move, next := traces[c].moves[pos[c]], pos[c := pos[c] + 1];
      NextMove(worlds, g, traces, pos, last, order, t);
      TracesMerge(worlds, Moved(g, move), traces, next, c, order[1..], t);
      RunMove(g, move, Merged(traces, next, order[1..]), t);
    }
  }

  // ----- several calls of LockBatch

  function End(trace: Trace): L.View
    requires trace.views != []
  {
    trace.views[|trace.views| - 1]
  }

  /** The trace of a client begins the way LockBatch begins it, in a store that is empty. */
  ghost predicate Begins(batch: P.Batch, c: nat, trace: Trace) {
    trace.views != [] && trace.views[0].spent && Own(trace.views[0].keys, c) == map[] &&
    trace.views[0].me == P.Client(LockOrder(batch.prefix, batch.keys), batch.tryLock, P.Acquiring(0, false))
  }

  ghost predicate Concurrent(worlds: nat -> (nat -> L.Reply), batches: seq<P.Batch>, traces: seq<Trace>,
                             order: seq<nat>, t: P.State)
  {
    |traces| == |batches| && AllLead(worlds, traces) &&
    (forall c: nat | c < |traces| :: Begins(batches[c], c, traces[c])) &&
    Interleaves(worlds, P.StartOf(batches), traces, Zeros(|traces|), -1, order, t)
  }

  lemma BatchesBegin(worlds: nat -> (nat -> L.Reply), batches: seq<P.Batch>, traces: seq<Trace>, order: seq<nat>,
                     t: P.State)
    requires Concurrent(worlds, batches, traces, order, t)
    ensures InStep(P.StartOf(batches), traces, Zeros(|traces|))
  {
    forall c: nat | c < |traces|
      ensures Own(traces[c].views[0].keys, c) == Own(Mirror(map[], c), c)
      ensures P.StartOf(batches).clients[c] == traces[c].views[0].me
    {
      assert Begins(batches[c], c, traces[c]);
    }
  }

  lemma SameInMirror(keys: Keys, store: Keys, c: Session)
    requires Own(keys, c) == Own(Mirror(store, c), c)
    ensures Paths(keys, c) == Paths(store, c)
  {
    L.SamePaths(keys, Mirror(store, c), c);
    PathsMembers(Mirror(store, c), c);
    PathsMembers(store, c);
  }

  /**
    Any number of clients that run the code at the same time: what they do to the store is one run of the protocol, and
    each of them ends where its trace ends, with the keys that it believes to have.
  */
  lemma BatchesMerge(worlds: nat -> (nat -> L.Reply), batches: seq<P.Batch>, traces: seq<Trace>, order: seq<nat>,
                     t: P.State)
    requires Concurrent(worlds, batches, traces, order, t)
    ensures P.IsRun(P.StartOf(batches), Merged(traces, Zeros(|traces|), order), t)
    ensures |t.clients| == |traces|
    ensures forall c: nat | c < |traces| ::
              t.clients[c] == End(traces[c]).me && Paths(t.keys, c) == Paths(End(traces[c]).keys, c)
  {
    BatchesBegin(worlds, batches, traces, order, t);
    TracesMerge(worlds, P.StartOf(batches), traces, Zeros(|traces|), -1, order, t);
    forall c: nat | c < |traces|
      ensures t.clients[c] == End(traces[c]).me && Paths(t.keys, c) == Paths(End(traces[c]).keys, c)
    {
      assert L.Leads(worlds(c), c, traces[c].views, traces[c].moves);
      SameInMirror(End(traces[c]).keys, t.keys, c);
    }
  }

  /** No two calls of LockBatch that have returned their results hold a path in common. */
  lemma HeldBatchesAreDisjoint(worlds: nat -> (nat -> L.Reply), batches: seq<P.Batch>, traces: seq<Trace>,
                               order: seq<nat>, t: P.State, c: nat, d: nat, path: string)
    requires Concurrent(worlds, batches, traces, order, t) && forall b | b in batches :: b.keys != []
    requires c < |traces| && d < |traces|
    requires End(traces[c]).me.phase.Held? && path in End(traces[c]).me.paths
    requires End(traces[d]).me.phase.Held? && path in End(traces[d]).me.paths
    ensures c == d
  {
    BatchesMerge(worlds, batches, traces, order, t);
    P.StartIsInitial(batches);
    P.MutualExclusion(P.StartOf(batches), Merged(traces, Zeros(|traces|), order), t, c, d, path);
  }

  /** And never do any of them wait for each other in a circle. */
  lemma NoCodeDeadlock(worlds: nat -> (nat -> L.Reply), batches: seq<P.Batch>, traces: seq<Trace>, order: seq<nat>,
                       t: P.State, cycle: seq<nat>)
    requires Concurrent(worlds, batches, traces, order, t) && (forall b | b in batches :: b.keys != []) && cycle != []
    ensures !(forall k | 0 <= k < |cycle| :: P.WaitsFor(t, cycle[k], cycle[if k + 1 == |cycle| then 0 else k + 1]))
  {
    BatchesMerge(worlds, batches, traces, order, t);
    P.EveryBatchCompletes(batches, Merged(traces, Zeros(|traces|), order), t, cycle);
  }
}
