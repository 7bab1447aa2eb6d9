/**
  The discovery cache: for every watched prefix the instances stored under it,
  grouped by service. A stored value either decodes to an instance or is
  skipped.
*/
module Discovery {
  import opened Basics
  import opened Balancer

  datatype KV = KV(key: string, value: Option<Instance>)

  type Groups = map<string, seq<Instance>>
  type Cache = map<string, Groups>

  function GroupOf(g: Groups, service: string): seq<Instance> {
    if service in g then g[service] else []
  }

  function Append(g: Groups, inst: Instance): Groups {
    g[inst.serviceName := GroupOf(g, inst.serviceName) + [inst]]
  }

  /** What the grouping loop builds. */
  function Grouped(kvs: seq<KV>): Groups {
    if kvs == [] then map[]
    else
      var g, last := Grouped(kvs[..|kvs| - 1]), kvs[|kvs| - 1].value;
      if last.Some? then Append(g, last.value) else g
  }

  /** The decodable values in the order in which they are stored. */
  function Decoded(kvs: seq<KV>): seq<Instance> {
    if kvs == [] then []
    else
      var before, last := Decoded(kvs[..|kvs| - 1]), kvs[|kvs| - 1].value;
      if last.Some? then before + [last.value] else before
  }

  function OfService(instances: seq<Instance>, service: string): seq<Instance> {
    if instances == [] then []
    else
      var before, last := OfService(instances[..|instances| - 1], service), instances[|instances| - 1];
      if last.serviceName == service then before + [last] else before
  }

  lemma OfServiceAppend(instances: seq<Instance>, inst: Instance, service: string)
    ensures OfService(instances + [inst], service) ==
            OfService(instances, service) + if inst.serviceName == service then [inst] else []
  {
    assert (instances + [inst])[..|instances|] == instances;
  }

  /**
    The group of a service is the stored instances of that service in stored order; a service without any has no
    group.
  */
  lemma {:induction false} GroupingIsStable(kvs: seq<KV>, service: string)
    ensures GroupOf(Grouped(kvs), service) == OfService(Decoded(kvs), service)
    ensures service in Grouped(kvs) <==> OfService(Decoded(kvs), service) != []
  {
    if kvs == [] {
    } else {
      var rest, kv := kvs[..|kvs| - 1], kvs[|kvs| - 1];
      GroupingIsStable(rest, service);
      if kv.value.Some? {
        OfServiceAppend(Decoded(rest), kv.value.value, service);
      }
    }
  }

  /** The entries at these positions are values of the service; the positions ascend and miss none. */
  ghost predicate ArePositions(at: seq<nat>, kvs: seq<KV>, service: string) {
    (forall i, j | 0 <= i < j < |at| :: at[i] < at[j]) &&
    (forall k: nat :: k in at <==> k < |kvs| && kvs[k].value.Some? && kvs[k].value.value.serviceName == service)
  }

  /** A group holds, in stored order, the values that decode to an instance with the service's name, each once. */
  lemma {:induction false} GroupHolds(kvs: seq<KV>, service: string) returns (at: seq<nat>)
    ensures ArePositions(at, kvs, service)
    ensures service in Grouped(kvs) <==> at != []
    ensures at != [] ==>
              |Grouped(kvs)[service]| == |at| &&
              forall i | 0 <= i < |at| :: at[i] < |kvs| && kvs[at[i]].value == Some(Grouped(kvs)[service][i])
  {
    if kvs == [] {
      at := [];
    } else {
      var rest, kv := kvs[..|kvs| - 1], kvs[|kvs| - 1];
      at := GroupHolds(rest, service);
      if kv.value.Some? && kv.value.value.serviceName == service {
        at := at + [|rest|];
      }
    }
  }

  ghost function TotalSize(g: Groups): nat {
    if g == map[] then 0
    else
      var s :| s in g;
      |g[s]| + TotalSize(g - {s})
  }

  lemma {:induction false} TotalSizeSplit(g: Groups, s: string)
    requires s in g
    ensures TotalSize(g) == |g[s]| + TotalSize(g - {s})
    decreases g
  {
    var t :| t in g && TotalSize(g) == |g[t]| + TotalSize(g - {t});
    if t != s {
      TotalSizeSplit(g - {t}, s);
      TotalSizeSplit(g - {s}, t);
      assert g - {t} - {s} == g - {s} - {t};
    }
  }

  /** The group sizes add up to the number of decodable values. */
  lemma {:induction false} SizesAddUp(kvs: seq<KV>)
    ensures TotalSize(Grouped(kvs)) == |Decoded(kvs)|
  {
    if kvs == [] {
    } else {
      var rest, kv := kvs[..|kvs| - 1], kvs[|kvs| - 1];
      SizesAddUp(rest);
      if kv.value.Some? {
        var g, s := Grouped(rest), kv.value.value.serviceName;
        TotalSizeSplit(Grouped(kvs), s);
        assert Grouped(kvs) - {s} == g - {s};
        if s in g {
          TotalSizeSplit(g, s);
        } else {
          assert g - {s} == g;
        }
      }
    }
  }

  /** All cached instances of a service, over all prefixes. */
  ghost function Pool(c: Cache, service: string): multiset<Instance> {
    if c == map[] then multiset{}
    else
      var p :| p in c;
      multiset(GroupOf(c[p], service)) + Pool(c - {p}, service)
  }

  lemma SwapFront(a: multiset<Instance>, b: multiset<Instance>, c: multiset<Instance>)
    ensures b + (a + c) == a + (b + c)
  {
  }

  lemma {:induction false} PoolSplit(c: Cache, p: string, service: string)
    requires p in c
    ensures Pool(c, service) == multiset(GroupOf(c[p], service)) + Pool(c - {p}, service)
    decreases c
  {
    var q :| q in c && Pool(c, service) == multiset(GroupOf(c[q], service)) + Pool(c - {q}, service);
    if q != p {
      PoolSplit(c - {q}, p, service);
      PoolSplit(c - {p}, q, service);
      assert c - {q} - {p} == c - {p} - {q};
      SwapFront(multiset(GroupOf(c[p], service)), multiset(GroupOf(c[q], service)), Pool(c - {p} - {q}, service));
    }
  }

  /** The pool has the cached instances of the service, under whatever prefix, and those of two prefixes add up. */
  lemma PoolHolds(c: Cache, service: string)
    ensures forall inst :: inst in Pool(c, service) <==>
                           exists p | p in c :: service in c[p] && inst in c[p][service]
    ensures forall p, q | p in c && q in c && p != q && service in c[p] && service in c[q] ::
              multiset(c[p][service]) + multiset(c[q][service]) <= Pool(c, service)
  {
    forall inst
      ensures inst in Pool(c, service) <==> exists p | p in c :: service in c[p] && inst in c[p][service]
    {
      PoolMembers(c, service, inst);
    }
    forall p, q | p in c && q in c && p != q && service in c[p] && service in c[q]
      ensures multiset(c[p][service]) + multiset(c[q][service]) <= Pool(c, service)
    {
      PoolSplit(c, p, service);
      PoolSplit(c - {p}, q, service);
    }
  }

  lemma {:induction false} PoolMembers(c: Cache, service: string, inst: Instance)
    ensures inst in Pool(c, service) <==> exists p | p in c :: service in c[p] && inst in c[p][service]
    decreases c
  {
    if c != map[] {
      var p :| p in c;
      PoolSplit(c, p, service);
      PoolMembers(c - {p}, service, inst);
      assert inst in Pool(c, service) <==> inst in GroupOf(c[p], service) || inst in Pool(c - {p}, service);
      assert forall q | q in c :: q == p || (q in c - {p} && (c - {p})[q] == c[q]);
      assert forall q | q in c - {p} :: q in c && (c - {p})[q] == c[q];
    }
  }

  /** No cached group is empty. */
  predicate NoEmptyGroup(g: Groups) {
    forall s | s in g :: g[s] != []
  }

  datatype Delivery = Delivery(listener: nat, service: string, instances: seq<Instance>)

  class DiscoveryCache {
    const prefixes: seq<string>
    var prefixData: Cache
    var listeners: seq<nat>
    var delivered: seq<Delivery>

    ghost predicate Valid()
      reads this
    {
      forall p | p in prefixData :: NoEmptyGroup(prefixData[p])
    }

    constructor (prefixes: seq<string>)
      ensures this.prefixes == prefixes && prefixData == map[] && listeners == [] && delivered == [] && Valid()
    {
      this.prefixes := prefixes;
      prefixData, listeners, delivered := map[], [], [];
    }

    /** The grouping loop shared by the first load and every reload. */
    method Group(kvs: seq<KV>) returns (instances: Groups)
      ensures instances == Grouped(kvs) && NoEmptyGroup(instances)
    {
      instances := map[];
      var i := 0;
      while i < |kvs|
        invariant 0 <= i <= |kvs|
        invariant instances == Grouped(kvs[..i]) && NoEmptyGroup(instances)
      {
        assert kvs[..i + 1][..i] == kvs[..i];
        if kvs[i].value.Some? {
          instances := Append(instances, kvs[i].value.value);
        }
        i := i + 1;
      }
      assert kvs[..i] == kvs;
    }

    /** `reply` is what the store returns for the prefix, or nothing when the read fails. */
    method LoadPrefix(prefix: string, reply: Option<seq<KV>>) returns (ok: bool)
      requires Valid()
      modifies this`prefixData
      ensures Valid() && ok == reply.Some?
      ensures prefixData == if ok then old(prefixData)[prefix := Grouped(reply.value)] else old(prefixData)
    {
      if reply.None? {
        return false;
      }
      var instances := Group(reply.value);
      prefixData := prefixData[prefix := instances];
      ok := true;
    }

    method AnnounceService(service: string, instances: seq<Instance>)
      modifies this`delivered
      ensures delivered == old(delivered) + ToEach(listeners, service, instances)
    {
      var k := 0;
      while k < |listeners|
        invariant 0 <= k <= |listeners|
        invariant delivered == old(delivered) + ToEach(listeners[..k], service, instances)
      {
        delivered := delivered + [Delivery(listeners[k], service, instances)];
        k := k + 1;
      }
      assert listeners[..k] == listeners;
    }

    /** Tell every listener about every service of the groups; `order` is the order in which the services come up. */
    method Announce(instances: Groups) returns (ghost order: seq<string>)
      modifies this`delivered
      ensures Enumerates(order, instances.Keys)
      ensures delivered == old(delivered) + Broadcast(order, instances, listeners)
    {
      order := [];
      var rest := instances.Keys;
      while rest != {}
        invariant rest <= instances.Keys && Enumerates(order, instances.Keys - rest)
        invariant delivered == old(delivered) + Broadcast(order, instances, listeners)
        decreases rest
      {
        var s :| s in rest;
        AnnounceService(s, instances[s]);
        assert instances.Keys - (rest - {s}) == instances.Keys - rest + {s};
        assert (order + [s])[..|order|] == order;
        order := order + [s];
        rest := rest - {s};
      }
      assert instances.Keys - rest == instances.Keys;
    }

    /** Replace the prefix's groups and tell every listener about every service that now has instances, once each. */
    method ReloadPrefix(prefix: string, reply: Option<seq<KV>>) returns (ghost order: seq<string>)
      requires Valid()
      modifies this`prefixData, this`delivered
      ensures Valid()
      ensures reply.None? ==> prefixData == old(prefixData) && delivered == old(delivered)
      ensures reply.Some? ==>
                prefixData == old(prefixData)[prefix := Grouped(reply.value)] &&
                Enumerates(order, Grouped(reply.value).Keys) &&
                delivered == old(delivered) + Broadcast(order, Grouped(reply.value), listeners)
    {
      var ok := LoadPrefix(prefix, reply);
      if ok {
        order := Announce(prefixData[prefix]);
      } else {
        order := [];
      }
    }

    /** From now on every announcement goes to this listener too, after all the earlier ones. */
    method OnChange(listener: nat)
      modifies this`listeners
      ensures listeners == old(listeners) + [listener]
      ensures forall service, instances ::
                ToEach(listeners, service, instances) ==
                ToEach(old(listeners), service, instances) + [Delivery(listener, service, instances)]
    {
      listeners := listeners + [listener];
    }

    method GetInstances(service: string) returns (result: seq<Instance>)
      ensures multiset(result) == Pool(prefixData, service)
    {
      result := [];
      var rest := prefixData;
      while rest != map[]
        invariant multiset(result) + Pool(rest, service) == Pool(prefixData, service)
        decreases rest
      {
        var p :| p in rest;
        PoolSplit(rest, p, service);
        result := result + GroupOf(rest[p], service);
        rest := rest - {p};
      }
    }

    /** The inner loop of GetAllServices: append every group of one prefix to the result. */
    method MergeInto(result: Groups, svcMap: Groups) returns (merged: Groups)
      requires NoEmptyGroup(result) && NoEmptyGroup(svcMap)
      ensures NoEmptyGroup(merged)
      ensures forall s: string :: GroupOf(merged, s) == GroupOf(result, s) + GroupOf(svcMap, s)
    {
      merged := result;
      var todo := svcMap;
      while todo != map[]
        invariant todo.Keys <= svcMap.Keys && forall s | s in todo :: todo[s] == svcMap[s]
        invariant NoEmptyGroup(merged)
        invariant forall s: string ::
                    GroupOf(merged, s) == GroupOf(result, s) + if s in todo then [] else GroupOf(svcMap, s)
        decreases todo
      {
        var s :| s in todo;
        merged := merged[s := GroupOf(merged, s) + todo[s]];
        todo := todo - {s};
      }
    }

    /** The result has a service exactly when it has cached instances, and then all of them. */
    method GetAllServices() returns (result: Groups)
      requires Valid()
      ensures forall s: string :: multiset(GroupOf(result, s)) == Pool(prefixData, s)
      ensures forall s: string :: s in result <==> Pool(prefixData, s) != multiset{}
    {
      result := map[];
      var rest := prefixData;
      while rest != map[]
        invariant forall p | p in rest :: NoEmptyGroup(rest[p])
        invariant NoEmptyGroup(result)
        invariant forall s: string :: multiset(GroupOf(result, s)) + Pool(rest, s) == Pool(prefixData, s)
        decreases rest
      {
        var p :| p in rest;
        var merged := MergeInto(result, rest[p]);
        forall s: string
          ensures multiset(GroupOf(merged, s)) + Pool(rest - {p}, s) == Pool(prefixData, s)
        {
          PoolSplit(rest, p, s);
          MoveOver(GroupOf(result, s), GroupOf(rest[p], s), Pool(rest - {p}, s));
        }
        result := merged;
        rest := rest - {p};
      }
      forall s: string
        ensures s in result <==> Pool(prefixData, s) != multiset{}
      {
        assert multiset(GroupOf(result, s)) == Pool(prefixData, s);
        assert s in result ==> result[s][0] in multiset(GroupOf(result, s));
      }
    }
  }

  lemma MoveOver(a: seq<Instance>, b: seq<Instance>, c: multiset<Instance>)
    ensures multiset(a + b) + c == multiset(a) + (multiset(b) + c)
  {
  }

  /** Each member of the set once, in some order. */
  ghost predicate Enumerates(order: seq<string>, members: set<string>) {
    (forall i, j | 0 <= i < j < |order| :: order[i] != order[j]) && members == set s | s in order
  }

  /** One delivery per listener for each service in turn, with the service's instances. */
  function Broadcast(order: seq<string>, g: Groups, listeners: seq<nat>): seq<Delivery> {
    if order == [] then []
    else
      var last := order[|order| - 1];
      Broadcast(order[..|order| - 1], g, listeners) + ToEach(listeners, last, GroupOf(g, last))
  }

  function ToEach(listeners: seq<nat>, service: string, instances: seq<Instance>): seq<Delivery> {
    seq(|listeners|, l requires 0 <= l < |listeners| => Delivery(listeners[l], service, instances))
  }

  lemma {:induction false} BroadcastLength(order: seq<string>, g: Groups, listeners: seq<nat>)
    ensures |Broadcast(order, g, listeners)| == |order| * |listeners|
  {
    if order != [] {
      BroadcastLength(order[..|order| - 1], g, listeners);
      assert |order| * |listeners| == (|order| - 1) * |listeners| + |listeners|;
    }
  }

  /** Every listener in turn is told every service of the order in turn, once, with the instances of its group. */
  lemma {:induction false} BroadcastAt(order: seq<string>, g: Groups, listeners: seq<nat>, k: nat, l: nat)
    requires k < |order| && l < |listeners| && order[k] in g
    ensures |Broadcast(order, g, listeners)| == |order| * |listeners|
    ensures var i := k * |listeners| + l;
            i < |order| * |listeners| &&
            Broadcast(order, g, listeners)[i] == Delivery(listeners[l], order[k], g[order[k]])
    decreases |order|
  {
    var rest := order[..|order| - 1];
    BroadcastLength(order, g, listeners);
    BroadcastLength(rest, g, listeners);
    assert |order| * |listeners| == |rest| * |listeners| + |listeners|;
    if k < |rest| {
      BroadcastAt(rest, g, listeners, k, l);
    }
  }

  // ----- a listener that keeps a copy of what it is told

  /** The copy after these deliveries: every announcement replaces the instances of its service. */
  function Heard(copy: Groups, deliveries: seq<Delivery>, listener: nat): Groups {
    if deliveries == [] then copy
    else
      var before, d := Heard(copy, deliveries[..|deliveries| - 1], listener), deliveries[|deliveries| - 1];
      if d.listener == listener then before[d.service := d.instances] else before
  }

  lemma {:induction false} HeardAppend(copy: Groups, a: seq<Delivery>, b: seq<Delivery>, listener: nat)
    ensures Heard(copy, a + b, listener) == Heard(Heard(copy, a, listener), b, listener)
  {
    if b == [] {
      assert a + b == a;
    } else {
      var rest, d := b[..|b| - 1], b[|b| - 1];
      HeardAppend(copy, a, rest, listener);
      assert (a + b)[..|a + b| - 1] == a + rest && (a + b)[|a + b| - 1] == d;
    }
  }

  lemma {:induction false} HeardToEach(copy: Groups, listeners: seq<nat>, service: string, instances: seq<Instance>,
                                       listener: nat)
    ensures Heard(copy, ToEach(listeners, service, instances), listener) ==
            if listener in listeners then copy[service := instances] else copy
  {
    if listeners == [] {
    } else {
      var rest, last := listeners[..|listeners| - 1], listeners[|listeners| - 1];
      HeardToEach(copy, rest, service, instances, listener);
      assert listeners == rest + [last];
      assert ToEach(listeners, service, instances)[..|listeners| - 1] == ToEach(rest, service, instances);
    }
  }

  function Announced(order: seq<string>, g: Groups): Groups {
    map s | s in order :: GroupOf(g, s)
  }

  lemma AnnouncedAppend(copy: Groups, order: seq<string>, last: string, g: Groups)
    ensures copy + Announced(order + [last], g) == (copy + Announced(order, g))[last := GroupOf(g, last)]
  {
    assert Announced(order + [last], g) == Announced(order, g)[last := GroupOf(g, last)];
  }

  lemma {:induction false} HeardBroadcast(copy: Groups, order: seq<string>, g: Groups, listeners: seq<nat>,
                                          listener: nat)
    requires listener in listeners
    ensures Heard(copy, Broadcast(order, g, listeners), listener) == copy + Announced(order, g)
  {
    if order == [] {
    } else {
      var rest, last := order[..|order| - 1], order[|order| - 1];
      var before := Broadcast(rest, g, listeners);
      HeardBroadcast(copy, rest, g, listeners, listener);
      HeardAppend(copy, before, ToEach(listeners, last, GroupOf(g, last)), listener);
      HeardToEach(Heard(copy, before, listener), listeners, last, GroupOf(g, last), listener);
      AnnouncedAppend(copy, rest, last, g);
      assert order == rest + [last];
    }
  }

  /** The copy has, for every service, the instances that GetAllServices returns. */
  ghost predicate Mirrors(copy: Groups, c: Cache) {
    forall s: string :: multiset(GroupOf(copy, s)) == Pool(c, s)
  }

  lemma PoolWithout(c: Cache, p: string, g: Groups, s: string)
    ensures Pool(c[p := g], s) == multiset(GroupOf(g, s)) + Pool(c - {p}, s)
    ensures Pool(c, s) == (if p in c then multiset(GroupOf(c[p], s)) else multiset{}) + Pool(c - {p}, s)
  {
    PoolSplit(c[p := g], p, s);
    assert c[p := g] - {p} == c - {p};
    if p in c {
      PoolSplit(c, p, s);
    } else {
      assert c - {p} == c;
    }
  }

  /** A reload of p with these groups leaves no service behind, and touches none that lives under another prefix. */
  ghost predicate Mirrorable(c: Cache, p: string, g: Groups) {
    (forall s | s in g :: Pool(c - {p}, s) == multiset{}) && (p in c ==> forall s | s in c[p] :: s in g)
  }

  lemma MirrorsService(copy: Groups, c: Cache, p: string, g: Groups, s: string)
    requires Mirrors(copy, c) && (p in c ==> NoEmptyGroup(c[p]))
    ensures multiset(GroupOf(copy + g, s)) == Pool(c[p := g], s) <==>
            if s in g then Pool(c - {p}, s) == multiset{} else p !in c || s !in c[p]
  {
    PoolWithout(c, p, g, s);
    assert multiset(GroupOf(copy, s)) == Pool(c, s);
    var rest := Pool(c - {p}, s);
    if s in g {
      assert multiset(g[s]) + rest == multiset(g[s]) ==> |rest| == 0;
    } else if p in c && s in c[p] {
      assert |multiset(c[p][s])| > 0;
      assert |multiset(c[p][s]) + rest| > |rest|;
    }
  }

  /**
    Exactly when a listener that keeps a copy of what it is told stays right over a reload: announcements name only
    services that have instances under the reloaded prefix now, so none may have lost its last instance there, and none
    of them may have instances under another prefix.
  */
  lemma ReloadMirrorsIff(copy: Groups, c: Cache, p: string, g: Groups, order: seq<string>, listeners: seq<nat>,
                         listener: nat)
    requires Mirrors(copy, c) && (p in c ==> NoEmptyGroup(c[p]))
    requires Enumerates(order, g.Keys) && listener in listeners
    ensures Mirrors(Heard(copy, Broadcast(order, g, listeners), listener), c[p := g]) <==> Mirrorable(c, p, g)
  {
    HeardBroadcast(copy, order, g, listeners, listener);
    assert Announced(order, g) == g;
    forall s: string
      ensures multiset(GroupOf(copy + g, s)) == Pool(c[p := g], s) <==>
              if s in g then Pool(c - {p}, s) == multiset{} else p !in c || s !in c[p]
    {
      MirrorsService(copy, c, p, g, s);
    }
  }
}

/**
  The life of the cache against a changing store: writes, reads and installs in
  any interleaving. The start loads the prefixes one after another and gives up
  at the first that cannot be read; only then the watchers begin, each serving
  one prefix, one read at a time.
*/
module DiscoveryProtocol {
  import opened Basics
  import opened Discovery

  datatype Watcher = Idle | Fetched(version: nat)

  /**
    `at` records which version of the store each cached prefix was computed from. `loaded` counts the prefixes that the
    start has loaded; while it is at work, its read of the next prefix stands in that prefix's place among the watchers.
  */
  datatype State = State(
    version: nat, watchers: seq<Watcher>, cache: Cache, at: map<string, nat>, loaded: nat, gaveUp: bool)

  datatype Step = Write | Fetch(w: nat) | Install(w: nat) | FetchFails(w: nat)

  /** The content of the store at a version that lies under a prefix. */
  function Under(kvs: seq<KV>, prefix: string): seq<KV> {
    if kvs == [] then []
    else
      var before, last := Under(kvs[..|kvs| - 1], prefix), kvs[|kvs| - 1];
      if prefix <= last.key then before + [last] else before
  }

  /** What lies under a prefix are the entries whose key begins with it, each once and in their order. */
  lemma {:induction false} UnderHolds(kvs: seq<KV>, prefix: string) returns (at: seq<nat>)
    ensures forall i, j | 0 <= i < j < |at| :: at[i] < at[j]
    ensures forall k: nat :: k in at <==> k < |kvs| && prefix <= kvs[k].key
    ensures |Under(kvs, prefix)| == |at|
    ensures forall i | 0 <= i < |at| :: at[i] < |kvs| && Under(kvs, prefix)[i] == kvs[at[i]]
  {
    if kvs == [] {
      at := [];
    } else {
      at := UnderHolds(kvs[..|kvs| - 1], prefix);
      if prefix <= kvs[|kvs| - 1].key {
        at := at + [|kvs| - 1];
      }
    }
  }

  /** The start reads the prefix whose turn it is; once all are loaded, every watcher reads its own. */
  predicate MayRead(s: State, w: nat) {
    w < |s.watchers| && s.watchers[w].Idle? && !s.gaveUp && (s.loaded == w || s.loaded >= |s.watchers|)
  }

  predicate CanTake(s: State, step: Step) {
    match step
    case Write => true
    case Fetch(w) => MayRead(s, w)
    case Install(w) => w < |s.watchers| && s.watchers[w].Fetched?
    case FetchFails(w) => MayRead(s, w)
  }

  function Next(prefixes: seq<string>, hist: nat -> seq<KV>, s: State, step: Step): State
    requires CanTake(s, step) && |s.watchers| == |prefixes|
  {
    match step
    case Write => s.(version := s.version + 1)
    case Fetch(w) => s.(watchers := s.watchers[w := Fetched(s.version)])
    case Install(w) =>
      var v, p := s.watchers[w].version, prefixes[w];
      s.(watchers := s.watchers[w := Idle], cache := s.cache[p := Grouped(Under(hist(v), p))], at := s.at[p := v],
         loaded := if s.loaded == w then w + 1 else s.loaded)
    case FetchFails(w) => s.(gaveUp := s.loaded < |s.watchers|)
  }

  function Start(prefixes: seq<string>, version: nat): State {
    State(version, seq(|prefixes|, _ => Idle), map[], map[], 0, false)
  }

  ghost predicate IsRun(prefixes: seq<string>, hist: nat -> seq<KV>, s: State, steps: seq<Step>, t: State)
    requires |s.watchers| == |prefixes|
    decreases |steps|
  {
    if steps == [] then s == t
    else CanTake(s, steps[0]) && IsRun(prefixes, hist, Next(prefixes, hist, s, steps[0]), steps[1..], t)
  }

  predicate Distinct(prefixes: seq<string>) {
    forall i, j | 0 <= i < j < |prefixes| :: prefixes[i] != prefixes[j]
  }

  /** Every cached prefix is the grouping of one version of the store. */
  ghost predicate Coherent(hist: nat -> seq<KV>, s: State) {
    s.cache.Keys == s.at.Keys &&
    forall p | p in s.cache :: s.at[p] <= s.version && s.cache[p] == Grouped(Under(hist(s.at[p]), p))
  }

  /** What a watcher has read and not installed yet is not older than what is cached for its prefix. */
  ghost predicate Fresh(prefixes: seq<string>, s: State) {
    |s.watchers| == |prefixes| &&
    forall w | 0 <= w < |prefixes| && s.watchers[w].Fetched? ::
      s.watchers[w].version <= s.version && (prefixes[w] in s.at ==> s.at[prefixes[w]] <= s.watchers[w].version)
  }

  /** No cached prefix goes back to an older version. */
  ghost predicate NotOlder(s: State, t: State) {
    forall p | p in s.at :: p in t.at && s.at[p] <= t.at[p]
  }

  lemma StepKeeps(prefixes: seq<string>, hist: nat -> seq<KV>, s: State, step: Step)
    requires Distinct(prefixes) && Coherent(hist, s) && Fresh(prefixes, s) && CanTake(s, step)
    ensures var t := Next(prefixes, hist, s, step);
            Coherent(hist, t) && Fresh(prefixes, t) && NotOlder(s, t)
  {
  }

  lemma {:induction false} RunKeeps(prefixes: seq<string>, hist: nat -> seq<KV>, s: State, steps: seq<Step>, t: State)
    requires Distinct(prefixes) && Coherent(hist, s) && Fresh(prefixes, s) && IsRun(prefixes, hist, s, steps, t)
    ensures Coherent(hist, t) && Fresh(prefixes, t) && NotOlder(s, t)
    decreases |steps|
  {
    if steps == [] {
    } else {
      StepKeeps(prefixes, hist, s, steps[0]);
      RunKeeps(prefixes, hist, Next(prefixes, hist, s, steps[0]), steps[1..], t);
    }
  }

  ghost predicate NeverOlder(prefixes: seq<string>, hist: nat -> seq<KV>) {
    forall v: nat, before, s, steps, t | IsRun(prefixes, hist, Start(prefixes, v), before, s) &&
        |s.watchers| == |prefixes| && IsRun(prefixes, hist, s, steps, t) :: NotOlder(s, t)
  }

  /**
    The cache is always a stable grouping of one store version per prefix, and with distinct prefixes it never goes
    back.
  */
  lemma CacheFollowsStore(prefixes: seq<string>, hist: nat -> seq<KV>, v: nat, before: seq<Step>, s: State,
                          steps: seq<Step>, t: State)
    requires Distinct(prefixes)
    requires IsRun(prefixes, hist, Start(prefixes, v), before, s)
    requires |s.watchers| == |prefixes| && IsRun(prefixes, hist, s, steps, t)
    ensures Coherent(hist, t) && NotOlder(s, t)
    ensures forall p, service: string | p in t.cache ::
              GroupOf(t.cache[p], service) == OfService(Decoded(Under(hist(t.at[p]), p)), service)
    ensures forall p | p in t.cache :: TotalSize(t.cache[p]) == |Decoded(Under(hist(t.at[p]), p))|
  {
    RunKeeps(prefixes, hist, Start(prefixes, v), before, s);
    RunKeeps(prefixes, hist, s, steps, t);
    forall p, service: string | p in t.cache
      ensures GroupOf(t.cache[p], service) == OfService(Decoded(Under(hist(t.at[p]), p)), service)
      ensures TotalSize(t.cache[p]) == |Decoded(Under(hist(t.at[p]), p))|
    {
      GroupingIsStable(Under(hist(t.at[p]), p), service);
      SizesAddUp(Under(hist(t.at[p]), p));
    }
    forall p | p in t.cache
      ensures TotalSize(t.cache[p]) == |Decoded(Under(hist(t.at[p]), p))|
    {
      SizesAddUp(Under(hist(t.at[p]), p));
    }
  }

  /** The side condition is exact: the cache can never go back if and only if no prefix is watched twice. */
  lemma NeverOlderIff(prefixes: seq<string>, hist: nat -> seq<KV>)
    ensures NeverOlder(prefixes, hist) <==> Distinct(prefixes)
  {
    if Distinct(prefixes) {
      forall v: nat, before, s, steps, t | IsRun(prefixes, hist, Start(prefixes, v), before, s) &&
          |s.watchers| == |prefixes| && IsRun(prefixes, hist, s, steps, t)
        ensures NotOlder(s, t)
      {
        CacheFollowsStore(prefixes, hist, v, before, s, steps, t);
      }
    } else {
      var i, j :| 0 <= i < j < |prefixes| && prefixes[i] == prefixes[j];
      TwoWatchersGoBack(prefixes, hist, i, j);
    }
  }

  /** The start loads what is left to load, without the store changing. */
  lemma {:induction false} LoadRest(prefixes: seq<string>, hist: nat -> seq<KV>, s: State)
    returns (steps: seq<Step>, t: State)
    requires |s.watchers| == |prefixes| && s.loaded <= |prefixes| && !s.gaveUp
    requires forall w | 0 <= w < |prefixes| :: s.watchers[w].Idle?
    requires forall w | 0 <= w < s.loaded :: prefixes[w] in s.at
    ensures IsRun(prefixes, hist, s, steps, t) && |t.watchers| == |prefixes| && t.version == s.version
    ensures t.loaded == |prefixes| && !t.gaveUp
    ensures forall w | 0 <= w < |prefixes| :: t.watchers[w].Idle? && prefixes[w] in t.at
    decreases |prefixes| - s.loaded
  {
    if s.loaded == |prefixes| {
      steps, t := [], s;
    } else {
      var w := s.loaded;
      var u := Next(prefixes, hist, s, Fetch(w));
      var v := Next(prefixes, hist, u, Install(w));
      steps, t := LoadRest(prefixes, hist, v);
      RunCons(prefixes, hist, u, Install(w), steps, t);
      RunCons(prefixes, hist, s, Fetch(w), [Install(w)] + steps, t);
      steps := [Fetch(w)] + ([Install(w)] + steps);
    }
  }

  /**
    Two watchers of one prefix, after a start that loaded everything: the first reads, the store changes, the second
    reads and installs, the first installs.
  */
  lemma TwoWatchersGoBack(prefixes: seq<string>, hist: nat -> seq<KV>, i: nat, j: nat)
    requires i < j < |prefixes| && prefixes[i] == prefixes[j]
    ensures !NeverOlder(prefixes, hist)
  {
    var p := prefixes[i];
    var before, s0 := LoadRest(prefixes, hist, Start(prefixes, 0));
    var s1 := Next(prefixes, hist, s0, Fetch(i));
    var s2 := Next(prefixes, hist, s1, Write);
    var s3 := Next(prefixes, hist, s2, Fetch(j));
    var s4 := Next(prefixes, hist, s3, Install(j));
    var s5 := Next(prefixes, hist, s4, Install(i));
    RunOfOne(prefixes, hist, s3, Install(j));
    RunCons(prefixes, hist, s2, Fetch(j), [Install(j)], s4);
    RunCons(prefixes, hist, s1, Write, [Fetch(j), Install(j)], s4);
    RunCons(prefixes, hist, s0, Fetch(i), [Write, Fetch(j), Install(j)], s4);
    RunConcat(prefixes, hist, Start(prefixes, 0), before, s0, [Fetch(i), Write, Fetch(j), Install(j)], s4);
    RunOfOne(prefixes, hist, s4, Install(i));
    assert s4.at[p] == 1 && s5.at[p] == 0;
    assert !NotOlder(s4, s5);
  }

  lemma {:induction false} RunConcat(prefixes: seq<string>, hist: nat -> seq<KV>, s: State, a: seq<Step>, u: State,
                                     b: seq<Step>, t: State)
    requires |s.watchers| == |prefixes| == |u.watchers|
    requires IsRun(prefixes, hist, s, a, u) && IsRun(prefixes, hist, u, b, t)
    ensures IsRun(prefixes, hist, s, a + b, t)
    decreases |a|
  {
    if a == [] {
      assert a + b == b;
    } else {
      assert (a + b)[1..] == a[1..] + b;
      RunConcat(prefixes, hist, Next(prefixes, hist, s, a[0]), a[1..], u, b, t);
    }
  }

  lemma RunCons(prefixes: seq<string>, hist: nat -> seq<KV>, s: State, step: Step, steps: seq<Step>, t: State)
    requires |s.watchers| == |prefixes| && CanTake(s, step)
    requires IsRun(prefixes, hist, Next(prefixes, hist, s, step), steps, t)
    ensures IsRun(prefixes, hist, s, [step] + steps, t)
  {
    assert ([step] + steps)[1..] == steps;
  }

  lemma RunOfOne(prefixes: seq<string>, hist: nat -> seq<KV>, s: State, step: Step)
    requires |s.watchers| == |prefixes| && CanTake(s, step)
    ensures IsRun(prefixes, hist, s, [step], Next(prefixes, hist, s, step))
  {
    RunCons(prefixes, hist, s, step, [], Next(prefixes, hist, s, step));
  }
}
