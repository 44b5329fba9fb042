/** Many choosers, one after the other, sharing one cache of client counts. */
module ServiceRuns {
  import opened Options
  import opened ServiceCache
  import opened ServiceChoice
  import opened ServiceChooser
  import opened ServiceSteps

  /** A host or a cluster with the instances it is bound to. */
  datatype Client = Client(owner: Owner, required: seq<Service>, used: map<Service, Instance>)

  datatype World = World(clients: seq<Client>, counts: Counts)

  function Weight(c: Client, i: Instance): int {
    if i in c.used.Values then Footprint(c.owner, c.required, i) else 0
  }

  /** The footprints of everything that is bound to an instance. */
  function Load(clients: seq<Client>, i: Instance): int {
    if clients == [] then 0 else Weight(clients[0], i) + Load(clients[1..], i)
  }

  /** A run that succeeds for client number `k` and leaves it with `chosen`. */
  ghost predicate Succeeds(before: World, after: World, k: nat, chosen: map<Service, Instance>) {
    && k < |before.clients|
    && ServiceConsistent(before.clients[k].used) && ServiceConsistent(chosen)
    && after.clients == before.clients[k := before.clients[k].(used := chosen)]
    && var c := before.clients[k];
    && Moved(before.counts, after.counts, c.owner, c.required, Bound(c.used, chosen), Unbound(c.used, chosen))
    && forall i <- Bound(c.used, chosen) :: i.maxClients.Some? ==> CountOf(after.counts, i) <= i.maxClients.value
  }

  ghost predicate Turn(before: World, after: World) {
    || (after.clients == before.clients && SameCounts(before.counts, after.counts))
    || exists k: nat, chosen :: Succeeds(before, after, k, chosen)
  }

  ghost predicate IsRun(w: seq<World>) {
    w != [] && forall n :: 0 <= n < |w| - 1 ==> Turn(w[n], w[n + 1])
  }

  /** One run of a chooser, as its caller sees it, is a turn. */
  method RunChooser(c: Chooser, ghost before: World, ghost k: nat) returns (ok: bool, ghost after: World)
    requires c.Valid() && c.Started() && Distinct(c.required)
    requires k < |before.clients| && before.clients[k] == Client(c.owner, c.required, c.original)
    requires before.counts == c.cache.clientCounts
    modifies c, c.cache
    ensures c.cache.Valid() && after.counts == c.cache.clientCounts && Turn(before, after)
    ensures |after.clients| == |before.clients| && multiset(c.servicesUsed) == multiset(after.clients[k].used.Values)
    ensures forall j :: 0 <= j < |before.clients| && j != k ==> after.clients[j] == before.clients[j]
  {
    hide SameCounts, CountOf, AllHopeful, Moved, Bound, Unbound, Narrowed, AlignedBy;
    ok := c.SetRequired();
    if ok {
      after := World(before.clients[k := before.clients[k].(used := c.chosen)], c.cache.clientCounts);
      assert Succeeds(before, after, k, c.chosen);
    } else {
      after := World(before.clients, c.cache.clientCounts);
    }
  }

  lemma {:induction false} LoadWithout(clients: seq<Client>, k: nat, c: Client, i: Instance)
    requires k < |clients|
    ensures Load(clients[k := c], i) == Load(clients, i) - Weight(clients[k], i) + Weight(c, i)
  {
    if k > 0 {
      LoadWithout(clients[1..], k - 1, c, i);
      assert clients[k := c][1..] == clients[1..][k - 1 := c];
    } else {
      assert clients[k := c][1..] == clients[1..];
    }
  }

  lemma TurnBalances(before: World, after: World, i: Instance)
    requires Turn(before, after)
    ensures CountOf(after.counts, i) - Load(after.clients, i) == CountOf(before.counts, i) - Load(before.clients, i)
  {
    hide CountOf, Bound, Unbound, Footprint, Load;
    if !(after.clients == before.clients && SameCounts(before.counts, after.counts)) {
      var k: nat, chosen :| Succeeds(before, after, k, chosen);
      LoadWithout(before.clients, k, before.clients[k].(used := chosen), i);
      BoundAndUnboundDisjoint(before.clients[k].used, chosen);
    }
  }

  /** However many runs share the cache, what it counts for an instance beyond the
      footprints of those bound to it stays the same. */
  lemma {:induction false} CountsFollowBindings(w: seq<World>, i: Instance)
    requires IsRun(w)
    ensures CountOf(w[|w| - 1].counts, i) - Load(w[|w| - 1].clients, i) == CountOf(w[0].counts, i) - Load(w[0].clients, i)
    decreases |w|
  {
    hide CountOf, Load, Turn;
    if |w| > 1 {
      var front := w[..|w| - 1];
      CountsFollowBindings(front, i);
      TurnBalances(w[|w| - 2], w[|w| - 1], i);
    }
  }

  ghost predicate Within(counts: Counts) {
    forall i: Instance :: i.maxClients.Some? ==> CountOf(counts, i) <= i.maxClients.value
  }

  ghost predicate NoNegativeFootprint(clients: seq<Client>) {
    forall k, i: Instance :: 0 <= k < |clients| ==> Footprint(clients[k].owner, clients[k].required, i) >= 0
  }

  lemma TurnStaysWithin(before: World, after: World)
    requires Turn(before, after) && Within(before.counts) && NoNegativeFootprint(before.clients)
    ensures Within(after.counts) && NoNegativeFootprint(after.clients)
  {
    hide CountOf, Bound, Unbound, Footprint, ServiceConsistent;
    if after.clients == before.clients && SameCounts(before.counts, after.counts) {
      forall i
        ensures CountOf(after.counts, i) == CountOf(before.counts, i)
      {}
    } else {
      var k: nat, chosen :| Succeeds(before, after, k, chosen);
    }
  }

  /** Once no instance is over its limit, no run of a chooser takes one over it. */
  lemma {:induction false} NeverOverbooked(w: seq<World>)
    requires IsRun(w) && Within(w[0].counts) && NoNegativeFootprint(w[0].clients)
    ensures Within(w[|w| - 1].counts) && NoNegativeFootprint(w[|w| - 1].clients)
    decreases |w|
  {
    hide Within, NoNegativeFootprint, Turn;
    if |w| > 1 {
      var front := w[..|w| - 1];
      NeverOverbooked(front);
      TurnStaysWithin(w[|w| - 2], w[|w| - 1]);
    }
  }

  /** From this list a client would go on with its existing binding. */
  ghost predicate Keeps(s: Situation, service: Service, list: seq<Instance>) {
    && service in s.original && !Hopeless(s, service, list)
    && forall i <- Narrow(s, service, list) :: i == s.original[service]
  }

  /** What is left of a list is enough for that as long as it has the binding, if the
      whole list is. */
  lemma KeepsFromPart(s: Situation, service: Service, list: seq<Instance>, part: seq<Instance>)
    requires Keeps(s, service, list) && forall i <- part :: i in list
    ensures Keeps(s, service, part) <==> s.original[service] in part
  {
    hide Full, CountOf;
    var b := s.original[service];
    NarrowKeepsPastUse(s, service, list);
    assert Narrow(s, service, list)[0] in Narrow(s, service, list);
    if Keeps(s, service, part) {
      NarrowKeepsPastUse(s, service, part);
      assert Narrow(s, service, part)[0] in Narrow(s, service, part);
    }
    if b in part {
      assert b in Align(s, service, part);
      assert b in Free(s, Align(s, service, part));
      NarrowKeepsPastUse(s, service, part);
    }
  }

  /** The list that a run shares with the cache is shrunk in place, unless alignment
      has replaced it before. A later run of a client that would keep its binding with a
      fresh cache still keeps it exactly when the list was replaced or the instance was
      not full for the earlier client. */
  lemma SharedListKeepsBinding(first: Situation, second: Situation, service: Service, key: Key, before: Maps, after: Maps, all: Maps)
    requires OfferAfter(first, key, before, after, all) && service in first.required
    requires forall w <- first.required :: MappedFor(before, all, w, key) != []
    requires Keeps(second, service, MappedFor(before, all, service, key))
    ensures var list := MappedFor(before, all, service, key);
            Keeps(second, service, MappedFor(after, all, service, key)) <==>
            (service in first.aligned && !AlignmentFails(first, service, list)) || !Full(first, second.original[service])
  {
    hide Full, MappedFor, OfferAfter, Narrow, Keeps, Hopeless, Align, AlignmentFails;
    ghost var list, rest := MappedFor(before, all, service, key), MappedFor(after, all, service, key);
    OfferOf(first, key, before, after, all, service);
    KeptIsListed(second, service, list);
    KeepsFromPart(second, service, list, rest);
  }

  lemma KeptIsListed(s: Situation, service: Service, list: seq<Instance>)
    requires Keeps(s, service, list)
    ensures service in s.original && s.original[service] in list
  {
    NarrowKeepsPastUse(s, service, list);
    assert Narrow(s, service, list)[0] in Narrow(s, service, list);
  }

  lemma OfferOf(s: Situation, key: Key, before: Maps, after: Maps, all: Maps, service: Service)
    requires OfferAfter(s, key, before, after, all) && service in s.required
    requires forall w <- s.required :: MappedFor(before, all, w, key) != []
    ensures MappedFor(after, all, service, key) == LeftInCache(s, service, MappedFor(before, all, service, key))
  {
    hide MappedFor, Free, LeftInCache;
  }

  /** It happens: a new host is refused by a full instance, and after that the host
      that is bound to the instance finds no map for it any more. */
  lemma SharedListLosesBinding(after: Maps)
    requires var x := Instance(0, 0, [], Some(1), 1);
             OfferAfter(Situation(Host, [0], map[], map[], map[]), 0, map[], after, map[(0, 0) := [x]])
    ensures var x := Instance(0, 0, [], Some(1), 1);
            var bound := Situation(Host, [0], map[0 := x], map[], map[]);
            !Hopeless(bound, 0, [x]) && Hopeless(bound, 0, MappedFor(after, map[(0, 0) := [x]], 0, 0))
  {
    hide OfferAfter;
    var x := Instance(0, 0, [], Some(1), 1);
    var newcomer, bound := Situation(Host, [0], map[], map[], map[]), Situation(Host, [0], map[0 := x], map[], map[]);
    OfferOf(newcomer, 0, map[], after, map[(0, 0) := [x]], 0);
    assert Full(newcomer, x) && !Full(bound, x);
    assert Free(newcomer, [x]) == [] && x in Free(bound, [x]);
  }
}
