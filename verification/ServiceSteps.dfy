/** What each step of a chooser does to the lists, maps and counts it works on. */
module ServiceSteps {
  import opened Options
  import opened ServiceCache
  import opened ServiceChoice

  ghost predicate AllHopeful(s: Situation, lists: Lists) {
    forall v <- s.required :: v in lists && !Hopeless(s, v, lists[v])
  }

  ghost predicate NoneEmpty(s: Situation, left: Lists) {
    forall v <- left :: left[v] != [] && (v !in s.required ==> v in s.original && left[v] == [s.original[v]])
  }

  lemma RequiredAreStaged(s: Situation, lists: Lists, requiredOnly: bool)
    requires AllHopeful(s, lists)
    ensures forall v <- s.required :: v in Narrowed(s, lists, requiredOnly)
  {}

  lemma HopeInParts(s: Situation, lists: Lists)
    requires forall v <- s.required :: v in lists
    ensures AllHopeful(s, lists) <==>
            (forall v <- s.required :: lists[v] != []) && (forall v <- s.required :: Possible(s, v, lists[v]))
  {
    hide Free, AlignmentFails, Align;
    assert forall v <- s.required :: !Hopeless(s, v, lists[v]) <==> lists[v] != [] && Possible(s, v, lists[v]);
  }

  /** What the first stages leave is what the specification says they leave. */
  lemma StagedAsNarrowed(s: Situation, lists: Lists, requiredOnly: bool, first: Lists, second: Lists, left: Lists)
    requires forall v <- s.required :: v in lists
    requires lists.Keys == set v | v in s.required
    requires first == if requiredOnly then map[] else map v | v in s.original :: [s.original[v]]
    requires second.Keys == first.Keys + (set v | v in s.required)
    requires forall v <- second :: second[v] == if v in s.required then lists[v] else first[v]
    requires left.Keys == second.Keys
    requires forall v <- left :: left[v] == if v in s.required then Narrow(s, v, second[v]) else second[v]
    ensures left == Narrowed(s, lists, requiredOnly)
  {
    hide Narrow;
  }

  lemma NarrowedIsNotEmpty(s: Situation, lists: Lists, requiredOnly: bool)
    requires AllHopeful(s, lists)
    ensures NoneEmpty(s, Narrowed(s, lists, requiredOnly))
  {
    hide Narrow, Hopeless;
    var left := Narrowed(s, lists, requiredOnly);
    forall v | v in left
      ensures left[v] != []
    {
      if v in s.required {
        NarrowKeepsPastUse(s, v, lists[v]);
      }
    }
  }

  lemma MakesGoodChoice(s: Situation, lists: Lists, requiredOnly: bool, chosen: map<Service, Instance>)
    requires var left := Narrowed(s, lists, requiredOnly);
             && chosen.Keys == left.Keys && (forall v <- s.required :: v in left)
             && (forall v <- left :: left[v] != [] && (v !in s.required ==> v in s.original && left[v] == [s.original[v]] && chosen[v] == left[v][0]))
             && Decided(s.counts, Settled(left), s.required, left, chosen, |s.required|)
    ensures GoodChoice(s, lists, requiredOnly, chosen)
  {
    hide Best, FixedAt, Narrow, Settled, Narrowed;
  }

  lemma ChosenIsConsistent(s: Situation, lists: Lists, requiredOnly: bool, left: Lists, chosen: map<Service, Instance>)
    requires GoodChoice(s, lists, requiredOnly, chosen) && left == Narrowed(s, lists, requiredOnly)
    requires forall v <- left, i <- left[v] :: i.service == v
    requires ServiceConsistent(s.original)
    ensures ServiceConsistent(chosen)
  {
    hide FixedAt, Narrow, Settled, Narrowed, Overlap, CountOf;
    forall v | v in chosen
      ensures chosen[v].service == v
    {
      if v in s.required {
        var k :| 0 <= k < |s.required| && s.required[k] == v;
        assert chosen[v] in left[v];
      }
    }
  }

  lemma BindingsMatch(original: map<Service, Instance>, chosen: map<Service, Instance>, used: multiset<Instance>)
    requires ServiceConsistent(original) && ServiceConsistent(chosen) && used == multiset(original.Values)
    ensures Bound(original, chosen) !! Unbound(original, chosen) && multiset(Unbound(original, chosen)) <= used
    ensures used - multiset(Unbound(original, chosen)) + multiset(Bound(original, chosen)) == multiset(chosen.Values)
  {
    hide Bound, Unbound, ServiceConsistent;
    BoundAndUnboundDisjoint(original, chosen);
    SetsAsMultisets(original.Values, Unbound(original, chosen), Bound(original, chosen));
  }

  lemma SetsAsMultisets<T>(all: set<T>, less: set<T>, more: set<T>)
    requires less <= all && more !! all
    ensures multiset(less) <= multiset(all)
    ensures multiset(all) - multiset(less) + multiset(more) == multiset(all - less + more)
  {}

  lemma MovedFromSame(before: Counts, counts: Counts, after: Counts, owner: Owner, required: seq<Service>,
                      bound: set<Instance>, unbound: set<Instance>)
    requires SameCounts(before, counts) && Moved(counts, after, owner, required, bound, unbound)
    ensures Moved(before, after, owner, required, bound, unbound)
  {
    hide CountOf, Footprint;
    forall i
      ensures CountOf(before, i) == CountOf(counts, i)
    {}
  }

  /** A newly bound instance was not full, so it has room for the owner. */
  lemma RoomForTheBound(s: Situation, lists: Lists, requiredOnly: bool, chosen: map<Service, Instance>, after: Counts)
    requires AllHopeful(s, lists)
    requires GoodChoice(s, lists, requiredOnly, chosen) && ServiceConsistent(chosen) && ServiceConsistent(s.original)
    requires Moved(s.counts, after, s.owner, s.required, Bound(s.original, chosen), Unbound(s.original, chosen))
    ensures forall i <- Bound(s.original, chosen) :: i.maxClients.Some? ==> CountOf(after, i) <= i.maxClients.value
  {
    hide CountOf, Footprint, Hopeless, GoodChoice, ServiceConsistent;
    BoundAndUnboundDisjoint(s.original, chosen);
    forall i | i in Bound(s.original, chosen) && i.maxClients.Some?
      ensures CountOf(after, i) <= i.maxClients.value
    {
      BoundIsNotFull(s, lists, requiredOnly, chosen, i);
    }
  }

  lemma BoundIsNotFull(s: Situation, lists: Lists, requiredOnly: bool, chosen: map<Service, Instance>, i: Instance)
    requires AllHopeful(s, lists)
    requires GoodChoice(s, lists, requiredOnly, chosen) && ServiceConsistent(chosen)
    requires i in Bound(s.original, chosen) && i.maxClients.Some?
    ensures CountOf(s.counts, i) + Footprint(s.owner, s.required, i) <= i.maxClients.value
  {
    hide CountOf, Footprint, Hopeless, Narrowed, Best, Settled, FixedAt;
    var v :| v in chosen && chosen[v] == i && !(v in s.original && s.original[v] == i);
    var k :| 0 <= k < |s.required| && s.required[k] == v;
    ChoiceMeaning(s, lists, requiredOnly, chosen, k);
  }

  ghost predicate Distinct(required: seq<Service>) {
    forall i, j :: 0 <= i < j < |required| ==> required[i] != required[j]
  }

  lemma DistinctAround(required: seq<Service>, n: nat)
    requires Distinct(required) && n < |required|
    ensures required[n] !in required[..n] && required[n] !in required[n + 1..]
  {}

  /** What the cache is left with for a service: the shared list loses the full
      instances, unless alignment replaced it first. */
  function LeftInCache(s: Situation, service: Service, list: seq<Instance>): seq<Instance> {
    if service in s.aligned && !AlignmentFails(s, service, list) then list else Free(s, list)
  }

  /** An instance stays in the cached list unless the list is still shared with the stages
      and the instance has no room. */
  lemma LeftMeaning(s: Situation, service: Service, list: seq<Instance>, i: Instance)
    ensures i in LeftInCache(s, service, list) <==>
            i in list && (RoomFor(s, i) || exists al :: al in list && service in s.aligned && s.aligned[service] == Some(al))
  {
    hide Full, RoomFor;
    FullMeaning(s, i);
  }

  /** How far the narrowing has got: of what was staged and cached at first, the lists
      of the first `n` services have been narrowed. */
  ghost predicate Progress(s: Situation, required: seq<Service>, key: Key, n: nat, first: Lists, staging: Lists,
                           cached: Maps, maps: Maps, fine: bool)
    requires n <= |required| && forall v <- required :: v in first
  {
    && staging.Keys == first.Keys && maps.Keys == cached.Keys
    && (forall v <- staging :: staging[v] == if Among(required, n, v) then Narrow(s, v, first[v]) else first[v])
    && (forall k <- maps :: maps[k] == if k.1 == key && Among(required, n, k.0) then LeftInCache(s, k.0, first[k.0]) else cached[k])
    && (fine <==> forall v :: Among(required, n, v) ==> Possible(s, v, first[v]))
  }

  lemma NarrowingStarts(s: Situation, required: seq<Service>, key: Key, first: Lists, cached: Maps)
    requires forall v <- required :: v in first
    ensures Progress(s, required, key, 0, first, first, cached, cached, true)
  {}

  lemma NarrowingNext(s: Situation, required: seq<Service>, key: Key, n: nat, first: Lists, staging: Lists,
                      cached: Maps, maps: Maps, fine: bool)
    requires n < |required| && (forall v <- required :: v in first) && Distinct(required)
    requires Progress(s, required, key, n, first, staging, cached, maps, fine)
    ensures required[n] in staging && staging[required[n]] == first[required[n]]
  {
    hide Narrow, LeftInCache, Possible;
    assert required[n] !in required[..n];
  }

  ghost predicate Among(required: seq<Service>, n: nat, v: Service) {
    n <= |required| && v in required[..n]
  }

  lemma AmongNext(required: seq<Service>, n: nat)
    requires n < |required|
    ensures forall v :: Among(required, n + 1, v) <==> Among(required, n, v) || v == required[n]
  {
    var front := required[..n];
    assert required[..n + 1] == front + [required[n]];
    forall v
      ensures Among(required, n + 1, v) <==> Among(required, n, v) || v == required[n]
    {
      assert v in front + [required[n]] <==> v in front || v == required[n];
    }
  }

  lemma NarrowingStep(s: Situation, required: seq<Service>, key: Key, n: nat, first: Lists, staging: Lists,
                      cached: Maps, maps: Maps, fine: bool)
    requires n < |required| && (forall v <- required :: v in first) && Distinct(required)
    requires (required[n], key) in cached
    requires Progress(s, required, key, n, first, staging, cached, maps, fine)
    ensures var v := required[n];
            Progress(s, required, key, n + 1, first, staging[v := Narrow(s, v, first[v])],
                     cached, maps[(v, key) := LeftInCache(s, v, first[v])], fine && Possible(s, v, first[v]))
  {
    hide Narrow, LeftInCache, Possible, Among, Distinct;
    AmongNext(required, n);
  }

  lemma NarrowingEnds(s: Situation, required: seq<Service>, key: Key, first: Lists, staging: Lists,
                      cached: Maps, maps: Maps, all: Maps, fine: bool)
    requires forall v <- required :: v in first && (v, key) in cached
    requires Progress(s, required, key, |required|, first, staging, cached, maps, fine)
    ensures staging.Keys == first.Keys
    ensures forall v <- staging :: staging[v] == if v in required then Narrow(s, v, first[v]) else first[v]
    ensures fine <==> forall v <- required :: Possible(s, v, first[v])
    ensures OfferShrunk(s, required, key, first, cached, maps, all)
  {
    hide Narrow, LeftInCache, Possible;
    assert required[..|required|] == required;
  }

  /** The lists staged for the required services have become what narrowing leaves in
      the cache. */
  ghost predicate OfferShrunk(s: Situation, required: seq<Service>, key: Key, staged: Lists, before: Maps, after: Maps, all: Maps)
    requires forall v <- required :: v in staged
  {
    forall v, k :: MappedFor(after, all, v, k) ==
      if k == key && v in required then LeftInCache(s, v, staged[v]) else MappedFor(before, all, v, k)
  }

  /** What a run does to what the cache offers: unless some required service has
      nothing at all, the full instances are gone from the lists of the required ones. */
  ghost predicate OfferAfter(s: Situation, key: Key, before: Maps, after: Maps, all: Maps) {
    forall v, k :: MappedFor(after, all, v, k) ==
      if k == key && v in s.required && (forall w <- s.required :: MappedFor(before, all, w, key) != [])
      then LeftInCache(s, v, MappedFor(before, all, v, k))
      else MappedFor(before, all, v, k)
  }

  lemma SomethingMissing(s: Situation, key: Key, before: Maps, filled: Maps, all: Maps)
    requires SameOffer(filled, before, all)
    ensures (exists w <- s.required :: MappedFor(before, all, w, key) == []) ==> OfferAfter(s, key, before, filled, all)
  {
    hide MappedFor, LeftInCache;
  }

  lemma ShrunkAfter(s: Situation, key: Key, staged: Lists, before: Maps, filled: Maps, after: Maps, all: Maps)
    requires SameOffer(filled, before, all)
    requires forall v <- s.required :: v in staged && staged[v] == MappedFor(before, all, v, key) && staged[v] != []
    requires OfferShrunk(s, s.required, key, staged, filled, after, all)
    ensures OfferAfter(s, key, before, after, all)
  {
    hide MappedFor, LeftInCache;
  }

  /** The alignment holds and something is not full. */
  predicate Possible(s: Situation, service: Service, list: seq<Instance>) {
    !AlignmentFails(s, service, list) && Free(s, Align(s, service, list)) != []
  }

  lemma {:induction false} SameFree(a: Situation, b: Situation, list: seq<Instance>)
    requires SameCounts(a.counts, b.counts) && a.(counts := b.counts) == b
    ensures Free(a, list) == Free(b, list)
  {
    hide SameCounts, Full;
    if list != [] {
      SameFull(a, b, list[0]);
      SameFree(a, b, list[1..]);
    }
  }

  /** Alignment and past use do not look at the counts. */
  lemma SameStages(a: Situation, b: Situation, service: Service, list: seq<Instance>)
    requires a.(counts := b.counts) == b
    ensures Align(a, service, list) == Align(b, service, list) && PastUse(a, service, list) == PastUse(b, service, list)
    ensures AlignmentFails(a, service, list) <==> AlignmentFails(b, service, list)
  {}

  ghost function Picks(staging: Lists): (r: map<Service, Instance>)
    requires forall v <- staging :: staging[v] != []
    ensures r.Keys == staging.Keys
  {
    map v | v in staging :: staging[v][0]
  }

  /** The first `k` services were each given a best instance when their turn came. */
  ghost predicate Decided(counts: Counts, base: set<ServerObject>, required: seq<Service>, left: Lists,
                          picks: map<Service, Instance>, k: nat)
    requires k <= |required| && forall v <- required :: v in left && v in picks
  {
    forall j :: 0 <= j < k ==> Best(counts, FixedAt(base, required, picks, j), left[required[j]], picks[required[j]])
  }

  lemma NothingDecided(counts: Counts, base: set<ServerObject>, required: seq<Service>, left: Lists, picks: map<Service, Instance>)
    requires forall v <- required :: v in left && v in picks
    ensures Decided(counts, base, required, left, picks, 0) && FixedAt(base, required, picks, 0) == base
  {}

  lemma {:induction false} FixedAtAgrees(base: set<ServerObject>, required: seq<Service>, a: map<Service, Instance>,
                                         b: map<Service, Instance>, k: nat)
    requires k <= |required| && forall v <- required :: v in a && v in b
    requires forall j :: 0 <= j < k ==> a[required[j]] == b[required[j]]
    ensures FixedAt(base, required, a, k) == FixedAt(base, required, b, k)
  {
    if k > 0 {
      FixedAtAgrees(base, required, a, b, k - 1);
    }
  }

  lemma DecidedStep(counts: Counts, base: set<ServerObject>, required: seq<Service>, left: Lists,
                    before: map<Service, Instance>, after: map<Service, Instance>, k: nat)
    requires k < |required| && forall v <- required :: v in left && v in before && v in after
    requires forall j :: 0 <= j < k ==> before[required[j]] == after[required[j]]
    requires Decided(counts, base, required, left, before, k)
    requires Best(counts, FixedAt(base, required, before, k), left[required[k]], after[required[k]])
    ensures Decided(counts, base, required, left, after, k + 1)
    ensures FixedAt(base, required, after, k + 1) == FixedAt(base, required, before, k) + Objects(after[required[k]].servers)
  {
    hide Best, FixedAt;
    FixedAtNext(base, required, after, k);
    forall j | 0 <= j <= k
      ensures FixedAt(base, required, before, j) == FixedAt(base, required, after, j)
    {
      FixedAtAgrees(base, required, before, after, j);
    }
  }

  /** How far the settling has got: the first `n` required services are settled, the
      others untouched, and the servers of the settled ones are fixed. */
  ghost predicate Reduced(counts: Counts, base: set<ServerObject>, required: seq<Service>, left: Lists, staging: Lists,
                          servers: set<ServerObject>, n: nat)
    requires n <= |required| && forall v <- required :: v in left
  {
    && staging.Keys == left.Keys && (forall v <- staging :: staging[v] != [])
    && (forall v <- staging :: if v in required[..n] then |staging[v]| == 1 else staging[v] == left[v])
    && Decided(counts, base, required, left, Picks(staging), n)
    && servers == FixedAt(base, required, Picks(staging), n)
  }

  lemma ReducedStarts(counts: Counts, base: set<ServerObject>, required: seq<Service>, left: Lists)
    requires (forall v <- required :: v in left) && forall v <- left :: left[v] != []
    ensures Reduced(counts, base, required, left, left, base, 0)
  {
    NothingDecided(counts, base, required, left, Picks(left));
  }

  lemma ReducedNext(counts: Counts, base: set<ServerObject>, required: seq<Service>, left: Lists, staging: Lists,
                    servers: set<ServerObject>, n: nat)
    requires n < |required| && Distinct(required) && forall v <- required :: v in left
    requires Reduced(counts, base, required, left, staging, servers, n)
    ensures required[n] in staging && staging[required[n]] == left[required[n]] && staging[required[n]] != []
  {
    hide Decided, FixedAt;
    assert required[n] !in required[..n];
  }

  lemma ReducedStep(counts: Counts, base: set<ServerObject>, required: seq<Service>, left: Lists,
                    before: Lists, fixed: set<ServerObject>, after: Lists, servers: set<ServerObject>, n: nat)
    requires n < |required| && Distinct(required) && forall v <- required :: v in left
    requires Reduced(counts, base, required, left, before, fixed, n)
    requires after.Keys == before.Keys && forall v <- after :: v != required[n] ==> after[v] == before[v]
    requires |after[required[n]]| == 1 && Best(counts, fixed, left[required[n]], after[required[n]][0])
    requires servers == fixed + Objects(after[required[n]][0].servers)
    ensures Reduced(counts, base, required, left, after, servers, n + 1)
  {
    hide Best, Objects, Decided, FixedAt;
    assert required[..n + 1] == required[..n] + [required[n]];
    DecidedStep(counts, base, required, left, Picks(before), Picks(after), n);
  }

  lemma ReducedEnds(counts: Counts, base: set<ServerObject>, required: seq<Service>, left: Lists, staging: Lists, servers: set<ServerObject>)
    requires forall v <- required :: v in left
    requires Reduced(counts, base, required, left, staging, servers, |required|)
    ensures staging.Keys == left.Keys && forall v <- staging :: staging[v] != []
    ensures forall v <- staging :: if v in required then |staging[v]| == 1 else staging[v] == left[v]
    ensures Decided(counts, base, required, left, Picks(staging), |required|)
  {
    hide Decided, FixedAt;
    assert required[..|required|] == required;
  }

  lemma FixedAtNext(base: set<ServerObject>, required: seq<Service>, picks: map<Service, Instance>, k: nat)
    requires k < |required| && forall v <- required :: v in picks
    ensures FixedAt(base, required, picks, k + 1) == FixedAt(base, required, picks, k) + Objects(picks[required[k]].servers)
  {}

  /** The counts differ by the footprints of what was bound less those of what was given up. */
  ghost predicate Moved(before: Counts, after: Counts, owner: Owner, required: seq<Service>, bound: set<Instance>, unbound: set<Instance>) {
    forall i :: CountOf(after, i) == CountOf(before, i)
                + (if i in bound then Footprint(owner, required, i) else 0)
                - (if i in unbound then Footprint(owner, required, i) else 0)
  }

  /** The same in numbers: a host counts once for every instance, a metacluster never, and
      a cluster with its size for the services it requires. */
  lemma MovedInNumbers(before: Counts, after: Counts, owner: Owner, required: seq<Service>, bound: set<Instance>, unbound: set<Instance>, i: Instance)
    requires Moved(before, after, owner, required, bound, unbound) && bound !! unbound
    ensures i in bound && owner == Host ==> CountOf(after, i) == CountOf(before, i) + 1
    ensures i in unbound && owner == Host ==> CountOf(after, i) == CountOf(before, i) - 1
    ensures i in bound && owner.Cluster? && owner.maxHosts.Some? && i.service in required ==>
              CountOf(after, i) == CountOf(before, i) + owner.maxHosts.value
    ensures i in unbound && owner.Cluster? && owner.maxHosts.Some? && i.service in required ==>
              CountOf(after, i) == CountOf(before, i) - owner.maxHosts.value
    ensures owner == MetaCluster ==> CountOf(after, i) == CountOf(before, i)
    ensures owner.Cluster? && (owner.maxHosts == None || i.service !in required) ==> CountOf(after, i) == CountOf(before, i)
    ensures i !in bound && i !in unbound ==> CountOf(after, i) == CountOf(before, i)
  {
    hide CountOf;
  }

  lemma NothingMoved(counts: Counts, owner: Owner, required: seq<Service>)
    ensures Moved(counts, counts, owner, required, {}, {})
  {}

  lemma OneLess(before: Counts, counts: Counts, after: Counts, owner: Owner, required: seq<Service>, unbound: set<Instance>, i: Instance)
    requires Moved(before, counts, owner, required, {}, unbound) && i !in unbound
    requires forall j :: CountOf(after, j) == CountOf(counts, j) - (if j == i then Footprint(owner, required, i) else 0)
    ensures Moved(before, after, owner, required, {}, unbound + {i})
  {
    hide CountOf, Footprint;
  }

  lemma OneMore(before: Counts, counts: Counts, after: Counts, owner: Owner, required: seq<Service>,
                bound: set<Instance>, unbound: set<Instance>, i: Instance)
    requires Moved(before, counts, owner, required, bound, unbound) && i !in bound
    requires forall j :: CountOf(after, j) == CountOf(counts, j) + (if j == i then Footprint(owner, required, i) else 0)
    ensures Moved(before, after, owner, required, bound + {i}, unbound)
  {
    hide CountOf, Footprint;
  }

  /** The list is what is left of another when the elements of a set are taken out once. */
  ghost predicate Lacks(list: seq<Instance>, used: seq<Instance>, done: set<Instance>) {
    multiset(list) == multiset(used) - multiset(done)
  }

  lemma LacksNothing(list: seq<Instance>)
    ensures Lacks(list, list, {})
  {}

  lemma LacksMeans(list: seq<Instance>, used: seq<Instance>, done: set<Instance>)
    requires Lacks(list, used, done)
    ensures multiset(list) == multiset(used) - multiset(done)
  {}

  lemma OneRemoved(list: seq<Instance>, used: seq<Instance>, unbound: set<Instance>, done: set<Instance>, i: Instance)
    requires Lacks(list, used, done) && multiset(unbound) <= multiset(used)
    requires i in unbound && i !in done
    ensures i in list && Lacks(RemoveFirst(list, i), used, done + {i})
  {
    assert multiset(unbound)[i] == 1;
    assert i in multiset(list);
    RemoveFirstMultiset(list, i);
    assert multiset(done + {i}) == multiset(done) + multiset{i};
  }

  lemma OneAdded(list: seq<Instance>, used: multiset<Instance>, done: set<Instance>, i: Instance)
    requires multiset(list) == used + multiset(done) && i !in done
    ensures multiset(list + [i]) == used + multiset(done + {i})
  {
    assert multiset(done + {i}) == multiset(done) + multiset{i};
  }

  /** The instances of a list that share most servers with what is fixed. */
  ghost predicate MostSharing(fixed: set<ServerObject>, list: seq<Instance>, r: seq<Instance>) {
    forall i :: i in r <==> i in list && forall j <- list :: Overlap(fixed, j) <= Overlap(fixed, i)
  }

  ghost predicate LeastClients(counts: Counts, list: seq<Instance>, r: seq<Instance>) {
    forall i :: i in r <==> i in list && forall j <- list :: CountOf(counts, i) <= CountOf(counts, j)
  }

  lemma MostShared(fixed: set<ServerObject>, list: seq<Instance>, most: int, r: seq<Instance>)
    requires r != [] && forall i <- list :: Overlap(fixed, i) <= most
    requires forall i :: i in r <==> i in list && Overlap(fixed, i) == most
    ensures MostSharing(fixed, list, r)
  {
    hide Overlap;
    assert r[0] in r;
  }

  lemma FewestClients(counts: Counts, list: seq<Instance>, least: int, r: seq<Instance>)
    requires r != [] && forall i <- list :: least <= CountOf(counts, i)
    requires forall i :: i in r <==> i in list && CountOf(counts, i) == least
    ensures LeastClients(counts, list, r)
  {
    hide CountOf;
    assert r[0] in r;
  }

  lemma OnlyOne(counts: Counts, fixed: set<ServerObject>, list: seq<Instance>)
    requires |list| == 1
    ensures Best(counts, fixed, list, list[0])
  {
    hide Overlap, CountOf;
    assert forall j <- list :: j == list[0];
  }

  lemma BestOfBest(counts: Counts, fixed: set<ServerObject>, list: seq<Instance>, shared: seq<Instance>, i: Instance)
    requires MostSharing(fixed, list, shared) && i in shared
    requires forall j <- shared :: CountOf(counts, i) <= CountOf(counts, j)
    ensures Best(counts, fixed, list, i)
  {
    hide Overlap, CountOf;
    forall j | j in list && Overlap(fixed, j) == Overlap(fixed, i)
      ensures j in shared
    {}
  }

  lemma LeastIsBest(counts: Counts, fixed: set<ServerObject>, list: seq<Instance>, shared: seq<Instance>, least: seq<Instance>, i: Instance)
    requires MostSharing(fixed, list, shared) && LeastClients(counts, shared, least) && i in least
    ensures Best(counts, fixed, list, i)
  {
    hide Overlap, CountOf, MostSharing;
    BestOfBest(counts, fixed, list, shared, i);
  }

  lemma {:induction false} RemoveFirstMultiset(list: seq<Instance>, i: Instance)
    requires i in list
    ensures multiset(RemoveFirst(list, i)) == multiset(list) - multiset{i}
  {
    assert list == [list[0]] + list[1..];
    if list[0] != i {
      RemoveFirstMultiset(list[1..], i);
    }
  }

  lemma {:induction false} ObjectsAppend(a: seq<Server>, b: seq<Server>)
    ensures Objects(a + b) == Objects(a) + Objects(b)
  {
    if a == [] {
      assert a + b == b;
    } else {
      assert (a + b)[1..] == a[1..] + b;
      ObjectsAppend(a[1..], b);
    }
  }

  lemma SettledMore(staging: Lists, done: set<Service>, v: Service)
    requires v in staging && v !in done && staging[v] != []
    ensures Settled(map w | w in done + {v} && w in staging :: staging[w]) ==
            Settled(map w | w in done && w in staging :: staging[w])
            + (if |staging[v]| == 1 then Objects(staging[v][0].servers) else {})
  {
    hide Objects;
    var before := map w | w in done && w in staging :: staging[w];
    var after := map w | w in done + {v} && w in staging :: staging[w];
    assert after.Keys == before.Keys + (if v in staging then {v} else {});
    assert after[v] == staging[v] && forall w <- before :: after[w] == before[w];
  }

  method ByService(servicesUsed: seq<Instance>) returns (m: map<Service, Instance>)
    requires forall i, j :: 0 <= i < j < |servicesUsed| ==> servicesUsed[i].service != servicesUsed[j].service
    ensures ServiceConsistent(m) && multiset(servicesUsed) == multiset(m.Values)
  {
    m := map[];
    ghost var values: set<Instance> := {};
    for n := 0 to |servicesUsed|
      invariant ServiceConsistent(m) && forall v <- m :: m[v] in servicesUsed[..n]
      invariant forall i :: i in values <==> i.service in m && m[i.service] == i
      invariant multiset(servicesUsed[..n]) == multiset(values)
    {
      var si := servicesUsed[n];
      assert si.service !in m;
      assert servicesUsed[..n + 1] == servicesUsed[..n] + [si];
      m := m[si.service := si];
      values := values + {si};
    }
    assert servicesUsed[..|servicesUsed|] == servicesUsed;
    ValuesAre(m, values);
  }

  lemma ValuesAre(m: map<Service, Instance>, values: set<Instance>)
    requires ServiceConsistent(m) && forall i :: i in values <==> i.service in m && m[i.service] == i
    ensures m.Values == values
  {}

  function RemoveFirst(list: seq<Instance>, i: Instance): seq<Instance> {
    if list == [] then [] else if list[0] == i then list[1..] else [list[0]] + RemoveFirst(list[1..], i)
  }

  lemma {:induction false} RemoveInMiddle(front: seq<Instance>, i: Instance, back: seq<Instance>)
    requires i !in front
    ensures RemoveFirst(front + ([i] + back), i) == front + back
  {
    if front == [] {
      assert front + ([i] + back) == [i] + back && front + back == back;
    } else {
      assert (front + ([i] + back))[1..] == front[1..] + ([i] + back);
      RemoveInMiddle(front[1..], i, back);
      assert front + back == [front[0]] + (front[1..] + back);
    }
  }

  lemma NextInList(kept: seq<Instance>, all: seq<Instance>, n: nat)
    requires n < |all|
    ensures kept + all[n..] == kept + [all[n]] + all[n + 1..]
    ensures all[n] !in kept ==> RemoveFirst(kept + all[n..], all[n]) == kept + all[n + 1..]
  {
    assert all[n..] == [all[n]] + all[n + 1..];
    if all[n] !in kept {
      RemoveInMiddle(kept, all[n], all[n + 1..]);
    }
  }

  lemma {:induction false} FreeAppend(s: Situation, a: seq<Instance>, b: seq<Instance>)
    ensures Free(s, a + b) == Free(s, a) + Free(s, b)
  {
    if a == [] {
      assert a + b == b;
    } else {
      assert (a + b)[1..] == a[1..] + b;
      FreeAppend(s, a[1..], b);
    }
  }

  lemma FreeMore(s: Situation, all: seq<Instance>, n: nat)
    requires n < |all|
    ensures Free(s, all[..n + 1]) == Free(s, all[..n]) + (if Full(s, all[n]) then [] else [all[n]])
  {
    assert all[..n + 1] == all[..n] + [all[n]];
    FreeAppend(s, all[..n], [all[n]]);
    assert [all[n]][1..] == [];
  }

  /** The full ones of the first `n` are gone from the list, the others still there. */
  ghost predicate Sieved(s: Situation, all: seq<Instance>, n: nat, left: seq<Instance>) {
    n <= |all| && left == Free(s, all[..n]) + all[n..]
  }

  lemma SievedStarts(s: Situation, all: seq<Instance>)
    ensures Sieved(s, all, 0, all)
  {
    assert all[..0] == [] && all[0..] == all;
  }

  lemma SievedStep(s: Situation, all: seq<Instance>, n: nat, left: seq<Instance>)
    requires n < |all| && Sieved(s, all, n, left)
    ensures Sieved(s, all, n + 1, if Full(s, all[n]) then RemoveFirst(left, all[n]) else left)
  {
    hide Full, RemoveFirst;
    FreeMore(s, all, n);
    NextInList(Free(s, all[..n]), all, n);
    NotFreeIfFull(s, all[..n], all[n]);
    assert Full(s, all[n]) ==> Free(s, all[..n + 1]) == Free(s, all[..n]);
  }

  lemma SievedEnds(s: Situation, all: seq<Instance>, left: seq<Instance>)
    requires Sieved(s, all, |all|, left)
    ensures left == Free(s, all)
  {
    assert all[..|all|] == all && all[|all|..] == [];
  }

  lemma SameItself(s: Situation)
    ensures SameCounts(s.counts, s.counts) && Free(s, []) == []
  {}

  lemma SameTransitive(a: Counts, b: Counts, c: Counts)
    requires SameCounts(a, b) || SameCounts(b, a)
    requires SameCounts(b, c) || SameCounts(c, b)
    ensures SameCounts(a, c)
  {}

  lemma CountsAgree(a: Counts, b: Counts, i: Instance)
    requires SameCounts(a, b) || SameCounts(b, a)
    ensures CountOf(a, i) == CountOf(b, i)
  {}

  lemma NotFreeIfFull(s: Situation, list: seq<Instance>, i: Instance)
    ensures Full(s, i) ==> i !in Free(s, list)
  {}

  lemma SameFull(a: Situation, b: Situation, i: Instance)
    requires SameCounts(a.counts, b.counts) && a.(counts := b.counts) == b
    ensures Full(a, i) <==> Full(b, i)
  {
    assert CountOf(a.counts, i) == CountOf(b.counts, i);
  }
}
