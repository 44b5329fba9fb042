/** The chooser object, stage by stage. */
module ServiceChooser {
  import opened Options
  import opened ServiceCache
  import opened ServiceChoice
  import opened ServiceSteps

  datatype Error = NoMap(service: Service) | NotAligned(service: Service) | AlignedNotMapped(service: Service) | AllFull(service: Service)
                 | NoCandidate(service: Service) | TooManyCandidates(service: Service)

  class Chooser {
    const cache: ChooserCache
    const owner: Owner
    const required: seq<Service>
    const requiredOnly: bool
    const key: Key
    const original: map<Service, Instance>
    const parents: seq<Parent>
    var aligned: map<Service, Option<Instance>>
    var servicesUsed: seq<Instance>
    var staging: map<Service, seq<Instance>>
    var shared: set<Service>  // services whose staged list is the cached one
    var errors: seq<Error>
    var servers: set<ServerObject>
    var chosen: map<Service, Instance>
    var bound: set<Instance>
    var unbound: set<Instance>

    ghost function Now(): Situation
      reads this, cache
    {
      Situation(owner, required, original, aligned, cache.clientCounts)
    }

    ghost predicate Valid()
      reads this, cache
    {
      && cache.Valid() && ServiceConsistent(original)
      && (forall s <- aligned :: aligned[s].Some? ==> aligned[s].value.service == s)
      && (forall s <- staging, i <- staging[s] :: i.service == s)
      && (forall s <- shared :: s in staging && (s, key) in cache.serviceMaps && cache.serviceMaps[(s, key)] == staging[s])
    }

    ghost predicate Started()
      reads this
    {
      && staging == map[] && shared == {} && errors == [] && servers == {} && aligned == map[]
      && chosen == map[] && bound == {} && unbound == {}
      && multiset(servicesUsed) == multiset(original.Values)
    }

    constructor (cache: ChooserCache, owner: Owner, required: seq<Service>, requiredOnly: bool, key: Key,
                 parents: seq<Parent>, servicesUsed: seq<Instance>)
      requires cache.Valid()
      requires forall i, j :: 0 <= i < j < |servicesUsed| ==> servicesUsed[i].service != servicesUsed[j].service
      ensures Valid() && Started()
      ensures this.cache == cache && this.owner == owner && this.required == required && this.key == key
      ensures this.requiredOnly == requiredOnly && this.parents == parents && this.servicesUsed == servicesUsed
    {
      var m := ByService(servicesUsed);
      this.cache, this.owner, this.required, this.requiredOnly, this.key := cache, owner, required, requiredOnly, key;
      this.parents, this.servicesUsed, original := parents, servicesUsed, m;
      aligned, staging, shared, errors, servers, chosen, bound, unbound := map[], map[], {}, [], {}, map[], {}, {};
    }

    /** Stage the existing bindings unless only required services are wanted, and find
        out which instances the parents prescribe. */
    method VerifyInit()
      requires Valid() && Started()
      modifies `staging, `aligned
      ensures Valid() && aligned == AlignedBy(parents)
      ensures staging == if requiredOnly then map[] else map v | v in original :: [original[v]]
    {
      if !requiredOnly {
        staging := map v | v in original :: [original[v]];
      }
      ghost var staged := staging;
      aligned := map[];
      for n := 0 to |parents|
        invariant aligned == AlignedBy(parents[..n]) && staging == staged
      {
        assert parents[..n + 1][..n] == parents[..n];
        var used, wanted := parents[n].servicesUsed, parents[n].required;
        ghost var whole := AlignToUsed(aligned, used);
        for i := 0 to |used|
          invariant AlignToUsed(aligned, used[i..]) == whole && staging == staged
        {
          assert used[i..][1..] == used[i + 1..];
          aligned := aligned[used[i].service := Some(used[i])];
        }
        whole := AlignToRequired(aligned, wanted);
        for i := 0 to |wanted|
          invariant AlignToRequired(aligned, wanted[i..]) == whole && staging == staged
        {
          assert wanted[i..][1..] == wanted[i + 1..];
          if wanted[i] !in aligned {
            aligned := aligned[wanted[i] := None];
          }
        }
      }
      assert parents[..|parents|] == parents;
      forall v | v in aligned && aligned[v].Some?
        ensures aligned[v].value.service == v
      {
        AlignmentMeaning(parents, v);
      }
    }

    method FindServiceInstances(service: Service)
      requires Valid()
      modifies `staging, `shared, `errors
      ensures Valid()
      ensures if cache.Offered(service, key) == [] then errors == old(errors) + [NoMap(service)] && staging == old(staging)
              else errors == old(errors) && staging == old(staging)[service := cache.Offered(service, key)]
      ensures shared == if cache.Offered(service, key) == [] then old(shared) else old(shared) + {service}
      ensures |errors| == |old(errors)| <==> (service, key) in cache.serviceMaps && cache.serviceMaps[(service, key)] != []
    {
      var instances := cache.Offered(service, key);
      if instances != [] {
        staging := staging[service := instances];
        shared := shared + {service};
        return;
      }
      errors := errors + [NoMap(service)];
    }

    method ChooseAligned(service: Service)
      requires Valid() && service in staging
      modifies `staging, `shared, `errors
      ensures Valid() && staging == old(staging)[service := Align(Now(), service, old(staging)[service])]
      ensures errors == [] <==> old(errors) == [] && !AlignmentFails(Now(), service, old(staging)[service])
      ensures shared == if service in aligned && !AlignmentFails(Now(), service, old(staging)[service]) then old(shared) - {service} else old(shared)
    {
      if service !in aligned {
        return;
      }
      if aligned[service].None? {
        errors := errors + [NotAligned(service)];
        return;
      }
      var si := aligned[service].value;
      if si !in staging[service] {
        errors := errors + [AlignedNotMapped(service)];
        return;
      }
      staging := staging[service := [si]];
      shared := shared - {service};
    }

    method InstanceFull(i: Instance, current: int) returns (full: bool)
      requires current == CountOf(cache.clientCounts, i)
      ensures full <==> Full(Now(), i)
      ensures full <==> !RoomFor(Now(), i)
    {
      if i.maxClients.None? {
        return false;
      }
      if i.service in original && original[i.service] == i {
        return current > i.maxClients.value;
      }
      return current + Footprint(owner, required, i) > i.maxClients.value;
    }

    /** Take the full instances out of the list, in place: when the list is the cached
        one, the cache loses them as well. */
    method ChooseAvailableCapacity(service: Service)
      requires Valid() && service in staging
      modifies `staging, `errors, cache
      ensures Valid() && SameCounts(cache.clientCounts, old(cache.clientCounts))
      ensures staging == old(staging)[service := Free(old(Now()), old(staging)[service])]
      ensures errors == [] <==> old(errors) == [] && staging[service] != []
      ensures cache.serviceMaps == if service in shared then old(cache.serviceMaps)[(service, key) := staging[service]]
                                   else old(cache.serviceMaps)
    {
      hide SameCounts, Free, CountOf, Full;
      var left := DropFull(staging[service]);
      Shrink(service, left);
      if left == [] {
        errors := errors + [AllFull(service)];
      }
    }

    /** The list is one object for the stages and, when it is shared, for the cache. */
    method Shrink(service: Service, left: seq<Instance>)
      requires Valid() && service in staging && forall i <- left :: i in staging[service]
      modifies `staging, cache`serviceMaps
      ensures Valid() && staging == old(staging)[service := left]
      ensures cache.serviceMaps == if service in shared then old(cache.serviceMaps)[(service, key) := left]
                                   else old(cache.serviceMaps)
    {
      staging := staging[service := left];
      if service in shared {
        cache.serviceMaps := cache.serviceMaps[(service, key) := left];
      }
    }

    method DropFull(all: seq<Instance>) returns (left: seq<Instance>)
      modifies cache`clientCounts
      ensures left == Free(old(Now()), all)
      ensures SameCounts(cache.clientCounts, old(cache.clientCounts))
    {
      hide SameCounts, Free, Full, CountOf, RemoveFirst, Sieved;
      ghost var s0 := Now();
      SameItself(s0);
      SievedStarts(s0, all);
      left := all;
      for n := 0 to |all|
        invariant SameCounts(s0.counts, cache.clientCounts) && Sieved(s0, all, n, left)
      {
        var full := AskFull(all[n], s0);
        SievedStep(s0, all, n, left);
        if full {
          left := RemoveFirst(left, all[n]);
        }
      }
      SievedEnds(s0, all, left);
      SameTransitive(cache.clientCounts, s0.counts, s0.counts);
    }

    method AskFull(i: Instance, ghost s0: Situation) returns (full: bool)
      requires SameCounts(s0.counts, cache.clientCounts) && s0.(counts := cache.clientCounts) == Now()
      modifies cache`clientCounts
      ensures full <==> Full(s0, i)
      ensures SameCounts(s0.counts, cache.clientCounts)
    {
      hide SameCounts, Full, CountOf;
      ghost var counts := cache.clientCounts;
      var current := cache.ClientCount(i);
      SameTransitive(s0.counts, counts, cache.clientCounts);
      CountsAgree(counts, cache.clientCounts, i);
      full := InstanceFull(i, current);
      SameFull(s0, Now(), i);
    }

    method ChoosePastUse(service: Service)
      requires Valid() && service in staging
      modifies `staging, `shared
      ensures Valid() && staging == old(staging)[service := PastUse(Now(), service, old(staging)[service])]
      ensures shared == old(shared) || shared == old(shared) - {service}
    {
      if |staging[service]| > 1 && service in original && original[service] in staging[service] {
        staging := staging[service := [original[service]]];
        shared := shared - {service};
      }
    }

    // From here on every required service has something to choose from.

    /** The hosts, clusters or aliases behind the servers of an instance. */
    method AddServers(i: Instance)
      modifies `servers
      ensures servers == old(servers) + Objects(i.servers)
      ensures forall o :: o in servers <==> o in old(servers) || exists srv :: srv in i.servers && Backs(srv, o)
    {
      for n := 0 to |i.servers|
        invariant servers == old(servers) + Objects(i.servers[..n])
      {
        assert i.servers[..n + 1] == i.servers[..n] + [i.servers[n]];
        ObjectsAppend(i.servers[..n], [i.servers[n]]);
        assert [i.servers[n]][1..] == [];
        servers := servers + ObjectsOf(i.servers[n]);
      }
      assert i.servers[..|i.servers|] == i.servers;
      ObjectsMeaning(i.servers);
    }

    /** The servers of every service for which one instance is left. */
    method CountServers()
      requires forall v <- staging :: staging[v] != []
      modifies `servers
      ensures servers == old(servers) + Settled(staging)
    {
      var todo := staging.Keys;
      ghost var done: set<Service> := {};
      while todo != {}
        invariant todo + done == staging.Keys && todo !! done
        invariant servers == old(servers) + Settled(map v | v in done && v in staging :: staging[v])
      {
        var v :| v in todo;
        if |staging[v]| == 1 {
          AddServers(staging[v][0]);
        }
        SettledMore(staging, done, v);
        todo := todo - {v};
        done := done + {v};
      }
      assert (map v | v in done && v in staging :: staging[v]) == staging;
    }

    /** Keep the instances that share the most servers with what is fixed. */
    method ChooseAffinity(service: Service)
      requires service in staging && staging[service] != []
      modifies `staging
      ensures staging.Keys == old(staging).Keys && forall v <- staging :: v != service ==> staging[v] == old(staging)[v]
      ensures staging[service] != [] && MostSharing(servers, old(staging)[service], staging[service])
    {
      hide Overlap;
      hide MostSharing;
      var list := staging[service];
      var maxServers: nat := 0;
      var maxInstances: seq<Instance> := [];
      for n := 0 to |list|
        invariant |maxInstances| <= n && (|maxInstances| == n ==> maxInstances == list[..n])
        invariant forall i <- list[..n] :: Overlap(servers, i) <= maxServers
        invariant forall i :: i in maxInstances <==> i in list[..n] && Overlap(servers, i) == maxServers
        invariant n == 0 ==> maxServers == 0
        invariant maxInstances == [] ==> n == 0
      {
        var common := Overlap(servers, list[n]);
        assert list[..n + 1] == list[..n] + [list[n]];
        if common > maxServers {
          maxServers := common;
          maxInstances := [list[n]];
          assert n == 0 ==> list[..1] == [list[0]];
        } else if common == maxServers {
          maxInstances := maxInstances + [list[n]];
        }
      }
      assert list[..|list|] == list;
      MostShared(servers, list, maxServers, maxInstances);
      if maxInstances != [] && |maxInstances| < |list| {
        staging := staging[service := maxInstances];
      }
    }

    /** Keep the instances with the fewest clients. */
    method ChooseLeastLoaded(service: Service, ghost counts: Counts)
      requires service in staging && staging[service] != [] && SameCounts(counts, cache.clientCounts)
      modifies `staging, cache`clientCounts
      ensures SameCounts(counts, cache.clientCounts)
      ensures staging.Keys == old(staging).Keys && forall v <- staging :: v != service ==> staging[v] == old(staging)[v]
      ensures staging[service] != [] && LeastClients(counts, old(staging)[service], staging[service])
    {
      hide SameCounts, CountOf, LeastClients;
      var list := staging[service];
      var leastClients := 0;
      var leastLoaded: seq<Instance> := [];
      for n := 0 to |list|
        invariant staging == old(staging) && SameCounts(counts, cache.clientCounts)
        invariant |leastLoaded| <= n && (|leastLoaded| == n ==> leastLoaded == list[..n])
        invariant leastLoaded == [] ==> n == 0
        invariant forall i <- list[..n] :: leastClients <= CountOf(counts, i)
        invariant forall i :: i in leastLoaded <==> i in list[..n] && CountOf(counts, i) == leastClients
      {
        var count := AskCount(list[n], counts);
        assert list[..n + 1] == list[..n] + [list[n]];
        if leastLoaded == [] || count < leastClients {
          leastClients := count;
          leastLoaded := [list[n]];
        } else if count == leastClients {
          leastLoaded := leastLoaded + [list[n]];
        }
      }
      assert list[..|list|] == list;
      FewestClients(counts, list, leastClients, leastLoaded);
      if |leastLoaded| < |list| {
        staging := staging[service := leastLoaded];
      }
    }

    method AskCount(i: Instance, ghost counts: Counts) returns (n: int)
      requires SameCounts(counts, cache.clientCounts)
      modifies cache`clientCounts
      ensures SameCounts(counts, cache.clientCounts) && n == CountOf(counts, i)
    {
      hide SameCounts, CountOf;
      ghost var before := cache.clientCounts;
      CountsAgree(counts, before, i);
      n := cache.ClientCount(i);
      SameTransitive(counts, before, cache.clientCounts);
    }

    method ChooseRandom(service: Service)
      requires service in staging && staging[service] != []
      modifies `staging
      ensures exists i :: i in old(staging)[service] && staging == old(staging)[service := [i]]
    {
      assert staging[service][0] in staging[service];
      var i :| i in staging[service];
      staging := staging[service := [i]];
    }

    /** Settle one service: affinity, then load, then chance. */
    method ReduceServiceInstances(service: Service, ghost counts: Counts)
      requires service in staging && staging[service] != [] && SameCounts(counts, cache.clientCounts)
      modifies `staging, `servers, cache`clientCounts
      ensures SameCounts(counts, cache.clientCounts)
      ensures staging.Keys == old(staging).Keys && forall v <- staging :: v != service ==> staging[v] == old(staging)[v]
      ensures |staging[service]| == 1 && Best(counts, old(servers), old(staging)[service], staging[service][0])
      ensures servers == old(servers) + Objects(staging[service][0].servers)
    {
      hide SameCounts, MostSharing, LeastClients, Best, Objects;
      ghost var list := staging[service];
      ghost var shared := list;
      if |list| == 1 {
        OnlyOne(counts, servers, list);
      }
      if |staging[service]| != 1 {
        ChooseAffinity(service);
        shared := staging[service];
        if |shared| == 1 {
          assert forall j <- shared :: j == shared[0];
          BestOfBest(counts, servers, list, shared, shared[0]);
        }
        if |staging[service]| != 1 {
          ChooseLeastLoaded(service, counts);
          ghost var least := staging[service];
          forall i | i in least
            ensures Best(counts, servers, list, i)
          {
            LeastIsBest(counts, servers, list, shared, least, i);
          }
          assert least[0] in least;
          if |staging[service]| != 1 {
            ChooseRandom(service);
          }
        }
      }
      AddServers(staging[service][0]);
    }

    /** Every staged service has one instance by now. */
    method FinalizeServiceInstances()
      requires chosen == map[]
      modifies `chosen, `errors
      ensures (forall v <- staging :: |staging[v]| == 1) ==>
                chosen == (map v | v in staging :: staging[v][0]) && errors == old(errors)
    {
      var todo := staging.Keys;
      while todo != {}
        invariant todo <= staging.Keys
        invariant (forall v <- staging :: |staging[v]| == 1) ==>
                    errors == old(errors) && chosen == map v | v in staging.Keys - todo :: staging[v][0]
      {
        var v :| v in todo;
        todo := todo - {v};
        if |staging[v]| < 1 {
          errors := errors + [NoCandidate(v)];
        } else {
          if |staging[v]| > 1 {
            errors := errors + [TooManyCandidates(v)];
          }
          chosen := chosen[v := staging[v][0]];
        }
      }
    }

    /** What is newly bound and what is given up. */
    method AnalyzeChanges()
      requires bound == {} && unbound == {}
      modifies `bound, `unbound
      ensures bound == Bound(original, chosen) && unbound == Unbound(original, chosen)
    {
      var todo := chosen.Keys;
      while todo != {}
        invariant todo <= chosen.Keys
        invariant bound == set v | v in chosen.Keys - todo && !(v in original && original[v] == chosen[v]) :: chosen[v]
        invariant unbound == {}
      {
        var v :| v in todo;
        todo := todo - {v};
        if v !in original || original[v] != chosen[v] {
          bound := bound + {chosen[v]};
        }
      }
      todo := original.Keys;
      while todo != {}
        invariant todo <= original.Keys
        invariant unbound == set v | v in original.Keys - todo && !(v in chosen && chosen[v] == original[v]) :: original[v]
        invariant bound == Bound(original, chosen)
      {
        var v :| v in todo;
        todo := todo - {v};
        if v !in chosen || chosen[v] != original[v] {
          unbound := unbound + {original[v]};
        }
      }
    }

    /** Carry the changes over to the owner's bindings and to the cached counts. */
    method ApplyChanges()
      requires bound !! unbound && multiset(unbound) <= multiset(servicesUsed)
      modifies `servicesUsed, cache`clientCounts
      ensures multiset(servicesUsed) == multiset(old(servicesUsed)) - multiset(unbound) + multiset(bound)
      ensures Moved(old(cache.clientCounts), cache.clientCounts, owner, required, bound, unbound)
    {
      hide Moved, Footprint;
      GiveUpUnbound();
      TakeUpBound(old(cache.clientCounts));
    }

    method GiveUpUnbound()
      requires multiset(unbound) <= multiset(servicesUsed)
      modifies `servicesUsed, cache`clientCounts
      ensures multiset(servicesUsed) == multiset(old(servicesUsed)) - multiset(unbound)
      ensures Moved(old(cache.clientCounts), cache.clientCounts, owner, required, {}, unbound)
    {
      hide Moved, Footprint, CountOf, RemoveFirst, Lacks;
      ghost var used := servicesUsed;
      NothingMoved(cache.clientCounts, owner, required);
      LacksNothing(used);
      var todo := unbound;
      assert unbound - todo == {};
      while todo != {}
        invariant todo <= unbound
        invariant Lacks(servicesUsed, used, unbound - todo)
        invariant Moved(old(cache.clientCounts), cache.clientCounts, owner, required, {}, unbound - todo)
      {
        var i :| i in todo;
        ghost var done := unbound - todo;
        OneRemoved(servicesUsed, used, unbound, done, i);
        servicesUsed := RemoveFirst(servicesUsed, i);
        ghost var counts := cache.clientCounts;
        cache.Unallocate(i, Footprint(owner, required, i));
        OneLess(old(cache.clientCounts), counts, cache.clientCounts, owner, required, done, i);
        todo := todo - {i};
        assert unbound - todo == done + {i};
      }
      assert unbound - todo == unbound;
      LacksMeans(servicesUsed, used, unbound);
    }

    method TakeUpBound(ghost before: Counts)
      requires Moved(before, cache.clientCounts, owner, required, {}, unbound)
      modifies `servicesUsed, cache`clientCounts
      ensures multiset(servicesUsed) == multiset(old(servicesUsed)) + multiset(bound)
      ensures Moved(before, cache.clientCounts, owner, required, bound, unbound)
    {
      hide Moved, Footprint, CountOf;
      ghost var used := multiset(servicesUsed);
      var todo := bound;
      ghost var done: set<Instance> := {};
      while todo != {}
        invariant todo + done == bound && todo !! done
        invariant multiset(servicesUsed) == used + multiset(done)
        invariant Moved(before, cache.clientCounts, owner, required, done, unbound)
      {
        var i :| i in todo;
        OneAdded(servicesUsed, used, done, i);
        servicesUsed := servicesUsed + [i];
        ghost var counts := cache.clientCounts;
        cache.Allocate(i, Footprint(owner, required, i));
        OneMore(before, counts, cache.clientCounts, owner, required, done, unbound, i);
        todo := todo - {i};
        done := done + {i};
      }
      assert done == bound;
    }

    /** Look up what every required service has to choose from. */
    method FindAll()
      requires Valid() && errors == []
      modifies `staging, `shared, `errors
      ensures Valid()
      ensures errors == [] <==> forall v <- required :: cache.Offered(v, key) != []
      ensures errors == [] ==> staging.Keys == old(staging).Keys + (set v | v in required)
      ensures errors == [] ==> forall v <- staging ::
                staging[v] == if v in required then cache.Offered(v, key) else old(staging)[v]
      ensures errors == [] ==> forall v <- required :: v in shared
    {
      hide Valid;
      for n := 0 to |required|
        invariant Valid()
        invariant errors == [] <==> forall v <- required[..n] :: cache.Offered(v, key) != []
        invariant errors == [] ==> staging.Keys == old(staging).Keys + (set v | v in required[..n])
        invariant errors == [] ==> forall v <- staging ::
                    staging[v] == if v in required[..n] then cache.Offered(v, key) else old(staging)[v]
        invariant errors == [] ==> forall v <- required[..n] :: v in shared
      {
        assert required[..n + 1] == required[..n] + [required[n]];
        assert required[n] in required[..n + 1] && forall v <- required[..n] :: v in required[..n + 1];
        ghost var before := errors;
        FindServiceInstances(required[n]);
        assert |errors| >= |before|;
      }
      assert required[..|required|] == required;
    }

    /** Alignment, capacity and past use for one service. */
    method NarrowService(service: Service, ghost s0: Situation)
      requires Valid() && service in staging && service in shared
      requires SameCounts(s0.counts, cache.clientCounts) && s0.(counts := cache.clientCounts) == Now()
      modifies `staging, `shared, `errors, cache
      ensures Valid() && SameCounts(s0.counts, cache.clientCounts)
      ensures staging == old(staging)[service := Narrow(s0, service, old(staging)[service])]
      ensures errors == [] <==> old(errors) == [] && Possible(s0, service, old(staging)[service])
      ensures cache.serviceMaps == old(cache.serviceMaps)[(service, key) := LeftInCache(s0, service, old(staging)[service])]
      ensures old(shared) - {service} <= shared
    {
      hide SameCounts, Free, AlignmentFails, PastUse, Align, Valid;
      ghost var list := staging[service];
      StagedIsCached(service);
      SameStages(s0, Now(), service, list);
      ChooseAligned(service);
      SameFree(s0, Now(), staging[service]);
      ghost var counts := cache.clientCounts;
      ChooseAvailableCapacity(service);
      SameTransitive(s0.counts, counts, cache.clientCounts);
      SameStages(s0, Now(), service, staging[service]);
      ChoosePastUse(service);
    }

    lemma StagedIsCached(service: Service)
      requires Valid() && service in shared
      ensures (service, key) in cache.serviceMaps && cache.serviceMaps[(service, key)] == staging[service]
    {}

    method NarrowAll(ghost s0: Situation)
      requires Valid() && errors == [] && Distinct(required) && forall v <- required :: v in staging && v in shared
      requires SameCounts(s0.counts, cache.clientCounts) && s0.(counts := cache.clientCounts) == Now()
      modifies `staging, `shared, `errors, cache
      ensures Valid() && SameCounts(s0.counts, cache.clientCounts)
      ensures staging.Keys == old(staging).Keys && forall v <- staging ::
                staging[v] == if v in required then Narrow(s0, v, old(staging)[v]) else old(staging)[v]
      ensures errors == [] <==> forall v <- required :: Possible(s0, v, old(staging)[v])
      ensures OfferShrunk(s0, required, key, old(staging), old(cache.serviceMaps), cache.serviceMaps, cache.maps)
    {
      hide SameCounts, Valid, Narrow, Possible, LeftInCache, Distinct, Progress, MappedFor, OfferShrunk;
      ghost var first, cached := staging, cache.serviceMaps;
      forall v | v in required
        ensures (v, key) in cached
      {
        StagedIsCached(v);
      }
      NarrowingStarts(s0, required, key, first, cached);
      for n := 0 to |required|
        invariant Valid() && SameCounts(s0.counts, cache.clientCounts)
        invariant forall v <- required[n..] :: v in shared
        invariant Progress(s0, required, key, n, first, staging, cached, cache.serviceMaps, errors == [])
      {
        assert required[n..] == [required[n]] + required[n + 1..];
        DistinctAround(required, n);
        ghost var list, maps, fine := staging, cache.serviceMaps, errors == [];
        NarrowingNext(s0, required, key, n, first, list, cached, maps, fine);
        NarrowService(required[n], s0);
        NarrowingStep(s0, required, key, n, first, list, cached, maps, fine);
      }
      NarrowingEnds(s0, required, key, first, staging, cached, cache.serviceMaps, cache.maps, errors == []);
    }

    /** Settle the required services one after the other. */
    method ReduceAll(ghost counts: Counts)
      requires Distinct(required) && (forall v <- required :: v in staging) && forall v <- staging :: staging[v] != []
      requires SameCounts(counts, cache.clientCounts)
      modifies `staging, `servers, cache`clientCounts
      ensures SameCounts(counts, cache.clientCounts)
      ensures staging.Keys == old(staging).Keys && forall v <- staging :: staging[v] != []
      ensures forall v <- staging :: if v in required then |staging[v]| == 1 else staging[v] == old(staging)[v]
      ensures Decided(counts, old(servers), required, old(staging), Picks(staging), |required|)
    {
      hide SameCounts, Best, Objects, Decided, FixedAt, Picks, Distinct, Reduced;
      ghost var base, left := servers, staging;
      ReducedStarts(counts, base, required, left);
      for n := 0 to |required|
        invariant SameCounts(counts, cache.clientCounts)
        invariant staging.Keys == left.Keys
        invariant Reduced(counts, base, required, left, staging, servers, n)
      {
        ghost var before, fixed := staging, servers;
        ReducedNext(counts, base, required, left, before, servers, n);
        ReduceServiceInstances(required[n], counts);
        ReducedStep(counts, base, required, left, before, fixed, staging, servers, n);
      }
      ReducedEnds(counts, base, required, left, staging, servers);
    }

    /** What the run starts from, given the cached counts. */
    ghost function Begin(counts: Counts): Situation {
      Situation(owner, required, original, AlignedBy(parents), counts)
    }

    ghost function ListsFrom(cached: Maps): Lists {
      map v | v in required :: MappedFor(cached, cache.maps, v, key)
    }

    /** What a run needs to know before it looks at any service. */
    method Prepare()
      requires Valid() && Started()
      modifies `staging, `aligned, cache`serviceMaps
      ensures Valid() && aligned == AlignedBy(parents)
      ensures staging == if requiredOnly then map[] else map v | v in original :: [original[v]]
      ensures forall v <- required :: cache.Offered(v, key) == MappedFor(old(cache.serviceMaps), cache.maps, v, key)
      ensures SameOffer(cache.serviceMaps, old(cache.serviceMaps), cache.maps)
    {
      hide SameOffer, AlignedBy, MappedFor;
      VerifyInit();
      cache.CacheServiceMaps(required, key);
    }

    /** The first part of a run, up to the second check for errors. */
    method Shortlist()
      requires Valid() && Started() && Distinct(required)
      modifies `staging, `shared, `errors, `aligned, cache
      ensures Valid() && SameCounts(old(cache.clientCounts), cache.clientCounts) && aligned == AlignedBy(parents)
      ensures errors == [] <==> AllHopeful(Begin(old(cache.clientCounts)), ListsFrom(old(cache.serviceMaps)))
      ensures errors == [] ==> staging == Narrowed(Begin(old(cache.clientCounts)), ListsFrom(old(cache.serviceMaps)), requiredOnly)
      ensures errors == [] ==> NoneEmpty(Begin(old(cache.clientCounts)), staging)
      ensures OfferAfter(Begin(old(cache.clientCounts)), key, old(cache.serviceMaps), cache.serviceMaps, cache.maps)
    {
      hide SameCounts, CountOf, Hopeless, Possible, Narrow, MappedFor, AlignedBy, SameOffer, OfferShrunk, OfferAfter, NoneEmpty, AllHopeful, Distinct, Narrowed, Valid;
      ghost var s0, lists, cached := Begin(cache.clientCounts), ListsFrom(cache.serviceMaps), cache.serviceMaps;
      SameItself(s0);
      Prepare();
      ghost var first := staging;
      FindAll();
      ghost var second := staging;
      HopeInParts(s0, lists);
      SomethingMissing(s0, key, cached, cache.serviceMaps, cache.maps);
      if errors == [] {
        ghost var filled := cache.serviceMaps;
        NarrowAll(s0);
        ShrunkAfter(s0, key, second, cached, filled, cache.serviceMaps, cache.maps);
        if errors == [] {
          StagedAsNarrowed(s0, lists, requiredOnly, first, second, staging);
          NarrowedIsNotEmpty(s0, lists, requiredOnly);
        }
      }
    }

    /** The second part: settle every service on one instance. */
    method Settle(ghost s0: Situation, ghost lists: Lists)
      requires Valid() && Distinct(required) && errors == [] && servers == {} && chosen == map[]
      requires s0.required == required && s0.original == original && SameCounts(s0.counts, cache.clientCounts)
      requires staging == Narrowed(s0, lists, requiredOnly) && NoneEmpty(s0, staging)
      requires forall v <- required :: v in staging
      modifies `staging, `servers, `chosen, `errors, cache`clientCounts
      ensures cache.Valid() && errors == [] && SameCounts(s0.counts, cache.clientCounts)
      ensures GoodChoice(s0, lists, requiredOnly, chosen) && ServiceConsistent(chosen)
    {
      hide SameCounts, CountOf, GoodChoice, Best, Decided, FixedAt, Narrow, Settled, Narrowed;
      ghost var left := staging;
      CountServers();
      assert servers == Settled(left);
      ReduceAll(s0.counts);
      ghost var picks := Picks(staging);
      FinalizeServiceInstances();
      assert chosen == picks;
      MakesGoodChoice(s0, lists, requiredOnly, chosen);
      ChosenIsConsistent(s0, lists, requiredOnly, left, chosen);
    }

    lemma HopefulIsServable(cached: Maps, counts: Counts)
      ensures AllHopeful(Begin(counts), ListsFrom(cached)) <==>
              forall v <- required :: Servable(Begin(counts), v, MappedFor(cached, cache.maps, v, key))
    {
      hide Hopeless, MappedFor, AlignedBy, Servable;
      forall v | v in required
        ensures v in ListsFrom(cached)
        ensures !Hopeless(Begin(counts), v, ListsFrom(cached)[v]) <==> Servable(Begin(counts), v, MappedFor(cached, cache.maps, v, key))
      {
        ServableMeaning(Begin(counts), v, ListsFrom(cached)[v]);
      }
    }

    /** Choose an instance for every required service and carry the choice out, or
        change no binding at all. */
    method SetRequired() returns (ok: bool)
      requires Valid() && Started() && Distinct(required)
      modifies this, cache
      ensures cache.Valid()
      ensures ok <==> AllHopeful(Begin(old(cache.clientCounts)), ListsFrom(old(cache.serviceMaps)))
      ensures ok <==> forall v <- required ::
                Servable(Begin(old(cache.clientCounts)), v, MappedFor(old(cache.serviceMaps), cache.maps, v, key))
      ensures ok ==> GoodChoice(Begin(old(cache.clientCounts)), ListsFrom(old(cache.serviceMaps)), requiredOnly, chosen)
      ensures ok ==> ServiceConsistent(chosen) && multiset(servicesUsed) == multiset(chosen.Values)
      ensures ok ==> Moved(old(cache.clientCounts), cache.clientCounts, owner, required,
                           Bound(original, chosen), Unbound(original, chosen))
      ensures ok ==> forall i <- Bound(original, chosen) :: i.maxClients.Some? ==> CountOf(cache.clientCounts, i) <= i.maxClients.value
      ensures !ok ==> servicesUsed == old(servicesUsed) && SameCounts(old(cache.clientCounts), cache.clientCounts)
      ensures OfferAfter(Begin(old(cache.clientCounts)), key, old(cache.serviceMaps), cache.serviceMaps, cache.maps)
    {
      hide OfferAfter, SameCounts, CountOf, AllHopeful, GoodChoice, Moved, Bound, Unbound, Narrowed, NoneEmpty, ListsFrom, AlignedBy;
      hide Servable, MappedFor;
      ghost var s0, lists := Begin(cache.clientCounts), ListsFrom(cache.serviceMaps);
      HopefulIsServable(cache.serviceMaps, cache.clientCounts);
      Shortlist();
      if errors != [] {
        return false;
      }
      RequiredAreStaged(s0, lists, requiredOnly);
      Settle(s0, lists);
      ghost var counts := cache.clientCounts;
      AnalyzeChanges();
      BindingsMatch(original, chosen, multiset(servicesUsed));
      ApplyChanges();
      MovedFromSame(s0.counts, counts, cache.clientCounts, owner, required, bound, unbound);
      RoomForTheBound(s0, lists, requiredOnly, chosen, cache.clientCounts);
      return errors == [];
    }
  }
}
