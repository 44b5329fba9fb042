/** The stages by which a service instance is chosen for a host or a cluster. */
module ServiceChoice {
  import opened Options

  type Service = nat

  /** A server of an instance: bound to a host, a cluster, or known by an alias only. */
  datatype Server = Server(host: Option<nat>, cluster: Option<nat>, alias: Option<nat>)

  datatype ServerObject = HostObject(id: nat) | ClusterObject(id: nat) | AliasObject(id: nat)

  /** An instance with its limit and the number of clients the database has for it. */
  datatype Instance = Instance(id: nat, service: Service, servers: seq<Server>, maxClients: Option<int>, clientCount: int)

  type Counts = map<Instance, int>

  datatype Owner = Host | Cluster(maxHosts: Option<int>) | MetaCluster

  /** What a run knows from the start. */
  datatype Situation = Situation(
    owner: Owner,
    required: seq<Service>,
    original: map<Service, Instance>,
    aligned: map<Service, Option<Instance>>,
    counts: Counts)

  /** The cached number of clients, or the one the database has. */
  function CountOf(counts: Counts, i: Instance): int {
    if i in counts then counts[i] else i.clientCount
  }

  ghost predicate SameCounts(a: Counts, b: Counts) {
    forall i :: CountOf(a, i) == CountOf(b, i)
  }

  function Footprint(owner: Owner, required: seq<Service>, i: Instance): int {
    match owner
    case Host => 1
    case MetaCluster => 0
    case Cluster(maxHosts) => if i.service in required && maxHosts.Some? then maxHosts.value else 0
  }

  /** Having the instance serve the owner would take it over its limit; an instance that
      serves the owner already has counted it. */
  predicate Full(s: Situation, i: Instance) {
    && i.maxClients.Some?
    && CountOf(s.counts, i) + (if IsBound(s, i) then 0 else Footprint(s.owner, s.required, i)) > i.maxClients.value
  }

  predicate IsBound(s: Situation, i: Instance) {
    i.service in s.original && s.original[i.service] == i
  }

  /** The instances of a list that are not full. */
  function Free(s: Situation, list: seq<Instance>): (r: seq<Instance>)
    ensures forall i :: i in r <==> i in list && !Full(s, i)
    ensures |r| <= |list|
  {
    if list == [] then [] else (if Full(s, list[0]) then [] else [list[0]]) + Free(s, list[1..])
  }

  /** The instance has room for the owner: it has no limit, or serves the owner already and
      is not over its limit, or would not be with what the owner adds. A host adds one
      client, a metacluster none, and a cluster its size, for services it requires. */
  ghost predicate RoomFor(s: Situation, i: Instance) {
    i.maxClients == None ||
    if i.service in s.original && s.original[i.service] == i then CountOf(s.counts, i) <= i.maxClients.value
    else match s.owner
      case Host => CountOf(s.counts, i) + 1 <= i.maxClients.value
      case MetaCluster => CountOf(s.counts, i) <= i.maxClients.value
      case Cluster(None) => CountOf(s.counts, i) <= i.maxClients.value
      case Cluster(Some(n)) =>
        if i.service in s.required then CountOf(s.counts, i) + n <= i.maxClients.value else CountOf(s.counts, i) <= i.maxClients.value
  }

  lemma FullMeaning(s: Situation, i: Instance)
    ensures Full(s, i) <==> !RoomFor(s, i)
  {
    hide CountOf;
  }

  predicate AlignmentFails(s: Situation, service: Service, list: seq<Instance>) {
    service in s.aligned && (s.aligned[service].None? || s.aligned[service].value !in list)
  }

  /** The list after alignment; where alignment fails it is left alone. */
  function Align(s: Situation, service: Service, list: seq<Instance>): seq<Instance> {
    if service in s.aligned && !AlignmentFails(s, service, list) then [s.aligned[service].value] else list
  }

  function PastUse(s: Situation, service: Service, list: seq<Instance>): seq<Instance> {
    if |list| > 1 && service in s.original && s.original[service] in list then [s.original[service]] else list
  }

  /** Alignment, capacity and past use, one after the other. */
  function Narrow(s: Situation, service: Service, list: seq<Instance>): seq<Instance> {
    PastUse(s, service, Free(s, Align(s, service, list)))
  }

  /** No instance can be chosen from what the maps offer. */
  predicate Hopeless(s: Situation, service: Service, list: seq<Instance>) {
    list == [] || AlignmentFails(s, service, list) || Free(s, Align(s, service, list)) == []
  }

  function ObjectsOf(server: Server): set<ServerObject> {
    (if server.host.Some? then {HostObject(server.host.value)} else {})
    + (if server.cluster.Some? then {ClusterObject(server.cluster.value)} else {})
    + (if server.alias.Some? && server.host.None? && server.cluster.None? then {AliasObject(server.alias.value)} else {})
  }

  function Objects(servers: seq<Server>): set<ServerObject> {
    if servers == [] then {} else ObjectsOf(servers[0]) + Objects(servers[1..])
  }

  /** How many of the servers fixed so far also back this instance. */
  function Overlap(fixed: set<ServerObject>, i: Instance): nat {
    |fixed * Objects(i.servers)|
  }

  /** Nothing in the list shares more servers with what is fixed, and nothing that
      shares as many has fewer clients. */
  ghost predicate Best(counts: Counts, fixed: set<ServerObject>, list: seq<Instance>, i: Instance) {
    && i in list
    && (forall j <- list :: Overlap(fixed, j) <= Overlap(fixed, i))
    && (forall j <- list :: Overlap(fixed, j) == Overlap(fixed, i) ==> CountOf(counts, i) <= CountOf(counts, j))
  }

  /** The servers fixed when service number `k` is decided: those of the services that
      were settled before, and of the services decided first. */
  ghost function FixedAt(base: set<ServerObject>, required: seq<Service>, chosen: map<Service, Instance>, k: nat): set<ServerObject>
    requires k <= |required| && forall s <- required :: s in chosen
  {
    if k == 0 then base
    else FixedAt(base, required, chosen, k - 1) + Objects(chosen[required[k - 1]].servers)
  }

  ghost predicate ServiceConsistent(m: map<Service, Instance>) {
    forall s <- m :: m[s].service == s
  }

  /** Some instance of the list has room, and is the one the parents prescribe if they do. */
  ghost predicate Servable(s: Situation, service: Service, list: seq<Instance>) {
    exists i :: i in list && RoomFor(s, i) && (service in s.aligned ==> s.aligned[service] == Some(i))
  }

  /** A service can be given an instance exactly when there is one that fits: none with
      room is refused, and nothing else is taken. */
  lemma ServableMeaning(s: Situation, service: Service, list: seq<Instance>)
    ensures !Hopeless(s, service, list) <==> Servable(s, service, list)
  {
    hide Full, RoomFor;
    var staged := Align(s, service, list);
    forall i
      ensures Full(s, i) <==> !RoomFor(s, i)
    {
      FullMeaning(s, i);
    }
    var free := Free(s, staged);
    if !Hopeless(s, service, list) {
      assert free[0] in free;
    }
    if Servable(s, service, list) {
      var i :| i in list && RoomFor(s, i) && (service in s.aligned ==> s.aligned[service] == Some(i));
      assert i in staged && i in free;
    }
  }

  /** A new host is given a service that some mapped instance has a place left for. */
  lemma HostWithRoomIsServed(s: Situation, service: Service, list: seq<Instance>, i: Instance)
    requires s.owner == Host && service !in s.aligned && i in list && !(i.service in s.original && s.original[i.service] == i)
    requires i.maxClients == None || CountOf(s.counts, i) + 1 <= i.maxClients.value
    ensures !Hopeless(s, service, list)
  {
    hide CountOf;
    assert RoomFor(s, i);
    ServableMeaning(s, service, list);
  }

  /** The server stands for this host, this cluster, or, having neither, this alias. */
  ghost predicate Backs(server: Server, o: ServerObject) {
    match o
    case HostObject(h) => server.host == Some(h)
    case ClusterObject(c) => server.cluster == Some(c)
    case AliasObject(a) => server.alias == Some(a) && server.host == None && server.cluster == None
  }

  lemma {:induction false} ObjectsMeaning(servers: seq<Server>)
    ensures forall o :: o in Objects(servers) <==> exists srv :: srv in servers && Backs(srv, o)
  {
    if servers != [] {
      ObjectsMeaning(servers[1..]);
      assert servers == [servers[0]] + servers[1..];
      forall o
        ensures o in ObjectsOf(servers[0]) <==> Backs(servers[0], o)
      {}
    }
  }

  /** The overlap is the number of objects that are fixed and back the instance. */
  lemma OverlapMeaning(fixed: set<ServerObject>, i: Instance) returns (common: set<ServerObject>)
    ensures |common| == Overlap(fixed, i)
    ensures forall o :: o in common <==> o in fixed && exists srv :: srv in i.servers && Backs(srv, o)
  {
    ObjectsMeaning(i.servers);
    common := fixed * Objects(i.servers);
  }

  /** The servers fixed when service number `k` is decided are those of the settled
      services and of the ones decided before. */
  lemma {:induction false} FixedMeaning(base: set<ServerObject>, required: seq<Service>, chosen: map<Service, Instance>, k: nat)
    requires k <= |required| && forall s <- required :: s in chosen
    ensures forall o :: o in FixedAt(base, required, chosen, k) <==>
              o in base || exists j :: 0 <= j < k && o in Objects(chosen[required[j]].servers)
  {
    if k > 0 {
      FixedMeaning(base, required, chosen, k - 1);
    }
  }

  /** What is newly bound, and what is given up. */
  function Bound(original: map<Service, Instance>, chosen: map<Service, Instance>): set<Instance> {
    set s | s in chosen && !(s in original && original[s] == chosen[s]) :: chosen[s]
  }

  function Unbound(original: map<Service, Instance>, chosen: map<Service, Instance>): set<Instance> {
    set s | s in original && !(s in chosen && chosen[s] == original[s]) :: original[s]
  }

  lemma BoundAndUnboundDisjoint(original: map<Service, Instance>, chosen: map<Service, Instance>)
    requires ServiceConsistent(original) && ServiceConsistent(chosen)
    ensures Bound(original, chosen) !! Unbound(original, chosen)
    ensures original.Values - Unbound(original, chosen) + Bound(original, chosen) == chosen.Values
    ensures Unbound(original, chosen) <= original.Values && Bound(original, chosen) !! original.Values
  {
    forall i | i in original.Values && i !in Unbound(original, chosen)
      ensures i in chosen.Values
    {
      var s :| s in original && original[s] == i;
      assert s in chosen && chosen[s] == i;
    }
    forall i | i in chosen.Values && i !in Bound(original, chosen)
      ensures i in original.Values && i !in Unbound(original, chosen)
    {
      var s :| s in chosen && chosen[s] == i;
      assert s in original && original[s] == i;
    }
  }

  /** If the existing binding of a service survives alignment and capacity, it is the
      only one left; otherwise what is left is what is free, and is not the old one. */
  lemma NarrowKeepsPastUse(s: Situation, service: Service, list: seq<Instance>)
    requires !Hopeless(s, service, list)
    ensures var free, left := Free(s, Align(s, service, list)), Narrow(s, service, list);
            && left != [] && (forall i <- left :: i in free && i in list && !Full(s, i))
            && (service in s.original && s.original[service] in free ==> forall i <- left :: i == s.original[service])
            && (!(service in s.original && s.original[service] in free) ==> left == free)
            && (service in s.aligned ==> s.aligned[service].Some? && forall i <- left :: i == s.aligned[service].value)
  {
    var free := Free(s, Align(s, service, list));
    if service in s.original && s.original[service] in free && |free| == 1 {
      assert free == [free[0]];
    }
    assert service in s.aligned ==> Align(s, service, list) == [s.aligned[service].value];
  }

  /** A cluster or metacluster whose services its members have to follow. */
  datatype Parent = Parent(servicesUsed: seq<Instance>, required: seq<Service>)

  function AlignToUsed(m: map<Service, Option<Instance>>, used: seq<Instance>): map<Service, Option<Instance>>
    decreases |used|
  {
    if used == [] then m else AlignToUsed(m[used[0].service := Some(used[0])], used[1..])
  }

  function AlignToRequired(m: map<Service, Option<Instance>>, required: seq<Service>): map<Service, Option<Instance>>
    decreases |required|
  {
    if required == [] then m
    else AlignToRequired(if required[0] in m then m else m[required[0] := None], required[1..])
  }

  /** The instances that parents prescribe, later parents first; None where a parent
      requires a service and no parent has an instance for it. */
  function AlignedBy(parents: seq<Parent>): map<Service, Option<Instance>> {
    if parents == [] then map[] else
      var last := parents[|parents| - 1];
      AlignToRequired(AlignToUsed(AlignedBy(parents[..|parents| - 1]), last.servicesUsed), last.required)
  }

  lemma {:induction false} UsedMeaning(m: map<Service, Option<Instance>>, used: seq<Instance>, s: Service)
    ensures s in AlignToUsed(m, used) <==> s in m || exists i :: i in used && i.service == s
    ensures s in AlignToUsed(m, used) ==>
              if exists i :: i in used && i.service == s
              then AlignToUsed(m, used)[s].Some? && AlignToUsed(m, used)[s].value in used
                   && AlignToUsed(m, used)[s].value.service == s
              else s in m && AlignToUsed(m, used)[s] == m[s]
    decreases |used|
  {
    if used != [] {
      UsedMeaning(m[used[0].service := Some(used[0])], used[1..], s);
      assert used == [used[0]] + used[1..];
    }
  }

  lemma {:induction false} RequiredMeaning(m: map<Service, Option<Instance>>, required: seq<Service>, s: Service)
    ensures s in AlignToRequired(m, required) <==> s in m || s in required
    ensures s in AlignToRequired(m, required) ==> AlignToRequired(m, required)[s] == if s in m then m[s] else None
    decreases |required|
  {
    if required != [] {
      RequiredMeaning(if required[0] in m then m else m[required[0] := None], required[1..], s);
    }
  }

  /** A service is aligned when some parent uses or requires it, and to an instance
      exactly when some parent uses one, which then is one a parent uses. */
  lemma {:induction false} AlignmentMeaning(parents: seq<Parent>, s: Service)
    ensures s in AlignedBy(parents) <==> exists p :: p in parents && (Uses(p, s) || s in p.required)
    ensures s in AlignedBy(parents) ==>
              (AlignedBy(parents)[s].Some? <==> exists p :: p in parents && Uses(p, s))
    ensures s in AlignedBy(parents) && AlignedBy(parents)[s].Some? ==>
              var i := AlignedBy(parents)[s].value;
              i.service == s && exists p :: p in parents && i in p.servicesUsed
    decreases |parents|
  {
    if parents != [] {
      var n := |parents| - 1;
      var front, last := AlignedBy(parents[..n]), parents[n];
      AlignmentMeaning(parents[..n], s);
      UsedMeaning(front, last.servicesUsed, s);
      RequiredMeaning(AlignToUsed(front, last.servicesUsed), last.required, s);
      assert parents == parents[..n] + [last];
      assert forall p :: p in parents <==> p in parents[..n] || p == last;
      assert (exists p :: p in parents && Uses(p, s)) <==> (exists p :: p in parents[..n] && Uses(p, s)) || Uses(last, s);
      assert (exists i :: i in last.servicesUsed && i.service == s) <==> Uses(last, s);
    }
  }

  lemma {:induction false} LastUsedWins(m: map<Service, Option<Instance>>, used: seq<Instance>, j: nat)
    requires j < |used| && forall i :: j < i < |used| ==> used[i].service != used[j].service
    ensures used[j].service in AlignToUsed(m, used) && AlignToUsed(m, used)[used[j].service] == Some(used[j])
    decreases |used|
  {
    if j == 0 {
      UsedMeaning(m[used[0].service := Some(used[0])], used[1..], used[0].service);
    } else {
      LastUsedWins(m[used[0].service := Some(used[0])], used[1..], j - 1);
    }
  }

  /** Of several parents that use an instance of a service, the last one decides, and of
      several instances it uses, again the last one. */
  lemma {:induction false} LatestParentWins(parents: seq<Parent>, n: nat, j: nat)
    requires n < |parents| && j < |parents[n].servicesUsed|
    requires forall i :: j < i < |parents[n].servicesUsed| ==> parents[n].servicesUsed[i].service != parents[n].servicesUsed[j].service
    requires forall m :: n < m < |parents| ==> !Uses(parents[m], parents[n].servicesUsed[j].service)
    ensures var i := parents[n].servicesUsed[j];
            i.service in AlignedBy(parents) && AlignedBy(parents)[i.service] == Some(i)
    decreases |parents|
  {
    var s := parents[n].servicesUsed[j].service;
    var k := |parents| - 1;
    var front, last := AlignedBy(parents[..k]), parents[k];
    if n == k {
      LastUsedWins(front, last.servicesUsed, j);
    } else {
      LatestParentWins(parents[..k], n, j);
      UsedMeaning(front, last.servicesUsed, s);
    }
    RequiredMeaning(AlignToUsed(front, last.servicesUsed), last.required, s);
  }

  ghost predicate Uses(p: Parent, s: Service) {
    exists i :: i in p.servicesUsed && i.service == s
  }

  // One whole run.

  type Lists = map<Service, seq<Instance>>

  /** What is staged when every required service has been narrowed down. */
  function Narrowed(s: Situation, lists: Lists, requiredOnly: bool): Lists {
    map v | v in (set x | x in s.required && x in lists) + (if requiredOnly then {} else s.original.Keys) ::
      if v in s.required && v in lists then Narrow(s, v, lists[v])
      else if v in s.original then [s.original[v]] else []
  }

  /** The servers of all services for which one instance is left. */
  ghost function Settled(staging: Lists): set<ServerObject> {
    set v, o | v in staging && |staging[v]| == 1 && o in Objects(staging[v][0].servers) :: o
  }

  lemma SettledMeaning(staging: Lists, o: ServerObject)
    ensures o in Settled(staging) <==>
            exists v, srv :: v in staging && |staging[v]| == 1 && srv in staging[v][0].servers && Backs(srv, o)
  {
    hide Objects, Backs;
    forall v | v in staging && |staging[v]| == 1
      ensures o in Objects(staging[v][0].servers) <==> exists srv :: srv in staging[v][0].servers && Backs(srv, o)
    {
      ObjectsMeaning(staging[v][0].servers);
    }
  }

  ghost predicate GoodChoice(s: Situation, lists: Lists, requiredOnly: bool, chosen: map<Service, Instance>) {
    var left := Narrowed(s, lists, requiredOnly);
    && chosen.Keys == left.Keys
    && (forall v <- s.required :: v in left)
    && (forall v <- chosen :: v !in s.required ==> v in s.original && chosen[v] == s.original[v])
    && (forall k :: 0 <= k < |s.required| ==>
          Best(s.counts, FixedAt(Settled(left), s.required, chosen, k), left[s.required[k]], chosen[s.required[k]]))
  }

  /** A run chooses for the required services, and for the others that were bound unless
      only required ones are wanted. */
  lemma ChosenServices(s: Situation, lists: Lists, requiredOnly: bool, chosen: map<Service, Instance>)
    requires GoodChoice(s, lists, requiredOnly, chosen) && forall v <- s.required :: v in lists
    ensures forall v :: v in chosen <==> v in s.required || (!requiredOnly && v in s.original)
    ensures forall v :: v in chosen && v !in s.required ==> chosen[v] == s.original[v]
  {
    hide Best, FixedAt, Narrow, Settled;
  }

  /** What a finished run promises for every required service. */
  lemma ChoiceMeaning(s: Situation, lists: Lists, requiredOnly: bool, chosen: map<Service, Instance>, k: nat)
    requires k < |s.required| && forall v <- s.required :: v in lists
    requires GoodChoice(s, lists, requiredOnly, chosen)
    requires !Hopeless(s, s.required[k], lists[s.required[k]])
    ensures var v := s.required[k];
            var free := Free(s, Align(s, v, lists[v]));
            var fixed := FixedAt(Settled(Narrowed(s, lists, requiredOnly)), s.required, chosen, k);
            && chosen[v] in lists[v] && !Full(s, chosen[v])
            && (v in s.aligned ==> s.aligned[v] == Some(chosen[v]))
            && (if v in s.original && s.original[v] in free then chosen[v] == s.original[v]
                else Best(s.counts, fixed, free, chosen[v]))
            && (!(v in s.original && s.original[v] in free) ==> forall j <- free ::
                  Overlap(fixed, j) <= Overlap(fixed, chosen[v]) &&
                  (Overlap(fixed, j) == Overlap(fixed, chosen[v]) ==> CountOf(s.counts, chosen[v]) <= CountOf(s.counts, j)))
  {
    var v := s.required[k];
    GoodAt(s, lists, requiredOnly, chosen, k);
    NarrowKeepsPastUse(s, v, lists[v]);
    hide Overlap, CountOf, FixedAt, Narrowed, Settled, GoodChoice, Narrow, Hopeless, Free, Full, Align;
  }

  lemma GoodAt(s: Situation, lists: Lists, requiredOnly: bool, chosen: map<Service, Instance>, k: nat)
    requires k < |s.required| && forall v <- s.required :: v in lists
    requires GoodChoice(s, lists, requiredOnly, chosen)
    ensures (forall v <- s.required :: v in chosen)
    ensures var v := s.required[k];
            Best(s.counts, FixedAt(Settled(Narrowed(s, lists, requiredOnly)), s.required, chosen, k), Narrow(s, v, lists[v]), chosen[v])
  {
    hide Best, FixedAt, Narrow, Settled;
    assert s.required[k] in s.required;
  }
}
