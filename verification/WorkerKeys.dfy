/** The keys the broker's commands use, and exactly which of them exclude each other. */
module WorkerKeys {
  import opened LockKeys
  import opened Options

  /** A request for a key. An absent constructor argument is the empty string
      or None, whichever the source would find false. */
  datatype Request =
    | NoLock
    | Compile(domain: string, profile: string)
    | Plenary(lockExclusive: bool, items: PlenaryItems)
    | Sync(data: string)

  datatype PlenaryItems = PlenaryItems(
    personality: Option<string>, service: Option<string>, clusterMember: Option<string>,
    networkDevice: Option<string>, virtualSwitch: Option<string>, network: Option<string>)
  {
    predicate Names(name: string, item: string) {
      || (name == "personality" && personality == Some(item))
      || (name == "service" && service == Some(item))
      || (name == "cluster_member" && clusterMember == Some(item))
      || (name == "network_device" && networkDevice == Some(item))
      || (name == "virtual_switch" && virtualSwitch == Some(item))
      || (name == "network" && network == Some(item))
    }
  }

  predicate IsGlobal(r: Request) {
    r.Compile? && r.profile == "" && r.domain == ""
  }

  predicate WantsExclusive(r: Request, name: string, item: string) {
    match r
    case NoLock => false
    case Compile(domain, profile) =>
      if profile != "" then name == "profile" && item == profile
      else if domain != "" then name == "domain" && item == domain
      else name == "misc" && item == "compile"
    case Plenary(lockExclusive, items) => lockExclusive && items.Names(name, item)
    case Sync(data) => name == "sync" && item == data
  }

  predicate WantsShared(r: Request, name: string, item: string) {
    match r
    case NoLock => false
    case Compile(domain, profile) =>
      || (profile != "" && domain != "" && name == "domain" && item == domain)
      || (!IsGlobal(r) && name == "misc" && item == "compile")
    case Plenary(lockExclusive, items) =>
      (!lockExclusive && items.Names(name, item)) || (name == "misc" && item == "compile")
    case Sync(_) => false
  }

  ghost predicate Serves(fp: Footprint, r: Request) {
    && (forall name, item :: Holds(fp.exclusive, name, item) <==> WantsExclusive(r, name, item))
    && (forall name, item :: Holds(fp.shared, name, item) <==> WantsShared(r, name, item))
  }

  method NoLockKey() returns (key: LockKey)
    ensures fresh(key) && key.state == Initialized && Serves(key.Print(), NoLock)
  {
    key := new LockKey();
    key.Transition(Initialized);
  }

  /** Fails exactly when a profile is given without the domain it must be locked with. */
  method CompileKey(domain: string, profile: string, forceDomain: bool) returns (key: Option<LockKey>)
    ensures key.None? <==> profile != "" && domain == "" && forceDomain
    ensures key.Some? ==>
              fresh(key.value) && key.value.state == Initialized && Serves(key.value.Print(), Compile(domain, profile))
  {
    var k := new LockKey();
    if profile != "" {
      if domain != "" {
        k.AddShared("domain", domain);
      } else if forceDomain {
        return None;
      }
      k.AddShared("misc", "compile");
      k.AddExclusive("profile", profile);
    } else if domain != "" {
      k.AddShared("misc", "compile");
      k.AddExclusive("domain", domain);
    } else {
      k.AddExclusive("misc", "compile");
    }
    k.Transition(Initialized);
    key := Some(k);
  }

  method PlenaryKey(items: PlenaryItems, lockExclusive: bool) returns (key: LockKey)
    ensures fresh(key) && key.state == Initialized && Serves(key.Print(), Plenary(lockExclusive, items))
  {
    key := new LockKey();
    AddTo(key, lockExclusive, "personality", items.personality);
    AddTo(key, lockExclusive, "service", items.service);
    AddTo(key, lockExclusive, "cluster_member", items.clusterMember);
    AddTo(key, lockExclusive, "network_device", items.networkDevice);
    AddTo(key, lockExclusive, "virtual_switch", items.virtualSwitch);
    AddTo(key, lockExclusive, "network", items.network);
    key.AddShared("misc", "compile");
    key.Transition(Initialized);
  }

  method AddTo(key: LockKey, lockExclusive: bool, name: string, item: Option<string>)
    modifies key`exclusive, key`shared
    ensures forall n, i :: Holds(key.exclusive, n, i) <==>
              Holds(old(key.exclusive), n, i) || (lockExclusive && n == name && item == Some(i))
    ensures forall n, i :: Holds(key.shared, n, i) <==>
              Holds(old(key.shared), n, i) || (!lockExclusive && n == name && item == Some(i))
  {
    if item.Some? {
      if lockExclusive {
        key.AddExclusive(name, item.value);
      } else {
        key.AddShared(name, item.value);
      }
    }
  }

  method SyncKey(data: string) returns (key: LockKey)
    ensures fresh(key) && key.state == Initialized && Serves(key.Print(), Sync(data))
  {
    key := new LockKey();
    key.AddExclusive("sync", data);
    key.Transition(Initialized);
  }

  /** Two requests for plenary keys name the same item of one kind. */
  predicate ShareAnItem(a: PlenaryItems, b: PlenaryItems) {
    || (a.personality.Some? && a.personality == b.personality)
    || (a.service.Some? && a.service == b.service)
    || (a.clusterMember.Some? && a.clusterMember == b.clusterMember)
    || (a.networkDevice.Some? && a.networkDevice == b.networkDevice)
    || (a.virtualSwitch.Some? && a.virtualSwitch == b.virtualSwitch)
    || (a.network.Some? && a.network == b.network)
  }

  /** Which requests exclude each other, written down directly. */
  ghost predicate Exclude(a: Request, b: Request) {
    match (a, b)
    case (Compile(d1, p1), Compile(d2, p2)) =>
      if IsGlobal(a) || IsGlobal(b) then true
      else if p1 != "" && p2 != "" then p1 == p2
      else d1 == d2
    case (Compile(_, _), Plenary(_, _)) => IsGlobal(a)
    case (Plenary(_, _), Compile(_, _)) => IsGlobal(b)
    case (Plenary(e1, i1), Plenary(e2, i2)) =>
      (e1 || e2) && ShareAnItem(i1, i2)
    case (Sync(d1), Sync(d2)) => d1 == d2
    case (_, _) => false
  }

  lemma PlenaryClash(a: Request, b: Request, fa: Footprint, fb: Footprint)
    requires a.Plenary? && b.Plenary? && Serves(fa, a) && Serves(fb, b)
    ensures Conflicts(fa, fb) <==> (a.lockExclusive || b.lockExclusive) && ShareAnItem(a.items, b.items)
  {
    if (a.lockExclusive || b.lockExclusive) && ShareAnItem(a.items, b.items) {
      var i, j := a.items, b.items;
      var name, item :=
        if i.personality.Some? && i.personality == j.personality then "personality" else
        if i.service.Some? && i.service == j.service then "service" else
        if i.clusterMember.Some? && i.clusterMember == j.clusterMember then "cluster_member" else
        if i.networkDevice.Some? && i.networkDevice == j.networkDevice then "network_device" else
        if i.virtualSwitch.Some? && i.virtualSwitch == j.virtualSwitch then "virtual_switch" else "network",
        if i.personality.Some? && i.personality == j.personality then i.personality.value else
        if i.service.Some? && i.service == j.service then i.service.value else
        if i.clusterMember.Some? && i.clusterMember == j.clusterMember then i.clusterMember.value else
        if i.networkDevice.Some? && i.networkDevice == j.networkDevice then i.networkDevice.value else
        if i.virtualSwitch.Some? && i.virtualSwitch == j.virtualSwitch then i.virtualSwitch.value else i.network.value;
      assert i.Names(name, item) && j.Names(name, item);
      assert ClashAt(fa, fb, name, item);
    } else if Conflicts(fa, fb) {
      var name, item :| ClashAt(fa, fb, name, item);
      ClashIsWanted(a, b, fa, fb, name, item);
      assert false;
    }
  }

  lemma ClashIsWanted(a: Request, b: Request, fa: Footprint, fb: Footprint, name: string, item: string)
    requires a.Plenary? && b.Plenary? && Serves(fa, a) && Serves(fb, b) && ClashAt(fa, fb, name, item)
    ensures (a.lockExclusive || b.lockExclusive) && ShareAnItem(a.items, b.items)
  {
    assert (a.lockExclusive || b.lockExclusive) && a.items.Names(name, item) && b.items.Names(name, item);
  }

  /** The keys conflict exactly as that table says: two profile locks only on the
      same profile, a domain lock with the profiles locked under that domain,
      plenary locks with each other when one of them is exclusive, and the global
      compile lock with every compile and plenary lock. */
  lemma ConflictTable(a: Request, b: Request, fa: Footprint, fb: Footprint)
    requires Serves(fa, a) && Serves(fb, b)
    ensures Conflicts(fa, fb) <==> Exclude(a, b)
  {
    forall name, item
      ensures ClashAt(fa, fb, name, item) <==>
              || (WantsExclusive(a, name, item) && (WantsExclusive(b, name, item) || WantsShared(b, name, item)))
              || (WantsShared(a, name, item) && WantsExclusive(b, name, item))
    {}
    match (a, b)
    case (Compile(d1, p1), Compile(d2, p2)) =>
      assert ClashAt(fa, fb, "misc", "compile") || ClashAt(fa, fb, "profile", p1) || ClashAt(fa, fb, "domain", d1) <==>
        Conflicts(fa, fb);
    case (Compile(_, _), Plenary(_, _)) => assert ClashAt(fa, fb, "misc", "compile") <==> IsGlobal(a);
    case (Plenary(_, _), Compile(_, _)) => assert ClashAt(fa, fb, "misc", "compile") <==> IsGlobal(b);
    case (Plenary(e1, i1), Plenary(e2, i2)) =>
      PlenaryClash(a, b, fa, fb);
    case (Sync(d1), Sync(d2)) => assert ClashAt(fa, fb, "sync", d1) <==> d1 == d2;
    case (_, _) =>
  }

  /** However compile and plenary keys are merged, the result keeps out the
      global compile lock. */
  lemma MergesExcludeGlobalCompile(rs: seq<Request>, parts: seq<Footprint>, m: Footprint, global: Footprint)
    requires rs != [] && |parts| == |rs|
    requires forall k :: 0 <= k < |rs| ==> (rs[k].Compile? || rs[k].Plenary?) && Serves(parts[k], rs[k])
    requires IsMerge(m, parts) && Serves(global, Compile("", ""))
    ensures Conflicts(m, global)
  {
    ConflictTable(rs[0], Compile("", ""), parts[0], global);
    MergeConflicts(m, parts, global);
  }
}
