/** The features of a device and of its interfaces, collected link by link or all at once. */
module Features {
  import opened Options

  datatype Feature = HostFeature(id: nat) | HardwareFeature(id: nat) | InterfaceFeature(id: nat)

  type Model = nat

  /** A binding of a feature to a personality stage or to its archetype. */
  datatype Link = Link(feature: Feature, model: Option<Model>, interfaceName: string)

  datatype Interface = Interface(id: nat, name: string, model: Option<Model>)

  /** A link without a model or without an interface name does not care about it. */
  predicate Covers(link: Link, i: Interface) {
    (link.interfaceName == "" || link.interfaceName == i.name) && (link.model.None? || link.model == i.model)
  }

  function OnHardware(links: seq<Link>, model: Option<Model>): set<Feature> {
    set l | l in links && l.feature.HardwareFeature? && l.model == model :: l.feature
  }

  function OnInterface(links: seq<Link>, i: Interface): set<Feature> {
    set l | l in links && l.feature.InterfaceFeature? && Covers(l, i) :: l.feature
  }

  method HardwareFeatures(links: seq<Link>, model: Option<Model>) returns (features: set<Feature>)
    ensures features == OnHardware(links, model)
    ensures forall f :: f in features <==> exists l :: l in links && l.feature == f && f.HardwareFeature? && l.model == model
  {
    features := {};
    for n := 0 to |links|
      invariant features == OnHardware(links[..n], model)
    {
      OneMoreLink(links, n);
      var link := links[n];
      if !link.feature.HardwareFeature? {
        continue;
      }
      if link.model != model {
        continue;
      }
      features := features + {link.feature};
    }
    assert links[..|links|] == links;
  }

  /** The link binds the feature, to this name or to any, and to this model or to any. */
  predicate IsFor(l: Link, f: Feature, name: string, model: Option<Model>) {
    l.feature == f && f.InterfaceFeature? && (l.interfaceName == "" || l.interfaceName == name) && (l.model == None || l.model == model)
  }

  method InterfaceFeatures(links: seq<Link>, i: Interface) returns (features: set<Feature>)
    ensures features == OnInterface(links, i)
    ensures forall f :: f in features <==> (exists l :: l in links && IsFor(l, f, i.name, i.model))
  {
    features := {};
    for n := 0 to |links|
      invariant features == OnInterface(links[..n], i)
    {
      OneMoreLink(links, n);
      var link := links[n];
      if !link.feature.InterfaceFeature? {
        continue;
      }
      if link.interfaceName != "" && link.interfaceName != i.name {
        continue;
      }
      if link.model.Some? && link.model != i.model {
        continue;
      }
      features := features + {link.feature};
    }
    assert links[..|links|] == links;
  }

  /** The map has exactly the interfaces that have features, each with all of them. */
  ghost predicate Collected(links: seq<Link>, interfaces: seq<Interface>, m: map<Interface, set<Feature>>) {
    forall i :: (i in m <==> i in interfaces && OnInterface(links, i) != {}) && (i in m ==> m[i] == OnInterface(links, i))
  }

  /** Both at once, enumerating the links only one time. */
  method NonhostFeatures(links: seq<Link>, model: Option<Model>, interfaces: seq<Interface>)
    returns (hw: set<Feature>, onInterfaces: map<Interface, set<Feature>>)
    ensures hw == OnHardware(links, model) && Collected(links, interfaces, onInterfaces)
  {
    hide OnHardware, OnInterface, Collected;
    hw, onInterfaces := {}, map[];
    NoLinks(model, interfaces);
    assert links[..0] == [];
    for n := 0 to |links|
      invariant hw == OnHardware(links[..n], model) && Collected(links[..n], interfaces, onInterfaces)
    {
      OneMoreLink(links, n);
      var link := links[n];
      match link.feature
      case HardwareFeature(_) =>
        NotForInterfaces(links, n, interfaces, onInterfaces);
        if link.model == model {
          hw := hw + {link.feature};
        }
      case InterfaceFeature(_) =>
        onInterfaces := AddToInterfaces(links, link, n, interfaces, onInterfaces);
      case HostFeature(_) =>
        NotForInterfaces(links, n, interfaces, onInterfaces);
    }
    assert links[..|links|] == links;
  }

  /** One link for every interface it covers. */
  method AddToInterfaces(ghost links: seq<Link>, link: Link, ghost n: nat, interfaces: seq<Interface>, m: map<Interface, set<Feature>>)
    returns (r: map<Interface, set<Feature>>)
    requires n < |links| && links[n] == link && link.feature.InterfaceFeature? && Collected(links[..n], interfaces, m)
    ensures Collected(links[..n + 1], interfaces, r)
  {
    hide Half, Collected, Covers;
    r := m;
    HalfStarts(links, n, interfaces, m);
    for k := 0 to |interfaces|
      invariant Half(links, n, interfaces, k, r)
    {
      var i := interfaces[k];
      HalfStep(links, n, interfaces, k, r);
      if link.model.Some? && link.model != i.model {
        CoversMeans(link, i);
        continue;
      }
      if link.interfaceName != "" && link.interfaceName != i.name {
        CoversMeans(link, i);
        continue;
      }
      CoversMeans(link, i);
      r := r[i := (if i in r then r[i] else {}) + {link.feature}];
    }
    HalfEnds(links, n, interfaces, r);
  }

  lemma CoversMeans(link: Link, i: Interface)
    ensures !Covers(link, i) <==> (link.model.Some? && link.model != i.model) || (link.interfaceName != "" && link.interfaceName != i.name)
  {}

  /** What an interface has when the new link has been seen by those in `done` only. */
  ghost function Now(links: seq<Link>, n: nat, done: seq<Interface>, i: Interface): set<Feature>
    requires n < |links|
  {
    OnInterface(if i in done then links[..n + 1] else links[..n], i)
  }

  ghost predicate Half(links: seq<Link>, n: nat, interfaces: seq<Interface>, k: nat, m: map<Interface, set<Feature>>)
    requires n < |links| && k <= |interfaces|
  {
    forall i :: (i in m <==> i in interfaces && Now(links, n, interfaces[..k], i) != {})
                && (i in m ==> m[i] == Now(links, n, interfaces[..k], i))
  }

  lemma HalfStarts(links: seq<Link>, n: nat, interfaces: seq<Interface>, m: map<Interface, set<Feature>>)
    requires n < |links| && Collected(links[..n], interfaces, m)
    ensures Half(links, n, interfaces, 0, m)
  {
    hide OnInterface;
  }

  lemma HalfStep(links: seq<Link>, n: nat, interfaces: seq<Interface>, k: nat, m: map<Interface, set<Feature>>)
    requires n < |links| && links[n].feature.InterfaceFeature? && k < |interfaces| && Half(links, n, interfaces, k, m)
    ensures var i, more := interfaces[k], {links[n].feature};
            Half(links, n, interfaces, k + 1, if Covers(links[n], i) then m[i := (if i in m then m[i] else {}) + more] else m)
  {
    hide OnInterface, OnHardware, Covers;
    assert interfaces[..k + 1] == interfaces[..k] + [interfaces[k]];
    OneMoreLink(links, n);
  }

  lemma HalfEnds(links: seq<Link>, n: nat, interfaces: seq<Interface>, m: map<Interface, set<Feature>>)
    requires n < |links| && Half(links, n, interfaces, |interfaces|, m)
    ensures Collected(links[..n + 1], interfaces, m)
  {
    hide OnInterface;
    assert interfaces[..|interfaces|] == interfaces;
  }

  lemma OneMoreLink(links: seq<Link>, n: nat)
    requires n < |links|
    ensures forall model :: OnHardware(links[..n + 1], model) ==
              OnHardware(links[..n], model) +
              if links[n].feature.HardwareFeature? && links[n].model == model then {links[n].feature} else {}
    ensures forall i :: OnInterface(links[..n + 1], i) ==
              OnInterface(links[..n], i) +
              if links[n].feature.InterfaceFeature? && Covers(links[n], i) then {links[n].feature} else {}
  {
    assert links[..n + 1] == links[..n] + [links[n]];
  }

  lemma NoLinks(model: Option<Model>, interfaces: seq<Interface>)
    ensures OnHardware([], model) == {} && Collected([], interfaces, map[])
  {}

  lemma NotForInterfaces(links: seq<Link>, n: nat, interfaces: seq<Interface>, m: map<Interface, set<Feature>>)
    requires n < |links| && !links[n].feature.InterfaceFeature? && Collected(links[..n], interfaces, m)
    ensures Collected(links[..n + 1], interfaces, m)
  {
    OneMoreLink(links, n);
    hide OnInterface, OnHardware;
  }
}
