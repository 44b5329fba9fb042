/** Lock keys: which items a request shares, which it wants for itself, and
    when two requests are in each other's way. */
module LockKeys {
  /** Item names by namespace, as the dictionaries of sets a key carries. */
  type Items = map<string, set<string>>

  datatype Footprint = Footprint(exclusive: Items, shared: Items)

  datatype KeyState = Fresh | Initialized | Acquiring | Acquired | Releasing | Released

  predicate Holds(items: Items, name: string, item: string) {
    name in items && item in items[name]
  }

  /** The item `name`/`item` is wanted by both keys and by one of them exclusively. */
  predicate ClashAt(a: Footprint, b: Footprint, name: string, item: string) {
    || (Holds(a.exclusive, name, item) && (Holds(b.exclusive, name, item) || Holds(b.shared, name, item)))
    || (Holds(a.shared, name, item) && Holds(b.exclusive, name, item))
  }

  ghost predicate Conflicts(a: Footprint, b: Footprint) {
    exists name, item :: ClashAt(a, b, name, item)
  }

  lemma ConflictsSymmetric(a: Footprint, b: Footprint)
    ensures Conflicts(a, b) <==> Conflicts(b, a)
  {
    if Conflicts(a, b) {
      var name, item :| ClashAt(a, b, name, item);
      assert ClashAt(b, a, name, item);
    }
    if Conflicts(b, a) {
      var name, item :| ClashAt(b, a, name, item);
      assert ClashAt(a, b, name, item);
    }
  }

  /** What merging a list of keys has to produce: the union of the exclusive
      items, and the union of the shared items less what is held exclusively. */
  ghost predicate IsMerge(m: Footprint, parts: seq<Footprint>) {
    && (forall name, item :: Holds(m.exclusive, name, item) <==> SomeExclusive(parts, name, item))
    && (forall name, item :: Holds(m.shared, name, item) <==>
          SomeShared(parts, name, item) && !SomeExclusive(parts, name, item))
  }

  ghost predicate SomeExclusive(parts: seq<Footprint>, name: string, item: string) {
    exists k :: 0 <= k < |parts| && Holds(parts[k].exclusive, name, item)
  }

  ghost predicate SomeShared(parts: seq<Footprint>, name: string, item: string) {
    exists k :: 0 <= k < |parts| && Holds(parts[k].shared, name, item)
  }

  /** Dropping shared items that are also exclusive loses no conflict: a merged
      key is in the way of exactly the keys some part of it is in the way of. */
  lemma MergeConflicts(m: Footprint, parts: seq<Footprint>, other: Footprint)
    requires IsMerge(m, parts)
    ensures Conflicts(m, other) <==> exists k :: 0 <= k < |parts| && Conflicts(parts[k], other)
  {
    if Conflicts(m, other) {
      var name, item :| ClashAt(m, other, name, item);
      var k :| 0 <= k < |parts| && (if Holds(m.exclusive, name, item)
                                    then Holds(parts[k].exclusive, name, item)
                                    else Holds(parts[k].shared, name, item));
      assert ClashAt(parts[k], other, name, item);
    }
    if k :| 0 <= k < |parts| && Conflicts(parts[k], other) {
      var name, item :| ClashAt(parts[k], other, name, item);
      assert Holds(parts[k].exclusive, name, item) ==> SomeExclusive(parts, name, item);
      assert Holds(parts[k].shared, name, item) ==> SomeShared(parts, name, item);
      assert ClashAt(m, other, name, item);
    }
  }

  class LockKey {
    var shared: Items
    var exclusive: Items
    var state: KeyState

    function Print(): Footprint
      reads this
    {
      Footprint(exclusive, shared)
    }

    constructor ()
      ensures exclusive == map[] && shared == map[] && state == Fresh
    {
      shared, exclusive, state := map[], map[], Fresh;
    }

    method Transition(next: KeyState)
      modifies `state
      ensures state == next
    {
      state := next;
    }

    method AddShared(name: string, item: string)
      modifies `shared
      ensures forall n, i :: Holds(shared, n, i) <==> Holds(old(shared), n, i) || (n == name && i == item)
    {
      shared := shared[name := (if name in shared then shared[name] else {}) + {item}];
    }

    method AddExclusive(name: string, item: string)
      modifies `exclusive
      ensures forall n, i :: Holds(exclusive, n, i) <==> Holds(old(exclusive), n, i) || (n == name && i == item)
    {
      exclusive := exclusive[name := (if name in exclusive then exclusive[name] else {}) + {item}];
    }

    /** The items through which this key blocks `key`. */
    method Blocks(key: LockKey) returns (blockers: set<(string, string)>)
      ensures forall n, i :: (n, i) in blockers <==> ClashAt(Print(), key.Print(), n, i)
      ensures blockers != {} <==> Conflicts(Print(), key.Print())
    {
      blockers := {};
      var names := exclusive.Keys;
      while names != {}
        invariant names <= exclusive.Keys
        invariant forall n, i :: (n, i) in blockers <==>
                  n !in names && Holds(exclusive, n, i) && (Holds(key.exclusive, n, i) || Holds(key.shared, n, i))
      {
        var name :| name in names;
        if name in key.exclusive {
          blockers := blockers + Named(name, exclusive[name] * key.exclusive[name]);
        }
        if name in key.shared {
          blockers := blockers + Named(name, exclusive[name] * key.shared[name]);
        }
        names := names - {name};
      }
      ghost var fromExclusive := blockers;
      names := shared.Keys;
      while names != {}
        invariant names <= shared.Keys
        invariant forall n, i :: (n, i) in blockers <==>
                  (n, i) in fromExclusive || (n !in names && Holds(shared, n, i) && Holds(key.exclusive, n, i))
      {
        var name :| name in names;
        if name in key.exclusive && shared[name] * key.exclusive[name] != {} {
          blockers := blockers + Named(name, shared[name] * key.exclusive[name]);
        }
        assert forall i :: Holds(shared, name, i) && Holds(key.exclusive, name, i) ==>
                             i in shared[name] * key.exclusive[name];
        names := names - {name};
      }
      assert forall n, i :: (n, i) in blockers <==> ClashAt(Print(), key.Print(), n, i);
      if blockers != {} {
        var b :| b in blockers;
        assert ClashAt(Print(), key.Print(), b.0, b.1);
      }
    }

    /** One key that stands for all the keys of a list. */
    static method Merge(keys: seq<LockKey>) returns (merged: LockKey)
      requires keys != []
      ensures fresh(merged) && merged.state == Fresh
      ensures IsMerge(merged.Print(), Prints(keys))
    {
      ghost var parts := Prints(keys);
      merged := new LockKey();
      assert forall n, i :: !SomeExclusive(parts[..0], n, i) && !SomeShared(parts[..0], n, i);
      hide SomeExclusive, SomeShared, Holds;
      for k := 0 to |keys|
        invariant fresh(merged) && merged.state == Fresh
        invariant parts == Prints(keys)
        invariant forall n, i :: Holds(merged.exclusive, n, i) <==> SomeExclusive(parts[..k], n, i)
        invariant forall n, i :: Holds(merged.shared, n, i) <==> SomeShared(parts[..k], n, i)
      {
        merged.Absorb(keys[k]);
        ExtendParts(parts, k);
      }
      assert parts[..|keys|] == parts;
      merged.Normalize();
    }

    method Absorb(key: LockKey)
      requires key != this
      modifies `exclusive, `shared
      ensures forall n, i :: Holds(exclusive, n, i) <==> Holds(old(exclusive), n, i) || Holds(key.exclusive, n, i)
      ensures forall n, i :: Holds(shared, n, i) <==> Holds(old(shared), n, i) || Holds(key.shared, n, i)
    {
      exclusive := Union(exclusive, key.exclusive);
      shared := Union(shared, key.shared);
    }

    /** What is locked exclusively need not be in the shared set as well. */
    method Normalize()
      modifies `shared
      ensures forall n, i :: Holds(shared, n, i) <==> Holds(old(shared), n, i) && !Holds(exclusive, n, i)
    {
      shared := Subtract(shared, exclusive);
    }
  }

  function Named(name: string, items: set<string>): (r: set<(string, string)>)
    ensures forall n, i :: (n, i) in r <==> n == name && i in items
  {
    set item | item in items :: (name, item)
  }

  ghost function Prints(keys: seq<LockKey>): (parts: seq<Footprint>)
    reads keys
    ensures |parts| == |keys|
    ensures forall i :: 0 <= i < |keys| ==> parts[i] == keys[i].Print()
  {
    if keys == [] then [] else [keys[0].Print()] + Prints(keys[1..])
  }

  lemma ExtendParts(parts: seq<Footprint>, k: nat)
    requires k < |parts|
    ensures forall n, i :: SomeExclusive(parts[..k + 1], n, i) <==>
                           SomeExclusive(parts[..k], n, i) || Holds(parts[k].exclusive, n, i)
    ensures forall n, i :: SomeShared(parts[..k + 1], n, i) <==>
                           SomeShared(parts[..k], n, i) || Holds(parts[k].shared, n, i)
  {
    var shorter, longer := parts[..k], parts[..k + 1];
    assert longer[k] == parts[k] && forall j :: 0 <= j < k ==> longer[j] == shorter[j];
  }

  /** `into[name] |= items` for every namespace of `from`. */
  method Union(into: Items, from: Items) returns (r: Items)
    ensures forall n, i :: Holds(r, n, i) <==> Holds(into, n, i) || Holds(from, n, i)
  {
    r := into;
    var names := from.Keys;
    while names != {}
      invariant names <= from.Keys
      invariant forall n, i :: Holds(r, n, i) <==> Holds(into, n, i) || (n !in names && Holds(from, n, i))
    {
      var name :| name in names;
      r := r[name := (if name in r then r[name] else {}) + from[name]];
      names := names - {name};
    }
  }

  /** `items -= exclusive[name]` for every namespace of `items`. */
  method Subtract(items: Items, exclusive: Items) returns (r: Items)
    ensures forall n, i :: Holds(r, n, i) <==> Holds(items, n, i) && !Holds(exclusive, n, i)
  {
    r := items;
    var names := items.Keys;
    while names != {}
      invariant names <= items.Keys == r.Keys
      invariant forall n, i :: Holds(r, n, i) <==> Holds(items, n, i) && (n in names || !Holds(exclusive, n, i))
    {
      var name :| name in names;
      if name in exclusive {
        r := r[name := r[name] - exclusive[name]];
      }
      names := names - {name};
    }
  }
}
