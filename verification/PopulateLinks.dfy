/** The migration that builds the table of links from the parents alone. */
module LinkPopulation {
  import opened LocationTables
  import opened Locations
  import opened Options

  /** The rows of the locations in `done` are all there, and no others. */
  ghost predicate ClosureFor(parent: Parents, links: Links, done: set<Loc>) {
    && (forall k <- links :: k.0 in done && links[k] > 0 && Up(parent, k.0, k.1, links[k]))
    && (forall x: Loc, y: Loc, n: nat :: x in done && n > 0 && Up(parent, x, y, n) ==>
          (x, y) in links && links[(x, y)] == n)
  }

  /** Walk up from every location and insert a row for each parent on the way. The
      kinds are what makes the walk end. */
  method PopulateLinks(locations: set<Loc>, parent: Parents, ghost kind: map<Loc, Kind>) returns (links: Links)
    requires Legal(kind, parent) && locations == kind.Keys
    ensures IsClosure(parent, links)
  {
    links := map[];
    var todo := locations;
    while todo != {}
      invariant todo <= locations
      invariant ClosureFor(parent, links, locations - todo)
    {
      var child :| child in todo;
      todo := todo - {child};
      links := WalkUp(child, parent, links, kind, locations - todo - {child});
      assert locations - todo - {child} + {child} == locations - todo;
    }
    NothingElseIsUp(kind, parent);
    assert locations - {} == locations;
  }

  lemma NothingElseIsUp(kind: map<Loc, Kind>, parent: Parents)
    requires Legal(kind, parent)
    ensures forall x: Loc, y: Loc, n: nat :: n > 0 && Up(parent, x, y, n) ==> x in kind
  {}

  method WalkUp(child: Loc, parent: Parents, before: Links, ghost kind: map<Loc, Kind>, ghost done: set<Loc>)
    returns (links: Links)
    requires Legal(kind, parent) && child in kind && child !in done
    requires ClosureFor(parent, before, done)
    ensures ClosureFor(parent, links, done + {child})
  {
    hide Legal;
    links := before;
    var at := if child in parent then Some(parent[child]) else None;
    var dist := 0;
    ghost var last := child;
    while at.Some?
      invariant Up(parent, child, last, dist) && last in kind
      invariant at == if last in parent then Some(parent[last]) else None
      invariant forall k <- links :: if k.0 == child then 0 < links[k] <= dist && Up(parent, child, k.1, links[k])
                                     else k in before && links[k] == before[k]
      invariant forall k <- before :: k in links
      invariant forall y: Loc, n: nat :: 0 < n <= dist && Up(parent, child, y, n) ==>
                  (child, y) in links && links[(child, y)] == n
      decreases Rank(kind[last])
    {
      dist := dist + 1;
      OneFurther(kind, parent, child, last, dist);
      last := at.value;
      if (child, last) in links {
        DistanceUnique(kind, parent, child, last, links[(child, last)], dist);
        assert false;
      }
      links := links[(child, at.value) := dist];
      at := if at.value in parent then Some(parent[at.value]) else None;
    }
    TopReached(parent, child, last, dist);
  }

  lemma OneFurther(kind: map<Loc, Kind>, parent: Parents, child: Loc, last: Loc, dist: nat)
    requires Legal(kind, parent) && dist > 0 && Up(parent, child, last, dist - 1) && last in parent
    ensures Up(parent, child, parent[last], dist)
    ensures parent[last] in kind && Rank(kind[parent[last]]) < Rank(kind[last])
    ensures forall y: Loc :: Up(parent, child, y, dist) ==> y == parent[last]
  {
    ParentsRankLower(kind[last], kind[parent[last]]);
    assert Up(parent, last, parent[last], 1) by { assert Up(parent, parent[last], parent[last], 0); }
    UpAppend(parent, child, last, parent[last], dist - 1, 1);
    forall y: Loc | Up(parent, child, y, dist)
      ensures y == parent[last]
    {
      UpSplit(parent, child, last, y, dist - 1, dist);
      assert Up(parent, parent[last], y, 0);
    }
  }

  lemma TopReached(parent: Parents, child: Loc, last: Loc, dist: nat)
    requires Up(parent, child, last, dist) && last !in parent
    ensures forall y: Loc, n: nat :: Up(parent, child, y, n) ==> n <= dist
  {
    forall y: Loc, n: nat | Up(parent, child, y, n)
      ensures n <= dist
    {
      if n > dist {
        UpSplit(parent, child, last, y, dist, n);
      }
    }
  }

  /** The migration builds exactly the table that any run of creations and moves
      keeps up to date. */
  lemma BatchBuildsTheSameTable(ops: seq<Op>, built: Links)
    requires IsClosure(Run(Forest(map[], map[], map[]), ops).parent, built)
    ensures built == Run(Forest(map[], map[], map[]), ops).links
  {
    var f := Run(Forest(map[], map[], map[]), ops);
    TableAlwaysAgrees(Forest(map[], map[], map[]), ops);
    ClosureUnique(f.parent, f.links, built);
  }
}
