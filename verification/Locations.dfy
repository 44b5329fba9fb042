/** The location tree and what the table of links has to say about it. */
module Locations {

  type Loc = nat

  datatype Kind = Organization | Hub | Continent | Country | Campus | City | Building | Room | Bunker | Desk | Rack

  function ValidParents(kind: Kind): set<Kind> {
    match kind
    case Organization => {}
    case Hub => {Organization}
    case Continent => {Hub, Organization}
    case Country => {Continent}
    case Campus => {Country}
    case City => {Campus, Country}
    case Building => {City, Campus}
    case Room => {Building}
    case Bunker => {Building, Room}
    case Desk => {Building, Room}
    case Rack => {Building, Room, Bunker}
  }

  /** The same rules the other way round: what may be directly below a location. */
  function ValidChildren(kind: Kind): set<Kind> {
    match kind
    case Organization => {Hub, Continent}
    case Hub => {Continent}
    case Continent => {Country}
    case Country => {Campus, City}
    case Campus => {City, Building}
    case City => {Building}
    case Building => {Room, Bunker, Desk, Rack}
    case Room => {Bunker, Desk, Rack}
    case Bunker => {Rack}
    case Desk => {}
    case Rack => {}
  }

  lemma ParentsAndChildrenAgree(child: Kind, parent: Kind)
    ensures parent in ValidParents(child) <==> child in ValidChildren(parent)
  {}

  function Rank(kind: Kind): nat {
    match kind
    case Organization => 0
    case Hub => 1
    case Continent => 2
    case Country => 3
    case Campus => 4
    case City => 5
    case Building => 6
    case Room => 7
    case Bunker => 8
    case Desk => 9
    case Rack => 10
  }

  lemma ParentsRankLower(child: Kind, parent: Kind)
    requires parent in ValidParents(child)
    ensures Rank(parent) < Rank(child)
  {}

  type Parents = map<Loc, Loc>
  type Link = (Loc, Loc)  // (descendant, ancestor)
  type Links = map<Link, nat>

  /** Every location that has a parent has one of a kind it may have. */
  ghost predicate Legal(kind: map<Loc, Kind>, parent: Parents) {
    forall x <- parent :: x in kind && parent[x] in kind && kind[parent[x]] in ValidParents(kind[x])
  }

  /** `y` is `n` parents up from `x`. */
  predicate Up(parent: Parents, x: Loc, y: Loc, n: nat)
    decreases n
  {
    if n == 0 then x == y else x in parent && Up(parent, parent[x], y, n - 1)
  }

  /** The table says exactly who is above whom, and how far. */
  ghost predicate IsClosure(parent: Parents, links: Links) {
    && (forall k <- links :: links[k] > 0 && Up(parent, k.0, k.1, links[k]))
    && (forall x: Loc, y: Loc, n: nat :: n > 0 && Up(parent, x, y, n) ==> (x, y) in links && links[(x, y)] == n)
  }

  lemma {:induction false} UpAppend(parent: Parents, x: Loc, y: Loc, z: Loc, m: nat, n: nat)
    requires Up(parent, x, y, m) && Up(parent, y, z, n)
    ensures Up(parent, x, z, m + n)
    decreases m
  {
    if m > 0 {
      UpAppend(parent, parent[x], y, z, m - 1, n);
    }
  }

  /** The way up is unique, so a longer way passes through the end of a shorter one. */
  lemma {:induction false} UpSplit(parent: Parents, x: Loc, y: Loc, z: Loc, m: nat, n: nat)
    requires Up(parent, x, y, m) && Up(parent, x, z, n) && m <= n
    ensures Up(parent, y, z, n - m)
    decreases m
  {
    if m > 0 {
      UpSplit(parent, parent[x], y, z, m - 1, n - 1);
    }
  }

  lemma {:induction false} UpRank(kind: map<Loc, Kind>, parent: Parents, x: Loc, y: Loc, n: nat)
    requires Legal(kind, parent) && x in kind && Up(parent, x, y, n)
    ensures y in kind && Rank(kind[y]) + n <= Rank(kind[x])
    decreases n
  {
    if n > 0 {
      ParentsRankLower(kind[x], kind[parent[x]]);
      UpRank(kind, parent, parent[x], y, n - 1);
    }
  }

  lemma NoCycle(kind: map<Loc, Kind>, parent: Parents, x: Loc, n: nat)
    requires Legal(kind, parent) && Up(parent, x, x, n)
    ensures n == 0
  {
    if n > 0 {
      UpRank(kind, parent, x, x, n);
    }
  }

  lemma DistanceUnique(kind: map<Loc, Kind>, parent: Parents, x: Loc, y: Loc, m: nat, n: nat)
    requires Legal(kind, parent) && Up(parent, x, y, m) && Up(parent, x, y, n)
    ensures m == n
  {
    if m <= n {
      UpSplit(parent, x, y, y, m, n);
      NoCycle(kind, parent, y, n - m);
    } else {
      UpSplit(parent, x, y, y, n, m);
      NoCycle(kind, parent, y, m - n);
    }
  }

  /** There is only one table for a tree. */
  lemma ClosureUnique(parent: Parents, a: Links, b: Links)
    requires IsClosure(parent, a) && IsClosure(parent, b)
    ensures a == b
  {
    forall k | k in a || k in b
      ensures k in a && k in b && a[k] == b[k]
    {
      assert k == (k.0, k.1);
    }
  }

  /** A location below `p`, or `p` itself. */
  ghost predicate Below(parent: Parents, x: Loc, p: Loc) {
    exists n: nat :: Up(parent, x, p, n)
  }

  /** Changing the parent of `s` changes no way up that does not go beyond `s`. */
  lemma {:induction false} UpUnchanged(parent: Parents, s: Loc, p: Loc, x: Loc, y: Loc, n: nat)
    requires forall m: nat | m < n :: !Up(parent, x, s, m)
    ensures Up(parent, x, y, n) <==> Up(parent[s := p], x, y, n)
    decreases n
  {
    if n > 0 && x in parent {
      assert !Up(parent, x, s, 0);
      forall m: nat | m < n - 1
        ensures !Up(parent, parent[x], s, m)
      {
        assert !Up(parent, x, s, m + 1);
      }
      UpUnchanged(parent, s, p, parent[x], y, n - 1);
    } else if n > 0 {
      assert !Up(parent, x, s, 0);
    }
  }

  // What the table knows, as the queries read it.

  function Subtree(links: Links, s: Loc): set<Loc> {
    {s} + set k | k in links && k.1 == s :: k.0
  }

  function Ancestors(links: Links, s: Loc): set<Loc> {
    set k | k in links && k.0 == s :: k.1
  }

  function Distance(links: Links, x: Loc, y: Loc): nat {
    if x == y then 0 else if (x, y) in links then links[(x, y)] else 0
  }

  /** The rows that cut `s` and all below it off from what is above `s`. */
  function CutLinks(links: Links, s: Loc): set<Link> {
    set k | k in links && k.0 in Subtree(links, s) && k.1 in Ancestors(links, s)
  }

  /** The rows that hang `s` and all below it under `p` and all above it. */
  function GraftLinks(links: Links, s: Loc, p: Loc): Links {
    map k | k in Pairs(Subtree(links, s), Ancestors(links, p) + {p})
      :: Distance(links, k.0, s) + 1 + Distance(links, p, k.1)
  }

  function Pairs(xs: set<Loc>, ys: set<Loc>): (r: set<Link>)
    ensures forall k :: k in r <==> k.0 in xs && k.1 in ys
  {
    set x, y | x in xs && y in ys :: (x, y)
  }

  /** The table after `s` has been moved under `p`. */
  function Moved(links: Links, s: Loc, p: Loc): Links {
    (links - CutLinks(links, s)) + GraftLinks(links, s, p)
  }

  /** The table after a new location `x` has been added under `p`. */
  function Added(links: Links, x: Loc, p: Loc): Links {
    links + GraftLinks(links, x, p)
  }

  lemma SubtreeIsBelow(parent: Parents, links: Links, s: Loc, x: Loc)
    requires IsClosure(parent, links)
    ensures x in Subtree(links, s) <==> Below(parent, x, s)
    ensures x in Subtree(links, s) ==> Up(parent, x, s, Distance(links, x, s))
  {
    if n: nat :| Up(parent, x, s, n) {
      if n > 0 {
        assert (x, s) in links;
      }
    }
    if x == s {
      assert Up(parent, x, s, 0);
    } else if x in Subtree(links, s) {
      assert (x, s) in links;
      assert Up(parent, (x, s).0, (x, s).1, links[(x, s)]);
    }
  }

  lemma AncestorIsUp(parent: Parents, links: Links, p: Loc, y: Loc)
    requires IsClosure(parent, links)
    ensures y in Ancestors(links, p) + {p} <==> Below(parent, p, y)
    ensures y in Ancestors(links, p) + {p} ==> Up(parent, p, y, Distance(links, p, y))
  {
    if n: nat :| Up(parent, p, y, n) {
      if n > 0 {
        assert (p, y) in links;
      }
    }
    if p == y {
      assert Up(parent, p, y, 0);
    } else if y in Ancestors(links, p) {
      assert (p, y) in links;
      assert Up(parent, (p, y).0, (p, y).1, links[(p, y)]);
    }
  }

  lemma AncestorOf(parent: Parents, links: Links, s: Loc, y: Loc, n: nat)
    requires IsClosure(parent, links)
    ensures n > 0 && Up(parent, s, y, n) ==> y in Ancestors(links, s)
    ensures y in Ancestors(links, s) ==> (s, y) in links && Up(parent, s, y, links[(s, y)]) && links[(s, y)] > 0
  {
    if y in Ancestors(links, s) {
      assert (s, y) in links;
    }
    if n > 0 && Up(parent, s, y, n) {
      assert (s, y) in links && (s, y).0 == s && (s, y).1 == y;
    }
  }

  // Moving a subtree.

  /** `p` may become the parent of `s`. */
  ghost predicate MayMove(kind: map<Loc, Kind>, parent: Parents, s: Loc, p: Loc) {
    Legal(kind, parent) && s in kind && p in kind && kind[p] in ValidParents(kind[s])
  }

  lemma TargetIsOutside(kind: map<Loc, Kind>, parent: Parents, s: Loc, p: Loc)
    requires MayMove(kind, parent, s, p)
    ensures !Below(parent, p, s)
  {
    ParentsRankLower(kind[s], kind[p]);
    if n: nat :| Up(parent, p, s, n) {
      UpRank(kind, parent, p, s, n);
    }
  }

  lemma WayOfOutsider(parent: Parents, s: Loc, p: Loc, x: Loc, y: Loc, n: nat)
    requires !Below(parent, x, s)
    ensures Up(parent[s := p], x, y, n) <==> Up(parent, x, y, n)
  {
    UpUnchanged(parent, s, p, x, y, n);
  }

  lemma WayInsideSubtree(kind: map<Loc, Kind>, parent: Parents, s: Loc, p: Loc, x: Loc, y: Loc, d: nat, n: nat)
    requires Legal(kind, parent) && Up(parent, x, s, d) && n <= d
    ensures Up(parent[s := p], x, y, n) <==> Up(parent, x, y, n)
  {
    forall m: nat | m < n
      ensures !Up(parent, x, s, m)
    {
      if Up(parent, x, s, m) {
        DistanceUnique(kind, parent, x, s, m, d);
      }
    }
    UpUnchanged(parent, s, p, x, y, n);
  }

  lemma WayBeyondSubtree(kind: map<Loc, Kind>, parent: Parents, s: Loc, p: Loc, x: Loc, y: Loc, d: nat, n: nat)
    requires MayMove(kind, parent, s, p) && Up(parent, x, s, d) && n > d
    ensures Up(parent[s := p], x, y, n) <==> Up(parent, p, y, n - d - 1)
  {
    var parent' := parent[s := p];
    TargetIsOutside(kind, parent, s, p);
    WayInsideSubtree(kind, parent, s, p, x, s, d, d);
    WayOfOutsider(parent, s, p, p, y, n - d - 1);
    if Up(parent', x, y, n) {
      UpSplit(parent', x, s, y, d, n);
    }
    if Up(parent', p, y, n - d - 1) {
      UpAppend(parent', x, s, y, d, n - d);
    }
  }

  lemma MovedRow(links: Links, s: Loc, p: Loc, x: Loc, y: Loc)
    ensures var grafted := x in Subtree(links, s) && y in Ancestors(links, p) + {p};
            var cut := x in Subtree(links, s) && y in Ancestors(links, s);
            if grafted then
              (x, y) in Moved(links, s, p) && Moved(links, s, p)[(x, y)] == Distance(links, x, s) + 1 + Distance(links, p, y)
            else if cut then (x, y) !in Moved(links, s, p)
            else ((x, y) in Moved(links, s, p) <==> (x, y) in links)
                 && ((x, y) in links ==> Moved(links, s, p)[(x, y)] == links[(x, y)])
  {
    assert (x, y).0 == x && (x, y).1 == y;
  }

  lemma MovedIsSound(kind: map<Loc, Kind>, parent: Parents, links: Links, s: Loc, p: Loc, k: Link)
    requires MayMove(kind, parent, s, p) && IsClosure(parent, links) && k in Moved(links, s, p)
    ensures Moved(links, s, p)[k] > 0 && Up(parent[s := p], k.0, k.1, Moved(links, s, p)[k])
  {
    hide Moved, Subtree, Ancestors, Distance;
    MovedRow(links, s, p, k.0, k.1);
    AncestorIsUp(parent, links, s, k.1);
    var n := Moved(links, s, p)[k];
    var d := Distance(links, k.0, s);
    SubtreeIsBelow(parent, links, s, k.0);
    AncestorIsUp(parent, links, p, k.1);
    if k.0 in Subtree(links, s) && k.1 in Ancestors(links, p) + {p} {
      WayBeyondSubtree(kind, parent, s, p, k.0, k.1, d, n);
    } else if k.0 !in Subtree(links, s) {
      WayOfOutsider(parent, s, p, k.0, k.1, n);
    } else {
      if n > d {
        UpSplit(parent, k.0, s, k.1, d, n);
        AncestorOf(parent, links, s, k.1, n - d);
      }
      WayInsideSubtree(kind, parent, s, p, k.0, k.1, d, n);
    }
  }

  lemma MovedIsComplete(kind: map<Loc, Kind>, parent: Parents, links: Links, s: Loc, p: Loc, x: Loc, y: Loc, n: nat)
    requires MayMove(kind, parent, s, p) && IsClosure(parent, links)
    requires n > 0 && Up(parent[s := p], x, y, n)
    ensures (x, y) in Moved(links, s, p) && Moved(links, s, p)[(x, y)] == n
  {
    hide Moved, Subtree, Ancestors, Distance;
    MovedRow(links, s, p, x, y);
    var d := Distance(links, x, s);
    SubtreeIsBelow(parent, links, s, x);
    AncestorIsUp(parent, links, p, y);
    AncestorOf(parent, links, s, y, 0);
    if x !in Subtree(links, s) {
      WayOfOutsider(parent, s, p, x, y, n);
    } else if n > d {
      WayBeyondSubtree(kind, parent, s, p, x, y, d, n);
      DistanceUnique(kind, parent, p, y, n - d - 1, Distance(links, p, y));
    } else {
      WayInsideSubtree(kind, parent, s, p, x, y, d, n);
      UpSplit(parent, x, y, s, n, d);
      TargetIsOutside(kind, parent, s, p);
      if y in Ancestors(links, p) + {p} {
        UpAppend(parent, p, y, s, Distance(links, p, y), d - n);
      }
      if y in Ancestors(links, s) {
        UpAppend(parent, s, y, s, links[(s, y)], d - n);
        NoCycle(kind, parent, s, links[(s, y)] + d - n);
      }
    }
  }

  /** Moving a subtree leaves the table exactly right for the new tree: for what was
      moved and what was not, and for ancestors that stay above it as well. */
  lemma MovedIsClosure(kind: map<Loc, Kind>, parent: Parents, links: Links, s: Loc, p: Loc)
    requires MayMove(kind, parent, s, p) && IsClosure(parent, links)
    ensures Legal(kind, parent[s := p]) && IsClosure(parent[s := p], Moved(links, s, p))
  {
    hide Moved;
    var parent' := parent[s := p];
    forall k | k in Moved(links, s, p)
      ensures Moved(links, s, p)[k] > 0 && Up(parent', k.0, k.1, Moved(links, s, p)[k])
    {
      MovedIsSound(kind, parent, links, s, p, k);
    }
    forall x: Loc, y: Loc, n: nat | n > 0 && Up(parent', x, y, n)
      ensures (x, y) in Moved(links, s, p) && Moved(links, s, p)[(x, y)] == n
    {
      MovedIsComplete(kind, parent, links, s, p, x, y, n);
    }
  }
}
