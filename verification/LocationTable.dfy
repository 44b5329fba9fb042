/** The table of links as the constructor and `update_parent` keep it, and what
    that is worth over any number of changes to the tree. */
module LocationTables {
  import opened Locations
  import opened Options

  /** A tree, its table, and the operations commands perform on them. */
  datatype Forest = Forest(kind: map<Loc, Kind>, parent: Parents, links: Links)

  datatype Op = Create(x: Loc, k: Kind, under: Option<Loc>) | Move(s: Loc, target: Option<Loc>)

  ghost predicate Good(f: Forest) {
    && Legal(f.kind, f.parent)
    && IsClosure(f.parent, f.links)
  }

  predicate Accepts(f: Forest, op: Op) {
    match op
    case Create(x, k, under) =>
      x !in f.kind && (under.Some? ==> under.value in f.kind && f.kind[under.value] in ValidParents(k))
    case Move(s, target) =>
      s in f.kind && target.Some? && target.value in f.kind && f.kind[target.value] in ValidParents(f.kind[s])
  }

  /** A refused operation changes nothing. */
  function Apply(f: Forest, op: Op): Forest {
    if !Accepts(f, op) then f else
      match op
      case Create(x, k, None) => f.(kind := f.kind[x := k])
      case Create(x, k, Some(p)) =>
        Forest(f.kind[x := k], f.parent[x := p], Added(f.links, x, p))
      case Move(s, Some(p)) => f.(parent := f.parent[s := p], links := Moved(f.links, s, p))
  }

  function Run(f: Forest, ops: seq<Op>): Forest
    decreases |ops|
  {
    if ops == [] then f else Run(Apply(f, ops[0]), ops[1..])
  }

  lemma LinksAreKnown(f: Forest, k: Link)
    requires Good(f) && k in f.links
    ensures k.0 in f.kind && k.1 in f.kind && k.0 != k.1
    ensures Distance(f.links, k.0, k.1) == f.links[k] && k == (k.0, k.1)
  {
    assert Up(f.parent, k.0, k.1, f.links[k]);
    UpRank(f.kind, f.parent, k.0, k.1, f.links[k]);
  }

  lemma NewIsUnlinked(f: Forest, x: Loc)
    requires Good(f) && x !in f.kind
    ensures forall k <- f.links :: k.0 != x && k.1 != x
    ensures Subtree(f.links, x) == {x}
    ensures forall p :: Moved(f.links, x, p) == Added(f.links, x, p)
  {
    forall k | k in f.links
      ensures k.0 != x && k.1 != x
    {
      LinksAreKnown(f, k);
    }
    assert CutLinks(f.links, x) == {};
  }

  lemma StepKeepsGood(f: Forest, op: Op)
    requires Good(f)
    ensures Good(Apply(f, op))
  {
    if Accepts(f, op) {
      match op
      case Create(x, k, None) =>
      case Create(x, k, Some(p)) =>
        NewIsUnlinked(f, x);
        MovedIsClosure(f.kind[x := k], f.parent, f.links, x, p);
      case Move(s, Some(p)) =>
        MovedIsClosure(f.kind, f.parent, f.links, s, p);
    }
  }

  /** After any run of creations and moves, accepted or refused, the table is exactly
      the ancestor relation of the tree, and the tree has no cycle. */
  lemma {:induction false} TableAlwaysAgrees(f: Forest, ops: seq<Op>)
    requires Good(f)
    ensures Good(Run(f, ops))
    ensures forall x: Loc, n: nat :: Up(Run(f, ops).parent, x, x, n) ==> n == 0
    decreases |ops|
  {
    if ops == [] {
      forall x: Loc, n: nat | Up(f.parent, x, x, n)
        ensures n == 0
      {
        NoCycle(f.kind, f.parent, x, n);
      }
    } else {
      StepKeepsGood(f, ops[0]);
      TableAlwaysAgrees(Apply(f, ops[0]), ops[1..]);
    }
  }

  datatype Outcome = Done | BadParent | NotPersistent | NoParent | RowExists

  /** `offspring_ids` as the query computes it: a location is found through its own
      rows as a descendant, so a root does not find itself. */
  function OffspringIds(links: Links, s: Loc): set<Loc> {
    set k | k in links && (k.0 == s || k.1 == s) :: k.0
  }

  /** The rows the session would insert, for a part of the grafted subtree. */
  ghost predicate Pending(rows: Links, links: Links, s: Loc, p: Loc, at: set<Link>) {
    rows.Keys == at && forall k <- rows :: rows[k] == Distance(links, k.0, s) + 1 + Distance(links, p, k.1)
  }

  lemma PendingMore(rows: Links, links: Links, s: Loc, p: Loc, at: set<Link>, k: Link, n: nat)
    requires Pending(rows, links, s, p, at) && n == Distance(links, k.0, s) + 1 + Distance(links, p, k.1)
    ensures Pending(rows[k := n], links, s, p, at + {k})
  {}

  lemma PairsMore(xs: set<Loc>, ys: set<Loc>, x: Loc, y: Loc)
    ensures Pairs({x}, ys) + {(x, y)} == Pairs({x}, ys + {y})
    ensures Pairs(xs, {y}) + {(x, y)} == Pairs(xs + {x}, {y})
    ensures Pairs(xs, ys) + Pairs(xs, {y}) == Pairs(xs, ys + {y})
    ensures Pairs({x}, {y}) == {(x, y)} && Pairs(xs, {}) == {} && Pairs({}, ys) == {}
  {}

  /** Besides what was there before, the rows to `a` from everything in `below`. */
  ghost predicate WithChildren(rows: Links, links: Links, s: Loc, p: Loc, before: set<Link>, below: set<Loc>, a: Loc) {
    Pending(rows, links, s, p, before + Pairs(below, {a}))
  }

  lemma SelfOnly(rows: Links, links: Links, s: Loc, p: Loc, before: set<Link>, a: Loc)
    requires Pending(rows, links, s, p, before + {(s, a)})
    ensures WithChildren(rows, links, s, p, before, {s}, a)
  {
    hide Pending;
    PairsMore({}, {}, s, a);
  }

  lemma OneChildMore(rows: Links, links: Links, s: Loc, p: Loc, before: set<Link>, below: set<Loc>, a: Loc, x: Loc, n: nat)
    requires WithChildren(rows, links, s, p, before, below, a) && n == Distance(links, x, s) + 1 + Distance(links, p, a)
    ensures WithChildren(rows[(x, a) := n], links, s, p, before, below + {x}, a)
  {
    hide Pending, Distance;
    PendingMore(rows, links, s, p, before + Pairs(below, {a}), (x, a), n);
    PairsMore(below, {}, x, a);
    assert before + Pairs(below, {a}) + {(x, a)} == before + (Pairs(below, {a}) + {(x, a)});
  }

  lemma AllChildren(rows: Links, links: Links, s: Loc, p: Loc, done: set<Loc>, below: set<Loc>, a: Loc)
    requires WithChildren(rows, links, s, p, Pairs(below, done), below, a)
    ensures Pending(rows, links, s, p, Pairs(below, done + {a}))
  {
    hide Pending;
    PairsMore(below, done, s, a);
  }

  lemma NonePending(links: Links, s: Loc, p: Loc)
    ensures Pending(map[], links, s, p, {})
  {}

  lemma NoDistance(links: Links)
    ensures forall x :: Distance(links, x, x) == 0
  {}

  lemma AncestorsOfRows(links: Links, p: Loc, rows: set<Link>)
    requires forall k :: k in rows <==> k in links && k.0 == p
    ensures Ancestors(links, p) == set l | l in rows :: l.1
  {}

  lemma SubtreeOfRows(links: Links, s: Loc, rows: set<Link>)
    requires forall k :: k in rows <==> k in links && k.1 == s
    ensures Subtree(links, s) == {s} + set l | l in rows :: l.0
  {}

  lemma PendingGraft(rows: Links, links: Links, s: Loc, p: Loc)
    requires Pending(rows, links, s, p, Pairs(Subtree(links, s), Ancestors(links, p) + {p}))
    ensures rows == GraftLinks(links, s, p)
  {
    hide Distance, Subtree, Ancestors, Pairs;
    var at, grafted := Pairs(Subtree(links, s), Ancestors(links, p) + {p}), GraftLinks(links, s, p);
    assert forall k :: k in rows <==> k in at;
    assert forall k :: k in grafted <==> k in at;
    assert forall k | k in at :: rows[k] == grafted[k];
  }

  lemma GraftedRowIsCut(f: Forest, s: Loc, p: Loc, x: Loc, y: Loc)
    requires Good(f) && MayMove(f.kind, f.parent, s, p)
    requires x in Subtree(f.links, s) && y in Ancestors(f.links, p) + {p} && (x, y) in f.links
    ensures y in Ancestors(f.links, s)
  {
    hide Distance, Subtree, Ancestors, Legal;
    var d, n := Distance(f.links, x, s), f.links[(x, y)];
    assert Up(f.parent, (x, y).0, (x, y).1, n);
    SubtreeIsBelow(f.parent, f.links, s, x);
    AncestorIsUp(f.parent, f.links, p, y);
    TargetIsOutside(f.kind, f.parent, s, p);
    if n <= d {
      UpSplit(f.parent, x, y, s, n, d);
      UpAppend(f.parent, p, y, s, Distance(f.links, p, y), d - n);
    } else {
      UpSplit(f.parent, x, s, y, d, n);
      AncestorOf(f.parent, f.links, s, y, n - d);
    }
  }

  /** A row that the move inserts is either new or one the move has deleted. */
  lemma GraftMeetsNoRow(f: Forest, s: Loc, p: Loc)
    requires Good(f) && MayMove(f.kind, f.parent, s, p)
    ensures GraftLinks(f.links, s, p).Keys !! f.links.Keys - CutLinks(f.links, s)
  {
    hide Distance, Subtree, Ancestors, MayMove, Good;
    forall k | k in GraftLinks(f.links, s, p) && k in f.links
      ensures k in CutLinks(f.links, s)
    {
      assert k == (k.0, k.1);
      GraftedRowIsCut(f, s, p, k.0, k.1);
    }
  }

  class LocationTable {
    var kind: map<Loc, Kind>
    var links: Links
    ghost var parent: Parents

    ghost function View(): Forest
      reads this
    {
      Forest(kind, parent, links)
    }

    ghost predicate Valid()
      reads this
    {
      Good(View())
    }

    constructor ()
      ensures Valid() && View() == Forest(map[], map[], map[])
    {
      kind, links, parent := map[], map[], map[];
    }

    /** The rows of a location as a descendant. */
    function ParentLinks(x: Loc): (rows: set<Link>)
      reads this
      ensures forall k :: k in rows <==> k in links && k.0 == x
    {
      set k | k in links && k.0 == x
    }

    /** The rows of a location as an ancestor. */
    function ChildLinks(x: Loc): (rows: set<Link>)
      reads this
      ensures forall k :: k in rows <==> k in links && k.1 == x
    {
      set k | k in links && k.1 == x
    }

    /** A new location under `under`, which has a kind whether it is stored or not. */
    method Create(x: Loc, k: Kind, under: Option<(Loc, Kind)>) returns (outcome: Outcome)
      requires Valid() && x !in kind
      requires under.Some? && under.value.0 in kind ==> kind[under.value.0] == under.value.1
      modifies this
      ensures Valid()
      ensures View() == Apply(old(View()), Op.Create(x, k, if under.Some? then Some(under.value.0) else None))
      ensures outcome == (if under.None? then Done
                          else if under.value.1 !in ValidParents(k) then BadParent
                          else if under.value.0 !in old(kind) then NotPersistent
                          else Done)
    {
      ghost var f := View();
      StepKeepsGood(f, Op.Create(x, k, if under.Some? then Some(under.value.0) else None));
      if under.Some? {
        var p := under.value.0;
        if under.value.1 !in ValidParents(k) {
          return BadParent;
        }
        if p !in kind {
          return NotPersistent;
        }
        var rows := AddForAncestors(x, p);
        links := links + rows;
        parent := parent[x := p];
      }
      kind := kind[x := k];
      return Done;
    }

    /** The rows of a new location: to `p` and to all above it. */
    method AddForAncestors(x: Loc, p: Loc) returns (rows: Links)
      requires Valid() && x !in kind && p in kind
      ensures rows == GraftLinks(links, x, p)
    {
      ghost var f := View();
      hide Good, Pending, Distance, GraftLinks, Ancestors, Subtree;
      NewIsUnlinked(f, x);
      rows := map[];
      var todo := ParentLinks(p);
      ghost var done: set<Loc> := {};
      NonePending(links, x, p);
      assert Pairs({x}, done) == {};
      assert Distance(links, x, x) == 0 && Distance(links, p, p) == 0 by { NoDistance(links); }
      while todo != {}
        invariant todo <= ParentLinks(p)
        invariant done == set l | l in ParentLinks(p) - todo :: l.1
        invariant Pending(rows, links, x, p, Pairs({x}, done))
      {
        var link :| link in todo;
        LinksAreKnown(f, link);
        PendingMore(rows, links, x, p, Pairs({x}, done), (x, link.1), links[link] + 1);
        PairsMore({x}, done, x, link.1);
        rows := rows[(x, link.1) := links[link] + 1];
        todo := todo - {link};
        done := done + {link.1};
      }
      PendingMore(rows, links, x, p, Pairs({x}, done), (x, p), 1);
      PairsMore({x}, done, x, p);
      rows := rows[(x, p) := 1];
      assert Ancestors(links, p) == done by { AncestorsOfRows(links, p, ParentLinks(p)); }
      PendingGraft(rows, links, x, p);
    }

    /** Move a location, with all that is below it, under another parent. The queries
        read the table as it was before, and a row that is deleted and added again is
        updated. */
    method UpdateParent(s: Loc, target: Option<Loc>) returns (outcome: Outcome)
      requires Valid() && s in kind
      requires target.Some? ==> target.value in kind
      modifies `links, `parent
      ensures Valid() && View() == Apply(old(View()), Move(s, target))
      ensures outcome == (if target.None? then NoParent
                          else if kind[target.value] !in ValidParents(kind[s]) then BadParent
                          else Done)
    {
      ghost var f := View();
      StepKeepsGood(f, Move(s, target));
      if target.None? {
        return NoParent;
      }
      var p := target.value;
      if kind[p] !in ValidParents(kind[s]) {
        return BadParent;
      }
      GraftMeetsNoRow(f, s, p);
      var doomed := DeleteOldLinks(s);
      var rows := AddNewLinks(s, p);
      if rows.Keys * (links.Keys - doomed) != {} {
        return RowExists;
      }
      links := (links - doomed) + rows;
      parent := parent[s := p];
      return Done;
    }

    /** The rows marked for deletion: those to an ancestor of `s`, from `s` and from
        all below it. */
    method DeleteOldLinks(s: Loc) returns (doomed: set<Link>)
      requires Valid()
      ensures doomed == CutLinks(links, s)
    {
      doomed := {};
      var todo := ParentLinks(s);
      while todo != {}
        invariant todo <= ParentLinks(s)
        invariant doomed == set k | k in links && k.0 in Subtree(links, s) && (s, k.1) in ParentLinks(s) - todo
      {
        var plink :| plink in todo;
        assert plink == (s, plink.1);
        var offspring := OffspringIds(links, s);
        assert offspring == Subtree(links, s);
        var q := set k | k in links && k.0 in offspring && k.1 == plink.1;
        ghost var all, before := q, doomed;
        while q != {}
          invariant q <= all && doomed == before + (all - q)
        {
          var clink :| clink in q;
          doomed := doomed + {clink};
          q := q - {clink};
        }
        todo := todo - {plink};
      }
      assert forall k | k in links :: k.1 in Ancestors(links, s) <==> (s, k.1) in ParentLinks(s);
    }

    /** The rows to add: from `s` and from all below it, to `p` and to all above it. */
    method AddNewLinks(s: Loc, p: Loc) returns (rows: Links)
      requires Valid() && s in kind && p in kind
      ensures rows == GraftLinks(links, s, p)
    {
      ghost var f := View();
      hide Good, Pending, Distance, GraftLinks, Ancestors, Subtree;
      NoDistance(links);
      NonePending(links, s, p);
      PendingMore(map[], links, s, p, {}, (s, p), 1);
      PairsMore({}, {}, s, p);
      PairsMore(Subtree(links, s), {}, s, p);
      rows := map[(s, p) := 1];
      assert map[][(s, p) := 1] == rows && {} + {(s, p)} == Pairs(Subtree(links, s), {}) + {(s, p)};
      rows := AddForChildren(s, p, p, 1, rows, {});
      var todo := ParentLinks(p);
      ghost var done: set<Loc> := {p};
      assert {} + {p} == done;
      while todo != {}
        invariant todo <= ParentLinks(p)
        invariant done == {p} + set l | l in ParentLinks(p) - todo :: l.1
        invariant Pending(rows, links, s, p, Pairs(Subtree(links, s), done))
      {
        var plink :| plink in todo;
        LinksAreKnown(f, plink);
        assert plink.1 !in done;
        PendingMore(rows, links, s, p, Pairs(Subtree(links, s), done), (s, plink.1), links[plink] + 1);
        rows := rows[(s, plink.1) := links[plink] + 1];
        rows := AddForChildren(s, p, plink.1, links[plink] + 1, rows, done);
        todo := todo - {plink};
        done := done + {plink.1};
      }
      AncestorsOfRows(links, p, ParentLinks(p));
      assert done == Ancestors(links, p) + {p};
      PendingGraft(rows, links, s, p);
    }

    /** The inner loop: one row to `a` for everything below `s`. */
    method AddForChildren(s: Loc, p: Loc, a: Loc, dist: nat, before: Links, ghost done: set<Loc>) returns (rows: Links)
      requires Valid() && a !in done && dist == Distance(links, p, a) + 1
      requires Pending(before, links, s, p, Pairs(Subtree(links, s), done) + {(s, a)})
      ensures Pending(rows, links, s, p, Pairs(Subtree(links, s), done + {a}))
    {
      ghost var f := View();
      ghost var old_ := Pairs(Subtree(links, s), done);
      hide Good, Pending, Distance, Subtree, WithChildren;
      rows := before;
      var todo := ChildLinks(s);
      ghost var below: set<Loc> := {s};
      SelfOnly(rows, links, s, p, old_, a);
      while todo != {}
        invariant todo <= ChildLinks(s)
        invariant below == {s} + set l | l in ChildLinks(s) - todo :: l.0
        invariant WithChildren(rows, links, s, p, old_, below, a)
      {
        var clink :| clink in todo;
        LinksAreKnown(f, clink);
        assert clink.0 !in below;
        OneChildMore(rows, links, s, p, old_, below, a, clink.0, links[clink] + dist);
        rows := rows[(clink.0, a) := links[clink] + dist];
        todo := todo - {clink};
        below := below + {clink.0};
      }
      SubtreeOfRows(links, s, ChildLinks(s));
      assert below == Subtree(links, s);
      AllChildren(rows, links, s, p, done, below, a);
    }
  }
}
