/** All aliases of a DNS record, direct or through other aliases. */
module Aliases {
  import Sorting

  type Node = nat

  /** For every record the aliases that point to it, and its name as text. */
  datatype Graph = Graph(aliases: map<Node, seq<Node>>, name: map<Node, string>)

  ghost predicate Closed(g: Graph) {
    && g.name.Keys == g.aliases.Keys
    && forall n <- g.aliases :: forall a <- g.aliases[n] :: a in g.aliases
  }

  ghost predicate IsPath(g: Graph, record: Node, path: seq<Node>)
    requires Closed(g) && record in g.aliases
  {
    && path != [] && path[0] == record
    && (forall i :: 0 <= i < |path| ==> path[i] in g.aliases)
    && (forall i :: 0 < i < |path| ==> path[i] in g.aliases[path[i - 1]])
  }

  /** `a` points to `record`, in one step or more. */
  ghost predicate Reaches(g: Graph, record: Node, a: Node)
    requires Closed(g) && record in g.aliases
  {
    exists path :: IsPath(g, record, path) && |path| > 1 && path[|path| - 1] == a
  }

  lemma ReachesStep(g: Graph, record: Node, n: Node, a: Node)
    requires Closed(g) && record in g.aliases && n in g.aliases && a in g.aliases[n]
    requires n == record || Reaches(g, record, n)
    ensures Reaches(g, record, a)
  {
    var path := [record];
    if n != record {
      path :| IsPath(g, record, path) && |path| > 1 && path[|path| - 1] == n;
    }
    var longer := path + [a];
    forall i | 0 < i < |longer|
      ensures longer[i] in g.aliases[longer[i - 1]]
    {}
    assert IsPath(g, record, longer);
  }

  /** Nothing reachable is called like something else that is reachable. */
  ghost predicate DistinctNames(g: Graph, record: Node)
    requires Closed(g) && record in g.aliases
  {
    forall a, b | Reaches(g, record, a) && Reaches(g, record, b) :: NameOf(g, a) == NameOf(g, b) ==> a == b
  }

  function NameOf(g: Graph, n: Node): string {
    if n in g.name then g.name[n] else ""
  }

  /** How many entries of the queue have been found already before one that has not. */
  function FirstNew(g: Graph, queue: seq<Node>, found: map<string, Node>): (k: nat)
    ensures k <= |queue|
  {
    if queue == [] || NameOf(g, queue[0]) !in found then 0 else 1 + FirstNew(g, queue[1..], found)
  }

  lemma {:induction false} FirstNewAppend(g: Graph, queue: seq<Node>, more: seq<Node>, found: map<string, Node>)
    requires forall a <- more :: NameOf(g, a) !in found
    ensures FirstNew(g, queue + more, found) == FirstNew(g, queue, found)
  {
    if queue == [] {
      assert queue + more == more;
    } else {
      assert (queue + more)[1..] == queue[1..] + more;
      FirstNewAppend(g, queue[1..], more, found);
    }
  }

  function Names(g: Graph): set<string> {
    set n | n in g.name :: g.name[n]
  }

  /** What has been found is reachable, and so is what waits in the queue. */
  ghost predicate Sound(g: Graph, record: Node, found: map<string, Node>, queue: seq<Node>)
    requires Closed(g) && record in g.aliases
  {
    && (forall k <- found :: Reaches(g, record, found[k]) && found[k] in g.name && g.name[found[k]] == k)
    && (forall a <- queue :: Reaches(g, record, a) && a in g.name)
  }

  /** The name of every alias of `n` has been found, or the alias waits in the queue. */
  ghost predicate Covered(g: Graph, n: Node, found: map<string, Node>, queue: seq<Node>) {
    n in g.aliases ==> forall a <- g.aliases[n] :: NameOf(g, a) in found || a in queue
  }

  function NameLeq(g: Graph): (Node, Node) -> bool {
    (a: Node, b: Node) => Sorting.LexLeq(NameOf(g, a), NameOf(g, b))
  }

  lemma NameOrder(g: Graph)
    ensures Sorting.TotalPreorder(NameLeq(g))
  {
    var leq := NameLeq(g);
    forall x, y
      ensures leq(x, y) || leq(y, x)
    {
      Sorting.LexTotal(NameOf(g, x), NameOf(g, y));
    }
    forall x, y, z | leq(x, y) && leq(y, z)
      ensures leq(x, z)
    {
      Sorting.LexTransitive(NameOf(g, x), NameOf(g, y), NameOf(g, z));
    }
  }

  /** The aliases that reach a record, by name. Every name comes once, also in a graph
      with cycles; all aliases are there exactly when no two of them share a name. */
  method AllAliases(g: Graph, record: Node) returns (all: seq<Node>)
    requires Closed(g) && record in g.aliases
    ensures forall a <- all :: Reaches(g, record, a)
    ensures forall i, j :: 0 <= i < j < |all| ==>
              Sorting.LexLeq(NameOf(g, all[i]), NameOf(g, all[j])) && NameOf(g, all[i]) != NameOf(g, all[j])
    ensures (forall a :: Reaches(g, record, a) ==> a in all) <==> DistinctNames(g, record)
  {
    var found: map<string, Node> := map[];
    var queue := g.aliases[record];
    forall a | a in queue
      ensures Reaches(g, record, a)
    {
      ReachesStep(g, record, record, a);
    }
    while queue != []
      invariant Sound(g, record, found, queue)
      invariant Covered(g, record, found, queue) && forall k <- found :: Covered(g, found[k], found, queue)
      decreases |Names(g) - found.Keys|, FirstNew(g, queue, found)
    {
      var alias, rest := queue[0], queue[1..];
      ghost var before, waiting := found, queue;
      found := found[g.name[alias] := alias];
      ghost var more;
      queue, more := AppendNew(g, g.aliases[alias], found, rest);
      CoverageKept(g, record, alias, before, waiting, queue);
      SoundnessKept(g, record, alias, before, waiting, more);
      Progress(g, alias, before, waiting, more);
    }
    EverythingFound(g, record, found);
    var values := ValuesOf(g, found);
    NameOrder(g);
    Sorting.SortSorts(values, NameLeq(g));
    all := Sorting.Sort(values, NameLeq(g));
    SortedValues(g, record, found, values, all);
  }

  method AppendNew(g: Graph, aliases: seq<Node>, found: map<string, Node>, rest: seq<Node>)
    returns (queue: seq<Node>, ghost more: seq<Node>)
    ensures queue == rest + more
    ensures forall a :: a in more <==> a in aliases && NameOf(g, a) !in found
  {
    queue, more := rest, [];
    for i := 0 to |aliases|
      invariant queue == rest + more
      invariant forall a :: a in more <==> a in aliases[..i] && NameOf(g, a) !in found
    {
      if NameOf(g, aliases[i]) !in found {
        queue, more := queue + [aliases[i]], more + [aliases[i]];
      }
    }
  }

  lemma CoverageKept(g: Graph, record: Node, alias: Node, found: map<string, Node>, waiting: seq<Node>, queue: seq<Node>)
    requires alias in g.name && waiting != [] && waiting[0] == alias && waiting[1..] <= queue
    requires Covered(g, record, found, waiting) && forall k <- found :: Covered(g, found[k], found, waiting)
    requires var found' := found[g.name[alias] := alias]; Covered(g, alias, found', queue)
    ensures var found' := found[g.name[alias] := alias];
            Covered(g, record, found', queue) && forall k <- found' :: Covered(g, found'[k], found', queue)
  {
    var found' := found[g.name[alias] := alias];
    forall n | Covered(g, n, found, waiting)
      ensures Covered(g, n, found', queue)
    {
      if n in g.aliases {
        forall a | a in g.aliases[n] && NameOf(g, a) !in found'
          ensures a in queue
        {
          assert a in waiting && a != alias;
          var i :| 0 <= i < |waiting| && waiting[i] == a;
          assert a == waiting[1..][i - 1] == queue[i - 1];
        }
      }
    }
  }

  lemma SoundnessKept(g: Graph, record: Node, alias: Node, found: map<string, Node>, waiting: seq<Node>, more: seq<Node>)
    requires Closed(g) && record in g.aliases && waiting != [] && waiting[0] == alias
    requires Sound(g, record, found, waiting) && alias in g.aliases && forall a <- more :: a in g.aliases[alias]
    ensures Sound(g, record, found[g.name[alias] := alias], waiting[1..] + more)
  {
    forall a | a in more
      ensures Reaches(g, record, a)
    {
      ReachesStep(g, record, alias, a);
    }
  }

  /** Either a name is new, or the queue has lost an entry in front of the next new one. */
  lemma Progress(g: Graph, alias: Node, found: map<string, Node>, waiting: seq<Node>, more: seq<Node>)
    requires alias in g.name && waiting != [] && waiting[0] == alias
    requires var found' := found[g.name[alias] := alias]; forall a <- more :: NameOf(g, a) !in found'
    ensures var found' := found[g.name[alias] := alias];
            if g.name[alias] in found
            then found'.Keys == found.Keys && FirstNew(g, waiting[1..] + more, found') < FirstNew(g, waiting, found)
            else |Names(g) - found'.Keys| < |Names(g) - found.Keys|
  {
    var found' := found[g.name[alias] := alias];
    if g.name[alias] in found {
      SameNames(g, waiting[1..], found, found');
      FirstNewAppend(g, waiting[1..], more, found');
    } else {
      assert g.name[alias] in Names(g);
      assert Names(g) - found'.Keys == Names(g) - found.Keys - {g.name[alias]};
    }
  }

  lemma {:induction false} SameNames(g: Graph, queue: seq<Node>, found: map<string, Node>, found': map<string, Node>)
    requires found.Keys == found'.Keys
    ensures FirstNew(g, queue, found) == FirstNew(g, queue, found')
  {
    if queue != [] {
      assert NameOf(g, queue[0]) in found <==> NameOf(g, queue[0]) in found'.Keys;
      SameNames(g, queue[1..], found, found');
    }
  }

  /** With an empty queue and distinct names, everything reachable has been found. */
  lemma EverythingFound(g: Graph, record: Node, found: map<string, Node>)
    requires Closed(g) && record in g.aliases && Sound(g, record, found, [])
    requires Covered(g, record, found, []) && forall k <- found :: Covered(g, found[k], found, [])
    ensures DistinctNames(g, record) ==> forall a :: Reaches(g, record, a) ==> a in found.Values
  {
    if DistinctNames(g, record) {
      forall a | Reaches(g, record, a)
        ensures a in found.Values
      {
        var path :| IsPath(g, record, path) && |path| > 1 && path[|path| - 1] == a;
        PathFound(g, record, found, path, |path| - 1);
      }
    }
  }

  lemma {:induction false} PathFound(g: Graph, record: Node, found: map<string, Node>, path: seq<Node>, i: nat)
    requires Closed(g) && record in g.aliases && Sound(g, record, found, []) && DistinctNames(g, record)
    requires Covered(g, record, found, []) && forall k <- found :: Covered(g, found[k], found, [])
    requires IsPath(g, record, path) && 0 < i < |path|
    ensures NameOf(g, path[i]) in found && found[NameOf(g, path[i])] == path[i]
    decreases i
  {
    if i > 1 {
      PathFound(g, record, found, path, i - 1);
    }
    var a := path[i];
    assert Covered(g, path[i - 1], found, []);
    assert IsPath(g, record, path[..i + 1]) && path[..i + 1][i] == a;
    assert Reaches(g, record, a) && Reaches(g, record, found[NameOf(g, a)]);
  }

  method ValuesOf(g: Graph, found: map<string, Node>) returns (values: seq<Node>)
    requires forall k <- found :: NameOf(g, found[k]) == k
    ensures forall v :: v in values <==> v in found.Values
    ensures forall v :: multiset(values)[v] <= 1
  {
    values := [];
    var todo := found.Keys;
    while todo != {}
      invariant todo <= found.Keys
      invariant forall v :: v in values <==> NameOf(g, v) in found && NameOf(g, v) !in todo && found[NameOf(g, v)] == v
      invariant forall v :: multiset(values)[v] <= 1
    {
      var k :| k in todo;
      assert found[k] !in values;
      values := values + [found[k]];
      todo := todo - {k};
    }
  }

  lemma SortedValues(g: Graph, record: Node, found: map<string, Node>, values: seq<Node>, all: seq<Node>)
    requires Closed(g) && record in g.aliases && Sound(g, record, found, [])
    requires (forall v :: v in values <==> v in found.Values) && forall v :: multiset(values)[v] <= 1
    requires Sorting.Sorted(all, NameLeq(g)) && multiset(all) == multiset(values)
    requires DistinctNames(g, record) ==> forall a :: Reaches(g, record, a) ==> a in found.Values
    ensures forall a <- all :: Reaches(g, record, a)
    ensures forall i, j :: 0 <= i < j < |all| ==>
              Sorting.LexLeq(NameOf(g, all[i]), NameOf(g, all[j])) && NameOf(g, all[i]) != NameOf(g, all[j])
    ensures (forall a :: Reaches(g, record, a) ==> a in all) <==> DistinctNames(g, record)
  {
    forall v
      ensures v in all <==> v in found.Values
    {
      assert v in all <==> v in multiset(all);
      assert v in values <==> v in multiset(values);
    }
    forall i, j | 0 <= i < j < |all|
      ensures Sorting.LexLeq(NameOf(g, all[i]), NameOf(g, all[j])) && NameOf(g, all[i]) != NameOf(g, all[j])
    {
      assert NameLeq(g)(all[i], all[j]);
      assert all[i] in all && all[j] in all;
      if NameOf(g, all[i]) == NameOf(g, all[j]) {
        Sorting.CountTwo(all, i, j);
        assert false;
      }
    }
  }

  /** Two aliases that print the same: both point to the record, and the names of what
      points to it are not distinct, so that what is returned lacks one of them. */
  lemma EqualNamesHideAnAlias()
    ensures var g := Graph(map[0 := [1, 2], 1 := [], 2 := []], map[0 := "r", 1 := "x", 2 := "x"]);
            Closed(g) && Reaches(g, 0, 1) && Reaches(g, 0, 2) && NameOf(g, 1) == NameOf(g, 2) && !DistinctNames(g, 0)
  {
    var g := Graph(map[0 := [1, 2], 1 := [], 2 := []], map[0 := "r", 1 := "x", 2 := "x"]);
    ReachesStep(g, 0, 0, 1);
    ReachesStep(g, 0, 0, 2);
  }
}
