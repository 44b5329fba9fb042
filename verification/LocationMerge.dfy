/** The smallest common location of two locations and of the hosts of a cluster,
    and the batch construction of the table. */
module LocationMerging {
  import opened LocationTables
  import opened Locations
  import opened Options

  /** From the root down to `x`. */
  ghost function Chain(f: Forest, x: Loc): (c: seq<Loc>)
    requires Good(f) && x in f.kind
    ensures c != [] && c[|c| - 1] == x
    decreases Rank(f.kind[x])
  {
    if x in f.parent then
      ParentsRankLower(f.kind[x], f.kind[f.parent[x]]);
      Chain(f, f.parent[x]) + [x]
    else [x]
  }

  ghost function Root(f: Forest, x: Loc): Loc
    requires Good(f) && x in f.kind
  {
    Chain(f, x)[0]
  }

  lemma {:induction false} ChainIsUp(f: Forest, x: Loc, i: nat)
    requires Good(f) && x in f.kind && i < |Chain(f, x)|
    ensures Up(f.parent, x, Chain(f, x)[i], |Chain(f, x)| - 1 - i)
    ensures Chain(f, x)[i] in f.kind && Chain(f, Chain(f, x)[i]) == Chain(f, x)[..i + 1]
    decreases Rank(f.kind[x])
  {
    hide IsClosure;
    if i < |Chain(f, x)| - 1 {
      ParentsRankLower(f.kind[x], f.kind[f.parent[x]]);
      ChainIsUp(f, f.parent[x], i);
      assert Chain(f, x)[..i + 1] == Chain(f, f.parent[x])[..i + 1];
    }
  }

  lemma {:induction false} UpIsInChain(f: Forest, x: Loc, y: Loc, n: nat)
    requires Good(f) && x in f.kind && Up(f.parent, x, y, n)
    ensures n < |Chain(f, x)| && Chain(f, x)[|Chain(f, x)| - 1 - n] == y
    decreases n
  {
    hide IsClosure;
    if n > 0 {
      UpIsInChain(f, f.parent[x], y, n - 1);
    }
  }

  ghost predicate Contains(f: Forest, y: Loc, x: Loc) {
    Below(f.parent, x, y)
  }

  lemma ContainsIffInChain(f: Forest, y: Loc, x: Loc)
    requires Good(f) && x in f.kind
    ensures Contains(f, y, x) <==> y in Chain(f, x)
  {
    if n: nat :| Up(f.parent, x, y, n) {
      UpIsInChain(f, x, y, n);
    }
    if i :| 0 <= i < |Chain(f, x)| && Chain(f, x)[i] == y {
      ChainIsUp(f, x, i);
    }
  }

  /** `r` contains every location of `xs`, and every location that does contains `r`;
      None when there is no such location. */
  ghost predicate LowestContaining(f: Forest, xs: seq<Loc>, r: Option<Loc>) {
    match r
    case None => forall y: Loc :: !ContainsAll(f, y, xs)
    case Some(m) => ContainsAll(f, m, xs) && forall y: Loc :: ContainsAll(f, y, xs) ==> Contains(f, y, m)
  }

  ghost predicate ContainsAll(f: Forest, y: Loc, xs: seq<Loc>) {
    forall x <- xs :: Contains(f, y, x)
  }

  lemma LowestUnique(f: Forest, xs: seq<Loc>, ys: seq<Loc>, r: Option<Loc>, q: Option<Loc>)
    requires Good(f)
    requires forall x :: x in xs <==> x in ys
    requires LowestContaining(f, xs, r) && LowestContaining(f, ys, q)
    ensures r == q
  {
    assert forall y: Loc :: ContainsAll(f, y, xs) <==> ContainsAll(f, y, ys);
    if r.Some? && q.Some? {
      var m: nat :| Up(f.parent, r.value, q.value, m);
      var n: nat :| Up(f.parent, q.value, r.value, n);
      UpAppend(f.parent, r.value, q.value, r.value, m, n);
      NoCycle(f.kind, f.parent, r.value, m + n);
    }
  }

  /** The ancestors of a location by falling distance, then the location itself. */
  method GetParts(ghost f: Forest, links: Links, x: Loc) returns (parts: seq<Loc>)
    requires Good(f) && f.links == links && x in f.kind
    ensures parts == Chain(f, x)
  {
    ghost var c := Chain(f, x);
    var rows := set k | k in links && k.0 == x;
    RowsOfChain(f, x);
    parts := [];
    while rows != {}
      invariant |parts| < |c| && parts == c[..|parts|]
      invariant rows == ChainRows(c, x, |parts|)
      decreases |c| - |parts|
    {
      ghost var i := |parts|;
      FirstRow(f, x, i, rows);
      var row :| row in rows && forall r <- rows :: links[r] <= links[row];
      parts := parts + [row.1];
      rows := rows - {row};
      NextRows(f, x, i);
    }
    RowsLeft(c, x, |parts|);
    parts := parts + [x];
  }

  /** The rows of `x` to the members of its chain from position `i` on. */
  ghost function ChainRows(c: seq<Loc>, x: Loc, i: nat): set<Link> {
    set j | i <= j < |c| - 1 :: (x, c[j])
  }

  lemma RowsLeft(c: seq<Loc>, x: Loc, i: nat)
    ensures ChainRows(c, x, i) == {} <==> i >= |c| - 1
  {
    if i < |c| - 1 {
      assert (x, c[i]) in ChainRows(c, x, i);
    }
  }

  lemma ChainRow(f: Forest, x: Loc, j: nat)
    requires Good(f) && x in f.kind && j < |Chain(f, x)| - 1
    ensures (x, Chain(f, x)[j]) in f.links && f.links[(x, Chain(f, x)[j])] == |Chain(f, x)| - 1 - j
  {
    ChainIsUp(f, x, j);
  }

  lemma LinkIsUp(f: Forest, k: Link)
    requires Good(f) && k in f.links
    ensures f.links[k] > 0 && Up(f.parent, k.0, k.1, f.links[k])
  {}

  lemma RowsOfChain(f: Forest, x: Loc)
    requires Good(f) && x in f.kind
    ensures (set k | k in f.links && k.0 == x) == ChainRows(Chain(f, x), x, 0)
  {
    hide IsClosure, Legal;
    var c := Chain(f, x);
    forall k | k in f.links && k.0 == x
      ensures k in ChainRows(c, x, 0)
    {
      LinkIsUp(f, k);
      UpIsInChain(f, x, k.1, f.links[k]);
      assert k == (x, c[|c| - 1 - f.links[k]]);
    }
    forall j | 0 <= j < |c| - 1
      ensures (x, c[j]) in f.links
    {
      ChainRow(f, x, j);
    }
  }

  lemma FirstRow(f: Forest, x: Loc, i: nat, rows: set<Link>)
    requires Good(f) && x in f.kind && i < |Chain(f, x)|
    requires rows == ChainRows(Chain(f, x), x, i) && rows != {}
    ensures i < |Chain(f, x)| - 1 && (x, Chain(f, x)[i]) in rows && rows <= f.links.Keys
    ensures forall r <- rows :: f.links[r] <= f.links[(x, Chain(f, x)[i])]
    ensures forall r <- rows :: f.links[r] == f.links[(x, Chain(f, x)[i])] ==> r == (x, Chain(f, x)[i])
  {
    hide Good, Chain;
    var c := Chain(f, x);
    forall j | i <= j < |c| - 1
      ensures (x, c[j]) in f.links && f.links[(x, c[j])] == |c| - 1 - j
    {
      ChainRow(f, x, j);
    }
    var r :| r in rows;
  }

  lemma NextRows(f: Forest, x: Loc, i: nat)
    requires Good(f) && x in f.kind && i < |Chain(f, x)| - 1
    ensures ChainRows(Chain(f, x), x, i) - {(x, Chain(f, x)[i])} == ChainRows(Chain(f, x), x, i + 1)
  {
    hide Good, Chain;
    var c := Chain(f, x);
    forall j | i < j < |c| - 1
      ensures c[j] != c[i]
    {
      ChainRow(f, x, i);
      ChainRow(f, x, j);
    }
    DropFirstRow(c, x, i);
  }

  lemma DropFirstRow(c: seq<Loc>, x: Loc, i: nat)
    requires i < |c| - 1 && forall j :: i < j < |c| - 1 ==> c[j] != c[i]
    ensures ChainRows(c, x, i) - {(x, c[i])} == ChainRows(c, x, i + 1)
  {
    forall j | i <= j < |c| - 1
      ensures (x, c[j]) != (x, c[i]) <==> j != i
    {}
  }

  function CommonLength(a: seq<Loc>, b: seq<Loc>): (n: nat)
    ensures n <= |a| && n <= |b| && a[..n] == b[..n]
    ensures forall i :: 0 <= i < n ==> a[i] == b[i]
    ensures n < |a| && n < |b| ==> a[n] != b[n]
  {
    if a != [] && b != [] && a[0] == b[0] then 1 + CommonLength(a[1..], b[1..]) else 0
  }

  /** The end of the common part of two chains. */
  ghost function Merged(f: Forest, x: Loc, y: Loc): Option<Loc>
    requires Good(f) && x in f.kind && y in f.kind
  {
    var n := CommonLength(Chain(f, x), Chain(f, y));
    if n == 0 then None else Some(Chain(f, x)[n - 1])
  }

  lemma MergedIsLowest(f: Forest, x: Loc, y: Loc)
    requires Good(f) && x in f.kind && y in f.kind
    ensures LowestContaining(f, [x, y], Merged(f, x, y))
    ensures Merged(f, x, y).None? <==> Root(f, x) != Root(f, y)
    ensures var m := Merged(f, x, y); m.Some? ==> m.value in f.kind && Root(f, m.value) == Root(f, x)
  {
    var a, b := Chain(f, x), Chain(f, y);
    var n := CommonLength(a, b);
    forall z: Loc | ContainsAll(f, z, [x, y])
      ensures z in a[..n]
    {
      InBothChains(f, x, y, z);
    }
    if n > 0 {
      var m := a[n - 1];
      assert b[n - 1] == b[..n][n - 1] == a[..n][n - 1];
      ChainIsUp(f, x, n - 1);
      ChainIsUp(f, y, n - 1);
      assert Contains(f, m, x) && Contains(f, m, y);
      forall z: Loc | z in a[..n]
        ensures Contains(f, z, m)
      {
        ContainsIffInChain(f, z, m);
      }
    }
  }

  lemma InBothChains(f: Forest, x: Loc, y: Loc, z: Loc)
    requires Good(f) && x in f.kind && y in f.kind && ContainsAll(f, z, [x, y])
    ensures z in Chain(f, x)[..CommonLength(Chain(f, x), Chain(f, y))]
  {
    var a, b := Chain(f, x), Chain(f, y);
    assert Contains(f, z, [x, y][0]) && Contains(f, z, [x, y][1]);
    ContainsIffInChain(f, z, x);
    ContainsIffInChain(f, z, y);
    var i :| 0 <= i < |a| && a[i] == z;
    var j :| 0 <= j < |b| && b[j] == z;
    ChainIsUp(f, x, i);
    ChainIsUp(f, y, j);
    assert i == j;
    forall k | 0 <= k <= i
      ensures a[k] == b[k]
    {
      assert a[k] == a[..i + 1][k] && b[k] == b[..i + 1][k];
    }
    SharedPrefix(a, b, i + 1);
    assert a[i] == a[..CommonLength(a, b)][i];
  }

  lemma SharedPrefix(a: seq<Loc>, b: seq<Loc>, n: nat)
    requires n <= |a| && n <= |b| && forall i :: 0 <= i < n ==> a[i] == b[i]
    ensures n <= CommonLength(a, b)
  {}

  /** The lowest location that contains both, found by walking down from the roots. */
  method Merge(ghost f: Forest, links: Links, x: Loc, y: Loc) returns (merged: Option<Loc>)
    requires Good(f) && f.links == links && x in f.kind && y in f.kind
    ensures merged == Merged(f, x, y)
    ensures LowestContaining(f, [x, y], merged)
    ensures merged.None? <==> Root(f, x) != Root(f, y)
  {
    MergedIsLowest(f, x, y);
    if x == y {
      SharedPrefix(Chain(f, x), Chain(f, y), |Chain(f, x)|);
      return Some(x);
    }
    var a := GetParts(f, links, x);
    var b := GetParts(f, links, y);
    ghost var n := CommonLength(a, b);
    merged := None;
    var i := 0;
    while i < |a| && i < |b|
      invariant 0 <= i <= n
      invariant merged == if i == 0 then None else Some(a[i - 1])
      decreases n - i
    {
      if a[i] != b[i] {
        return;
      }
      SharedPrefix(a, b, i + 1);
      merged := Some(a[i]);
      i := i + 1;
    }
  }

  /** `minimum_location` over the locations of the hosts, in any order they come. */
  ghost function Minimum(f: Forest, hosts: seq<Loc>): (r: Option<Loc>)
    requires Good(f) && forall h <- hosts :: h in f.kind
    ensures r.Some? ==> r.value in f.kind
  {
    if hosts == [] then None else
      var last := hosts[|hosts| - 1];
      var before := Minimum(f, hosts[..|hosts| - 1]);
      if before.Some? then
        MergedIsLowest(f, before.value, last);
        Merged(f, before.value, last)
      else Some(last)
  }

  method MinimumLocation(ghost f: Forest, links: Links, hosts: seq<Loc>) returns (location: Option<Loc>)
    requires Good(f) && f.links == links && forall h <- hosts :: h in f.kind
    ensures location == Minimum(f, hosts)
    ensures hosts != [] && (forall h <- hosts :: Root(f, h) == Root(f, hosts[0])) ==>
              location.Some? && LowestContaining(f, hosts, location)
  {
    location := None;
    for i := 0 to |hosts|
      invariant location == Minimum(f, hosts[..i])
    {
      assert hosts[..i + 1][..i] == hosts[..i];
      if location.Some? {
        location := Merge(f, links, location.value, hosts[i]);
      } else {
        location := Some(hosts[i]);
      }
    }
    assert hosts[..|hosts|] == hosts;
    if hosts != [] && forall h <- hosts :: Root(f, h) == Root(f, hosts[0]) {
      MinimumOfOneTree(f, hosts, Root(f, hosts[0]));
    }
  }

  /** When the hosts share a root, the result is the deepest location that contains
      them all. */
  lemma {:induction false} MinimumOfOneTree(f: Forest, hosts: seq<Loc>, root: Loc)
    requires Good(f) && hosts != [] && forall h <- hosts :: h in f.kind && Root(f, h) == root
    ensures var r := Minimum(f, hosts);
            r.Some? && Root(f, r.value) == root && LowestContaining(f, hosts, r)
    decreases |hosts|
  {
    hide Good, LowestContaining, Up, Root;
    var n := |hosts| - 1;
    var last, front := hosts[n], hosts[..n];
    if front == [] {
      assert hosts == [last];
      LowestOfOne(f, last);
    } else {
      MinimumOfOneTree(f, front, root);
      var before := Minimum(f, front).value;
      MergedIsLowest(f, before, last);
      assert hosts == front + [last] && last in hosts;
      LowestExtends(f, front, before, last, Merged(f, before, last).value);
    }
  }

  lemma LowestOfOne(f: Forest, x: Loc)
    ensures LowestContaining(f, [x], Some(x))
  {
    assert Up(f.parent, x, x, 0);
    assert [x][0] == x;
    assert forall y: Loc :: ContainsAll(f, y, [x]) <==> Contains(f, y, x);
  }

  lemma LowestExtends(f: Forest, front: seq<Loc>, before: Loc, last: Loc, m: Loc)
    requires LowestContaining(f, front, Some(before)) && LowestContaining(f, [before, last], Some(m))
    ensures LowestContaining(f, front + [last], Some(m))
  {
    assert Contains(f, m, [before, last][0]) && Contains(f, m, [before, last][1]);
    forall y: Loc
      ensures ContainsAll(f, y, front + [last]) <==> ContainsAll(f, y, front) && Contains(f, y, last)
    {
      if ContainsAll(f, y, front + [last]) {
        assert (front + [last])[|front|] == last;
        forall x | x in front ensures x in front + [last] {}
      }
    }
    forall x | x in front
      ensures Contains(f, m, x)
    {
      ContainsTransitive(f, m, before, x);
    }
  }

  lemma ContainsTransitive(f: Forest, z: Loc, y: Loc, x: Loc)
    requires Contains(f, z, y) && Contains(f, y, x)
    ensures Contains(f, z, x)
  {
    var m: nat :| Up(f.parent, x, y, m);
    var n: nat :| Up(f.parent, y, z, n);
    UpAppend(f.parent, x, y, z, m, n);
  }

  ghost function Roots(f: Forest, hosts: seq<Loc>): seq<Loc>
    requires Good(f) && forall h <- hosts :: h in f.kind
  {
    seq(|hosts|, i requires 0 <= i < |hosts| => Root(f, hosts[i]))
  }

  /** What the loop does to the roots alone: it starts again after two that differ. */
  function LastRun(roots: seq<Loc>): Option<Loc> {
    if roots == [] then None else
      var before := LastRun(roots[..|roots| - 1]);
      if before == None || before == Some(roots[|roots| - 1]) then Some(roots[|roots| - 1]) else None
  }

  /** The roots fall into blocks of one root, any number of times, and a different one. */
  ghost predicate InBlocks(roots: seq<Loc>)
    decreases |roots|
  {
    roots == [] || exists k :: IsBlock(roots, k) && InBlocks(roots[k + 1..])
  }

  ghost predicate IsBlock(roots: seq<Loc>, k: nat) {
    0 < k < |roots| && roots[k] != roots[0] && forall i :: 0 <= i < k ==> roots[i] == roots[0]
  }

  /** The loop keeps the root of equal ones. */
  lemma {:induction false} LastRunOfEqual(roots: seq<Loc>)
    requires roots != [] && forall i :: 0 <= i < |roots| ==> roots[i] == roots[0]
    ensures LastRun(roots) == Some(roots[0])
    decreases |roots|
  {
    if |roots| > 1 {
      LastRunOfEqual(roots[..|roots| - 1]);
    } else {
      assert LastRun(roots[..0]) == None;
    }
  }

  lemma {:induction false} LastRunAfterNone(a: seq<Loc>, b: seq<Loc>)
    requires LastRun(a) == None
    ensures LastRun(a + b) == LastRun(b)
    decreases |b|
  {
    if b == [] {
      assert a + b == a;
    } else {
      assert (a + b)[..|a + b| - 1] == a + b[..|b| - 1];
      LastRunAfterNone(a, b[..|b| - 1]);
    }
  }

  lemma BlockLeavesNone(roots: seq<Loc>, k: nat)
    requires IsBlock(roots, k)
    ensures LastRun(roots) == LastRun(roots[k + 1..])
  {
    LastRunOfEqual(roots[..k]);
    assert roots[..k + 1][..k] == roots[..k];
    assert roots == roots[..k + 1] + roots[k + 1..];
    LastRunAfterNone(roots[..k + 1], roots[k + 1..]);
  }

  /** The loop ends with None exactly when the roots fall into such blocks. */
  lemma {:induction false} NoneExactlyInBlocks(roots: seq<Loc>)
    ensures LastRun(roots) == None <==> InBlocks(roots)
    decreases |roots|
  {
    if roots != [] {
      if forall i :: 0 <= i < |roots| ==> roots[i] == roots[0] {
        LastRunOfEqual(roots);
      } else {
        var k := FirstOther(roots, 0);
        assert IsBlock(roots, k);
        BlockLeavesNone(roots, k);
        NoneExactlyInBlocks(roots[k + 1..]);
        forall j | IsBlock(roots, j)
          ensures j == k
        {}
      }
    }
  }

  /** Where the first root comes that differs from the one in front. */
  lemma {:induction false} FirstOther(roots: seq<Loc>, n: nat) returns (k: nat)
    requires n < |roots| && (forall i :: 0 <= i <= n ==> roots[i] == roots[0])
    requires exists i :: 0 <= i < |roots| && roots[i] != roots[0]
    ensures IsBlock(roots, k)
    decreases |roots| - n
  {
    if roots[n + 1] != roots[0] {
      k := n + 1;
    } else {
      k := FirstOther(roots, n + 1);
    }
  }

  lemma {:induction false} MinimumRoot(f: Forest, hosts: seq<Loc>)
    requires Good(f) && forall h <- hosts :: h in f.kind
    ensures var r := Minimum(f, hosts);
            LastRun(Roots(f, hosts)) == if r.Some? then Some(Root(f, r.value)) else None
    decreases |hosts|
  {
    hide Good, Root;
    if hosts != [] {
      var n := |hosts| - 1;
      MinimumRoot(f, hosts[..n]);
      assert Roots(f, hosts)[..n] == Roots(f, hosts[..n]);
      if Minimum(f, hosts[..n]).Some? {
        MergedIsLowest(f, Minimum(f, hosts[..n]).value, hosts[n]);
      }
    }
  }

  /** For hosts of any trees: the result is right exactly when all have the same root,
      or when their roots fall into blocks of equal ones that end with a different one,
      which leaves the loop with None. */
  lemma MinimumExactlyRight(f: Forest, hosts: seq<Loc>)
    requires Good(f) && hosts != [] && forall h <- hosts :: h in f.kind
    ensures LowestContaining(f, hosts, Minimum(f, hosts)) <==>
            (forall h <- hosts :: Root(f, h) == Root(f, hosts[0])) || InBlocks(Roots(f, hosts))
  {
    MinimumRoot(f, hosts);
    NoneExactlyInBlocks(Roots(f, hosts));
    if forall h <- hosts :: Root(f, h) == Root(f, hosts[0]) {
      MinimumOfOneTree(f, hosts, Root(f, hosts[0]));
    } else {
      var h :| h in hosts && Root(f, h) != Root(f, hosts[0]);
      forall y: Loc
        ensures !ContainsAll(f, y, hosts)
      {
        if ContainsAll(f, y, hosts) {
          assert Contains(f, y, hosts[0]) && Contains(f, y, h);
          ContainerHasRoot(f, y, h);
          ContainerHasRoot(f, y, hosts[0]);
        }
      }
    }
  }

  lemma ContainerHasRoot(f: Forest, y: Loc, x: Loc)
    requires Good(f) && x in f.kind && Contains(f, y, x)
    ensures y in f.kind && Root(f, y) == Root(f, x)
  {
    ContainsIffInChain(f, y, x);
    var i :| 0 <= i < |Chain(f, x)| && Chain(f, x)[i] == y;
    ChainIsUp(f, x, i);
  }

  /** Three hosts of two trees for which the result leaves out one host. */
  lemma MinimumForgetsAHost()
    ensures var f := Forest(map[0 := Organization, 1 := Organization], map[], map[]);
            Good(f) && Minimum(f, [0, 1, 0]) == Some(0) && !Contains(f, 0, 1)
  {
    var f := Forest(map[0 := Organization, 1 := Organization], map[], map[]);
    assert forall x: Loc, n: nat :: n > 0 ==> !Up(f.parent, x, x, n);
    MergedIsLowest(f, 0, 1);
    assert [0, 1, 0][..2] == [0, 1] && [0, 1][..1] == [0] && [0][..0] == [];
    assert Root(f, 0) == 0 && Root(f, 1) == 1;
    assert Minimum(f, [0]) == Some(0);
    assert Minimum(f, [0, 1]) == None;
  }

  /** The order in which the hosts of one tree come does not matter, nor how often. */
  lemma MinimumIgnoresOrder(f: Forest, hosts: seq<Loc>, others: seq<Loc>)
    requires Good(f) && hosts != [] && forall h <- hosts :: h in f.kind
    requires forall h <- hosts :: Root(f, h) == Root(f, hosts[0])
    requires forall h :: h in hosts <==> h in others
    ensures Minimum(f, hosts) == Minimum(f, others)
  {
    assert hosts[0] in others;
    MinimumOfOneTree(f, hosts, Root(f, hosts[0]));
    MinimumOfOneTree(f, others, Root(f, hosts[0]));
    LowestUnique(f, hosts, others, Minimum(f, hosts), Minimum(f, others));
  }
}
