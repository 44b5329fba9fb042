/** How `update_host` turns two snapshots of a host's addresses into deletions,
    updates and additions. */
module HostDiff {
  import opened Options
  import Sorting

  /** One address record; an absent primary name is the empty string. */
  datatype IfData = IfData(
    iface: string, ip: nat, mac: Option<string>, fqdn: string, primary: string, comments: Option<string>)

  datatype Snapshot = Snapshot(byIp: map<nat, IfData>, byFqdn: map<string, IfData>)

  type Pair = (IfData, IfData)  // (old, new)

  datatype Match = KeyError | Match(deletes: seq<IfData>, pairs: seq<Pair>, rest: Snapshot)

  datatype Plan = Plan(deletes: seq<IfData>, addrUpdates: seq<Pair>, nameUpdates: seq<Pair>, adds: seq<IfData>)

  predicate HasPrimary(e: IfData) {
    e.primary != ""
  }

  /** The new entry an old one is matched with: by name, otherwise by address, and
      never one that is bound to a primary name when the other is not. */
  function Candidate(o: IfData, new_: Snapshot): Option<IfData> {
    var found := if o.fqdn in new_.byFqdn then Some(new_.byFqdn[o.fqdn])
                 else if o.ip in new_.byIp then Some(new_.byIp[o.ip])
                 else None;
    if found.Some? && HasPrimary(o) != HasPrimary(found.value) then None else found
  }

  function Without(s: Snapshot, n: IfData): Snapshot {
    Snapshot(s.byIp - {n.ip}, s.byFqdn - {n.fqdn})
  }

  /** The matching loop, from the first old entry on. */
  function MatchAll(old_: seq<IfData>, new_: Snapshot): Match {
    if old_ == [] then Match([], [], new_) else
      var o := old_[0];
      match Candidate(o, new_)
      case None =>
        (match MatchAll(old_[1..], new_)
         case KeyError => KeyError
         case Match(deletes, pairs, rest) => Match([o] + deletes, pairs, rest))
      case Some(n) =>
        if n.fqdn !in new_.byFqdn || n.ip !in new_.byIp then KeyError else
          match MatchAll(old_[1..], Without(new_, n))
          case KeyError => KeyError
          case Match(deletes, pairs, rest) => Match(deletes, [(o, n)] + pairs, rest)
  }

  /** What was found for the first entries, put before what is found for the others. */
  function Prefixed(deletes: seq<IfData>, pairs: seq<Pair>, m: Match): Match {
    if m.KeyError? then KeyError else Match(deletes + m.deletes, pairs + m.pairs, m.rest)
  }

  lemma PrefixedTwice(d1: seq<IfData>, p1: seq<Pair>, d2: seq<IfData>, p2: seq<Pair>, m: Match)
    ensures Prefixed(d1, p1, Prefixed(d2, p2, m)) == Prefixed(d1 + d2, p1 + p2, m)
  {
    if m.Match? {
      assert d1 + (d2 + m.deletes) == d1 + d2 + m.deletes && p1 + (p2 + m.pairs) == p1 + p2 + m.pairs;
    }
  }

  /** One round of the loop. */
  lemma MatchRound(old_: seq<IfData>, new_: Snapshot)
    requires old_ != []
    ensures var o := old_[0];
            MatchAll(old_, new_) ==
            match Candidate(o, new_)
            case None => Prefixed([o], [], MatchAll(old_[1..], new_))
            case Some(n) =>
              if n.fqdn !in new_.byFqdn || n.ip !in new_.byIp then KeyError
              else Prefixed([], [(o, n)], MatchAll(old_[1..], Without(new_, n)))
  {}

  /** Names and addresses of a snapshot determine each other. */
  ghost predicate OneToOne(s: Snapshot) {
    && (forall f <- s.byFqdn :: var e := s.byFqdn[f]; e.fqdn == f && e.ip in s.byIp && s.byIp[e.ip] == e)
    && (forall a <- s.byIp :: var e := s.byIp[a]; e.ip == a && e.fqdn in s.byFqdn && s.byFqdn[e.fqdn] == e)
  }

  ghost predicate DistinctNames(old_: seq<IfData>) {
    forall i, j :: 0 <= i < j < |old_| ==> old_[i].fqdn != old_[j].fqdn
  }

  function Olds(pairs: seq<Pair>): (r: seq<IfData>)
    ensures |r| == |pairs|
  {
    seq(|pairs|, i requires 0 <= i < |pairs| => pairs[i].0)
  }

  function News(pairs: seq<Pair>): (r: seq<IfData>)
    ensures |r| == |pairs|
  {
    seq(|pairs|, i requires 0 <= i < |pairs| => pairs[i].1)
  }

  ghost predicate Matches(p: Pair) {
    (p.0.fqdn == p.1.fqdn || p.0.ip == p.1.ip) && ((p.0.primary == "") <==> (p.1.primary == ""))
  }

  function Used(pairs: seq<Pair>): set<string> {
    set p | p in pairs :: p.1.fqdn
  }

  /** A one-to-one snapshot is split cleanly: every old entry is deleted or matched,
      every new one matched or left over, and none is used twice. */
  ghost predicate CleanSplit(old_: seq<IfData>, new_: Snapshot, m: Match) {
    && m.Match?
    && multiset(old_) == multiset(m.deletes) + multiset(Olds(m.pairs))
    && (forall p <- m.pairs :: Matches(p) && p.1.fqdn in new_.byFqdn && new_.byFqdn[p.1.fqdn] == p.1)
    && DistinctNames(News(m.pairs))
    && m.rest.byFqdn == new_.byFqdn - Used(m.pairs)
    && OneToOne(m.rest)
    && |new_.byFqdn| == |m.pairs| + |m.rest.byFqdn|
  }

  lemma WithoutIsOneToOne(s: Snapshot, n: IfData)
    requires OneToOne(s) && n.fqdn in s.byFqdn && s.byFqdn[n.fqdn] == n
    ensures OneToOne(Without(s, n)) && |Without(s, n).byFqdn| == |s.byFqdn| - 1
  {
    assert Without(s, n).byFqdn.Keys == s.byFqdn.Keys - {n.fqdn};
  }

  lemma CandidateIsNew(o: IfData, s: Snapshot)
    requires OneToOne(s) && Candidate(o, s).Some?
    ensures var n := Candidate(o, s).value;
            n.fqdn in s.byFqdn && s.byFqdn[n.fqdn] == n && n.ip in s.byIp && Matches((o, n))
  {}

  lemma {:induction false} MatchIsCleanSplit(old_: seq<IfData>, new_: Snapshot)
    requires OneToOne(new_)
    ensures CleanSplit(old_, new_, MatchAll(old_, new_))
    decreases |old_|
  {
    if old_ == [] {
      NothingToSplit(new_);
    } else {
      hide OneToOne, Candidate, MatchAll, DistinctNames, Used;
      var o, tail := old_[0], old_[1..];
      assert old_ == [o] + tail;
      MatchRound(old_, new_);
      match Candidate(o, new_)
      case None =>
        MatchIsCleanSplit(tail, new_);
        SplitDelete(o, tail, new_, MatchAll(tail, new_));
      case Some(n) =>
        CandidateIsNew(o, new_);
        WithoutIsOneToOne(new_, n);
        MatchIsCleanSplit(tail, Without(new_, n));
        RestLess(o, n, MatchAll(tail, Without(new_, n)), new_);
        SplitMore(o, n, tail, new_, Without(new_, n), MatchAll(tail, Without(new_, n)));
    }
  }

  lemma NothingToSplit(new_: Snapshot)
    requires OneToOne(new_)
    ensures CleanSplit([], new_, MatchAll([], new_))
  {
    hide OneToOne;
    assert MatchAll([], new_) == Match([], [], new_);
  }

  lemma SplitDelete(o: IfData, tail: seq<IfData>, new_: Snapshot, m: Match)
    requires CleanSplit(tail, new_, m)
    ensures CleanSplit([o] + tail, new_, Prefixed([o], [], m))
  {
    hide OneToOne, DistinctNames, Olds, News, Used;
    assert [] + m.pairs == m.pairs;
  }

  lemma SplitMore(o: IfData, n: IfData, tail: seq<IfData>, new_: Snapshot, less: Snapshot, m: Match)
    requires n.fqdn in new_.byFqdn && new_.byFqdn[n.fqdn] == n && Matches((o, n))
    requires forall f <- less.byFqdn :: f != n.fqdn && f in new_.byFqdn && new_.byFqdn[f] == less.byFqdn[f]
    requires CleanSplit(tail, less, m) && |less.byFqdn| == |new_.byFqdn| - 1
    requires less.byFqdn - Used(m.pairs) == new_.byFqdn - Used([(o, n)] + m.pairs)
    ensures CleanSplit([o] + tail, new_, Prefixed([], [(o, n)], m))
  {
    hide OneToOne, Matches, Used, Olds, News, DistinctNames;
    var pairs := [(o, n)] + m.pairs;
    NewsMore(o, n, m.pairs);
    OldsMore(o, n, m.pairs);
    assert Prefixed([], [(o, n)], m) == Match(m.deletes, pairs, m.rest) by { assert [] + m.deletes == m.deletes; }
    forall p | p in pairs
      ensures Matches(p) && p.1.fqdn in new_.byFqdn && new_.byFqdn[p.1.fqdn] == p.1
    {}
  }

  lemma OldsMore(o: IfData, n: IfData, pairs: seq<Pair>)
    ensures multiset(Olds([(o, n)] + pairs)) == multiset{o} + multiset(Olds(pairs))
  {
    assert Olds([(o, n)] + pairs) == [o] + Olds(pairs);
  }

  lemma RestLess(o: IfData, n: IfData, m: Match, new_: Snapshot)
    ensures m.Match? ==> Without(new_, n).byFqdn - Used(m.pairs) == new_.byFqdn - Used([(o, n)] + m.pairs)
  {
    if m.Match? {
      assert Used([(o, n)] + m.pairs) == {n.fqdn} + Used(m.pairs);
    }
  }

  lemma NewsMore(o: IfData, n: IfData, pairs: seq<Pair>)
    requires DistinctNames(News(pairs)) && forall p <- pairs :: p.1.fqdn != n.fqdn
    ensures DistinctNames(News([(o, n)] + pairs))
  {
    assert News([(o, n)] + pairs) == [n] + News(pairs);
    assert forall j :: 0 <= j < |pairs| ==> News(pairs)[j].fqdn == pairs[j].1.fqdn && pairs[j] in pairs;
  }

  /** The indexes of a snapshot as they are built: every entry is under its own name or
      address, and its name and its address are in both. Two entries may share either. */
  ghost predicate IndexesAgree(s: Snapshot) {
    && (forall f <- s.byFqdn :: s.byFqdn[f].fqdn == f && IsIndexed(s, s.byFqdn[f]))
    && (forall a <- s.byIp :: s.byIp[a].ip == a && IsIndexed(s, s.byIp[a]))
  }

  predicate IsIndexed(s: Snapshot, e: IfData) {
    e.fqdn in s.byFqdn && e.ip in s.byIp
  }

  /** The entry that old entry number `k` would be matched with shares its name or its
      address with one that has been matched before. */
  ghost predicate SharesWithMatched(old_: seq<IfData>, new_: Snapshot, k: nat)
    requires k < |old_|
  {
    var m := MatchAll(old_[..k], new_);
    m.Match? && Candidate(old_[k], m.rest).Some? &&
    var n := Candidate(old_[k], m.rest).value;
    exists p <- m.pairs :: p.1.fqdn == n.fqdn || p.1.ip == n.ip
  }

  lemma {:induction false} MatchAppend(a: seq<IfData>, b: seq<IfData>, s: Snapshot)
    ensures var m := MatchAll(a, s);
            MatchAll(a + b, s) == if m.KeyError? then KeyError else Prefixed(m.deletes, m.pairs, MatchAll(b, m.rest))
    decreases |a|
  {
    hide Candidate, Without;
    if a == [] {
      assert a + b == b;
      NothingPrefixed(MatchAll(b, s));
    } else {
      assert (a + b)[0] == a[0] && (a + b)[1..] == a[1..] + b;
      MatchRound(a + b, s);
      MatchRound(a, s);
      var o := a[0];
      hide MatchAll, Prefixed;
      match Candidate(o, s)
      case None =>
        MatchAppend(a[1..], b, s);
        PrefixedRest([o], [], MatchAll(a[1..], s), b);
      case Some(n) =>
        MatchAppend(a[1..], b, Without(s, n));
        PrefixedRest([], [(o, n)], MatchAll(a[1..], Without(s, n)), b);
    }
  }

  lemma NothingPrefixed(m: Match)
    ensures Prefixed([], [], m) == m && MatchAll([], Snapshot(map[], map[])).Match?
  {
    if m.Match? {
      assert [] + m.deletes == m.deletes && [] + m.pairs == m.pairs;
    }
  }

  lemma PrefixedRest(d: seq<IfData>, p: seq<Pair>, m: Match, b: seq<IfData>)
    ensures Prefixed(d, p, m).KeyError? <==> m.KeyError?
    ensures Prefixed(d, p, KeyError) == KeyError
    ensures m.Match? ==>
              Prefixed(Prefixed(d, p, m).deletes, Prefixed(d, p, m).pairs, MatchAll(b, Prefixed(d, p, m).rest)) ==
              Prefixed(d, p, Prefixed(m.deletes, m.pairs, MatchAll(b, m.rest)))
  {
    hide MatchAll;
    if m.Match? {
      PrefixedTwice(d, p, m.deletes, m.pairs, MatchAll(b, m.rest));
    }
  }

  function UsedAddresses(pairs: seq<Pair>): set<nat> {
    set p | p in pairs :: p.1.ip
  }

  /** What is left are the entries whose name or address no matched entry has. */
  lemma {:induction false} RestIsUnused(old_: seq<IfData>, s: Snapshot)
    ensures var m := MatchAll(old_, s);
            m.Match? ==> m.rest.byFqdn == s.byFqdn - Used(m.pairs) && m.rest.byIp == s.byIp - UsedAddresses(m.pairs)
    decreases |old_|
  {
    if old_ == [] {
      assert s.byFqdn - Used([]) == s.byFqdn && s.byIp - UsedAddresses([]) == s.byIp;
    } else {
      MatchRound(old_, s);
      var o := old_[0];
      match Candidate(o, s)
      case None =>
        RestIsUnused(old_[1..], s);
        assert MatchAll(old_[1..], s).Match? ==> [] + MatchAll(old_[1..], s).pairs == MatchAll(old_[1..], s).pairs;
      case Some(n) =>
        RestIsUnused(old_[1..], Without(s, n));
        var m := MatchAll(old_[1..], Without(s, n));
        UsedMore(o, n, m, s);
    }
  }

  lemma UsedMore(o: IfData, n: IfData, m: Match, s: Snapshot)
    ensures m.Match? ==> Without(s, n).byFqdn - Used(m.pairs) == s.byFqdn - Used([(o, n)] + m.pairs)
                         && Without(s, n).byIp - UsedAddresses(m.pairs) == s.byIp - UsedAddresses([(o, n)] + m.pairs)
  {
    if m.Match? {
      RestLess(o, n, m, s);
      assert forall p :: p in [(o, n)] + m.pairs <==> p == (o, n) || p in m.pairs;
      assert UsedAddresses([(o, n)] + m.pairs) == {n.ip} + UsedAddresses(m.pairs);
    }
  }

  /** One more entry breaks the loop off exactly when what it would be matched with
      shares a name or an address with a matched entry. */
  lemma NextBreaksOff(old_: seq<IfData>, s: Snapshot, k: nat)
    requires k < |old_| && IndexesAgree(s) && MatchAll(old_[..k], s).Match?
    ensures MatchAll([old_[k]], MatchAll(old_[..k], s).rest).KeyError? <==> SharesWithMatched(old_, s, k)
  {
    hide MatchAll, IndexesAgree, Candidate, Used, UsedAddresses;
    var m := MatchAll(old_[..k], s);
    RestIsUnused(old_[..k], s);
    OnlyOne(old_[k], m.rest);
    if Candidate(old_[k], m.rest).Some? {
      var n := Candidate(old_[k], m.rest).value;
      CandidateIsIndexed(old_[k], s, m.rest);
      IsUsed(m.pairs, n);
    }
  }

  lemma CandidateIsIndexed(o: IfData, s: Snapshot, rest: Snapshot)
    requires IndexesAgree(s) && Candidate(o, rest).Some?
    requires forall f <- rest.byFqdn :: f in s.byFqdn && rest.byFqdn[f] == s.byFqdn[f]
    requires forall a <- rest.byIp :: a in s.byIp && rest.byIp[a] == s.byIp[a]
    ensures IsIndexed(s, Candidate(o, rest).value)
  {
    hide IsIndexed;
  }

  lemma IsUsed(pairs: seq<Pair>, n: IfData)
    ensures n.fqdn in Used(pairs) || n.ip in UsedAddresses(pairs) <==>
            exists p <- pairs :: p.1.fqdn == n.fqdn || p.1.ip == n.ip
  {}

  lemma OnlyOne(o: IfData, s: Snapshot)
    ensures MatchAll([o], s).KeyError? <==>
            Candidate(o, s).Some? && (Candidate(o, s).value.fqdn !in s.byFqdn || Candidate(o, s).value.ip !in s.byIp)
  {
    assert [o][1..] == [];
  }

  /** For snapshots as they are built, the loop breaks off exactly when some entry it comes
      to would be matched with one that shares its name or its address with an entry
      matched before. */
  lemma {:induction false} BreaksOffExactly(old_: seq<IfData>, s: Snapshot)
    requires IndexesAgree(s)
    ensures MatchAll(old_, s).KeyError? <==> exists k :: 0 <= k < |old_| && SharesWithMatched(old_, s, k)
    decreases |old_|
  {
    hide IndexesAgree, Candidate;
    if old_ != [] {
      var n := |old_| - 1;
      var front := old_[..n];
      assert old_ == front + [old_[n]];
      MatchAppend(front, [old_[n]], s);
      BreaksOffExactly(front, s);
      hide MatchAll;
      forall k | 0 <= k < n
        ensures SharesWithMatched(front, s, k) <==> SharesWithMatched(old_, s, k)
      {
        assert front[..k] == old_[..k];
      }
      if MatchAll(front, s).Match? {
        NextBreaksOff(old_, s, n);
      } else {
        var k :| 0 <= k < n && SharesWithMatched(front, s, k);
        assert SharesWithMatched(old_, s, k);
      }
    }
  }

  /** Two names that share an address make the loop break off. */
  lemma SharedAddressBreaksOff(a: IfData, b: IfData)
    requires a.fqdn != b.fqdn && a.ip == b.ip
    ensures var s := Snapshot(map[a.ip := b], map[a.fqdn := a, b.fqdn := b]);
            IndexesAgree(s) && MatchAll([a, b], s).KeyError?
  {
    var s := Snapshot(map[a.ip := b], map[a.fqdn := a, b.fqdn := b]);
    assert Candidate(a, s) == Some(a) && Candidate(b, Without(s, a)) == Some(b);
    assert b.ip !in Without(s, a).byIp;
    OnlyOne(b, Without(s, a));
    MatchRound([a, b], s);
    assert [a, b][1..] == [b];
    hide MatchAll, Candidate, Without;
  }

  /** Nothing is deleted and added again that could have been kept: when the name of an
      old entry, or the address of one whose name is gone, is among the additions, the
      two differ in whether they are bound to a primary name. */
  lemma {:induction false} NothingReAddedNeedlessly(old_: seq<IfData>, new_: Snapshot, o: IfData)
    requires OneToOne(new_) && o in old_
    ensures MatchAll(old_, new_).Match?
    ensures var rest := MatchAll(old_, new_).rest;
            && (o.fqdn in rest.byFqdn ==> (o.primary == "") != (rest.byFqdn[o.fqdn].primary == ""))
            && (o.fqdn !in new_.byFqdn && o.ip in rest.byIp ==> (o.primary == "") != (rest.byIp[o.ip].primary == ""))
    decreases |old_|
  {
    hide OneToOne, MatchAll;
    var tail := old_[1..];
    MatchIsCleanSplit(old_, new_);
    MatchRound(old_, new_);
    match Candidate(old_[0], new_)
    case None =>
      RestIsPart(tail, new_);
      if o in tail {
        NothingReAddedNeedlessly(tail, new_, o);
      }
    case Some(n) =>
      CandidateIsNew(old_[0], new_);
      WithoutIsOneToOne(new_, n);
      RestIsPart(tail, Without(new_, n));
      if o in tail {
        NothingReAddedNeedlessly(tail, Without(new_, n), o);
      }
  }

  lemma {:induction false} RestIsPart(old_: seq<IfData>, new_: Snapshot)
    requires OneToOne(new_)
    ensures MatchAll(old_, new_).Match?
    ensures var rest := MatchAll(old_, new_).rest;
            && (forall f <- rest.byFqdn :: f in new_.byFqdn && rest.byFqdn[f] == new_.byFqdn[f])
            && (forall a <- rest.byIp :: a in new_.byIp && rest.byIp[a] == new_.byIp[a])
    decreases |old_|
  {
    if old_ != [] {
      MatchRound(old_, new_);
      hide OneToOne, MatchAll;
      match Candidate(old_[0], new_)
      case None => RestIsPart(old_[1..], new_);
      case Some(n) =>
        CandidateIsNew(old_[0], new_);
        WithoutIsOneToOne(new_, n);
        RestIsPart(old_[1..], Without(new_, n));
    }
  }

  predicate AddrChanged(p: Pair) {
    p.0.ip != p.1.ip || p.0.mac != p.1.mac || p.0.comments != p.1.comments
  }

  predicate NameChanged(p: Pair) {
    p.0.fqdn != p.1.fqdn || p.0.iface != p.1.iface
  }

  function Filter(pairs: seq<Pair>, keep: Pair -> bool): (r: seq<Pair>)
    ensures forall p :: p in r <==> p in pairs && keep(p)
  {
    if pairs == [] then [] else (if keep(pairs[0]) then [pairs[0]] else []) + Filter(pairs[1..], keep)
  }

  function PrimaryLeq(a: IfData, b: IfData): bool {
    Sorting.LexLeq(a.primary, b.primary)
  }

  function PrimaryGeq(a: IfData, b: IfData): bool {
    Sorting.LexLeq(b.primary, a.primary)
  }

  lemma PrimaryOrder()
    ensures Sorting.TotalPreorder(PrimaryLeq) && Sorting.TotalPreorder(PrimaryGeq)
  {
    forall x: IfData, y: IfData
      ensures PrimaryLeq(x, y) || PrimaryLeq(y, x)
    {
      Sorting.LexTotal(x.primary, y.primary);
    }
    forall x: IfData, y: IfData, z: IfData | PrimaryLeq(x, y) && PrimaryLeq(y, z)
      ensures PrimaryLeq(x, z)
    {
      Sorting.LexTransitive(x.primary, y.primary, z.primary);
    }
    assert forall x, y :: PrimaryGeq(x, y) == PrimaryLeq(y, x);
  }

  /** The plan says what the matching found, and nothing else. */
  ghost predicate IsPlanFor(plan: Plan, m: Match)
    requires m.Match?
  {
    && multiset(plan.deletes) == multiset(m.deletes)
    && plan.addrUpdates == Filter(m.pairs, AddrChanged)
    && plan.nameUpdates == Filter(m.pairs, NameChanged)
    && |plan.adds| == |m.rest.byFqdn|
    && (forall e :: e in plan.adds <==> e in m.rest.byFqdn.Values)
  }

  /** Whoever has no primary name is added before, and deleted after, all who have one. */
  ghost predicate PrimariesInOrder(plan: Plan) {
    && (forall i, j :: 0 <= i < j < |plan.adds| && plan.adds[i].primary != "" ==> plan.adds[j].primary != "")
    && (forall i, j :: 0 <= i < j < |plan.deletes| && plan.deletes[j].primary != "" ==> plan.deletes[i].primary != "")
  }

  lemma {:induction false} FilterAppend(a: seq<Pair>, b: seq<Pair>, keep: Pair -> bool)
    ensures Filter(a + b, keep) == Filter(a, keep) + Filter(b, keep)
  {
    if a == [] {
      assert a + b == b;
    } else {
      assert (a + b)[1..] == a[1..] + b;
      FilterAppend(a[1..], b, keep);
    }
  }

  lemma FilterOne(p: Pair, keep: Pair -> bool)
    ensures Filter([p], keep) == if keep(p) then [p] else []
  {
    assert [p][1..] == [];
  }

  lemma MatchDone(old_: seq<IfData>, new_: Snapshot)
    requires old_ == []
    ensures MatchAll(old_, new_) == Match([], [], new_)
  {}

  lemma FilterNone()
    ensures forall keep: Pair -> bool :: Filter([], keep) == []
  {}

  method ValuesOf(m: map<string, IfData>) returns (values: seq<IfData>)
    ensures |values| == |m| && forall e :: e in values <==> e in m.Values
  {
    values := [];
    var todo := m.Keys;
    while todo != {}
      invariant todo <= m.Keys && |values| + |todo| == |m|
      invariant forall e :: e in values <==> exists k :: k in m && k !in todo && m[k] == e
    {
      var k :| k in todo;
      values := values + [m[k]];
      todo := todo - {k};
    }
  }

  /** The plan, or None when the new snapshot's two indexes disagree so that a matched
      entry is missing from one of them. */
  method UpdateHost(old_: seq<IfData>, new_: Snapshot) returns (plan: Option<Plan>)
    ensures plan.None? <==> MatchAll(old_, new_).KeyError?
    ensures OneToOne(new_) ==> plan.Some?
    ensures IndexesAgree(new_) ==> (plan.None? <==> exists k :: 0 <= k < |old_| && SharesWithMatched(old_, new_, k))
    ensures plan.Some? ==> IsPlanFor(plan.value, MatchAll(old_, new_)) && PrimariesInOrder(plan.value)
    ensures plan.Some? ==> forall i, j :: 0 <= i < j < |plan.value.adds| ==>
                                            Sorting.LexLeq(plan.value.adds[i].primary, plan.value.adds[j].primary)
    ensures plan.Some? ==> forall i, j :: 0 <= i < j < |plan.value.deletes| ==>
                                            Sorting.LexLeq(plan.value.deletes[j].primary, plan.value.deletes[i].primary)
    ensures plan.Some? ==> UpdatesOnlyChanges(plan.value, MatchAll(old_, new_).pairs)
  {
    hide OneToOne, Filter, Candidate, MatchAll, Sorting.Sort, IndexesAgree, SharesWithMatched;
    if IndexesAgree(new_) {
      BreaksOffExactly(old_, new_);
    }
    assert old_[0..] == old_;
    assert Filter([], AddrChanged) == [] && Filter([], NameChanged) == [] by { FilterNone(); }
    var deletes: seq<IfData>, addrUpdates: seq<Pair>, nameUpdates: seq<Pair> := [], [], [];
    ghost var pairs: seq<Pair> := [];
    var rest := new_;
    var i := 0;
    while i < |old_|
      invariant 0 <= i <= |old_|
      invariant MatchAll(old_, new_) == Prefixed(deletes, pairs, MatchAll(old_[i..], rest))
      invariant addrUpdates == Filter(pairs, AddrChanged) && nameUpdates == Filter(pairs, NameChanged)
    {
      var o := old_[i];
      assert old_[i..][1..] == old_[i + 1..];
      MatchRound(old_[i..], rest);
      var found := Candidate(o, rest);
      if found.None? {
        PrefixedTwice(deletes, pairs, [o], [], MatchAll(old_[i + 1..], rest));
        assert pairs + [] == pairs;
        deletes := deletes + [o];
      } else {
        var n := found.value;
        if AddrChanged((o, n)) {
          addrUpdates := addrUpdates + [(o, n)];
        }
        if NameChanged((o, n)) {
          nameUpdates := nameUpdates + [(o, n)];
        }
        FilterAppend(pairs, [(o, n)], AddrChanged);
        FilterOne((o, n), AddrChanged);
        FilterAppend(pairs, [(o, n)], NameChanged);
        FilterOne((o, n), NameChanged);
        if n.fqdn !in rest.byFqdn || n.ip !in rest.byIp {
          ImpossibleWhenOneToOne(old_, new_);
          return None;
        }
        PrefixedTwice(deletes, pairs, [], [(o, n)], MatchAll(old_[i + 1..], Without(rest, n)));
        assert deletes + [] == deletes;
        pairs := pairs + [(o, n)];
        rest := Without(rest, n);
      }
      i := i + 1;
    }
    assert MatchAll(old_[i..], rest) == Match([], [], rest) by { MatchDone(old_[i..], rest); }
    assert deletes + [] == deletes && pairs + [] == pairs;
    var adds := ValuesOf(rest.byFqdn);
    PrimaryOrder();
    Sorting.SortSorts(adds, PrimaryLeq);
    Sorting.SortSorts(deletes, PrimaryGeq);
    var sortedAdds, sortedDeletes := Sorting.Sort(adds, PrimaryLeq), Sorting.Sort(deletes, PrimaryGeq);
    SameElements(adds, sortedAdds);
    plan := Some(Plan(sortedDeletes, addrUpdates, nameUpdates, sortedAdds));
    PlannedAreChanges(plan.value, MatchAll(old_, new_));
  }

  /** The updates of a plan are exactly the pairs with a different address, MAC or comment,
      and those with a different name or interface. */
  ghost predicate UpdatesOnlyChanges(plan: Plan, pairs: seq<Pair>) {
    && (forall p :: p in plan.addrUpdates <==>
          p in pairs && (p.0.ip != p.1.ip || p.0.mac != p.1.mac || p.0.comments != p.1.comments))
    && (forall p :: p in plan.nameUpdates <==> p in pairs && (p.0.fqdn != p.1.fqdn || p.0.iface != p.1.iface))
  }

  lemma PlannedAreChanges(plan: Plan, m: Match)
    requires m.Match? && IsPlanFor(plan, m)
    ensures UpdatesOnlyChanges(plan, m.pairs)
  {}

  /** The same address with the same data, where both or neither have a primary name. */
  ghost predicate Same(o: IfData, n: IfData) {
    && o.iface == n.iface && o.ip == n.ip && o.mac == n.mac && o.fqdn == n.fqdn && o.comments == n.comments
    && ((o.primary == "") <==> (n.primary == ""))
  }

  ghost predicate AllThere(old_: seq<IfData>, new_: Snapshot) {
    forall o <- old_ :: o.fqdn in new_.byFqdn && Same(o, new_.byFqdn[o.fqdn])
  }

  /** Entries that are all there are paired with themselves. */
  lemma {:induction false} AllTherePairs(old_: seq<IfData>, new_: Snapshot)
    requires OneToOne(new_) && DistinctNames(old_) && AllThere(old_, new_)
    ensures var m := MatchAll(old_, new_);
            m.Match? && m.deletes == [] && (forall p <- m.pairs :: Same(p.0, p.1)) && |m.rest.byFqdn| == |new_.byFqdn| - |old_|
    decreases |old_|
  {
    if old_ != [] {
      var o := old_[0];
      var n := new_.byFqdn[o.fqdn];
      assert o in old_ && Candidate(o, new_) == Some(n);
      CandidateIsNew(o, new_);
      WithoutIsOneToOne(new_, n);
      forall e | e in old_[1..]
        ensures e.fqdn in Without(new_, n).byFqdn && Same(e, Without(new_, n).byFqdn[e.fqdn])
      {
        var j :| 0 <= j < |old_[1..]| && old_[1..][j] == e;
        assert old_[j + 1] == e && old_[0].fqdn != old_[j + 1].fqdn;
      }
      hide OneToOne, Candidate;
      AllTherePairs(old_[1..], Without(new_, n));
    }
  }

  ghost predicate IsEmpty(plan: Plan) {
    plan.deletes == [] && plan.addrUpdates == [] && plan.nameUpdates == [] && plan.adds == []
  }

  /** There is nothing to do exactly when the old entries are those of the new snapshot,
      up to which primary name they have. */
  lemma NothingToDoExactly(old_: seq<IfData>, new_: Snapshot, plan: Plan)
    requires OneToOne(new_) && DistinctNames(old_)
    requires MatchAll(old_, new_).Match? && IsPlanFor(plan, MatchAll(old_, new_))
    ensures IsEmpty(plan) <==> AllThere(old_, new_) && |old_| == |new_.byFqdn|
  {
    var m := MatchAll(old_, new_);
    MatchIsCleanSplit(old_, new_);
    PlannedAreChanges(plan, m);
    SameElements(plan.deletes, m.deletes);
    hide MatchAll, OneToOne, Filter, Candidate;
    if IsEmpty(plan) {
      forall o | o in old_
        ensures o.fqdn in new_.byFqdn && Same(o, new_.byFqdn[o.fqdn])
      {
        SurvivorHasPartner(old_, m, plan, o);
        var p :| p in m.pairs && p.0 == o;
        assert p !in plan.addrUpdates && p !in plan.nameUpdates;
      }
      assert |multiset(old_)| == |multiset(m.deletes)| + |multiset(Olds(m.pairs))|;
    }
    if AllThere(old_, new_) && |old_| == |new_.byFqdn| {
      AllTherePairs(old_, new_);
      UnchangedMeansEmpty(plan, m);
    }
  }

  lemma UnchangedMeansEmpty(plan: Plan, m: Match)
    requires m.Match? && IsPlanFor(plan, m) && m.deletes == [] && m.rest.byFqdn == map[]
    requires forall p <- m.pairs :: Same(p.0, p.1)
    ensures IsEmpty(plan)
  {
    PlannedAreChanges(plan, m);
    SameElements(plan.deletes, m.deletes);
    NoneIsEmpty(plan.addrUpdates);
    NoneIsEmpty(plan.nameUpdates);
  }

  lemma NoneIsEmpty(pairs: seq<Pair>)
    ensures (exists p :: p in pairs) <==> pairs != []
  {
    assert pairs != [] ==> pairs[0] in pairs;
  }

  lemma ImpossibleWhenOneToOne(old_: seq<IfData>, new_: Snapshot)
    requires MatchAll(old_, new_).KeyError?
    ensures !OneToOne(new_)
  {
    if OneToOne(new_) {
      MatchIsCleanSplit(old_, new_);
      assert false;
    }
  }

  lemma SameElements(a: seq<IfData>, b: seq<IfData>)
    requires multiset(a) == multiset(b)
    ensures |a| == |b| && forall e :: e in a <==> e in b
  {
    assert |multiset(a)| == |multiset(b)|;
    assert forall e :: e in a <==> e in multiset(a);
  }

  function Strip(e: IfData): IfData {
    e.(primary := "")
  }

  function Lookup(updates: seq<Pair>, o: IfData): Option<IfData> {
    if updates == [] then None else if updates[0].0 == o then Some(updates[0].1) else Lookup(updates[1..], o)
  }

  /** What the updates of a plan make of an old entry, as one simultaneous edit. */
  function Edited(plan: Plan, o: IfData): IfData {
    var addr, name := Lookup(plan.addrUpdates, o), Lookup(plan.nameUpdates, o);
    var moved := if addr.Some? then o.(ip := addr.value.ip, mac := addr.value.mac, comments := addr.value.comments) else o;
    if name.Some? then moved.(fqdn := name.value.fqdn, iface := name.value.iface) else moved
  }

  lemma {:induction false} LookupFinds(updates: seq<Pair>, o: IfData)
    ensures Lookup(updates, o).Some? ==> (o, Lookup(updates, o).value) in updates
    ensures Lookup(updates, o).None? ==> forall p <- updates :: p.0 != o
  {
    if updates != [] {
      LookupFinds(updates[1..], o);
      assert updates == [updates[0]] + updates[1..];
    }
  }

  lemma {:induction false} NamesOnce(s: seq<IfData>, o: IfData)
    requires DistinctNames(s)
    ensures multiset(s)[o] <= 1
  {
    if s != [] {
      NamesOnce(s[1..], o);
      assert s == [s[0]] + s[1..];
      assert forall j :: 0 <= j < |s| - 1 ==> s[1..][j] == s[j + 1];
      assert s[0] !in s[1..];
    }
  }

  /** An old entry is either deleted or has one partner. */
  lemma OnePartner(old_: seq<IfData>, m: Match, p: Pair, q: Pair)
    requires DistinctNames(old_) && m.Match? && multiset(old_) == multiset(m.deletes) + multiset(Olds(m.pairs))
    requires p in m.pairs
    ensures p.0 in old_ && p.0 !in m.deletes
    ensures q in m.pairs && q.0 == p.0 ==> q == p
  {
    NamesOnce(old_, p.0);
    var i :| 0 <= i < |m.pairs| && m.pairs[i] == p;
    assert Olds(m.pairs)[i] == p.0;
    assert p.0 in multiset(Olds(m.pairs)) && p.0 in multiset(old_);
    if q in m.pairs && q.0 == p.0 {
      var j :| 0 <= j < |m.pairs| && m.pairs[j] == q;
      assert Olds(m.pairs)[j] == p.0;
      if i < j {
        Sorting.CountTwo(Olds(m.pairs), i, j);
      } else if j < i {
        Sorting.CountTwo(Olds(m.pairs), j, i);
      }
    }
  }

  lemma PairIsEdited(old_: seq<IfData>, m: Match, plan: Plan, p: Pair)
    requires DistinctNames(old_) && m.Match? && multiset(old_) == multiset(m.deletes) + multiset(Olds(m.pairs))
    requires IsPlanFor(plan, m) && p in m.pairs
    ensures p.0 in old_ && p.0 !in plan.deletes && Strip(Edited(plan, p.0)) == Strip(p.1)
  {
    var addr, name := Lookup(plan.addrUpdates, p.0), Lookup(plan.nameUpdates, p.0);
    LookupFinds(plan.addrUpdates, p.0);
    LookupFinds(plan.nameUpdates, p.0);
    OnePartner(old_, m, p, if addr.Some? then (p.0, addr.value) else p);
    OnePartner(old_, m, p, if name.Some? then (p.0, name.value) else p);
    SameElements(m.deletes, plan.deletes);
  }

  lemma SurvivorHasPartner(old_: seq<IfData>, m: Match, plan: Plan, o: IfData)
    requires m.Match? && multiset(old_) == multiset(m.deletes) + multiset(Olds(m.pairs)) && IsPlanFor(plan, m)
    requires o in old_ && o !in plan.deletes
    ensures exists p :: p in m.pairs && p.0 == o
  {
    SameElements(m.deletes, plan.deletes);
    assert o in multiset(old_);
    assert o in multiset(Olds(m.pairs));
    var i :| 0 <= i < |Olds(m.pairs)| && Olds(m.pairs)[i] == o;
    assert m.pairs[i].0 == o;
  }

  /** Carried out as one edit, the plan turns the old entries into the new ones, up to
      the primary name: what is not deleted becomes its partner, one for one. */
  lemma PlanReachesNew(old_: seq<IfData>, new_: Snapshot, plan: Plan)
    requires OneToOne(new_) && DistinctNames(old_)
    requires MatchAll(old_, new_).Match? && IsPlanFor(plan, MatchAll(old_, new_))
    ensures forall e :: Reached(old_, plan, e) <==> (exists n :: n in new_.byFqdn.Values && Strip(n) == e)
    ensures |old_| - |plan.deletes| + |plan.adds| == |new_.byFqdn|
  {
    var m := MatchAll(old_, new_);
    MatchIsCleanSplit(old_, new_);
    hide OneToOne, DistinctNames, Edited, MatchAll;
    forall e
      ensures Reached(old_, plan, e) <==> (exists n :: n in new_.byFqdn.Values && Strip(n) == e)
    {
      ReachedIsNew(old_, new_, m, plan, e);
      NewIsReached(old_, new_, m, plan, e);
    }
    assert |multiset(old_)| == |multiset(m.deletes)| + |multiset(Olds(m.pairs))|;
    assert |multiset(plan.deletes)| == |multiset(m.deletes)|;
  }

  /** `e` is there after the plan, up to its primary name. */
  ghost predicate Reached(old_: seq<IfData>, plan: Plan, e: IfData) {
    || (exists o :: o in old_ && o !in plan.deletes && Strip(Edited(plan, o)) == e)
    || (exists a :: a in plan.adds && Strip(a) == e)
  }

  lemma ReachedIsNew(old_: seq<IfData>, new_: Snapshot, m: Match, plan: Plan, e: IfData)
    requires DistinctNames(old_) && CleanSplit(old_, new_, m) && IsPlanFor(plan, m)
    ensures Reached(old_, plan, e) ==> exists n :: n in new_.byFqdn.Values && Strip(n) == e
  {
    hide OneToOne, DistinctNames, Edited;
    if o :| o in old_ && o !in plan.deletes && Strip(Edited(plan, o)) == e {
      SurvivorHasPartner(old_, m, plan, o);
      var p :| p in m.pairs && p.0 == o;
      PairIsEdited(old_, m, plan, p);
      assert p.1 in new_.byFqdn.Values;
    }
    if a :| a in plan.adds && Strip(a) == e {
      assert a in m.rest.byFqdn.Values;
      var f :| f in m.rest.byFqdn && m.rest.byFqdn[f] == a;
      assert new_.byFqdn[f] == a;
    }
  }

  lemma NewIsReached(old_: seq<IfData>, new_: Snapshot, m: Match, plan: Plan, e: IfData)
    requires DistinctNames(old_) && CleanSplit(old_, new_, m) && IsPlanFor(plan, m) && OneToOne(new_)
    ensures (exists n :: n in new_.byFqdn.Values && Strip(n) == e) ==> Reached(old_, plan, e)
  {
    hide DistinctNames, Edited;
    if n :| n in new_.byFqdn.Values && Strip(n) == e {
      if n.fqdn in m.rest.byFqdn {
        assert n in m.rest.byFqdn.Values;
      } else {
        var p :| p in m.pairs && p.1.fqdn == n.fqdn;
        PairIsEdited(old_, m, plan, p);
      }
    }
  }
}
