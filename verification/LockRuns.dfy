/** What every run of the lock queue guarantees: mutual exclusion, granting in
    queue order, no lost wake-up, bounded overtaking, and service for every waiter. */
module LockRuns {
  import opened LockKeys
  import opened LockProtocol

  ghost predicate Valid<K>(s: Broker<K>, run: seq<Event<K>>)
    decreases |run|
  {
    run == [] || (Enabled(s, run[0]) && Valid(Apply(s, run[0]), run[1..]))
  }

  ghost function Run<K>(s: Broker<K>, run: seq<Event<K>>): Broker<K>
    requires Valid(s, run)
    decreases |run|
  {
    if run == [] then s else Run(Apply(s, run[0]), run[1..])
  }

  /** The keys that left the queue during a run, in the order they left. */
  ghost function Removed<K>(s: Broker<K>, run: seq<Event<K>>): seq<K>
    requires Valid(s, run)
    decreases |run|
  {
    if run == [] then [] else
      (if run[0].Remove? then [s.phase[run[0].t].key] else []) + Removed(Apply(s, run[0]), run[1..])
  }

  /** How many of the removals of a run took away a key that was ahead of `k`. */
  ghost function RemovedAhead<K>(s: Broker<K>, run: seq<Event<K>>, k: K): nat
    requires Valid(s, run)
    decreases |run|
  {
    if run == [] then 0 else
      (if run[0].Remove? && Ahead(s.queue, s.phase[run[0].t].key) < Ahead(s.queue, k) then 1 else 0)
      + RemovedAhead(Apply(s, run[0]), run[1..], k)
  }

  lemma {:induction false} InvRun<K>(s: Broker<K>, run: seq<Event<K>>)
    requires Inv(s) && Valid(s, run)
    ensures Inv(Run(s, run))
    decreases |run|
  {
    if run != [] {
      InvStep(s, run[0]);
      InvRun(Apply(s, run[0]), run[1..]);
    }
  }

  /** Whatever threads do and whenever they are woken, no two granted keys conflict,
      and nobody sleeps un-notified unless a key ahead of it is in its way. */
  lemma SafetyOverRuns<K>(run: seq<Event<K>>)
    requires Valid(Empty<K>(), run)
    ensures Inv(Run(Empty<K>(), run)) && Exclusion(Run(Empty<K>(), run))
    ensures NoLostWakeup(Run(Empty<K>(), run))
  {
    InvRun(Empty<K>(), run);
    ExclusionFromOrder(Run(Empty<K>(), run));
  }

  /** An item one granted key holds exclusively is in no other granted key. */
  lemma ExclusiveItemsAreAlone<K>(run: seq<Event<K>>, a: K, b: K, name: string, item: string)
    requires Valid(Empty<K>(), run)
    requires var s := Run(Empty<K>(), run);
             && a in s.granted && b in s.granted && a != b && a in s.items && b in s.items
             && Holds(s.items[a].exclusive, name, item)
    ensures var s := Run(Empty<K>(), run);
            !Holds(s.items[b].exclusive, name, item) && !Holds(s.items[b].shared, name, item)
  {
    var s := Run(Empty<K>(), run);
    SafetyOverRuns(run);
    assert !ClashAt(s.items[a], s.items[b], name, item);
  }

  /** One step keeps two queued keys in their order until one of them is removed. */
  lemma StepKeepsOrder<K>(s: Broker<K>, e: Event<K>, k: K)
    requires Inv(s) && Enabled(s, e) && k in s.queue
    requires e.Remove? ==> s.phase[e.t].key != k
    ensures var s' := Apply(s, e);
            && k in s'.queue && k in s'.items && s'.items[k] == s.items[k]
            && Ahead(s'.queue, k) == Ahead(s.queue, k)
               - (if e.Remove? && Ahead(s.queue, s.phase[e.t].key) < Ahead(s.queue, k) then 1 else 0)
  {
    hide Distinct, Without, Blocked, InOrder, NoLostWakeup, Ahead;
    if e.Enter? && s.phase[e.t].key !in s.queue {
      AheadAppend(s.queue, k, s.phase[e.t].key);
    } else if e.Remove? {
      WithoutAhead(s.queue, s.phase[e.t].key, k);
    }
  }

  /** Nobody overtakes: while `k` waits, the number of keys ahead of it is the
      number there was less the keys that have left from in front of it. */
  lemma {:induction false} AheadAccounting<K>(s: Broker<K>, run: seq<Event<K>>, k: K)
    requires Inv(s) && Valid(s, run)
    requires k in s.queue && k !in Removed(s, run)
    ensures k in Run(s, run).queue
    ensures Ahead(Run(s, run).queue, k) + RemovedAhead(s, run, k) == Ahead(s.queue, k)
    decreases |run|
  {
    if run != [] {
      InvStep(s, run[0]);
      StepKeepsOrder(s, run[0], k);
      AheadAccounting(Apply(s, run[0]), run[1..], k);
    }
  }

  /** Conflicting requests are granted in queue order: the later one never has the
      lock before the earlier one has been removed. */
  lemma {:induction false} GrantedInOrder<K>(s: Broker<K>, run: seq<Event<K>>, a: K, b: K)
    requires Inv(s) && Valid(s, run)
    requires a in s.queue && b in s.queue && Ahead(s.queue, a) < Ahead(s.queue, b)
    requires Clash(s.items, a, b)
    requires b in Run(s, run).granted
    ensures a in Removed(s, run)
    decreases |run|
  {
    assert b !in s.granted;
    hide InOrder, PhasesAgree, NoLostWakeup, Distinct, Clash, Apply;
    if run != [] {
      var e := run[0];
      InvStep(s, e);
      if e.Remove? && s.phase[e.t].key == a {
      } else {
        StepKeepsOrder(s, e, a);
        StepKeepsOrder(s, e, b);
        if Ahead(Apply(s, e).queue, a) == Ahead(Apply(s, e).queue, b) {
          assert false;
        }
        GrantedInOrder(Apply(s, e), run[1..], a, b);
      }
    }
  }

  /** No thread asks for a key while it has another one in the queue. */
  ghost predicate OneKeyEach<K>(s: Broker<K>) {
    && (forall j, k | j in s.owner && k in s.owner && s.owner[j] == s.owner[k] :: j == k)
    && (forall k <- s.owner :: s.owner[k] in s.phase ==> s.phase[s.owner[k]] in {Asleep(k), Notified(k), Leaving(k)})
  }

  ghost predicate AsksWithEmptyHands<K>(s: Broker<K>, e: Event<K>) {
    e.Request? ==> forall k <- s.owner :: s.owner[k] != e.t
  }

  lemma OneKeyStep<K>(s: Broker<K>, e: Event<K>)
    requires Inv(s) && Enabled(s, e) && OneKeyEach(s) && AsksWithEmptyHands(s, e)
    ensures OneKeyEach(Apply(s, e))
  {
    hide Distinct, Without, Blocked, InOrder, NoLostWakeup, Ahead;
    match e
    case Create(_, _) =>
    case Request(_, _) =>
    case Enter(t) => EnterKeepsOneKey(s, t);
    case Wake(_) =>
    case StartRelease(_, _) =>
    case Remove(_) =>
    case Close(_) =>
  }

  lemma EnterKeepsOneKey<K>(s: Broker<K>, t: Thread)
    requires Inv(s) && Enabled(s, Enter(t)) && OneKeyEach(s)
    ensures OneKeyEach(Apply(s, Enter(t)))
  {
    hide Distinct, Blocked, InOrder, NoLostWakeup, Ahead;
    forall k | k in s.owner
      ensures s.owner[k] != t
    {
      assert s.owner[k] in s.phase ==> s.phase[s.owner[k]] in {Asleep(k), Notified(k), Leaving(k)};
    }
  }

  /** The event that brings the first key of the queue closer to leaving. */
  ghost function HeadEvent<K>(s: Broker<K>): Event<K>
    requires s.queue != [] && s.queue[0] in s.owner
  {
    var k := s.queue[0];
    var t := s.owner[k];
    if k !in s.granted then Wake(t) else if t in s.phase then Remove(t) else StartRelease(t, k)
  }

  ghost function HeadWork<K>(s: Broker<K>): (w: nat)
    requires s.queue != [] && s.queue[0] in s.owner
    ensures 1 <= w <= 3
  {
    var k := s.queue[0];
    if k !in s.granted then 3 else if s.owner[k] in s.phase then 1 else 2
  }

  lemma HeadEnabled<K>(s: Broker<K>)
    requires Inv(s) && OneKeyEach(s) && s.queue != []
    ensures s.queue[0] in s.owner
    ensures var e := HeadEvent(s); Enabled(s, e) && !e.Request? && (e.Wake? ==> s.phase[e.t] == Notified(s.queue[0]))
    ensures HeadEvent(s).Remove? ==> s.phase[HeadEvent(s).t] == Leaving(s.queue[0])
    ensures !Blocked(s.items, s.queue, s.queue[0])
  {
    hide Distinct, InOrder, Clash;
    assert Ahead(s.queue, s.queue[0]) == 0;
  }

  lemma HeadEffect<K>(s: Broker<K>)
    requires s.queue != [] && s.queue[0] in s.owner && !Blocked(s.items, s.queue, s.queue[0])
    requires var e := HeadEvent(s); Enabled(s, e) && (e.Wake? || e.Remove? ==> s.phase[e.t].key == s.queue[0])
    ensures var e := HeadEvent(s);
            if HeadWork(s) == 1
            then Removed(s, [e]) == [s.queue[0]] && Apply(s, e).queue == s.queue[1..]
            else Removed(s, [e]) == [] && Apply(s, e).queue == s.queue && HeadWork(Apply(s, e)) == HeadWork(s) - 1
  {
    hide Blocked;
    assert [HeadEvent(s)][1..] == [];
    assert Ahead(s.queue, s.queue[0]) == 0;
  }

  /** There is no deadlock as long as each thread has at most one key: the first
      key of the queue can always take a step, which is not a spurious wake-up
      and brings its removal nearer. */
  lemma HeadAdvances<K>(s: Broker<K>)
    requires Inv(s) && OneKeyEach(s) && s.queue != []
    ensures s.queue[0] in s.owner && !Blocked(s.items, s.queue, s.queue[0])
    ensures var e := HeadEvent(s);
            && Enabled(s, e) && (e.Wake? ==> s.phase[e.t].Notified?)
            && Inv(Apply(s, e)) && OneKeyEach(Apply(s, e))
            && (if HeadWork(s) == 1
                then Removed(s, [e]) == [s.queue[0]] && Apply(s, e).queue == s.queue[1..]
                else Removed(s, [e]) == [] && Apply(s, e).queue == s.queue && HeadWork(Apply(s, e)) == HeadWork(s) - 1)
  {
    HeadEnabled(s);
    hide Inv, OneKeyEach, Blocked, Apply, Removed;
    HeadEffect(s);
    InvStep(s, HeadEvent(s));
    OneKeyStep(s, HeadEvent(s));
  }

  lemma Prepend<K>(s: Broker<K>, e: Event<K>, rest: seq<Event<K>>)
    requires Enabled(s, e) && Valid(Apply(s, e), rest)
    ensures Valid(s, [e] + rest) && Run(s, [e] + rest) == Run(Apply(s, e), rest)
    ensures Removed(s, [e] + rest) == Removed(s, [e]) + Removed(Apply(s, e), rest)
  {
    hide Enabled, Apply, Ahead;
    assert ([e] + rest)[1..] == rest && [e][1..] == [];
  }

  /** Steps that are enough to have `k` granted. */
  ghost function Cost<K>(s: Broker<K>, k: K): nat
    requires k in s.queue && s.queue[0] in s.owner
  {
    if k in s.granted then 0 else if Ahead(s.queue, k) == 0 then 1 else HeadWork(s) + 3 * (Ahead(s.queue, k) - 1) + 1
  }

  lemma CostFallsTo<K>(s: Broker<K>, s': Broker<K>, k: K)
    requires k in s.queue && k !in s.granted && Ahead(s.queue, k) > 0
    requires s.queue[0] in s.owner && (s'.queue != [] ==> s'.queue[0] in s'.owner)
    requires if HeadWork(s) == 1 then s'.queue == s.queue[1..]
             else s'.queue == s.queue && HeadWork(s') == HeadWork(s) - 1
    ensures k in s'.queue && Cost(s', k) < Cost(s, k)
  {
    if HeadWork(s) == 1 {
      assert Ahead(s.queue, k) == 1 + Ahead(s.queue[1..], k);
      assert s.queue[1..][Ahead(s.queue, k) - 1] == k;
    }
  }

  lemma CostFalls<K>(s: Broker<K>, k: K)
    requires Inv(s) && OneKeyEach(s) && k in s.queue && k !in s.granted
    ensures var e := HeadEvent(s); var s' := Apply(s, e);
            && Enabled(s, e) && Inv(s') && OneKeyEach(s') && k in s'.queue
            && Cost(s', k) < Cost(s, k) && k !in Removed(s, [e])
  {
    HeadAdvances(s);
    if Ahead(s.queue, k) == 0 {
      assert !Blocked(s.items, s.queue, k);
    } else {
      CostFallsTo(s, Apply(s, HeadEvent(s)), k);
      assert k != s.queue[0];
    }
  }

  /** Every queued key can be served, in at most three steps for each key ahead of
      it and one for itself, without anybody else having to arrive. */
  lemma {:induction false} CanBeServed<K>(s: Broker<K>, k: K) returns (run: seq<Event<K>>)
    requires Inv(s) && OneKeyEach(s) && k in s.queue
    ensures Valid(s, run) && k in Run(s, run).granted
    ensures |run| <= Cost(s, k) <= 3 * Ahead(s.queue, k) + 1
    ensures k !in Removed(s, run)
    decreases Cost(s, k)
  {
    if k in s.granted {
      run := [];
    } else {
      CostFalls(s, k);
      var rest := CanBeServed(Apply(s, HeadEvent(s)), k);
      Prepend(s, HeadEvent(s), rest);
      run := [HeadEvent(s)] + rest;
    }
  }

  ghost predicate OneKeyRun<K>(s: Broker<K>, run: seq<Event<K>>)
    requires Valid(s, run)
    decreases |run|
  {
    run == [] || (AsksWithEmptyHands(s, run[0]) && OneKeyRun(Apply(s, run[0]), run[1..]))
  }

  lemma {:induction false} OneKeyOverRun<K>(s: Broker<K>, run: seq<Event<K>>)
    requires Inv(s) && OneKeyEach(s) && Valid(s, run) && OneKeyRun(s, run)
    ensures OneKeyEach(Run(s, run))
    decreases |run|
  {
    if run != [] {
      InvStep(s, run[0]);
      OneKeyStep(s, run[0]);
      OneKeyOverRun(Apply(s, run[0]), run[1..]);
    }
  }

  /** After any run in which threads ask for one key at a time, every key in the
      queue can still be served. */
  lemma NobodyIsStuck<K>(run: seq<Event<K>>, k: K) returns (more: seq<Event<K>>)
    requires Valid(Empty<K>(), run) && OneKeyRun(Empty<K>(), run) && k in Run(Empty<K>(), run).queue
    ensures Valid(Empty<K>(), run + more) && k in Run(Empty<K>(), run + more).granted
    ensures |more| <= 3 * Ahead(Run(Empty<K>(), run).queue, k) + 1
  {
    InvRun(Empty<K>(), run);
    OneKeyOverRun(Empty<K>(), run);
    more := CanBeServed(Run(Empty<K>(), run), k);
    Concat(Empty<K>(), run, more);
  }

  /** With no assumption on threads: the owner of the first key can always move,
      and not by a spurious wake-up, unless it sleeps for a second key. */
  lemma HeadOwnerMovesUnlessAsleep<K>(s: Broker<K>)
    requires Inv(s) && s.queue != []
    ensures var t := s.owner[s.queue[0]];
            if t in s.phase && s.phase[t].Asleep?
            then s.phase[t].key != s.queue[0] && s.phase[t].key in s.queue && s.queue[0] in s.granted
            else exists e :: Enabled(s, e) && Mover(s, e) == t
  {
    var k := s.queue[0];
    var t := s.owner[k];
    assert !Blocked(s.items, s.queue, k);
    if t !in s.phase {
      assert Enabled(s, StartRelease(t, k)) && Mover(s, StartRelease(t, k)) == t;
    } else {
      var e := match s.phase[t]
        case Requesting(_) => Enter(t)
        case Asleep(_) => Wake(t)
        case Notified(_) => Wake(t)
        case Leaving(_) => Remove(t)
        case Closing(_) => Close(t);
      assert Enabled(s, e);
      assert !s.phase[t].Asleep? ==> Mover(s, e) == t;
    }
  }

  /** The thread whose own code an event advances; None for creating a key and for a
      wake-up without notification. */
  ghost function Mover<K>(s: Broker<K>, e: Event<K>): int {
    match e
    case Create(_, _) => -1
    case Wake(t) => if t in s.phase && s.phase[t].Notified? then t else -1
    case Request(t, _) => t
    case Enter(t) => t
    case StartRelease(t, _) => t
    case Remove(t) => t
    case Close(t) => t
  }

  lemma {:induction false} Concat<K>(s: Broker<K>, first: seq<Event<K>>, second: seq<Event<K>>)
    requires Valid(s, first) && Valid(Run(s, first), second)
    ensures Valid(s, first + second) && Run(s, first + second) == Run(Run(s, first), second)
    decreases |first|
  {
    if first == [] {
      assert first + second == second;
    } else {
      Concat(Apply(s, first[0]), first[1..], second);
      assert first + second == [first[0]] + (first[1..] + second);
      Prepend(s, first[0], first[1..] + second);
    }
  }

  lemma OneStep<K>(s: Broker<K>, e: Event<K>)
    requires Inv(s) && Enabled(s, e)
    ensures Valid(s, [e]) && Run(s, [e]) == Apply(s, e) && Inv(Apply(s, e))
  {
    InvStep(s, e);
    Prepend(s, e, []);
    assert [e] + [] == [e];
  }
}
