/** Threads that hold a key while they wait for another one can wait for each other,
    and then they wait for good. */
module LockDeadlock {
  import opened LockKeys
  import opened LockProtocol
  import opened LockRuns

  ghost predicate WaitsFor<K>(s: Broker<K>, t: Thread, k: K) {
    t in s.phase && (s.phase[t] == Asleep(k) || s.phase[t] == Notified(k))
  }

  /** `b` is queued ahead of `k`, in its way, and belongs to one of the threads. */
  ghost predicate InTheWay<K>(s: Broker<K>, k: K, b: K, threads: set<Thread>) {
    && k in s.queue && b in s.queue && Ahead(s.queue, b) < Ahead(s.queue, k)
    && Clash(s.items, b, k) && b in s.owner && s.owner[b] in threads
  }

  /** Threads and the keys they wait for, such that a key of one of them is in the way of
      each. One thread is a circle when it is in its own way. */
  ghost predicate Deadlocked<K>(s: Broker<K>, circle: map<Thread, K>) {
    forall t <- circle :: WaitsFor(s, t, circle[t]) && exists b <- s.queue :: InTheWay(s, circle[t], b, circle.Keys)
  }

  /** A key whose owner waits is not removed. */
  lemma OwnerStays<K>(s: Broker<K>, e: Event<K>, b: K, k: K)
    requires Inv(s) && Enabled(s, e) && b in s.owner && WaitsFor(s, s.owner[b], k)
    ensures e.Remove? ==> s.phase[e.t].key != b && s.phase[e.t].key in s.queue
    ensures b in s.queue && b in Apply(s, e).owner && Apply(s, e).owner[b] == s.owner[b]
  {
    hide InOrder, NoLostWakeup, Blocked, Distinct, Ahead, Without;
  }

  /** A blocked thread goes on waiting for its key. */
  lemma WaiterStays<K>(s: Broker<K>, e: Event<K>, t: Thread, k: K)
    requires Enabled(s, e) && WaitsFor(s, t, k) && Blocked(s.items, s.queue, k)
    ensures WaitsFor(Apply(s, e), t, k)
  {
    hide Blocked, Ahead, Without;
  }

  lemma PlacesDiffer<K>(queue: seq<K>, g: K, k: K)
    requires g in queue && k in queue && g != k
    ensures Ahead(queue, g) != Ahead(queue, k)
  {}

  lemma InTheWayBlocks<K>(s: Broker<K>, k: K, b: K, threads: set<Thread>)
    requires InTheWay(s, k, b, threads)
    ensures Blocked(s.items, s.queue, k)
  {
    assert s.queue[Ahead(s.queue, b)] == b;
  }

  lemma WaiterOwns<K>(s: Broker<K>, t: Thread, k: K)
    requires Inv(s) && WaitsFor(s, t, k)
    ensures k in s.owner && s.owner[k] == t && k !in s.granted
  {
    hide InOrder, NoLostWakeup, Blocked, Distinct;
  }

  lemma StaysInTheWay<K>(s: Broker<K>, e: Event<K>, circle: map<Thread, K>, t: Thread, b: K)
    requires Inv(s) && Enabled(s, e) && t in circle && forall u <- circle :: WaitsFor(s, u, circle[u])
    requires InTheWay(s, circle[t], b, circle.Keys)
    ensures InTheWay(Apply(s, e), circle[t], b, circle.Keys)
  {
    var k := circle[t];
    WaiterOwns(s, t, k);
    OwnerStays(s, e, k, k);
    OwnerStays(s, e, b, circle[s.owner[b]]);
    hide Inv, Blocked, Ahead, Without, Conflicts, Apply, WaitsFor, Enabled;
    if e.Remove? {
      PlacesDiffer(s.queue, s.phase[e.t].key, b);
    }
    StepKeepsOrder(s, e, k);
    StepKeepsOrder(s, e, b);
  }

  /** No step of any thread ends a deadlock. */
  lemma DeadlockStays<K>(s: Broker<K>, e: Event<K>, circle: map<Thread, K>)
    requires Inv(s) && Enabled(s, e) && Deadlocked(s, circle)
    ensures Deadlocked(Apply(s, e), circle)
  {
    hide Inv, Apply, Enabled, InTheWay, WaitsFor, Blocked;
    forall t | t in circle
      ensures WaitsFor(Apply(s, e), t, circle[t])
      ensures exists b <- Apply(s, e).queue :: InTheWay(Apply(s, e), circle[t], b, circle.Keys)
    {
      var b :| b in s.queue && InTheWay(s, circle[t], b, circle.Keys);
      InTheWayBlocks(s, circle[t], b, circle.Keys);
      WaiterStays(s, e, t, circle[t]);
      StaysInTheWay(s, e, circle, t, b);
      InTheWayIsQueued(Apply(s, e), circle[t], b, circle.Keys);
    }
  }

  lemma InTheWayIsQueued<K>(s: Broker<K>, k: K, b: K, threads: set<Thread>)
    requires InTheWay(s, k, b, threads)
    ensures b in s.queue
  {}

  lemma DeadlockedIsDenied<K>(s: Broker<K>, circle: map<Thread, K>)
    requires Inv(s) && Deadlocked(s, circle)
    ensures forall t <- circle :: circle[t] !in s.granted
  {
    hide Inv, WaitsFor;
    forall t | t in circle
      ensures circle[t] !in s.granted
    {
      WaiterOwns(s, t, circle[t]);
    }
  }

  /** Whatever happens afterwards, the threads of the circle wait for the same keys and
      never get them. */
  lemma {:induction false} DeadlockIsForGood<K>(s: Broker<K>, more: seq<Event<K>>, circle: map<Thread, K>)
    requires Inv(s) && Deadlocked(s, circle) && Valid(s, more)
    ensures Deadlocked(Run(s, more), circle) && forall t <- circle :: circle[t] !in Run(s, more).granted
    decreases |more|
  {
    hide Inv, Deadlocked, Apply, Enabled;
    if more == [] {
      DeadlockedIsDenied(s, circle);
    } else {
      InvStep(s, more[0]);
      DeadlockStays(s, more[0], circle);
      DeadlockIsForGood(Apply(s, more[0]), more[1..], circle);
    }
  }

  function Only(item: string): Footprint {
    Footprint(map["plenary" := {item}], map[])
  }

  lemma OnlyConflicts(i: string, j: string)
    ensures Conflicts(Only(i), Only(j)) <==> i == j
  {
    if i == j {
      assert ClashAt(Only(i), Only(j), "plenary", i);
    }
  }

  lemma NewRequest<K>(s: Broker<K>, t: Thread, k: K, fp: Footprint) returns (run: seq<Event<K>>, s': Broker<K>)
    requires Inv(s) && t !in s.phase && k !in s.items
    ensures Valid(s, run) && s' == Run(s, run) && Inv(s')
    ensures s'.items == s.items[k := fp] && s'.queue == s.queue && s'.owner == s.owner && s'.granted == s.granted
    ensures s'.phase == s.phase[t := Requesting(k)] && k !in s.queue
  {
    OneStep(s, Create(k, fp));
    var s1 := Apply(s, Create(k, fp));
    OneStep(s1, Request(t, k));
    s' := Apply(s1, Request(t, k));
    Concat(s, [Create(k, fp)], [Request(t, k)]);
    run := [Create(k, fp)] + [Request(t, k)];
  }

  lemma EnterEffect<K>(s: Broker<K>, t: Thread, k: K) returns (run: seq<Event<K>>, s': Broker<K>)
    requires Inv(s) && k !in s.queue && t in s.phase && s.phase[t] == Requesting(k)
    ensures Valid(s, run) && s' == Run(s, run) && Inv(s')
    ensures s'.items == s.items && s'.queue == s.queue + [k] && s'.owner == s.owner[k := t]
    ensures Ahead(s'.queue, k) == |s.queue|
    ensures if Blocked(s'.items, s'.queue, k) then s'.phase == s.phase[t := Asleep(k)] && s'.granted == s.granted
            else s'.phase == s.phase - {t} && s'.granted == s.granted + {k}
  {
    OneStep(s, Enter(t));
    run, s' := [Enter(t)], Apply(s, Enter(t));
    AheadUnique(s.queue + [k], k, |s.queue|);
  }

  /** A thread makes a new key for one item and asks for it. */
  lemma TakeNew<K>(s: Broker<K>, t: Thread, k: K, item: string) returns (run: seq<Event<K>>, s': Broker<K>)
    requires Inv(s) && t !in s.phase && k !in s.items
    ensures Valid(s, run) && s' == Run(s, run) && Inv(s')
    ensures s'.items == s.items[k := Only(item)] && s'.queue == s.queue + [k] && s'.owner == s.owner[k := t]
    ensures Ahead(s'.queue, k) == |s.queue|
    ensures if Blocked(s'.items, s'.queue, k) then s'.phase == s.phase[t := Asleep(k)] && s'.granted == s.granted
            else s'.phase == s.phase && s'.granted == s.granted + {k}
  {
    hide Inv, Valid, Run, Blocked, Distinct;
    var r1, s1 := NewRequest(s, t, k, Only(item));
    var r2, s2 := EnterEffect(s1, t, k);
    Concat(s, r1, r2);
    run, s' := r1 + r2, s2;
    assert s.phase[t := Requesting(k)] - {t} == s.phase;
  }

  /** A thread asks for an item that the key at position `j` holds, and falls asleep. */
  lemma AskInVain<K>(s: Broker<K>, t: Thread, k: K, item: string, j: nat) returns (run: seq<Event<K>>, s': Broker<K>)
    requires Inv(s) && t !in s.phase && k !in s.items
    requires j < |s.queue| && s.items[s.queue[j]] == Only(item)
    ensures Valid(s, run) && s' == Run(s, run) && Inv(s')
    ensures s'.items == s.items[k := Only(item)] && s'.queue == s.queue + [k] && s'.granted == s.granted
    ensures s'.phase == s.phase[t := Asleep(k)] && s'.owner == s.owner[k := t]
  {
    run, s' := TakeNew(s, t, k, item);
    OnlyConflicts(item, item);
    assert s'.queue[j] == s.queue[j];
    assert Clash(s'.items, s'.queue[j], k);
  }

  lemma HoldersApart(items: map<nat, Footprint>)
    requires 0 in items && items[0] == Only("a")
    ensures !Blocked(items, [0], 0)
    ensures 1 in items && items[1] == Only("b") ==> !Blocked(items, [0, 1], 1)
  {
    OnlyConflicts("a", "b");
    assert Ahead([0], 0) == 0 && Ahead([0, 1], 1) <= 1;
  }

  lemma FirstHolder() returns (run: seq<Event<nat>>, s: Broker<nat>)
    ensures Valid(Empty<nat>(), run) && s == Run(Empty<nat>(), run) && Inv(s)
    ensures s.items == map[0 := Only("a")] && s.queue == [0]
    ensures s.granted == {0} && s.phase == map[] && s.owner == map[0 := 0]
  {
    var s0 := Empty<nat>();
    assert Inv(s0);
    hide Inv, Valid, Run, Blocked, Only;
    run, s := TakeNew(s0, 0, 0, "a");
    HoldersApart(s.items);
  }

  lemma TwoHolders() returns (run: seq<Event<nat>>, s: Broker<nat>)
    ensures Valid(Empty<nat>(), run) && s == Run(Empty<nat>(), run) && Inv(s)
    ensures s.items == map[0 := Only("a"), 1 := Only("b")] && s.queue == [0, 1]
    ensures s.granted == {0, 1} && s.phase == map[] && s.owner == map[0 := 0, 1 := 1]
  {
    hide Inv, Valid, Run, Blocked, Only;
    var r1, s1 := FirstHolder();
    var r2, s2 := TakeNew(s1, 1, 1, "b");
    HoldersApart(s2.items);
    Concat(Empty<nat>(), r1, r2);
    run, s := r1 + r2, s2;
  }

  lemma TwoSleepers() returns (run: seq<Event<nat>>, s: Broker<nat>)
    ensures Valid(Empty<nat>(), run) && s == Run(Empty<nat>(), run)
    ensures Inv(s) && s.queue == [0, 1, 2, 3] && s.granted == {0, 1} && s.phase == map[0 := Asleep(2), 1 := Asleep(3)]
    ensures s.owner == map[0 := 0, 1 := 1, 2 := 0, 3 := 1]
    ensures s.items == map[0 := Only("a"), 1 := Only("b"), 2 := Only("b"), 3 := Only("a")]
  {
    hide Inv, Valid, Run, Distinct;
    var r1, s1 := TwoHolders();
    var r2, s2 := AskInVain(s1, 0, 2, "b", 1);
    var r3, s3 := AskInVain(s2, 1, 3, "a", 0);
    Concat(Empty<nat>(), r1, r2);
    Concat(Empty<nat>(), r1 + r2, r3);
    run, s := r1 + r2 + r3, s3;
  }

  /** The one-key assumption is needed: two threads that each hold one key and ask for
      the other's item can be brought to wait for good. */
  lemma TwoKeysDeadlock() returns (run: seq<Event<nat>>)
    ensures Valid(Empty<nat>(), run)
    ensures var s := Run(Empty<nat>(), run);
            && s.queue == [0, 1, 2, 3] && s.granted == {0, 1} && s.owner == map[0 := 0, 1 := 1, 2 := 0, 3 := 1]
            && forall more :: Valid(s, more) ==> 2 !in Run(s, more).granted && 3 !in Run(s, more).granted
  {
    hide Inv, Valid, Run, Deadlocked, Only;
    var r, s := TwoSleepers();
    CircleOfTwo(s);
    run := r;
    forall more | Valid(s, more)
      ensures 2 !in Run(s, more).granted && 3 !in Run(s, more).granted
    {
      var circle: map<Thread, nat> := map[0 := 2, 1 := 3];
      DeadlockIsForGood(s, more, circle);
      assert circle[0] == 2 && circle[1] == 3;
    }
  }

  lemma CircleOfTwo(s: Broker<nat>)
    requires s.queue == [0, 1, 2, 3] && s.owner == map[0 := 0, 1 := 1, 2 := 0, 3 := 1]
    requires s.phase == map[0 := Asleep(2), 1 := Asleep(3)]
    requires s.items == map[0 := Only("a"), 1 := Only("b"), 2 := Only("b"), 3 := Only("a")]
    ensures Deadlocked(s, map[0 := 2, 1 := 3])
  {
    OnlyConflicts("a", "a");
    OnlyConflicts("b", "b");
    hide Conflicts, Only, Ahead;
    forall n: nat | n < 4
      ensures Ahead(s.queue, n) == n
    {
      AheadUnique(s.queue, n, n);
    }
    var circle: map<Thread, nat> := map[0 := 2, 1 := 3];
    assert InTheWay(s, 2, 1, circle.Keys) && InTheWay(s, 3, 0, circle.Keys);
  }
}
