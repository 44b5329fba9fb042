/** The lock queue as a step system: any number of threads, each asking for
    keys, sleeping on the condition variable, and releasing. One event is one
    region the real code runs without giving up the queue's mutex. */
module LockProtocol {
  import opened LockKeys

  type Thread = nat

  /** Where a thread is inside `acquire` or `release`; a thread without a phase
      is running its own code. */
  datatype Phase<K> =
    | Requesting(key: K)   // has written "acquiring", does not have the mutex yet
    | Asleep(key: K)       // waits on the condition, not notified
    | Notified(key: K)     // woken by notifyAll, has to take the mutex again
    | Leaving(key: K)      // has written "releasing", does not have the mutex yet
    | Closing(key: K)      // removed its key, has not written "released" yet

  /** `granted` is the truth about who holds a lock; `state` is only the label
      the keys carry. */
  datatype Broker<K> = Broker(
    items: map<K, Footprint>,
    queue: seq<K>,
    granted: set<K>,
    owner: map<K, Thread>,
    phase: map<Thread, Phase<K>>,
    state: map<K, KeyState>)

  datatype Event<K> =
    | Create(k: K, fp: Footprint)
    | Request(t: Thread, k: K)
    | Enter(t: Thread)
    | Wake(t: Thread)
    | StartRelease(t: Thread, k: K)
    | Remove(t: Thread)
    | Close(t: Thread)

  function Empty<K>(): Broker<K> {
    Broker(map[], [], {}, map[], map[], map[])
  }

  /** How many keys of the queue come before `k`. */
  function Ahead<K(==)>(queue: seq<K>, k: K): (n: nat)
    ensures n <= |queue|
    ensures forall j :: 0 <= j < n ==> queue[j] != k
    ensures n < |queue| ==> queue[n] == k
  {
    if queue == [] || queue[0] == k then 0 else 1 + Ahead(queue[1..], k)
  }

  function Without<K(==)>(queue: seq<K>, k: K): seq<K> {
    var n := Ahead(queue, k);
    if n < |queue| then queue[..n] + queue[n + 1..] else queue
  }

  ghost predicate Clash<K>(items: map<K, Footprint>, a: K, b: K) {
    a in items && b in items && Conflicts(items[a], items[b])
  }

  ghost predicate Blocked<K>(items: map<K, Footprint>, queue: seq<K>, k: K) {
    exists j :: 0 <= j < Ahead(queue, k) && Clash(items, queue[j], k)
  }

  ghost predicate Enabled<K>(s: Broker<K>, e: Event<K>) {
    match e
    case Create(k, _) => k !in s.items
    case Request(t, k) => t !in s.phase && k in s.items
    case Enter(t) => t in s.phase && s.phase[t].Requesting?
    case Wake(t) => t in s.phase && (s.phase[t].Notified? || s.phase[t].Asleep?)  // asleep: a spurious wake-up
    case StartRelease(t, k) => t !in s.phase && k in s.granted && k in s.owner && s.owner[k] == t
    case Remove(t) => t in s.phase && s.phase[t].Leaving?
    case Close(t) => t in s.phase && s.phase[t].Closing?
  }

  /** The test at the head of `acquire`'s loop, followed by going to sleep or by
      taking the lock. */
  ghost function Test<K>(s: Broker<K>, t: Thread, k: K): Broker<K>
  {
    if Blocked(s.items, s.queue, k)
    then s.(phase := s.phase[t := Asleep(k)])
    else s.(granted := s.granted + {k}, phase := s.phase - {t}, state := s.state[k := Acquired])
  }

  function NotifyAll<K>(phase: map<Thread, Phase<K>>): map<Thread, Phase<K>> {
    map t | t in phase :: if phase[t].Asleep? then Notified(phase[t].key) else phase[t]
  }

  ghost function Apply<K>(s: Broker<K>, e: Event<K>): Broker<K>
    requires Enabled(s, e)
  {
    match e
    case Create(k, fp) => s.(items := s.items[k := fp], state := s.state[k := Initialized])
    case Request(t, k) => s.(phase := s.phase[t := Requesting(k)], state := s.state[k := Acquiring])
    case Enter(t) =>
      var k := s.phase[t].key;
      if k in s.queue then s.(phase := s.phase - {t})  // InternalError: the key is already queued
      else Test(Queued(s, t, k), t, k)
    case Wake(t) => Test(s, t, s.phase[t].key)
    case StartRelease(t, k) => s.(phase := s.phase[t := Leaving(k)], state := s.state[k := Releasing])
    case Remove(t) =>
      var k := s.phase[t].key;
      s.(queue := Without(s.queue, k), granted := s.granted - {k}, owner := s.owner - {k},
         phase := NotifyAll(s.phase)[t := Closing(k)])
    case Close(t) => s.(phase := s.phase - {t}, state := s.state[s.phase[t].key := Released])
  }

  ghost predicate Known<K>(s: Broker<K>) {
    && (forall k <- s.queue :: k in s.items)
    && (forall t <- s.phase :: s.phase[t].key in s.items)
  }

  ghost predicate Distinct<K>(queue: seq<K>) {
    forall i, j :: 0 <= i < j < |queue| ==> queue[i] != queue[j]
  }

  ghost predicate WellFormed<K>(s: Broker<K>) {
    && Known(s)
    && Distinct(s.queue)
    && (forall k <- s.owner :: k in s.queue) && (forall k <- s.queue :: k in s.owner)
    && s.granted <= s.owner.Keys
    && s.state.Keys == s.items.Keys
  }

  ghost predicate PhasesAgree<K>(s: Broker<K>) {
    && (forall t <- s.phase :: s.phase[t].Asleep? || s.phase[t].Notified? ==>
          s.phase[t].key in s.owner && s.owner[s.phase[t].key] == t && s.phase[t].key !in s.granted)
    && (forall t <- s.phase :: s.phase[t].Leaving? ==>
          s.phase[t].key in s.owner && s.owner[s.phase[t].key] == t && s.phase[t].key in s.granted)
    && (forall k <- s.owner :: k !in s.granted ==>
          s.owner[k] in s.phase && s.phase[s.owner[k]] in {Asleep(k), Notified(k)})
  }

  /** A granted key conflicts with nothing that was queued before it. */
  ghost predicate InOrder<K>(s: Broker<K>) {
    forall i, j :: 0 <= i < j < |s.queue| && s.queue[j] in s.granted ==>
                     !Clash(s.items, s.queue[i], s.queue[j])
  }

  /** A sleeper nobody has notified really is blocked. */
  ghost predicate NoLostWakeup<K>(s: Broker<K>) {
    forall t <- s.phase :: s.phase[t].Asleep? ==> Blocked(s.items, s.queue, s.phase[t].key)
  }

  ghost predicate Inv<K>(s: Broker<K>) {
    WellFormed(s) && PhasesAgree(s) && InOrder(s) && NoLostWakeup(s)
  }

  ghost predicate Exclusion<K>(s: Broker<K>) {
    forall a, b | a in s.granted && b in s.granted && a != b ::
                     !Clash(s.items, a, b)
  }

  lemma AheadUnique<K>(queue: seq<K>, k: K, n: nat)
    requires n < |queue| && queue[n] == k && forall j :: 0 <= j < n ==> queue[j] != k
    ensures Ahead(queue, k) == n
  {}

  lemma AheadAppend<K>(queue: seq<K>, k: K, x: K)
    requires k in queue
    ensures Ahead(queue + [x], k) == Ahead(queue, k)
  {
    AheadUnique(queue + [x], k, Ahead(queue, k));
  }

  lemma TestKeepsInv<K>(s: Broker<K>, t: Thread, k: K)
    requires WellFormed(s) && InOrder(s)
    requires k in s.queue && k !in s.granted && s.owner[k] == t
    requires PhasesAgree(s.(phase := s.phase[t := Asleep(k)]))
    requires NoLostWakeup(s.(phase := s.phase - {t}))
    ensures Inv(Test(s, t, k))
  {
    var s' := Test(s, t, k);
    var waiting := s.(phase := s.phase[t := Asleep(k)]);
    var others := s.(phase := s.phase - {t});
    if Blocked(s.items, s.queue, k) {
      forall u | u in s'.phase && s'.phase[u].Asleep?
        ensures Blocked(s'.items, s'.queue, s'.phase[u].key)
      {
        if u != t { assert u in others.phase; }
      }
    } else {
      forall u | u in s'.phase
        ensures u in waiting.phase && waiting.phase[u] == s'.phase[u] && u in others.phase
      {}
      forall i, j | 0 <= i < j < |s.queue| && s.queue[j] in s'.granted
        ensures !Clash(s.items, s.queue[i], s.queue[j])
      {
        if s.queue[j] == k {
          AheadUnique(s.queue, k, j);
        }
      }
    }
  }

  /** The state in which `acquire` makes its first test: the key is queued last. */
  function Queued<K>(s: Broker<K>, t: Thread, k: K): Broker<K> {
    s.(queue := s.queue + [k], owner := s.owner[k := t])
  }

  lemma QueuedWellFormed<K>(s: Broker<K>, t: Thread, k: K)
    requires WellFormed(s) && InOrder(s) && k in s.items && k !in s.queue
    ensures WellFormed(Queued(s, t, k)) && InOrder(Queued(s, t, k))
  {
    var s1 := Queued(s, t, k);
    assert k !in s.granted;
    forall i, j | 0 <= i < j < |s1.queue| && s1.queue[j] in s1.granted
      ensures !Clash(s1.items, s1.queue[i], s1.queue[j])
    {
      assert s.queue[j] == s1.queue[j];
    }
  }

  lemma QueuedSleepersBlocked<K>(s: Broker<K>, t: Thread, k: K)
    requires WellFormed(s) && PhasesAgree(s) && NoLostWakeup(s) && k in s.items && k !in s.queue
    ensures NoLostWakeup(Queued(s, t, k))
  {
    var s1 := Queued(s, t, k);
    forall u | u in s1.phase && s1.phase[u].Asleep?
      ensures Blocked(s1.items, s1.queue, s1.phase[u].key)
    {
      var ku := s.phase[u].key;
      AheadAppend(s.queue, ku, k);
      var j :| 0 <= j < Ahead(s.queue, ku) && Clash(s.items, s.queue[j], ku);
      assert s1.queue[j] == s.queue[j];
    }
  }

  lemma QueuedPhases<K>(s: Broker<K>, t: Thread, k: K)
    requires WellFormed(s) && PhasesAgree(s) && k in s.items && k !in s.queue
    requires t in s.phase && s.phase[t].Requesting?
    ensures PhasesAgree(Queued(s, t, k).(phase := s.phase[t := Asleep(k)]))
  {}

  lemma EnterKeepsInv<K>(s: Broker<K>, t: Thread)
    requires Inv(s) && Enabled(s, Enter(t))
    ensures Inv(Apply(s, Enter(t)))
  {
    var k := s.phase[t].key;
    if k !in s.queue {
      QueuedWellFormed(s, t, k);
      QueuedSleepersBlocked(s, t, k);
      QueuedPhases(s, t, k);
      TestKeepsInv(Queued(s, t, k), t, k);
    }
  }

  lemma WakeKeepsInv<K>(s: Broker<K>, t: Thread)
    requires Inv(s) && Enabled(s, Wake(t))
    ensures Inv(Apply(s, Wake(t)))
  {
    hide InOrder, Blocked, Distinct;
    var k := s.phase[t].key;
    assert PhasesAgree(s.(phase := s.phase[t := Asleep(k)]));
    assert NoLostWakeup(s.(phase := s.phase - {t}));
    TestKeepsInv(s, t, k);
  }

  lemma RemovePhases<K>(s: Broker<K>, t: Thread)
    requires WellFormed(s) && PhasesAgree(s) && Enabled(s, Remove(t))
    ensures PhasesAgree(Apply(s, Remove(t)))
  {
    hide Distinct, Without, Known;
    var s' := Apply(s, Remove(t));
    var k := s.phase[t].key;
    assert forall u | u in s'.phase && u != t :: s'.phase[u].key == s.phase[u].key;
    forall q | q in s'.owner && q !in s'.granted
      ensures s'.owner[q] in s'.phase && s'.phase[s'.owner[q]] in {Asleep(q), Notified(q)}
    {
      assert q in s.owner && q !in s.granted;
      assert s.phase[s.owner[q]] in {Asleep(q), Notified(q)};
    }
  }

  lemma RemoveWellFormed<K>(s: Broker<K>, t: Thread)
    requires WellFormed(s) && PhasesAgree(s) && Enabled(s, Remove(t))
    ensures WellFormed(Apply(s, Remove(t)))
  {
    hide Distinct, Without;
    WithoutKeeps(s.queue, s.phase[t].key);
  }

  lemma WithoutInOrder<K>(s: Broker<K>, s': Broker<K>, k: K)
    requires Known(s) && Distinct(s.queue) && InOrder(s) && k in s.queue
    requires Known(s') && s'.queue == Without(s.queue, k) && s'.granted <= s.granted && s'.items == s.items
    ensures InOrder(s')
  {
    hide Distinct, Clash, Without;
    var n := Ahead(s.queue, k);
    WithoutKeeps(s.queue, k);
    forall i, j | 0 <= i < j < |s'.queue| && s'.queue[j] in s'.granted
      ensures !Clash(s'.items, s'.queue[i], s'.queue[j])
    {
      var i', j' := if i < n then i else i + 1, if j < n then j else j + 1;
      assert s'.queue[i] == s.queue[i'] && s'.queue[j] == s.queue[j'];
    }
  }

  lemma RemoveKeepsInv<K>(s: Broker<K>, t: Thread)
    requires Inv(s) && Enabled(s, Remove(t))
    ensures Inv(Apply(s, Remove(t)))
  {
    hide Distinct, Without, InOrder;
    RemovePhases(s, t);
    RemoveWellFormed(s, t);
    assert s.phase[t].key in s.queue;
    WithoutInOrder(s, Apply(s, Remove(t)), s.phase[t].key);
    assert forall u <- Apply(s, Remove(t)).phase :: !Apply(s, Remove(t)).phase[u].Asleep?;
  }

  lemma {:induction false} InvStep<K>(s: Broker<K>, e: Event<K>)
    requires Inv(s) && Enabled(s, e)
    ensures Inv(Apply(s, e))
  {
    hide Inv, Apply;
    match e
    case Create(k, fp) => CreateKeepsInv(s, k, fp);
    case Enter(t) => EnterKeepsInv(s, t);
    case Wake(t) => WakeKeepsInv(s, t);
    case Remove(t) => RemoveKeepsInv(s, t);
    case Request(t, k) => RequestKeepsInv(s, t, k);
    case StartRelease(t, k) => StartReleaseKeepsInv(s, t, k);
    case Close(t) => CloseKeepsInv(s, t);
  }

  lemma RequestKeepsInv<K>(s: Broker<K>, t: Thread, k: K)
    requires Inv(s) && Enabled(s, Request(t, k))
    ensures Inv(Apply(s, Request(t, k)))
  {
    hide Blocked, Distinct, Ahead, Clash;
  }

  lemma StartReleaseKeepsInv<K>(s: Broker<K>, t: Thread, k: K)
    requires Inv(s) && Enabled(s, StartRelease(t, k))
    ensures Inv(Apply(s, StartRelease(t, k)))
  {
    hide Blocked, Distinct, Ahead, Clash;
  }

  lemma CloseKeepsInv<K>(s: Broker<K>, t: Thread)
    requires Inv(s) && Enabled(s, Close(t))
    ensures Inv(Apply(s, Close(t)))
  {
    hide Blocked, Distinct, Ahead, Clash;
  }

  lemma CreateKeepsInv<K>(s: Broker<K>, k: K, fp: Footprint)
    requires Inv(s) && k !in s.items
    ensures Inv(Apply(s, Create(k, fp)))
  {
    var s' := Apply(s, Create(k, fp));
    hide Distinct, Conflicts, Ahead;
    assert forall a, b | a in s.items && b in s.items :: Clash(s'.items, a, b) == Clash(s.items, a, b);
    forall t | t in s'.phase && s'.phase[t].Asleep?
      ensures Blocked(s'.items, s'.queue, s'.phase[t].key)
    {
      var kt := s.phase[t].key;
      var j :| 0 <= j < Ahead(s.queue, kt) && Clash(s.items, s.queue[j], kt);
      assert Clash(s'.items, s'.queue[j], kt);
    }
  }

  /** Taking a key out keeps the order of the others. */
  lemma WithoutKeeps<K>(queue: seq<K>, k: K)
    requires Distinct(queue) && k in queue
    ensures var n := Ahead(queue, k); var rest := Without(queue, k);
            && |rest| == |queue| - 1 && Distinct(rest) && k !in rest
            && (forall i :: 0 <= i < |rest| ==> rest[i] == queue[if i < n then i else i + 1])
            && (forall x <- rest :: x in queue && x != k) && (forall x <- queue :: x != k ==> x in rest)
  {
    var n := Ahead(queue, k);
    var rest := Without(queue, k);
    forall x | x in queue && x != k
      ensures x in rest
    {
      var i :| 0 <= i < |queue| && queue[i] == x;
      assert rest[if i < n then i else i - 1] == x;
    }
  }

  lemma InvKnown<K>(s: Broker<K>)
    requires Inv(s)
    ensures Known(s)
  {}

  lemma LeavingIsQueued<K>(s: Broker<K>, t: Thread)
    requires Inv(s) && t in s.phase && s.phase[t].Leaving?
    ensures s.phase[t].key in s.queue && Distinct(s.queue)
  {
    hide InOrder, NoLostWakeup, Distinct;
  }

  lemma WithoutMultiset<K>(queue: seq<K>, k: K)
    requires k in queue
    ensures multiset(Without(queue, k)) == multiset(queue) - multiset{k}
  {
    var n := Ahead(queue, k);
    assert queue == queue[..n] + [k] + queue[n + 1..];
  }

  lemma WithoutAhead<K>(queue: seq<K>, gone: K, k: K)
    requires Distinct(queue) && gone in queue && k in queue && gone != k
    ensures k in Without(queue, gone)
    ensures Ahead(Without(queue, gone), k) == Ahead(queue, k) - (if Ahead(queue, gone) < Ahead(queue, k) then 1 else 0)
  {
    WithoutKeeps(queue, gone);
    hide Without, Distinct;
    var n, m := Ahead(queue, gone), Ahead(queue, k);
    AheadUnique(Without(queue, gone), k, if n < m then m - 1 else m);
  }

  lemma ExclusionFromOrder<K>(s: Broker<K>)
    requires Inv(s)
    ensures Exclusion(s)
  {
    forall a, b | a in s.granted && b in s.granted && a != b
      ensures !Clash(s.items, a, b)
    {
      var i :| 0 <= i < |s.queue| && s.queue[i] == a;
      var j :| 0 <= j < |s.queue| && s.queue[j] == b;
      ConflictsSymmetric(s.items[a], s.items[b]);
    }
  }
}
