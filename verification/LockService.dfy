/** Which keys can still be served, for threads that may hold any number of keys. */
module LockService {
  import opened LockDeadlock
  import opened LockKeys
  import opened LockLabels
  import opened LockProtocol
  import opened LockRuns

  /** The thread waits for the key, or is about to queue it. */
  ghost predicate Wants<K>(s: Broker<K>, t: Thread, k: K) {
    t in s.phase && (s.phase[t] == Asleep(k) || s.phase[t] == Notified(k) || s.phase[t] == Requesting(k))
  }

  /** `b` belongs to one of the threads and is, or will be, ahead of `k` and in its way. */
  ghost predicate HoldsUp<K>(s: Broker<K>, k: K, b: K, threads: set<Thread>) {
    b in s.queue && Ahead(s.queue, b) < Ahead(s.queue, k) && Clash(s.items, b, k) && b in s.owner && s.owner[b] in threads
  }

  /** Threads and the keys they want, such that a key of one of them holds up each. */
  ghost predicate Circle<K>(s: Broker<K>, circle: map<Thread, K>) {
    forall t <- circle :: Wants(s, t, circle[t]) && exists b <- s.queue :: HoldsUp(s, circle[t], b, circle.Keys)
  }

  // A circle stays.

  lemma OwnedStays<K>(s: Broker<K>, e: Event<K>, b: K, k: K)
    requires Inv(s) && Enabled(s, e) && b in s.owner && Wants(s, s.owner[b], k)
    ensures e.Remove? ==> s.phase[e.t].key != b && s.phase[e.t].key in s.queue
    ensures b in s.queue && b in Apply(s, e).owner && Apply(s, e).owner[b] == s.owner[b]
  {
    hide InOrder, NoLostWakeup, Blocked, Distinct, Ahead, Without;
  }

  lemma HeldUpIsBlocked<K>(s: Broker<K>, k: K, b: K, threads: set<Thread>)
    requires HoldsUp(s, k, b, threads)
    ensures Blocked(s.items, s.queue, k)
  {
    assert s.queue[Ahead(s.queue, b)] == b;
  }

  /** Queueing a key does not change what is in its way. */
  lemma QueuedIsBlocked<K>(items: map<K, Footprint>, queue: seq<K>, k: K)
    requires k !in queue
    ensures Ahead(queue + [k], k) == |queue| == Ahead(queue, k)
    ensures Blocked(items, queue + [k], k) <==> Blocked(items, queue, k)
  {
    AheadUnique(queue + [k], k, |queue|);
    assert Ahead(queue, k) == |queue|;
    assert forall j :: 0 <= j < |queue| ==> (queue + [k])[j] == queue[j];
  }

  lemma WanterStays<K>(s: Broker<K>, e: Event<K>, t: Thread, k: K)
    requires Enabled(s, e) && OneAtATime(s) && Wants(s, t, k) && Blocked(s.items, s.queue, k)
    ensures Wants(Apply(s, e), t, k)
  {
    if e.Enter? && e.t == t {
      QueuedIsBlocked(s.items, s.queue, k);
    }
    hide Blocked, Ahead, Without, Apart;
  }

  /** What is wanted and not queued is queued by nobody else. */
  lemma WantedPlace<K>(s: Broker<K>, e: Event<K>, t: Thread, k: K)
    requires Inv(s) && Enabled(s, e) && OneAtATime(s) && Wants(s, t, k) && k !in s.queue
    ensures k in Apply(s, e).queue ==> e == Enter(t) && Apply(s, e).queue == s.queue + [k]
  {
    hide InOrder, NoLostWakeup, Blocked, Ahead, Without, Distinct, Apart, PhasesAgree;
    if e.Enter? {
      SameKeyMeans(s, t, e.t);
    } else if e.Remove? {
      LeavingIsQueued(s, e.t);
      WithoutKeeps(s.queue, s.phase[e.t].key);
    }
  }

  lemma StaysHeldUp<K>(s: Broker<K>, e: Event<K>, circle: map<Thread, K>, t: Thread, b: K)
    requires Inv(s) && Enabled(s, e) && OneAtATime(s)
    requires t in circle && forall u <- circle :: Wants(s, u, circle[u])
    requires HoldsUp(s, circle[t], b, circle.Keys)
    ensures HoldsUp(Apply(s, e), circle[t], b, circle.Keys)
  {
    var k := circle[t];
    OwnedStays(s, e, b, circle[s.owner[b]]);
    WantedIsKnown(s, t, k);
    if k in s.queue {
      WantedIsOwned(s, t, k);
      OwnedStays(s, e, k, k);
    } else {
      WantedPlace(s, e, t, k);
    }
    ItemsStay(s, e, b);
    ItemsStay(s, e, k);
    hide Inv, Blocked, Without, Conflicts, Apply, Wants, Enabled, OneAtATime;
    if e.Remove? {
      PlacesDiffer(s.queue, s.phase[e.t].key, b);
    }
    StepKeepsOrder(s, e, b);
    if k in s.queue {
      hide Ahead;
      StepKeepsOrder(s, e, k);
    } else if k in Apply(s, e).queue {
      QueuedIsBlocked(s.items, s.queue, k);
    }
  }

  lemma WantedIsKnown<K>(s: Broker<K>, t: Thread, k: K)
    requires Inv(s) && Wants(s, t, k)
    ensures k in s.items
  {
    hide InOrder, NoLostWakeup, Distinct, PhasesAgree;
  }

  lemma WantedIsOwned<K>(s: Broker<K>, t: Thread, k: K)
    requires Inv(s) && OneAtATime(s) && Wants(s, t, k) && k in s.queue
    ensures k in s.owner && s.owner[k] == t && k !in s.granted
  {
    hide InOrder, NoLostWakeup, Blocked, Distinct, Apart;
  }

  lemma ItemsStay<K>(s: Broker<K>, e: Event<K>, k: K)
    requires Enabled(s, e) && k in s.items
    ensures k in Apply(s, e).items && Apply(s, e).items[k] == s.items[k]
  {
    hide Blocked, Without;
  }

  /** No step that asks only for keys nobody has in hand ends a circle. */
  lemma CircleStays<K>(s: Broker<K>, e: Event<K>, circle: map<Thread, K>)
    requires Inv(s) && Enabled(s, e) && OneAtATime(s) && Circle(s, circle)
    ensures Circle(Apply(s, e), circle)
  {
    hide Inv, Apply, Enabled, HoldsUp, Wants, Blocked, OneAtATime;
    forall t | t in circle
      ensures Wants(Apply(s, e), t, circle[t])
      ensures exists b <- Apply(s, e).queue :: HoldsUp(Apply(s, e), circle[t], b, circle.Keys)
    {
      var b :| b in s.queue && HoldsUp(s, circle[t], b, circle.Keys);
      HeldUpIsBlocked(s, circle[t], b, circle.Keys);
      WanterStays(s, e, t, circle[t]);
      StaysHeldUp(s, e, circle, t, b);
      HoldsUpIsQueued(Apply(s, e), circle[t], b, circle.Keys);
    }
  }

  lemma HoldsUpIsQueued<K>(s: Broker<K>, k: K, b: K, threads: set<Thread>)
    requires HoldsUp(s, k, b, threads)
    ensures b in s.queue
  {}

  lemma {:induction false} CircleIsForGood<K>(s: Broker<K>, run: seq<Event<K>>, circle: map<Thread, K>)
    requires Inv(s) && OneAtATime(s) && Circle(s, circle) && Valid(s, run) && IdleRun(s, run)
    ensures Inv(Run(s, run)) && OneAtATime(Run(s, run)) && Circle(Run(s, run), circle)
    decreases |run|
  {
    hide Inv, Circle, Apply, Enabled, OneAtATime;
    if run != [] {
      InvStep(s, run[0]);
      OneAtATimeStep(s, run[0]);
      CircleStays(s, run[0], circle);
      CircleIsForGood(Apply(s, run[0]), run[1..], circle);
    }
  }

  // Without a circle things go on.

  /** A step that brings a thread to an end of what it is doing: it leaves, closes, or
      gets a key that nothing is in the way of. */
  ghost predicate Advances<K>(s: Broker<K>, e: Event<K>) {
    Enabled(s, e) &&
    match e
    case StartRelease(_, _) => true
    case Remove(_) => true
    case Close(_) => true
    case Wake(t) => t in s.phase && !Blocked(s.items, s.queue, s.phase[t].key)
    case Enter(t) => t in s.phase && !Blocked(s.items, s.queue, s.phase[t].key)
    case _ => false
  }

  lemma WantsBefore<K>(s: Broker<K>, e: Event<K>, t: Thread, k: K)
    requires Inv(s) && OneAtATime(s) && Advances(s, e) && Wants(Apply(s, e), t, k)
    ensures Wants(s, t, k) && (e.Enter? || e.Wake? ==> t != e.t)
  {
    if e.Enter? {
      AskedIsNew(s, e.t);
      QueuedIsBlocked(s.items, s.queue, s.phase[e.t].key);
    }
    hide InOrder, NoLostWakeup, Blocked, Ahead, Without, Distinct, Apart;
  }

  lemma AskedIsNew<K>(s: Broker<K>, t: Thread)
    requires OneAtATime(s) && t in s.phase && s.phase[t].Requesting?
    ensures s.phase[t].key !in s.queue
  {
    hide Apart;
  }

  /** An advance grants at most the one key it is about, and queues no other. */
  lemma AdvanceQueue<K>(s: Broker<K>, e: Event<K>)
    requires Inv(s) && OneAtATime(s) && Advances(s, e)
    ensures Apply(s, e).items == s.items
    ensures match e
            case Enter(t) => s.phase[t].key !in s.queue && Apply(s, e).queue == s.queue + [s.phase[t].key]
                             && Apply(s, e).owner == s.owner[s.phase[t].key := t] && t !in Apply(s, e).phase
            case Remove(t) => s.phase[t].key in s.queue && Distinct(s.queue) && Apply(s, e).queue == Without(s.queue, s.phase[t].key)
                              && Apply(s, e).owner == s.owner - {s.phase[t].key}
            case _ => Apply(s, e).queue == s.queue && Apply(s, e).owner == s.owner
  {
    if e.Enter? {
      AskedIsNew(s, e.t);
      QueuedIsBlocked(s.items, s.queue, s.phase[e.t].key);
    } else if e.Remove? {
      LeavingIsQueued(s, e.t);
    }
    hide InOrder, NoLostWakeup, Blocked, Ahead, Without, Apart, PhasesAgree, OneAtATime;
  }

  lemma OrderBeforeEnter<K>(queue: seq<K>, c: K, b: K, k: K)
    requires c !in queue && b in queue + [c] && b != c && k != c && Ahead(queue + [c], b) < Ahead(queue + [c], k)
    ensures b in queue && Ahead(queue, b) < Ahead(queue, k)
  {
    AheadAppend(queue, b, c);
    if k in queue {
      AheadAppend(queue, k, c);
    } else {
      assert Ahead(queue, k) == |queue|;
    }
  }

  lemma OrderBeforeRemove<K>(queue: seq<K>, g: K, b: K, k: K)
    requires Distinct(queue) && g in queue && b in Without(queue, g) && k != g
    requires Ahead(Without(queue, g), b) < Ahead(Without(queue, g), k)
    ensures b in queue && Ahead(queue, b) < Ahead(queue, k)
  {
    WithoutKeeps(queue, g);
    hide Without, Distinct;
    if k in queue {
      WithoutAhead(queue, g, b);
      WithoutAhead(queue, g, k);
      PlacesDiffer(queue, b, g);
      PlacesDiffer(queue, k, g);
    } else {
      assert Ahead(queue, k) == |queue|;
    }
  }

  lemma HeldUpBefore<K>(s: Broker<K>, e: Event<K>, t: Thread, k: K, b: K, threads: set<Thread>)
    requires Inv(s) && OneAtATime(s) && Advances(s, e) && Wants(Apply(s, e), t, k)
    requires HoldsUp(Apply(s, e), k, b, threads) && forall u <- threads :: u in Apply(s, e).phase
    ensures HoldsUp(s, k, b, threads)
  {
    WantsBefore(s, e, t, k);
    AdvanceQueue(s, e);
    WantedIsAnother(s, e, t, k);
    hide Inv, OneAtATime, Apply, Wants, Blocked, Conflicts, Distinct, Without, Ahead;
    match e
    case Enter(u) =>
      OrderBeforeEnter(s.queue, s.phase[u].key, b, k);
    case Remove(u) =>
      OrderBeforeRemove(s.queue, s.phase[u].key, b, k);
    case _ =>
  }

  /** The key that is removed or queued is not one that another thread wants. */
  lemma WantedIsAnother<K>(s: Broker<K>, e: Event<K>, t: Thread, k: K)
    requires Inv(s) && OneAtATime(s) && Enabled(s, e) && Wants(s, t, k)
    ensures e.Remove? || (e.Enter? && e.t != t) ==> s.phase[e.t].key != k
  {
    if e.Remove? || e.Enter? {
      SameKeyMeans(s, t, e.t);
    }
    hide InOrder, NoLostWakeup, Blocked, Ahead, Without, Distinct, Apart;
  }

  /** Advancing makes no new circle. */
  lemma CircleBefore<K>(s: Broker<K>, e: Event<K>, circle: map<Thread, K>)
    requires Inv(s) && OneAtATime(s) && Advances(s, e) && Circle(Apply(s, e), circle)
    ensures Circle(s, circle)
  {
    hide Inv, OneAtATime, Enabled, Apply, HoldsUp, Blocked;
    forall t | t in circle
      ensures Wants(s, t, circle[t]) && exists b <- s.queue :: HoldsUp(s, circle[t], b, circle.Keys)
    {
      var b :| b in Apply(s, e).queue && HoldsUp(Apply(s, e), circle[t], b, circle.Keys);
      WantsBefore(s, e, t, circle[t]);
      HeldUpBefore(s, e, t, circle[t], b, circle.Keys);
      HoldsUpIsQueued(s, circle[t], b, circle.Keys);
    }
  }

  ghost predicate InCircle<K(!new)>(s: Broker<K>, t: Thread) {
    exists circle :: Circle(s, circle) && t in circle
  }

  /** All threads inside `acquire` or `release`, with the keys they are busy with. */
  ghost function Busy<K>(s: Broker<K>): map<Thread, K> {
    map t | t in s.phase :: s.phase[t].key
  }

  /** As long as some thread inside `acquire` is in no circle, somebody can advance. */
  lemma SomebodyAdvances<K(!new)>(s: Broker<K>, t: Thread) returns (e: Event<K>)
    requires Inv(s) && OneAtATime(s) && t in s.phase && !InCircle(s, t)
    ensures Advances(s, e)
  {
    if u :| u in s.phase && s.phase[u].Leaving? {
      e := Remove(u);
    } else if u :| u in s.phase && s.phase[u].Closing? {
      e := Close(u);
    } else if b :| b in s.owner && s.owner[b] !in s.phase {
      OwnerAtLarge(s, b);
      e := StartRelease(s.owner[b], b);
    } else if u :| u in s.phase && !Blocked(s.items, s.queue, s.phase[u].key) {
      e := if s.phase[u].Requesting? then Enter(u) else Wake(u);
    } else {
      AllBlocked(s);
      assert false;
    }
  }

  lemma OwnerAtLarge<K>(s: Broker<K>, b: K)
    requires Inv(s) && b in s.owner && s.owner[b] !in s.phase
    ensures b in s.granted
  {
    hide InOrder, NoLostWakeup, Distinct;
  }

  /** When everybody is inside `acquire` and blocked, everybody is in one circle. */
  lemma AllBlocked<K(!new)>(s: Broker<K>)
    requires Inv(s) && forall b <- s.owner :: s.owner[b] in s.phase
    requires forall u <- s.phase :: !s.phase[u].Leaving? && !s.phase[u].Closing? && Blocked(s.items, s.queue, s.phase[u].key)
    ensures forall t <- s.phase :: InCircle(s, t)
  {
    hide Inv, HoldsUp, Blocked;
    assert Busy(s).Keys == s.phase.Keys;
    forall t | t in s.phase
      ensures Wants(s, t, Busy(s)[t])
      ensures exists b <- s.queue :: HoldsUp(s, Busy(s)[t], b, Busy(s).Keys)
    {
      var b := BlockerOf(s, s.phase[t].key);
    }
    assert Circle(s, Busy(s));
  }

  lemma BlockerOf<K>(s: Broker<K>, k: K) returns (b: K)
    requires Inv(s) && (forall b <- s.owner :: s.owner[b] in s.phase) && Blocked(s.items, s.queue, k)
    ensures b in s.queue && HoldsUp(s, k, b, s.phase.Keys)
  {
    hide InOrder, NoLostWakeup, PhasesAgree, Clash, Ahead, Distinct;
    var j :| 0 <= j < Ahead(s.queue, k) && Clash(s.items, s.queue[j], k);
    b := s.queue[j];
    PlaceOf(s.queue, j);
  }

  lemma PlaceOf<K>(queue: seq<K>, j: nat)
    requires j < |queue|
    ensures Ahead(queue, queue[j]) <= j
  {}

  // Advancing comes to an end.

  ghost function Asking<K>(s: Broker<K>): set<Thread> {
    set t | t in s.phase && s.phase[t].Requesting?
  }

  ghost function Waiting<K>(s: Broker<K>): set<K> {
    s.owner.Keys - s.granted
  }

  ghost function Holding<K>(s: Broker<K>): set<K> {
    set k | k in s.granted && !IsLeaving(s, k)
  }

  lemma Fewer<T>(a: set<T>, b: set<T>, x: T)
    requires a <= b && x in b && x !in a
    ensures |a| < |b|
  {
    assert |b| == |a| + |b - a|;
  }

  /** Every advance lowers the first of these numbers that it changes. */
  ghost predicate Shrinks<K>(s: Broker<K>, s': Broker<K>) {
    || |Asking(s')| < |Asking(s)|
    || (Asking(s') == Asking(s) &&
        (|| |s'.queue| < |s.queue|
         || (|s'.queue| == |s.queue| &&
             (|| |Waiting(s')| < |Waiting(s)|
              || (Waiting(s') == Waiting(s) &&
                  (|Holding(s')| < |Holding(s)| || (Holding(s') == Holding(s) && |s'.phase| < |s.phase|)))))))
  }

  lemma AdvanceShrinks<K>(s: Broker<K>, e: Event<K>)
    requires Inv(s) && OneAtATime(s) && Advances(s, e)
    ensures Shrinks(s, Apply(s, e))
  {
    match e {
      case Enter(t) => EnterShrinks(s, t);
      case Remove(t) => RemoveShrinks(s, t);
      case Wake(t) => WakeShrinks(s, t);
      case StartRelease(t, k) => StartReleaseShrinks(s, t, k);
      case Close(t) => CloseShrinks(s, t);
    }
    hide Inv, OneAtATime, Apply, Asking, Waiting, Holding;
  }

  lemma RemoveShrinks<K>(s: Broker<K>, t: Thread)
    requires Inv(s) && OneAtATime(s) && Advances(s, Remove(t))
    ensures var s' := Apply(s, Remove(t)); Asking(s') == Asking(s) && |s'.queue| < |s.queue|
  {
    AdvanceQueue(s, Remove(t));
    WithoutKeeps(s.queue, s.phase[t].key);
    hide Inv, OneAtATime, Blocked, Ahead, Without, Distinct;
  }

  lemma StartReleaseShrinks<K>(s: Broker<K>, t: Thread, k: K)
    requires Inv(s) && Advances(s, StartRelease(t, k))
    ensures var s' := Apply(s, StartRelease(t, k));
            && Asking(s') == Asking(s) && s'.queue == s.queue && Waiting(s') == Waiting(s) && |Holding(s')| < |Holding(s)|
  {
    hide Inv;
    var s' := Apply(s, StartRelease(t, k));
    assert k in Holding(s) && k !in Holding(s') && Holding(s') <= Holding(s);
    Fewer(Holding(s'), Holding(s), k);
  }

  lemma CloseShrinks<K>(s: Broker<K>, t: Thread)
    requires Advances(s, Close(t))
    ensures var s' := Apply(s, Close(t));
            && Asking(s') == Asking(s) && s'.queue == s.queue && Waiting(s') == Waiting(s)
            && Holding(s') == Holding(s) && |s'.phase| < |s.phase|
  {
    var s' := Apply(s, Close(t));
    assert s'.phase.Keys == s.phase.Keys - {t};
    Fewer(s'.phase.Keys, s.phase.Keys, t);
  }

  lemma EnterShrinks<K>(s: Broker<K>, t: Thread)
    requires Inv(s) && OneAtATime(s) && Advances(s, Enter(t))
    ensures |Asking(Apply(s, Enter(t)))| < |Asking(s)|
  {
    var s' := Apply(s, Enter(t));
    AskedIsNew(s, t);
    QueuedIsBlocked(s.items, s.queue, s.phase[t].key);
    hide Inv, OneAtATime, Blocked, Ahead;
    assert t !in s'.phase && Asking(s') <= Asking(s);
    Fewer(Asking(s'), Asking(s), t);
  }

  lemma WakeShrinks<K>(s: Broker<K>, t: Thread)
    requires Inv(s) && OneAtATime(s) && Advances(s, Wake(t))
    ensures var s' := Apply(s, Wake(t)); Asking(s') == Asking(s) && |s'.queue| == |s.queue| && |Waiting(s')| < |Waiting(s)|
  {
    hide InOrder, NoLostWakeup, Blocked, Ahead, Distinct, OneAtATime;
    var s' := Apply(s, Wake(t));
    var k := s.phase[t].key;
    assert k in s.owner && k !in s.granted;
    assert Waiting(s') <= Waiting(s);
    Fewer(Waiting(s'), Waiting(s), k);
  }

  lemma AdvanceKeeps<K(!new)>(s: Broker<K>, e: Event<K>, k: K)
    requires Inv(s) && OneAtATime(s) && Advances(s, e) && k in s.queue && k !in s.granted
    ensures k in s.owner && s.owner[k] in s.phase
    ensures var s' := Apply(s, e); Inv(s') && OneAtATime(s') && k in s'.queue && k in s'.owner && s'.owner[k] == s.owner[k]
  {
    InvStep(s, e);
    WaitingOwner(s, k);
    OneAtATimeStep(s, e);
    OwnedStays(s, e, k, k);
    hide Inv, OneAtATime, Apply, Enabled;
    StepKeepsOrder(s, e, k);
  }

  lemma WaitingOwner<K>(s: Broker<K>, k: K)
    requires Inv(s) && k in s.queue && k !in s.granted
    ensures k in s.owner && Wants(s, s.owner[k], k)
  {
    hide InOrder, NoLostWakeup, Distinct;
  }

  /** A queued key can be served when its thread is in no circle. */
  lemma {:induction false} CanStillBeServed<K(!new)>(s: Broker<K>, k: K) returns (run: seq<Event<K>>)
    requires Inv(s) && OneAtATime(s) && k in s.queue
    requires k in s.granted || (k in s.owner && !InCircle(s, s.owner[k]))
    ensures Valid(s, run) && IdleRun(s, run) && k in Run(s, run).granted
    decreases |Asking(s)|, |s.queue|, |Waiting(s)|, |Holding(s)|, |s.phase|
  {
    if k in s.granted {
      run := [];
    } else {
      WaitingOwner(s, k);
      var e := SomebodyAdvances(s, s.owner[k]);
      AdvanceKeeps(s, e, k);
      AdvanceShrinks(s, e);
      var s' := Apply(s, e);
      if InCircle(s', s.owner[k]) {
        var circle :| Circle(s', circle) && s.owner[k] in circle;
        CircleBefore(s, e, circle);
      }
      hide Inv, OneAtATime, Apply, InCircle, Circle;
      var rest := CanStillBeServed(s', k);
      Prepend(s, e, rest);
      run := [e] + rest;
    }
  }

  lemma WantsOne<K>(s: Broker<K>, circle: map<Thread, K>, t: Thread, k: K)
    requires Circle(s, circle) && t in circle && Wants(s, t, k)
    ensures circle[t] == k
  {
    hide HoldsUp;
  }

  lemma CircleIsDenied<K>(s: Broker<K>, circle: map<Thread, K>, t: Thread)
    requires Inv(s) && OneAtATime(s) && Circle(s, circle) && t in circle
    ensures circle[t] !in s.granted
  {
    hide InOrder, NoLostWakeup, Distinct, HoldsUp, Apart;
    assert Wants(s, t, circle[t]);
  }

  /** For threads with any number of keys, each asked for by one thread at a time: a key
      that waits can still be granted exactly when its thread is in no circle. */
  lemma ServedExactlyOutsideCircles<K(!new)>(s: Broker<K>, k: K)
    requires Inv(s) && OneAtATime(s) && k in s.queue && k !in s.granted
    ensures k in s.owner
    ensures (exists run :: Valid(s, run) && IdleRun(s, run) && k in Run(s, run).granted) <==> !InCircle(s, s.owner[k])
  {
    WaitingOwner(s, k);
    hide Inv, OneAtATime, Circle, Valid, Run, IdleRun;
    if InCircle(s, s.owner[k]) {
      var circle :| Circle(s, circle) && s.owner[k] in circle;
      WantsOne(s, circle, s.owner[k], k);
      forall run | Valid(s, run) && IdleRun(s, run)
        ensures k !in Run(s, run).granted
      {
        CircleIsForGood(s, run, circle);
        CircleIsDenied(Run(s, run), circle, s.owner[k]);
      }
    } else {
      var run := CanStillBeServed(s, k);
    }
  }

  lemma HolderWantsIt<K>(s: Broker<K>, circle: map<Thread, K>, b: K)
    requires OneKeyEach(s) && b in s.owner && s.owner[b] in circle && Wants(s, s.owner[b], circle[s.owner[b]])
    ensures circle[s.owner[b]] == b
  {}

  /** Threads with one key each form no circle: what holds one up is wanted by a thread
      that is held up further ahead. */
  lemma {:induction false} OneKeyFormsNoCircle<K>(s: Broker<K>, circle: map<Thread, K>, t: Thread)
    requires OneKeyEach(s) && Circle(s, circle)
    ensures t !in circle
    decreases if t in circle then Ahead(s.queue, circle[t]) else 0
  {
    hide OneKeyEach, Clash, Wants, Ahead;
    if t in circle {
      var b :| b in s.queue && HoldsUp(s, circle[t], b, circle.Keys);
      HolderWantsIt(s, circle, b);
      OneKeyFormsNoCircle(s, circle, s.owner[b]);
    }
  }
}
