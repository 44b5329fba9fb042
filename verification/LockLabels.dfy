/** The state label that a key carries, and when it says the truth about a granted key. */
module LockLabels {
  import opened LockDeadlock
  import opened LockKeys
  import opened LockProtocol
  import opened LockRuns

  ghost predicate IsLeaving<K>(s: Broker<K>, k: K) {
    k in s.owner && s.owner[k] in s.phase && s.phase[s.owner[k]] == Leaving(k)
  }

  /** A granted key is labelled as acquired, or as releasing while its owner is about to
      take it out of the queue. */
  ghost predicate Truthful<K>(s: Broker<K>) {
    forall k <- s.granted :: k in s.state && s.state[k] == if IsLeaving(s, k) then Releasing else Acquired
  }

  /** Somebody asks for a key that is granted, or finishes releasing a key that has been
      granted again in the meantime. */
  ghost predicate Spoils<K>(s: Broker<K>, e: Event<K>) {
    || (e.Request? && e.k in s.granted)
    || (e.Close? && e.t in s.phase && s.phase[e.t].key in s.granted)
  }

  /** Labels that say the truth go on doing so exactly unless a step is one of these. */
  lemma TruthfulStep<K>(s: Broker<K>, e: Event<K>)
    requires Inv(s) && Enabled(s, e) && Truthful(s)
    ensures Truthful(Apply(s, e)) <==> !Spoils(s, e)
  {
    hide InOrder, NoLostWakeup, Blocked, Distinct, Ahead;
    var s' := Apply(s, e);
    if Spoils(s, e) {
      var k := if e.Request? then e.k else s.phase[e.t].key;
      assert k in s'.granted && s'.state[k] != Acquired;
    }
  }

  /** Nobody has the key in hand: it is not queued and no thread is busy with it. */
  ghost predicate Idle<K>(s: Broker<K>, k: K) {
    k !in s.queue && forall t <- s.phase :: s.phase[t].key != k
  }

  /** No two threads are busy with one key, and a key in the queue is not being asked for
      or closed. */
  ghost predicate OneAtATime<K>(s: Broker<K>) {
    && (forall t, u :: Apart(s, t, u))
    && (forall t <- s.phase :: s.phase[t].Requesting? || s.phase[t].Closing? ==> s.phase[t].key !in s.queue)
  }

  ghost predicate Apart<K>(s: Broker<K>, t: Thread, u: Thread) {
    t in s.phase && u in s.phase && s.phase[t].key == s.phase[u].key ==> t == u
  }

  /** A thread that is busy after a step was busy with the same key before, or takes it up. */
  lemma BusyBefore<K>(s: Broker<K>, e: Event<K>, t: Thread)
    requires Enabled(s, e) && t in Apply(s, e).phase
    ensures var k := Apply(s, e).phase[t].key;
            if (e.Request? || e.StartRelease?) && t == e.t then k == e.k else t in s.phase && s.phase[t].key == k
  {
    hide Blocked, Ahead, Without;
  }

  /** Nobody but its owner is busy with a granted key. */
  lemma NobodyHasGranted<K>(s: Broker<K>, k: K, t: Thread)
    requires Inv(s) && OneAtATime(s) && k in s.granted && s.owner[k] == t && t !in s.phase
    ensures forall u <- s.phase :: s.phase[u].key != k
  {
    hide InOrder, NoLostWakeup, Blocked, Distinct, Apart;
    forall u | u in s.phase
      ensures s.phase[u].key != k
    {
      assert s.phase[u].Requesting? || s.phase[u].Closing? || s.phase[u].Asleep? || s.phase[u].Notified? || s.phase[u].Leaving?;
    }
  }

  lemma StillApart<K>(s: Broker<K>, e: Event<K>, t: Thread, u: Thread)
    requires Inv(s) && Enabled(s, e) && OneAtATime(s) && AsksForIdle(s, e)
    ensures Apart(Apply(s, e), t, u)
  {
    if e.StartRelease? {
      NobodyHasGranted(s, e.k, e.t);
    }
    hide Inv;
    if t in Apply(s, e).phase && u in Apply(s, e).phase {
      BusyBefore(s, e, t);
      BusyBefore(s, e, u);
      hide Apply, Enabled;
      assert Apart(s, t, u);
    }
  }

  /** After a step, too, a key in the queue is not being asked for or closed. */
  lemma StillOutside<K>(s: Broker<K>, e: Event<K>, t: Thread)
    requires Inv(s) && Enabled(s, e) && OneAtATime(s) && AsksForIdle(s, e)
    ensures var s' := Apply(s, e);
            t in s'.phase && (s'.phase[t].Requesting? || s'.phase[t].Closing?) ==> s'.phase[t].key !in s'.queue
  {
    hide InOrder, NoLostWakeup, Blocked, Ahead, Without, Distinct, Apart;
    if e.Remove? {
      LeavingIsQueued(s, e.t);
      WithoutKeeps(s.queue, s.phase[e.t].key);
    } else if e.Enter? {
      assert Apart(s, t, e.t);
      SameKeyMeans(s, t, e.t);
    }
  }

  lemma SameKeyMeans<K>(s: Broker<K>, t: Thread, u: Thread)
    requires Apart(s, t, u)
    ensures t in s.phase && u in s.phase && t != u ==> s.phase[t].key != s.phase[u].key
  {}

  ghost predicate AsksForIdle<K>(s: Broker<K>, e: Event<K>) {
    e.Request? ==> Idle(s, e.k)
  }

  lemma OneAtATimeStep<K>(s: Broker<K>, e: Event<K>)
    requires Inv(s) && Enabled(s, e) && OneAtATime(s) && AsksForIdle(s, e)
    ensures OneAtATime(Apply(s, e)) && !Spoils(s, e)
  {
    forall t, u
      ensures Apart(Apply(s, e), t, u)
    {
      StillApart(s, e, t, u);
    }
    forall t | t in Apply(s, e).phase && (Apply(s, e).phase[t].Requesting? || Apply(s, e).phase[t].Closing?)
      ensures Apply(s, e).phase[t].key !in Apply(s, e).queue
    {
      StillOutside(s, e, t);
    }
    NotSpoilt(s, e);
    hide Inv, Apply, Apart, Spoils;
  }

  lemma NotSpoilt<K>(s: Broker<K>, e: Event<K>)
    requires Inv(s) && Enabled(s, e) && OneAtATime(s) && AsksForIdle(s, e)
    ensures !Spoils(s, e)
  {
    hide InOrder, NoLostWakeup, Blocked, Distinct, PhasesAgree, Apart;
  }

  /** A run in which a key is asked for only while nobody has it in hand. */
  ghost predicate IdleRun<K>(s: Broker<K>, run: seq<Event<K>>)
    requires Valid(s, run)
    decreases |run|
  {
    run == [] || (AsksForIdle(s, run[0]) && IdleRun(Apply(s, run[0]), run[1..]))
  }

  lemma {:induction false} TruthfulOverRun<K>(s: Broker<K>, run: seq<Event<K>>)
    requires Inv(s) && Truthful(s) && OneAtATime(s) && Valid(s, run) && IdleRun(s, run)
    ensures Truthful(Run(s, run)) && OneAtATime(Run(s, run))
    decreases |run|
  {
    if run != [] {
      hide Inv, Truthful, OneAtATime, Apply, Enabled;
      InvStep(s, run[0]);
      OneAtATimeStep(s, run[0]);
      TruthfulStep(s, run[0]);
      TruthfulOverRun(Apply(s, run[0]), run[1..]);
    }
  }

  ghost predicate NotAskedTwice<K>(run: seq<Event<K>>) {
    forall i, j :: 0 <= i < j < |run| && run[i].Request? && run[j].Request? ==> run[i].k != run[j].k
  }

  /** A key that has never been asked for is idle, and stays so until it is. */
  lemma {:induction false} UnaskedIsIdle<K>(s: Broker<K>, run: seq<Event<K>>)
    requires Inv(s) && Valid(s, run) && NotAskedTwice(run)
    requires forall e <- run :: e.Request? ==> Idle(s, e.k)
    ensures IdleRun(s, run)
    decreases |run|
  {
    if run != [] {
      InvStep(s, run[0]);
      forall e | e in run[1..] && e.Request?
        ensures Idle(Apply(s, run[0]), e.k)
      {
        assert e in run;
        var j :| 0 <= j < |run[1..]| && run[1..][j] == e;
        assert run[j + 1] == e;
        IdleStays(s, run[0], e.k);
      }
      LaterNotTwice(run);
      UnaskedIsIdle(Apply(s, run[0]), run[1..]);
    }
  }

  lemma LaterNotTwice<K>(run: seq<Event<K>>)
    requires run != [] && NotAskedTwice(run)
    ensures NotAskedTwice(run[1..])
  {
    forall i, j | 0 <= i < j < |run[1..]| && run[1..][i].Request? && run[1..][j].Request?
      ensures run[1..][i].k != run[1..][j].k
    {
      assert run[i + 1] == run[1..][i] && run[j + 1] == run[1..][j];
    }
  }

  lemma IdleStays<K>(s: Broker<K>, e: Event<K>, k: K)
    requires Inv(s) && Enabled(s, e) && Idle(s, k) && (e.Request? ==> e.k != k)
    ensures Idle(Apply(s, e), k)
  {
    hide InOrder, NoLostWakeup, Blocked, Ahead, Without, Distinct;
    if e.Remove? {
      LeavingIsQueued(s, e.t);
      WithoutKeeps(s.queue, s.phase[e.t].key);
    }
  }

  /** After any run in which no key is asked for twice, as with keys that are made for
      one use, the labels of granted keys say the truth. */
  lemma LabelsOfFreshKeysAreTrue<K>(run: seq<Event<K>>)
    requires Valid(Empty<K>(), run) && NotAskedTwice(run)
    ensures Truthful(Run(Empty<K>(), run)) && OneAtATime(Run(Empty<K>(), run))
  {
    var s := Empty<K>();
    assert Inv(s);
    UnaskedIsIdle(s, run);
    TruthfulOverRun(s, run);
  }

  /** The label can be wrong: a second thread that asks for a granted key writes
      "acquiring" on it before it is turned away. */
  lemma LabelOfGrantedKeyCanLie() returns (run: seq<Event<nat>>)
    ensures Valid(Empty<nat>(), run)
    ensures var s := Run(Empty<nat>(), run); 0 in s.granted && 0 in s.state && s.state[0] == Acquiring
  {
    var r, s := TwoHolders();
    hide Valid, Run;
    OneStep(s, Request(2, 0));
    Concat(Empty<nat>(), r, [Request(2, 0)]);
    run := r + [Request(2, 0)];
  }

  /** It can also say "released": one thread takes its key out of the queue, another one
      acquires the same key, and then the first writes the label. */
  lemma ReleasedLabelCanStick() returns (run: seq<Event<nat>>)
    ensures Valid(Empty<nat>(), run)
    ensures var s := Run(Empty<nat>(), run); 0 in s.granted && 0 in s.state && s.state[0] == Released
  {
    hide Valid, Run, Inv, Only;
    var r1, s1 := FirstHolder();
    var r2, s2 := TakenOut(s1);
    var r3, s3 := TakenAgain(s2);
    Concat(Empty<nat>(), r1, r2);
    Concat(Empty<nat>(), r1 + r2, r3);
    run := r1 + r2 + r3;
  }

  lemma TakenOut(s: Broker<nat>) returns (run: seq<Event<nat>>, s': Broker<nat>)
    requires Inv(s) && s.queue == [0] && s.granted == {0} && s.owner == map[0 := 0] && s.phase == map[] && 0 in s.items
    ensures Valid(s, run) && s' == Run(s, run) && Inv(s')
    ensures s'.queue == [] && 0 in s'.items && s'.phase == map[0 := Closing(0)]
  {
    hide Inv, Valid, Run;
    OneStep(s, StartRelease(0, 0));
    var s1 := Apply(s, StartRelease(0, 0));
    OneStep(s1, Remove(0));
    s' := Apply(s1, Remove(0));
    Concat(s, [StartRelease(0, 0)], [Remove(0)]);
    run := [StartRelease(0, 0)] + [Remove(0)];
  }

  lemma TakenAgain(s: Broker<nat>) returns (run: seq<Event<nat>>, s': Broker<nat>)
    requires Inv(s) && s.queue == [] && 0 in s.items && s.phase == map[0 := Closing(0)]
    ensures Valid(s, run) && s' == Run(s, run) && 0 in s'.granted && 0 in s'.state && s'.state[0] == Released
  {
    hide Inv, Valid, Run;
    OneStep(s, Request(1, 0));
    var s1 := Apply(s, Request(1, 0));
    var r2, s2 := EnterEffect(s1, 1, 0);
    NobodyAhead(s2);
    OneStep(s2, Close(0));
    s' := Apply(s2, Close(0));
    Concat(s, [Request(1, 0)], r2);
    Concat(s, [Request(1, 0)] + r2, [Close(0)]);
    run := [Request(1, 0)] + r2 + [Close(0)];
  }

  lemma NobodyAhead(s: Broker<nat>)
    ensures Ahead(s.queue, 0) == 0 ==> !Blocked(s.items, s.queue, 0)
  {}
}
