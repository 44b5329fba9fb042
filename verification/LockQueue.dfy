/** The lock queue object. Each method is one region of `acquire` or `release`
    that runs without giving up the mutex, and does what the step system says. */
module LockQueues {
  import opened LockKeys
  import P = LockProtocol

  datatype Outcome = Duplicate | Waiting | Holding

  class LockQueue {
    var queue: seq<LockKey>
    ghost var sys: P.Broker<LockKey>

    ghost predicate Valid()
      reads this, sys.items.Keys
    {
      && P.Inv(sys)
      && sys.queue == queue
      && forall k <- sys.items :: k.Print() == sys.items[k] && k in sys.state && k.state == sys.state[k]
    }

    constructor ()
      ensures Valid() && sys == P.Empty<LockKey>()
    {
      queue := [];
      sys := P.Empty();
    }

    /** From now on the queue may be handed `key`, whose items no longer change. */
    ghost method Register(key: LockKey)
      requires Valid() && key !in sys.items && key.state == Initialized
      modifies `sys
      ensures sys == P.Apply(old(sys), P.Create(key, key.Print())) && Valid()
    {
      P.InvStep(sys, P.Create(key, key.Print()));
      sys := P.Apply(sys, P.Create(key, key.Print()));
    }

    /** Whether a key that is queued before `key` blocks it. */
    method Blocked(key: LockKey, ghost items: map<LockKey, Footprint>) returns (blocked: bool)
      requires key in items && items[key] == key.Print()
      requires forall k <- queue :: k in items && items[k] == k.Print()
      ensures blocked <==> P.Blocked(items, queue, key)
    {
      var blockerCount := 0;
      var i := 0;
      while i < |queue| && queue[i] != key
        invariant 0 <= i <= P.Ahead(queue, key)
        invariant blockerCount > 0 <==> exists j :: 0 <= j < i && P.Clash(items, queue[j], key)
        decreases |queue| - i
      {
        var blockers := queue[i].Blocks(key);
        if blockers != {} {
          blockerCount := blockerCount + 1;
        }
        i := i + 1;
      }
      blocked := blockerCount > 0;
    }

    /** `acquire` up to taking the mutex. */
    method StartAcquire(ghost t: P.Thread, key: LockKey)
      requires Valid() && P.Enabled(sys, P.Request(t, key))
      modifies `sys, key`state
      ensures sys == P.Apply(old(sys), P.Request(t, key)) && Valid()
    {
      key.Transition(Acquiring);
      hide P.Inv;
      P.InvStep(sys, P.Request(t, key));
      sys := P.Apply(sys, P.Request(t, key));
    }

    /** `acquire` with the mutex: refuse a key that is queued already, otherwise
        queue it and test it. */
    method EnterAcquire(ghost t: P.Thread, key: LockKey) returns (outcome: Outcome)
      requires Valid() && t in sys.phase && sys.phase[t] == P.Requesting(key)
      modifies this, key`state
      ensures sys == P.Apply(old(sys), P.Enter(t)) && Valid()
      ensures outcome == Duplicate <==> key in old(queue)
      ensures queue == if outcome == Duplicate then old(queue) else old(queue) + [key]
      ensures outcome == Holding ==> key in sys.granted
      ensures outcome == Waiting ==> t in sys.phase && sys.phase[t] == P.Asleep(key)
    {
      hide P.Inv, P.Blocked, P.Ahead, P.Clash;
      P.InvKnown(sys);
      P.InvStep(sys, P.Enter(t));
      if key in queue {
        sys := P.Apply(sys, P.Enter(t));
        return Duplicate;
      }
      queue := queue + [key];
      var blocked := Blocked(key, sys.items);
      if blocked {
        outcome := Waiting;
      } else {
        key.Transition(Acquired);
        outcome := Holding;
      }
      sys := P.Apply(sys, P.Enter(t));
    }

    /** A waiter has the mutex back, notified or not, and tests again. */
    method WakeUp(ghost t: P.Thread, key: LockKey) returns (outcome: Outcome)
      requires P.Enabled(sys, P.Wake(t)) && sys.phase[t].key == key && Valid()
      modifies `sys, key`state
      ensures sys == P.Apply(old(sys), P.Wake(t)) && Valid()
      ensures outcome != Duplicate
      ensures outcome == Holding ==> key in sys.granted
      ensures outcome == Waiting ==> t in sys.phase && sys.phase[t] == P.Asleep(key)
    {
      hide P.Inv, P.Blocked, P.Ahead, P.Clash;
      P.InvKnown(sys);
      P.InvStep(sys, P.Wake(t));
      var blocked := Blocked(key, sys.items);
      if blocked {
        outcome := Waiting;
      } else {
        key.Transition(Acquired);
        outcome := Holding;
      }
      sys := P.Apply(sys, P.Wake(t));
    }

    /** `release` up to taking the mutex. */
    method StartRelease(ghost t: P.Thread, key: LockKey)
      requires Valid() && P.Enabled(sys, P.StartRelease(t, key))
      modifies `sys, key`state
      ensures sys == P.Apply(old(sys), P.StartRelease(t, key)) && Valid()
    {
      key.Transition(Releasing);
      hide P.Inv;
      P.InvStep(sys, P.StartRelease(t, key));
      sys := P.Apply(sys, P.StartRelease(t, key));
    }

    /** `release` with the mutex: take the key out and notify every sleeper. */
    method RemoveKey(ghost t: P.Thread, key: LockKey)
      requires Valid() && t in sys.phase && sys.phase[t] == P.Leaving(key)
      modifies this
      ensures sys == P.Apply(old(sys), P.Remove(t)) && Valid()
      ensures key !in queue && multiset(queue) == multiset(old(queue)) - multiset{key}
    {
      hide P.Inv, P.Distinct, P.NotifyAll;
      P.LeavingIsQueued(sys, t);
      P.WithoutKeeps(queue, key);
      P.WithoutMultiset(queue, key);
      P.InvStep(sys, P.Remove(t));
      var i := 0;
      while queue[i] != key
        invariant 0 <= i <= P.Ahead(queue, key) < |queue|
        decreases |queue| - i
      {
        i := i + 1;
      }
      queue := queue[..i] + queue[i + 1..];
      sys := P.Apply(sys, P.Remove(t));
    }

    /** The rest of `release`, after the mutex. */
    method FinishRelease(ghost t: P.Thread, key: LockKey)
      requires Valid() && t in sys.phase && sys.phase[t] == P.Closing(key)
      modifies `sys, key`state
      ensures sys == P.Apply(old(sys), P.Close(t)) && Valid()
    {
      key.Transition(Released);
      hide P.Inv;
      P.InvStep(sys, P.Close(t));
      sys := P.Apply(sys, P.Close(t));
    }
  }
}
