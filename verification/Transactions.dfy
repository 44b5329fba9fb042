/** Lists of changes to external systems that are run in order and, when one fails,
    undone in reverse: the DSDB runner and the Infoblox group. */
module Transactions {
  datatype Outcome =
    | Success
    | NoResult                                // an action that returned None
    | ProcessError(out: string, err: string)  // the command failed with this output
    | InfobloxError
    | OtherError

  /** The answer of the external system to a command, and its state afterwards. */
  datatype Response<X> = Response(after: X, outcome: Outcome)

  type World<!C, !X> = (C, X) -> Response<X>

  function Reverse<T>(s: seq<T>): seq<T> {
    if s == [] then [] else Reverse(s[1..]) + [s[0]]
  }

  lemma {:induction false} ReverseAppend<T>(a: seq<T>, b: seq<T>)
    ensures Reverse(a + b) == Reverse(b) + Reverse(a)
  {
    if a == [] {
      assert a + b == b;
    } else {
      assert (a + b)[1..] == a[1..] + b;
      ReverseAppend(a[1..], b);
    }
  }

  /** Every command is tried, whatever becomes of the others. */
  function RunAll<C, X>(world: World<C, X>, x: X, commands: seq<C>): X {
    if commands == [] then x else RunAll(world, world(commands[0], x).after, commands[1..])
  }

  lemma {:induction false} RunAllAppend<C, X>(world: World<C, X>, x: X, a: seq<C>, b: seq<C>)
    ensures RunAll(world, x, a + b) == RunAll(world, RunAll(world, x, a), b)
    decreases |a|
  {
    if a == [] {
      assert a + b == b;
    } else {
      assert (a + b)[1..] == a[1..] + b;
      RunAllAppend(world, world(a[0], x).after, a[1..], b);
    }
  }

  // External systems that consist of entries. `view` tells the entry under a key.

  ghost predicate SameOff<X(!new), K(!new), V(!new)>(view: (X, K) -> V, x: X, y: X, keys: set<K>) {
    forall k :: k !in keys ==> view(x, k) == view(y, k)
  }

  /** A command reads and writes one entry. */
  ghost predicate Touches<C(!new), X(!new), K(!new), V(!new)>(world: World<C, X>, view: (X, K) -> V, c: C, k: K) {
    && (forall x :: SameOff(view, world(c, x).after, x, {k}))
    && (forall x, y :: view(x, k) == view(y, k) ==>
          world(c, x).outcome == world(c, y).outcome && view(world(c, x).after, k) == view(world(c, y).after, k))
  }

  /** The state is its entries, and every command touches the entry under its key. */
  ghost predicate Keyed<C(!new), X(!new), K(!new), V(!new)>(world: World<C, X>, view: (X, K) -> V, key: C -> K) {
    && (forall x, y :: SameOff(view, x, y, {}) ==> x == y)
    && (forall c :: Touches(world, view, c, key(c)))
  }

  lemma KeyedStep<C(!new), X(!new), K(!new), V(!new)>(world: World<C, X>, view: (X, K) -> V, key: C -> K, c: C, x: X, j: K)
    requires Keyed(world, view, key) && j != key(c)
    ensures view(world(c, x).after, j) == view(x, j)
  {
    assert Touches(world, view, c, key(c));
    assert SameOff(view, world(c, x).after, x, {key(c)});
  }

  lemma KeyedReads<C(!new), X(!new), K(!new), V(!new)>(world: World<C, X>, view: (X, K) -> V, key: C -> K, c: C, x: X, y: X)
    requires Keyed(world, view, key) && view(x, key(c)) == view(y, key(c))
    ensures world(c, x).outcome == world(c, y).outcome
    ensures view(world(c, x).after, key(c)) == view(world(c, y).after, key(c))
  {
    assert Touches(world, view, c, key(c));
  }

  lemma KeyedEqual<C(!new), X(!new), K(!new), V(!new)>(world: World<C, X>, view: (X, K) -> V, key: C -> K, x: X, y: X)
    requires Keyed(world, view, key)
    ensures x == y <==> SameOff(view, x, y, {})
  {}

  /** A command has no effect exactly when it leaves its own entry alone. */
  lemma KeyedNoEffect<C(!new), X(!new), K(!new), V(!new)>(world: World<C, X>, view: (X, K) -> V, key: C -> K, c: C, x: X)
    requires Keyed(world, view, key)
    ensures world(c, x).after == x <==> view(world(c, x).after, key(c)) == view(x, key(c))
  {
    if view(world(c, x).after, key(c)) == view(x, key(c)) {
      assert Touches(world, view, c, key(c));
      assert SameOff(view, world(c, x).after, x, {});
    }
  }

  datatype Campus = Add(name: string) | Delete(name: string)

  /** A directory of campuses: adding what is there and deleting what is not both fail. */
  function Directory(c: Campus, campuses: set<string>): Response<set<string>> {
    match c
    case Add(n) =>
      if n in campuses then Response(campuses, ProcessError("", "exists"))
      else Response(campuses + {n}, Success)
    case Delete(n) =>
      if n in campuses then Response(campuses - {n}, Success)
      else Response(campuses, ProcessError("", "not found"))
  }

  function IsListed(campuses: set<string>, n: string): bool {
    n in campuses
  }

  function NameOf(c: Campus): string {
    c.name
  }

  lemma DirectoryIsKeyed()
    ensures Keyed(Directory, IsListed, NameOf)
  {
    forall x, y | SameOff(IsListed, x, y, {})
      ensures x == y
    {
      forall n
        ensures n in x <==> n in y
      {
        assert IsListed(x, n) == IsListed(y, n);
      }
    }
  }
}

/** Actions with optional error filters, as commands register them for DSDB. */
module DSDBTransactions {
  import opened Options
  import opened Transactions

  datatype Action<!C> = Action(command: C, rollback: Option<C>, filter: Option<string -> bool>)

  predicate Ok(o: Outcome) {
    o == Success || o == NoResult
  }

  /** A failure the error filter tells the runner to pass over. */
  predicate Ignored<C>(a: Action<C>, o: Outcome) {
    match o
    case ProcessError(out, err) =>
      a.filter.Some? && (out != "" || err != "") && (a.filter.value(out) || a.filter.value(err))
    case Success => false
    case NoResult => false
    case _ => a.filter.Some?
  }

  predicate Continues<C>(a: Action<C>, o: Outcome) {
    Ok(o) || Ignored(a, o)
  }

  datatype Committed<!C, X> = Committed(state: X, undo: seq<C>, failed: bool)

  function Undo<C>(a: Action<C>): seq<C> {
    if a.rollback.Some? then [a.rollback.value] else []
  }

  /** The commit loop: an action that is run, or whose failure is ignored, has its
      rollback remembered; the first other failure ends it. */
  function Commit<C, X>(world: World<C, X>, x: X, actions: seq<Action<C>>): Committed<C, X> {
    if actions == [] then Committed(x, [], false) else
      var r := world(actions[0].command, x);
      if !Continues(actions[0], r.outcome) then Committed(r.after, [], true) else
        var rest := Commit(world, r.after, actions[1..]);
        rest.(undo := Undo(actions[0]) + rest.undo)
  }

  lemma CommitRound<C, X>(world: World<C, X>, x: X, actions: seq<Action<C>>, before: seq<C>)
    ensures actions == [] ==> Commit(world, x, actions) == Committed(x, [], false)
    ensures actions != [] ==>
              var a, r := actions[0], world(actions[0].command, x);
              var c, rest := Commit(world, x, actions), Commit(world, r.after, actions[1..]);
              if Continues(a, r.outcome) then c.(undo := before + c.undo) == rest.(undo := before + Undo(a) + rest.undo)
              else c == Committed(r.after, [], true)
  {
    if actions != [] {
      var rest := Commit(world, world(actions[0].command, x).after, actions[1..]);
      assert before + (Undo(actions[0]) + rest.undo) == before + Undo(actions[0]) + rest.undo;
    }
  }

  function Failures<C, X>(world: World<C, X>, x: X, commands: seq<C>): nat {
    if commands == [] then 0 else
      var r := world(commands[0], x);
      (if Ok(r.outcome) then 0 else 1) + Failures(world, r.after, commands[1..])
  }

  // What the loops do, step by step.

  /** The run goes on after an outcome: the command succeeded, or there is a filter and
      the failure is an exception other than a failed command, or one that left some
      output, and the filter finds something in its output or its errors. */
  ghost predicate GoesOn<C>(a: Action<C>, o: Outcome) {
    || o == Success || o == NoResult
    || (a.filter.Some? && (o == InfobloxError || o == OtherError))
    || (a.filter.Some? && o.ProcessError? && (o.out != "" || o.err != "") && (a.filter.value(o.out) || a.filter.value(o.err)))
  }

  lemma GoesOnMeaning<C>(a: Action<C>, o: Outcome)
    ensures Continues(a, o) <==> GoesOn(a, o)
  {}

  /** The state after the first `n` commands. */
  ghost function StateAfter<C, X>(world: World<C, X>, x: X, actions: seq<Action<C>>, n: nat): X
    requires n <= |actions|
  {
    if n == 0 then x else world(actions[n - 1].command, StateAfter(world, x, actions, n - 1)).after
  }

  ghost function OutcomeAt<C, X>(world: World<C, X>, x: X, actions: seq<Action<C>>, n: nat): Outcome
    requires n < |actions|
  {
    world(actions[n].command, StateAfter(world, x, actions, n)).outcome
  }

  /** The rollbacks of the actions from number `k` up to number `n`, in order. */
  ghost function Rollbacks<C>(actions: seq<Action<C>>, k: nat, n: nat): seq<C>
    requires k <= n <= |actions|
    decreases n - k
  {
    if k == n then []
    else (if actions[k].rollback == None then [] else [actions[k].rollback.value]) + Rollbacks(actions, k + 1, n)
  }

  /** The loop stops at the first action after which it does not go on, with that one
      run and the rollbacks of those before it remembered. */
  lemma CommitStopsExactly<C, X>(world: World<C, X>, x: X, actions: seq<Action<C>>, n: nat)
    requires n <= |actions| && forall i :: 0 <= i < n ==> GoesOn(actions[i], OutcomeAt(world, x, actions, i))
    requires n < |actions| ==> !GoesOn(actions[n], OutcomeAt(world, x, actions, n))
    ensures var c := Commit(world, x, actions);
            && (c.failed <==> n < |actions|) && c.undo == Rollbacks(actions, 0, n)
            && c.state == StateAfter(world, x, actions, if n < |actions| then n + 1 else n)
  {
    CommitFrom(world, x, actions, 0, n);
    assert actions[0..] == actions;
  }

  lemma {:induction false} CommitFrom<C, X>(world: World<C, X>, x: X, actions: seq<Action<C>>, k: nat, n: nat)
    requires k <= n <= |actions| && forall i :: k <= i < n ==> GoesOn(actions[i], OutcomeAt(world, x, actions, i))
    requires n < |actions| ==> !GoesOn(actions[n], OutcomeAt(world, x, actions, n))
    ensures var c := Commit(world, StateAfter(world, x, actions, k), actions[k..]);
            && (c.failed <==> n < |actions|) && c.undo == Rollbacks(actions, k, n)
            && c.state == StateAfter(world, x, actions, if n < |actions| then n + 1 else n)
    decreases |actions| - k
  {
    if k < |actions| {
      assert actions[k..][0] == actions[k] && actions[k..][1..] == actions[k + 1..];
      GoesOnMeaning(actions[k], OutcomeAt(world, x, actions, k));
      if k < n {
        CommitFrom(world, x, actions, k + 1, n);
      }
    }
  }

  /** Command number `i` of a list fails when all are run. */
  ghost predicate FailsAt<C, X>(world: World<C, X>, x: X, commands: seq<C>, i: nat) {
    i < |commands| &&
    var o := world(commands[i], RunAll(world, x, commands[..i])).outcome;
    o != Success && o != NoResult
  }

  ghost function Failing<C, X>(world: World<C, X>, x: X, commands: seq<C>): set<nat> {
    set i: nat | i < |commands| && FailsAt(world, x, commands, i)
  }

  /** As many failures are counted as there are. */
  lemma {:induction false} FailuresAreCounted<C, X>(world: World<C, X>, x: X, commands: seq<C>)
    ensures Failures(world, x, commands) == |Failing(world, x, commands)|
    decreases |commands|
  {
    hide FailsAt, RunAll;
    if commands == [] {
      assert Failing(world, x, commands) == {};
    } else {
      var n := |commands| - 1;
      var front := commands[..n];
      FailuresAreCounted(world, x, front);
      FailuresOfLast(world, x, commands);
      forall i: nat | i < n
        ensures FailsAt(world, x, front, i) <==> FailsAt(world, x, commands, i)
      {
        FailsAtPrefix(world, x, commands, n, i);
      }
      assert Failing(world, x, commands) == Failing(world, x, front) + if FailsAt(world, x, commands, n) then {n} else {};
    }
  }

  lemma FailsAtPrefix<C, X>(world: World<C, X>, x: X, commands: seq<C>, n: nat, i: nat)
    requires i < n <= |commands|
    ensures FailsAt(world, x, commands[..n], i) <==> FailsAt(world, x, commands, i)
  {
    hide RunAll;
    assert commands[..n][..i] == commands[..i];
  }

  lemma FailuresOfLast<C, X>(world: World<C, X>, x: X, commands: seq<C>)
    requires commands != []
    ensures var n := |commands| - 1;
            Failures(world, x, commands) == Failures(world, x, commands[..n]) + if FailsAt(world, x, commands, n) then 1 else 0
  {
    var n := |commands| - 1;
    FailuresAppend(world, x, commands[..n], [commands[n]]);
    assert commands[..n] + [commands[n]] == commands && [commands[n]][1..] == [];
  }

  /** The state in which a failing commit leaves the system once it has been undone. */
  function Unwound<C, X>(world: World<C, X>, x: X, actions: seq<Action<C>>): X {
    var c := Commit(world, x, actions);
    RunAll(world, c.state, Reverse(c.undo))
  }

  lemma UnwoundStep<C, X>(world: World<C, X>, x: X, actions: seq<Action<C>>)
    requires actions != []
    ensures var a := actions[0]; var r := world(a.command, x);
            Unwound(world, x, actions) ==
            if !Continues(a, r.outcome) then r.after
            else var y := Unwound(world, r.after, actions[1..]);
                 if a.rollback.Some? then world(a.rollback.value, y).after else y
  {
    var a := actions[0];
    var r := world(a.command, x);
    if Continues(a, r.outcome) {
      var rest := Commit(world, r.after, actions[1..]);
      ReverseAppend(Undo(a), rest.undo);
      RunAllAppend(world, rest.state, Reverse(rest.undo), Reverse(Undo(a)));
      assert a.rollback.Some? ==> Undo(a)[1..] == [] && Reverse(Undo(a)) == [a.rollback.value];
      assert a.rollback.None? ==> Reverse(rest.undo) + [] == Reverse(rest.undo);
    }
  }

  /** A failing action changes nothing; one that succeeds is undone by its rollback, or
      changes nothing when it has none. */
  ghost predicate Undoable<C, X(!new)>(world: World<C, X>, a: Action<C>) {
    forall x ::
      var r := world(a.command, x);
      if Ok(r.outcome) then
        if a.rollback.Some? then world(a.rollback.value, r.after) == Response(x, Success) else r.after == x
      else r.after == x
  }

  /** On this run, undoing an action whose failure was ignored changes nothing. */
  predicate IgnoredAreNeutral<C, X(==)>(world: World<C, X>, x: X, actions: seq<Action<C>>) {
    actions == [] ||
    var a, r := actions[0], world(actions[0].command, x);
    Continues(a, r.outcome) ==>
      && (!Ok(r.outcome) && a.rollback.Some? ==> world(a.rollback.value, x).after == x)
      && IgnoredAreNeutral(world, r.after, actions[1..])
  }

  /** How many ignored failures of this run have a rollback registered. */
  function IgnoredCount<C, X>(world: World<C, X>, x: X, actions: seq<Action<C>>): nat {
    if actions == [] then 0 else
      var a, r := actions[0], world(actions[0].command, x);
      if !Continues(a, r.outcome) then 0
      else (if !Ok(r.outcome) && a.rollback.Some? then 1 else 0) + IgnoredCount(world, r.after, actions[1..])
  }

  /** Undoing a failed commit restores the state it started from, for any list of
      actions, as long as no ignored failure is undone with an effect. */
  lemma {:induction false} FailedCommitIsUndone<C, X(!new)>(world: World<C, X>, x: X, actions: seq<Action<C>>)
    requires forall a <- actions :: Undoable(world, a)
    requires IgnoredAreNeutral(world, x, actions)
    ensures Unwound(world, x, actions) == x
    decreases |actions|
  {
    if actions != [] {
      assert Undoable(world, actions[0]);
      UnwoundStep(world, x, actions);
      var r := world(actions[0].command, x);
      if Continues(actions[0], r.outcome) {
        FailedCommitIsUndone(world, r.after, actions[1..]);
      }
    }
  }

  ghost predicate OneKeyEach<C(!new), K(!new)>(key: C -> K, actions: seq<Action<C>>) {
    forall a <- actions :: a.rollback.Some? ==> key(a.rollback.value) == key(a.command)
  }

  ghost function Keys<C, K>(key: C -> K, actions: seq<Action<C>>): set<K> {
    set a | a in actions :: key(a.command)
  }

  /** The command leaves its entry the same whatever was there. */
  ghost predicate Overwrites<C(!new), X(!new), K(!new), V(!new)>(world: World<C, X>, view: (X, K) -> V, key: C -> K, c: C) {
    forall x, y :: view(world(c, x).after, key(c)) == view(world(c, y).after, key(c))
  }

  /** Where two actions share an entry, the rollback of the earlier one, which is run
      last, overwrites it. Actions on different entries may have any rollbacks. */
  ghost predicate EarlierOverwrites<C(!new), X(!new), K(!new), V(!new)>(world: World<C, X>, view: (X, K) -> V, key: C -> K,
                                                                         actions: seq<Action<C>>) {
    forall i, j :: 0 <= i < j < |actions| && key(actions[i].command) == key(actions[j].command) && actions[i].rollback.Some? ==>
                     Overwrites(world, view, key, actions[i].rollback.value)
  }

  /** On this run, undoing an ignored failure changes nothing, if no earlier action has
      a rollback for the same entry. */
  predicate FirstIgnoredAreNeutral<C, X(==), K(==)>(world: World<C, X>, key: C -> K, x: X, actions: seq<Action<C>>, seen: set<K>) {
    actions == [] ||
    var a, r := actions[0], world(actions[0].command, x);
    Continues(a, r.outcome) ==>
      && (!Ok(r.outcome) && a.rollback.Some? && key(a.command) !in seen ==> world(a.rollback.value, x).after == x)
      && FirstIgnoredAreNeutral(world, key, r.after, actions[1..], if a.rollback.Some? then seen + {key(a.command)} else seen)
  }

  lemma {:induction false} UntouchedStays<C(!new), X(!new), K(!new), V(!new)>(
      world: World<C, X>, view: (X, K) -> V, key: C -> K, x: X, actions: seq<Action<C>>, j: K)
    requires Keyed(world, view, key) && OneKeyEach(key, actions) && j !in Keys(key, actions)
    ensures view(Unwound(world, x, actions), j) == view(x, j)
    decreases |actions|
  {
    hide Keyed, Unwound;
    if actions == [] {
      NothingToUnwind(world, x, actions);
    } else {
      var a, r := actions[0], world(actions[0].command, x);
      UnwoundStep(world, x, actions);
      assert a in actions;
      KeyedStep(world, view, key, a.command, x, j);
      if Continues(a, r.outcome) {
        UntouchedStays(world, view, key, r.after, actions[1..], j);
        if a.rollback.Some? {
          KeyedStep(world, view, key, a.rollback.value, Unwound(world, r.after, actions[1..]), j);
        }
      }
    }
  }

  lemma NothingToUnwind<C, X>(world: World<C, X>, x: X, actions: seq<Action<C>>)
    requires actions == []
    ensures Unwound(world, x, actions) == x
  {}

  /** The entry of the first action ends up as if its rollback were run at once. */
  lemma FirstEntry<C(!new), X(!new), K(!new), V(!new)>(
      world: World<C, X>, view: (X, K) -> V, key: C -> K, x: X, actions: seq<Action<C>>)
    requires Keyed(world, view, key) && OneKeyEach(key, actions) && EarlierOverwrites(world, view, key, actions)
    requires actions != [] && actions[0].rollback.Some? && Continues(actions[0], world(actions[0].command, x).outcome)
    ensures var a, r := actions[0], world(actions[0].command, x);
            view(Unwound(world, x, actions), key(a.command)) == view(world(a.rollback.value, r.after).after, key(a.command))
  {
    hide Keyed, Unwound, Overwrites;
    var a, r := actions[0], world(actions[0].command, x);
    var z := Unwound(world, r.after, actions[1..]);
    UnwoundStep(world, x, actions);
    assert a in actions;
    if key(a.command) in Keys(key, actions[1..]) {
      var later :| later in actions[1..] && key(later.command) == key(a.command);
      var j :| 0 <= j < |actions[1..]| && actions[1..][j] == later;
      assert actions[j + 1] == later;
      OverwritesAnyway(world, view, key, a.rollback.value, z, r.after);
    } else {
      UntouchedStays(world, view, key, r.after, actions[1..], key(a.command));
      KeyedReads(world, view, key, a.rollback.value, z, r.after);
    }
  }

  lemma OverwritesAnyway<C(!new), X(!new), K(!new), V(!new)>(world: World<C, X>, view: (X, K) -> V, key: C -> K, c: C, x: X, y: X)
    requires Overwrites(world, view, key, c)
    ensures view(world(c, x).after, key(c)) == view(world(c, y).after, key(c))
  {}

  /** The induction behind the next lemma: outside the entries in `seen`, whose rollbacks
      come last, the state is that of `t` again. */
  lemma {:induction false} RestoredOff<C(!new), X(!new), K(!new), V(!new)>(
      world: World<C, X>, view: (X, K) -> V, key: C -> K, x: X, t: X, actions: seq<Action<C>>, seen: set<K>)
    requires Keyed(world, view, key) && OneKeyEach(key, actions) && EarlierOverwrites(world, view, key, actions)
    requires forall a <- actions :: Undoable(world, a)
    requires SameOff(view, x, t, seen)
    ensures SameOff(view, Unwound(world, x, actions), t, seen) <==> FirstIgnoredAreNeutral(world, key, x, actions, seen)
    decreases |actions|
  {
    hide Keyed, Unwound, Overwrites, EarlierOverwrites;
    if actions == [] {
      NothingToUnwind(world, x, actions);
    } else {
      var a, r := actions[0], world(actions[0].command, x);
      var y := Unwound(world, x, actions);
      UnwoundStep(world, x, actions);
      assert a in actions && Undoable(world, a);
      if Continues(a, r.outcome) {
        LaterOnes(world, view, key, actions);
        var z, k := Unwound(world, r.after, actions[1..]), key(a.command);
        if a.rollback.None? {
          RestoredOff(world, view, key, r.after, t, actions[1..], seen);
        } else {
          forall j | j !in seen + {k}
            ensures view(r.after, j) == view(t, j)
          {
            KeyedStep(world, view, key, a.command, x, j);
          }
          RestoredOff(world, view, key, r.after, t, actions[1..], seen + {k});
          FirstEntry(world, view, key, x, actions);
          KeyedNoEffect(world, view, key, a.rollback.value, x);
          forall j | j != k
            ensures view(y, j) == view(z, j)
          {
            KeyedStep(world, view, key, a.rollback.value, z, j);
          }
          OneEntryMore(view, y, z, t, seen, k);
        }
      }
    }
  }

  lemma LaterOnes<C(!new), X(!new), K(!new), V(!new)>(world: World<C, X>, view: (X, K) -> V, key: C -> K, actions: seq<Action<C>>)
    requires actions != [] && OneKeyEach(key, actions) && EarlierOverwrites(world, view, key, actions)
    ensures OneKeyEach(key, actions[1..]) && EarlierOverwrites(world, view, key, actions[1..])
  {
    hide Overwrites;
    var rest := actions[1..];
    forall i, j | 0 <= i < j < |rest| && key(rest[i].command) == key(rest[j].command) && rest[i].rollback.Some?
      ensures Overwrites(world, view, key, rest[i].rollback.value)
    {
      assert actions[i + 1] == rest[i] && actions[j + 1] == rest[j];
    }
  }

  lemma OneEntryMore<X(!new), K(!new), V(!new)>(view: (X, K) -> V, y: X, z: X, t: X, seen: set<K>, k: K)
    requires forall j :: j != k ==> view(y, j) == view(z, j)
    ensures SameOff(view, y, t, seen) <==> SameOff(view, z, t, seen + {k}) && (k in seen || view(y, k) == view(t, k))
  {
    if SameOff(view, y, t, seen) {
      forall j | j !in seen + {k}
        ensures view(z, j) == view(t, j)
      {
        assert view(y, j) == view(z, j);
      }
    }
    if SameOff(view, z, t, seen + {k}) && (k in seen || view(y, k) == view(t, k)) {
      forall j | j !in seen
        ensures view(y, j) == view(t, j)
      {
        if j != k {
          assert view(z, j) == view(t, j);
        }
      }
    }
  }

  /** In a system of entries, with any number of ignored failures: undoing a commit
      restores the state it started from exactly when undoing an ignored failure
      changes nothing, where it is the first action with a rollback for its entry. */
  lemma RestoredExactly<C(!new), X(!new), K(!new), V(!new)>(
      world: World<C, X>, view: (X, K) -> V, key: C -> K, x: X, actions: seq<Action<C>>)
    requires Keyed(world, view, key) && OneKeyEach(key, actions) && EarlierOverwrites(world, view, key, actions)
    requires forall a <- actions :: Undoable(world, a)
    ensures Unwound(world, x, actions) == x <==> FirstIgnoredAreNeutral(world, key, x, actions, {})
  {
    hide Keyed, Unwound, EarlierOverwrites, FirstIgnoredAreNeutral;
    RestoredOff(world, view, key, x, x, actions, {});
    KeyedEqual(world, view, key, Unwound(world, x, actions), x);
  }

  ghost predicate DifferentKeys<C, K>(key: C -> K, actions: seq<Action<C>>) {
    forall i, j :: 0 <= i < j < |actions| ==> key(actions[i].command) != key(actions[j].command)
  }

  /** The failures that would be ignored, each looked at in the state the commit starts
      from, up to the first that would not be ignored: undoing them changes nothing. */
  predicate NeutralAtStart<C, X(==)>(world: World<C, X>, x: X, actions: seq<Action<C>>) {
    actions == [] ||
    var a, o := actions[0], world(actions[0].command, x).outcome;
    Continues(a, o) ==>
      && (!Ok(o) && a.rollback.Some? ==> world(a.rollback.value, x).after == x)
      && NeutralAtStart(world, x, actions[1..])
  }

  /** When the actions are about different entries, all that counts is how each of them
      would do in the state the commit starts from. */
  lemma RestoredExactlyWhenNeutral<C(!new), X(!new), K(!new), V(!new)>(
      world: World<C, X>, view: (X, K) -> V, key: C -> K, x: X, actions: seq<Action<C>>)
    requires Keyed(world, view, key) && OneKeyEach(key, actions) && DifferentKeys(key, actions)
    requires forall a <- actions :: Undoable(world, a)
    ensures Unwound(world, x, actions) == x <==> NeutralAtStart(world, x, actions)
    ensures IgnoredAreNeutral(world, x, actions) <==> NeutralAtStart(world, x, actions)
  {
    hide Keyed, Unwound, FirstIgnoredAreNeutral, NeutralAtStart, IgnoredAreNeutral, Overwrites;
    RestoredExactly(world, view, key, x, actions);
    SeenFromStart(world, view, key, x, x, actions, {});
  }

  lemma {:induction false} SeenFromStart<C(!new), X(!new), K(!new), V(!new)>(
      world: World<C, X>, view: (X, K) -> V, key: C -> K, x: X, start: X, actions: seq<Action<C>>, seen: set<K>)
    requires Keyed(world, view, key) && OneKeyEach(key, actions) && DifferentKeys(key, actions)
    requires forall a <- actions :: key(a.command) !in seen && view(x, key(a.command)) == view(start, key(a.command))
    ensures FirstIgnoredAreNeutral(world, key, x, actions, seen) <==> NeutralAtStart(world, start, actions)
    ensures IgnoredAreNeutral(world, x, actions) <==> NeutralAtStart(world, start, actions)
    decreases |actions|
  {
    hide Keyed;
    if actions != [] {
      var a, r := actions[0], world(actions[0].command, x);
      assert a in actions;
      KeyedReads(world, view, key, a.command, x, start);
      if a.rollback.Some? {
        KeyedReads(world, view, key, a.rollback.value, x, start);
        KeyedNoEffect(world, view, key, a.rollback.value, x);
        KeyedNoEffect(world, view, key, a.rollback.value, start);
      }
      if Continues(a, r.outcome) {
        forall b | b in actions[1..]
          ensures b in actions && key(b.command) != key(a.command)
          ensures view(r.after, key(b.command)) == view(start, key(b.command))
        {
          KeyedStep(world, view, key, a.command, x, key(b.command));
        }
        SeenFromStart(world, view, key, r.after, start, actions[1..], if a.rollback.Some? then seen + {key(a.command)} else seen);
      }
    }
  }

  lemma {:induction false} NothingIgnored<C, X>(world: World<C, X>, x: X, actions: seq<Action<C>>)
    requires IgnoredCount(world, x, actions) == 0
    ensures IgnoredAreNeutral(world, x, actions)
    decreases |actions|
  {
    if actions != [] && Continues(actions[0], world(actions[0].command, x).outcome) {
      NothingIgnored(world, world(actions[0].command, x).after, actions[1..]);
    }
  }

  /** When nothing was ignored, every rollback succeeds, whether the commit failed or
      is taken back later. */
  lemma {:induction false} RollbacksSucceed<C, X(!new)>(world: World<C, X>, x: X, actions: seq<Action<C>>)
    requires forall a <- actions :: Undoable(world, a)
    requires IgnoredCount(world, x, actions) == 0
    ensures var c := Commit(world, x, actions); Failures(world, c.state, Reverse(c.undo)) == 0
    decreases |actions|
  {
    if actions != [] {
      var a, r := actions[0], world(actions[0].command, x);
      assert Undoable(world, a);
      if Continues(a, r.outcome) && Ok(r.outcome) {
        var rest := Commit(world, r.after, actions[1..]);
        RollbacksSucceed(world, r.after, actions[1..]);
        NothingIgnored(world, r.after, actions[1..]);
        FailedCommitIsUndone(world, r.after, actions[1..]);
        ReverseAppend(Undo(a), rest.undo);
        FailuresAppend(world, rest.state, Reverse(rest.undo), Reverse(Undo(a)));
        assert a.rollback.Some? ==> Undo(a)[1..] == [] && Reverse(Undo(a)) == [a.rollback.value];
      } else if Continues(a, r.outcome) {
        RollbacksSucceed(world, r.after, actions[1..]);
        assert Undo(a) == [] && [] + Commit(world, r.after, actions[1..]).undo == Commit(world, r.after, actions[1..]).undo;
      }
    }
  }

  lemma {:induction false} FailuresAppend<C, X>(world: World<C, X>, x: X, a: seq<C>, b: seq<C>)
    ensures Failures(world, x, a + b) == Failures(world, x, a) + Failures(world, RunAll(world, x, a), b)
    decreases |a|
  {
    if a == [] {
      assert a + b == b;
    } else {
      assert (a + b)[1..] == a[1..] + b;
      FailuresAppend(world, world(a[0], x).after, a[1..], b);
    }
  }

  function Inverse(c: Campus): Campus {
    match c
    case Add(n) => Delete(n)
    case Delete(n) => Add(n)
  }

  ghost predicate OnCampuses(actions: seq<Action<Campus>>) {
    forall a <- actions :: a.rollback == Some(Inverse(a.command))
  }

  lemma CampusActionsFit(actions: seq<Action<Campus>>)
    requires OnCampuses(actions)
    ensures (forall a <- actions :: Undoable(Directory, a)) && OneKeyEach(NameOf, actions)
    ensures EarlierOverwrites(Directory, IsListed, NameOf, actions)
  {
    forall n: string, s: set<string>
      ensures n in s ==> s - {n} + {n} == s
      ensures n !in s ==> s + {n} - {n} == s
    {}
  }

  /** No action on a campus fails, before the first whose failure is not ignored, that
      is the first on its campus. */
  predicate FirstOnesSucceed(campuses: set<string>, actions: seq<Action<Campus>>, seen: set<string>)
    decreases |actions|
  {
    actions == [] ||
    var a, r := actions[0], Directory(actions[0].command, campuses);
    Continues(a, r.outcome) ==>
      && (a.command.name !in seen ==> r.outcome == Success)
      && FirstOnesSucceed(r.after, actions[1..], seen + {a.command.name})
  }

  /** For lists of campuses to add and to delete, any of them as often as one likes: an
      ignored failure spoils the undoing exactly when it is the first on its campus. */
  lemma CampusesRestoredExactly(campuses: set<string>, actions: seq<Action<Campus>>)
    requires OnCampuses(actions)
    ensures Unwound(Directory, campuses, actions) == campuses <==> FirstOnesSucceed(campuses, actions, {})
  {
    hide Unwound, FirstIgnoredAreNeutral, FirstOnesSucceed, Keyed, Undoable, EarlierOverwrites;
    CampusActionsFit(actions);
    DirectoryIsKeyed();
    RestoredExactly(Directory, IsListed, NameOf, campuses, actions);
    FirstOnes(campuses, actions, {});
  }

  lemma {:induction false} FirstOnes(campuses: set<string>, actions: seq<Action<Campus>>, seen: set<string>)
    requires OnCampuses(actions)
    ensures FirstIgnoredAreNeutral(Directory, NameOf, campuses, actions, seen) <==> FirstOnesSucceed(campuses, actions, seen)
    decreases |actions|
  {
    if actions != [] {
      var a := actions[0];
      assert a in actions;
      FirstOnes(Directory(a.command, campuses).after, actions[1..], seen + {a.command.name});
      UndoneFailureShows(a.command, campuses);
    }
  }

  /** In the directory, undoing what failed always has an effect. */
  lemma UndoneFailureShows(c: Campus, campuses: set<string>)
    ensures Directory(c, campuses).outcome != Success ==> Directory(Inverse(c), campuses).after != campuses
  {
    assert c.name in campuses + {c.name} && c.name !in campuses - {c.name};
  }

  /** Deleting a campus that is not there is passed over, but when a later action fails
      its rollback adds the campus. */
  lemma IgnoredFailureIsUndoneAnyway()
    ensures var actions := [Action(Delete("ta"), Some(Add("ta")), Some((m: string) => m == "not found")),
                            Action(Delete("tb"), Some(Add("tb")), None)];
            OnCampuses(actions) && !FirstOnesSucceed({}, actions, {}) &&
            Commit(Directory, {}, actions).failed && Unwound(Directory, {}, actions) == {"ta"}
  {
    var actions := [Action(Delete("ta"), Some(Add("ta")), Some((m: string) => m == "not found")),
                    Action(Delete("tb"), Some(Add("tb")), None)];
    UnwoundStep(Directory, {}, actions);
    UnwoundStep(Directory, {}, actions[1..]);
  }

  class DSDBRunner<C, X> {
    const world: World<C, X>
    var state: X  // of the external system
    var actions: seq<Action<C>>
    var rollbackList: seq<C>

    constructor (world: World<C, X>, state: X)
      ensures this.world == world && this.state == state && actions == [] && rollbackList == []
    {
      this.world, this.state, actions, rollbackList := world, state, [], [];
    }

    /** A filter needs the message to log when it matches. */
    method AddAction(command: C, rollback: Option<C>, filter: Option<string -> bool>, ignoreMsg: string)
      returns (accepted: bool)
      modifies `actions
      ensures accepted <==> (filter.Some? ==> ignoreMsg != "")
      ensures actions == if accepted then old(actions) + [Action(command, rollback, filter)] else old(actions)
    {
      if filter.Some? && ignoreMsg == "" {
        return false;
      }
      actions := actions + [Action(command, rollback, filter)];
      return true;
    }

    method CommitActions() returns (failed: bool)
      modifies `state, `rollbackList
      ensures var c := Commit(world, old(state), actions);
              state == c.state && rollbackList == old(rollbackList) + c.undo && failed == c.failed
    {
      hide Commit, Ignored;
      ghost var done: seq<C> := [];
      ghost var c := Commit(world, state, actions);
      var i := 0;
      assert actions[0..] == actions && [] + c.undo == c.undo && rollbackList + done == rollbackList;
      while i < |actions|
        invariant 0 <= i <= |actions| && actions == old(actions)
        invariant rollbackList == old(rollbackList) + done
        invariant c == Commit(world, state, actions[i..]).(undo := done + Commit(world, state, actions[i..]).undo)
      {
        var a := actions[i];
        assert actions[i..][1..] == actions[i + 1..];
        CommitRound(world, state, actions[i..], done);
        var r := world(a.command, state);
        state := r.after;
        if !Continues(a, r.outcome) {
          assert done + [] == done;
          return true;
        }
        if a.rollback.Some? {
          rollbackList := rollbackList + [a.rollback.value];
        }
        done := done + Undo(a);
        i := i + 1;
      }
      CommitRound(world, state, actions[i..], done);
      assert done + [] == done;
      return false;
    }

    /** The rollbacks in reverse; failures are counted and reported at the end, and the
        list is empty afterwards in any case. */
    method Rollback() returns (failures: nat)
      modifies `state, `rollbackList
      ensures state == RunAll(world, old(state), Reverse(old(rollbackList)))
      ensures failures == Failures(world, old(state), Reverse(old(rollbackList)))
      ensures rollbackList == []
    {
      rollbackList := Reverse(rollbackList);
      failures := 0;
      var i := 0;
      while i < |rollbackList|
        invariant 0 <= i <= |rollbackList| && rollbackList == Reverse(old(rollbackList))
        invariant RunAll(world, old(state), rollbackList) == RunAll(world, state, rollbackList[i..])
        invariant Failures(world, old(state), rollbackList) == failures + Failures(world, state, rollbackList[i..])
      {
        assert rollbackList[i..][1..] == rollbackList[i + 1..];
        var r := world(rollbackList[i], state);
        state := r.after;
        if !Ok(r.outcome) {
          failures := failures + 1;
        }
        i := i + 1;
      }
      rollbackList := [];
    }

    method CommitOrRollback() returns (failed: bool)
      modifies `state, `rollbackList
      ensures failed == Commit(world, old(state), actions).failed
      ensures !failed ==> state == Commit(world, old(state), actions).state
                          && rollbackList == old(rollbackList) + Commit(world, old(state), actions).undo
      ensures failed ==> rollbackList == []
                         && state == RunAll(world, Unwound(world, old(state), actions), Reverse(old(rollbackList)))
    {
      failed := CommitActions();
      if failed {
        ghost var c := Commit(world, old(state), actions);
        ReverseAppend(old(rollbackList), c.undo);
        RunAllAppend(world, c.state, Reverse(c.undo), Reverse(old(rollbackList)));
        var _ := Rollback();
      }
    }
  }
}

/** Actions that report whether they did something, as commands register them for
    Infoblox. */
module InfobloxTransactions {
  import opened Options
  import opened Transactions

  datatype Action<!C> = Action(command: C, rollback: Option<C>)

  /** How a group ends. */
  datatype End = Done | Failed | Escaped

  datatype Committed<!C, X> = Committed(state: X, undo: seq<C>, end: End)

  /** The loop over the actions, up to the first exception. An action that returned
      None has its rollback left out. */
  function Commit<C, X>(world: World<C, X>, x: X, actions: seq<Action<C>>): Committed<C, X> {
    if actions == [] then Committed(x, [], Done) else
      var a, r := actions[0], world(actions[0].command, x);
      match r.outcome
      case InfobloxError => Committed(r.after, [], Failed)
      case OtherError => Committed(r.after, [], Escaped)
      case ProcessError(_, _) => Committed(r.after, [], Escaped)
      case _ =>
        var rest := Commit(world, r.after, actions[1..]);
        rest.(undo := Undo(a, r.outcome) + rest.undo)
  }

  lemma CommitRound<C, X>(world: World<C, X>, x: X, actions: seq<Action<C>>, before: seq<C>)
    ensures actions == [] ==> Commit(world, x, actions) == Committed(x, [], Done)
    ensures actions != [] ==>
              var a, r := actions[0], world(actions[0].command, x);
              var c := Commit(world, x, actions);
              match r.outcome
              case InfobloxError => c == Committed(r.after, [], Failed)
              case OtherError => c == Committed(r.after, [], Escaped)
              case ProcessError(_, _) => c == Committed(r.after, [], Escaped)
              case _ => var rest := Commit(world, r.after, actions[1..]);
                        c.(undo := before + c.undo) == rest.(undo := before + Undo(a, r.outcome) + rest.undo)
  {
    if actions != [] {
      var a, r := actions[0], world(actions[0].command, x);
      var rest := Commit(world, r.after, actions[1..]);
      assert before + (Undo(a, r.outcome) + rest.undo) == before + Undo(a, r.outcome) + rest.undo;
    }
  }

  function Undo<C>(a: Action<C>, o: Outcome): seq<C> {
    if a.rollback.Some? && o == Success then [a.rollback.value] else []
  }

  /** Run rollbacks until one of them raises. */
  function RunUntilError<C, X>(world: World<C, X>, x: X, commands: seq<C>): X {
    if commands == [] then x else
      var r := world(commands[0], x);
      if r.outcome.Success? || r.outcome.NoResult? then RunUntilError(world, r.after, commands[1..]) else r.after
  }

  predicate AllSucceed<C, X>(world: World<C, X>, x: X, commands: seq<C>) {
    commands == [] ||
    var r := world(commands[0], x);
    (r.outcome.Success? || r.outcome.NoResult?) && AllSucceed(world, r.after, commands[1..])
  }

  // What the loops do, step by step.

  ghost function StateAfter<C, X>(world: World<C, X>, x: X, actions: seq<Action<C>>, n: nat): X
    requires n <= |actions|
  {
    if n == 0 then x else world(actions[n - 1].command, StateAfter(world, x, actions, n - 1)).after
  }

  ghost function OutcomeAt<C, X>(world: World<C, X>, x: X, actions: seq<Action<C>>, n: nat): Outcome
    requires n < |actions|
  {
    world(actions[n].command, StateAfter(world, x, actions, n)).outcome
  }

  /** The rollbacks of the actions from number `k` up to number `n` that returned a
      result, in order. */
  ghost function Rollbacks<C, X>(world: World<C, X>, x: X, actions: seq<Action<C>>, k: nat, n: nat): seq<C>
    requires k <= n <= |actions|
    decreases n - k
  {
    if k == n then []
    else (if actions[k].rollback == None || OutcomeAt(world, x, actions, k) != Success then [] else [actions[k].rollback.value])
         + Rollbacks(world, x, actions, k + 1, n)
  }

  /** The loop stops at the first action that raises: with an Infoblox error it has
      failed, with anything else the exception escapes. */
  lemma CommitStopsExactly<C, X>(world: World<C, X>, x: X, actions: seq<Action<C>>, n: nat)
    requires n <= |actions|
    requires forall i :: 0 <= i < n ==> OutcomeAt(world, x, actions, i) == Success || OutcomeAt(world, x, actions, i) == NoResult
    requires n < |actions| ==> OutcomeAt(world, x, actions, n) != Success && OutcomeAt(world, x, actions, n) != NoResult
    ensures var c := Commit(world, x, actions);
            && c.end == (if n == |actions| then Done else if OutcomeAt(world, x, actions, n) == InfobloxError then Failed else Escaped)
            && c.undo == Rollbacks(world, x, actions, 0, n)
            && c.state == StateAfter(world, x, actions, if n < |actions| then n + 1 else n)
  {
    CommitFrom(world, x, actions, 0, n);
    assert actions[0..] == actions;
  }

  lemma {:induction false} CommitFrom<C, X>(world: World<C, X>, x: X, actions: seq<Action<C>>, k: nat, n: nat)
    requires k <= n <= |actions|
    requires forall i :: k <= i < n ==> OutcomeAt(world, x, actions, i) == Success || OutcomeAt(world, x, actions, i) == NoResult
    requires n < |actions| ==> OutcomeAt(world, x, actions, n) != Success && OutcomeAt(world, x, actions, n) != NoResult
    ensures var c := Commit(world, StateAfter(world, x, actions, k), actions[k..]);
            && c.end == (if n == |actions| then Done else if OutcomeAt(world, x, actions, n) == InfobloxError then Failed else Escaped)
            && c.undo == Rollbacks(world, x, actions, k, n)
            && c.state == StateAfter(world, x, actions, if n < |actions| then n + 1 else n)
    decreases |actions| - k
  {
    if k < |actions| {
      assert actions[k..][0] == actions[k] && actions[k..][1..] == actions[k + 1..];
      CommitRound(world, StateAfter(world, x, actions, k), actions[k..], []);
      var r := world(actions[k].command, StateAfter(world, x, actions, k));
      assert r.outcome == OutcomeAt(world, x, actions, k);
      hide Commit;
      if k < n {
        CommitFrom(world, x, actions, k + 1, n);
        var rest := Commit(world, r.after, actions[k + 1..]);
        assert [] + Undo(actions[k], r.outcome) + rest.undo == Undo(actions[k], r.outcome) + rest.undo;
        assert [] + Commit(world, StateAfter(world, x, actions, k), actions[k..]).undo ==
               Commit(world, StateAfter(world, x, actions, k), actions[k..]).undo;
      } else {
        match r.outcome
        case InfobloxError =>
        case OtherError =>
        case ProcessError(_, _) =>
      }
    }
  }

  /** Rolling back stops after the first rollback that raises, and otherwise at the end. */
  lemma {:induction false} UndoStopsExactly<C, X>(world: World<C, X>, x: X, commands: seq<C>, n: nat)
    requires n <= |commands|
    requires forall i :: 0 <= i < n ==> world(commands[i], RunAll(world, x, commands[..i])).outcome in {Success, NoResult}
    requires n < |commands| ==> world(commands[n], RunAll(world, x, commands[..n])).outcome !in {Success, NoResult}
    ensures RunUntilError(world, x, commands) == RunAll(world, x, commands[..if n < |commands| then n + 1 else n])
    decreases |commands|
  {
    if commands != [] {
      var y, rest := world(commands[0], x).after, commands[1..];
      forall i: nat | i <= |rest|
        ensures commands[..i + 1][0] == commands[0] && commands[..i + 1][1..] == rest[..i]
        ensures RunAll(world, x, commands[..i + 1]) == RunAll(world, y, rest[..i])
      {}
      assert commands[..0] == [] && rest[..0] == [];
      if n > 0 {
        forall i | 0 <= i < n - 1
          ensures world(rest[i], RunAll(world, y, rest[..i])).outcome in {Success, NoResult}
        {
          assert commands[i + 1] == rest[i];
        }
        UndoStopsExactly(world, y, rest, n - 1);
      }
    }
  }

  /** The state in which `commit_or_rollback` leaves the system. */
  function Final<C, X>(world: World<C, X>, x: X, actions: seq<Action<C>>): X {
    var c := Commit(world, x, actions);
    if c.end.Failed? then RunUntilError(world, c.state, Reverse(c.undo)) else c.state
  }

  ghost predicate Undoable<C, X(!new)>(world: World<C, X>, a: Action<C>) {
    forall x ::
      var r := world(a.command, x);
      if r.outcome.Success? && a.rollback.Some? then world(a.rollback.value, r.after) == Response(x, Success)
      else r.after == x
  }

  lemma {:induction false} RunAppend<C, X>(world: World<C, X>, x: X, a: seq<C>, b: seq<C>)
    requires AllSucceed(world, x, a)
    ensures RunUntilError(world, x, a + b) == RunUntilError(world, RunUntilError(world, x, a), b)
    ensures AllSucceed(world, RunUntilError(world, x, a), b) ==> AllSucceed(world, x, a + b)
    decreases |a|
  {
    if a == [] {
      assert a + b == b;
    } else {
      assert (a + b)[1..] == a[1..] + b;
      RunAppend(world, world(a[0], x).after, a[1..], b);
    }
  }

  /** What the loop has remembered undoes what it has done, however it ended. */
  lemma {:induction false} UndoRestores<C, X(!new)>(world: World<C, X>, x: X, actions: seq<Action<C>>)
    requires forall a <- actions :: Undoable(world, a)
    ensures var c := Commit(world, x, actions);
            AllSucceed(world, c.state, Reverse(c.undo)) && RunUntilError(world, c.state, Reverse(c.undo)) == x
    decreases |actions|
  {
    if actions != [] {
      var a, r := actions[0], world(actions[0].command, x);
      assert Undoable(world, a);
      if r.outcome.Success? || r.outcome.NoResult? {
        var rest := Commit(world, r.after, actions[1..]);
        var undo := Undo(a, r.outcome);
        UndoRestores(world, r.after, actions[1..]);
        ReverseAppend(undo, rest.undo);
        assert undo != [] ==> undo[1..] == [] && Reverse(undo) == [undo[0]];
        assert AllSucceed(world, r.after, Reverse(undo)) && RunUntilError(world, r.after, Reverse(undo)) == x by {
          assert undo != [] ==> Reverse(undo)[1..] == [];
        }
        RunAppend(world, rest.state, Reverse(rest.undo), Reverse(undo));
      }
    }
  }

  /** A group that fails with an Infoblox error restores the state it started from. */
  lemma FailedGroupIsUndone<C, X(!new)>(world: World<C, X>, x: X, actions: seq<Action<C>>)
    requires (forall a <- actions :: Undoable(world, a)) && Commit(world, x, actions).end.Failed?
    ensures Final(world, x, actions) == x
  {
    UndoRestores(world, x, actions);
  }

  ghost predicate DifferentKeys<C, K>(key: C -> K, actions: seq<Action<C>>) {
    forall i, j :: 0 <= i < j < |actions| ==> key(actions[i].command) != key(actions[j].command)
  }

  predicate Raises(o: Outcome) {
    !o.Success? && !o.NoResult?
  }

  /** How a group will end, from what each action would do in the state at the start. */
  function EndAtStart<C, X>(world: World<C, X>, x: X, actions: seq<Action<C>>): End {
    if actions == [] then Done else
      var o := world(actions[0].command, x).outcome;
      if o.InfobloxError? then Failed else if Raises(o) then Escaped else EndAtStart(world, x, actions[1..])
  }

  /** No action before the first that would raise would change the state at the start. */
  predicate NothingChangesAtStart<C, X(==)>(world: World<C, X>, x: X, actions: seq<Action<C>>) {
    actions == [] ||
    var r := world(actions[0].command, x);
    !Raises(r.outcome) ==> r.after == x && NothingChangesAtStart(world, x, actions[1..])
  }

  /** Whether a group that does not finish is undone, for actions on different entries,
      can be told at the start: exactly when the exception will be an Infoblox error, or
      no action before it would change anything. */
  lemma UnfinishedIsUndoneExactly<C(!new), X(!new), K(!new), V(!new)>(
      world: World<C, X>, view: (X, K) -> V, key: C -> K, x: X, actions: seq<Action<C>>)
    requires Keyed(world, view, key) && DifferentKeys(key, actions) && forall a <- actions :: Undoable(world, a)
    ensures Commit(world, x, actions).end == EndAtStart(world, x, actions)
    ensures EndAtStart(world, x, actions) != Done ==>
              (Final(world, x, actions) == x <==>
               EndAtStart(world, x, actions) == Failed || NothingChangesAtStart(world, x, actions))
  {
    hide Keyed, Commit, EndAtStart, NothingChangesAtStart, Undoable;
    SeenFromStart(world, view, key, x, x, actions);
    if EndAtStart(world, x, actions) == Failed {
      FailedGroupIsUndone(world, x, actions);
    }
  }

  lemma {:induction false} SeenFromStart<C(!new), X(!new), K(!new), V(!new)>(
      world: World<C, X>, view: (X, K) -> V, key: C -> K, x: X, start: X, actions: seq<Action<C>>)
    requires Keyed(world, view, key) && DifferentKeys(key, actions) && forall a <- actions :: Undoable(world, a)
    requires forall a <- actions :: view(x, key(a.command)) == view(start, key(a.command))
    ensures Commit(world, x, actions).end == EndAtStart(world, start, actions)
    ensures Commit(world, x, actions).state == x <==> NothingChangesAtStart(world, start, actions)
    decreases |actions|
  {
    hide Keyed;
    if actions != [] {
      var a, r := actions[0], world(actions[0].command, x);
      var k := key(a.command);
      assert a in actions && Undoable(world, a);
      KeyedReads(world, view, key, a.command, x, start);
      if !Raises(r.outcome) {
        KeyedNoEffect(world, view, key, a.command, x);
        KeyedNoEffect(world, view, key, a.command, start);
        forall b | b in actions[1..]
          ensures b in actions && key(b.command) != k && view(r.after, key(b.command)) == view(start, key(b.command))
        {
          KeyedStep(world, view, key, a.command, x, key(b.command));
        }
        SeenFromStart(world, view, key, r.after, start, actions[1..]);
        UntouchedStays(world, view, key, r.after, actions[1..], k);
      }
    }
  }

  lemma {:induction false} UntouchedStays<C(!new), X(!new), K(!new), V(!new)>(
      world: World<C, X>, view: (X, K) -> V, key: C -> K, x: X, actions: seq<Action<C>>, j: K)
    requires Keyed(world, view, key) && forall a <- actions :: key(a.command) != j
    ensures view(Commit(world, x, actions).state, j) == view(x, j)
    decreases |actions|
  {
    hide Keyed;
    if actions != [] {
      var r := world(actions[0].command, x);
      assert actions[0] in actions;
      KeyedStep(world, view, key, actions[0].command, x, j);
      if !Raises(r.outcome) {
        UntouchedStays(world, view, key, r.after, actions[1..], j);
      }
    }
  }

  /** What succeeds and has a rollback changes something. */
  ghost predicate Effective<C, X(!new)>(world: World<C, X>, a: Action<C>) {
    forall x :: world(a.command, x).outcome.Success? && a.rollback.Some? ==> world(a.command, x).after != x
  }

  /** No action with a rollback would return a result before one raises. */
  predicate NoResultAtStart<C, X>(world: World<C, X>, x: X, actions: seq<Action<C>>) {
    actions == [] ||
    var o := world(actions[0].command, x).outcome;
    !Raises(o) ==> !(o.Success? && actions[0].rollback.Some?) && NoResultAtStart(world, x, actions[1..])
  }

  /** For any actions: nothing is remembered exactly when none would return a result,
      and then nothing has been done. */
  lemma {:induction false} NothingRemembered<C, X(!new)>(world: World<C, X>, x: X, actions: seq<Action<C>>)
    requires forall a <- actions :: Undoable(world, a)
    ensures Commit(world, x, actions).undo == [] <==> NoResultAtStart(world, x, actions)
    ensures Commit(world, x, actions).undo == [] ==> Commit(world, x, actions).state == x
    ensures NoResultAtStart(world, x, actions) ==> NothingChangesAtStart(world, x, actions)
    decreases |actions|
  {
    if actions != [] {
      var a, r := actions[0], world(actions[0].command, x);
      assert Undoable(world, a);
      if !Raises(r.outcome) && !(r.outcome.Success? && a.rollback.Some?) {
        NothingRemembered(world, x, actions[1..]);
        assert [] + Commit(world, x, actions[1..]).undo == Commit(world, x, actions[1..]).undo;
      }
    }
  }

  /** When actions that return a result do change something, a group that another
      exception ends is as it was exactly when no action with a rollback had returned one. */
  lemma EscapedIsUndoneExactly<C(!new), X(!new), K(!new), V(!new)>(
      world: World<C, X>, view: (X, K) -> V, key: C -> K, x: X, actions: seq<Action<C>>)
    requires Keyed(world, view, key) && DifferentKeys(key, actions)
    requires forall a <- actions :: Undoable(world, a) && Effective(world, a)
    requires EndAtStart(world, x, actions) == Escaped
    ensures Final(world, x, actions) == x <==> NoResultAtStart(world, x, actions)
    ensures Final(world, x, actions) == x <==> Commit(world, x, actions).undo == []
  {
    hide Keyed, Commit, EndAtStart, Undoable, Effective, Final;
    UnfinishedIsUndoneExactly(world, view, key, x, actions);
    NothingRemembered(world, x, actions);
    EffectiveChanges(world, x, actions);
  }

  lemma {:induction false} EffectiveChanges<C, X(!new)>(world: World<C, X>, x: X, actions: seq<Action<C>>)
    requires forall a <- actions :: Effective(world, a)
    ensures NothingChangesAtStart(world, x, actions) ==> NoResultAtStart(world, x, actions)
    decreases |actions|
  {
    if actions != [] {
      assert Effective(world, actions[0]);
      EffectiveChanges(world, x, actions[1..]);
    }
  }

  /** One campus is added before adding another one ends the group with an exception that
      is no Infoblox error; the first stays. */
  lemma EscapedGroupIsLeftAsItIs()
    ensures var actions := [Action(Add("ta"), Some(Delete("ta"))), Action(Add("tb"), Some(Delete("tb")))];
            && (forall a <- actions :: Undoable(Directory, a) && Effective(Directory, a))
            && Commit(Directory, {"tb"}, actions).end == Escaped && !NoResultAtStart(Directory, {"tb"}, actions)
            && Final(Directory, {"tb"}, actions) == {"ta", "tb"}
  {
    var actions := [Action(Add("ta"), Some(Delete("ta"))), Action(Add("tb"), Some(Delete("tb")))];
    forall n: string, s: set<string>
      ensures n !in s ==> s + {n} - {n} == s && s + {n} != s
    {}
    assert {"tb"} + {"ta"} == {"ta", "tb"};
    assert actions[1..] == [actions[1]];
  }

  class IBServiceGroup<C, X> {
    const world: World<C, X>
    var state: X
    var functions: seq<Action<C>>

    constructor (world: World<C, X>, state: X)
      ensures this.world == world && this.state == state && functions == []
    {
      this.world, this.state, functions := world, state, [];
    }

    method AddAction(command: C, rollback: Option<C>)
      modifies `functions
      ensures functions == old(functions) + [Action(command, rollback)]
    {
      functions := functions + [Action(command, rollback)];
    }

    method CommitOrRollback() returns (end: End)
      modifies `state, `functions
      ensures end == Commit(world, old(state), old(functions)).end
      ensures state == Final(world, old(state), old(functions))
      ensures functions == if end == Done then [] else old(functions)
    {
      hide Commit, RunUntilError;
      var rollbacks: seq<C> := [];
      var i := 0;
      ghost var c := Commit(world, state, functions);
      assert functions[0..] == functions && [] + c.undo == c.undo;
      while i < |functions|
        invariant 0 <= i <= |functions| && functions == old(functions)
        invariant c == Commit(world, state, functions[i..]).(undo := rollbacks + Commit(world, state, functions[i..]).undo)
      {
        var a := functions[i];
        assert functions[i..][1..] == functions[i + 1..];
        CommitRound(world, state, functions[i..], rollbacks);
        var r := world(a.command, state);
        state := r.after;
        if r.outcome.InfobloxError? {
          assert rollbacks + [] == rollbacks;
          UndoAll(Reverse(rollbacks));
          return Failed;
        }
        if !r.outcome.Success? && !r.outcome.NoResult? {
          return Escaped;
        }
        if a.rollback.Some? && r.outcome.Success? {
          rollbacks := rollbacks + [a.rollback.value];
        } else {
          assert rollbacks + [] == rollbacks;
        }
        i := i + 1;
      }
      CommitRound(world, state, functions[i..], rollbacks);
      functions := [];
      return Done;
    }

    method UndoAll(commands: seq<C>)
      modifies `state
      ensures state == RunUntilError(world, old(state), commands)
    {
      var i := 0;
      while i < |commands|
        invariant 0 <= i <= |commands|
        invariant RunUntilError(world, old(state), commands) == RunUntilError(world, state, commands[i..])
      {
        assert commands[i..][1..] == commands[i + 1..];
        var r := world(commands[i], state);
        state := r.after;
        if !r.outcome.Success? && !r.outcome.NoResult? {
          return;
        }
        i := i + 1;
      }
    }
  }
}
