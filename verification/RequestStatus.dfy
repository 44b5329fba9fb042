/** Status messages of a request: a log that forgets old debug records, and
    subscribers that join at any time. */
module RequestStatuses {
  import opened Options

  type Subscriber = nat

  datatype Record = Record(level: int, text: string)

  datatype Delivery = Process(record: Record) | Finished

  const DEBUG := 10

  const MAX_DEBUG_MESSAGES_PER_REQUEST: nat := 10000

  predicate IsDebug(r: Record) {
    r.level <= DEBUG
  }

  function CountDebug(rs: seq<Record>): nat {
    if rs == [] then 0 else (if IsDebug(rs[0]) then 1 else 0) + CountDebug(rs[1..])
  }

  /** How many debug records follow the one at `i`. */
  function After(log: seq<Record>, i: nat): nat
    requires i < |log|
  {
    CountDebug(log[i + 1..])
  }

  /** What is kept of a log: everything but the debug records that enough other debug
      records have followed. */
  predicate Kept(log: seq<Record>, i: nat)
    requires i < |log|
  {
    IsDebug(log[i]) ==> After(log, i) < MAX_DEBUG_MESSAGES_PER_REQUEST
  }

  function Slots(log: seq<Record>): (slots: seq<Option<Record>>)
    ensures |slots| == |log|
  {
    seq(|log|, i requires 0 <= i < |log| => if Kept(log, i) then Some(log[i]) else None)
  }

  function Present(slots: seq<Option<Record>>): seq<Delivery> {
    if slots == [] then []
    else (if slots[0].Some? then [Process(slots[0].value)] else []) + Present(slots[1..])
  }

  lemma {:induction false} CountDebugAppend(a: seq<Record>, b: seq<Record>)
    ensures CountDebug(a + b) == CountDebug(a) + CountDebug(b)
  {
    if a == [] {
      assert a + b == b;
    } else {
      assert (a + b)[1..] == a[1..] + b;
      CountDebugAppend(a[1..], b);
    }
  }

  lemma {:induction false} PresentAppend(a: seq<Option<Record>>, b: seq<Option<Record>>)
    ensures Present(a + b) == Present(a) + Present(b)
  {
    if a == [] {
      assert a + b == b;
    } else {
      assert (a + b)[1..] == a[1..] + b;
      PresentAppend(a[1..], b);
    }
  }

  lemma CountAfter(log: seq<Record>, r: Record, i: nat)
    requires i < |log|
    ensures After(log + [r], i) == After(log, i) + (if IsDebug(r) then 1 else 0)
  {
    assert (log + [r])[i + 1..] == log[i + 1..] + [r];
    CountDebugAppend(log[i + 1..], [r]);
    assert [r][1..] == [];
  }

  /** Debug records are told apart by how many follow them. */
  lemma CountAfterStrict(log: seq<Record>, i: nat, j: nat)
    requires i < j < |log| && IsDebug(log[j])
    ensures After(log, i) > After(log, j)
  {
    assert log[i + 1..] == log[i + 1..j] + ([log[j]] + log[j + 1..]);
    CountDebugAppend(log[i + 1..j], [log[j]] + log[j + 1..]);
    CountDebugAppend([log[j]], log[j + 1..]);
    assert [log[j]][1..] == [];
  }

  // The whole of a request as a value.

  datatype Status = Status(log: seq<Record>, finished: bool, attached: set<Subscriber>, inbox: map<Subscriber, seq<Delivery>>)

  datatype Event = Publish(record: Record) | Attach(subscriber: Subscriber) | Finish

  function Inbox(s: Status, sub: Subscriber): seq<Delivery> {
    if sub in s.inbox then s.inbox[sub] else []
  }

  /** Everybody in `subs` receives `ds`. */
  function Deliver(inbox: map<Subscriber, seq<Delivery>>, subs: set<Subscriber>, ds: seq<Delivery>)
    : map<Subscriber, seq<Delivery>>
  {
    if ds == [] then inbox else
      map x | x in inbox.Keys + subs ::
        if x !in subs then inbox[x] else if x in inbox then inbox[x] + ds else ds
  }

  lemma InboxAfter(s: Status, subs: set<Subscriber>, ds: seq<Delivery>, x: Subscriber)
    ensures Inbox(s.(inbox := Deliver(s.inbox, subs, ds)), x) == Inbox(s, x) + (if x in subs then ds else [])
  {
    assert Inbox(s, x) + [] == Inbox(s, x);
  }

  /** What one event adds to the inbox of `x`. */
  function Added(s: Status, e: Event, x: Subscriber): seq<Delivery> {
    match e
    case Publish(r) => if x in s.attached then [Process(r)] else []
    case Attach(y) => if x == y then Present(Slots(s.log)) + (if s.finished then [Finished] else []) else []
    case Finish => if x in s.attached then [Finished] else []
  }

  lemma InboxStep(s: Status, e: Event, x: Subscriber)
    ensures Inbox(Apply(s, e), x) == Inbox(s, x) + Added(s, e, x)
  {
    hide Slots, Present, Deliver;
    var retained := Present(Slots(s.log));
    InboxAfter(s, s.attached, Added(s, e, x), x);
    match e
    case Publish(r) => InboxAfter(s, s.attached, [Process(r)], x);
    case Attach(y) =>
      InboxAfter(s, {y}, if s.finished then retained + [Finished] else retained, x);
      assert retained + [] == retained;
    case Finish => InboxAfter(s, s.attached, [Finished], x);
  }

  function Apply(s: Status, e: Event): Status {
    match e
    case Publish(r) => s.(log := s.log + [r], inbox := Deliver(s.inbox, s.attached, [Process(r)]))
    case Attach(x) =>
      var retained := Present(Slots(s.log));
      if s.finished then s.(inbox := Deliver(s.inbox, {x}, retained + [Finished]))
      else s.(attached := s.attached + {x}, inbox := Deliver(s.inbox, {x}, retained))
    case Finish => s.(finished := true, attached := {}, inbox := Deliver(s.inbox, s.attached, [Finished]))
  }

  function Run(s: Status, es: seq<Event>): Status
    decreases |es|
  {
    if es == [] then s else Run(Apply(s, es[0]), es[1..])
  }

  const START := Status([], false, {}, map[])

  /** The records published up to the first `Finish`. */
  function UntilFinish(es: seq<Event>): seq<Delivery> {
    if es == [] || es[0].Finish? then []
    else (if es[0].Publish? then [Process(es[0].record)] else []) + UntilFinish(es[1..])
  }

  lemma {:induction false} RunAppend(s: Status, a: seq<Event>, b: seq<Event>)
    ensures Run(s, a + b) == Run(Run(s, a), b)
    decreases |a|
  {
    if a == [] {
      assert a + b == b;
    } else {
      assert (a + b)[1..] == a[1..] + b;
      RunAppend(Apply(s, a[0]), a[1..], b);
    }
  }

  lemma {:induction false} NothingBeforeAttaching(s: Status, es: seq<Event>, x: Subscriber)
    requires Attach(x) !in es && x !in s.attached && (s.finished ==> s.attached == {})
    ensures var s' := Run(s, es); Inbox(s', x) == Inbox(s, x) && x !in s'.attached
    ensures var s' := Run(s, es); (s'.finished <==> s.finished || Event.Finish in es) && (s'.finished ==> s'.attached == {})
    decreases |es|
  {
    hide Deliver, Inbox;
    if es != [] {
      InboxStep(s, es[0], x);
      NothingBeforeAttaching(Apply(s, es[0]), es[1..], x);
    }
  }

  lemma {:induction false} WhileAttached(s: Status, es: seq<Event>, x: Subscriber)
    requires Attach(x) !in es && x in s.attached && !s.finished
    ensures Inbox(Run(s, es), x) == Inbox(s, x) + UntilFinish(es) + (if Event.Finish in es then [Finished] else [])
    decreases |es|
  {
    hide Deliver, Inbox;
    if es != [] {
      var s' := Apply(s, es[0]);
      InboxStep(s, es[0], x);
      if es[0].Finish? {
        NothingBeforeAttaching(s', es[1..], x);
      } else {
        WhileAttached(s', es[1..], x);
      }
    }
  }

  /** A subscriber that is added once receives what was retained when it joined, then
      every record published until the request finished, in order and once each, and
      then exactly one `finish`; late subscribers get what is retained and `finish`. */
  lemma SubscriberSeesEverythingOnce(before: seq<Event>, x: Subscriber, after: seq<Event>)
    requires Attach(x) !in before && Attach(x) !in after
    ensures var joined := Run(START, before);
            Inbox(Run(START, before + [Attach(x)] + after), x) ==
            if Event.Finish in before then Present(Slots(joined.log)) + [Finished]
            else Present(Slots(joined.log)) + UntilFinish(after) + (if Event.Finish in after then [Finished] else [])
  {
    hide Deliver, Inbox, Slots, Present, UntilFinish, Run, Apply;
    JoiningInbox(before, x);
    var first := before + [Attach(x)];
    var retained := Present(Slots(Run(START, before).log));
    RunAppend(START, first, after);
    AfterJoining(Run(START, first), after, x, retained);
    assert retained + [] == retained;
  }

  lemma AfterJoining(here: Status, after: seq<Event>, x: Subscriber, got: seq<Delivery>)
    requires Attach(x) !in after && (if here.finished then here.attached == {} else x in here.attached)
    requires Inbox(here, x) == got + (if here.finished then [Finished] else [])
    ensures Inbox(Run(here, after), x) ==
            if here.finished then got + [Finished]
            else got + UntilFinish(after) + (if Event.Finish in after then [Finished] else [])
  {
    hide Inbox, UntilFinish, Run;
    if here.finished {
      NothingBeforeAttaching(here, after, x);
    } else {
      assert got + [] == got;
      WhileAttached(here, after, x);
    }
  }

  lemma JoiningInbox(before: seq<Event>, x: Subscriber)
    requires Attach(x) !in before
    ensures var joined := Run(START, before); var here := Run(START, before + [Attach(x)]);
            && Inbox(here, x) == Present(Slots(joined.log)) + (if Event.Finish in before then [Finished] else [])
            && here.finished == joined.finished == (Event.Finish in before)
            && (here.finished ==> here.attached == {}) && (!here.finished ==> x in here.attached)
  {
    var joined := Run(START, before);
    RunAppend(START, before, [Attach(x)]);
    assert Run(joined, [Attach(x)]) == Apply(joined, Attach(x)) by { assert [Attach(x)][1..] == []; }
    NothingBeforeAttaching(START, before, x);
    InboxStep(joined, Attach(x), x);
    assert Inbox(START, x) == [];
  }

  /** The records of level 10 or less that follow the one at `i`. */
  function LowAfter(log: seq<Record>, i: nat): set<nat> {
    set j: nat | i < j < |log| && log[j].level <= 10
  }

  lemma {:induction false} CountIsNumber(log: seq<Record>, i: nat)
    requires i < |log|
    ensures After(log, i) == |LowAfter(log, i)|
    decreases |log| - i
  {
    if i == |log| - 1 {
      assert LowAfter(log, i) == {};
    } else {
      CountIsNumber(log, i + 1);
      assert log[i + 1..][0] == log[i + 1] && log[i + 1..][1..] == log[i + 2..];
      assert LowAfter(log, i) == LowAfter(log, i + 1) + if log[i + 1].level <= 10 then {i + 1} else {};
    }
  }

  /** What is kept, told from levels: a record of level 10 or less exactly while fewer
      than 10000 such records have followed, and every other record. */
  lemma KeptByLevel(log: seq<Record>, i: nat)
    requires i < |log|
    ensures Slots(log)[i] == if log[i].level > 10 || |LowAfter(log, i)| < 10000 then Some(log[i]) else None
  {
    CountIsNumber(log, i);
  }

  /** The records are those of the log, but for those of level 10 or less that 10000 or more
      others of such a level have followed. */
  ghost predicate KeepsByLevel(records: seq<Option<Record>>, log: seq<Record>) {
    |records| == |log| &&
    forall i :: 0 <= i < |log| ==>
                  records[i] == if log[i].level > 10 || |LowAfter(log, i)| < 10000 then Some(log[i]) else None
  }

  /** Of a log, all records that are not debug are kept, and of the debug records as
      many as the limit allows, always the last ones. */
  lemma RetentionIsExact(log: seq<Record>)
    ensures forall i :: 0 <= i < |log| && log[i].level > 10 ==> Slots(log)[i] == Some(log[i])
    ensures forall i, j :: 0 <= i < j < |log| && log[i].level <= 10 && log[j].level <= 10 && Slots(log)[i].Some? ==>
                             Slots(log)[j].Some?
    ensures KeptDebug(log, 0) ==
            if CountDebug(log) < MAX_DEBUG_MESSAGES_PER_REQUEST then CountDebug(log) else MAX_DEBUG_MESSAGES_PER_REQUEST
  {
    forall i, j | 0 <= i < j < |log| && IsDebug(log[i]) && IsDebug(log[j]) && Slots(log)[i].Some?
      ensures Slots(log)[j].Some?
    {
      CountAfterStrict(log, i, j);
    }
    KeptDebugCount(log, 0);
    assert log[0..] == log;
  }

  /** How many debug records are kept from position `i` on. */
  function KeptDebug(log: seq<Record>, i: nat): nat
    requires i <= |log|
    decreases |log| - i
  {
    if i == |log| then 0 else (if IsDebug(log[i]) && Kept(log, i) then 1 else 0) + KeptDebug(log, i + 1)
  }

  lemma {:induction false} KeptDebugCount(log: seq<Record>, i: nat)
    requires i <= |log|
    ensures KeptDebug(log, i) ==
            if CountDebug(log[i..]) < MAX_DEBUG_MESSAGES_PER_REQUEST then CountDebug(log[i..])
            else MAX_DEBUG_MESSAGES_PER_REQUEST
    decreases |log| - i
  {
    if i < |log| {
      KeptDebugCount(log, i + 1);
      assert log[i..][1..] == log[i + 1..];
    }
  }

  /** The positions of the kept debug records, oldest first. */
  ghost predicate IsFifo(log: seq<Record>, fifo: seq<nat>) {
    && |fifo| <= MAX_DEBUG_MESSAGES_PER_REQUEST
    && (forall j :: 0 <= j < |fifo| ==>
          fifo[j] < |log| && IsDebug(log[fifo[j]]) && After(log, fifo[j]) == |fifo| - 1 - j)
    && (forall i :: 0 <= i < |log| && IsDebug(log[i]) && Kept(log, i) ==> After(log, i) < |fifo|)
  }

  /** What one more record changes for the records before it. */
  lemma AfterOneMore(log: seq<Record>, r: Record)
    ensures After(log + [r], |log|) == 0
    ensures forall i :: 0 <= i < |log| ==> (log + [r])[i] == log[i]
    ensures forall i :: 0 <= i < |log| ==>
              After(log + [r], i) == After(log, i) + (if IsDebug(r) then 1 else 0)
  {
    forall i | 0 <= i < |log|
      ensures (log + [r])[i] == log[i]
      ensures After(log + [r], i) == After(log, i) + (if IsDebug(r) then 1 else 0)
    {
      CountAfter(log, r, i);
    }
  }

  lemma OldestIsFirst(log: seq<Record>, fifo: seq<nat>)
    requires IsFifo(log, fifo) && fifo != []
    ensures fifo[0] < |log| && IsDebug(log[fifo[0]])
    ensures forall i :: 0 <= i < |log| && IsDebug(log[i]) && After(log, i) == |fifo| - 1 ==> i == fifo[0]
  {
    forall i | 0 <= i < |log| && IsDebug(log[i]) && After(log, i) == |fifo| - 1
      ensures i == fifo[0]
    {
      if i < fifo[0] { CountAfterStrict(log, i, fifo[0]); }
      if fifo[0] < i { CountAfterStrict(log, fifo[0], i); }
    }
  }

  lemma SlotsAppend(log: seq<Record>, fifo: seq<nat>, r: Record)
    requires IsFifo(log, fifo)
    ensures !IsDebug(r) || |fifo| < MAX_DEBUG_MESSAGES_PER_REQUEST ==> Slots(log + [r]) == Slots(log) + [Some(r)]
    ensures IsDebug(r) && |fifo| == MAX_DEBUG_MESSAGES_PER_REQUEST ==>
              fifo[0] < |log| && Slots(log + [r]) == (Slots(log) + [Some(r)])[fifo[0] := None]
  {
    AfterOneMore(log, r);
    if IsDebug(r) && |fifo| == MAX_DEBUG_MESSAGES_PER_REQUEST {
      OldestIsFirst(log, fifo);
    }
    hide After;
    forall i | 0 <= i < |log|
      ensures Slots(log + [r])[i] == if IsDebug(r) && |fifo| == MAX_DEBUG_MESSAGES_PER_REQUEST && i == fifo[0] then None
                                     else Slots(log)[i]
    {}
  }

  lemma FifoUnchanged(log: seq<Record>, fifo: seq<nat>, r: Record)
    requires IsFifo(log, fifo) && !IsDebug(r)
    ensures IsFifo(log + [r], fifo)
  {
    AfterOneMore(log, r);
    hide After;
  }

  lemma FifoLonger(log: seq<Record>, fifo: seq<nat>, r: Record)
    requires IsFifo(log, fifo) && IsDebug(r) && |fifo| < MAX_DEBUG_MESSAGES_PER_REQUEST
    ensures IsFifo(log + [r], fifo + [|log|])
  {
    AfterOneMore(log, r);
    hide After;
  }

  lemma FifoShifted(log: seq<Record>, fifo: seq<nat>, r: Record)
    requires IsFifo(log, fifo) && IsDebug(r) && |fifo| == MAX_DEBUG_MESSAGES_PER_REQUEST
    ensures IsFifo(log + [r], fifo[1..] + [|log|])
  {
    AfterOneMore(log, r);
    hide After;
    var fifo' := fifo[1..] + [|log|];
    assert |fifo'| == |fifo| && forall j :: 0 <= j < |fifo'| - 1 ==> fifo'[j] == fifo[j + 1];
  }

  class RequestStatus {
    var records: seq<Option<Record>>
    var debugFifo: seq<nat>
    var isFinished: bool
    var subscribers: map<Subscriber, nat>
    var inbox: map<Subscriber, seq<Delivery>>  // what process() and finish() have been called with
    ghost var log: seq<Record>

    ghost function View(): Status
      reads this
    {
      Status(log, isFinished, subscribers.Keys, inbox)
    }

    ghost predicate Valid()
      reads this
    {
      && records == Slots(log)
      && IsFifo(log, debugFifo)
      && forall x <- subscribers :: subscribers[x] == |records|
    }

    constructor ()
      ensures Valid() && View() == START
    {
      records, debugFifo, isFinished, subscribers, inbox, log := [], [], false, map[], map[], [];
    }

    method Call(x: Subscriber, d: Delivery)
      modifies `inbox
      ensures inbox == Deliver(old(inbox), {x}, [d])
    {
      assert [] + [d] == [d];
      inbox := inbox[x := (if x in inbox then inbox[x] else []) + [d]];
    }

    /** Hand a subscriber the records it has not seen, leaving out those that are gone. */
    method NotifySubscriber(x: Subscriber, processed: nat)
      requires processed <= |records|
      modifies `inbox, `subscribers
      ensures inbox == Deliver(old(inbox), {x}, Present(records[processed..]))
      ensures subscribers == if x in old(subscribers) then old(subscribers)[x := |records|] else old(subscribers)
    {
      hide Deliver, Present;
      PresentFew(None);
      DeliverNobody(inbox, []);
      var known := |records|;
      ghost var sent: seq<Delivery> := [];
      assert records[processed..processed] == [];
      for i := processed to known
        invariant records == old(records) && subscribers == old(subscribers)
        invariant sent == Present(records[processed..i])
        invariant inbox == Deliver(old(inbox), {x}, sent)
      {
        var record := records[i];
        assert records[processed..i + 1] == records[processed..i] + [record];
        PresentAppend(records[processed..i], [record]);
        PresentFew(record);
        if record.Some? {
          Call(x, Process(record.value));
          DeliverTwice(old(inbox), x, sent, [Process(record.value)]);
          sent := sent + [Process(record.value)];
        }
      }
      assert records[processed..known] == records[processed..];
      if x in subscribers {
        subscribers := subscribers[x := known];
      }
    }

    method Publish(record: Record)
      requires Valid()
      modifies this
      ensures Valid() && View() == Apply(old(View()), Event.Publish(record))
      ensures log == old(log) + [record] && KeepsByLevel(records, log)
    {
      hide KeepsByLevel, Slots, IsFifo, After, Deliver;
      ghost var before := log;
      SlotsAppend(log, debugFifo, record);
      records := records + [Some(record)];
      if IsDebug(record) {
        if |debugFifo| == MAX_DEBUG_MESSAGES_PER_REQUEST {
          FifoShifted(log, debugFifo, record);
        } else {
          FifoLonger(log, debugFifo, record) by { FifoBound(log, debugFifo); }
        }
        ghost var was := debugFifo;
        debugFifo := debugFifo + [|records| - 1];
        if |debugFifo| > MAX_DEBUG_MESSAGES_PER_REQUEST {
          FifoBound(log, was);
          assert debugFifo[1..] == was[1..] + [|records| - 1];
          var removeIndex := debugFifo[0];
          debugFifo := debugFifo[1..];
          records := records[removeIndex := None];
        }
      } else {
        FifoUnchanged(log, debugFifo, record);
      }
      log := log + [record];
      LastSlot(log, record);
      NotifyAll(record);
      KeptInAll(log);
    }

    /** Every subscriber has seen all records but the last one, and is handed that. */
    method NotifyAll(ghost record: Record)
      requires records != [] && Present(records[|records| - 1..]) == [Process(record)]
      requires forall x <- subscribers :: subscribers[x] == |records| - 1
      modifies `inbox, `subscribers
      ensures subscribers.Keys == old(subscribers).Keys
      ensures forall x <- subscribers :: subscribers[x] == |records|
      ensures inbox == Deliver(old(inbox), subscribers.Keys, [Process(record)])
    {
      hide Deliver, Present;
      var todo := subscribers.Keys;
      ghost var done: set<Subscriber> := {};
      DeliverNobody(old(inbox), [Process(record)]);
      while todo != {}
        invariant subscribers.Keys == old(subscribers).Keys == todo + done && todo !! done
        invariant forall x <- subscribers :: subscribers[x] == if x in done then |records| else |records| - 1
        invariant inbox == Deliver(old(inbox), done, [Process(record)])
      {
        var x :| x in todo;
        DeliverMore(old(inbox), done, x, [Process(record)]);
        NotifySubscriber(x, subscribers[x]);
        todo := todo - {x};
        done := done + {x};
      }
      assert done == old(subscribers).Keys;
    }

    method AddSubscriber(x: Subscriber)
      requires Valid()
      modifies this
      ensures Valid() && View() == Apply(old(View()), Attach(x))
    {
      assert records[0..] == records;
      if !isFinished {
        subscribers := subscribers[x := 0];
        NotifySubscriber(x, 0);
        return;
      }
      NotifySubscriber(x, 0);
      DeliverTwice(old(inbox), x, Present(records), [Finished]);
      Call(x, Finished);
    }

    method FinishRequest()
      requires Valid()
      modifies this
      ensures Valid() && View() == Apply(old(View()), Event.Finish)
    {
      hide Slots, IsFifo, Deliver, Present, After;
      isFinished := true;
      ghost var done: set<Subscriber> := {};
      DeliverNobody(old(inbox), [Finished]);
      while subscribers.Keys != {}
        invariant records == old(records) && debugFifo == old(debugFifo) && log == old(log) && isFinished
        invariant subscribers.Keys + done == old(subscribers).Keys && subscribers.Keys !! done
        invariant forall x <- subscribers :: subscribers[x] == |records|
        invariant inbox == Deliver(old(inbox), done, [Finished])
        decreases subscribers.Keys
      {
        var x :| x in subscribers.Keys;
        var processed := subscribers[x];
        subscribers := subscribers - {x};
        DeliverMore(old(inbox), done, x, [Finished]);
        assert subscribers.Keys + (done + {x}) == old(subscribers).Keys;
        if processed < |records| {
          assert false;  // nobody is ever behind when the request finishes
        }
        Call(x, Finished);
        done := done + {x};
      }
      assert done == old(subscribers).Keys;
    }
  }

  lemma KeptInAll(log: seq<Record>)
    ensures KeepsByLevel(Slots(log), log)
  {
    forall i: nat | i < |log|
      ensures Slots(log)[i] == if log[i].level > 10 || |LowAfter(log, i)| < 10000 then Some(log[i]) else None
    {
      KeptByLevel(log, i);
    }
  }

  lemma PresentFew(slot: Option<Record>)
    ensures Present([]) == [] && Present([slot]) == if slot.Some? then [Process(slot.value)] else []
  {
    assert [slot][1..] == [];
  }

  lemma FifoBound(log: seq<Record>, fifo: seq<nat>)
    requires IsFifo(log, fifo)
    ensures |fifo| <= MAX_DEBUG_MESSAGES_PER_REQUEST
  {}

  lemma LastSlot(log: seq<Record>, record: Record)
    requires log != [] && log[|log| - 1] == record
    ensures Present(Slots(log)[|log| - 1..]) == [Process(record)]
  {
    assert log[|log|..] == [];
    assert Slots(log)[|log| - 1..] == [Some(record)];
    assert [Some(record)][1..] == [];
  }

  lemma DeliverNobody(inbox: map<Subscriber, seq<Delivery>>, ds: seq<Delivery>)
    ensures Deliver(inbox, {}, ds) == inbox
    ensures forall subs :: Deliver(inbox, subs, []) == inbox
  {
    assert ds != [] ==> Deliver(inbox, {}, ds) == inbox;
  }

  lemma DeliverTwice(inbox: map<Subscriber, seq<Delivery>>, x: Subscriber, a: seq<Delivery>, b: seq<Delivery>)
    ensures Deliver(Deliver(inbox, {x}, a), {x}, b) == Deliver(inbox, {x}, a + b)
  {
    if a == [] || b == [] {
      assert [] + b == b && a + [] == a;
    } else {
      assert x in inbox ==> inbox[x] + a + b == inbox[x] + (a + b);
    }
  }

  lemma DeliverMore(inbox: map<Subscriber, seq<Delivery>>, done: set<Subscriber>, x: Subscriber, ds: seq<Delivery>)
    requires x !in done
    ensures Deliver(Deliver(inbox, done, ds), {x}, ds) == Deliver(inbox, done + {x}, ds)
  {}
}
