/** Publish in go-agent/orchestrator/event_bus.go step by step: it clones the event before it takes the lock,
    stores the clone and copies the subscriber list under the lock, and hands out clones after it has let
    go.  Any number of publishers, Subscribe and ClearSubscribers may come in between. */
module BusProtocol {
  import opened Wrappers
  import opened EventBus

  datatype Publisher =
    | Cloned(event: Record)                                    // before the lock
    | Unlocked(event: Record, subs: seq<Subscriber>, sent: nat) // after it; `sent` clones handed out

  datatype Sent = Sent(publisher: nat, subscriber: Subscriber)

  datatype State = State(
    subscribers: map<string, seq<Subscriber>>,
    history: seq<Record>,             // what the ring holds the end of
    publishers: map<nat, Publisher>,
    sent: seq<Sent>
  )

  datatype Step =
    | Begin(id: nat, event: Record) | Locked(id: nat) | HandOut(id: nat)
    | SubscribeStep(etype: string, subscriber: Subscriber) | ClearStep

  predicate Enabled(s: State, step: Step) {
    match step
    case Begin(id, event) => id !in s.publishers && event.etype != ""
    case Locked(id) => id in s.publishers && s.publishers[id].Cloned?
    case HandOut(id) =>
      id in s.publishers && s.publishers[id].Unlocked? && s.publishers[id].sent < |s.publishers[id].subs|
    case _ => true
  }

  function Apply(s: State, step: Step): State
    requires Enabled(s, step)
  {
    match step
    case Begin(id, event) => s.(publishers := s.publishers[id := Cloned(event)])
    case Locked(id) =>
      var event := s.publishers[id].event;
      s.(history := s.history + [event],
         publishers := s.publishers[id := Unlocked(event, SubscribersOf(s.subscribers, event.etype), 0)])
    case HandOut(id) =>
      var p := s.publishers[id];
      s.(publishers := s.publishers[id := p.(sent := p.sent + 1)], sent := s.sent + [Sent(id, p.subs[p.sent])])
    case SubscribeStep(t, subscriber) => s.(subscribers := s.subscribers[t := SubscribersOf(s.subscribers, t) + [subscriber]])
    case ClearStep => s.(subscribers := map[])
  }

  predicate IsRun(steps: seq<Step>)
    decreases |steps|, 0
  {
    steps == [] || (IsRun(steps[..|steps| - 1]) && Enabled(Exec(steps[..|steps| - 1]), steps[|steps| - 1]))
  }

  function Exec(steps: seq<Step>): State
    requires IsRun(steps)
    decreases |steps|, 1
  {
    if steps == [] then State(map[], [], map[], [])
    else Apply(Exec(steps[..|steps| - 1]), steps[|steps| - 1])
  }

  // ---------------------------------------------------------------------------------------------
  // What the steps say, without the state.

  // Subscribed to the type since the last clear.
  function Registered(steps: seq<Step>, etype: string): seq<Subscriber> {
    if steps == [] then []
    else
      var before := Registered(steps[..|steps| - 1], etype);
      match steps[|steps| - 1]
      case SubscribeStep(t, subscriber) => if t == etype then before + [subscriber] else before
      case ClearStep => []
      case _ => before
  }

  function EventOf(steps: seq<Step>, id: nat): Option<Record> {
    if steps == [] then None
    else if steps[|steps| - 1].Begin? && steps[|steps| - 1].id == id then Some(steps[|steps| - 1].event)
    else EventOf(steps[..|steps| - 1], id)
  }

  // Handed out on behalf of one publisher, in order.
  function SentBy(sent: seq<Sent>, id: nat): seq<Subscriber> {
    if sent == [] then []
    else
      var before := SentBy(sent[..|sent| - 1], id);
      if sent[|sent| - 1].publisher == id then before + [sent[|sent| - 1].subscriber] else before
  }

  // Events in the order in which their publishers held the lock.
  function Published(steps: seq<Step>): seq<Record> {
    if steps == [] then []
    else
      var before := Published(steps[..|steps| - 1]);
      var last := steps[|steps| - 1];
      if last.Locked? && EventOf(steps[..|steps| - 1], last.id).Some?
      then before + [EventOf(steps[..|steps| - 1], last.id).value] else before
  }

  ghost predicate PublisherInv(s: State, id: nat, event: Option<Record>) {
    && (id in s.publishers <==> event.Some?)
    && (id in s.publishers ==> s.publishers[id].event == event.value)
    && SentBy(s.sent, id) ==
         (if id in s.publishers && s.publishers[id].Unlocked? && s.publishers[id].sent <= |s.publishers[id].subs|
          then s.publishers[id].subs[..s.publishers[id].sent] else [])
    && (id in s.publishers && s.publishers[id].Unlocked? ==> s.publishers[id].sent <= |s.publishers[id].subs|)
  }

  ghost predicate Inv(steps: seq<Step>)
    requires IsRun(steps)
  {
    var s := Exec(steps);
    && s.history == Published(steps)
    && (forall t :: SubscribersOf(s.subscribers, t) == Registered(steps, t))
    && (forall id :: PublisherInv(s, id, EventOf(steps, id)))
  }

  lemma SentBySnoc(sent: seq<Sent>, one: Sent, id: nat)
    ensures SentBy(sent + [one], id) == SentBy(sent, id) + (if one.publisher == id then [one.subscriber] else [])
  {
    assert (sent + [one])[..|sent|] == sent;
  }

  lemma PublisherInvStep(s: State, step: Step, id: nat, event: Option<Record>)
    requires Enabled(s, step) && PublisherInv(s, id, event)
    ensures PublisherInv(Apply(s, step), id, if step.Begin? && step.id == id then Some(step.event) else event)
  {
    if step.HandOut? {
      var p := s.publishers[step.id];
      SentBySnoc(s.sent, Sent(step.id, p.subs[p.sent]), id);
    }
  }

  lemma {:induction false} InvRun(steps: seq<Step>)
    requires IsRun(steps)
    ensures Inv(steps)
  {
    if steps != [] {
      var before, step := steps[..|steps| - 1], steps[|steps| - 1];
      InvRun(before);
      forall id
        ensures PublisherInv(Exec(steps), id, EventOf(steps, id))
      {
        assert PublisherInv(Exec(before), id, EventOf(before, id));
        PublisherInvStep(Exec(before), step, id, EventOf(before, id));
      }
      if step.Locked? {
        assert PublisherInv(Exec(before), step.id, EventOf(before, step.id));
      }
    }
  }

  // After its locked step a publisher keeps the list it copied there.
  lemma {:induction false} ListIsKept(steps: seq<Step>, i: nat, id: nat)
    requires IsRun(steps) && i < |steps| && steps[i] == Locked(id) && IsRun(steps[..i])
    requires id in Exec(steps[..i]).publishers
    ensures id in Exec(steps).publishers && Exec(steps).publishers[id].Unlocked?
    ensures
      var start := Exec(steps[..i]);
      Exec(steps).publishers[id].subs == SubscribersOf(start.subscribers, start.publishers[id].event.etype)
    decreases |steps|
  {
    var before := steps[..|steps| - 1];
    if i == |steps| - 1 {
      assert before == steps[..i];
    } else {
      assert before[..i] == steps[..i];
      ListIsKept(before, i, id);
    }
  }

  lemma {:induction false} RunPrefix(steps: seq<Step>, i: nat)
    requires IsRun(steps) && i <= |steps|
    ensures IsRun(steps[..i])
    decreases |steps|
  {
    if i == |steps| {
      assert steps[..i] == steps;
    } else {
      RunPrefix(steps[..|steps| - 1], i);
      assert steps[..|steps| - 1][..i] == steps[..i];
    }
  }

  /** Under every interleaving a publication goes to exactly the subscribers registered when it held the
      lock, each once and in order of registration: whoever has been sent to is a prefix of that list, and
      all of it once the publisher has nothing left to hand out. */
  lemma SentToThoseRegistered(steps: seq<Step>, i: nat, id: nat)
    requires IsRun(steps) && i < |steps| && steps[i] == Locked(id)
    ensures EventOf(steps[..i], id).Some?
    ensures
      var due, s := Registered(steps[..i], EventOf(steps[..i], id).value.etype), Exec(steps);
      && SentBy(s.sent, id) <= due
      && (!Enabled(s, HandOut(id)) <==> SentBy(s.sent, id) == due)
  {
    RunPrefix(steps, i);
    RunPrefix(steps, i + 1);
    assert steps[..i + 1][..i] == steps[..i];
    InvRun(steps);
    InvRun(steps[..i]);
    ListIsKept(steps, i, id);
    assert PublisherInv(Exec(steps[..i]), id, EventOf(steps[..i], id));
    assert PublisherInv(Exec(steps), id, EventOf(steps, id));
  }

  lemma {:induction false} NothingSince(steps: seq<Step>, c: nat, etype: string)
    requires c < |steps| && steps[c] == ClearStep
    requires forall j :: c < j < |steps| ==> !steps[j].SubscribeStep?
    ensures Registered(steps, etype) == []
  {
    if c < |steps| - 1 {
      NothingSince(steps[..|steps| - 1], c, etype);
    }
  }

  /** After ClearSubscribers, a publication that takes the lock before the next Subscribe goes to nobody, ever. */
  lemma NobodyAfterClear(steps: seq<Step>, c: nat, i: nat, id: nat)
    requires IsRun(steps) && c < i < |steps| && steps[c] == ClearStep && steps[i] == Locked(id)
    requires forall j :: c < j < i ==> !steps[j].SubscribeStep?
    ensures SentBy(Exec(steps).sent, id) == []
  {
    SentToThoseRegistered(steps, i, id);
    NothingSince(steps[..i], c, EventOf(steps[..i], id).value.etype);
  }

  /** One that held the lock before the clear may still be handed out after it. */
  lemma SentAfterClear(event: Record) returns (steps: seq<Step>)
    requires event.etype != ""
    ensures IsRun(steps) && |steps| == 5 && steps[3] == ClearStep && steps[4] == HandOut(0)
    ensures SentBy(Exec(steps).sent, 0) == [7] && SentBy(Exec(steps[..4]).sent, 0) == []
  {
    steps := Extend([], SubscribeStep(event.etype, 7));
    steps := Extend(steps, Begin(0, event));
    steps := Extend(steps, Locked(0));
    steps := Extend(steps, ClearStep);
    ghost var cleared := steps;
    steps := Extend(steps, HandOut(0));
    assert steps[..4] == cleared;
    SentBySnoc([], Sent(0, 7), 0);
    assert [] + [Sent(0, 7)] == [Sent(0, 7)];
  }

  lemma Extend(steps: seq<Step>, step: Step) returns (longer: seq<Step>)
    requires IsRun(steps) && Enabled(Exec(steps), step)
    ensures longer == steps + [step] && IsRun(longer) && Exec(longer) == Apply(Exec(steps), step)
  {
    longer := steps + [step];
    assert longer[..|steps|] == steps;
  }
}
