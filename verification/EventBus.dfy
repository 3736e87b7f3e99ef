/** The event bus of go-agent/orchestrator/event_bus.go: events and their data maps are heap objects,
    cloned into a 256-slot ring and once more for every subscriber. */
module EventBus {
  import opened Wrappers
  import IntMath

  // Something an interface{} value may point to.
  class Cell {
    var content: int

    constructor (content: int)
      ensures this.content == content
    {
      this.content := content;
    }
  }

  datatype Val = Scalar(n: int) | Ref(cell: Cell)

  class DataMap {
    var m: map<string, Val>

    constructor (m: map<string, Val>)
      ensures this.m == m
    {
      this.m := m;
    }
  }

  class Event {
    var etype: string
    var source: string
    var timestamp: int      // 0 is Go's zero time
    var priority: int
    var correlation: string
    var data: DataMap?

    constructor (etype: string, source: string, timestamp: int, priority: int, correlation: string)
      ensures this.etype == etype && this.source == source && this.timestamp == timestamp
      ensures this.priority == priority && this.correlation == correlation && data == null
    {
      this.etype, this.source, this.timestamp := etype, source, timestamp;
      this.priority, this.correlation, data := priority, correlation, null;
    }
  }

  // The contents of an event at one moment.
  datatype Record = Record(etype: string, source: string, timestamp: int, priority: int, correlation: string,
                           data: Option<map<string, Val>>)

  function Contents(e: Event): Record
    reads e, e.data
  {
    Record(e.etype, e.source, e.timestamp, e.priority, e.correlation,
           if e.data == null then None else Some(e.data.m))
  }

  ghost function Objects(e: Event): set<object>
    reads e
  {
    {e} + (if e.data == null then {} else {e.data})
  }

  // Fills a new map entry by entry.
  method CopyData(data: DataMap) returns (copy: DataMap)
    ensures fresh(copy) && copy.m == data.m
  {
    copy := new DataMap(map[]);
    var keys := data.m.Keys;
    while keys != {}
      invariant keys <= data.m.Keys
      invariant fresh(copy) && copy.m == map k | k in data.m && k !in keys :: data.m[k]
      decreases |keys|
    {
      var k :| k in keys;
      copy.m := copy.m[k := data.m[k]];
      keys := keys - {k};
    }
  }

  /** Clone: a new event over a new data map, with equal contents. */
  method Clone(e: Event?) returns (c: Event?)
    ensures e == null <==> c == null
    ensures c != null ==> fresh(Objects(c)) && Contents(c) == Contents(e)
    ensures c != null ==>
      && c.etype == e.etype && c.source == e.source && c.timestamp == e.timestamp
      && c.priority == e.priority && c.correlation == e.correlation
      && (c.data == null <==> e.data == null) && (c.data != null ==> c.data.m == e.data.m)
  {
    if e == null {
      return null;
    }
    c := new Event(e.etype, e.source, e.timestamp, e.priority, e.correlation);
    if e.data != null {
      var copy := CopyData(e.data);
      c.data := copy;
    }
  }

  function CellsOf(m: map<string, Val>): set<Cell> { set k | k in m && m[k].Ref? :: m[k].cell }

  // What the entries stand for, references followed.
  function Meaning(m: map<string, Val>): map<string, int>
    reads CellsOf(m)
  {
    map k | k in m :: match m[k] case Scalar(n) => n case Ref(cell) => cell.content
  }

  /** The copy is one level deep.  A later write to a cell leaves what the clone stands for as it was if and
      only if it writes what was there or no entry refers to that cell. */
  method NestedValuesAreShared(e: Event, cell: Cell, n: int) returns (c: Event)
    requires e.data != null
    modifies cell
    ensures fresh(c) && c.data != null && fresh(c.data) && c.data.m == e.data.m
    ensures Meaning(c.data.m) == old(Meaning(e.data.m)) <==>
            n == old(cell.content) || forall k :: k in e.data.m ==> e.data.m[k] != Ref(cell)
  {
    var copy := Clone(e);
    c := copy;
    cell.content := n;
    WritesThatShow(c.data.m);
  }

  /** The same for anything that happens to the heap: it shows in a stored map exactly if it changes the
      content of a cell the map refers to. */
  twostate lemma WritesThatShow(m: map<string, Val>)
    ensures Meaning(m) == old(Meaning(m)) <==>
            forall k :: k in m && m[k].Ref? ==> m[k].cell.content == old(m[k].cell.content)
  {
    if k :| k in m && m[k].Ref? && m[k].cell.content != old(m[k].cell.content) {
      assert Meaning(m)[k] != old(Meaning(m))[k];
    }
  }

  /** So a map of plain values is fully isolated. */
  twostate lemma PlainMapsAreIsolated(m: map<string, Val>)
    requires forall k :: k in m ==> m[k].Scalar?
    ensures Meaning(m) == old(Meaning(m))
  {
    WritesThatShow(m);
  }

  const SLOTS: nat := 256

  type Subscriber = nat

  datatype Delivery = Delivery(subscriber: Subscriber, event: Event)

  function SubscribersOf(subscribers: map<string, seq<Subscriber>>, etype: string): seq<Subscriber> {
    if etype in subscribers then subscribers[etype] else []
  }

  class EventBus {
    var subscribers: map<string, seq<Subscriber>>
    const ringBuffer: array<Event?>
    var head: int
    var count: int
    ghost var history: seq<Record>    // contents of every event published
    ghost var owned: set<object>      // the stored clones and their maps

    // Publication j, still in the ring, is held by slot j modulo 256.
    ghost predicate Holds(j: int)
      requires 0 <= j < |history| && ringBuffer.Length == SLOTS
      reads `history, `owned, ringBuffer, owned
    {
      var e := ringBuffer[j % SLOTS];
      e != null && e in owned && (e.data != null ==> e.data in owned) && Contents(e) == history[j]
    }

    ghost predicate Valid()
      reads `history, `owned, `head, `count, ringBuffer, owned
    {
      && ringBuffer.Length == SLOTS
      && head == |history| % SLOTS
      && count == IntMath.Min(|history|, SLOTS)
      && this !in owned && ringBuffer !in owned
      && forall j :: |history| - count <= j < |history| ==> Holds(j)
    }

    constructor ()
      ensures Valid() && history == [] && subscribers == map[] && owned == {} && fresh(ringBuffer)
    {
      ringBuffer := new Event?[SLOTS](_ => null);
      subscribers, head, count, history, owned := map[], 0, 0, [], {};
    }

    method Subscribe(etype: string, subscriber: Subscriber)
      requires Valid()
      modifies `subscribers
      ensures Valid()
      ensures SubscribersOf(subscribers, etype) == SubscribersOf(old(subscribers), etype) + [subscriber]
      ensures forall t :: t != etype ==> SubscribersOf(subscribers, t) == SubscribersOf(old(subscribers), t)
    {
      subscribers := subscribers[etype := SubscribersOf(subscribers, etype) + [subscriber]];
    }

    method ClearSubscribers()
      requires Valid()
      modifies `subscribers
      ensures Valid() && forall t :: SubscribersOf(subscribers, t) == []
    {
      subscribers := map[];
    }

    /** The locked part of Publish: the clone takes the slot of the oldest publication. */
    method Store(clone: Event)
      requires Valid()
      requires this !in Objects(clone) && ringBuffer !in Objects(clone)
      requires Objects(clone) !! owned
      modifies this, ringBuffer
      ensures Valid() && history == old(history) + [Contents(clone)] && owned == old(owned) + Objects(clone)
      ensures subscribers == old(subscribers)
    {
      ghost var n := |history|;
      ringBuffer[head] := clone;
      head := (head + 1) % SLOTS;
      if count < SLOTS {
        count := count + 1;
      }
      history := history + [Contents(clone)];
      owned := owned + Objects(clone);
      forall j | |history| - count <= j < |history|
        ensures Holds(j)
      {
        if j < n {
          OtherSlot(j, n);
          assert old(Holds(j));
        }
      }
    }

    /** Stores one clone and hands a clone of its own to each subscriber registered at that moment, in
        registration order; an event without a type is ignored.  The only effect on the publisher's
        event is the timestamp it lacked. */
    method Publish(event: Event?, now: int) returns (deliveries: seq<Delivery>)
      requires Valid()
      requires event != null ==> Objects(event) !! owned && this !in Objects(event) && ringBuffer !in Objects(event)
      modifies this, ringBuffer, event
      ensures Valid() && subscribers == old(subscribers) && fresh(owned - old(owned))
      ensures event == null || old(event.etype) == "" ==>
                deliveries == [] && unchanged(this) && (event != null ==> unchanged(event))
      ensures event != null && old(event.etype) != "" ==>
        && Contents(event) == old(Contents(event)).(timestamp := if old(event.timestamp) == 0 then now else old(event.timestamp))
        && event.data == old(event.data)
        && history == old(history) + [Contents(event)]
        && Delivered(deliveries, SubscribersOf(subscribers, event.etype), Contents(event))
      ensures forall i :: 0 <= i < |deliveries| ==> fresh(Objects(deliveries[i].event)) && Objects(deliveries[i].event) !! owned
      ensures Separate(deliveries)
    {
      if event == null || event.etype == "" {
        return [];
      }
      if event.timestamp == 0 {
        event.timestamp := now;
      }
      var clone := Clone(event);
      Store(clone);
      var subsCopy := SubscribersOf(subscribers, event.etype);
      deliveries := Dispatch(clone, subsCopy);
    }

    /** The last min(limit, 256, published) events, oldest first, as new objects the bus does not keep. */
    method GetRecentEvents(limit: int) returns (events: seq<Event>)
      requires Valid()
      ensures limit <= 0 ==> events == []
      ensures limit > 0 ==> |events| == if limit <= |history| && limit <= 256 then limit else if |history| <= 256 then |history| else 256
      ensures forall i :: 0 <= i < |events| ==>
        && Contents(events[i]) == history[|history| - |events| + i]
        && fresh(Objects(events[i]))
    {
      if limit <= 0 || count == 0 {
        return [];
      }
      var k := if limit > count then count else limit;
      var start := (head - k + SLOTS) % SLOTS;
      events := [];
      for i := 0 to k
        invariant |events| == i
        invariant forall j :: 0 <= j < i ==>
          Contents(events[j]) == history[|history| - k + j] && fresh(Objects(events[j]))
      {
        var idx := (start + i) % SLOTS;
        SlotOf(|history|, k, i);
        assert Holds(|history| - k + i);
        var clone := Clone(ringBuffer[idx]);
        events := events + [clone];
      }
    }
  }

  // The slot computed from the head is that of the publication counted from the end.
  lemma SlotOf(n: int, k: int, i: int)
    requires 0 <= i < k <= SLOTS && k <= n
    ensures ((n % SLOTS - k + SLOTS) % SLOTS + i) % SLOTS == (n - k + i) % SLOTS
  {
    var r := n % 256;
    var start := if k <= r then r - k else r - k + 256;
    assert (r - k + 256) % 256 == start;
    assert n - k + i == start + i + 256 * ((n - k) / 256);
  }

  /** Nobody outside can reach what the bus stored: after a publication, the publisher and a subscriber
      may overwrite their own maps, and neither the recorded history nor any other delivery changes. */
  method LaterWritesAreIsolated(bus: EventBus, event: Event, now: int, k: nat, mine: map<string, Val>, theirs: map<string, Val>)
    returns (deliveries: seq<Delivery>, ghost published: Record)
    requires bus.Valid() && event.etype != "" && event.data != null
    requires Objects(event) !! bus.owned && bus !in Objects(event) && bus.ringBuffer !in Objects(event)
    requires k < |SubscribersOf(bus.subscribers, event.etype)|
    modifies bus, bus.ringBuffer, event, event.data
    ensures bus.Valid() && bus.history == old(bus.history) + [published]
    ensures published.data == Some(old(event.data.m)) && published.etype == old(event.etype)
    ensures |deliveries| > k
    ensures forall i :: 0 <= i < |deliveries| && i != k ==> Contents(deliveries[i].event) == published
  {
    deliveries := bus.Publish(event, now);
    published := Contents(event);
    event.data.m := mine;
    assert forall i :: 0 <= i < |deliveries| ==> Contents(deliveries[i].event) == published;
    var other := deliveries[k].event;
    if other.data != null {
      other.data.m := theirs;
    }
    forall i | 0 <= i < |deliveries| && i != k
      ensures Contents(deliveries[i].event) == published
    {
      assert Objects(deliveries[i].event) !! Objects(deliveries[k].event);
    }
  }

  // Every subscriber got the same contents.
  ghost predicate Delivered(ds: seq<Delivery>, subs: seq<Subscriber>, contents: Record)
    reads set d | d in ds :: d.event, set d | d in ds && d.event.data != null :: d.event.data
  {
    |ds| == |subs| &&
    forall i :: 0 <= i < |ds| ==> ds[i].subscriber == subs[i] && Contents(ds[i].event) == contents
  }

  // No two deliveries share an event or a map.
  ghost predicate Separate(ds: seq<Delivery>)
    reads set d | d in ds :: d.event
  {
    forall i, j :: 0 <= i < j < |ds| ==> Objects(ds[i].event) !! Objects(ds[j].event)
  }

  method Dispatch(clone: Event, subs: seq<Subscriber>) returns (ds: seq<Delivery>)
    ensures Delivered(ds, subs, Contents(clone)) && Separate(ds)
    ensures forall i :: 0 <= i < |ds| ==> fresh(Objects(ds[i].event))
  {
    ds := [];
    for k := 0 to |subs|
      invariant |ds| == k
      invariant forall i :: 0 <= i < k ==>
        ds[i].subscriber == subs[i] && Contents(ds[i].event) == Contents(clone) && fresh(Objects(ds[i].event))
      invariant Separate(ds)
    {
      var subEvent := Clone(clone);
      ds := ds + [Delivery(subs[k], subEvent)];
    }
  }

  lemma OtherSlot(j: int, n: int)
    requires n - SLOTS < j < n && 0 <= j
    ensures j % SLOTS != n % SLOTS
  {}
}
