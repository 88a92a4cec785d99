/** The bounded receive queue shared by subscriptions and services
    (crates/ros-z/src/queue.rs): full queues drop their OLDEST element. */
module BoundedQueues {
  import opened Common

  /** What can happen to a queue: the transport pushes, a caller polls. */
  datatype Event<T> = Push(item: T) | Recv

  /** How an element left the queue. */
  datatype Departure<T> = Received(item: T) | Evicted(item: T)

  datatype History<T> = History(queue: seq<T>, departures: seq<Departure<T>>)

  /** A push drops an element exactly when it finds the queue full and not empty. (At capacity 0 a
      push still stores its element, so such a queue holds one element.) */
  predicate Overflows<T>(capacity: nat, queue: seq<T>, e: Event<T>) {
    e.Push? && |queue| >= capacity && queue != []
  }

  function Step<T>(capacity: nat, h: History<T>, e: Event<T>): History<T> {
    match e
    case Push(x) =>
      if Overflows(capacity, h.queue, e)
      then History(h.queue[1..] + [x], h.departures + [Evicted(h.queue[0])])
      else History(h.queue + [x], h.departures)
    case Recv =>
      if h.queue == [] then h
      else History(h.queue[1..], h.departures + [Received(h.queue[0])])
  }

  function Run<T>(capacity: nat, h: History<T>, es: seq<Event<T>>): History<T>
    decreases |es|
  {
    if es == [] then h else Run(capacity, Step(capacity, h, es[0]), es[1..])
  }

  /** The run of `es` on a new queue. */
  function Replay<T>(capacity: nat, es: seq<Event<T>>): History<T> {
    Run(capacity, History([], []), es)
  }

  function Pushed<T>(es: seq<Event<T>>): seq<T> {
    if es == [] then []
    else (if es[0].Push? then [es[0].item] else []) + Pushed(es[1..])
  }

  function Items<T>(ds: seq<Departure<T>>): seq<T> {
    if ds == [] then [] else [ds[0].item] + Items(ds[1..])
  }

  function ReceivedItems<T>(ds: seq<Departure<T>>): seq<T> {
    if ds == [] then []
    else (if ds[0].Received? then [ds[0].item] else []) + ReceivedItems(ds[1..])
  }

  ghost predicate SomePushOverflows<T>(capacity: nat, h: History<T>, es: seq<Event<T>>)
    decreases |es|
  {
    es != [] &&
    (Overflows(capacity, h.queue, es[0])
     || SomePushOverflows(capacity, Step(capacity, h, es[0]), es[1..]))
  }

  lemma {:induction false} RunAppend<T>(capacity: nat, h: History<T>, es: seq<Event<T>>, fs: seq<Event<T>>)
    ensures Run(capacity, h, es + fs) == Run(capacity, Run(capacity, h, es), fs)
    decreases |es|
  {
    if es == [] {
      assert es + fs == fs;
    } else {
      assert (es + fs)[0] == es[0] && (es + fs)[1..] == es[1..] + fs;
      RunAppend(capacity, Step(capacity, h, es[0]), es[1..], fs);
    }
  }

  lemma {:induction false} ItemsSnoc<T>(ds: seq<Departure<T>>, d: Departure<T>)
    ensures Items(ds + [d]) == Items(ds) + [d.item]
    ensures ReceivedItems(ds + [d]) == ReceivedItems(ds) + (if d.Received? then [d.item] else [])
  {
    if ds == [] {
      assert ds + [d] == [d];
    } else {
      assert (ds + [d])[0] == ds[0] && (ds + [d])[1..] == ds[1..] + [d];
      ItemsSnoc(ds[1..], d);
    }
  }

  lemma {:induction false} PushedAppend<T>(es: seq<Event<T>>, fs: seq<Event<T>>)
    ensures Pushed(es + fs) == Pushed(es) + Pushed(fs)
  {
    if es == [] {
      assert es + fs == fs;
    } else {
      assert (es + fs)[0] == es[0] && (es + fs)[1..] == es[1..] + fs;
      PushedAppend(es[1..], fs);
    }
  }

  /** Order and exactly-once: whatever left the queue, in the order it left, followed by what is
      still inside, is what entered, in the order it entered. The bound is never exceeded. */
  lemma {:induction false} RunConserves<T>(capacity: nat, h: History<T>, es: seq<Event<T>>)
    requires |h.queue| <= if capacity == 0 then 1 else capacity
    ensures var r := Run(capacity, h, es);
            && Items(r.departures) + r.queue == Items(h.departures) + h.queue + Pushed(es)
            && |r.queue| <= if capacity == 0 then 1 else capacity
    decreases |es|
  {
    if es != [] {
      var s := Step(capacity, h, es[0]);
      if |s.departures| > |h.departures| {
        ItemsSnoc(h.departures, s.departures[|h.departures|]);
      }
      RunConserves(capacity, s, es[1..]);
    }
  }

  lemma {:induction false} AllReceivedIff<T>(ds: seq<Departure<T>>)
    ensures |ReceivedItems(ds)| <= |Items(ds)| == |ds|
    ensures ReceivedItems(ds) == Items(ds) <==> forall d :: d in ds ==> d.Received?
    ensures |ReceivedItems(ds)| == |ds| <==> forall d :: d in ds ==> d.Received?
  {
    if ds != [] {
      AllReceivedIff(ds[1..]);
      assert ds == [ds[0]] + ds[1..];
    }
  }

  lemma {:induction false} EvictionIffOverflow<T>(capacity: nat, h: History<T>, es: seq<Event<T>>)
    ensures h.departures <= Run(capacity, h, es).departures
    ensures (exists d :: d in Run(capacity, h, es).departures[|h.departures|..] && d.Evicted?)
       <==> SomePushOverflows(capacity, h, es)
    decreases |es|
  {
    if es != [] {
      var s := Step(capacity, h, es[0]);
      EvictionIffOverflow(capacity, s, es[1..]);
      var all := Run(capacity, h, es).departures;
      var n := |h.departures|;
      if |s.departures| > n {
        assert all[n] == s.departures[n];
        assert all[n..] == [all[n]] + all[|s.departures|..];
      }
    }
  }

  /** For every run from an empty queue: nothing is lost exactly when no push found the queue full. */
  lemma NothingLostIffNeverFull<T>(capacity: nat, es: seq<Event<T>>)
    ensures var r := Replay(capacity, es);
            ReceivedItems(r.departures) + r.queue == Pushed(es)
            <==> !SomePushOverflows(capacity, History([], []), es)
  {
    var r := Replay(capacity, es);
    var h: History<T> := History([], []);
    RunConserves(capacity, h, es);
    assert Items(h.departures) + h.queue + Pushed(es) == Pushed(es);
    EvictionIffOverflow(capacity, h, es);
    AllReceivedIff(r.departures);
    assert r.departures[|h.departures|..] == r.departures;
    assert |ReceivedItems(r.departures) + r.queue| == |ReceivedItems(r.departures)| + |r.queue|;
    assert |Items(r.departures) + r.queue| == |r.departures| + |r.queue|;
  }

  /** Without polling, the queue holds exactly the most recent pushes. */
  lemma KeepsTheNewest<T>(capacity: nat, es: seq<Event<T>>)
    requires forall e :: e in es ==> e.Push?
    ensures var bound := if capacity == 0 then 1 else capacity;
            var kept := if |es| < bound then |es| else bound;
            |Pushed(es)| == |es| && Replay(capacity, es).queue == Pushed(es)[|es| - kept..]
  {
    PushesFill(capacity, History([], []), es);
    RunConserves(capacity, History([], []), es);
    var r := Replay(capacity, es);
    var before := Items(r.departures);
    assert Pushed(es) == before + r.queue;
    assert (before + r.queue)[|before|..] == r.queue;
  }

  lemma {:induction false} PushesFill<T>(capacity: nat, h: History<T>, es: seq<Event<T>>)
    requires forall e :: e in es ==> e.Push?
    requires |h.queue| <= if capacity == 0 then 1 else capacity
    ensures var bound := if capacity == 0 then 1 else capacity;
            && |Pushed(es)| == |es|
            && |Run(capacity, h, es).queue|
               == if |h.queue| + |es| < bound then |h.queue| + |es| else bound
    decreases |es|
  {
    if es != [] {
      PushesFill(capacity, Step(capacity, h, es[0]), es[1..]);
    }
  }

  /** The queue object. The ghost fields record its use since construction. */
  class BoundedQueue<T> {
    const capacity: nat
    var data: seq<T>
    ghost var events: seq<Event<T>>
    ghost var pushed: seq<T>
    ghost var departures: seq<Departure<T>>

    ghost predicate Valid()
      reads this
    {
      && History(data, departures) == Replay(capacity, events)
      && pushed == Pushed(events)
    }

    constructor (capacity: nat)
      ensures Valid() && this.capacity == capacity && data == [] && events == []
    {
      this.capacity := capacity;
      data, events, pushed, departures := [], [], [], [];
    }

    /** Stores `item`. The result tells whether the length had reached the capacity, which is not
        the same as an element having been dropped when the capacity is 0. */
    method Push(item: T) returns (dropped: bool)
      requires Valid()
      modifies this
      ensures Valid() && events == old(events) + [Event.Push(item)] && pushed == old(pushed) + [item]
      ensures dropped <==> |old(data)| >= capacity
      ensures departures == old(departures)
                + (if dropped && old(data) != [] then [Evicted(old(data)[0])] else [])
      ensures data == (if dropped && old(data) != [] then old(data)[1..] else old(data)) + [item]
    {
      if |data| >= capacity {
        if data != [] {
          departures := departures + [Evicted(data[0])];
          data := data[1..];
        }
        dropped := true;
      } else {
        dropped := false;
      }
      data := data + [item];
      RunAppend(capacity, History([], []), events, [Event.Push(item)]);
      PushedAppend(events, [Event.Push(item)]);
      events, pushed := events + [Event.Push(item)], pushed + [item];
    }

    /** Removes the oldest element, if any. */
    method TryRecv() returns (r: Option<T>)
      requires Valid()
      modifies this
      ensures Valid() && events == old(events) + [Recv] && pushed == old(pushed)
      ensures old(data) == [] ==> r == None && data == [] && departures == old(departures)
      ensures old(data) != [] ==>
                && r == Some(old(data)[0]) && data == old(data)[1..]
                && departures == old(departures) + [Received(old(data)[0])]
    {
      if data == [] {
        r := None;
      } else {
        r := Some(data[0]);
        departures := departures + [Received(data[0])];
        data := data[1..];
      }
      RunAppend(capacity, History([], []), events, [Recv]);
      PushedAppend(events, [Recv]);
      events := events + [Recv];
    }
  }
}
