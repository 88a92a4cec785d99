/** Taking samples from a subscription (crates/rmw-zenoh-rs/src/pubsub.rs). */
module Subscriptions {
  import opened Common
  import opened BoundedQueues

  datatype Sample = Sample(payload: seq<byte>, attachment: AttachmentField)

  datatype MessageInfo = MessageInfo(
    sourceTimestamp: int, receivedTimestamp: int,
    publicationSequenceNumber: nat, receptionSequenceNumber: nat,
    publisherGid: Gid, fromIntraProcess: bool)

  /** A ROS message under construction. Decoding is foreign code whose verdict the takes ignore, so
      a message is represented by the bytes last handed to the decoder for it. A pointer to a
      message, or to a message info, is an array and an index. */
  type Decoded = seq<byte>

  class MessageSequence {
    const data: array<Decoded>
    var size: nat

    constructor (data: array<Decoded>)
    {
      this.data := data;
      size := 0;
    }
  }

  class InfoSequence {
    const data: array<MessageInfo>
    var size: nat

    constructor (data: array<MessageInfo>)
    {
      this.data := data;
      size := 0;
    }
  }

  function SourceTimestamp(s: Sample): int {
    if s.attachment.Parsed? then s.attachment.attachment.sourceTimestamp else 0
  }

  function InfoOf(s: Sample, now: int): MessageInfo {
    MessageInfo(SourceTimestamp(s), now, 0, 0, ZERO_GID, false)
  }

  /** Everything that arrives in the first `n` iterations of a batch. */
  function Arrivals(between: seq<seq<Sample>>, n: nat): seq<Sample>
    requires n <= |between|
  {
    if n == 0 then [] else Arrivals(between, n - 1) + between[n - 1]
  }

  /** What the queue sees when samples arrive. */
  function Pushes(samples: seq<Sample>): seq<Event<Sample>> {
    if samples == [] then [] else Pushes(samples[..|samples| - 1]) + [Push(samples[|samples| - 1])]
  }

  lemma PushesSnoc(samples: seq<Sample>, i: nat)
    requires i < |samples|
    ensures samples[..i + 1] == samples[..i] + [samples[i]]
    ensures Pushes(samples[..i + 1]) == Pushes(samples[..i]) + [Push(samples[i])]
  {
    assert samples[..i + 1][..i] == samples[..i];
  }

  /** What the queue sees in the first `n` iterations of a batch: the arrivals and one poll each. */
  function BatchEvents(between: seq<seq<Sample>>, n: nat): seq<Event<Sample>>
    requires n <= |between|
  {
    if n == 0 then [] else BatchEvents(between, n - 1) + Pushes(between[n - 1]) + [Recv]
  }

  /** The longest length in play when payloads `ps` are stored one after another in a buffer whose
      capacity starts at `c`. */
  function MaxLength(c: nat, ps: seq<seq<byte>>): nat {
    if ps == [] then c
    else
      var m := MaxLength(c, ps[..|ps| - 1]);
      if m < |ps[|ps| - 1]| then |ps[|ps| - 1]| else m
  }

  lemma {:induction false} MaxLengthIsTheMaximum(c: nat, ps: seq<seq<byte>>)
    ensures c <= MaxLength(c, ps)
    ensures forall p :: p in ps ==> |p| <= MaxLength(c, ps)
    ensures MaxLength(c, ps) == c || exists p :: p in ps && |p| == MaxLength(c, ps)
  {
    if ps != [] {
      var front, last := ps[..|ps| - 1], ps[|ps| - 1];
      MaxLengthIsTheMaximum(c, front);
      assert ps == front + [last];
      assert last in ps;
      if MaxLength(c, front) != c {
        var p :| p in front && |p| == MaxLength(c, front);
        assert p in ps;
      }
    }
  }

  /** A caller-owned byte buffer (`rcl_serialized_message_t`). `stored` records the payloads copied
      into it so far. */
  class SerializedMessage {
    var buffer: array?<byte>
    var length: nat
    var capacity: nat
    ghost const initialCapacity: nat
    ghost var stored: seq<seq<byte>>

    ghost predicate Valid()
      reads this, buffer
    {
      && capacity == (if buffer == null then 0 else buffer.Length)
      && length <= capacity
      && capacity == MaxLength(initialCapacity, stored)
      && (stored != [] ==> Bytes() == stored[|stored| - 1])
    }

    ghost function Bytes(): seq<byte>
      requires capacity == (if buffer == null then 0 else buffer.Length) && length <= capacity
      reads this, buffer
    {
      if buffer == null then [] else buffer[..length]
    }

    constructor ()
      ensures Valid() && stored == [] && buffer == null
    {
      buffer, length, capacity := null, 0, 0;
      initialCapacity, stored := 0, [];
    }

    /** Adopts the first `length` bytes of a buffer that the caller allocated. */
    constructor FromBuffer(buffer: array<byte>, length: nat)
      requires length <= buffer.Length
      ensures Valid() && stored == [] && this.buffer == buffer && this.length == length
    {
      this.buffer, this.length, this.capacity := buffer, length, buffer.Length;
      initialCapacity, stored := buffer.Length, [];
    }

    /** Copies `bytes` in, replacing the buffer when it is too small and keeping it otherwise. */
    method Store(bytes: seq<byte>)
      requires Valid()
      modifies this, buffer
      ensures Valid() && stored == old(stored) + [bytes]
      ensures length == |bytes| && Bytes() == bytes
      ensures capacity == if old(capacity) < |bytes| then |bytes| else old(capacity)
      ensures old(capacity) < |bytes| ==> buffer != null && fresh(buffer)
      ensures |bytes| <= old(capacity) ==>
                && buffer == old(buffer)
                && (buffer != null ==> buffer[|bytes|..] == old(buffer[|bytes|..]))
    {
      if capacity < |bytes| {
        buffer := new byte[|bytes|](_ => 0);
        capacity := |bytes|;
      }
      if buffer != null {
        forall i | 0 <= i < |bytes| {
          buffer[i] := bytes[i];
        }
      }
      length := |bytes|;
      assert (stored + [bytes])[..|stored|] == stored;
      stored := stored + [bytes];
      assert buffer != null ==> buffer[..length] == bytes;
    }
  }

  /** A serialized take with its sample in hand: the payload goes to the buffer and the info, if any, is
      cleared. */
  method StoreTaken(message: SerializedMessage, payload: seq<byte>, infos: array?<MessageInfo>, slot: nat)
    requires message.Valid() && (infos != null ==> slot < infos.Length)
    modifies message, message.buffer, infos
    ensures message.Valid() && message.Bytes() == payload && message.stored == old(message.stored) + [payload]
    ensures infos != null ==> infos[..] == old(infos[..])[slot := MessageInfo(0, 0, 0, 0, ZERO_GID, false)]
  {
    message.Store(payload);
    if infos != null {
      infos[slot] := MessageInfo(0, 0, 0, 0, ZERO_GID, false);
    }
  }

  /** The subscription. `arrived` records every sample the transport delivered, `delivered` every
      sample handed to a caller, each in order. */
  class Subscription {
    /** Null when the subscriber was built with a callback. */
    const queue: BoundedQueue?<Sample>
    ghost var arrived: seq<Sample>
    ghost var delivered: seq<Sample>

    ghost predicate Valid()
      reads this, queue
    {
      if queue == null then delivered == []
      else
        && queue.Valid() && arrived == queue.pushed
        && delivered == ReceivedItems(queue.departures)
    }

    /** The samples a caller can still take. */
    ghost function Waiting(): seq<Sample>
      reads this, queue
    {
      if queue == null then [] else queue.data
    }

    /** The effect every kind of single take has on queue and record. */
    twostate predicate Polled(status: Status, taken: bool)
      reads this, queue
    {
      && status == (if queue == null then Err else Ok)
      && taken == (old(Waiting()) != [])
      && arrived == old(arrived)
      && delivered == old(delivered) + (if taken then [old(Waiting())[0]] else [])
      && (queue != null ==> queue.events == old(queue.events) + [Recv])
      && Waiting() == if taken then old(Waiting())[1..] else []
    }

    constructor (queue: BoundedQueue?<Sample>)
      requires queue != null ==> queue.Valid() && queue.events == []
      ensures Valid() && this.queue == queue && arrived == delivered == []
    {
      this.queue := queue;
      arrived, delivered := [], [];
    }

    /** For every way of using a subscription: samples leave the queue in arrival order, each once;
        the delivered ones are those that were not evicted; and those delivered followed by those
        waiting are all that ever arrived if and only if no arrival found the queue full. */
    lemma DeliveryIsFifoExactlyOnce()
      requires Valid() && queue != null
      ensures Items(queue.departures) + Waiting() == arrived
      ensures delivered == ReceivedItems(queue.departures)
      ensures delivered + Waiting() == arrived
              <==> !SomePushOverflows(queue.capacity, History([], []), queue.events)
    {
      var start: History<Sample> := History([], []);
      RunConserves(queue.capacity, start, queue.events);
      assert Items(start.departures) + start.queue + Pushed(queue.events) == Pushed(queue.events);
      NothingLostIffNeverFull(queue.capacity, queue.events);
    }

    /** The transport delivers one sample. */
    method ArriveOne(sample: Sample)
      requires Valid() && queue != null
      modifies this`arrived, queue
      ensures Valid() && arrived == old(arrived) + [sample]
      ensures queue.events == old(queue.events) + [Push(sample)]
    {
      ghost var leaving := queue.departures;
      var dropped := queue.Push(sample);
      arrived := arrived + [sample];
      if queue.departures != leaving {
        ItemsSnoc(leaving, queue.departures[|leaving|]);
      }
    }

    /** The transport delivers samples. */
    method Arrive(samples: seq<Sample>)
      requires Valid()
      modifies this`arrived, queue
      ensures Valid() && arrived == old(arrived) + samples
      ensures queue != null ==> queue.events == old(queue.events) + Pushes(samples)
      ensures samples == [] ==> Waiting() == old(Waiting())
    {
      if queue == null {
        arrived := arrived + samples;
        return;
      }
      for i := 0 to |samples|
        invariant Valid()
        invariant arrived == old(arrived) + samples[..i]
        invariant queue.events == old(queue.events) + Pushes(samples[..i])
        invariant i == 0 ==> queue.data == old(queue.data)
      {
        ArriveOne(samples[i]);
        PushesSnoc(samples, i);
      }
      assert samples[..|samples|] == samples;
    }

    /** The poll of the queue, which every take begins with. */
    method Receive() returns (sample: Option<Sample>)
      requires Valid() && queue != null
      modifies this`delivered, queue
      ensures Valid() && Polled(Ok, sample.Some?)
      ensures sample.Some? ==> sample.value == old(Waiting())[0]
    {
      ghost var leaving := queue.departures;
      sample := queue.TryRecv();
      if sample.Some? {
        ItemsSnoc(leaving, Received(sample.value));
        delivered := delivered + [sample.value];
      }
    }

    method Take(messages: array<Decoded>, m: nat) returns (status: Status, taken: bool)
      requires Valid() && m < messages.Length
      modifies this, queue, messages
      ensures Valid() && Polled(status, taken)
      ensures messages[..] == if taken then old(messages[..])[m := old(Waiting())[0].payload]
                              else old(messages[..])
    {
      taken := false;
      if queue == null {
        return Err, taken;
      }
      var sample := Receive();
      if sample.Some? {
        messages[m] := sample.value.payload;
        taken := true;
      }
      status := Ok;
    }

    /** The info pointer may be null. */
    method TakeWithInfo(messages: array<Decoded>, m: nat, infos: array?<MessageInfo>, slot: nat, now: int)
      returns (status: Status, taken: bool)
      requires Valid() && m < messages.Length
      requires infos != null ==> slot < infos.Length
      modifies this, queue, messages, infos
      ensures Valid() && Polled(status, taken)
      ensures messages[..] == if taken then old(messages[..])[m := old(Waiting())[0].payload]
                              else old(messages[..])
      ensures infos != null ==>
                infos[..] == if taken then old(infos[..])[slot := InfoOf(old(Waiting())[0], now)]
                             else old(infos[..])
      // The sender's time comes from the attachment, and nothing else does.
      ensures infos != null && taken ==>
                var a := old(Waiting())[0].attachment;
                && infos[slot].sourceTimestamp == (if a.Parsed? then a.attachment.sourceTimestamp else 0)
                && infos[slot].receivedTimestamp == now
                && infos[slot].publicationSequenceNumber == infos[slot].receptionSequenceNumber == 0
                && infos[slot].publisherGid == seq(16, _ => 0) && !infos[slot].fromIntraProcess
    {
      taken := false;
      if queue == null {
        return Err, taken;
      }
      var sample := Receive();
      if sample.Some? {
        messages[m] := sample.value.payload;
        if infos != null {
          infos[slot] := MessageInfo(SourceTimestamp(sample.value), now, 0, 0, ZERO_GID, false);
        }
        taken := true;
      }
      status := Ok;
    }

    /** The info written here carries no timestamps. */
    method TakeSerialized(message: SerializedMessage, infos: array?<MessageInfo>, slot: nat)
      returns (status: Status, taken: bool)
      requires Valid() && message.Valid()
      requires infos != null ==> slot < infos.Length
      modifies this, queue, message, message.buffer, infos
      ensures Valid() && message.Valid() && Polled(status, taken)
      ensures taken ==>
                && message.Bytes() == old(Waiting())[0].payload
                && message.stored == old(message.stored) + [old(Waiting())[0].payload]
      ensures !taken ==> unchanged(message) && (message.buffer != null ==> unchanged(message.buffer))
      ensures infos != null ==>
                infos[..] == if taken
                             then old(infos[..])[slot := MessageInfo(0, 0, 0, 0, ZERO_GID, false)]
                             else old(infos[..])
    {
      taken := false;
      if queue == null {
        return Err, taken;
      }
      var sample := Receive();
      if sample.Some? {
        StoreTaken(message, sample.value.payload, infos, slot);
        taken := true;
      }
      status := Ok;
    }
  }

  /** Messages after the samples of `batch` were decoded into slots 0, 1, ... of `start`. */
  function Decode(start: seq<Decoded>, batch: seq<Sample>): (r: seq<Decoded>)
    requires |batch| <= |start|
    ensures |r| == |start|
  {
    if batch == [] then start
    else
      var n := |batch| - 1;
      Decode(start, batch[..n])[n := batch[n].payload]
  }

  /** Infos after the samples of `batch` were described in slots 0, 1, ... of `start`. */
  function Describe(start: seq<MessageInfo>, batch: seq<Sample>, clock: seq<int>): (r: seq<MessageInfo>)
    requires |batch| <= |start| && |batch| <= |clock|
    ensures |r| == |start|
  {
    if batch == [] then start
    else
      var n := |batch| - 1;
      Describe(start, batch[..n], clock)[n := InfoOf(batch[n], clock[n])]
  }

  /** Slot i holds sample i; the slots behind the batch are as they were. */
  lemma {:induction false} SlotsHoldTheBatch(messages: seq<Decoded>, infos: seq<MessageInfo>,
                                             batch: seq<Sample>, clock: seq<int>)
    requires |batch| <= |messages| && |batch| <= |infos| && |batch| <= |clock|
    ensures forall i :: 0 <= i < |batch| ==> Decode(messages, batch)[i] == batch[i].payload
    ensures forall i :: 0 <= i < |batch| ==>
              Describe(infos, batch, clock)[i] == InfoOf(batch[i], clock[i])
    ensures Decode(messages, batch)[|batch|..] == messages[|batch|..]
    ensures Describe(infos, batch, clock)[|batch|..] == infos[|batch|..]
  {
    if batch != [] {
      SlotsHoldTheBatch(messages, infos, batch[..|batch| - 1], clock);
    }
  }

  lemma {:induction false} DecodeSnoc(start: seq<Decoded>, batch: seq<Sample>, s: Sample)
    requires |batch| < |start|
    ensures Decode(start, batch + [s]) == Decode(start, batch)[|batch| := s.payload]
  {
    var more := batch + [s];
    assert more[..|more| - 1] == batch && more[|more| - 1] == s;
  }

  lemma {:induction false} DescribeSnoc(start: seq<MessageInfo>, batch: seq<Sample>, s: Sample, clock: seq<int>)
    requires |batch| < |start| && |batch| < |clock|
    ensures Describe(start, batch + [s], clock) ==
              Describe(start, batch, clock)[|batch| := InfoOf(s, clock[|batch|])]
  {
    var more := batch + [s];
    assert more[..|more| - 1] == batch && more[|more| - 1] == s;
  }

  /** What a batch finds when it begins. */
  datatype Before = Before(messages: seq<Decoded>, infos: seq<MessageInfo>, arrived: seq<Sample>,
                           delivered: seq<Sample>, events: seq<Event<Sample>>)

  /** The slots of a batch that began with `b` and has taken `batch`. */
  ghost predicate Filled(b: Before, messages: array<Decoded>, infos: array<MessageInfo>,
                         clock: seq<int>, batch: seq<Sample>)
    reads messages, infos
  {
    && |batch| <= |b.messages| && |batch| <= |b.infos| && |batch| <= |clock|
    && messages[..] == Decode(b.messages, batch) && infos[..] == Describe(b.infos, batch, clock)
  }

  /** The subscription after a batch that began with `b` has polled `polls` times and taken `batch`. */
  ghost predicate Polls(b: Before, sub: Subscription, between: seq<seq<Sample>>, polls: nat,
                        batch: seq<Sample>)
    requires polls <= |between|
    reads sub, sub.queue
  {
    && sub.Valid() && sub.delivered == b.delivered + batch
    && sub.arrived == b.arrived + Arrivals(between, polls)
    && (sub.queue != null ==> sub.queue.events == b.events + BatchEvents(between, polls))
  }

  /** One iteration of the batch loop, as the subscription sees it: `between[n]` comes in, then the
      queue is polled once. */
  method PollOnce(sub: Subscription, messages: array<Decoded>, infos: array<MessageInfo>,
                  between: seq<seq<Sample>>, now: int, n: nat, ghost b: Before,
                  ghost batch: seq<Sample>)
    returns (one: bool, ghost got: seq<Sample>)
    requires n < |between| && n < messages.Length && n < infos.Length && Polls(b, sub, between, n, batch)
    modifies sub, sub.queue, messages, infos
    ensures Polls(b, sub, between, n + 1, batch + got)
    ensures |got| == if one then 1 else 0
    ensures messages[..] == if one then old(messages[..])[n := got[0].payload] else old(messages[..])
    ensures infos[..] == if one then old(infos[..])[n := InfoOf(got[0], now)] else old(infos[..])
    ensures !one ==> sub.Waiting() == []
  {
    sub.Arrive(between[n]);
    label polling:
    var status, taken := sub.TakeWithInfo(messages, n, infos, n, now);
    one := status == Ok && taken;
    got := if one then [old@polling(sub.Waiting())[0]] else [];
    assert sub.delivered == b.delivered + batch + got;
    assert sub.queue != null ==>
             sub.queue.events == b.events + BatchEvents(between, n) + Pushes(between[n]) + [Recv];
  }

  /** The same, as the slots see it. */
  method FillOne(sub: Subscription, messages: array<Decoded>, infos: array<MessageInfo>,
                 between: seq<seq<Sample>>, clock: seq<int>, n: nat, ghost b: Before,
                 ghost batch: seq<Sample>)
    returns (one: bool, ghost after: seq<Sample>)
    requires n < |clock| && n < |between| && n < messages.Length && n < infos.Length
    requires Polls(b, sub, between, n, batch) && Filled(b, messages, infos, clock, batch) && |batch| == n
    modifies sub, sub.queue, messages, infos
    ensures Polls(b, sub, between, n + 1, after) && Filled(b, messages, infos, clock, after)
    ensures |after| == if one then n + 1 else n
    ensures !one ==> sub.Waiting() == []
  {
    ghost var got;
    one, got := PollOnce(sub, messages, infos, between, clock[n], n, b, batch);
    after := batch + got;
    if one {
      assert after == batch + [got[0]];
      DecodeSnoc(b.messages, batch, got[0]);
      DescribeSnoc(b.infos, batch, got[0], clock);
    } else {
      assert after == batch;
    }
  }

  /** The batch loop. The transport runs alongside: `between[i]` arrives just before the i-th poll,
      and `clock[i]` is the time read in the i-th iteration. */
  method FillSlots(sub: Subscription, count: nat, messages: array<Decoded>, infos: array<MessageInfo>,
                   between: seq<seq<Sample>>, clock: seq<int>, ghost b: Before)
    returns (n: nat, ghost batch: seq<Sample>)
    requires count <= messages.Length && count <= infos.Length && |between| == |clock| == count
    requires Polls(b, sub, between, 0, []) && Filled(b, messages, infos, clock, [])
    modifies sub, sub.queue, infos, messages
    ensures |batch| == n <= count && Filled(b, messages, infos, clock, batch)
    ensures Polls(b, sub, between, if n < count then n + 1 else count, batch)
    ensures n < count ==> sub.Waiting() == []
  {
    batch := [];
    n := 0;
    while n < count
      invariant |batch| == n <= count
      invariant Polls(b, sub, between, n, batch) && Filled(b, messages, infos, clock, batch)
    {
      var one;
      one, batch := FillOne(sub, messages, infos, between, clock, n, b, batch);
      if !one {
        break;
      }
      n := n + 1;
    }
  }

  /** An accepted batch. */
  method TakeBatch(sub: Subscription, count: nat, messages: array<Decoded>, infos: array<MessageInfo>,
                   between: seq<seq<Sample>>, clock: seq<int>)
    returns (n: nat, ghost batch: seq<Sample>)
    requires sub.Valid() && |between| == |clock| == count
    requires count <= messages.Length && count <= infos.Length
    modifies sub, sub.queue, infos, messages
    ensures sub.Valid() && |batch| == n <= count && sub.delivered == old(sub.delivered) + batch
    ensures forall i :: 0 <= i < n ==>
              messages[i] == batch[i].payload && infos[i] == InfoOf(batch[i], clock[i])
    ensures messages[n..] == old(messages[n..]) && infos[n..] == old(infos[n..])
    ensures n < count ==> sub.Waiting() == []
    ensures sub.arrived == old(sub.arrived) + Arrivals(between, if n < count then n + 1 else count)
    ensures sub.queue != null ==>
              sub.queue.events == old(sub.queue.events)
                + BatchEvents(between, if n < count then n + 1 else count)
  {
    ghost var b := Before(messages[..], infos[..], sub.arrived, sub.delivered,
                          if sub.queue == null then [] else sub.queue.events);
    n, batch := FillSlots(sub, count, messages, infos, between, clock, b);
    SlotsHoldTheBatch(b.messages, b.infos, batch, clock);
    forall i | 0 <= i < n
      ensures messages[i] == batch[i].payload && infos[i] == InfoOf(batch[i], clock[i])
    {
      assert messages[..][i] == batch[i].payload && infos[..][i] == InfoOf(batch[i], clock[i]);
    }
    assert messages[n..] == messages[..][n..] && infos[n..] == infos[..][n..];
  }

  /** `rmw_take_sequence`. The result `taken` is None when the output counter is left alone. */
  method TakeSequence(sub: Subscription, count: nat, messages: MessageSequence, infos: InfoSequence,
                      between: seq<seq<Sample>>, clock: seq<int>)
    returns (ret: Ret, taken: Option<nat>, ghost batch: seq<Sample>)
    requires sub.Valid() && |between| == |clock| == count
    modifies sub, sub.queue, messages`size, infos`size, infos.data, messages.data
    ensures sub.Valid()
    ensures ret == (if 0 < count <= messages.data.Length && count <= infos.data.Length
                    then RetOk else RetInvalidArgument)
    // A rejected call changes nothing.
    ensures ret != RetOk ==>
              && taken == None && unchanged(sub) && unchanged(messages) && unchanged(infos)
              && unchanged(messages.data) && unchanged(infos.data)
              && (sub.queue != null ==> unchanged(sub.queue))
    // An accepted call hands out `batch`, sample i in slot i, and leaves later slots alone.
    ensures ret == RetOk ==>
              && taken.Some? && taken.value <= count
              && messages.size == infos.size == taken.value
              && |batch| == taken.value
              && sub.delivered == old(sub.delivered) + batch
              && (forall i :: 0 <= i < taken.value ==>
                    messages.data[i] == batch[i].payload
                    && infos.data[i] == InfoOf(batch[i], clock[i]))
              && messages.data[taken.value..] == old(messages.data[taken.value..])
              && infos.data[taken.value..] == old(infos.data[taken.value..])
    // An info holds the time in the attachment, if there is a readable one, and the time of the take.
    ensures ret == RetOk ==>
              forall i :: 0 <= i < taken.value ==>
                var a, info := batch[i].attachment, infos.data[i];
                && info.sourceTimestamp == (if a.Parsed? then a.attachment.sourceTimestamp else 0)
                && info.receivedTimestamp == clock[i]
                && info.publicationSequenceNumber == info.receptionSequenceNumber == 0
                && info.publisherGid == seq(16, _ => 0) && !info.fromIntraProcess
    // It stops early only when nothing is left to take.
    ensures ret == RetOk && taken.value < count ==> sub.Waiting() == []
    // What arrived during the call are the batches of the iterations that ran.
    ensures ret == RetOk ==>
              sub.arrived == old(sub.arrived)
                + Arrivals(between, if taken.value < count then taken.value + 1 else count)
    ensures ret == RetOk && sub.queue != null ==>
              sub.queue.events == old(sub.queue.events)
                + BatchEvents(between, if taken.value < count then taken.value + 1 else count)
  {
    batch := [];
    if count == 0 {
      return RetInvalidArgument, None, batch;
    }
    if count > messages.data.Length || count > infos.data.Length {
      return RetInvalidArgument, None, batch;
    }
    var n;
    n, batch := TakeBatch(sub, count, messages.data, infos.data, between, clock);
    messages.size := n;
    infos.size := n;
    return RetOk, Some(n), batch;
  }
}
