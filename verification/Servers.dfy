/** The server side of a service: queries move from the bounded queue into a map keyed by their
    attachment, and are answered later from a request header
    (crates/rmw-zenoh-rs/src/service.rs:187-334, crates/ros-z/src/service.rs:418-554). */
module Servers {
  import opened Common
  import Queues = BoundedQueues

  datatype Query = Query(id: nat, payload: Option<seq<byte>>, attachment: AttachmentField)

  datatype QueryKey = QueryKey(sn: int, gid: Gid)

  /** Key of every query whose attachment is missing or malformed. */
  const PLACEHOLDER: QueryKey := QueryKey(0, ZERO_GID)

  function KeyOf(q: Query): QueryKey {
    if q.attachment.Parsed?
    then QueryKey(q.attachment.attachment.sequenceNumber, q.attachment.attachment.sourceGid)
    else PLACEHOLDER
  }

  /** The server and where every query went: still queued, pushed out of the full queue, discarded
      for want of a payload, pending, displaced from the map by a later query with the same key,
      replied to, or removed by a response whose transmission failed. */
  datatype Server = Server(
    queue: seq<Query>, pending: map<QueryKey, Query>,
    evicted: seq<Query>, payloadless: seq<Query>, displaced: seq<Query>,
    replied: seq<Query>, unreplied: seq<Query>)

  datatype Event =
    | QueryArrives(q: Query)
    | TakeRequest
    | SendResponse(key: QueryKey, delivered: bool)

  const IDLE: Server := Server([], map[], [], [], [], [], [])

  function Arrive(capacity: nat, s: Server, q: Query): Server {
    if Queues.Overflows(capacity, s.queue, Queues.Push(q))
    then s.(queue := s.queue[1..] + [q], evicted := s.evicted + [s.queue[0]])
    else s.(queue := s.queue + [q])
  }

  function Take(s: Server): Server {
    if s.queue == [] then s
    else
      var q, rest := s.queue[0], s.queue[1..];
      if q.payload == None then s.(queue := rest, payloadless := s.payloadless + [q])
      else
        var k := KeyOf(q);
        if k in s.pending
        then s.(queue := rest, pending := s.pending[k := q], displaced := s.displaced + [s.pending[k]])
        else s.(queue := rest, pending := s.pending[k := q])
  }

  function Respond(s: Server, k: QueryKey, delivered: bool): Server {
    if k !in s.pending then s
    else if delivered
    then s.(pending := s.pending - {k}, replied := s.replied + [s.pending[k]])
    else s.(pending := s.pending - {k}, unreplied := s.unreplied + [s.pending[k]])
  }

  function Step(capacity: nat, s: Server, e: Event): Server {
    match e
    case QueryArrives(q) => Arrive(capacity, s, q)
    case TakeRequest => Take(s)
    case SendResponse(k, delivered) => Respond(s, k, delivered)
  }

  function Run(capacity: nat, s: Server, es: seq<Event>): Server
    decreases |es|
  {
    if es == [] then s else Run(capacity, Step(capacity, s, es[0]), es[1..])
  }

  function Arrivals(es: seq<Event>): seq<Query> {
    if es == [] then []
    else (if es[0].QueryArrives? then [es[0].q] else []) + Arrivals(es[1..])
  }

  /** The map files every query under its own key. */
  ghost predicate Keyed(s: Server) {
    forall k :: k in s.pending ==> KeyOf(s.pending[k]) == k
  }

  predicate IsPending(s: Server, q: Query) {
    KeyOf(q) in s.pending && s.pending[KeyOf(q)] == q
  }

  /** How often `q` occurs in `qs`. */
  function Count<T(==)>(qs: seq<T>, q: T): nat {
    multiset(qs)[q]
  }

  function Pending(s: Server, q: Query): nat {
    if IsPending(s, q) then 1 else 0
  }

  /** In how many places `q` is, over the seven where it can be. */
  function Tally(s: Server, q: Query): nat {
    Count(s.queue, q) + Pending(s, q) + Count(s.evicted, q)
    + Count(s.payloadless, q) + Count(s.displaced, q) + Count(s.replied, q) + Count(s.unreplied, q)
  }

  lemma CountSnoc<T>(qs: seq<T>, p: T, q: T)
    ensures Count(qs + [p], q) == Count(qs, q) + if p == q then 1 else 0
  {
  }

  lemma CountHead<T>(qs: seq<T>, q: T)
    requires qs != []
    ensures Count(qs, q) == Count(qs[1..], q) + if qs[0] == q then 1 else 0
  {
    assert qs == [qs[0]] + qs[1..];
  }

  lemma ArriveConserves(capacity: nat, s: Server, p: Query, q: Query)
    ensures Count(Arrive(capacity, s, p).queue, q) + Count(Arrive(capacity, s, p).evicted, q)
            == Count(s.queue, q) + Count(s.evicted, q) + if p == q then 1 else 0
  {
    CountSnoc(s.queue, p, q);
    if s.queue != [] {
      CountHead(s.queue, q);
      CountSnoc(s.queue[1..], p, q);
      CountSnoc(s.evicted, s.queue[0], q);
    }
  }

  lemma TakePayloadless(s: Server, q: Query)
    requires Keyed(s) && s.queue != [] && s.queue[0].payload == None
    ensures Keyed(Take(s)) && Tally(Take(s), q) == Tally(s, q)
  {
    CountHead(s.queue, q);
    CountSnoc(s.payloadless, s.queue[0], q);
    assert IsPending(Take(s), q) <==> IsPending(s, q);
  }

  /** The key of the taken query is free. */
  lemma TakeFresh(s: Server, q: Query)
    requires Keyed(s) && s.queue != [] && s.queue[0].payload != None && KeyOf(s.queue[0]) !in s.pending
    ensures Keyed(Take(s)) && Tally(Take(s), q) == Tally(s, q)
  {
    CountHead(s.queue, q);
    assert IsPending(Take(s), q) <==> IsPending(s, q) || q == s.queue[0];
    assert q == s.queue[0] ==> !IsPending(s, q);
  }

  /** What filing `head` under its key does to the pending queries. */
  lemma Displace(s: Server, t: Server, head: Query, q: Query)
    requires KeyOf(head) in s.pending && t.pending == s.pending[KeyOf(head) := head]
    requires Keyed(s)
    ensures var p := s.pending[KeyOf(head)];
            && Keyed(t)
            && Pending(t, q) + (if q == p then 1 else 0) == Pending(s, q) + (if q == head then 1 else 0)
  {
  }

  /** The key of the taken query is in use, by a query that is displaced. */
  lemma TakeDisplacing(s: Server, q: Query)
    requires Keyed(s) && s.queue != [] && s.queue[0].payload != None && KeyOf(s.queue[0]) in s.pending
    ensures Keyed(Take(s)) && Tally(Take(s), q) == Tally(s, q)
  {
    CountHead(s.queue, q);
    CountSnoc(s.displaced, s.pending[KeyOf(s.queue[0])], q);
    Displace(s, Take(s), s.queue[0], q);
  }

  lemma TakeConserves(s: Server, q: Query)
    requires Keyed(s)
    ensures Keyed(Take(s)) && Tally(Take(s), q) == Tally(s, q)
  {
    if s.queue != [] {
      if s.queue[0].payload == None {
        TakePayloadless(s, q);
      } else if KeyOf(s.queue[0]) !in s.pending {
        TakeFresh(s, q);
      } else {
        TakeDisplacing(s, q);
      }
    }
  }

  lemma RespondConserves(s: Server, k: QueryKey, delivered: bool, q: Query)
    requires Keyed(s)
    ensures Keyed(Respond(s, k, delivered)) && Tally(Respond(s, k, delivered), q) == Tally(s, q)
  {
    if k in s.pending {
      CountSnoc(s.replied, s.pending[k], q);
      CountSnoc(s.unreplied, s.pending[k], q);
    }
  }

  lemma StepConserves(capacity: nat, s: Server, e: Event, q: Query)
    requires Keyed(s)
    ensures Keyed(Step(capacity, s, e))
    ensures Tally(Step(capacity, s, e), q)
            == Tally(s, q) + if e == QueryArrives(q) then 1 else 0
  {
    match e
    case QueryArrives(p) => ArriveConserves(capacity, s, p, q);
    case TakeRequest => TakeConserves(s, q);
    case SendResponse(k, delivered) => RespondConserves(s, k, delivered, q);
  }

  lemma ArrivalsHead(es: seq<Event>, q: Query)
    requires es != []
    ensures Count(Arrivals(es), q)
            == Count(Arrivals(es[1..]), q) + if es[0] == QueryArrives(q) then 1 else 0
  {
    if es[0].QueryArrives? {
      assert Arrivals(es)[1..] == Arrivals(es[1..]);
      CountHead(Arrivals(es), q);
    } else {
      assert Arrivals(es) == Arrivals(es[1..]);
    }
  }

  /** Over every run: each query that arrived is in exactly one of the seven places, as often as it
      arrived. */
  lemma {:induction false} EveryQueryIsAccountedFor(capacity: nat, s: Server, es: seq<Event>, q: Query)
    requires Keyed(s)
    ensures Keyed(Run(capacity, s, es))
    ensures Tally(Run(capacity, s, es), q) == Tally(s, q) + Count(Arrivals(es), q)
    decreases |es|
  {
    if es != [] {
      StepConserves(capacity, s, es[0], q);
      ArrivalsHead(es, q);
      EveryQueryIsAccountedFor(capacity, Step(capacity, s, es[0]), es[1..], q);
    }
  }

  /** Only queries with a payload are filed, and only queries without one are discarded for it. */
  ghost predicate Filed(s: Server) {
    && (forall k :: k in s.pending ==> s.pending[k].payload != None)
    && (forall q :: q in s.displaced ==> q.payload != None)
    && (forall q :: q in s.replied ==> q.payload != None)
    && (forall q :: q in s.unreplied ==> q.payload != None)
    && (forall q :: q in s.payloadless ==> q.payload == None)
  }

  lemma StepFiles(capacity: nat, s: Server, e: Event)
    requires Filed(s)
    ensures Filed(Step(capacity, s, e))
  {
  }

  /** Over every run a query without a payload never becomes pending, so it is never answered. */
  lemma {:induction false} OnlyPayloadsAreFiled(capacity: nat, s: Server, es: seq<Event>)
    requires Filed(s)
    ensures Filed(Run(capacity, s, es))
    decreases |es|
  {
    if es != [] {
      StepFiles(capacity, s, es[0]);
      OnlyPayloadsAreFiled(capacity, Step(capacity, s, es[0]), es[1..]);
    }
  }

  /** In particular from an idle server on: sending a response for a key under which no query with a
      payload arrived changes nothing, whatever came before it. */
  lemma PayloadlessIsNeverAnswered(capacity: nat, es: seq<Event>, k: QueryKey, delivered: bool)
    requires forall q :: q in Arrivals(es) && KeyOf(q) == k ==> q.payload == None
    ensures Filed(Run(capacity, IDLE, es))
    ensures var s := Run(capacity, IDLE, es);
            k !in s.pending && Step(capacity, s, SendResponse(k, delivered)) == s
  {
    OnlyPayloadsAreFiled(capacity, IDLE, es);
    EveryQueryIsAccountedFor(capacity, IDLE, es, Query(0, None, Missing));
    var s := Run(capacity, IDLE, es);
    if k in s.pending {
      var q := s.pending[k];
      EveryQueryIsAccountedFor(capacity, IDLE, es, q);
    }
  }

  function Total(s: Server, es: seq<Event>, q: Query): nat {
    Tally(s, q) + Count(Arrivals(es), q)
  }

  /** No two queries that are here or still to come share a key, and none comes twice. */
  ghost predicate DistinctKeys(s: Server, es: seq<Event>) {
    && (forall q :: Total(s, es, q) <= 1)
    && (forall p, q :: Total(s, es, p) > 0 && Total(s, es, q) > 0 && KeyOf(p) == KeyOf(q) ==> p == q)
  }

  lemma DistinctKeysStep(capacity: nat, s: Server, es: seq<Event>)
    requires Keyed(s) && DistinctKeys(s, es) && es != []
    ensures DistinctKeys(Step(capacity, s, es[0]), es[1..])
  {
    forall q
      ensures Total(Step(capacity, s, es[0]), es[1..], q) == Total(s, es, q)
    {
      StepConserves(capacity, s, es[0], q);
      ArrivalsHead(es, q);
    }
  }

  lemma HeadKeyIsFree(s: Server, es: seq<Event>)
    requires Keyed(s) && s.queue != []
    ensures DistinctKeys(s, es) ==> KeyOf(s.queue[0]) !in s.pending
  {
    if KeyOf(s.queue[0]) in s.pending {
      var q, p := s.queue[0], s.pending[KeyOf(s.queue[0])];
      CountHead(s.queue, q);
      assert Total(s, es, q) > 0 && Total(s, es, p) > 0;
      assert p == q ==> Total(s, es, q) >= 2;
    }
  }

  /** With pairwise different keys nothing is ever displaced from the map. */
  lemma {:induction false} DistinctKeysAreNeverDisplaced(capacity: nat, s: Server, es: seq<Event>)
    requires Keyed(s) && DistinctKeys(s, es)
    ensures Run(capacity, s, es).displaced == s.displaced
    decreases |es|
  {
    if es != [] {
      if es[0].TakeRequest? && s.queue != [] {
        HeadKeyIsFree(s, es);
      }
      StepConserves(capacity, s, es[0], Query(0, None, Missing));
      DistinctKeysStep(capacity, s, es);
      DistinctKeysAreNeverDisplaced(capacity, Step(capacity, s, es[0]), es[1..]);
    }
  }

  /** Some take of the run finds at the head of the queue a query with a payload whose key is in use. */
  ghost predicate SomeTakeDisplaces(capacity: nat, s: Server, es: seq<Event>)
    decreases |es|
  {
    es != [] &&
    ((es[0].TakeRequest? && s.queue != [] && s.queue[0].payload != None && KeyOf(s.queue[0]) in s.pending)
     || SomeTakeDisplaces(capacity, Step(capacity, s, es[0]), es[1..]))
  }

  lemma {:induction false} DisplacedGrows(capacity: nat, s: Server, es: seq<Event>)
    ensures s.displaced <= Run(capacity, s, es).displaced
    decreases |es|
  {
    if es != [] {
      DisplacedGrows(capacity, Step(capacity, s, es[0]), es[1..]);
    }
  }

  /** Over every run something is displaced if and only if such a take occurs. */
  lemma {:induction false} DisplacedIff(capacity: nat, s: Server, es: seq<Event>)
    ensures Run(capacity, s, es).displaced == s.displaced <==> !SomeTakeDisplaces(capacity, s, es)
    decreases |es|
  {
    if es != [] {
      var t := Step(capacity, s, es[0]);
      DisplacedIff(capacity, t, es[1..]);
      DisplacedGrows(capacity, t, es[1..]);
    }
  }

  /** Two queries without attachments share the placeholder key: the second displaces the first. */
  lemma PlaceholdersCollide(p: Query, q: Query)
    requires p.payload != None && q.payload != None && p.attachment.Missing? && q.attachment.Missing?
    ensures Take(Take(IDLE.(queue := [p, q]))).displaced == [p]
    ensures Take(Take(IDLE.(queue := [p, q]))).pending == map[PLACEHOLDER := q]
  {
    var t := Take(IDLE.(queue := [p, q]));
    assert t == IDLE.(queue := [q], pending := map[PLACEHOLDER := p]);
  }

  /** `e` takes a query with key `k` from `s`, or responds under `k`. */
  predicate Touches(s: Server, e: Event, k: QueryKey) {
    || (e.TakeRequest? && s.queue != [] && s.queue[0].payload != None && KeyOf(s.queue[0]) == k)
    || (e.SendResponse? && e.key == k)
  }

  ghost predicate SomeTouches(capacity: nat, s: Server, es: seq<Event>, k: QueryKey)
    decreases |es|
  {
    es != [] && (Touches(s, es[0], k) || SomeTouches(capacity, Step(capacity, s, es[0]), es[1..], k))
  }

  lemma QueueStaysClear(capacity: nat, s: Server, e: Event, q: Query)
    requires Count(s.queue, q) == 0 && e != QueryArrives(q)
    ensures Count(Step(capacity, s, e).queue, q) == 0
    ensures s.queue != [] ==> s.queue[0] != q
  {
    if s.queue != [] {
      CountHead(s.queue, q);
    }
    if e.QueryArrives? {
      CountSnoc(s.queue, e.q, q);
      if s.queue != [] {
        CountSnoc(s.queue[1..], e.q, q);
      }
    }
  }

  lemma StaysGone(capacity: nat, s: Server, e: Event, q: Query)
    requires (s.queue != [] ==> s.queue[0] != q) && !IsPending(s, q)
    ensures !IsPending(Step(capacity, s, e), q)
  {
  }

  /** A query that is neither waiting nor pending, and does not arrive again, stays away. */
  lemma {:induction false} GoneIsGone(capacity: nat, s: Server, es: seq<Event>, q: Query)
    requires Count(s.queue, q) == 0 && !IsPending(s, q) && Count(Arrivals(es), q) == 0
    ensures !IsPending(Run(capacity, s, es), q)
    decreases |es|
  {
    if es != [] {
      ArrivalsHead(es, q);
      QueueStaysClear(capacity, s, es[0], q);
      StaysGone(capacity, s, es[0], q);
      var t := Step(capacity, s, es[0]);
      GoneIsGone(capacity, t, es[1..], q);
    }
  }

  lemma TouchEnds(capacity: nat, s: Server, e: Event, q: Query)
    requires (s.queue != [] ==> s.queue[0] != q) && IsPending(s, q)
    ensures IsPending(Step(capacity, s, e), q) <==> !Touches(s, e, KeyOf(q))
  {
  }

  /** The pending query `q` is still the one that a response under its key reaches after `es` if and
      only if nothing in `es` touched that key. Hence a reply goes to the query whose header is
      handed back, and only the first response to a header replies. */
  lemma {:induction false} HeaderReachesItsQueryIff(capacity: nat, s: Server, es: seq<Event>, q: Query)
    requires IsPending(s, q) && Count(s.queue, q) == 0 && Count(Arrivals(es), q) == 0
    ensures IsPending(Run(capacity, s, es), q) <==> !SomeTouches(capacity, s, es, KeyOf(q))
    decreases |es|
  {
    if es != [] {
      ArrivalsHead(es, q);
      QueueStaysClear(capacity, s, es[0], q);
      TouchEnds(capacity, s, es[0], q);
      if Touches(s, es[0], KeyOf(q)) {
        GoneIsGone(capacity, Step(capacity, s, es[0]), es[1..], q);
      } else {
        HeaderReachesItsQueryIff(capacity, Step(capacity, s, es[0]), es[1..], q);
      }
    }
  }

  /** If a query arrives once, it is replied to at most once, and never after its reply failed to be
      transmitted: the failed response already removed it from the map. */
  lemma FailedReplyIsFinal(capacity: nat, es: seq<Event>, q: Query)
    requires Count(Arrivals(es), q) == 1
    ensures var r := Run(capacity, IDLE, es);
            && Count(r.replied, q) + Count(r.unreplied, q) <= 1
            && (Count(r.unreplied, q) > 0 ==>
                  Count(r.replied, q) == 0 && !IsPending(r, q) && Count(r.queue, q) == 0)
  {
    EveryQueryIsAccountedFor(capacity, IDLE, es, q);
  }

  // ---- The server object ----

  /** The header a caller provides for a request. */
  class RequestHeader {
    var sequenceNumber: int
    const writerGuid: array<byte>
    var sourceTimestamp: int
    var receivedTimestamp: int

    ghost predicate Valid() {
      writerGuid.Length == 16
    }

    function Key(): QueryKey
      requires writerGuid.Length == 16
      reads this, writerGuid
    {
      QueryKey(sequenceNumber, writerGuid[..])
    }

    constructor ()
      ensures Valid() && fresh(writerGuid)
    {
      writerGuid := new byte[16](_ => 0);
      sequenceNumber, sourceTimestamp, receivedTimestamp := 0, 0, 0;
    }

    /** What taking a request leaves here; the gid is copied byte by byte. */
    method Fill(key: QueryKey, source: int, received: int)
      requires Valid()
      modifies this, writerGuid
      ensures Key() == key && sourceTimestamp == source && receivedTimestamp == received
    {
      sequenceNumber := key.sn;
      for i := 0 to |key.gid|
        invariant writerGuid[..i] == key.gid[..i]
        modifies writerGuid
      {
        if i < 16 {
          writerGuid[i] := key.gid[i];
        }
      }
      assert writerGuid[..16] == writerGuid[..] == key.gid[..16] == key.gid;
      sourceTimestamp := source;
      receivedTimestamp := received;
    }
  }

  class ServiceImpl {
    /** Null when the server was built with a callback. */
    const queue: Queues.BoundedQueue?<Query>
    var pending: map<QueryKey, Query>
    ghost var log: Server

    ghost predicate Valid()
      reads this, queue
    {
      && log.pending == pending && Keyed(log)
      && (if queue == null then log.queue == [] else queue.Valid() && log.queue == queue.data)
    }

    function Capacity(): nat {
      if queue == null then 0 else queue.capacity
    }

    constructor (queue: Queues.BoundedQueue?<Query>)
      requires queue != null ==> queue.Valid() && queue.data == []
      ensures Valid() && this.queue == queue && log == IDLE
    {
      this.queue := queue;
      pending := map[];
      log := IDLE;
    }

    /** The transport delivers a query to the queue. */
    method QueryArrives(q: Query)
      requires Valid() && queue != null
      modifies this, queue
      ensures Valid() && log == Step(Capacity(), old(log), Event.QueryArrives(q))
    {
      var dropped := queue.Push(q);
      log := Step(queue.capacity, log, Event.QueryArrives(q));
    }

    /** `request` is the payload handed to the decoder, if any. A query without payload is used up
        although nothing is reported as taken. The result is Ok in every case. */
    method TakeRequest(header: RequestHeader?, now: int)
      returns (status: Status, taken: bool, request: Option<seq<byte>>)
      requires Valid() && (header != null ==> header.Valid())
      modifies this, queue, header, if header == null then null else header.writerGuid
      ensures Valid() && status == Ok
      ensures log == Step(Capacity(), old(log), Event.TakeRequest)
      ensures taken <==> old(log.queue) != [] && old(log.queue)[0].payload != None
      ensures request == if taken then old(log.queue)[0].payload else None
      ensures pending == var q := old(log.queue);
                         if taken then old(pending)[KeyOf(q[0]) := q[0]] else old(pending)
      ensures taken && header != null ==>
                var a := old(log.queue)[0].attachment;
                && header.Key() == KeyOf(old(log.queue)[0])
                && header.sequenceNumber == (if a.Parsed? then a.attachment.sequenceNumber else 0)
                && header.writerGuid[..] == (if a.Parsed? then a.attachment.sourceGid else seq(16, _ => 0))
                && header.sourceTimestamp == (if a.Parsed? then a.attachment.sourceTimestamp else 0)
                && header.receivedTimestamp == now
      ensures !taken && header != null ==> unchanged(header) && unchanged(header.writerGuid)
    {
      status, taken, request := Ok, false, None;
      if queue == null {
        return;
      }
      log := Step(queue.capacity, log, Event.TakeRequest);
      var received := queue.TryRecv();
      if received == None {
        return;
      }
      var query := received.value;
      if query.payload == None {
        return;
      }
      var key := if query.attachment.Parsed?
                 then QueryKey(query.attachment.attachment.sequenceNumber,
                               query.attachment.attachment.sourceGid)
                 else PLACEHOLDER;
      var sourceTimestamp :=
        if query.attachment.Parsed? then query.attachment.attachment.sourceTimestamp else 0;
      pending := pending[key := query];
      request := query.payload;
      if header != null {
        header.Fill(key, sourceTimestamp, now);
      }
      taken := true;
    }

    /** `delivered` tells whether the transport accepts the reply. The entry leaves the map first. */
    method SendResponse(header: RequestHeader, delivered: bool) returns (status: Status)
      requires Valid() && header.Valid()
      modifies this`pending, this`log
      ensures Valid() && log == Step(Capacity(), old(log), Event.SendResponse(header.Key(), delivered))
      ensures status == Ok <==> header.Key() in old(pending) && delivered
      ensures pending == old(pending) - {header.Key()}
      ensures log.replied
              == old(log.replied) + if status == Ok then [old(pending)[header.Key()]] else []
    {
      var gid := header.writerGuid[..];
      var key := QueryKey(header.sequenceNumber, gid);
      log := Step(Capacity(), log, Event.SendResponse(key, delivered));
      if key in pending {
        pending := pending - {key};
        status := if delivered then Ok else Err;
      } else {
        status := Err;
      }
    }
  }
}
