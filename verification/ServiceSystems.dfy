/** A client and its servers together: from drawing a sequence number to taking the responses.

    One client, with gid `g`, is followed through a network that may delay, reorder and lose
    messages. Each request goes to every server (crates/ros-z/src/service.rs:85-91), and each server
    may answer it. Everybody else is free to send the servers anything not stamped with `g`. */
module ServiceSystems {
  import opened Common
  import opened Servers
  import Ids = RequestIds

  /** A server and what is on its way between it and the client: requests and replies in transit, and
      those lost. A reply is represented by the query it answers; its header is that query's key. */
  datatype Lane = Lane(network: seq<Query>, lost: seq<Query>, server: Server, replies: seq<Query>,
                       lostReplies: seq<Query>)

  const EMPTY_LANE := Lane([], [], IDLE, [], [])

  datatype Response = Response(server: nat, query: Query)

  /** The bounded response channel, what it dropped because it was full, and what was taken from it. */
  datatype Channel = Channel(rx: seq<Response>, dropped: seq<Response>, taken: seq<Response>)

  /** `sent` are the requests that the client transmitted. */
  datatype System = System(ids: Ids.State, sent: seq<Query>, lanes: seq<Lane>, channel: Channel)

  datatype LaneEvent =
    | QueryDelivered(j: nat)
    | QueryLost(j: nat)
    | ForeignQuery(q: Query)
    | TakeRequest
    | SendResponse(key: QueryKey, delivered: bool)
    | ReplyLost(j: nat)

  datatype Event =
    | Draw
    | Send(i: nat, ok: bool, payload: seq<byte>, timestamp: int)
    | AtServer(k: nat, e: LaneEvent)
    | ReplyDelivered(k: nat, j: nat)
    | TakeResponse

  /** The client's gid, the capacity of each server's queue and that of the response channel. */
  datatype Config = Config(g: Gid, queueCapacities: seq<nat>, rxCapacity: nat)

  function Start(c: Config): System {
    System(Ids.INITIAL, [], seq(|c.queueCapacities|, _ => EMPTY_LANE), Channel([], [], []))
  }

  predicate Own(g: Gid, q: Query) {
    KeyOf(q).gid == g
  }

  predicate LaneEnabled(g: Gid, l: Lane, e: LaneEvent) {
    match e
    case QueryDelivered(j) => j < |l.network|
    case QueryLost(j) => j < |l.network|
    case ForeignQuery(q) => !Own(g, q)
    case ReplyLost(j) => j < |l.replies|
    case _ => true
  }

  predicate Enabled(c: Config, s: System, e: Event) {
    |s.lanes| == |c.queueCapacities| &&
    match e
    case Draw => true
    case Send(i, _, _, _) => i < |s.ids.inFlight|
    case AtServer(k, e) => k < |s.lanes| && LaneEnabled(c.g, s.lanes[k], e)
    case ReplyDelivered(k, j) => k < |s.lanes| && j < |s.lanes[k].replies|
    case TakeResponse => s.channel.rx != []
  }

  /** The request that the next send transmits. */
  function NextRequest(c: Config, s: System, payload: seq<byte>, timestamp: int): Query {
    Query(|s.ids.done| + 1, Some(payload),
          Parsed(Attachment(AsI64(s.ids.inner), timestamp, c.g)))
  }

  /** Every server is sent the request. */
  function Broadcast(lanes: seq<Lane>, q: Query): (r: seq<Lane>)
    ensures |r| == |lanes|
    ensures forall k :: 0 <= k < |r| ==> r[k] == lanes[k].(network := lanes[k].network + [q])
  {
    seq(|lanes|, k requires 0 <= k < |lanes| => lanes[k].(network := lanes[k].network + [q]))
  }

  function LaneStep(g: Gid, capacity: nat, l: Lane, e: LaneEvent): Lane
    requires LaneEnabled(g, l, e)
  {
    match e
    case QueryDelivered(j) =>
      l.(network := Ids.Without(l.network, j), server := Arrive(capacity, l.server, l.network[j]))
    case QueryLost(j) => l.(network := Ids.Without(l.network, j), lost := l.lost + [l.network[j]])
    case ForeignQuery(q) => l.(server := Arrive(capacity, l.server, q))
    case TakeRequest => l.(server := Take(l.server))
    case SendResponse(key, delivered) =>
      var ours := key in l.server.pending && delivered && Own(g, l.server.pending[key]);
      l.(server := Respond(l.server, key, delivered),
         replies := if ours then l.replies + [l.server.pending[key]] else l.replies)
    case ReplyLost(j) =>
      l.(replies := Ids.Without(l.replies, j), lostReplies := l.lostReplies + [l.replies[j]])
  }

  /** The response channel refuses what it has no room for. */
  function Offer(capacity: nat, c: Channel, r: Response): Channel {
    if |c.rx| < capacity then c.(rx := c.rx + [r]) else c.(dropped := c.dropped + [r])
  }

  function Step(c: Config, s: System, e: Event): System
    requires Enabled(c, s, e)
  {
    match e
    case Draw => s.(ids := Ids.Step(s.ids, Ids.Draw))
    case Send(i, ok, payload, timestamp) =>
      var q := NextRequest(c, s, payload, timestamp);
      var t := s.(ids := Ids.Step(s.ids, Ids.Send(i, ok)));
      if ok then t.(sent := s.sent + [q], lanes := Broadcast(s.lanes, q)) else t
    case AtServer(k, e) => s.(lanes := s.lanes[k := LaneStep(c.g, c.queueCapacities[k], s.lanes[k], e)])
    case ReplyDelivered(k, j) =>
      var l := s.lanes[k];
      s.(lanes := s.lanes[k := l.(replies := Ids.Without(l.replies, j))],
         channel := Offer(c.rxCapacity, s.channel, Response(k, l.replies[j])))
    case TakeResponse =>
      s.(channel := s.channel.(rx := s.channel.rx[1..], taken := s.channel.taken + [s.channel.rx[0]]))
  }

  ghost predicate Possible(c: Config, s: System, es: seq<Event>)
    decreases |es|
  {
    es == [] || (Enabled(c, s, es[0]) && Possible(c, Step(c, s, es[0]), es[1..]))
  }

  ghost function Run(c: Config, s: System, es: seq<Event>): System
    requires Possible(c, s, es)
    decreases |es|
  {
    if es == [] then s else Run(c, Step(c, s, es[0]), es[1..])
  }

  /** The client's own counter steps within a run. */
  function IdEvents(es: seq<Event>): seq<Ids.Event> {
    if es == [] then []
    else
      match es[0]
      case Draw => [Ids.Draw] + IdEvents(es[1..])
      case Send(i, ok, _, _) => [Ids.Send(i, ok)] + IdEvents(es[1..])
      case _ => IdEvents(es[1..])
  }

  // ---- Where the client's messages are ----

  /** How often `r` was offered to the channel. */
  function Offered(c: Channel, r: Response): nat {
    Count(c.rx, r) + Count(c.dropped, r) + Count(c.taken, r)
  }

  /** Nothing appears or disappears between the client and a server: the request `q` is as often in
      transit, lost or at the server as it was sent, and so are the replies to it. */
  ghost predicate RequestFlows(sent: seq<Query>, l: Lane, q: Query) {
    Count(sent, q) == Count(l.network, q) + Count(l.lost, q) + Tally(l.server, q)
  }

  ghost predicate ReplyFlows(l: Lane, offered: nat, q: Query) {
    Count(l.server.replied, q) == Count(l.replies, q) + Count(l.lostReplies, q) + offered
  }

  ghost predicate Flows(s: System, k: nat, q: Query)
    requires k < |s.lanes|
  {
    RequestFlows(s.sent, s.lanes[k], q) && ReplyFlows(s.lanes[k], Offered(s.channel, Response(k, q)), q)
  }

  lemma CountWithout<T>(qs: seq<T>, j: nat, q: T)
    requires j < |qs|
    ensures Count(qs, q) == Count(Ids.Without(qs, j), q) + if qs[j] == q then 1 else 0
  {
    Ids.WithoutMultiset(qs, j);
  }

  lemma CountIn<T>(qs: seq<T>, q: T)
    ensures Count(qs, q) > 0 <==> q in qs
  {
    assert q in qs <==> q in multiset(qs);
  }

  lemma CountTwice<T>(qs: seq<T>, i: nat, j: nat)
    requires i < j < |qs| && qs[i] == qs[j]
    ensures Count(qs, qs[i]) >= 2
  {
    if Count(qs, qs[j]) <= 1 {
      Ids.DistinctFromMultiset(qs, i, j);
    }
  }

  lemma ArriveTallies(capacity: nat, s: Server, p: Query, q: Query)
    ensures Tally(Arrive(capacity, s, p), q) == Tally(s, q) + if p == q then 1 else 0
    ensures Arrive(capacity, s, p).replied == s.replied
  {
    ArriveConserves(capacity, s, p, q);
  }

  lemma TransitFlows(g: Gid, capacity: nat, l: Lane, e: LaneEvent, sent: seq<Query>, offered: nat, q: Query)
    requires LaneEnabled(g, l, e) && (e.QueryDelivered? || e.QueryLost? || e.ReplyLost?)
    requires RequestFlows(sent, l, q) && ReplyFlows(l, offered, q)
    ensures RequestFlows(sent, LaneStep(g, capacity, l, e), q)
    ensures ReplyFlows(LaneStep(g, capacity, l, e), offered, q)
  {
    match e
    case QueryDelivered(j) =>
      CountWithout(l.network, j, q);
      ArriveTallies(capacity, l.server, l.network[j], q);
    case QueryLost(j) =>
      CountWithout(l.network, j, q);
      CountSnoc(l.lost, l.network[j], q);
    case ReplyLost(j) =>
      CountWithout(l.replies, j, q);
      CountSnoc(l.lostReplies, l.replies[j], q);
  }

  lemma ServerFlows(g: Gid, capacity: nat, l: Lane, e: LaneEvent, sent: seq<Query>, offered: nat, q: Query)
    requires LaneEnabled(g, l, e) && (e.ForeignQuery? || e.TakeRequest? || e.SendResponse?)
    requires Keyed(l.server) && Own(g, q) && RequestFlows(sent, l, q) && ReplyFlows(l, offered, q)
    ensures RequestFlows(sent, LaneStep(g, capacity, l, e), q)
    ensures ReplyFlows(LaneStep(g, capacity, l, e), offered, q)
  {
    match e
    case ForeignQuery(p) => ArriveTallies(capacity, l.server, p, q);
    case TakeRequest => TakeConserves(l.server, q);
    case SendResponse(key, delivered) =>
      RespondConserves(l.server, key, delivered, q);
      if key in l.server.pending && delivered {
        CountSnoc(l.server.replied, l.server.pending[key], q);
        CountSnoc(l.replies, l.server.pending[key], q);
      }
  }

  lemma OfferCounts(capacity: nat, c: Channel, r: Response, x: Response)
    ensures Offered(Offer(capacity, c, r), x) == Offered(c, x) + if r == x then 1 else 0
  {
    CountSnoc(c.rx, r, x);
    CountSnoc(c.dropped, r, x);
  }

  lemma ReplyDeliveredFlows(c: Config, s: System, k: nat, j: nat, m: nat, q: Query)
    requires Enabled(c, s, ReplyDelivered(k, j)) && m < |s.lanes| && Flows(s, m, q)
    ensures Flows(Step(c, s, ReplyDelivered(k, j)), m, q)
  {
    var l := s.lanes[k];
    OfferCounts(c.rxCapacity, s.channel, Response(k, l.replies[j]), Response(m, q));
    CountWithout(l.replies, j, q);
  }

  lemma SendFlows(c: Config, s: System, e: Event, m: nat, q: Query)
    requires e.Send? && Enabled(c, s, e) && m < |s.lanes| && Flows(s, m, q)
    ensures Flows(Step(c, s, e), m, q)
  {
    var p := NextRequest(c, s, e.payload, e.timestamp);
    CountSnoc(s.sent, p, q);
    CountSnoc(s.lanes[m].network, p, q);
  }

  lemma AtServerFlows(c: Config, s: System, k: nat, e: LaneEvent, m: nat, q: Query)
    requires Enabled(c, s, AtServer(k, e)) && m < |s.lanes| && Flows(s, m, q)
    requires Keyed(s.lanes[k].server) && Own(c.g, q)
    ensures Flows(Step(c, s, AtServer(k, e)), m, q)
  {
    if m == k {
      var offered := Offered(s.channel, Response(k, q));
      if e.QueryDelivered? || e.QueryLost? || e.ReplyLost? {
        TransitFlows(c.g, c.queueCapacities[k], s.lanes[k], e, s.sent, offered, q);
      } else {
        ServerFlows(c.g, c.queueCapacities[k], s.lanes[k], e, s.sent, offered, q);
      }
    }
  }

  lemma TakeResponseFlows(c: Config, s: System, m: nat, q: Query)
    requires Enabled(c, s, TakeResponse) && m < |s.lanes| && Flows(s, m, q)
    ensures Flows(Step(c, s, TakeResponse), m, q)
  {
    CountHead(s.channel.rx, Response(m, q));
    CountSnoc(s.channel.taken, s.channel.rx[0], Response(m, q));
  }

  /** Every step keeps each own request, and each reply to it, in exactly one place per server. */
  lemma StepFlows(c: Config, s: System, e: Event, m: nat, q: Query)
    requires Enabled(c, s, e) && m < |s.lanes| && Own(c.g, q) && Flows(s, m, q)
    requires forall k :: 0 <= k < |s.lanes| ==> Keyed(s.lanes[k].server)
    ensures Flows(Step(c, s, e), m, q)
  {
    match e
    case Draw =>
    case Send(_, _, _, _) => SendFlows(c, s, e, m, q);
    case AtServer(k, e) => AtServerFlows(c, s, k, e, m, q);
    case ReplyDelivered(k, j) => ReplyDeliveredFlows(c, s, k, j, m, q);
    case TakeResponse => TakeResponseFlows(c, s, m, q);
  }

  // ---- Requests are told apart by their keys ----

  /** Requests are stamped with the number of the send that transmitted them. */
  ghost predicate Numbered(g: Gid, s: System) {
    && s.ids.inner == (|s.ids.done| + 1) % WORD
    && (forall k :: 0 <= k < |s.ids.done| ==> s.ids.done[k].carried == AsI64(k + 1))
    && (forall i :: 0 <= i < |s.sent| ==> Stamped(g, s, s.sent[i]))
    && (forall i, j :: 0 <= i < j < |s.sent| ==> s.sent[i].id < s.sent[j].id)
  }

  /** `q` was transmitted by the successful send number `q.id` and carries its number. */
  predicate Stamped(g: Gid, s: System, q: Query) {
    && 1 <= q.id <= |s.ids.done| && s.ids.done[q.id - 1].ok
    && KeyOf(q) == QueryKey(AsI64(q.id), g)
  }

  lemma StepNumbers(c: Config, s: System, e: Event)
    requires Enabled(c, s, e) && Numbered(c.g, s)
    ensures Numbered(c.g, Step(c, s, e))
  {
    var t := Step(c, s, e);
    if e.Send? {
      Ids.AsI64Successor(|s.ids.done| + 1);
      Ids.CounterDistance(|s.ids.done| + 1, |s.ids.done| + 1);
      forall i | 0 <= i < |s.sent|
        ensures Stamped(c.g, t, s.sent[i]) && t.sent[i] == s.sent[i]
      {
        assert Stamped(c.g, s, s.sent[i]);
      }
    } else {
      assert t.sent == s.sent && t.ids.done == s.ids.done;
      assert forall i :: 0 <= i < |s.sent| ==> Stamped(c.g, s, s.sent[i]);
    }
  }

  lemma {:induction false} SentOnce(qs: seq<Query>, q: Query)
    requires forall i, j :: 0 <= i < j < |qs| ==> qs[i].id < qs[j].id
    ensures Count(qs, q) <= 1
  {
    if qs != [] {
      var front, last := qs[..|qs| - 1], qs[|qs| - 1];
      SentOnce(front, q);
      CountIn(front, q);
      assert qs == front + [last];
      CountSnoc(front, last, q);
    }
  }

  /** Two transmitted requests with the same key are the same request. */
  lemma SameKeySameRequest(g: Gid, s: System, p: Query, q: Query)
    requires Numbered(g, s) && |s.ids.done| <= WORD
    requires Count(s.sent, p) > 0 && Count(s.sent, q) > 0 && KeyOf(p) == KeyOf(q)
    ensures p == q
  {
    CountIn(s.sent, p);
    CountIn(s.sent, q);
    var i :| 0 <= i < |s.sent| && s.sent[i] == p;
    var j :| 0 <= j < |s.sent| && s.sent[j] == q;
    assert Stamped(g, s, s.sent[i]) && Stamped(g, s, s.sent[j]);
    Ids.AsI64Collides(p.id, q.id);
    Ids.SmallMultiple(p.id - q.id);
  }

  ghost predicate LaneSound(c: Config, s: System, k: nat)
    requires k < |s.lanes|
  {
    && Keyed(s.lanes[k].server)
    && forall q :: Own(c.g, q) ==> Flows(s, k, q) && Count(s.lanes[k].server.displaced, q) == 0
  }

  ghost predicate Sound(c: Config, s: System) {
    && |s.lanes| == |c.queueCapacities| && Numbered(c.g, s)
    && forall k :: 0 <= k < |s.lanes| ==> LaneSound(c, s, k)
  }

  /** An own request at the head of a server's queue never finds its key in use. */
  lemma OwnKeyIsFree(c: Config, s: System, k: nat)
    requires Numbered(c.g, s) && |s.ids.done| <= WORD && k < |s.lanes| && LaneSound(c, s, k)
    requires s.lanes[k].server.queue != [] && KeyOf(s.lanes[k].server.queue[0]).gid == c.g
    ensures KeyOf(s.lanes[k].server.queue[0]) !in s.lanes[k].server.pending
  {
    var server := s.lanes[k].server;
    var q := server.queue[0];
    if KeyOf(q) in server.pending {
      var p := server.pending[KeyOf(q)];
      assert Own(c.g, q) && Own(c.g, p);
      CountHead(server.queue, q);
      assert Flows(s, k, q) && Flows(s, k, p);
      SameKeySameRequest(c.g, s, p, q);
      SentOnce(s.sent, q);
      assert false;
    }
  }

  lemma StepDisplacesNoOwn(c: Config, s: System, e: Event, m: nat, q: Query)
    requires Sound(c, s) && Enabled(c, s, e) && |s.ids.done| <= WORD && m < |s.lanes| && Own(c.g, q)
    ensures Count(Step(c, s, e).lanes[m].server.displaced, q) == 0
  {
    assert LaneSound(c, s, m);
    var server := s.lanes[m].server;
    if e == AtServer(m, LaneEvent.TakeRequest) && server.queue != [] {
      var k := KeyOf(server.queue[0]);
      if k.gid == c.g {
        OwnKeyIsFree(c, s, m);
      } else if k in server.pending {
        CountSnoc(server.displaced, server.pending[k], q);
      }
    }
  }

  lemma StepStaysKeyed(c: Config, s: System, e: Event, m: nat)
    requires Enabled(c, s, e) && m < |s.lanes| && Keyed(s.lanes[m].server)
    ensures |Step(c, s, e).lanes| == |s.lanes| && Keyed(Step(c, s, e).lanes[m].server)
  {
  }

  lemma StepIsSound(c: Config, s: System, e: Event)
    requires Sound(c, s) && Enabled(c, s, e) && |s.ids.done| <= WORD
    ensures Sound(c, Step(c, s, e))
  {
    var t := Step(c, s, e);
    StepNumbers(c, s, e);
    forall k | 0 <= k < |s.lanes|
      ensures Keyed(s.lanes[k].server)
    {
      assert LaneSound(c, s, k);
    }
    forall m | 0 <= m < |t.lanes|
      ensures LaneSound(c, t, m)
    {
      StepStaysKeyed(c, s, e, m);
      forall q | Own(c.g, q)
        ensures Flows(t, m, q) && Count(t.lanes[m].server.displaced, q) == 0
      {
        assert LaneSound(c, s, m);
        StepFlows(c, s, e, m, q);
        StepDisplacesNoOwn(c, s, e, m, q);
      }
    }
  }

  // ---- Whole runs ----

  lemma StepCounts(c: Config, s: System, e: Event)
    requires Enabled(c, s, e)
    ensures Step(c, s, e).ids ==
              match e
              case Draw => Ids.Step(s.ids, Ids.Draw)
              case Send(i, ok, _, _) => Ids.Step(s.ids, Ids.Send(i, ok))
              case _ => s.ids
  {
  }

  /** The client's counters run on their own. */
  lemma {:induction false} RunCounts(c: Config, s: System, es: seq<Event>)
    requires Possible(c, s, es)
    ensures Ids.Possible(|s.ids.inFlight|, IdEvents(es))
    ensures Run(c, s, es).ids == Ids.Run(s.ids, IdEvents(es))
    decreases |es|
  {
    if es != [] {
      var ids, t := IdEvents(es), Step(c, s, es[0]);
      StepCounts(c, s, es[0]);
      RunCounts(c, t, es[1..]);
      if es[0].Draw? || es[0].Send? {
        assert ids[1..] == IdEvents(es[1..]);
        assert Ids.Run(s.ids, ids) == Ids.Run(t.ids, ids[1..]);
      }
    }
  }

  lemma {:induction false} RunStaysSound(c: Config, s: System, es: seq<Event>)
    requires Sound(c, s) && Possible(c, s, es)
    requires |s.ids.inFlight| + |s.ids.done| + Ids.Draws(IdEvents(es)) <= WORD
    ensures Sound(c, Run(c, s, es)) && |Run(c, s, es).ids.done| <= WORD
    decreases |es|
  {
    if es != [] {
      StepIsSound(c, s, es[0]);
      var ids := IdEvents(es);
      if es[0].Draw? || es[0].Send? {
        assert ids[1..] == IdEvents(es[1..]);
      }
      RunStaysSound(c, Step(c, s, es[0]), es[1..]);
    }
  }

  lemma RunIsSound(c: Config, es: seq<Event>)
    requires Possible(c, Start(c), es) && Ids.Draws(IdEvents(es)) <= WORD
    ensures Sound(c, Run(c, Start(c), es)) && |Run(c, Start(c), es).ids.done| <= WORD
    ensures Ids.Possible(0, IdEvents(es))
    ensures Run(c, Start(c), es).ids == Ids.Run(Ids.INITIAL, IdEvents(es))
  {
    assert forall k :: 0 <= k < |Start(c).lanes| ==> Start(c).lanes[k] == EMPTY_LANE;
    RunCounts(c, Start(c), es);
    RunStaysSound(c, Start(c), es);
  }

  predicate RepliesToOwn(g: Gid, l: Lane) {
    forall q :: q in l.replies ==> Own(g, q)
  }

  lemma LaneStepRepliesToOwn(g: Gid, capacity: nat, l: Lane, e: LaneEvent)
    requires LaneEnabled(g, l, e) && RepliesToOwn(g, l)
    ensures RepliesToOwn(g, LaneStep(g, capacity, l, e))
  {
  }

  // ---- Nothing is held back ----

  /** The replies of a run that are delivered while the channel has room, in order of delivery. */
  ghost function Entered(c: Config, s: System, es: seq<Event>): seq<Response>
    requires Possible(c, s, es)
    decreases |es|
  {
    if es == [] then []
    else
      (match es[0]
       case ReplyDelivered(k, j) =>
         if |s.channel.rx| < c.rxCapacity then [Response(k, s.lanes[k].replies[j])] else []
       case _ => [])
      + Entered(c, Step(c, s, es[0]), es[1..])
  }

  /** Some reply of the run is delivered while the channel is full. */
  ghost predicate SomeFindsItFull(c: Config, s: System, es: seq<Event>)
    requires Possible(c, s, es)
    decreases |es|
  {
    es != [] &&
    ((es[0].ReplyDelivered? && |s.channel.rx| >= c.rxCapacity)
     || SomeFindsItFull(c, Step(c, s, es[0]), es[1..]))
  }

  lemma StepEnters(c: Config, s: System, e: Event)
    requires Enabled(c, s, e)
    ensures var a, b := s.channel, Step(c, s, e).channel;
            && (b.taken + b.rx == a.taken + a.rx + Entered(c, s, [e]))
            && (|a.rx| <= c.rxCapacity ==> |b.rx| <= c.rxCapacity)
            && |b.dropped| == |a.dropped|
                              + if e.ReplyDelivered? && |a.rx| >= c.rxCapacity then 1 else 0
  {
    assert [e][1..] == [] && Possible(c, s, [e]);
    if e.TakeResponse? {
      assert s.channel.taken + s.channel.rx == s.channel.taken + [s.channel.rx[0]] + s.channel.rx[1..];
    }
  }

  /** Over every run: the responses taken and those waiting are, in order of delivery, exactly the
      replies that found room; the channel keeps its bound; and it dropped none if and only if none
      found it full. */
  lemma {:induction false} ChannelKeepsWhatFits(c: Config, s: System, es: seq<Event>)
    requires Possible(c, s, es) && |s.channel.rx| <= c.rxCapacity
    ensures var a, b := s.channel, Run(c, s, es).channel;
            && b.taken + b.rx == a.taken + a.rx + Entered(c, s, es)
            && |b.rx| <= c.rxCapacity && |b.dropped| >= |a.dropped|
            && (|b.dropped| == |a.dropped| <==> !SomeFindsItFull(c, s, es))
    decreases |es|
  {
    if es != [] {
      StepEnters(c, s, es[0]);
      assert [es[0]][1..] == [];
      ChannelKeepsWhatFits(c, Step(c, s, es[0]), es[1..]);
    }
  }

  /** The requests that the sends of a run transmit when `n` sends came before it: the successful
      ones, each with its number, payload and timestamp. */
  function Requests(g: Gid, n: nat, es: seq<Event>): seq<Query>
    decreases |es|
  {
    if es == [] then []
    else
      match es[0]
      case Send(_, ok, payload, timestamp) =>
        (if ok then [Query(n + 1, Some(payload), Parsed(Attachment(AsI64(n + 1), timestamp, g)))] else [])
        + Requests(g, n + 1, es[1..])
      case _ => Requests(g, n, es[1..])
  }

  lemma StepSends(c: Config, s: System, e: Event)
    requires Enabled(c, s, e) && s.ids.inner == (|s.ids.done| + 1) % WORD
    ensures Step(c, s, e).sent == s.sent + Requests(c.g, |s.ids.done|, [e])
    ensures var t := Step(c, s, e);
            && t.ids.inner == (|t.ids.done| + 1) % WORD
            && |t.ids.done| == |s.ids.done| + if e.Send? then 1 else 0
  {
    assert [e][1..] == [];
    Ids.AsI64Successor(|s.ids.done| + 1);
    Ids.CounterDistance(|s.ids.done| + 1, |s.ids.done| + 1);
  }

  /** Over every run the client transmits one request for every successful send, in order, numbered
      1, 2, ... by all sends and with the payload it was given; a failed send transmits none. */
  lemma {:induction false} EverySuccessIsSent(c: Config, s: System, es: seq<Event>)
    requires Possible(c, s, es) && s.ids.inner == (|s.ids.done| + 1) % WORD
    ensures Run(c, s, es).sent == s.sent + Requests(c.g, |s.ids.done|, es)
    decreases |es|
  {
    if es != [] {
      StepSends(c, s, es[0]);
      assert [es[0]][1..] == [];
      EverySuccessIsSent(c, Step(c, s, es[0]), es[1..]);
    }
  }

  /** How many messages of server `k` the network loses in a run. */
  function Losses(k: nat, es: seq<Event>): nat {
    if es == [] then 0
    else (if es[0].AtServer? && es[0].k == k && (es[0].e.QueryLost? || es[0].e.ReplyLost?) then 1 else 0)
         + Losses(k, es[1..])
  }

  function LostAt(s: System, k: nat): nat
    requires k < |s.lanes|
  {
    |s.lanes[k].lost| + |s.lanes[k].lostReplies|
  }

  lemma StepLoses(c: Config, s: System, e: Event, k: nat)
    requires Enabled(c, s, e) && k < |s.lanes|
    ensures |Step(c, s, e).lanes| == |s.lanes|
    ensures LostAt(Step(c, s, e), k) == LostAt(s, k) + Losses(k, [e])
  {
    assert [e][1..] == [];
  }

  /** Over every run only the network loses messages between the client and a server. */
  lemma {:induction false} OnlyTheNetworkLoses(c: Config, s: System, es: seq<Event>, k: nat)
    requires Possible(c, s, es) && k < |s.lanes|
    ensures |Run(c, s, es).lanes| == |s.lanes|
    ensures LostAt(Run(c, s, es), k) == LostAt(s, k) + Losses(k, es)
    decreases |es|
  {
    if es != [] {
      StepLoses(c, s, es[0], k);
      assert [es[0]][1..] == [];
      OnlyTheNetworkLoses(c, Step(c, s, es[0]), es[1..], k);
    }
  }

  /** The network may deliver or lose any message next, servers may take and answer whenever they like,
      and anybody else may send them any query that is not stamped with the client's gid. */
  lemma AnythingMayComeNext(c: Config, s: System, k: nat, j: nat, q: Query, key: QueryKey, ok: bool)
    requires |s.lanes| == |c.queueCapacities| && k < |s.lanes|
    ensures Possible(c, s, [Draw])
    ensures j < |s.ids.inFlight| ==> Possible(c, s, [Send(j, ok, [], 0)])
    ensures j < |s.lanes[k].network| ==>
              Possible(c, s, [AtServer(k, QueryDelivered(j))]) && Possible(c, s, [AtServer(k, QueryLost(j))])
    ensures j < |s.lanes[k].replies| ==>
              Possible(c, s, [ReplyDelivered(k, j)]) && Possible(c, s, [AtServer(k, ReplyLost(j))])
    ensures Possible(c, s, [AtServer(k, LaneEvent.TakeRequest)])
    ensures Possible(c, s, [AtServer(k, LaneEvent.SendResponse(key, ok))])
    ensures s.channel.rx != [] ==> Possible(c, s, [TakeResponse])
    ensures (if q.attachment.Parsed? then q.attachment.attachment.sourceGid else seq(16, _ => 0)) != c.g ==>
              Possible(c, s, [AtServer(k, ForeignQuery(q))])
  {
    assert q.attachment.Parsed? || KeyOf(q).gid == seq(16, _ => 0);
    forall e: Event | Enabled(c, s, e)
      ensures Possible(c, s, [e])
    {
      assert [e][1..] == [];
    }
  }

  /** What one event means to server `k` alone. */
  function AsServerEvent(s: System, k: nat, e: Event): Option<Servers.Event>
    requires k < |s.lanes| && (e.AtServer? && e.e.QueryDelivered? && e.k == k ==> e.e.j < |s.lanes[k].network|)
  {
    if !e.AtServer? || e.k != k then None
    else
      match e.e
      case QueryDelivered(j) => Some(Servers.Event.QueryArrives(s.lanes[k].network[j]))
      case ForeignQuery(q) => Some(Servers.Event.QueryArrives(q))
      case TakeRequest => Some(Servers.Event.TakeRequest)
      case SendResponse(key, delivered) => Some(Servers.Event.SendResponse(key, delivered))
      case _ => None
  }

  ghost function ServerEvents(c: Config, s: System, k: nat, es: seq<Event>): seq<Servers.Event>
    requires Possible(c, s, es) && k < |s.lanes|
    decreases |es|
  {
    if es == [] then []
    else
      (match AsServerEvent(s, k, es[0]) case Some(e) => [e] case None => [])
      + ServerEvents(c, Step(c, s, es[0]), k, es[1..])
  }

  lemma StepOfServer(c: Config, s: System, k: nat, e: Event)
    requires Enabled(c, s, e) && k < |s.lanes|
    ensures var t := Step(c, s, e);
            && |t.lanes| == |s.lanes|
            && t.lanes[k].server ==
                 match AsServerEvent(s, k, e)
                 case Some(x) => Servers.Step(c.queueCapacities[k], s.lanes[k].server, x)
                 case None => s.lanes[k].server
  {
  }

  /** Within every run of the system, each server goes through a run of the server machine: on the
      queries that reach it, its takes and its responses, in order. */
  lemma {:induction false} EachServerRuns(c: Config, s: System, k: nat, es: seq<Event>)
    requires Possible(c, s, es) && k < |s.lanes| == |c.queueCapacities|
    ensures |Run(c, s, es).lanes| == |s.lanes|
    ensures Run(c, s, es).lanes[k].server
            == Servers.Run(c.queueCapacities[k], s.lanes[k].server, ServerEvents(c, s, k, es))
    decreases |es|
  {
    if es != [] {
      StepOfServer(c, s, k, es[0]);
      var t := Step(c, s, es[0]);
      EachServerRuns(c, t, k, es[1..]);
      var rest := ServerEvents(c, t, k, es[1..]);
      match AsServerEvent(s, k, es[0])
      case Some(e) => assert ([e] + rest)[1..] == rest;
      case None => assert [] + rest == rest;
    }
  }

  lemma RunFirst(c: Config, s: System, e: Event, es: seq<Event>)
    requires Enabled(c, s, e) && Possible(c, Step(c, s, e), es)
    ensures Possible(c, s, [e] + es) && Run(c, s, [e] + es) == Run(c, Step(c, s, e), es)
  {
    assert ([e] + es)[1..] == es;
  }

  /** Answering the only pending request, delivering the reply and taking it. */
  function Answering(key: QueryKey): seq<Event> {
    [AtServer(0, LaneEvent.SendResponse(key, true))] + ([ReplyDelivered(0, 0)] + [TakeResponse])
  }

  lemma AnswerReturns(c: Config, s: System, q: Query)
    requires |s.lanes| == |c.queueCapacities| > 0 && c.rxCapacity > 0 && Own(c.g, q)
    requires s.lanes[0] == EMPTY_LANE.(server := IDLE.(pending := map[KeyOf(q) := q]))
    requires s.channel == Channel([], [], [])
    ensures Possible(c, s, Answering(KeyOf(q)))
    ensures var t := Run(c, s, Answering(KeyOf(q)));
            && t.channel.taken == [Response(0, q)] && t.ids == s.ids
            && |t.lanes| == |s.lanes| && t.lanes[0].server.replied == [q]
  {
    var e := AtServer(0, LaneEvent.SendResponse(KeyOf(q), true));
    var s1 := Step(c, s, e);
    assert s1.lanes[0] == EMPTY_LANE.(server := IDLE.(replied := [q]), replies := [q]);
    var s2 := Step(c, s1, ReplyDelivered(0, 0));
    assert s2.channel == Channel([Response(0, q)], [], []);
    assert [TakeResponse][1..] == [];
    RunFirst(c, s1, ReplyDelivered(0, 0), [TakeResponse]);
    RunFirst(c, s, e, [ReplyDelivered(0, 0)] + [TakeResponse]);
  }

  /** Sending a request, delivering it to the first server and taking it there. */
  function Asking(payload: seq<byte>, timestamp: int, rest: seq<Event>): seq<Event> {
    [Draw] + ([Send(0, true, payload, timestamp)] + ([AtServer(0, QueryDelivered(0))]
    + ([AtServer(0, LaneEvent.TakeRequest)] + rest)))
  }

  /** There is a run, wherever there is a server and room for a response, in which the request that
      the client sends is taken, answered, and its response taken by the client. */
  lemma ResponseComesBack(c: Config, payload: seq<byte>, timestamp: int)
    requires |c.queueCapacities| > 0 && c.rxCapacity > 0
    ensures var es := Asking(payload, timestamp, Answering(QueryKey(1, c.g)));
            var q := Query(1, Some(payload), Parsed(Attachment(1, timestamp, c.g)));
            && Possible(c, Start(c), es)
            && var s := Run(c, Start(c), es);
            && s.channel.taken == [Response(0, q)] && |s.lanes| > 0 && s.lanes[0].server.replied == [q]
            && s.ids.done == [Ids.Finished(1, 1, true)]
  {
    var q := Query(1, Some(payload), Parsed(Attachment(1, timestamp, c.g)));
    var send := Send(0, true, payload, timestamp);
    var s1 := Step(c, Start(c), Draw);
    var s2 := Step(c, s1, send);
    assert s2.lanes[0] == EMPTY_LANE.(network := [q]);
    var s3 := Step(c, s2, AtServer(0, QueryDelivered(0)));
    assert s3.lanes[0] == EMPTY_LANE.(server := IDLE.(queue := [q]));
    var s4 := Step(c, s3, AtServer(0, LaneEvent.TakeRequest));
    assert s4.lanes[0] == EMPTY_LANE.(server := IDLE.(pending := map[KeyOf(q) := q]));
    var rest := Answering(KeyOf(q));
    AnswerReturns(c, s4, q);
    RunFirst(c, s3, AtServer(0, LaneEvent.TakeRequest), rest);
    RunFirst(c, s2, AtServer(0, QueryDelivered(0)), [AtServer(0, LaneEvent.TakeRequest)] + rest);
    RunFirst(c, s1, send, [AtServer(0, QueryDelivered(0))] + ([AtServer(0, LaneEvent.TakeRequest)] + rest));
    RunFirst(c, Start(c), Draw, [send] + ([AtServer(0, QueryDelivered(0))]
                                          + ([AtServer(0, LaneEvent.TakeRequest)] + rest)));
  }

  /** What is on its way back to the client, or arrived, answers the client and comes from a server. */
  ghost predicate Addressed(c: Config, s: System) {
    && |s.lanes| == |c.queueCapacities|
    && (forall k :: 0 <= k < |s.lanes| ==> RepliesToOwn(c.g, s.lanes[k]))
    && (forall r :: r in s.channel.rx ==> r.server < |s.lanes| && Own(c.g, r.query))
    && (forall r :: r in s.channel.taken ==> r.server < |s.lanes| && Own(c.g, r.query))
  }

  lemma StepStaysAddressed(c: Config, s: System, e: Event)
    requires Addressed(c, s) && Enabled(c, s, e)
    ensures Addressed(c, Step(c, s, e))
  {
    if e.AtServer? {
      LaneStepRepliesToOwn(c.g, c.queueCapacities[e.k], s.lanes[e.k], e.e);
    } else if e.ReplyDelivered? {
      assert s.lanes[e.k].replies[e.j] in s.lanes[e.k].replies;
    }
  }

  lemma {:induction false} RunStaysAddressed(c: Config, s: System, es: seq<Event>)
    requires Addressed(c, s) && Possible(c, s, es)
    ensures Addressed(c, Run(c, s, es))
    decreases |es|
  {
    if es != [] {
      StepStaysAddressed(c, s, es[0]);
      RunStaysAddressed(c, Step(c, s, es[0]), es[1..]);
    }
  }

  /** A response that the client took answers a request that it sent, and is the only one to it from
      its server. */
  lemma TakenWasSent(c: Config, s: System, i: nat)
    requires Sound(c, s) && Addressed(c, s) && i < |s.channel.taken|
    ensures var r := s.channel.taken[i];
            && r.server < |s.lanes| && r.query in s.sent && Count(s.sent, r.query) > 0
            && Stamped(c.g, s, r.query) && Count(s.channel.taken, r) == 1
  {
    var r := s.channel.taken[i];
    var q := r.query;
    CountIn(s.channel.taken, r);
    assert LaneSound(c, s, r.server) && Flows(s, r.server, q);
    assert Count(s.channel.taken, r) <= Count(s.sent, q);
    CountIn(s.sent, q);
    SentOnce(s.sent, q);
    var j :| 0 <= j < |s.sent| && s.sent[j] == q;
    assert Stamped(c.g, s, s.sent[j]);
  }

  /** Two responses with one key that the client took come from different servers. */
  lemma OncePerServer(c: Config, s: System, i: nat, j: nat)
    requires Sound(c, s) && Addressed(c, s) && |s.ids.done| <= WORD && i < j < |s.channel.taken|
    requires KeyOf(s.channel.taken[i].query) == KeyOf(s.channel.taken[j].query)
    ensures s.channel.taken[i].server != s.channel.taken[j].server
    ensures s.channel.taken[i].query == s.channel.taken[j].query
  {
    TakenWasSent(c, s, i);
    TakenWasSent(c, s, j);
    SameKeySameRequest(c.g, s, s.channel.taken[i].query, s.channel.taken[j].query);
    if s.channel.taken[i] == s.channel.taken[j] {
      CountTwice(s.channel.taken, i, j);
      assert false;
    }
  }

  /** Over every run of up to 2^64 calls and with any number of servers: no request of the client is
      displaced from a server's map; every response the client takes carries the number of exactly one
      of its own successful requests; and it takes at most one response per request and server. */
  lemma ResponsesMatchRequests(c: Config, es: seq<Event>)
    requires Possible(c, Start(c), es) && Ids.Draws(IdEvents(es)) <= WORD
    ensures var s := Run(c, Start(c), es);
            && |s.lanes| == |c.queueCapacities|
            && (forall k, q :: 0 <= k < |s.lanes| && Own(c.g, q) ==>
                  Count(s.lanes[k].server.displaced, q) == 0)
            && (forall i :: 0 <= i < |s.channel.taken| ==>
                  var r := s.channel.taken[i];
                  && r.server < |s.lanes| && r.query in s.sent && Stamped(c.g, s, r.query)
                  && s.ids.done[r.query.id - 1].carried == KeyOf(r.query).sn)
            && (forall i, j :: 0 <= i < j < |s.channel.taken| ==>
                  || s.channel.taken[i].server != s.channel.taken[j].server
                  || KeyOf(s.channel.taken[i].query) != KeyOf(s.channel.taken[j].query))
  {
    var s := Run(c, Start(c), es);
    RunIsSound(c, es);
    RunStaysAddressed(c, Start(c), es);
    forall k, q | 0 <= k < |s.lanes| && Own(c.g, q)
      ensures Count(s.lanes[k].server.displaced, q) == 0
    {
      assert LaneSound(c, s, k);
    }
    forall i: nat | i < |s.channel.taken|
      ensures s.channel.taken[i].server < |s.lanes| && s.channel.taken[i].query in s.sent
      ensures Stamped(c.g, s, s.channel.taken[i].query)
    {
      TakenWasSent(c, s, i);
    }
    forall i: nat, j: nat |
      i < j < |s.channel.taken| && s.channel.taken[i].server == s.channel.taken[j].server
      ensures KeyOf(s.channel.taken[i].query) != KeyOf(s.channel.taken[j].query)
    {
      if KeyOf(s.channel.taken[i].query) == KeyOf(s.channel.taken[j].query) {
        OncePerServer(c, s, i, j);
        assert false;
      }
    }
  }

  /** With one server no number comes back twice. */
  lemma OneServerAnswersOnce(c: Config, es: seq<Event>, i: nat, j: nat)
    requires Possible(c, Start(c), es) && Ids.Draws(IdEvents(es)) <= WORD && |c.queueCapacities| == 1
    requires i < j < |Run(c, Start(c), es).channel.taken|
    ensures var taken := Run(c, Start(c), es).channel.taken;
            KeyOf(taken[i].query) != KeyOf(taken[j].query)
  {
    ResponsesMatchRequests(c, es);
    var taken := Run(c, Start(c), es).channel.taken;
    assert taken[i].server == taken[j].server == 0;
  }

  /** And when no call overtakes another, the number on a response is the number that was returned
      to the caller of its request. */
  lemma CallersRecogniseTheirResponses(c: Config, es: seq<Event>, i: nat)
    requires Possible(c, Start(c), es) && Ids.Draws(IdEvents(es)) <= WORD
    requires Ids.OldestFirst(IdEvents(es)) && i < |Run(c, Start(c), es).channel.taken|
    ensures var s := Run(c, Start(c), es);
            var q := s.channel.taken[i].query;
            1 <= q.id <= |s.ids.done| && s.ids.done[q.id - 1].returned == KeyOf(q).sn
  {
    var s := Run(c, Start(c), es);
    RunIsSound(c, es);
    RunStaysAddressed(c, Start(c), es);
    TakenWasSent(c, s, i);
    var q := s.channel.taken[i].query;
    assert s.ids.done[q.id - 1].carried == KeyOf(q).sn;
    Ids.ReturnedIsCarriedIffOldestFirst(IdEvents(es));
    assert s.ids.done[q.id - 1] in s.ids.done;
  }
}
