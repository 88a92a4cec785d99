/** Sequence numbers of service requests (crates/rmw-zenoh-rs/src/service.rs:21-78 and
    crates/ros-z/src/service.rs:125-127, 227-259).

    A request draws a number twice: the RMW client draws the one it returns to its caller, and the
    ZClient inside it draws the one the request carries. Both are atomic, but not together. */
module RequestIds {
  import opened Common

  /** A finished call: the number its caller was given (or would have been, had the send not
      failed) and the number its request carried. */
  datatype Finished = Finished(returned: int, carried: int, ok: bool)

  /** The two counters, the numbers drawn by calls that have not sent yet (oldest call first), and
      the calls that are done. Numbers are exact 64-bit values. */
  datatype State = State(outer: int, inner: int, inFlight: seq<int>, done: seq<Finished>)

  /** `Draw`: some caller enters and takes a number. `Send(i, ok)`: the i-th oldest call in flight
      sends, successfully or not. */
  datatype Event = Draw | Send(i: nat, ok: bool)

  /** Both counters start at 1; the outer one is an i64, the inner one a usize. */
  const INITIAL: State := State(1, 1, [], [])

  predicate Enabled(s: State, e: Event) {
    e.Send? ==> e.i < |s.inFlight|
  }

  function Without<T>(s: seq<T>, i: nat): seq<T>
    requires i < |s|
  {
    s[..i] + s[i + 1..]
  }

  function Step(s: State, e: Event): State
    requires Enabled(s, e)
  {
    match e
    case Draw => s.(outer := AsI64(s.outer + 1), inFlight := s.inFlight + [s.outer])
    case Send(i, ok) =>
      s.(inner := (s.inner + 1) % WORD,
         inFlight := Without(s.inFlight, i),
         done := s.done + [Finished(s.inFlight[i], AsI64(s.inner), ok)])
  }

  /** Whether `es` can happen when `n` calls are in flight. */
  predicate Possible(n: nat, es: seq<Event>)
    decreases |es|
  {
    es == [] ||
    match es[0]
    case Draw => Possible(n + 1, es[1..])
    case Send(i, _) => i < n && Possible(n - 1, es[1..])
  }

  function Run(s: State, es: seq<Event>): State
    requires Possible(|s.inFlight|, es)
    decreases |es|
  {
    if es == [] then s else Run(Step(s, es[0]), es[1..])
  }

  /** How many calls were made. */
  function Draws(es: seq<Event>): nat {
    if es == [] then 0 else (if es[0].Draw? then 1 else 0) + Draws(es[1..])
  }

  /** No call is overtaken: every send is made by the oldest call in flight. */
  predicate OldestFirst(es: seq<Event>) {
    forall k :: 0 <= k < |es| && es[k].Send? ==> es[k].i == 0
  }

  // ---- A reference machine whose numbers never wrap ----

  /** Tickets count calls from 1 without bound. `sent` lists, in sending order, the ticket of each
      finished call; the k-th send (from 0) carries the ticket k + 1. */
  datatype Tickets = Tickets(drawn: nat, inFlight: seq<nat>, sent: seq<nat>)

  const NO_TICKETS: Tickets := Tickets(0, [], [])

  function TicketStep(t: Tickets, e: Event): Tickets
    requires e.Send? ==> e.i < |t.inFlight|
  {
    match e
    case Draw => Tickets(t.drawn + 1, t.inFlight + [t.drawn + 1], t.sent)
    case Send(i, _) =>
      Tickets(t.drawn, Without(t.inFlight, i), t.sent + [t.inFlight[i]])
  }

  function TicketRun(t: Tickets, es: seq<Event>): Tickets
    requires Possible(|t.inFlight|, es)
    decreases |es|
  {
    if es == [] then t else TicketRun(TicketStep(t, es[0]), es[1..])
  }

  /** The 64-bit state is the image of the unbounded one. */
  ghost predicate Represents(t: Tickets, s: State) {
    && s.outer == AsI64(t.drawn + 1)
    && s.inner == (|t.sent| + 1) % WORD
    && |s.inFlight| == |t.inFlight| && |s.done| == |t.sent|
    && (forall i :: 0 <= i < |t.inFlight| ==> s.inFlight[i] == AsI64(t.inFlight[i]))
    && (forall k :: 0 <= k < |t.sent| ==>
          s.done[k].returned == AsI64(t.sent[k]) && s.done[k].carried == AsI64(k + 1))
  }

  function TicketsUpTo(n: nat): multiset<nat> {
    if n == 0 then multiset{} else TicketsUpTo(n - 1) + multiset{n}
  }

  /** Every ticket drawn is held by exactly one call, in flight or done. */
  ghost predicate Consistent(t: Tickets) {
    && |t.inFlight| + |t.sent| == t.drawn
    && multiset(t.inFlight) + multiset(t.sent) == TicketsUpTo(t.drawn)
  }

  /** Calls left in the order in which they came, and those in flight came last. */
  ghost predicate InOrder(t: Tickets) {
    && (forall k :: 0 <= k < |t.sent| ==> t.sent[k] == k + 1)
    && (forall i :: 0 <= i < |t.inFlight| ==> t.inFlight[i] == |t.sent| + 1 + i)
    && t.drawn == |t.sent| + |t.inFlight|
  }

  lemma ModOfShift(m: int, k: int)
    requires 0 <= m <= WORD
    ensures (m + k * WORD) % WORD == m % WORD
  {
    if m < WORD {
      assert (m + k * WORD) / WORD == k;
    } else {
      assert m + k * WORD == (k + 1) * WORD;
      assert (k + 1) * WORD % WORD == 0;
    }
  }

  lemma AsI64Successor(n: int)
    ensures AsI64(AsI64(n) + 1) == AsI64(n + 1)
    ensures (n % WORD + 1) % WORD == (n + 1) % WORD
  {
    ModOfShift(n % WORD + 1, n / WORD);
    ModOfShift(n % WORD + 1, -1);
  }

  /** Two integers have the same 64-bit value exactly when they differ by a multiple of 2^64. */
  lemma AsI64Collides(a: int, b: int)
    ensures AsI64(a) == AsI64(b) <==> (a - b) % WORD == 0
  {
    var d := a % WORD - b % WORD;
    assert a - b == (a / WORD - b / WORD) * WORD + d;
    if d >= 0 {
      ModOfShift(d, a / WORD - b / WORD);
    } else {
      assert a - b == (a / WORD - b / WORD - 1) * WORD + (d + WORD);
      ModOfShift(d + WORD, a / WORD - b / WORD - 1);
    }
  }

  /** How an i64 counter at `a` and a usize counter at `b` compare. */
  lemma CounterDistance(a: int, b: int)
    ensures (AsI64(a) - b % WORD - (a - b)) % WORD == 0
    ensures AsI64(b % WORD) == AsI64(b)
    ensures AsI64(a) == AsI64(b) <==> (a - b) % WORD == 0
  {
    var q := (if AsI64(a) < 0 then -1 else 0) - a / WORD + b / WORD;
    assert AsI64(a) - b % WORD - (a - b) == q * WORD;
    ModOfShift(0, q);
    ModOfShift(b % WORD, 0);
    AsI64Collides(a, b);
  }

  lemma SmallMultiple(d: int)
    requires -WORD < d < WORD
    ensures d % WORD == 0 <==> d == 0
  {
    if d < 0 {
      ModOfShift(d + WORD, -1);
    }
  }

  // ---- What every run keeps ----

  lemma WithoutMultiset<T>(s: seq<T>, i: nat)
    requires i < |s|
    ensures multiset(s) == multiset(Without(s, i)) + multiset{s[i]}
  {
    assert s == s[..i] + ([s[i]] + s[i + 1..]);
  }

  /** A sequence without repetitions, read off its multiset. */
  lemma DistinctFromMultiset<T>(s: seq<T>, i: nat, j: nat)
    requires i < j < |s| && multiset(s)[s[j]] <= 1
    ensures s[i] != s[j]
  {
    assert s == s[..j] + ([s[j]] + s[j + 1..]);
    assert multiset(s) == multiset(s[..j]) + (multiset{s[j]} + multiset(s[j + 1..]));
    assert s[..j][i] == s[i];
    assert s[i] in multiset(s[..j]);
  }

  lemma {:induction false} TicketsUpToAt(n: nat, x: nat)
    ensures TicketsUpTo(n)[x] == if 1 <= x <= n then 1 else 0
  {
    if n > 0 {
      TicketsUpToAt(n - 1, x);
    }
  }

  lemma TicketStepKeeps(t: Tickets, e: Event)
    requires (e.Send? ==> e.i < |t.inFlight|) && Consistent(t)
    ensures Consistent(TicketStep(t, e))
  {
    if e.Send? {
      WithoutMultiset(t.inFlight, e.i);
    }
  }

  lemma SentTicket(t: Tickets, k: nat)
    requires Consistent(t) && k < |t.sent|
    ensures 1 <= t.sent[k] <= t.drawn && multiset(t.sent)[t.sent[k]] <= 1
  {
    assert t.sent[k] in multiset(t.sent);
    TicketsUpToAt(t.drawn, t.sent[k]);
  }

  /** Tickets of finished calls are in range and pairwise different. */
  lemma SentTickets(t: Tickets, j: nat, k: nat)
    requires Consistent(t) && j < k < |t.sent|
    ensures 1 <= t.sent[j] <= t.drawn && 1 <= t.sent[k] <= t.drawn && t.sent[j] != t.sent[k]
  {
    SentTicket(t, j);
    SentTicket(t, k);
    DistinctFromMultiset(t.sent, j, k);
  }

  lemma {:induction false} TicketRunKeeps(t: Tickets, es: seq<Event>)
    requires Possible(|t.inFlight|, es) && Consistent(t)
    ensures Consistent(TicketRun(t, es)) && TicketRun(t, es).drawn == t.drawn + Draws(es)
    decreases |es|
  {
    if es != [] {
      TicketStepKeeps(t, es[0]);
      TicketRunKeeps(TicketStep(t, es[0]), es[1..]);
    }
  }

  lemma {:induction false} SentGrows(t: Tickets, es: seq<Event>)
    requires Possible(|t.inFlight|, es)
    ensures t.sent <= TicketRun(t, es).sent
    decreases |es|
  {
    if es != [] {
      SentGrows(TicketStep(t, es[0]), es[1..]);
    }
  }

  lemma DrawRepresents(t: Tickets, s: State)
    requires Represents(t, s)
    ensures Represents(TicketStep(t, Draw), Step(s, Draw))
  {
    AsI64Successor(t.drawn + 1);
  }

  lemma SendRepresents(t: Tickets, s: State, i: nat, ok: bool)
    requires Represents(t, s) && i < |s.inFlight|
    ensures Represents(TicketStep(t, Send(i, ok)), Step(s, Send(i, ok)))
  {
    AsI64Successor(|t.sent| + 1);
    CounterDistance(|t.sent| + 1, |t.sent| + 1);
  }

  lemma StepRepresents(t: Tickets, s: State, e: Event)
    requires Represents(t, s) && Enabled(s, e)
    ensures Represents(TicketStep(t, e), Step(s, e))
  {
    match e
    case Draw => DrawRepresents(t, s);
    case Send(i, ok) => SendRepresents(t, s, i, ok);
  }

  /** The 64-bit machine refines the unbounded one, wrap-around included. */
  lemma {:induction false} RunRepresents(t: Tickets, s: State, es: seq<Event>)
    requires Represents(t, s) && Possible(|s.inFlight|, es)
    ensures Represents(TicketRun(t, es), Run(s, es))
    decreases |es|
  {
    if es != [] {
      StepRepresents(t, s, es[0]);
      RunRepresents(TicketStep(t, es[0]), Step(s, es[0]), es[1..]);
    }
  }

  lemma FromTheStart(es: seq<Event>)
    requires Possible(0, es)
    ensures Represents(TicketRun(NO_TICKETS, es), Run(INITIAL, es))
    ensures Consistent(TicketRun(NO_TICKETS, es))
    ensures TicketRun(NO_TICKETS, es).drawn == Draws(es)
  {
    RunRepresents(NO_TICKETS, INITIAL, es);
    TicketRunKeeps(NO_TICKETS, es);
  }

  /** In every interleaving the distance between the counters is the number of calls between their
      two steps, so the counters agree when no call is in flight. */
  lemma CountersDifferByCallsInFlight(es: seq<Event>)
    requires Possible(0, es)
    ensures var s := Run(INITIAL, es);
            && (s.outer - s.inner - |s.inFlight|) % WORD == 0
            && (s.inFlight == [] ==> s.outer == AsI64(s.inner))
            && (s.outer == AsI64(s.inner) ==> |s.inFlight| % WORD == 0)
  {
    var a, b := CounterPositions(es);
    CounterDistance(a, b);
  }

  /** How far the counters have advanced, counted without wrapping. */
  lemma CounterPositions(es: seq<Event>) returns (a: int, b: int)
    requires Possible(0, es)
    ensures var s := Run(INITIAL, es);
            s.outer == AsI64(a) && s.inner == b % WORD && |s.inFlight| == a - b
  {
    var t, s := TicketRun(NO_TICKETS, es), Run(INITIAL, es);
    a, b := t.drawn + 1, |t.sent| + 1;
    assert Represents(t, s) && Consistent(t) by {
      FromTheStart(es);
    }
    assert s.outer == AsI64(a) && s.inner == b % WORD && |s.inFlight| == |t.inFlight|;
  }

  /** The ticket of the k-th finished call. */
  lemma FinishedTicket(es: seq<Event>, k: nat) returns (ticket: int)
    requires Possible(0, es) && k < |Run(INITIAL, es).done|
    ensures var t, f := TicketRun(NO_TICKETS, es), Run(INITIAL, es).done[k];
            && k < |t.sent| <= Draws(es) && t.sent[k] == ticket && 1 <= ticket <= Draws(es)
            && f.returned == AsI64(ticket) && f.carried == AsI64(k + 1)
  {
    FromTheStart(es);
    var t := TicketRun(NO_TICKETS, es);
    SentTicket(t, k);
    ticket := t.sent[k];
  }

  /** In every interleaving two finished calls hold different tickets a and b, and return the same
      number exactly when a - b is a multiple of 2^64; the numbers carried by requests are
      1, 2, 3, ... in sending order. */
  lemma ReturnedNumbersCollideIff(es: seq<Event>, j: nat, k: nat) returns (a: int, b: int)
    requires Possible(0, es) && j < k < |Run(INITIAL, es).done|
    ensures var f, g := Run(INITIAL, es).done[j], Run(INITIAL, es).done[k];
            && 1 <= a <= Draws(es) && 1 <= b <= Draws(es) && a != b && k < Draws(es)
            && f.returned == AsI64(a) && g.returned == AsI64(b)
            && (f.returned == g.returned <==> (a - b) % WORD == 0)
            && f.carried == AsI64(j + 1) && g.carried == AsI64(k + 1)
  {
    a := FinishedTicket(es, j);
    b := FinishedTicket(es, k);
    AsI64Collides(a, b);
    FromTheStart(es);
    SentTickets(TicketRun(NO_TICKETS, es), j, k);
  }

  /** So up to 2^64 calls, overlapping in any way, return pairwise different numbers. */
  lemma ReturnedNumbersAreDistinct(es: seq<Event>)
    requires Possible(0, es) && Draws(es) <= WORD
    ensures var done := Run(INITIAL, es).done;
            forall j, k :: 0 <= j < k < |done| ==>
              done[j].returned != done[k].returned && done[j].carried != done[k].carried
  {
    var done := Run(INITIAL, es).done;
    forall j, k | 0 <= j < k < |done|
      ensures done[j].returned != done[k].returned && done[j].carried != done[k].carried
    {
      var a, b := ReturnedNumbersCollideIff(es, j, k);
      SmallMultiple(a - b);
      AsI64Collides(j + 1, k + 1);
      SmallMultiple(j - k);
    }
  }

  lemma {:induction false} TicketsMatchIffOldestFirst(t: Tickets, es: seq<Event>)
    requires Possible(|t.inFlight|, es) && InOrder(t)
    ensures var r := TicketRun(t, es);
            (forall k :: 0 <= k < |r.sent| ==> r.sent[k] == k + 1) <==> OldestFirst(es)
    decreases |es|
  {
    if es != [] {
      var u := TicketStep(t, es[0]);
      assert es == [es[0]] + es[1..];
      if es[0].Send? && es[0].i > 0 {
        SentGrows(u, es[1..]);
        assert TicketRun(t, es).sent[|t.sent|] == u.sent[|t.sent|] != |t.sent| + 1;
      } else {
        TicketsMatchIffOldestFirst(u, es[1..]);
      }
    }
  }

  /** Every call returns the number its own request carried if and only if no call overtakes
      another between the two steps. In particular calls that do not overlap are safe. */
  lemma ReturnedIsCarriedIffOldestFirst(es: seq<Event>)
    requires Possible(0, es) && Draws(es) <= WORD
    ensures (forall f :: f in Run(INITIAL, es).done ==> f.returned == f.carried) <==> OldestFirst(es)
  {
    TicketsMatchIffOldestFirst(NO_TICKETS, es);
    var t, done := TicketRun(NO_TICKETS, es), Run(INITIAL, es).done;
    forall k: nat | k < |done|
      ensures k < |t.sent| && (done[k].returned == done[k].carried <==> t.sent[k] == k + 1)
    {
      MatchAt(es, k);
    }
    MatchCount(es);
  }

  lemma MatchCount(es: seq<Event>)
    requires Possible(0, es)
    ensures |Run(INITIAL, es).done| == |TicketRun(NO_TICKETS, es).sent|
  {
    FromTheStart(es);
  }

  lemma MatchAt(es: seq<Event>, k: nat)
    requires Possible(0, es) && Draws(es) <= WORD && k < |Run(INITIAL, es).done|
    ensures var t, f := TicketRun(NO_TICKETS, es), Run(INITIAL, es).done[k];
            k < |t.sent| && (f.returned == f.carried <==> t.sent[k] == k + 1)
  {
    var ticket := FinishedTicket(es, k);
    AsI64Collides(ticket, k + 1);
    SmallMultiple(ticket - (k + 1));
  }

  /** Two overlapping calls suffice to swap numbers: each caller is told the other's. */
  lemma OverlappingCallsSwapNumbers()
    ensures var es := [Draw, Draw, Send(1, true), Send(0, true)];
            Possible(0, es) && Run(INITIAL, es).done == [Finished(2, 1, true), Finished(1, 2, true)]
  {
    var s2 := State(3, 1, [1, 2], []);
    var s3 := State(3, 2, [1], [Finished(2, 1, true)]);
    assert Step(Step(INITIAL, Draw), Draw) == s2;
    assert Step(s2, Send(1, true)) == s3;
    var tail := [Send(1, true), Send(0, true)];
    assert tail[1..] == [Send(0, true)];
    assert Run(s2, tail).done == [Finished(2, 1, true), Finished(1, 2, true)];
    var es := [Draw, Draw, Send(1, true), Send(0, true)];
    assert es[1..][1..] == tail;
  }

  // ---- The client objects ----

  /** The counter inside ZClient. A number is used up even when the send fails. */
  class ZClient {
    var sn: int

    constructor ()
      ensures sn == 1
    {
      sn := 1;
    }

    method RmwSendRequest(ok: bool) returns (r: Option<int>)
      modifies this
      ensures sn == (old(sn) + 1) % WORD
      ensures r == if ok then Some(AsI64(old(sn))) else None
    {
      var number := AsI64(sn);
      sn := (sn + 1) % WORD;
      r := if ok then Some(number) else None;
    }
  }

  class ClientImpl {
    const inner: ZClient
    var sequenceCounter: int
    ghost var inFlight: seq<int>
    ghost var done: seq<Finished>

    ghost function Snapshot(): State
      reads this, inner
    {
      State(sequenceCounter, inner.sn, inFlight, done)
    }

    constructor ()
      ensures Snapshot() == INITIAL && fresh(inner)
    {
      inner := new ZClient();
      sequenceCounter := 1;
      inFlight, done := [], [];
    }

    /** First atomic step of a call. */
    method FetchAdd() returns (sn: int)
      modifies this
      ensures Snapshot() == Step(old(Snapshot()), Draw) && sn == old(sequenceCounter)
    {
      sn := sequenceCounter;
      sequenceCounter := AsI64(sequenceCounter + 1);
      inFlight := inFlight + [sn];
    }

    /** Second atomic step, by the i-th oldest call in flight, which drew `sn`. The result is the
        number stored through the caller's pointer, if any. */
    method SendInner(sn: int, ghost i: nat, ok: bool) returns (r: Option<int>)
      requires i < |inFlight| && inFlight[i] == sn
      modifies this, inner
      ensures Snapshot() == Step(old(Snapshot()), Send(i, ok))
      ensures r == if ok then Some(sn) else None
    {
      ghost var carried := AsI64(inner.sn);
      var sent := inner.RmwSendRequest(ok);
      inFlight, done := Without(inFlight, i), done + [Finished(sn, carried, ok)];
      r := if sent.Some? then Some(sn) else None;
    }

    /** A whole call that nothing overlaps: the caller learns the number its request carried, and
        the counters stay together whether or not the send succeeds. */
    method SendRequest(ok: bool) returns (r: Option<int>)
      requires inFlight == [] && sequenceCounter == AsI64(inner.sn)
      modifies this, inner
      ensures inFlight == [] && sequenceCounter == AsI64(inner.sn)
      ensures r == if ok then Some(AsI64(old(inner.sn))) else None
      ensures done == old(done) + [Finished(AsI64(old(inner.sn)), AsI64(old(inner.sn)), ok)]
    {
      AsI64Successor(inner.sn);
      ModOfShift((inner.sn + 1) % WORD, 0);
      var sn := FetchAdd();
      r := SendInner(sn, 0, ok);
    }
  }
}
