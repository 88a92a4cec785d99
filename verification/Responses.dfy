/** The client's end of a service: replies enter a bounded channel, callers are told about them and
    take them (crates/rmw-zenoh-rs/src/service.rs:39-63, 80-169; crates/ros-z/src/service.rs:239-255;
    crates/rmw-zenoh-rs/src/rmw.rs:2222-2251). */
module Responses {
  import opened Common
  import Servers

  datatype Response = Response(payload: seq<byte>, attachment: AttachmentField)

  /** A reply takes two steps: `Enter` offers it to the channel, and later `Notify` tells the caller.
      Setting a callback takes three, each under a lock of its own: `Drain` reports what was counted
      while there was none, `Install` stores the callback and `Bind` its user data. Clearing takes two.
      Anything else can come in between, the steps of other set calls included; `call` names the call
      that a step belongs to. (A notification holds the lock of the callback until it has read the
      user data or counted, so it is one step.) */
  datatype Event =
    | Enter(response: Response)
    | Notify
    | FailedReply
    | Drain(call: nat)
    | Install(call: nat)
    | Bind(call: nat)
    | Clear
    | Unbind
    | TakeResponse

  /** One call of a callback. Callbacks and user data are named by the call that set them. */
  datatype Invocation = Invocation(callback: nat, data: Option<nat>, count: nat)

  /** The channel, what it refused and what was taken from it; how many replies were offered and not
      yet notified; the callback and the user data in force; the replies counted and not yet reported,
      and the invocations so far. */
  datatype State = State(rx: seq<Response>, refused: seq<Response>, taken: seq<Response>, due: nat,
                         callback: Option<nat>, data: Option<nat>, unread: nat,
                         invocations: seq<Invocation>)

  const START := State([], [], [], 0, None, None, 0, [])

  function Offer(capacity: nat, s: State, r: Response): State {
    if |s.rx| < capacity then s.(rx := s.rx + [r], due := s.due + 1)
    else s.(refused := s.refused + [r], due := s.due + 1)
  }

  /** The notification runs whether or not the channel had room. */
  function Tell(s: State): State
    requires s.due > 0
  {
    match s.callback
    case Some(c) => s.(due := s.due - 1, invocations := s.invocations + [Invocation(c, s.data, 1)])
    case None => s.(due := s.due - 1, unread := s.unread + 1)
  }

  /** The call that sets a callback passes its own callback and user data. */
  function Report(s: State, call: nat): State {
    if s.unread == 0 then s
    else s.(unread := 0, invocations := s.invocations + [Invocation(call, Some(call), s.unread)])
  }

  function Step(capacity: nat, s: State, e: Event): State {
    match e
    case Enter(r) => Offer(capacity, s, r)
    case Notify => if s.due == 0 then s else Tell(s)
    case FailedReply => s
    case Drain(call) => Report(s, call)
    case Install(call) => s.(callback := Some(call))
    case Bind(call) => s.(data := Some(call))
    case Clear => s.(callback := None)
    case Unbind => s.(data := None)
    case TakeResponse =>
      if s.rx == [] then s else s.(rx := s.rx[1..], taken := s.taken + [s.rx[0]])
  }

  function Run(capacity: nat, es: seq<Event>): State {
    if es == [] then START
    else Step(capacity, Run(capacity, es[..|es| - 1]), es[|es| - 1])
  }

  lemma RunOne(capacity: nat, es: seq<Event>, n: nat)
    requires n < |es|
    ensures Run(capacity, es[..n + 1]) == Step(capacity, Run(capacity, es[..n]), es[n])
  {
    assert es[..n + 1][..n] == es[..n];
  }

  /** The replies that found room, in order of arrival. */
  function Accepted(capacity: nat, es: seq<Event>): seq<Response> {
    if es == [] then []
    else
      var front, last := es[..|es| - 1], es[|es| - 1];
      Accepted(capacity, front)
      + if last.Enter? && |Run(capacity, front).rx| < capacity then [last.response] else []
  }

  function ReplyCount(es: seq<Event>): nat {
    if es == [] then 0
    else ReplyCount(es[..|es| - 1]) + if es[|es| - 1].Enter? then 1 else 0
  }

  /** How many replies callbacks were told of. */
  function Reported(invocations: seq<Invocation>): nat {
    if invocations == [] then 0
    else Reported(invocations[..|invocations| - 1]) + invocations[|invocations| - 1].count
  }

  lemma ReportedSnoc(invocations: seq<Invocation>, i: Invocation)
    ensures Reported(invocations + [i]) == Reported(invocations) + i.count
  {
    assert (invocations + [i])[..|invocations|] == invocations;
  }

  // ---- The channel and the count

  lemma StepKeepsOrder(capacity: nat, s: State, e: Event)
    ensures var t := Step(capacity, s, e);
            t.taken + t.rx ==
              s.taken + s.rx + if e.Enter? && |s.rx| < capacity then [e.response] else []
    ensures |s.rx| <= capacity ==> |Step(capacity, s, e).rx| <= capacity
  {
    if e.TakeResponse? && s.rx != [] {
      assert s.taken + s.rx == s.taken + [s.rx[0]] + s.rx[1..];
    }
  }

  /** Over every run: responses are taken in arrival order and once each, nothing that was accepted
      is lost, and the channel keeps its bound. */
  lemma {:induction false} TakenInOrder(capacity: nat, es: seq<Event>)
    ensures var s := Run(capacity, es);
            s.taken + s.rx == Accepted(capacity, es) && |s.rx| <= capacity
  {
    if es != [] {
      TakenInOrder(capacity, es[..|es| - 1]);
      StepKeepsOrder(capacity, Run(capacity, es[..|es| - 1]), es[|es| - 1]);
    }
  }

  lemma StepCounts(capacity: nat, s: State, e: Event)
    ensures var t := Step(capacity, s, e);
            Reported(t.invocations) + t.unread + t.due ==
              Reported(s.invocations) + s.unread + s.due + if e.Enter? then 1 else 0
    ensures var t := Step(capacity, s, e);
            |t.taken| + |t.rx| + |t.refused| ==
              |s.taken| + |s.rx| + |s.refused| + if e.Enter? then 1 else 0
  {
    if e.Notify? && s.callback.Some? {
      ReportedSnoc(s.invocations, Invocation(s.callback.value, s.data, 1));
    } else if e.Drain? {
      ReportedSnoc(s.invocations, Invocation(e.call, Some(e.call), s.unread));
    }
  }

  /** Each reply is reported once, still counted or about to be notified, refused ones included. */
  lemma {:induction false} EachReplyIsCounted(capacity: nat, es: seq<Event>)
    ensures var s := Run(capacity, es);
            && Reported(s.invocations) + s.unread + s.due == ReplyCount(es)
            && |s.taken| + |s.rx| + |s.refused| == ReplyCount(es)
  {
    if es != [] {
      EachReplyIsCounted(capacity, es[..|es| - 1]);
      StepCounts(capacity, Run(capacity, es[..|es| - 1]), es[|es| - 1]);
    }
  }

  /** Some reply of the run finds the channel full. */
  predicate SomeReplyFindsItFull(capacity: nat, es: seq<Event>) {
    es != [] &&
    ((es[|es| - 1].Enter? && |Run(capacity, es[..|es| - 1]).rx| >= capacity)
     || SomeReplyFindsItFull(capacity, es[..|es| - 1]))
  }

  lemma {:induction false} RefusedIffFull(capacity: nat, es: seq<Event>)
    ensures Run(capacity, es).refused != [] <==> SomeReplyFindsItFull(capacity, es)
  {
    if es != [] {
      RefusedIffFull(capacity, es[..|es| - 1]);
    }
  }

  /** The announcements, made, counted or about to be made, are as many as the responses there were to
      take if and only if no reply found the channel full. */
  lemma AnnouncementsMatchResponsesIff(capacity: nat, es: seq<Event>)
    ensures var s := Run(capacity, es);
            Reported(s.invocations) + s.unread + s.due == |s.taken| + |s.rx|
            <==> !SomeReplyFindsItFull(capacity, es)
  {
    EachReplyIsCounted(capacity, es);
    RefusedIffFull(capacity, es);
  }

  // ---- Replies that wait behind a callback

  /** Event `i` notifies of a reply. */
  predicate Notifies(capacity: nat, es: seq<Event>, i: int) {
    0 <= i < |es| && es[i].Notify? && Run(capacity, es[..i]).due > 0
  }

  /** It does so while there is no callback. */
  predicate Unheard(capacity: nat, es: seq<Event>, i: int) {
    Notifies(capacity, es, i) && Run(capacity, es[..i]).callback == None
  }

  predicate NoDrain(es: seq<Event>, i: int, j: int) {
    forall k :: 0 <= k < |es| && i < k < j ==> !es[k].Drain?
  }

  lemma {:induction false} UnheardLonger(capacity: nat, es: seq<Event>, i: int)
    requires 0 <= i < |es| - 1
    ensures var front := es[..|es| - 1];
            Unheard(capacity, es, i) && NoDrain(es, i, |es|) <==>
              Unheard(capacity, front, i) && NoDrain(front, i, |front|) && !es[|es| - 1].Drain?
  {
    assert es[..|es| - 1][..i] == es[..i];
  }

  /** The unheard notifications that no drain has followed. */
  ghost function Waiting(capacity: nat, es: seq<Event>): set<int> {
    set i | 0 <= i < |es| && Unheard(capacity, es, i) && NoDrain(es, i, |es|)
  }

  lemma {:induction false} WaitingLonger(capacity: nat, es: seq<Event>)
    requires es != []
    ensures var n := |es| - 1;
            Waiting(capacity, es) ==
              (if es[n].Drain? then {} else Waiting(capacity, es[..n]))
              + (if Unheard(capacity, es, n) then {n} else {})
  {
    var n := |es| - 1;
    forall i | 0 <= i < n
      ensures i in Waiting(capacity, es) <==> i in Waiting(capacity, es[..n]) && !es[n].Drain?
    {
      UnheardLonger(capacity, es, i);
    }
    assert NoDrain(es, n, |es|);
  }

  lemma StepUnread(capacity: nat, s: State, e: Event)
    ensures Step(capacity, s, e).unread ==
              if e.Drain? then 0
              else s.unread + if e.Notify? && s.due > 0 && s.callback == None then 1 else 0
  {
  }

  /** The unread count is the number of replies that wait. */
  lemma {:induction false} UnreadIsWaiting(capacity: nat, es: seq<Event>)
    ensures Run(capacity, es).unread == |Waiting(capacity, es)|
  {
    if es != [] {
      var n, front := |es| - 1, es[..|es| - 1];
      UnreadIsWaiting(capacity, front);
      WaitingLonger(capacity, es);
      StepUnread(capacity, Run(capacity, front), es[n]);
      assert Unheard(capacity, es, n) <==>
               es[n].Notify? && Run(capacity, front).due > 0 && Run(capacity, front).callback == None;
      assert n !in Waiting(capacity, front);
    }
  }

  /** Something waits to be reported exactly when an unheard notification is not followed by a drain. */
  lemma {:induction false} WaitingIffUnheard(capacity: nat, es: seq<Event>)
    ensures Run(capacity, es).unread > 0 <==>
              exists i :: Unheard(capacity, es, i) && NoDrain(es, i, |es|)
  {
    UnreadIsWaiting(capacity, es);
    if i :| Unheard(capacity, es, i) && NoDrain(es, i, |es|) {
      assert i in Waiting(capacity, es);
    } else {
      assert Waiting(capacity, es) == {};
    }
  }

  lemma StepInstalls(capacity: nat, s: State, e: Event)
    ensures s.callback == None && Step(capacity, s, e).callback.Some? ==> e.Install?
  {
  }

  /** Where a callback appears, one was installed. */
  lemma {:induction false} InstalledBetween(capacity: nat, es: seq<Event>, i: nat, n: nat) returns (j: nat)
    requires i <= n <= |es|
    requires Run(capacity, es[..i]).callback == None && Run(capacity, es[..n]).callback.Some?
    ensures i <= j < n && es[j].Install?
  {
    assert i < n;
    RunOne(capacity, es, n - 1);
    var before := Run(capacity, es[..n - 1]);
    if before.callback.Some? {
      j := InstalledBetween(capacity, es, i, n - 1);
    } else {
      StepInstalls(capacity, before, es[n - 1]);
      j := n - 1;
    }
  }

  /** At no moment of the run does a reply wait while a callback is set. */
  ghost predicate NothingEverWaits(capacity: nat, es: seq<Event>) {
    forall n {:trigger es[..n]} :: 0 <= n <= |es| ==>
      Run(capacity, es[..n]).callback.Some? ==> Run(capacity, es[..n]).unread == 0
  }

  /** A callback is installed at `j` over the unheard notification `i`, with no drain in between. */
  predicate InstalledOver(capacity: nat, es: seq<Event>, i: int, j: int) {
    i < j < |es| && Unheard(capacity, es, i) && es[j].Install? && NoDrain(es, i, j)
  }

  lemma InstalledOverWaits(capacity: nat, es: seq<Event>, i: int, j: int)
    requires InstalledOver(capacity, es, i, j)
    ensures !NothingEverWaits(capacity, es)
  {
    var now := es[..j + 1];
    assert now[..i] == es[..i];
    assert Unheard(capacity, now, i) && NoDrain(now, i, |now|);
    WaitingIffUnheard(capacity, now);
    RunOne(capacity, es, j);
  }

  lemma WaitingWasInstalledOver(capacity: nat, es: seq<Event>, n: nat) returns (i: int, j: int)
    requires n <= |es| && Run(capacity, es[..n]).callback.Some? && Run(capacity, es[..n]).unread > 0
    ensures InstalledOver(capacity, es, i, j)
  {
    var now := es[..n];
    WaitingIffUnheard(capacity, now);
    i :| Unheard(capacity, now, i) && NoDrain(now, i, |now|);
    assert now[..i] == es[..i];
    j := InstalledBetween(capacity, es, i, n);
    assert NoDrain(es, i, j) by {
      assert forall k :: i < k < j ==> now[k] == es[k];
    }
  }

  /** Over every run: no reply ever waits behind a callback if and only if no notification comes
      between a drain and an installation while no older callback is in force. */
  lemma NothingWaitsIff(capacity: nat, es: seq<Event>)
    ensures NothingEverWaits(capacity, es) <==> !exists i, j :: InstalledOver(capacity, es, i, j)
  {
    if i, j :| InstalledOver(capacity, es, i, j) {
      InstalledOverWaits(capacity, es, i, j);
    } else if !NothingEverWaits(capacity, es) {
      var n :| 0 <= n <= |es| && Run(capacity, es[..n]).callback.Some? && Run(capacity, es[..n]).unread > 0;
      var i, j := WaitingWasInstalledOver(capacity, es, n);
      assert false;
    }
  }

  /** Such a reply stays counted while the callback is in force, and the next call that sets a callback
      reports it. */
  lemma NotifyDuringSetWaits(capacity: nat, s: State, call: nat, next: nat)
    requires s.callback == None && s.due > 0
    ensures var d := Step(capacity, s, Drain(call));
            var t := Step(capacity, Step(capacity, Step(capacity, d, Notify), Install(call)), Bind(call));
            && t.callback == t.data == Some(call) && t.unread == 1 && t.invocations == d.invocations
            && Step(capacity, t, Drain(next)).invocations ==
                 d.invocations + [Invocation(next, Some(next), 1)]
  {
  }

  // ---- Callbacks and their user data

  /** Event `i` installed the callback that is in force after `es`. */
  predicate InForce(es: seq<Event>, i: int) {
    && 0 <= i < |es| && es[i].Install?
    && forall k :: i < k < |es| ==> !es[k].Install? && !es[k].Clear?
  }

  /** Event `b` bound the user data that is in force after `es`. */
  predicate Bound(es: seq<Event>, b: int) {
    && 0 <= b < |es| && es[b].Bind?
    && forall k :: b < k < |es| ==> !es[k].Bind? && !es[k].Unbind?
  }

  lemma {:induction false} CallbackIs(capacity: nat, es: seq<Event>, i: int)
    requires InForce(es, i)
    ensures Run(capacity, es).callback == Some(es[i].call)
  {
    if i < |es| - 1 {
      assert InForce(es[..|es| - 1], i);
      CallbackIs(capacity, es[..|es| - 1], i);
    }
  }

  lemma {:induction false} CallbackFrom(capacity: nat, es: seq<Event>) returns (i: int)
    requires Run(capacity, es).callback.Some?
    ensures InForce(es, i) && Run(capacity, es).callback == Some(es[i].call)
  {
    if es[|es| - 1].Install? {
      i := |es| - 1;
    } else {
      i := CallbackFrom(capacity, es[..|es| - 1]);
    }
  }

  lemma {:induction false} DataIs(capacity: nat, es: seq<Event>, b: int)
    requires Bound(es, b)
    ensures Run(capacity, es).data == Some(es[b].call)
  {
    if b < |es| - 1 {
      assert Bound(es[..|es| - 1], b);
      DataIs(capacity, es[..|es| - 1], b);
    }
  }

  lemma StepData(capacity: nat, s: State, e: Event)
    ensures Step(capacity, s, e).data ==
              match e case Bind(call) => Some(call) case Unbind => None case _ => s.data
  {
  }

  lemma BoundLonger(es: seq<Event>, b: int)
    requires es != [] && Bound(es[..|es| - 1], b) && !es[|es| - 1].Bind? && !es[|es| - 1].Unbind?
    ensures Bound(es, b)
  {
    assert forall k :: 0 <= k < |es| - 1 ==> es[..|es| - 1][k] == es[k];
  }

  lemma {:induction false} DataFrom(capacity: nat, es: seq<Event>) returns (b: int)
    requires Run(capacity, es).data.Some?
    ensures Bound(es, b) && Run(capacity, es).data == Some(es[b].call)
  {
    assert es != [];
    var n, front := |es| - 1, es[..|es| - 1];
    StepData(capacity, Run(capacity, front), es[n]);
    if es[n].Bind? {
      b := n;
    } else {
      b := DataFrom(capacity, front);
      BoundLonger(es, b);
    }
  }

  ghost predicate BoundBy(es: seq<Event>, call: nat) {
    exists b :: Bound(es, b) && es[b].call == call
  }

  /** The notification `j` finds the callback installed at `i`, and user data that is not of the call
      that installed it. */
  ghost predicate Foreign(capacity: nat, es: seq<Event>, i: int, j: int) {
    Notifies(capacity, es, j) && InForce(es[..j], i) && !BoundBy(es[..j], es[i].call)
  }

  lemma {:induction false} DataIsIff(capacity: nat, es: seq<Event>, call: nat)
    ensures Run(capacity, es).data == Some(call) <==> BoundBy(es, call)
  {
    if Run(capacity, es).data.Some? {
      var b := DataFrom(capacity, es);
    }
    if b :| Bound(es, b) && es[b].call == call {
      DataIs(capacity, es, b);
    }
  }

  predicate Matched(invocations: seq<Invocation>) {
    forall i :: i in invocations ==> i.data == Some(i.callback)
  }

  lemma MatchedSnoc(invocations: seq<Invocation>, i: Invocation)
    ensures Matched(invocations + [i]) <==> Matched(invocations) && i.data == Some(i.callback)
  {
    assert i in invocations + [i];
    assert forall x :: x in invocations ==> x in invocations + [i];
  }

  lemma StepMatches(capacity: nat, s: State, e: Event)
    ensures Matched(Step(capacity, s, e).invocations) <==>
              Matched(s.invocations)
              && !(e.Notify? && s.due > 0 && s.callback.Some? && s.data != s.callback)
  {
    if e.Notify? && s.callback.Some? {
      MatchedSnoc(s.invocations, Invocation(s.callback.value, s.data, 1));
    } else if e.Drain? {
      MatchedSnoc(s.invocations, Invocation(e.call, Some(e.call), s.unread));
    }
  }

  /** Whether the last event is a foreign notification can be read off the state before it. */
  lemma {:induction false} LastForeignIff(capacity: nat, es: seq<Event>)
    requires es != []
    ensures var n, s := |es| - 1, Run(capacity, es[..|es| - 1]);
            (exists i :: Foreign(capacity, es, i, n)) <==>
              es[n].Notify? && s.due > 0 && s.callback.Some? && s.data != s.callback
  {
    var n, front := |es| - 1, es[..|es| - 1];
    var s := Run(capacity, front);
    if i :| Foreign(capacity, es, i, n) {
      CallbackIs(capacity, front, i);
      DataIsIff(capacity, front, es[i].call);
    }
    if es[n].Notify? && s.due > 0 && s.callback.Some? && s.data != s.callback {
      var i := CallbackFrom(capacity, front);
      DataIsIff(capacity, front, es[i].call);
      assert Foreign(capacity, es, i, n);
    }
  }

  lemma {:induction false} ForeignBefore(capacity: nat, es: seq<Event>, i: int, j: int)
    requires es != [] && j < |es| - 1
    ensures Foreign(capacity, es, i, j) <==> Foreign(capacity, es[..|es| - 1], i, j)
  {
    if 0 <= j {
      assert es[..|es| - 1][..j] == es[..j];
    }
  }

  /** Over every run, with any number of set and clear calls overlapping each other: every invocation
      passes the user data of the call that set its callback if and only if no notification finds the
      callback of one call in force and not that call's user data. */
  lemma {:induction false} InvocationsMatchIff(capacity: nat, es: seq<Event>)
    ensures Matched(Run(capacity, es).invocations) <==> !exists i, j :: Foreign(capacity, es, i, j)
  {
    if es != [] {
      var n, front := |es| - 1, es[..|es| - 1];
      InvocationsMatchIff(capacity, front);
      StepMatches(capacity, Run(capacity, front), es[n]);
      LastForeignIff(capacity, es);
      if i, j :| Foreign(capacity, es, i, j) && j < n {
        ForeignBefore(capacity, es, i, j);
        assert Foreign(capacity, front, i, j);
      }
      if i, j :| Foreign(capacity, front, i, j) {
        ForeignBefore(capacity, es, i, j);
        assert Foreign(capacity, es, i, j);
      }
    }
  }

  /** Two overlapping calls can leave the callback of one with the user data of the other for good. */
  lemma OverlappingSetsStayMixed(capacity: nat, s: State, j: nat, k: nat)
    requires j != k && s.due > 0
    ensures var t := Step(capacity, Step(capacity, Step(capacity, Step(capacity, s, Install(j)),
                                                        Install(k)), Bind(k)), Bind(j));
            && t.callback == Some(k) && t.data == Some(j)
            && Step(capacity, t, Notify).invocations == s.invocations + [Invocation(k, Some(j), 1)]
  {
  }

  // ---- Set and clear calls that do not overlap each other

  /** What the caller's thread is doing, and how many set calls it has made. */
  datatype Phase = Idle | Drained | Installed | Cleared

  datatype Setter = Setter(phase: Phase, calls: nat)

  /** Set calls are numbered 1, 2, ... */
  function SetterStep(p: Setter, e: Event): Option<Setter> {
    match e
    case Drain(call) =>
      if p.phase.Idle? && call == p.calls + 1 then Some(Setter(Drained, call)) else None
    case Install(call) =>
      if p.phase.Drained? && call == p.calls then Some(Setter(Installed, call)) else None
    case Bind(call) =>
      if p.phase.Installed? && call == p.calls then Some(Setter(Idle, call)) else None
    case Clear => if p.phase.Idle? then Some(Setter(Cleared, p.calls)) else None
    case Unbind => if p.phase.Cleared? then Some(Setter(Idle, p.calls)) else None
    case _ => Some(p)
  }

  /** Where the caller's thread is after `es`, or None if one thread cannot take these steps. */
  function SetterAfter(es: seq<Event>): Option<Setter> {
    if es == [] then Some(Setter(Idle, 0))
    else
      match SetterAfter(es[..|es| - 1])
      case None => None
      case Some(p) => SetterStep(p, es[|es| - 1])
  }

  /** Steps of the callbacks and of takers, not of the caller's thread that sets and clears. */
  predicate Others(es: seq<Event>) {
    forall e :: e in es ==> e.Enter? || e.Notify? || e.FailedReply? || e.TakeResponse?
  }

  lemma {:induction false} OthersInterleave(es: seq<Event>, others: seq<Event>)
    requires Others(others)
    ensures SetterAfter(es + others) == SetterAfter(es)
  {
    if others == [] {
      assert es + others == es;
    } else {
      var front, last := others[..|others| - 1], others[|others| - 1];
      assert (es + others)[..|es + others| - 1] == es + front;
      assert last in others && (es + others)[|es + others| - 1] == last;
      OthersInterleave(es, front);
    }
  }

  lemma SetterOne(es: seq<Event>, others: seq<Event>, e: Event)
    requires SetterAfter(es).Some? && Others(others)
    ensures SetterAfter(es + others + [e]) == SetterStep(SetterAfter(es).value, e)
  {
    OthersInterleave(es, others);
    assert (es + others + [e])[..|es + others|] == es + others;
  }

  lemma SerialInstalls(es: seq<Event>, a: seq<Event>, b: seq<Event>, n: nat)
    requires SetterAfter(es) == Some(Setter(Idle, n)) && Others(a) && Others(b)
    ensures SetterAfter(es + a + [Drain(n + 1)] + b + [Install(n + 1)]) == Some(Setter(Installed, n + 1))
  {
    SetterOne(es, a, Drain(n + 1));
    SetterOne(es + a + [Drain(n + 1)], b, Install(n + 1));
  }

  /** Runs of one thread that sets and clears go on without end, whatever else happens between its
      steps: when idle it can make its next set call, ... */
  lemma SerialSetsGoOn(es: seq<Event>, a: seq<Event>, b: seq<Event>, c: seq<Event>, n: nat)
    requires SetterAfter(es) == Some(Setter(Idle, n)) && Others(a) && Others(b) && Others(c)
    ensures SetterAfter(es + a + [Drain(n + 1)] + b + [Install(n + 1)] + c + [Bind(n + 1)])
            == Some(Setter(Idle, n + 1))
  {
    SerialInstalls(es, a, b, n);
    SetterOne(es + a + [Drain(n + 1)] + b + [Install(n + 1)], c, Bind(n + 1));
  }

  /** ... or clear. */
  lemma SerialClearsGoOn(es: seq<Event>, a: seq<Event>, b: seq<Event>, n: nat)
    requires SetterAfter(es) == Some(Setter(Idle, n)) && Others(a) && Others(b)
    ensures SetterAfter(es + a + [Clear] + b + [Unbind]) == Some(Setter(Idle, n))
  {
    SetterOne(es, a, Clear);
    SetterOne(es + a + [Clear], b, Unbind);
  }

  /** Only between installing a callback and binding its data are the two from different calls. */
  lemma {:induction false} DataFollowsCallback(capacity: nat, es: seq<Event>)
    requires SetterAfter(es).Some?
    ensures var s, p := Run(capacity, es), SetterAfter(es).value;
            && (s.data.Some? ==> s.data.value <= p.calls)
            && (p.phase.Drained? && s.data.Some? ==> s.data.value < p.calls)
            && (p.phase.Installed? ==> s.callback == Some(p.calls) && s.data != s.callback)
            && (p.phase.Cleared? ==> s.callback == None)
            && (!p.phase.Installed? && s.callback.Some? ==> s.data == s.callback)
  {
    if es != [] {
      DataFollowsCallback(capacity, es[..|es| - 1]);
    }
  }

  predicate NoBind(es: seq<Event>, i: int, j: int) {
    forall k :: 0 <= k < |es| && i < k < j ==> !es[k].Bind?
  }

  /** The notification `j` comes after the installation `i` and before its data is bound. */
  predicate BetweenInstallAndBind(capacity: nat, es: seq<Event>, i: int, j: int) {
    0 <= i < j < |es| && es[i].Install? && Notifies(capacity, es, j) && NoBind(es, i, j)
  }

  lemma {:induction false} InstalledIff(es: seq<Event>)
    requires SetterAfter(es).Some?
    ensures SetterAfter(es).value.phase.Installed? <==>
              exists i :: 0 <= i < |es| && es[i].Install? && NoBind(es, i, |es|)
  {
    if es != [] {
      var n, front := |es| - 1, es[..|es| - 1];
      InstalledIff(front);
      if SetterAfter(front).value.phase.Installed? && !es[n].Bind? {
        var i :| 0 <= i < |front| && front[i].Install? && NoBind(front, i, |front|);
        assert es[i].Install? && NoBind(es, i, |es|);
      }
      if es[n].Install? {
        assert NoBind(es, n, |es|);
      }
      forall i | 0 <= i < n && es[i].Install? && NoBind(es, i, |es|)
        ensures SetterAfter(front).value.phase.Installed? && !es[n].Bind?
      {
        assert front[i].Install? && NoBind(front, i, |front|);
      }
    }
  }

  /** For calls that do not overlap, the foreign notifications are exactly those between the store of a
      callback and the store of its user data. */
  lemma {:induction false} ForeignIffBetween(capacity: nat, es: seq<Event>, j: int)
    requires 0 <= j < |es| && SetterAfter(es[..j]).Some?
    ensures (exists i :: Foreign(capacity, es, i, j)) <==>
              exists i :: BetweenInstallAndBind(capacity, es, i, j)
  {
    var before, now := es[..j], es[..j + 1];
    assert now[..j] == before;
    LastForeignIff(capacity, now);
    DataFollowsCallback(capacity, before);
    InstalledIff(before);
    forall i
      ensures Foreign(capacity, es, i, j) <==> Foreign(capacity, now, i, j)
    {
    }
    if i :| BetweenInstallAndBind(capacity, es, i, j) {
      assert before[i].Install? && NoBind(before, i, j);
    }
    if Notifies(capacity, es, j) && SetterAfter(before).value.phase.Installed? {
      var i :| 0 <= i < j && before[i].Install? && NoBind(before, i, j);
      assert NoBind(es, i, j) by {
        assert forall k :: i < k < j ==> es[k] == before[k];
      }
      assert BetweenInstallAndBind(capacity, es, i, j);
    }
  }

  lemma {:induction false} SetterBefore(es: seq<Event>, n: nat)
    requires n <= |es| && SetterAfter(es).Some?
    ensures SetterAfter(es[..n]).Some?
  {
    if n < |es| {
      assert es[..|es| - 1][..n] == es[..n];
      SetterBefore(es[..|es| - 1], n);
    } else {
      assert es[..n] == es;
    }
  }

  /** So over every run in which set and clear calls do not overlap each other, all invocations match if
      and only if no notification comes between those two stores. */
  lemma SerialInvocationsMatchIff(capacity: nat, es: seq<Event>)
    requires SetterAfter(es).Some?
    ensures Matched(Run(capacity, es).invocations) <==>
              !exists i, j :: BetweenInstallAndBind(capacity, es, i, j)
  {
    InvocationsMatchIff(capacity, es);
    if i, j :| Foreign(capacity, es, i, j) {
      SetterBefore(es, j);
      ForeignIffBetween(capacity, es, j);
    }
    if i, j :| BetweenInstallAndBind(capacity, es, i, j) {
      SetterBefore(es, j);
      ForeignIffBetween(capacity, es, j);
    }
  }

  /** There the new callback is called with the data of the old one. */
  lemma NotifyBeforeBindMixesCalls(capacity: nat, s: State, call: nat)
    requires s.unread == 0 && s.due > 0
    ensures Step(capacity, Step(capacity, Step(capacity, s, Drain(call)), Install(call)), Notify).invocations
              == s.invocations + [Invocation(call, s.data, 1)]
  {
  }

  // ---- The client object

  class ResponseSide {
    const capacity: nat
    var rx: seq<Response>
    var callback: Option<nat>
    var userData: Option<nat>
    var unread: nat
    /** Replies offered to the channel whose notification is still to come. */
    ghost var due: nat
    ghost var es: seq<Event>

    ghost predicate Valid()
      reads this
    {
      var s := Run(capacity, es);
      && rx == s.rx && callback == s.callback && userData == s.data && unread == s.unread
      && due == s.due
    }

    constructor (capacity: nat)
      ensures Valid() && es == [] && this.capacity == capacity
    {
      this.capacity := capacity;
      rx, callback, userData, unread, due, es := [], None, None, 0, 0, [];
    }

    ghost method Record(e: Event)
      modifies this`es
      ensures es == old(es) + [e]
      ensures Run(capacity, es) == Step(capacity, Run(capacity, old(es)), e)
    {
      es := es + [e];
      assert es[..|es| - 1] == old(es);
    }

    /** First step of the reply callback: a reply is offered to the channel. */
    method OnReply(reply: Response)
      requires Valid()
      modifies this
      ensures Valid() && es == old(es) + [Enter(reply)] && due == old(due) + 1
      ensures rx == if |old(rx)| < capacity then old(rx) + [reply] else old(rx)
      ensures callback == old(callback) && userData == old(userData) && unread == old(unread)
    {
      Record(Enter(reply));
      if |rx| < capacity {
        rx := rx + [reply];
      }
      due := due + 1;
    }

    /** Second step, whether or not there was room: the caller's callback is called, if there is one. */
    method NotifyCaller() returns (announced: Option<Invocation>)
      requires Valid() && due > 0
      modifies this
      ensures Valid() && es == old(es) + [Notify] && due == old(due) - 1 && rx == old(rx)
      ensures announced == if callback.Some? then Some(Invocation(callback.value, userData, 1)) else None
      ensures unread == if callback.Some? then old(unread) else old(unread) + 1
      ensures callback == old(callback) && userData == old(userData)
      ensures Run(capacity, es).invocations == Run(capacity, old(es)).invocations
                + if announced.Some? then [announced.value] else []
    {
      Record(Notify);
      due := due - 1;
      announced := None;
      if callback.Some? {
        announced := Some(Invocation(callback.value, userData, 1));
      } else {
        unread := unread + 1;
      }
    }

    /** An error reply. */
    method OnError()
      requires Valid()
      modifies this`es
      ensures Valid() && es == old(es) + [FailedReply]
    {
      Record(FailedReply);
    }

    /** First step of setting a callback. */
    method DrainUnread(call: nat) returns (announced: Option<Invocation>)
      requires Valid()
      modifies this
      ensures Valid() && es == old(es) + [Drain(call)] && unread == 0
      ensures callback == old(callback) && userData == old(userData)
      ensures announced ==
                if old(unread) > 0 then Some(Invocation(call, Some(call), old(unread))) else None
      ensures Run(capacity, es).invocations == Run(capacity, old(es)).invocations
                + if announced.Some? then [announced.value] else []
    {
      Record(Drain(call));
      announced := None;
      if unread > 0 {
        announced := Some(Invocation(call, Some(call), unread));
        unread := 0;
      }
    }

    /** Second step. */
    method InstallCallback(call: nat)
      requires Valid()
      modifies this
      ensures Valid() && es == old(es) + [Install(call)] && callback == Some(call)
      ensures userData == old(userData) && unread == old(unread)
    {
      Record(Install(call));
      callback := Some(call);
    }

    /** Third step. */
    method BindUserData(call: nat)
      requires Valid()
      modifies this
      ensures Valid() && es == old(es) + [Bind(call)] && userData == Some(call)
      ensures callback == old(callback) && unread == old(unread)
    {
      Record(Bind(call));
      userData := Some(call);
    }

    /** First step of clearing. */
    method ClearCallback()
      requires Valid()
      modifies this
      ensures Valid() && es == old(es) + [Clear] && callback == None
      ensures userData == old(userData) && unread == old(unread)
    {
      Record(Clear);
      callback := None;
    }

    /** Second step of clearing. */
    method UnbindUserData()
      requires Valid()
      modifies this
      ensures Valid() && es == old(es) + [Unbind] && userData == None
      ensures callback == old(callback) && unread == old(unread)
    {
      Record(Unbind);
      userData := None;
    }

    /** `rmw_client_set_on_new_response_callback` when nothing overlaps it: what was counted is
        reported to the new callback with the new data, and the two are in force together. */
    method SetCallback(call: Option<nat>) returns (announced: Option<Invocation>)
      requires Valid()
      modifies this
      ensures Valid()
      ensures es == old(es) + if call.Some?
                              then [Drain(call.value), Install(call.value), Bind(call.value)]
                              else [Clear, Unbind]
      ensures callback == userData == call
      ensures unread == if call.Some? then 0 else old(unread)
      ensures announced == if call.Some? && old(unread) > 0
                           then Some(Invocation(call.value, call, old(unread))) else None
    {
      announced := None;
      if call.Some? {
        announced := DrainUnread(call.value);
        InstallCallback(call.value);
        BindUserData(call.value);
      } else {
        ClearCallback();
        UnbindUserData();
      }
    }

    /** `take_response`. The header, if any, identifies the request by the response's attachment. */
    method TakeResponse(header: Servers.RequestHeader?, now: int)
      returns (status: Status, taken: bool, payload: Option<seq<byte>>)
      requires Valid() && (header != null ==> header.Valid())
      modifies this, header, if header == null then null else header.writerGuid
      ensures Valid() && status == Ok && es == old(es) + [Event.TakeResponse]
      ensures taken <==> old(rx) != []
      ensures payload == if taken then Some(old(rx)[0].payload) else None
      ensures rx == if taken then old(rx)[1..] else []
      ensures taken && header != null ==>
                var a := old(rx)[0].attachment;
                && header.sequenceNumber == (if a.Parsed? then a.attachment.sequenceNumber else 0)
                && header.writerGuid[..] == (if a.Parsed? then a.attachment.sourceGid else seq(16, _ => 0))
                && header.sourceTimestamp == (if a.Parsed? then a.attachment.sourceTimestamp else 0)
                && header.receivedTimestamp == now
      ensures !taken && header != null ==> unchanged(header) && unchanged(header.writerGuid)
    {
      status, taken, payload := Ok, false, None;
      Record(Event.TakeResponse);
      if rx == [] {
        return;
      }
      var sample := rx[0];
      rx := rx[1..];
      payload := Some(sample.payload);
      if header != null {
        var a := sample.attachment;
        var gid := if a.Parsed? then a.attachment.sourceGid else ZERO_GID;
        header.sequenceNumber := if a.Parsed? then a.attachment.sequenceNumber else 0;
        forall i | 0 <= i < 16 {
          header.writerGuid[i] := gid[i];
        }
        assert header.writerGuid[..] == gid;
        header.sourceTimestamp := if a.Parsed? then a.attachment.sourceTimestamp else 0;
        header.receivedTimestamp := now;
      }
      taken := true;
    }
  }
}
