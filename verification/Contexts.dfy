/** The life of a context: rmw_init, rmw_shutdown, rmw_context_fini
    (crates/rmw-zenoh-rs/src/context.rs:60-127, 295-401). */
module Contexts {
  import opened Common
  import opened Boxes

  /** The parts of `ContextImpl` that the life cycle looks at. Nothing ever adds to `nodes`. */
  datatype ContextImpl = ContextImpl(domainId: nat, enclave: string, isShutdown: bool, nodes: set<Ptr>)

  datatype Options = Options(domainId: nat, enclave: Option<string>)

  /** `identified` tells whether the context's implementation identifier is set. No function of this
      layer sets it; `Identify` is the caller doing so. `built` is the outcome of building the
      Zenoh context, which is foreign code. */
  datatype Event = Init(options: Options, built: bool) | Shutdown | Fini | Identify(on: bool)

  datatype State = State(impl: Option<ContextImpl>, identified: bool, boxed: nat, freed: nat)

  const ZEROED: State := State(None, false, 0, 0)

  function Built(o: Options): ContextImpl {
    ContextImpl(o.domainId, if o.enclave.Some? then o.enclave.value else "/", false, {})
  }

  predicate CanFini(s: State) {
    s.impl.Some? && s.impl.value.isShutdown && s.impl.value.nodes == {} && s.identified
  }

  function Step(s: State, e: Event): (State, Ret) {
    match e
    case Init(o, built) =>
      if s.impl.Some? then (s, RetAlreadyInit)
      else if !built then (s, RetError)
      else (s.(impl := Some(Built(o)), boxed := s.boxed + 1), RetOk)
    case Shutdown =>
      if s.impl == None then (s, RetInvalidArgument)
      else (s.(impl := Some(s.impl.value.(isShutdown := true))), RetOk)
    case Fini =>
      if CanFini(s) then (s.(impl := None, freed := s.freed + 1), RetOk)
      else (s, RetInvalidArgument)
    case Identify(on) => (s.(identified := on), RetOk)
  }

  function Run(s: State, es: seq<Event>): State
    decreases |es|
  {
    if es == [] then s else Run(Step(s, es[0]).0, es[1..])
  }

  /** The calls of a run that returned RetOk, in order. */
  function Successes(s: State, es: seq<Event>): seq<Event>
    decreases |es|
  {
    if es == [] then []
    else
      var (t, ret) := Step(s, es[0]);
      (if ret == RetOk && !es[0].Identify? then [es[0]] else []) + Successes(t, es[1..])
  }

  /** The promised protocol, independent of the implementation. */
  datatype Phase = Absent | Running | Down

  function Advance(p: Phase, e: Event): Option<Phase> {
    match (p, e)
    case (Absent, Init(_, _)) => Some(Running)
    case (Running, Shutdown) => Some(Down)
    case (Down, Shutdown) => Some(Down)
    case (Down, Fini) => Some(Absent)
    case _ => None
  }

  /** The phase after the calls `es`, or None if they break the protocol. */
  function Follow(p: Phase, es: seq<Event>): Option<Phase>
    decreases |es|
  {
    if es == [] then Some(p)
    else
      var q := Advance(p, es[0]);
      if q == None then None else Follow(q.value, es[1..])
  }

  function PhaseOf(s: State): Phase {
    if s.impl == None then Absent else if s.impl.value.isShutdown then Down else Running
  }

  ghost predicate Sound(s: State) {
    && s.boxed == s.freed + (if s.impl.Some? then 1 else 0)
    && (s.impl.Some? ==> s.impl.value.nodes == {})
  }

  /** Over every run: the successful calls follow the protocol (an implementation exists exactly
      between a successful init and the next successful fini, and every successful fini comes after
      a shutdown of the same incarnation), and at most one box is outstanding. */
  lemma {:induction false} SuccessesFollowTheProtocol(s: State, es: seq<Event>)
    requires Sound(s)
    ensures Sound(Run(s, es))
    ensures Follow(PhaseOf(s), Successes(s, es)) == Some(PhaseOf(Run(s, es)))
    decreases |es|
  {
    if es != [] {
      var (t, ret) := Step(s, es[0]);
      SuccessesFollowTheProtocol(t, es[1..]);
      if ret == RetOk && !es[0].Identify? {
        assert Successes(s, es)[1..] == Successes(t, es[1..]);
      } else {
        assert Successes(s, es) == Successes(t, es[1..]);
      }
    }
  }

  /** Over every run from a fresh context, fini succeeds next if and only if the context is down and
      somebody set its identifier. */
  lemma FiniSucceedsIff(es: seq<Event>)
    ensures var s := Run(ZEROED, es);
            Step(s, Fini).1 == RetOk <==> PhaseOf(s) == Down && s.identified
  {
    SuccessesFollowTheProtocol(ZEROED, es);
  }

  /** As no function of the layer sets the identifier, a context that nobody else identifies is
      never finalized and its box never freed. */
  lemma {:induction false} UnidentifiedIsNeverFreed(s: State, es: seq<Event>)
    requires !s.identified && forall e :: e in es ==> e != Identify(true)
    ensures Run(s, es).freed == s.freed && !Run(s, es).identified
    ensures forall e :: e in Successes(s, es) ==> e != Fini
    decreases |es|
  {
    if es != [] {
      assert forall e :: e in es[1..] ==> e in es;
      assert es[0] in es;
      UnidentifiedIsNeverFreed(Step(s, es[0]).0, es[1..]);
    }
  }

  /** The options of the last init among `calls`, or `o` if there is none. */
  function LastOptions(o: Options, calls: seq<Event>): Options
    decreases |calls|
  {
    if calls == [] then o
    else LastOptions(if calls[0].Init? then calls[0].options else o, calls[1..])
  }

  ghost predicate Carries(impl: ContextImpl, o: Options) {
    && impl.domainId == o.domainId
    && impl.enclave == (match o.enclave case None => "/" case Some(enclave) => enclave)
  }

  /** Over every run: while there is an implementation, it carries the domain id and the enclave of the
      last successful init, the enclave "/" where that had none. */
  lemma {:induction false} ImplCarriesItsOptions(s: State, es: seq<Event>, o: Options)
    requires s.impl.Some? ==> Carries(s.impl.value, o)
    ensures Run(s, es).impl.Some? ==> Carries(Run(s, es).impl.value, LastOptions(o, Successes(s, es)))
    decreases |es|
  {
    if es != [] {
      var (t, ret) := Step(s, es[0]);
      if ret == RetOk && !es[0].Identify? {
        assert Successes(s, es)[1..] == Successes(t, es[1..]);
        ImplCarriesItsOptions(t, es[1..], if es[0].Init? then es[0].options else o);
      } else {
        assert Successes(s, es) == Successes(t, es[1..]);
        ImplCarriesItsOptions(t, es[1..], o);
      }
    }
  }

  // ---- The context object ----

  class Context {
    const heap: Heap<ContextImpl>
    const self: Ptr
    var identified: bool
    var instanceId: nat
    var actualDomainId: nat
    /** Allocations and frees before this context was made. */
    ghost const base: (nat, nat)

    ghost predicate Valid()
      reads this, heap
    {
      && heap.Valid() && self in heap.cells && heap.cells[self].Handle?
      && base.0 <= heap.allocations && base.1 <= heap.frees
    }

    ghost function Snapshot(): State
      requires Valid()
      reads this, heap
    {
      var data := heap.cells[self].data;
      State(if data == NULL then None else Some(heap.cells[data].value),
            identified, heap.allocations - base.0, heap.frees - base.1)
    }

    constructor (heap: Heap<ContextImpl>)
      requires heap.Valid()
      modifies heap
      ensures Valid() && this.heap == heap
      ensures Snapshot() == ZEROED
    {
      this.heap := heap;
      var h := heap.NewHandle();
      self := h;
      base := (heap.allocations, heap.frees);
      identified, instanceId, actualDomainId := false, 0, 0;
    }

    method Init(options: Options, built: bool) returns (ret: Ret)
      requires Valid()
      modifies this, heap
      ensures Valid()
      ensures (Snapshot(), ret) == Step(old(Snapshot()), Event.Init(options, built))
      ensures ret == if old(heap.cells[self].data) != NULL then RetAlreadyInit
                     else if !built then RetError
                     else RetOk
      ensures ret == RetOk ==>
                && instanceId == 1 && actualDomainId == options.domainId
                && var data := heap.cells[self].data;
                && data != NULL && data in heap.cells
                && heap.cells[data] == Boxed(ContextImpl(
                     options.domainId, if options.enclave == None then "/" else options.enclave.value,
                     false, {}))
      ensures ret != RetOk ==> unchanged(this) && unchanged(heap)
    {
      if heap.cells[self].data != NULL {
        return RetAlreadyInit;
      }
      var enclave := if options.enclave == None then "/" else options.enclave.value;
      if !built {
        return RetError;
      }
      var r := heap.Assign(self, ContextImpl(options.domainId, enclave, false, {}));
      if r.Failure? {
        return RetError;
      }
      instanceId := 1;
      actualDomainId := options.domainId;
      ret := RetOk;
    }

    method Shutdown() returns (ret: Ret)
      requires Valid()
      modifies heap
      ensures Valid()
      ensures (Snapshot(), ret) == Step(old(Snapshot()), Event.Shutdown)
      ensures ret == if heap.cells[self].data == NULL then RetInvalidArgument else RetOk
      ensures heap.cells[self] == old(heap.cells[self])
      ensures ret == RetOk ==>
                var impl := old(heap.cells[heap.cells[self].data].value);
                Snapshot().impl == Some(ContextImpl(impl.domainId, impl.enclave, true, impl.nodes))
    {
      if heap.cells[self].data == NULL {
        return RetInvalidArgument;
      }
      var r := heap.Borrow(self);
      if r.Failure? {
        return RetInvalidArgument;
      }
      heap.cells := heap.cells[r.value := Boxed(heap.cells[r.value].value.(isShutdown := true))];
      ret := RetOk;
    }

    method Fini() returns (ret: Ret)
      requires Valid()
      modifies heap
      ensures Valid()
      ensures (Snapshot(), ret) == Step(old(Snapshot()), Event.Fini)
      ensures ret in {RetOk, RetInvalidArgument}
      ensures ret == RetOk <==>
                && old(heap.cells[self].data) != NULL && identified
                && var impl := old(heap.cells[heap.cells[self].data].value);
                impl.isShutdown && impl.nodes == {}
    {
      var r := heap.Borrow(self);
      if r.Failure? {
        return RetInvalidArgument;
      }
      var impl := heap.cells[r.value].value;
      if !impl.isShutdown {
        return RetInvalidArgument;
      }
      if impl.nodes != {} {
        return RetInvalidArgument;
      }
      if !identified {
        return RetInvalidArgument;
      }
      var owned := heap.Own(self);
      ret := if owned.Success? then RetOk else RetError;
    }
  }
}
