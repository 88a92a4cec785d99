/** Nodes, their guard conditions and the graph trigger (crates/rmw-zenoh-rs/src/node.rs:53-159,
    crates/rmw-zenoh-rs/src/guard_condition.rs, crates/ros-z/src/event.rs:185-246). */
module Nodes {
  import opened Common
  import opened Boxes

  /** What the handles of this layer own. */
  datatype Impl = NodeImpl(guard: Ptr) | GuardImpl(notifier: bool, triggered: bool)

  type Cells = map<Ptr, Cell<Impl>>

  predicate Owns(cells: Cells, h: Ptr) {
    && h in cells && cells[h].Handle? && cells[h].data != NULL
    && cells[h].data in cells && cells[cells[h].data].Boxed?
  }

  function Owned(cells: Cells, h: Ptr): Impl
    requires Owns(cells, h)
  {
    cells[cells[h].data].value
  }

  predicate IsGuard(cells: Cells, g: Ptr) {
    Owns(cells, g) && Owned(cells, g).GuardImpl? && Owned(cells, g).notifier
  }

  predicate IsTriggered(cells: Cells, g: Ptr) {
    IsGuard(cells, g) && Owned(cells, g).triggered
  }

  /** Every owner outside `gone` still owns what it owned. */
  ghost predicate Kept(cells: Cells, after: Cells, gone: set<Ptr>) {
    forall h {:trigger Owns(cells, h)} :: h !in gone && Owns(cells, h) ==>
      Owns(after, h) && Owned(after, h) == Owned(cells, h)
  }

  /** The owners in `hs` own the same as before. */
  ghost predicate Same(cells: Cells, after: Cells, hs: set<Ptr>) {
    forall h {:trigger h in hs} :: h in hs ==>
      Owns(cells, h) && Owns(after, h) && Owned(after, h) == Owned(cells, h)
  }

  lemma SameThrough(cells: Cells, mid: Cells, after: Cells, hs: set<Ptr>)
    requires Same(cells, mid, hs) && Same(mid, after, hs)
    ensures Same(cells, after, hs)
  {
  }

  /** The guard condition of every node is latched. */
  ghost predicate AllTriggered(cells: Cells, nodes: map<Ptr, Ptr>) {
    forall n {:trigger n in nodes} :: n in nodes ==> IsTriggered(cells, nodes[n])
  }

  // ---- One owner at a time

  lemma AddOwner(cells: Cells, h: Ptr, b: Ptr, v: Impl)
    requires WellOwned(cells) && NULL !in {h, b} && h !in cells && b !in cells && h != b
    ensures var r := cells[h := Handle(b)][b := Boxed(v)];
            && WellOwned(r) && |r| == |cells| + 2
            && Owns(r, h) && Owned(r, h) == v && Kept(cells, r, {})
  {
    var r := cells[h := Handle(b)][b := Boxed(v)];
    assert forall x :: x in r && r[x].Handle? && x != h ==> x in cells && r[x] == cells[x];
    assert forall x :: x in cells ==> r[x] == cells[x];
  }

  lemma DropOwner(cells: Cells, h: Ptr)
    requires WellOwned(cells) && Owns(cells, h)
    ensures var r := cells - {h, cells[h].data};
            WellOwned(r) && |r| == |cells| - 2 && Kept(cells, r, {h})
  {
    var r := cells - {h, cells[h].data};
    assert r.Keys == cells.Keys - {h, cells[h].data};
    assert |r.Keys| == |r| && |cells.Keys| == |cells|;
  }

  lemma SetOwned(cells: Cells, h: Ptr, v: Impl)
    requires WellOwned(cells) && Owns(cells, h)
    ensures var r := cells[cells[h].data := Boxed(v)];
            && WellOwned(r) && r.Keys == cells.Keys && |r| == |cells|
            && Owns(r, h) && Owned(r, h) == v && r[h] == cells[h] && Kept(cells, r, {h})
  {
    var r := cells[cells[h].data := Boxed(v)];
    assert |r.Keys| == |r| && |cells.Keys| == |cells| && r.Keys == cells.Keys;
  }

  // ---- The graph trigger

  /** `rmw_trigger_guard_condition` on a handle that is not null. */
  function Trigger(cells: Cells, g: Ptr): Cells {
    if IsGuard(cells, g) then cells[cells[g].data := Boxed(GuardImpl(true, true))] else cells
  }

  function TriggerEach(cells: Cells, gs: seq<Ptr>): Cells {
    if gs == [] then cells else Trigger(TriggerEach(cells, gs[..|gs| - 1]), gs[|gs| - 1])
  }

  /** A graph change latches every listed guard condition and touches nothing else. */
  lemma {:induction false} TriggerEachLatches(cells: Cells, gs: seq<Ptr>)
    requires WellOwned(cells) && forall g :: g in gs ==> IsGuard(cells, g)
    ensures var r := TriggerEach(cells, gs);
            && WellOwned(r) && |r| == |cells| && r.Keys == cells.Keys
            && (forall g :: g in gs ==> IsTriggered(r, g))
            && Kept(cells, r, set g | g in gs)
  {
    if gs != [] {
      var front, last := gs[..|gs| - 1], gs[|gs| - 1];
      assert gs == front + [last];
      TriggerEachLatches(cells, front);
      var mid := TriggerEach(cells, front);
      assert last in gs && IsGuard(mid, last);
      SetOwned(mid, last, GuardImpl(true, true));
    }
  }

  // ---- Who owns what

  /** Each live node owns its implementation and, through it, a live guard condition. */
  ghost predicate Tracked(cells: Cells, nodes: map<Ptr, Ptr>, guards: set<Ptr>) {
    && (forall n {:trigger n in nodes} :: n in nodes ==> Owns(cells, n) && Owned(cells, n) == NodeImpl(nodes[n]))
    && (forall n {:trigger n in nodes} :: n in nodes ==> IsGuard(cells, nodes[n]))
    && (forall g {:trigger g in guards} :: g in guards ==> IsGuard(cells, g))
  }

  /** The list holds exactly the guard conditions of live nodes, once each; no two nodes share one,
      and callers own none of them. */
  ghost predicate Registered(nodes: map<Ptr, Ptr>, guards: set<Ptr>, registered: seq<Ptr>) {
    && multiset(registered) == multiset(nodes.Values) && nodes.Values !! guards
    && (forall m, n {:trigger m in nodes, n in nodes} ::
          m in nodes && n in nodes && nodes[m] == nodes[n] ==> m == n)
  }

  /** `nodes` maps each live node to its guard condition, `guards` are the guard conditions made by
      callers, `registered` is the list the graph trigger walks. There is no other box than the four
      of each node and the two of each guard condition. */
  ghost predicate Settled(cells: Cells, nodes: map<Ptr, Ptr>, guards: set<Ptr>, registered: seq<Ptr>) {
    && Tracked(cells, nodes, guards) && Registered(nodes, guards, registered)
    && |cells| == 4 * |nodes| + 2 * |guards|
  }

  /** The graph trigger never meets a freed guard condition. */
  lemma RegisteredAreLive(cells: Cells, nodes: map<Ptr, Ptr>, guards: set<Ptr>, registered: seq<Ptr>)
    requires Tracked(cells, nodes, guards) && Registered(nodes, guards, registered)
    ensures forall g :: g in registered <==> g in nodes.Values
    ensures forall g :: g in registered ==> IsGuard(cells, g) && g !in guards
  {
    forall g
      ensures g in registered <==> g in nodes.Values
    {
      assert g in registered <==> g in multiset(registered);
    }
  }

  lemma TriggerKeepsTracked(cells: Cells, nodes: map<Ptr, Ptr>, guards: set<Ptr>, gs: seq<Ptr>)
    requires WellOwned(cells) && Tracked(cells, nodes, guards)
    requires forall g :: g in gs ==> IsGuard(cells, g) && g !in guards
    ensures var r := TriggerEach(cells, gs);
            && WellOwned(r) && Tracked(r, nodes, guards) && |r| == |cells|
            && (forall g :: g in gs ==> IsTriggered(r, g))
            && Same(cells, r, guards)
  {
    TriggerEachLatches(cells, gs);
    var r := TriggerEach(cells, gs);
    forall n | n in nodes
      ensures Owns(r, n) && Owned(r, n) == NodeImpl(nodes[n]) && IsGuard(r, nodes[n])
    {
      assert !IsGuard(cells, n) && n !in gs;
    }
    forall g | g in guards
      ensures IsGuard(r, g) && Owned(r, g) == Owned(cells, g)
    {
      assert g !in gs;
    }
  }

  /** A graph change, whatever the history before it, latches the guard condition of every live
      node, leaves those of callers alone and keeps the ownership invariant. */
  lemma GraphChangeReachesNodes(cells: Cells, nodes: map<Ptr, Ptr>, guards: set<Ptr>,
                                registered: seq<Ptr>)
    requires WellOwned(cells) && Settled(cells, nodes, guards, registered)
    ensures var r := TriggerEach(cells, registered);
            && WellOwned(r) && Settled(r, nodes, guards, registered)
            && AllTriggered(r, nodes) && Same(cells, r, guards)
  {
    RegisteredAreLive(cells, nodes, guards, registered);
    TriggerKeepsTracked(cells, nodes, guards, registered);
  }

  /** `h` is a handle, and the box it owns holds `v`. */
  ghost predicate Contains(cells: Cells, h: Ptr, v: Impl) {
    && h in cells && cells[h].Handle? && cells[h].data != NULL
    && cells[h].data in cells && cells[cells[h].data] == Boxed(v)
  }

  /** The same box by box: afterwards every node's handle holds its guard condition, which holds a set
      latch, and what the callers' guard conditions hold is what they held. */
  lemma GraphChangeSetsLatches(cells: Cells, nodes: map<Ptr, Ptr>, guards: set<Ptr>,
                               registered: seq<Ptr>, n: Ptr, g: Ptr, v: Impl)
    requires WellOwned(cells) && Settled(cells, nodes, guards, registered)
    ensures var r := TriggerEach(cells, registered);
            && (n in nodes ==> Contains(r, n, NodeImpl(nodes[n])) && Contains(r, nodes[n], GuardImpl(true, true)))
            && (g in guards && Contains(cells, g, v) ==> Contains(r, g, v))
  {
    GraphChangeReachesNodes(cells, nodes, guards, registered);
  }

  /** Setting or clearing the latch of any guard condition disturbs no owner. */
  lemma LatchKeepsOwners(cells: Cells, nodes: map<Ptr, Ptr>, guards: set<Ptr>, g: Ptr, triggered: bool)
    requires WellOwned(cells) && Tracked(cells, nodes, guards) && IsGuard(cells, g)
    ensures var r := cells[cells[g].data := Boxed(GuardImpl(true, triggered))];
            && WellOwned(r) && Tracked(r, nodes, guards) && |r| == |cells|
            && IsGuard(r, g) && IsTriggered(r, g) == triggered && Kept(cells, r, {g})
  {
    SetOwned(cells, g, GuardImpl(true, triggered));
    assert g !in nodes;
  }

  /** `Vec::retain(|g| g != x)`. */
  function Retain(gs: seq<Ptr>, x: Ptr): seq<Ptr> {
    if gs == [] then []
    else Retain(gs[..|gs| - 1], x) + if gs[|gs| - 1] != x then [gs[|gs| - 1]] else []
  }

  lemma {:induction false} RetainDropsOnly(gs: seq<Ptr>, x: Ptr)
    ensures multiset(Retain(gs, x)) == multiset(gs)[x := 0]
  {
    if gs != [] {
      var front, last := gs[..|gs| - 1], gs[|gs| - 1];
      assert gs == front + [last];
      RetainDropsOnly(front, x);
    }
  }

  /** `kept` is what stands in `gs` at the positions `at`, in that order; `x` stands everywhere else. */
  predicate KeptAt(gs: seq<Ptr>, x: Ptr, kept: seq<Ptr>, at: seq<nat>) {
    && |at| == |kept|
    && (forall i :: 0 <= i < |at| ==> at[i] < |gs| && gs[at[i]] == kept[i] != x)
    && (forall i, j :: 0 <= i < j < |at| ==> at[i] < at[j])
    && (forall k: nat :: k < |gs| && gs[k] != x ==> k in at)
  }

  lemma KeptAtSnoc(gs: seq<Ptr>, x: Ptr, kept: seq<Ptr>, at: seq<nat>, g: Ptr)
    requires KeptAt(gs, x, kept, at)
    ensures if g == x then KeptAt(gs + [g], x, kept, at)
            else KeptAt(gs + [g], x, kept + [g], at + [|gs|])
  {
    if g != x {
      assert forall k: nat :: k < |gs| && gs[k] != x ==> k in at + [|gs|];
      assert |gs| in at + [|gs|];
    }
  }

  /** What is kept keeps its order. */
  lemma {:induction false} RetainKeepsOrder(gs: seq<Ptr>, x: Ptr) returns (at: seq<nat>)
    ensures KeptAt(gs, x, Retain(gs, x), at)
  {
    if gs == [] {
      at := [];
    } else {
      var front, last := gs[..|gs| - 1], gs[|gs| - 1];
      at := RetainKeepsOrder(front, x);
      KeptAtSnoc(front, x, Retain(front, x), at, last);
      assert front + [last] == gs && Retain(front, x) + [] == Retain(front, x);
      if last != x {
        at := at + [|gs| - 1];
      }
    }
  }

  lemma Register(nodes: map<Ptr, Ptr>, guards: set<Ptr>, registered: seq<Ptr>, n: Ptr, g: Ptr)
    requires Registered(nodes, guards, registered)
    requires n !in nodes && g !in nodes.Values && g !in guards
    ensures Registered(nodes[n := g], guards, registered + [g])
    ensures |nodes[n := g]| == |nodes| + 1
  {
    ValuesAdded(nodes, n, g);
    assert multiset(registered + [g]) == multiset(nodes.Values) + multiset{g};
  }

  lemma ValuesAdded(nodes: map<Ptr, Ptr>, n: Ptr, g: Ptr)
    requires n !in nodes
    ensures nodes[n := g].Values == nodes.Values + {g} && |nodes[n := g]| == |nodes| + 1
  {
    var after := nodes[n := g];
    assert after[n] == g && n in after;
    assert forall m :: m in nodes ==> m in after && after[m] == nodes[m];
  }

  lemma Unregister(nodes: map<Ptr, Ptr>, guards: set<Ptr>, registered: seq<Ptr>, n: Ptr)
    requires Registered(nodes, guards, registered) && n in nodes
    ensures Registered(nodes - {n}, guards, Retain(registered, nodes[n]))
    ensures |nodes - {n}| == |nodes| - 1 && nodes[n] !in (nodes - {n}).Values
  {
    RetainDropsOnly(registered, nodes[n]);
    ValuesRemoved(nodes, n);
  }

  lemma ValuesRemoved(nodes: map<Ptr, Ptr>, n: Ptr)
    requires n in nodes && forall m {:trigger m in nodes} :: m in nodes && nodes[m] == nodes[n] ==> m == n
    ensures (nodes - {n}).Values == nodes.Values - {nodes[n]} && |nodes - {n}| == |nodes| - 1
  {
    var after := nodes - {n};
    assert after.Keys == nodes.Keys - {n} && |after.Keys| == |after| && |nodes.Keys| == |nodes|;
    assert forall m :: m in nodes && m != n ==> m in after && after[m] == nodes[m];
  }

  // ---- Ownership through each operation

  lemma TrackedKept(cells: Cells, after: Cells, nodes: map<Ptr, Ptr>, guards: set<Ptr>, gone: set<Ptr>)
    requires Tracked(cells, nodes, guards) && Kept(cells, after, gone)
    requires guards !! gone && nodes.Keys !! gone && nodes.Values !! gone
    ensures Tracked(after, nodes, guards) && Same(cells, after, guards)
    ensures AllTriggered(cells, nodes) ==> AllTriggered(after, nodes)
  {
    forall n | n in nodes
      ensures Owns(after, n) && Owned(after, n) == NodeImpl(nodes[n])
      ensures IsGuard(after, nodes[n]) && Owned(after, nodes[n]) == Owned(cells, nodes[n])
    {
      assert nodes[n] in nodes.Values;
      assert n in nodes.Keys;
    }
  }

  lemma GuardAdded(cells: Cells, after: Cells, nodes: map<Ptr, Ptr>, guards: set<Ptr>,
                   registered: seq<Ptr>, g: Ptr)
    requires Settled(cells, nodes, guards, registered) && g !in cells && IsGuard(after, g)
    requires Kept(cells, after, {}) && |after| == |cells| + 2
    ensures Settled(after, nodes, guards + {g}, registered) && Same(cells, after, guards)
  {
    TrackedKept(cells, after, nodes, guards, {});
    assert g !in guards;
    assert |guards + {g}| == |guards| + 1;
  }

  lemma GuardRemoved(cells: Cells, after: Cells, nodes: map<Ptr, Ptr>, guards: set<Ptr>,
                     registered: seq<Ptr>, g: Ptr)
    requires Settled(cells, nodes, guards, registered) && g in guards
    requires Kept(cells, after, {g}) && |after| == |cells| - 2
    ensures Settled(after, nodes, guards - {g}, registered) && Same(cells, after, guards - {g})
  {
    assert g !in nodes;
    TrackedKept(cells, after, nodes, guards - {g}, {g});
    assert |guards - {g}| == |guards| - 1;
  }

  /** Halfway through `rmw_create_node`: the guard condition `g` exists and has no node yet. */
  ghost predicate Pending(cells: Cells, nodes: map<Ptr, Ptr>, guards: set<Ptr>,
                          registered: seq<Ptr>, g: Ptr) {
    && Tracked(cells, nodes, guards) && Registered(nodes, guards, registered)
    && IsGuard(cells, g) && g !in guards && g !in nodes.Values
    && |cells| == 4 * |nodes| + 2 * |guards| + 2
  }

  lemma NodeBegun(cells: Cells, after: Cells, nodes: map<Ptr, Ptr>, guards: set<Ptr>,
                  registered: seq<Ptr>, g: Ptr)
    requires Settled(cells, nodes, guards, registered) && g !in cells && IsGuard(after, g)
    requires Kept(cells, after, {}) && |after| == |cells| + 2
    ensures Pending(after, nodes, guards, registered, g) && Same(cells, after, guards)
  {
    RegisteredAreLive(cells, nodes, guards, registered);
    TrackedKept(cells, after, nodes, guards, {});
  }

  lemma NodeAnnounced(cells: Cells, nodes: map<Ptr, Ptr>, guards: set<Ptr>, registered: seq<Ptr>,
                      g: Ptr)
    requires WellOwned(cells) && Pending(cells, nodes, guards, registered, g)
    ensures forall x :: x in registered + [g] ==> IsGuard(cells, x)
    ensures var r := TriggerEach(cells, registered + [g]);
            && Pending(r, nodes, guards, registered, g) && Same(cells, r, guards)
            && IsTriggered(r, g) && AllTriggered(r, nodes)
  {
    RegisteredAreLive(cells, nodes, guards, registered);
    TriggerKeepsTracked(cells, nodes, guards, registered + [g]);
    var r := TriggerEach(cells, registered + [g]);
    forall n | n in nodes
      ensures IsTriggered(r, nodes[n])
    {
      assert nodes[n] in registered + [g];
    }
    assert g in registered + [g];
  }

  lemma TrackedWith(cells: Cells, nodes: map<Ptr, Ptr>, guards: set<Ptr>, n: Ptr, g: Ptr)
    requires Tracked(cells, nodes, guards) && n !in nodes
    requires Owns(cells, n) && Owned(cells, n) == NodeImpl(g) && IsGuard(cells, g)
    ensures Tracked(cells, nodes[n := g], guards)
    ensures AllTriggered(cells, nodes) && IsTriggered(cells, g) ==> AllTriggered(cells, nodes[n := g])
  {
  }

  lemma NodeFinished(cells: Cells, after: Cells, nodes: map<Ptr, Ptr>, guards: set<Ptr>,
                     registered: seq<Ptr>, n: Ptr, g: Ptr)
    requires Pending(cells, nodes, guards, registered, g)
    requires n !in cells && Owns(after, n) && Owned(after, n) == NodeImpl(g)
    requires Kept(cells, after, {}) && |after| == |cells| + 2
    ensures Settled(after, nodes[n := g], guards, registered + [g])
    ensures Same(cells, after, guards) && Owned(after, g) == Owned(cells, g)
    ensures AllTriggered(cells, nodes) && IsTriggered(cells, g) ==> AllTriggered(after, nodes[n := g])
  {
    TrackedKept(cells, after, nodes, guards, {});
    assert n !in nodes;
    TrackedWith(after, nodes, guards, n, g);
    Register(nodes, guards, registered, n, g);
  }

  lemma GuardsAreNotNodes(cells: Cells, nodes: map<Ptr, Ptr>, guards: set<Ptr>, n: Ptr)
    requires Tracked(cells, nodes, guards) && n in nodes
    ensures n !in guards && n !in nodes.Values && nodes[n] !in nodes
  {
    forall m | m in nodes
      ensures nodes[m] != n
    {
      assert IsGuard(cells, nodes[m]);
    }
  }

  lemma TrackedWithout(cells: Cells, after: Cells, nodes: map<Ptr, Ptr>, guards: set<Ptr>, n: Ptr)
    requires Tracked(cells, nodes, guards) && n in nodes && nodes[n] !in guards
    requires nodes[n] !in (nodes - {n}).Values && Kept(cells, after, {nodes[n], n})
    ensures Tracked(after, nodes - {n}, guards) && Same(cells, after, guards)
    ensures AllTriggered(cells, nodes - {n}) ==> AllTriggered(after, nodes - {n})
  {
    var rest := nodes - {n};
    GuardsAreNotNodes(cells, nodes, guards, n);
    assert n !in rest.Values;
    TrackedKept(cells, after, rest, guards, {nodes[n], n});
  }

  /** Late in `rmw_destroy_node`: the guard condition of `n` is freed, its handle and implementation are
      not yet. `nodes` are the other nodes. */
  ghost predicate Bereft(cells: Cells, nodes: map<Ptr, Ptr>, guards: set<Ptr>, registered: seq<Ptr>,
                         n: Ptr) {
    && Tracked(cells, nodes, guards) && Registered(nodes, guards, registered)
    && Owns(cells, n) && Owned(cells, n).NodeImpl? && n !in nodes
    && |cells| == 4 * |nodes| + 2 * |guards| + 2
  }

  /** Freeing the guard condition of a node leaves all listed guard conditions alive. */
  lemma GuardFreed(cells: Cells, after: Cells, nodes: map<Ptr, Ptr>, guards: set<Ptr>,
                   registered: seq<Ptr>, n: Ptr)
    requires Settled(cells, nodes, guards, registered) && n in nodes
    requires Kept(cells, after, {nodes[n]}) && |after| == |cells| - 2
    ensures Bereft(after, nodes - {n}, guards, Retain(registered, nodes[n]), n)
    ensures forall g :: g in Retain(registered, nodes[n]) ==> IsGuard(after, g)
    ensures Same(cells, after, guards)
    ensures AllTriggered(cells, nodes - {n}) ==> AllTriggered(after, nodes - {n})
  {
    GuardsAreNotNodes(cells, nodes, guards, n);
    Unregister(nodes, guards, registered, n);
    assert Kept(cells, after, {nodes[n], n});
    TrackedWithout(cells, after, nodes, guards, n);
    RegisteredAreLive(after, nodes - {n}, guards, Retain(registered, nodes[n]));
  }

  /** A graph change in that state. */
  lemma BereftAnnounced(cells: Cells, nodes: map<Ptr, Ptr>, guards: set<Ptr>, registered: seq<Ptr>,
                        n: Ptr)
    requires WellOwned(cells) && Bereft(cells, nodes, guards, registered, n)
    ensures forall g :: g in registered ==> IsGuard(cells, g)
    ensures var r := TriggerEach(cells, registered);
            && WellOwned(r) && Bereft(r, nodes, guards, registered, n) && r.Keys == cells.Keys
            && Same(cells, r, guards) && AllTriggered(r, nodes)
  {
    RegisteredAreLive(cells, nodes, guards, registered);
    TriggerEachLatches(cells, registered);
    TriggerKeepsTracked(cells, nodes, guards, registered);
    assert n !in registered;
  }

  /** Freeing the node itself settles everything again. */
  lemma HandleFreed(cells: Cells, after: Cells, nodes: map<Ptr, Ptr>, guards: set<Ptr>,
                    registered: seq<Ptr>, n: Ptr)
    requires Bereft(cells, nodes, guards, registered, n)
    requires Kept(cells, after, {n}) && |after| == |cells| - 2
    ensures Settled(after, nodes, guards, registered) && Same(cells, after, guards)
    ensures AllTriggered(cells, nodes) ==> AllTriggered(after, nodes)
  {
    assert n !in guards;
    forall m | m in nodes
      ensures nodes[m] != n
    {
      assert IsGuard(cells, nodes[m]);
    }
    assert n !in nodes.Values;
    TrackedKept(cells, after, nodes, guards, {n});
  }

  /** A graph change while node `n` is halfway through its removal, its guard condition no longer
      listed but not yet freed. */
  lemma UnlistedAnnounced(cells: Cells, nodes: map<Ptr, Ptr>, guards: set<Ptr>, registered: seq<Ptr>,
                          n: Ptr)
    requires WellOwned(cells) && Settled(cells, nodes, guards, registered) && n in nodes
    ensures var rest := Retain(registered, nodes[n]);
            && (forall g :: g in rest ==> IsGuard(cells, g))
            && var r := TriggerEach(cells, rest);
               && WellOwned(r) && Settled(r, nodes, guards, registered) && Same(cells, r, guards)
               && AllTriggered(r, nodes - {n})
  {
    var rest := Retain(registered, nodes[n]);
    Unregister(nodes, guards, registered, n);
    RegisteredAreLive(cells, nodes, guards, registered);
    RetainDropsOnly(registered, nodes[n]);
    forall g | g in rest
      ensures g in registered
    {
      assert g in multiset(rest) && g in multiset(registered);
    }
    TriggerKeepsTracked(cells, nodes, guards, rest);
    forall m | m in nodes - {n}
      ensures nodes[m] in rest
    {
      assert nodes[m] in multiset((nodes - {n}).Values) by {
        assert (nodes - {n})[m] in (nodes - {n}).Values;
      }
      assert nodes[m] in multiset(rest);
    }
  }

  // ---- The operations

  /** A handle, its box and the value in it: `Box::into_raw` of the handle, then `assign_data`. */
  method NewOwner(heap: Heap<Impl>, v: Impl) returns (h: Ptr)
    requires heap.Valid()
    modifies heap
    ensures heap.Valid() && h !in old(heap.cells)
    ensures Owns(heap.cells, h) && Owned(heap.cells, h) == v && Kept(old(heap.cells), heap.cells, {})
    ensures |heap.cells| == |old(heap.cells)| + 2
    ensures heap.allocations == old(heap.allocations) + 2 && heap.frees == old(heap.frees)
  {
    ghost var before := heap.cells;
    h := heap.NewHandle();
    var done := heap.Assign(h, v);
    ghost var b := heap.cells[h].data;
    assert heap.cells == before[h := Handle(b)][b := Boxed(v)];
    AddOwner(before, h, b, v);
  }

  /** `own_data`, whose result is dropped, then `Box::from_raw` of the handle. */
  method FreeOwner(heap: Heap<Impl>, h: Ptr)
    requires heap.Valid() && Owns(heap.cells, h)
    modifies heap
    ensures heap.Valid() && heap.cells == old(heap.cells) - {h, old(heap.cells)[h].data}
    ensures Kept(old(heap.cells), heap.cells, {h}) && |heap.cells| == |old(heap.cells)| - 2
    ensures heap.frees == old(heap.frees) + 2 && heap.allocations == old(heap.allocations)
  {
    ghost var before := heap.cells;
    DropOwner(before, h);
    var dropped := heap.Own(h);
    heap.DropHandle(h);
    assert heap.cells == before - {h, before[h].data};
  }

  /** `borrow_data`, for the guard condition of a node. */
  method GuardOf(heap: Heap<Impl>, n: Ptr) returns (g: Ptr)
    requires heap.Valid() && Owns(heap.cells, n) && Owned(heap.cells, n).NodeImpl?
    ensures g == Owned(heap.cells, n).guard
  {
    var data := heap.Borrow(n);
    g := heap.cells[data.value].value.guard;
  }

  /** Boxes a node around the guard condition that was registered for it. */
  method FinishNode(heap: Heap<Impl>, ghost nodes: map<Ptr, Ptr>, ghost guards: set<Ptr>,
                    ghost registered: seq<Ptr>, g: Ptr)
    returns (n: Ptr)
    requires heap.Valid() && Pending(heap.cells, nodes, guards, registered, g)
    modifies heap
    ensures heap.Valid() && Settled(heap.cells, nodes[n := g], guards, registered + [g])
    ensures n !in nodes && n != NULL
    ensures heap.allocations == old(heap.allocations) + 2 && heap.frees == old(heap.frees)
    ensures Kept(old(heap.cells), heap.cells, {}) && Same(old(heap.cells), heap.cells, guards + {g})
    ensures AllTriggered(old(heap.cells), nodes) && IsTriggered(old(heap.cells), g) ==>
              AllTriggered(heap.cells, nodes[n := g])
  {
    n := NewOwner(heap, NodeImpl(g));
    NodeFinished(old(heap.cells), heap.cells, nodes, guards, registered, n, g);
  }

  /** `rmw_destroy_guard_condition` on a node's guard condition. */
  method FreeNodeGuard(heap: Heap<Impl>, ghost nodes: map<Ptr, Ptr>, ghost guards: set<Ptr>,
                       ghost registered: seq<Ptr>, n: Ptr, g: Ptr)
    requires heap.Valid() && Settled(heap.cells, nodes, guards, registered)
    requires n in nodes && g == nodes[n]
    modifies heap
    ensures heap.Valid() && Bereft(heap.cells, nodes - {n}, guards, Retain(registered, g), n)
    ensures g !in heap.cells && Same(old(heap.cells), heap.cells, guards)
    ensures heap.frees == old(heap.frees) + 2 && heap.allocations == old(heap.allocations)
    ensures AllTriggered(old(heap.cells), nodes - {n}) ==> AllTriggered(heap.cells, nodes - {n})
  {
    FreeOwner(heap, g);
    GuardFreed(old(heap.cells), heap.cells, nodes, guards, registered, n);
  }

  /** `own_data` and the free of the node. */
  method FreeNode(heap: Heap<Impl>, ghost nodes: map<Ptr, Ptr>, ghost guards: set<Ptr>,
                  ghost registered: seq<Ptr>, n: Ptr)
    requires heap.Valid() && Bereft(heap.cells, nodes, guards, registered, n)
    modifies heap
    ensures heap.Valid() && Settled(heap.cells, nodes, guards, registered)
    ensures n !in heap.cells && heap.cells.Keys <= old(heap.cells).Keys
    ensures Same(old(heap.cells), heap.cells, guards)
    ensures heap.frees == old(heap.frees) + 2 && heap.allocations == old(heap.allocations)
    ensures AllTriggered(old(heap.cells), nodes) ==> AllTriggered(heap.cells, nodes)
  {
    FreeOwner(heap, n);
    HandleFreed(old(heap.cells), heap.cells, nodes, guards, registered, n);
  }

  /** The graph of one context, with everything its callers created. */
  class Graph {
    const heap: Heap<Impl>
    var registered: seq<Ptr>
    ghost var nodes: map<Ptr, Ptr>
    ghost var guards: set<Ptr>

    ghost predicate Valid()
      reads this, heap
    {
      heap.Valid() && Settled(heap.cells, nodes, guards, registered)
    }

    constructor ()
      ensures Valid() && fresh(heap)
      ensures nodes == map[] && guards == {} && registered == []
    {
      heap := new Heap();
      registered, nodes, guards := [], map[], {};
    }

    /** `rmw_create_guard_condition`: null unless the context has an implementation. */
    method CreateGuard(contextReady: bool) returns (g: Ptr)
      requires Valid()
      modifies this`guards, heap
      ensures Valid()
      ensures g == NULL <==> !contextReady
      ensures g == NULL ==> unchanged(this, heap)
      ensures g != NULL ==>
                && g !in old(guards) && guards == old(guards) + {g}
                && IsGuard(heap.cells, g) && !IsTriggered(heap.cells, g)
                && Contains(heap.cells, g, GuardImpl(true, false)) && Kept(old(heap.cells), heap.cells, {})
                && heap.allocations == old(heap.allocations) + 2 && heap.frees == old(heap.frees)
    {
      if !contextReady {
        return NULL;
      }
      g := NewOwner(heap, GuardImpl(true, false));
      GuardAdded(old(heap.cells), heap.cells, nodes, guards, registered, g);
      guards := guards + {g};
    }

    /** `rmw_destroy_guard_condition`. */
    method DestroyGuard(g: Ptr) returns (ret: Ret)
      requires Valid() && (g == NULL || g in guards)
      modifies this`guards, heap
      ensures Valid() && guards == old(guards) - {g}
      ensures ret == if g == NULL then RetInvalidArgument else RetOk
      ensures g == NULL ==> unchanged(heap)
      ensures g != NULL ==>
                && g !in heap.cells && Kept(old(heap.cells), heap.cells, {g})
                && heap.allocations == old(heap.allocations) && heap.frees == old(heap.frees) + 2
    {
      if g == NULL {
        return RetInvalidArgument;
      }
      FreeOwner(heap, g);
      GuardRemoved(old(heap.cells), heap.cells, nodes, guards, registered, g);
      guards := guards - {g};
      ret := RetOk;
    }

    /** `rmw_trigger_guard_condition`, by a caller or by the graph. */
    method TriggerGuard(g: Ptr) returns (ret: Ret)
      requires heap.Valid() && (g == NULL || IsGuard(heap.cells, g))
      modifies heap`cells
      ensures heap.Valid() && (old(Valid()) ==> Valid())
      ensures ret == if g == NULL then RetInvalidArgument else RetOk
      ensures heap.cells == Trigger(old(heap.cells), g)
      ensures g != NULL ==> Contains(heap.cells, g, GuardImpl(true, true))
    {
      if g == NULL {
        return RetInvalidArgument;
      }
      var data := heap.Borrow(g);
      var condition := heap.cells[data.value].value;
      if condition.notifier {
        LatchKeepsOwners(heap.cells, map[], {}, g, true);
        if Valid() {
          LatchKeepsOwners(heap.cells, nodes, guards, g, true);
        }
        heap.cells := heap.cells[data.value := Boxed(condition.(triggered := true))];
      }
      ret := RetOk;
    }

    /** `GuardConditionImpl::reset`, which the wait set calls (crates/rmw-zenoh-rs/src/wait_set.rs:370). */
    method ResetGuard(g: Ptr)
      requires Valid() && IsGuard(heap.cells, g)
      modifies heap`cells
      ensures Valid() && IsGuard(heap.cells, g) && !IsTriggered(heap.cells, g)
      ensures Contains(heap.cells, g, GuardImpl(true, false))
      ensures Kept(old(heap.cells), heap.cells, {g})
    {
      var data := heap.Borrow(g);
      var condition := heap.cells[data.value].value;
      LatchKeepsOwners(heap.cells, nodes, guards, g, false);
      heap.cells := heap.cells[data.value := Boxed(condition.(triggered := false))];
    }

    /** `trigger_graph_change`: the loop over the registered guard conditions. */
    method GraphChange()
      requires heap.Valid() && forall g :: g in registered ==> IsGuard(heap.cells, g)
      modifies heap`cells
      ensures heap.Valid() && heap.cells == TriggerEach(old(heap.cells), registered)
    {
      ghost var before := heap.cells;
      var i := 0;
      while i < |registered|
        invariant 0 <= i <= |registered|
        invariant heap.Valid() && heap.cells == TriggerEach(before, registered[..i])
        invariant forall g :: g in registered ==> IsGuard(heap.cells, g)
      {
        var ret := TriggerGuard(registered[i]);
        i := i + 1;
        assert registered[..i][..i - 1] == registered[..i - 1];
        assert forall g :: g in registered[..i] ==> g in registered;
        TriggerEachLatches(before, registered[..i]);
      }
      assert registered[..i] == registered;
    }

    /** `unregister_graph_guard_condition`. */
    method Unlist(x: Ptr) returns (kept: seq<Ptr>)
      ensures kept == Retain(registered, x)
    {
      kept := [];
      var i := 0;
      while i < |registered|
        invariant 0 <= i <= |registered|
        invariant kept == Retain(registered[..i], x)
      {
        if registered[i] != x {
          kept := kept + [registered[i]];
        }
        i := i + 1;
        assert registered[..i][..i - 1] == registered[..i - 1];
      }
      assert registered[..i] == registered;
    }

    /** A change anywhere in the graph, at any moment: the trigger meets only live guard conditions,
        and afterwards that of every node is latched. */
    method Announce()
      requires Valid()
      modifies heap`cells
      ensures Valid() && |heap.cells| == |old(heap.cells)|
      ensures AllTriggered(heap.cells, nodes) && Same(old(heap.cells), heap.cells, guards)
    {
      RegisteredAreLive(heap.cells, nodes, guards, registered);
      GraphChangeReachesNodes(heap.cells, nodes, guards, registered);
      GraphChange();
    }

    /** Graph changes elsewhere, `foreign` of them, before the new node is boxed. */
    method AnnounceHalfway(foreign: nat, ghost others: seq<Ptr>, ghost g: Ptr)
      requires heap.Valid() && Pending(heap.cells, nodes, guards, others, g)
      requires registered == others + [g]
      modifies heap`cells
      ensures heap.Valid() && Pending(heap.cells, nodes, guards, others, g)
      ensures foreign == 0 ==> heap.cells == old(heap.cells)
      ensures foreign > 0 ==> AllTriggered(heap.cells, nodes) && IsTriggered(heap.cells, g)
      ensures Same(old(heap.cells), heap.cells, guards)
    {
      for i := 0 to foreign
        invariant heap.Valid() && Pending(heap.cells, nodes, guards, others, g)
        invariant i == 0 ==> heap.cells == old(heap.cells)
        invariant i > 0 ==> AllTriggered(heap.cells, nodes) && IsTriggered(heap.cells, g)
        invariant Same(old(heap.cells), heap.cells, guards)
      {
        NodeAnnounced(heap.cells, nodes, guards, others, g);
        GraphChange();
      }
    }

    /** The first half of `rmw_create_node`: a guard condition, registered, and then `changes` changes of
        the graph. */
    method BeginNode(changes: nat) returns (g: Ptr)
      requires Valid()
      modifies this`registered, heap
      ensures heap.Valid() && Pending(heap.cells, nodes, guards, old(registered), g)
      ensures registered == old(registered) + [g]
      ensures heap.allocations == old(heap.allocations) + 2 && heap.frees == old(heap.frees)
      ensures Same(old(heap.cells), heap.cells, guards)
      ensures changes > 0 ==> AllTriggered(heap.cells, nodes) && IsTriggered(heap.cells, g)
      ensures changes == 0 ==> Kept(old(heap.cells), heap.cells, {}) && !IsTriggered(heap.cells, g)
    {
      g := NewOwner(heap, GuardImpl(true, false));
      NodeBegun(old(heap.cells), heap.cells, nodes, guards, registered, g);
      ghost var others := registered;
      registered := registered + [g];
      AnnounceHalfway(changes, others, g);
    }

    /** `rmw_create_node` once the node is built. */
    method MakeNode(changes: nat) returns (n: Ptr)
      requires Valid()
      modifies this`registered, this`nodes, heap
      ensures Valid() && n != NULL && n !in old(nodes) && n in nodes
      ensures nodes == old(nodes)[n := nodes[n]] && registered == old(registered) + [nodes[n]]
      ensures heap.allocations == old(heap.allocations) + 4 && heap.frees == old(heap.frees)
      ensures Same(old(heap.cells), heap.cells, guards)
      ensures changes > 0 ==> AllTriggered(heap.cells, nodes)
      ensures changes == 0 ==>
                !IsTriggered(heap.cells, nodes[n]) && Kept(old(heap.cells), heap.cells, {})
    {
      var g := BeginNode(changes);
      n := FinishNode(heap, nodes, guards, old(registered), g);
      nodes := nodes[n := g];
    }

    /** `rmw_create_node`. The context may lack an implementation and building the node may fail; the
        node is announced unless the local graph refuses or already holds it. `foreign` counts the
        graph changes elsewhere between the registration of the guard condition and the boxing of the
        node. */
    method CreateNode(contextReady: bool, built: bool, announced: bool, foreign: nat) returns (n: Ptr)
      requires Valid()
      modifies this`registered, this`nodes, heap
      ensures Valid()
      ensures n == NULL <==> !(contextReady && built)
      ensures n == NULL ==> unchanged(this, heap)
      ensures n != NULL ==>
                && n !in old(nodes) && n in nodes && nodes == old(nodes)[n := nodes[n]]
                && registered == old(registered) + [nodes[n]]
                && heap.allocations == old(heap.allocations) + 4 && heap.frees == old(heap.frees)
                && Same(old(heap.cells), heap.cells, guards)
                && (if announced || foreign > 0 then AllTriggered(heap.cells, nodes)
                    else !IsTriggered(heap.cells, nodes[n]) && Kept(old(heap.cells), heap.cells, {}))
    {
      if !contextReady || !built {
        return NULL;
      }
      n := MakeNode(if announced then foreign + 1 else foreign);
    }

    /** Graph changes elsewhere, after the guard condition of `n` was taken off the list. */
    method AnnounceUnlisted(foreign: nat, ghost listed: seq<Ptr>, ghost n: Ptr)
      requires heap.Valid() && Settled(heap.cells, nodes, guards, listed) && n in nodes
      requires registered == Retain(listed, nodes[n])
      modifies heap`cells
      ensures heap.Valid() && Settled(heap.cells, nodes, guards, listed)
      ensures foreign == 0 ==> heap.cells == old(heap.cells)
      ensures foreign > 0 ==> AllTriggered(heap.cells, nodes - {n})
      ensures Same(old(heap.cells), heap.cells, guards)
    {
      for i := 0 to foreign
        invariant heap.Valid() && Settled(heap.cells, nodes, guards, listed)
        invariant i == 0 ==> heap.cells == old(heap.cells)
        invariant i > 0 ==> AllTriggered(heap.cells, nodes - {n})
        invariant Same(old(heap.cells), heap.cells, guards)
      {
        UnlistedAnnounced(heap.cells, nodes, guards, listed, n);
        GraphChange();
      }
    }

    /** The guard condition of `n` is taken off the list; then the graph changes `foreign` times. */
    method UnlistNode(n: Ptr, foreign: nat) returns (g: Ptr)
      requires Valid() && n in nodes
      modifies this`registered, heap`cells
      ensures heap.Valid() && Settled(heap.cells, nodes, guards, old(registered))
      ensures g == nodes[n] && registered == Retain(old(registered), g)
      ensures Same(old(heap.cells), heap.cells, guards)
      ensures AllTriggered(old(heap.cells), nodes) || foreign > 0 ==> AllTriggered(heap.cells, nodes - {n})
    {
      g := GuardOf(heap, n);
      ghost var listed := registered;
      registered := Unlist(g);
      AnnounceUnlisted(foreign, listed, n);
    }

    /** Graph changes elsewhere, after the guard condition of `n` was freed. */
    method AnnounceBereft(foreign: nat, ghost rest: map<Ptr, Ptr>, ghost n: Ptr)
      requires heap.Valid() && Bereft(heap.cells, rest, guards, registered, n)
      modifies heap`cells
      ensures heap.Valid() && Bereft(heap.cells, rest, guards, registered, n)
      ensures heap.cells.Keys == old(heap.cells).Keys
      ensures foreign == 0 ==> heap.cells == old(heap.cells)
      ensures foreign > 0 ==> AllTriggered(heap.cells, rest)
      ensures Same(old(heap.cells), heap.cells, guards)
    {
      for i := 0 to foreign
        invariant heap.Valid() && Bereft(heap.cells, rest, guards, registered, n)
        invariant heap.cells.Keys == old(heap.cells).Keys
        invariant i == 0 ==> heap.cells == old(heap.cells)
        invariant i > 0 ==> AllTriggered(heap.cells, rest)
        invariant Same(old(heap.cells), heap.cells, guards)
      {
        ghost var before := heap.cells;
        BereftAnnounced(before, rest, guards, registered, n);
        GraphChange();
        SameThrough(old(heap.cells), before, heap.cells, guards);
      }
    }

    /** Frees the guard condition of `n`, which is off the list; then the graph changes `freed` times. */
    method FreeGuardOf(n: Ptr, g: Ptr, freed: nat, ghost listed: seq<Ptr>)
      requires heap.Valid() && Settled(heap.cells, nodes, guards, listed) && n in nodes
      requires g == nodes[n] && registered == Retain(listed, g)
      modifies heap
      ensures heap.Valid() && Bereft(heap.cells, nodes - {n}, guards, registered, n)
      ensures heap.frees == old(heap.frees) + 2 && heap.allocations == old(heap.allocations)
      ensures g !in heap.cells && Same(old(heap.cells), heap.cells, guards)
      ensures AllTriggered(old(heap.cells), nodes - {n}) || freed > 0 ==>
                AllTriggered(heap.cells, nodes - {n})
    {
      FreeNodeGuard(heap, nodes, guards, listed, n, g);
      ghost var bereft := heap.cells;
      assert heap.frees == old(heap.frees) + 2 && g !in bereft;
      AnnounceBereft(freed, nodes - {n}, n);
      SameThrough(old(heap.cells), bereft, heap.cells, guards);
    }

    /** Frees first the guard condition and then the node. */
    method FreeBoth(n: Ptr, g: Ptr, freed: nat, ghost listed: seq<Ptr>)
      requires heap.Valid() && Settled(heap.cells, nodes, guards, listed) && n in nodes
      requires g == nodes[n] && registered == Retain(listed, g)
      modifies heap
      ensures heap.Valid() && Settled(heap.cells, nodes - {n}, guards, registered)
      ensures heap.frees == old(heap.frees) + 4 && heap.allocations == old(heap.allocations)
      ensures n !in heap.cells && g !in heap.cells && Same(old(heap.cells), heap.cells, guards)
      ensures AllTriggered(old(heap.cells), nodes - {n}) || freed > 0 ==>
                AllTriggered(heap.cells, nodes - {n})
    {
      FreeGuardOf(n, g, freed, listed);
      ghost var announced := heap.cells;
      FreeNode(heap, nodes - {n}, guards, registered, n);
      SameThrough(old(heap.cells), announced, heap.cells, guards);
    }

    /** The second half of `rmw_destroy_node`: unregister and free the guard condition, free the
        implementation and the handle. The graph changes elsewhere `unlisted` times between the first
        two and `freed` times between the last two. */
    method Release(n: Ptr, unlisted: nat, freed: nat)
      requires Valid() && n in nodes
      modifies this`registered, this`nodes, heap
      ensures Valid() && nodes == old(nodes) - {n}
      ensures registered == Retain(old(registered), old(nodes)[n])
      ensures heap.frees == old(heap.frees) + 4 && heap.allocations == old(heap.allocations)
      ensures n !in heap.cells && old(nodes)[n] !in heap.cells
      ensures Same(old(heap.cells), heap.cells, guards)
      ensures AllTriggered(old(heap.cells), old(nodes)) || unlisted + freed > 0 ==>
                AllTriggered(heap.cells, nodes)
    {
      var g := UnlistNode(n, unlisted);
      ghost var mid := heap.cells;
      FreeBoth(n, g, freed, old(registered));
      nodes := nodes - {n};
      SameThrough(old(heap.cells), mid, heap.cells, guards);
    }

    /** `rmw_destroy_node` on a node: the removal is announced while the node's own guard condition is
        still registered and alive. */
    method RemoveNode(n: Ptr, announced: bool, unlisted: nat, freed: nat)
      requires Valid() && n in nodes
      modifies this`registered, this`nodes, heap
      ensures Valid() && nodes == old(nodes) - {n}
      ensures registered == Retain(old(registered), old(nodes)[n])
      ensures heap.frees == old(heap.frees) + 4 && heap.allocations == old(heap.allocations)
      ensures n !in heap.cells && old(nodes)[n] !in heap.cells
      ensures Same(old(heap.cells), heap.cells, guards)
      ensures announced || unlisted + freed > 0 ==> AllTriggered(heap.cells, nodes)
    {
      if announced {
        Announce();
        ghost var told := heap.cells;
        Release(n, unlisted, freed);
        SameThrough(old(heap.cells), told, heap.cells, guards);
      } else {
        Release(n, unlisted, freed);
      }
    }

    /** `rmw_destroy_node`. */
    method DestroyNode(n: Ptr, announced: bool, unlisted: nat, freed: nat) returns (ret: Ret)
      requires Valid() && (n == NULL || n in nodes)
      modifies this`registered, this`nodes, heap
      ensures Valid() && nodes == old(nodes) - {n}
      ensures ret == if n == NULL then RetInvalidArgument else RetOk
      ensures n == NULL ==> unchanged(this, heap)
      ensures n != NULL ==>
                && registered == Retain(old(registered), old(nodes)[n])
                && heap.frees == old(heap.frees) + 4 && heap.allocations == old(heap.allocations)
                && n !in heap.cells && old(nodes)[n] !in heap.cells
                && Same(old(heap.cells), heap.cells, guards)
                && (announced || unlisted + freed > 0 ==> AllTriggered(heap.cells, nodes))
    {
      if n == NULL {
        return RetInvalidArgument;
      }
      RemoveNode(n, announced, unlisted, freed);
      ret := RetOk;
    }
  }
}
