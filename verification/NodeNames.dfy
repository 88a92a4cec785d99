/** The node-name queries (crates/rmw-zenoh-rs/src/node.rs:161-364): string arrays filled from a
    snapshot of the graph, with every allocation allowed to fail. */
module NodeNames {
  import opened Common
  import opened Boxes
  import opened CMemory

  /** One entry of the graph snapshot. */
  datatype NodeName = NodeName(name: string, namespace: string, enclave: string)

  /** What `CString::new` accepts. */
  predicate IsCText(s: string) {
    '\0' !in s
  }

  function Names(nodes: seq<NodeName>): (texts: seq<string>)
    ensures |texts| == |nodes|
  {
    if nodes == [] then [] else Names(nodes[..|nodes| - 1]) + [nodes[|nodes| - 1].name]
  }

  function Namespaces(nodes: seq<NodeName>): (texts: seq<string>)
    ensures |texts| == |nodes|
  {
    if nodes == [] then [] else Namespaces(nodes[..|nodes| - 1]) + [nodes[|nodes| - 1].namespace]
  }

  function Enclaves(nodes: seq<NodeName>): (texts: seq<string>)
    ensures |texts| == |nodes|
  {
    if nodes == [] then [] else Enclaves(nodes[..|nodes| - 1]) + [nodes[|nodes| - 1].enclave]
  }

  /** The columns list the snapshot index by index. */
  lemma {:induction false} ColumnsAlign(nodes: seq<NodeName>, i: nat)
    requires i < |nodes|
    ensures NodeName(Names(nodes)[i], Namespaces(nodes)[i], Enclaves(nodes)[i]) == nodes[i]
  {
    if i < |nodes| - 1 {
      ColumnsAlign(nodes[..|nodes| - 1], i);
    }
  }

  lemma OneMore(nodes: seq<NodeName>, i: nat)
    requires i < |nodes|
    ensures Names(nodes[..i + 1]) == Names(nodes[..i]) + [nodes[i].name]
    ensures Namespaces(nodes[..i + 1]) == Namespaces(nodes[..i]) + [nodes[i].namespace]
    ensures Enclaves(nodes[..i + 1]) == Enclaves(nodes[..i]) + [nodes[i].enclave]
    ensures nodes[..i + 1] == nodes[..i] + [nodes[i]]
  {
    assert nodes[..i + 1][..i] == nodes[..i];
  }

  /** What a caller reads at `data`: an array of as many distinct pointers as there are texts, each to a
      NUL-terminated copy of its text. */
  ghost predicate Lists(live: Live, data: Ptr, texts: seq<string>) {
    && data in live && live[data].Slots? && |live[data].ptrs| == |texts|
    && var ptrs := live[data].ptrs;
    && (forall i :: 0 <= i < |texts| ==> ptrs[i] in live && live[ptrs[i]] == Text(texts[i]))
    && (forall i, k :: 0 <= i < k < |texts| ==> ptrs[i] != ptrs[k])
  }

  /** A full column is read as it was filled, wherever in the memory it is. */
  lemma ColumnReads(live: Live, rest: Live, part: Live, data: Ptr, texts: seq<string>)
    requires Split(live, rest, part) && Column(part, data, |texts|, texts)
    ensures Lists(live, data, texts)
  {
  }

  predicate AllPairsCTexts(nodes: seq<NodeName>) {
    forall n :: n in nodes ==> IsCText(n.name) && IsCText(n.namespace)
  }

  /** The memory is `base` and two string arrays, none of which share a block. */
  ghost predicate Two(live: Live, base: Live, a: Live, b: Live) {
    && a.Keys !! b.Keys && base.Keys !! a.Keys && base.Keys !! b.Keys
    && live == base + a + b
  }

  lemma TwoSplits(live: Live, base: Live, a: Live, b: Live)
    ensures Two(live, base, a, b) <==> Split(live, base + a, b) && Split(base + a, base, a)
    ensures Two(live, base, a, b) <==> Split(live, base + b, a) && Split(base + b, base, b)
  {
    if base.Keys !! a.Keys && base.Keys !! b.Keys && a.Keys !! b.Keys {
      assert base + a + b == base + b + a;
    }
  }

  /** The cleanup in the error branches of `rmw_get_node_names`. */
  method DiscardTwo(memory: Memory, names: StringArray, namespaces: StringArray, ghost base: Live,
                    ghost a: Live, ghost b: Live, ghost as_: seq<string>, ghost bs: seq<string>)
    requires memory.Valid() && names != namespaces && Two(memory.live, base, a, b)
    requires Column(a, names.data, names.size, as_)
    requires Column(b, namespaces.data, namespaces.size, bs)
    modifies memory`live, names, namespaces
    ensures memory.Valid() && memory.live == base && names.data == namespaces.data == NULL
  {
    TwoSplits(memory.live, base, a, b);
    names.Fini(memory, base + b, a, as_);
    namespaces.Fini(memory, base, b, bs);
  }

  /** One round of the loop in `rmw_get_node_names`, with its cleanup when it fails. */
  method FillTwo(memory: Memory, i: nat, n: NodeName, names: StringArray, namespaces: StringArray,
                 ghost base: Live, ghost a: Live, ghost b: Live, ghost as_: seq<string>,
                 ghost bs: seq<string>)
    returns (ret: Ret, ghost a': Live, ghost b': Live)
    requires memory.Valid() && names != namespaces && Two(memory.live, base, a, b)
    requires Column(a, names.data, names.size, as_) && i == |as_| < names.size
    requires Column(b, namespaces.data, namespaces.size, bs) && i == |bs| < namespaces.size
    modifies memory, names, namespaces
    ensures memory.Valid()
    ensures ret == RetOk ==>
              && unchanged(names, namespaces) && memory.refusals == old(memory.refusals)
              && Two(memory.live, base, a', b') && Column(a', names.data, names.size, as_ + [n.name])
              && Column(b', namespaces.data, namespaces.size, bs + [n.namespace])
              && IsCText(n.name) && IsCText(n.namespace)
    ensures ret != RetOk ==>
              && memory.live == base && names.data == namespaces.data == NULL
              && (ret == RetError || ret == RetBadAlloc)
    ensures ret == RetError ==>
              memory.refusals == old(memory.refusals) && !(IsCText(n.name) && IsCText(n.namespace))
    ensures ret == RetBadAlloc ==> memory.refusals == old(memory.refusals) + 1
  {
    a', b' := a, b;
    if !IsCText(n.name) || !IsCText(n.namespace) {
      DiscardTwo(memory, names, namespaces, base, a, b, as_, bs);
      return RetError, a, b;
    }
    var ok;
    TwoSplits(memory.live, base, a, b);
    ok, a' := names.Put(memory, i, n.name, base + b, a, as_);
    TwoSplits(memory.live, base, a', b);
    if !ok {
      DiscardTwo(memory, names, namespaces, base, a, b, as_, bs);
      return RetBadAlloc, a, b;
    }
    ok, b' := namespaces.Put(memory, i, n.namespace, base + a', b, bs);
    TwoSplits(memory.live, base, a', b');
    if !ok {
      DiscardTwo(memory, names, namespaces, base, a', b, as_ + [n.name], bs);
      return RetBadAlloc, a, b;
    }
    ret := RetOk;
  }

  /** The first half of `rmw_get_node_names`: both arrays or neither. */
  method InitTwo(memory: Memory, n: nat, names: StringArray, namespaces: StringArray)
    returns (ok: bool, ghost a: Live, ghost b: Live)
    requires memory.Valid() && names != namespaces && names.data == namespaces.data == NULL
    modifies memory, names, namespaces
    ensures memory.Valid()
    ensures ok ==>
              && Two(memory.live, old(memory.live), a, b) && names.size == namespaces.size == n
              && Column(a, names.data, n, []) && Column(b, namespaces.data, n, [])
              && memory.refusals == old(memory.refusals)
    ensures !ok ==>
              && memory.live == old(memory.live) && names.data == namespaces.data == NULL
              && memory.refusals == old(memory.refusals) + 1
  {
    ghost var base := memory.live;
    b := map[];
    ok, a := names.Init(memory, n);
    if ok {
      ok, b := namespaces.Init(memory, n);
      if !ok {
        names.Fini(memory, base, a, []);
      }
    }
    TwoSplits(memory.live, base, a, b);
  }

  /** The loop of `rmw_get_node_names`. */
  method FillAllTwo(memory: Memory, nodes: seq<NodeName>, names: StringArray, namespaces: StringArray,
                    ghost base: Live, ghost a: Live, ghost b: Live)
    returns (ret: Ret, ghost a': Live, ghost b': Live)
    requires memory.Valid() && names != namespaces && names.size == namespaces.size == |nodes|
    requires Two(memory.live, base, a, b)
    requires Column(a, names.data, |nodes|, []) && Column(b, namespaces.data, |nodes|, [])
    modifies memory, names, namespaces
    ensures memory.Valid()
    ensures ret == RetOk ==>
              && unchanged(names, namespaces) && memory.refusals == old(memory.refusals)
              && Two(memory.live, base, a', b') && Column(a', names.data, |nodes|, Names(nodes))
              && Column(b', namespaces.data, |nodes|, Namespaces(nodes))
              && AllPairsCTexts(nodes)
    ensures ret != RetOk ==>
              && memory.live == base && names.data == namespaces.data == NULL
              && (ret == RetError || ret == RetBadAlloc)
    ensures ret == RetError ==> memory.refusals == old(memory.refusals) && !AllPairsCTexts(nodes)
    ensures ret == RetBadAlloc ==> memory.refusals == old(memory.refusals) + 1
  {
    a', b' := a, b;
    ghost var done, as_, bs := [], [], [];
    var i := 0;
    while i < |nodes|
      invariant 0 <= i <= |nodes| && unchanged(names, namespaces) && done == nodes[..i]
      invariant memory.Valid() && memory.refusals == old(memory.refusals)
      invariant Two(memory.live, base, a', b')
      invariant as_ == Names(done) && bs == Namespaces(done)
      invariant Column(a', names.data, |nodes|, as_) && Column(b', namespaces.data, |nodes|, bs)
      invariant AllPairsCTexts(done)
    {
      OneMore(nodes, i);
      ret, a', b' := FillTwo(memory, i, nodes[i], names, namespaces, base, a', b', as_, bs);
      if ret != RetOk {
        return;
      }
      as_, bs := as_ + [nodes[i].name], bs + [nodes[i].namespace];
      done := done + [nodes[i]];
      i := i + 1;
    }
    assert done == nodes;
    ret := RetOk;
  }

  /** `rmw_get_node_names`. On success the memory grew by exactly the two arrays `a` and `b`, which
      list the snapshot index by index; on failure it is what it was. */
  method GetNodeNames(memory: Memory, nodes: seq<NodeName>, names: StringArray,
                      namespaces: StringArray)
    returns (ret: Ret, ghost a: Live, ghost b: Live)
    requires memory.Valid() && names != namespaces && names.data == namespaces.data == NULL
    modifies memory, names, namespaces
    ensures memory.Valid()
    ensures ret == RetOk ==>
              && Two(memory.live, old(memory.live), a, b)
              && Column(a, names.data, |nodes|, Names(nodes)) && names.size == |nodes|
              && Column(b, namespaces.data, |nodes|, Namespaces(nodes)) && namespaces.size == |nodes|
    ensures ret != RetOk ==>
              memory.live == old(memory.live) && names.data == namespaces.data == NULL
    ensures ret == RetOk ==>
              && Lists(memory.live, names.data, Names(nodes))
              && Lists(memory.live, namespaces.data, Namespaces(nodes))
              && |memory.live| == |old(memory.live)| + 2 * |nodes| + 2
    ensures forall p :: p in old(memory.live) ==>
              p in memory.live && memory.live[p] == old(memory.live)[p]
    // Unless an allocation is refused, the query succeeds exactly when no text contains a NUL.
    ensures ret in {RetOk, RetError, RetBadAlloc}
    ensures ret == RetBadAlloc <==> memory.refusals != old(memory.refusals)
    ensures ret != RetBadAlloc ==>
              (ret == RetOk <==> forall n :: n in nodes ==> '\0' !in n.name && '\0' !in n.namespace)
  {
    ghost var base := memory.live;
    var ok;
    ok, a, b := InitTwo(memory, |nodes|, names, namespaces);
    if !ok {
      return RetBadAlloc, a, b;
    }
    ret, a, b := FillAllTwo(memory, nodes, names, namespaces, base, a, b);
    if ret == RetOk {
      TwoLists(memory.live, base, a, b, names.data, namespaces.data, Names(nodes), Namespaces(nodes));
      QueryAllocates(memory.live, base, a, b, names.data, namespaces.data, Names(nodes), Namespaces(nodes));
    }
  }

  /** A full column adds one block per text and one for the array. */
  lemma ColumnAllocates(live: Live, rest: Live, part: Live, data: Ptr, texts: seq<string>)
    requires Split(live, rest, part) && Column(part, data, |texts|, texts)
    ensures |live| == |rest| + |texts| + 1
  {
    FootprintSize(part, data, |texts|, texts);
    assert |part.Keys| == |part| && |rest.Keys| == |rest| && |live.Keys| == |live|;
    assert live.Keys == rest.Keys + part.Keys;
  }

  /** A successful query leaves the caller exactly one block per text and one per array. */
  lemma QueryAllocates(live: Live, base: Live, a: Live, b: Live, na: Ptr, nb: Ptr, as_: seq<string>,
                       bs: seq<string>)
    requires Two(live, base, a, b) && Column(a, na, |as_|, as_) && Column(b, nb, |bs|, bs)
    ensures |live| == |base| + |as_| + |bs| + 2
  {
    TwoSplits(live, base, a, b);
    ColumnAllocates(base + a, base, a, na, as_);
    ColumnAllocates(live, base + a, b, nb, bs);
  }

  lemma TwoLists(live: Live, base: Live, a: Live, b: Live, na: Ptr, nb: Ptr, as_: seq<string>,
                 bs: seq<string>)
    requires Two(live, base, a, b) && Column(a, na, |as_|, as_) && Column(b, nb, |bs|, bs)
    ensures Lists(live, na, as_) && Lists(live, nb, bs)
    ensures forall p :: p in base ==> p in live && live[p] == base[p]
  {
    TwoSplits(live, base, a, b);
    ColumnReads(live, base + b, a, na, as_);
    ColumnReads(live, base + a, b, nb, bs);
  }

  // ---- With enclaves

  predicate AreCTexts(n: NodeName) {
    IsCText(n.name) && IsCText(n.namespace) && IsCText(n.enclave)
  }

  predicate AllCTexts(nodes: seq<NodeName>) {
    forall n :: n in nodes ==> AreCTexts(n)
  }

  ghost predicate Three(live: Live, base: Live, a: Live, b: Live, c: Live) {
    && Two(base + a + b, base, a, b) && Split(live, base + a + b, c)
  }

  lemma ThreeSplits(live: Live, base: Live, a: Live, b: Live, c: Live)
    ensures Three(live, base, a, b, c) <==> Split(live, base + b + c, a) && Two(base + b + c, base, b, c)
    ensures Three(live, base, a, b, c) <==> Split(live, base + a + c, b) && Two(base + a + c, base, a, c)
  {
    ThreeCommutes(base, a, b, c);
  }

  lemma ThreeCommutes(base: Live, a: Live, b: Live, c: Live)
    ensures base.Keys !! a.Keys !! b.Keys !! c.Keys ==>
              base + a + b + c == base + b + c + a == base + a + c + b
  {
  }

  /** The cleanup in the error branches of `rmw_get_node_names_with_enclaves`. */
  method DiscardThree(memory: Memory, names: StringArray, namespaces: StringArray, enclaves: StringArray,
                      ghost base: Live, ghost a: Live, ghost b: Live, ghost c: Live,
                      ghost as_: seq<string>, ghost bs: seq<string>, ghost cs: seq<string>)
    requires memory.Valid() && names != namespaces && enclaves !in {names, namespaces}
    requires Three(memory.live, base, a, b, c)
    requires Column(a, names.data, names.size, as_)
    requires Column(b, namespaces.data, namespaces.size, bs)
    requires Column(c, enclaves.data, enclaves.size, cs)
    modifies memory`live, names, namespaces, enclaves
    ensures memory.Valid() && memory.live == base
    ensures names.data == namespaces.data == enclaves.data == NULL
  {
    ThreeSplits(memory.live, base, a, b, c);
    TwoSplits(base + b + c, base, b, c);
    names.Fini(memory, base + b + c, a, as_);
    namespaces.Fini(memory, base + c, b, bs);
    enclaves.Fini(memory, base, c, cs);
  }

  /** One round of the loop in `rmw_get_node_names_with_enclaves`, with its cleanup when it fails. */
  method FillThree(memory: Memory, i: nat, n: NodeName, names: StringArray, namespaces: StringArray,
                   enclaves: StringArray, ghost base: Live, ghost a: Live, ghost b: Live, ghost c: Live,
                   ghost as_: seq<string>, ghost bs: seq<string>, ghost cs: seq<string>)
    returns (ret: Ret, ghost a': Live, ghost b': Live, ghost c': Live)
    requires memory.Valid() && names != namespaces && enclaves !in {names, namespaces}
    requires Three(memory.live, base, a, b, c)
    requires Column(a, names.data, names.size, as_) && i == |as_| < names.size
    requires Column(b, namespaces.data, namespaces.size, bs) && i == |bs| < namespaces.size
    requires Column(c, enclaves.data, enclaves.size, cs) && i == |cs| < enclaves.size
    modifies memory, names, namespaces, enclaves
    ensures memory.Valid()
    ensures ret == RetOk ==>
              && unchanged(names, namespaces, enclaves) && memory.refusals == old(memory.refusals)
              && Three(memory.live, base, a', b', c')
              && Column(a', names.data, names.size, as_ + [n.name])
              && Column(b', namespaces.data, namespaces.size, bs + [n.namespace])
              && Column(c', enclaves.data, enclaves.size, cs + [n.enclave])
              && AreCTexts(n)
    ensures ret != RetOk ==>
              && memory.live == base && names.data == namespaces.data == enclaves.data == NULL
              && (ret == RetError || ret == RetBadAlloc)
    ensures ret == RetError ==> memory.refusals == old(memory.refusals) && !AreCTexts(n)
    ensures ret == RetBadAlloc ==> memory.refusals == old(memory.refusals) + 1
  {
    a', b', c' := a, b, c;
    if !IsCText(n.name) || !IsCText(n.namespace) || !IsCText(n.enclave) {
      DiscardThree(memory, names, namespaces, enclaves, base, a, b, c, as_, bs, cs);
      return RetError, a, b, c;
    }
    var ok;
    ThreeSplits(memory.live, base, a, b, c);
    ok, a' := names.Put(memory, i, n.name, base + b + c, a, as_);
    ThreeSplits(memory.live, base, a', b, c);
    if !ok {
      DiscardThree(memory, names, namespaces, enclaves, base, a, b, c, as_, bs, cs);
      return RetBadAlloc, a, b, c;
    }
    ok, b' := namespaces.Put(memory, i, n.namespace, base + a' + c, b, bs);
    ThreeSplits(memory.live, base, a', b', c);
    if !ok {
      DiscardThree(memory, names, namespaces, enclaves, base, a', b, c, as_ + [n.name], bs, cs);
      return RetBadAlloc, a, b, c;
    }
    ok, c' := enclaves.Put(memory, i, n.enclave, base + a' + b', c, cs);
    if !ok {
      DiscardThree(memory, names, namespaces, enclaves, base, a', b', c, as_ + [n.name],
                   bs + [n.namespace], cs);
      return RetBadAlloc, a, b, c;
    }
    ret := RetOk;
  }

  /** The first half of `rmw_get_node_names_with_enclaves`: all three arrays or none. */
  method InitThree(memory: Memory, n: nat, names: StringArray, namespaces: StringArray,
                   enclaves: StringArray)
    returns (ok: bool, ghost a: Live, ghost b: Live, ghost c: Live)
    requires memory.Valid() && names != namespaces && enclaves !in {names, namespaces}
    requires names.data == namespaces.data == enclaves.data == NULL
    modifies memory, names, namespaces, enclaves
    ensures memory.Valid()
    ensures ok ==>
              && Three(memory.live, old(memory.live), a, b, c)
              && names.size == namespaces.size == enclaves.size == n
              && Column(a, names.data, n, []) && Column(b, namespaces.data, n, [])
              && Column(c, enclaves.data, n, []) && memory.refusals == old(memory.refusals)
    ensures !ok ==>
              && memory.live == old(memory.live) && memory.refusals == old(memory.refusals) + 1
              && names.data == namespaces.data == enclaves.data == NULL
  {
    ghost var base := memory.live;
    c := map[];
    ok, a, b := InitTwo(memory, n, names, namespaces);
    if ok {
      ok, c := enclaves.Init(memory, n);
      if !ok {
        DiscardTwo(memory, names, namespaces, base, a, b, [], []);
      }
    }
  }

  /** The loop of `rmw_get_node_names_with_enclaves`. */
  method FillAllThree(memory: Memory, nodes: seq<NodeName>, names: StringArray,
                      namespaces: StringArray, enclaves: StringArray, ghost base: Live,
                      ghost a: Live, ghost b: Live, ghost c: Live)
    returns (ret: Ret, ghost a': Live, ghost b': Live, ghost c': Live)
    requires memory.Valid() && names != namespaces && enclaves !in {names, namespaces}
    requires names.size == namespaces.size == enclaves.size == |nodes|
    requires Three(memory.live, base, a, b, c) && Column(a, names.data, |nodes|, [])
    requires Column(b, namespaces.data, |nodes|, []) && Column(c, enclaves.data, |nodes|, [])
    modifies memory, names, namespaces, enclaves
    ensures memory.Valid()
    ensures ret == RetOk ==>
              && unchanged(names, namespaces, enclaves) && memory.refusals == old(memory.refusals)
              && Three(memory.live, base, a', b', c') && Column(a', names.data, |nodes|, Names(nodes))
              && Column(b', namespaces.data, |nodes|, Namespaces(nodes))
              && Column(c', enclaves.data, |nodes|, Enclaves(nodes))
              && AllCTexts(nodes)
    ensures ret != RetOk ==>
              && memory.live == base && names.data == namespaces.data == enclaves.data == NULL
              && (ret == RetError || ret == RetBadAlloc)
    ensures ret == RetError ==>
              memory.refusals == old(memory.refusals) && !AllCTexts(nodes)
    ensures ret == RetBadAlloc ==> memory.refusals == old(memory.refusals) + 1
  {
    a', b', c' := a, b, c;
    ghost var done, as_, bs, cs := [], [], [], [];
    var i := 0;
    while i < |nodes|
      invariant 0 <= i <= |nodes| && unchanged(names, namespaces, enclaves)
      invariant memory.Valid() && memory.refusals == old(memory.refusals)
      invariant Three(memory.live, base, a', b', c')
      invariant done == nodes[..i]
      invariant as_ == Names(done) && bs == Namespaces(done) && cs == Enclaves(done)
      invariant Column(a', names.data, |nodes|, as_)
      invariant Column(b', namespaces.data, |nodes|, bs)
      invariant Column(c', enclaves.data, |nodes|, cs)
      invariant AllCTexts(done)
    {
      OneMore(nodes, i);
      ret, a', b', c' := FillThree(memory, i, nodes[i], names, namespaces, enclaves, base, a', b', c',
                                   as_, bs, cs);
      if ret != RetOk {
        return;
      }
      as_, bs, cs := as_ + [nodes[i].name], bs + [nodes[i].namespace], cs + [nodes[i].enclave];
      done := done + [nodes[i]];
      i := i + 1;
    }
    assert done == nodes;
    ret := RetOk;
  }

  lemma ThreeLists(live: Live, base: Live, a: Live, b: Live, c: Live, na: Ptr, nb: Ptr, nc: Ptr,
                   as_: seq<string>, bs: seq<string>, cs: seq<string>)
    requires Three(live, base, a, b, c) && Column(a, na, |as_|, as_) && Column(b, nb, |bs|, bs)
    requires Column(c, nc, |cs|, cs)
    ensures Lists(live, na, as_) && Lists(live, nb, bs) && Lists(live, nc, cs)
    ensures forall p :: p in base ==> p in live && live[p] == base[p]
    ensures |live| == |base| + |as_| + |bs| + |cs| + 3
  {
    TwoLists(base + a + b, base, a, b, na, nb, as_, bs);
    QueryAllocates(base + a + b, base, a, b, na, nb, as_, bs);
    ListsStay(base + a + b, live, na, as_);
    ListsStay(base + a + b, live, nb, bs);
    ColumnReads(live, base + a + b, c, nc, cs);
    ColumnAllocates(live, base + a + b, c, nc, cs);
  }

  lemma ListsStay(live: Live, more: Live, data: Ptr, texts: seq<string>)
    requires Lists(live, data, texts) && forall p :: p in live ==> p in more && more[p] == live[p]
    ensures Lists(more, data, texts)
  {
  }

  /** The loop, and what a caller reads after it. */
  method ListThree(memory: Memory, nodes: seq<NodeName>, names: StringArray, namespaces: StringArray,
                   enclaves: StringArray, ghost base: Live, ghost a: Live, ghost b: Live, ghost c: Live)
    returns (ret: Ret, ghost a': Live, ghost b': Live, ghost c': Live)
    requires memory.Valid() && names != namespaces && enclaves !in {names, namespaces}
    requires names.size == namespaces.size == enclaves.size == |nodes|
    requires Three(memory.live, base, a, b, c) && Column(a, names.data, |nodes|, [])
    requires Column(b, namespaces.data, |nodes|, []) && Column(c, enclaves.data, |nodes|, [])
    modifies memory, names, namespaces, enclaves
    ensures memory.Valid()
    ensures ret == RetOk ==>
              && unchanged(names, namespaces, enclaves) && memory.refusals == old(memory.refusals)
              && Three(memory.live, base, a', b', c') && Column(a', names.data, |nodes|, Names(nodes))
              && Column(b', namespaces.data, |nodes|, Namespaces(nodes))
              && Column(c', enclaves.data, |nodes|, Enclaves(nodes))
              && Lists(memory.live, names.data, Names(nodes))
              && Lists(memory.live, namespaces.data, Namespaces(nodes))
              && Lists(memory.live, enclaves.data, Enclaves(nodes))
              && |memory.live| == |base| + 3 * |nodes| + 3 && AllCTexts(nodes)
    ensures forall p :: p in base ==> p in memory.live && memory.live[p] == base[p]
    ensures ret != RetOk ==>
              && memory.live == base && names.data == namespaces.data == enclaves.data == NULL
              && (ret == RetError || ret == RetBadAlloc)
    ensures ret == RetError ==> memory.refusals == old(memory.refusals) && !AllCTexts(nodes)
    ensures ret == RetBadAlloc ==> memory.refusals == old(memory.refusals) + 1
  {
    ret, a', b', c' := FillAllThree(memory, nodes, names, namespaces, enclaves, base, a, b, c);
    if ret == RetOk {
      ThreeLists(memory.live, base, a', b', c', names.data, namespaces.data, enclaves.data, Names(nodes),
                 Namespaces(nodes), Enclaves(nodes));
    }
  }

  /** `rmw_get_node_names_with_enclaves`. */
  method GetNodeNamesWithEnclaves(memory: Memory, nodes: seq<NodeName>, names: StringArray,
                                  namespaces: StringArray, enclaves: StringArray)
    returns (ret: Ret, ghost a: Live, ghost b: Live, ghost c: Live)
    requires memory.Valid() && names != namespaces && enclaves !in {names, namespaces}
    requires names.data == namespaces.data == enclaves.data == NULL
    modifies memory, names, namespaces, enclaves
    ensures memory.Valid()
    ensures ret == RetOk ==>
              && Three(memory.live, old(memory.live), a, b, c)
              && names.size == namespaces.size == enclaves.size == |nodes|
              && Column(a, names.data, |nodes|, Names(nodes))
              && Column(b, namespaces.data, |nodes|, Namespaces(nodes))
              && Column(c, enclaves.data, |nodes|, Enclaves(nodes))
    ensures ret != RetOk ==>
              && memory.live == old(memory.live)
              && names.data == namespaces.data == enclaves.data == NULL
    ensures ret == RetOk ==>
              && Lists(memory.live, names.data, Names(nodes))
              && Lists(memory.live, namespaces.data, Namespaces(nodes))
              && Lists(memory.live, enclaves.data, Enclaves(nodes))
              && |memory.live| == |old(memory.live)| + 3 * |nodes| + 3
    ensures forall p :: p in old(memory.live) ==>
              p in memory.live && memory.live[p] == old(memory.live)[p]
    ensures ret in {RetOk, RetError, RetBadAlloc}
    ensures ret == RetBadAlloc <==> memory.refusals != old(memory.refusals)
    ensures ret != RetBadAlloc ==>
              (ret == RetOk <==>
                 forall n :: n in nodes ==> '\0' !in n.name && '\0' !in n.namespace && '\0' !in n.enclave)
  {
    ghost var base := memory.live;
    var ok;
    ok, a, b, c := InitThree(memory, |nodes|, names, namespaces, enclaves);
    if !ok {
      return RetBadAlloc, a, b, c;
    }
    ret, a, b, c := ListThree(memory, nodes, names, namespaces, enclaves, base, a, b, c);
  }
}
