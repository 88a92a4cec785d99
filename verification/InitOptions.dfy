/** Init options: deep copy and finalisation, with every allocation allowed to fail
    (crates/rmw-zenoh-rs/src/context.rs:129-293). The functions of the rmw library follow their
    documentation (crates/rmw-zenoh-rs/src/bindings.rs:1365-1403, 1441-1468). */
module InitOptions {
  import opened Common
  import opened Boxes
  import opened CMemory

  /** Which function pointers of an `rcl_allocator_t` are set. */
  datatype Allocator = Allocator(allocate: bool, deallocate: bool) {
    predicate Valid() {
      allocate && deallocate
    }
  }

  const NO_ALLOCATOR := Allocator(false, false)

  datatype Security = Security(enforce: bool, rootPath: Ptr)

  datatype Discovery = Discovery(range: int, peers: Ptr, allocator: Allocator)

  const ZERO_SECURITY := Security(false, NULL)

  const ZERO_DISCOVERY := Discovery(0, NULL, NO_ALLOCATOR)

  /** `RCL_DEFAULT_DOMAIN_ID`. */
  const DEFAULT_DOMAIN_ID: int := WORD - 1

  /** The fields that are copied by value; `identified` tells whether the identifier is set. */
  datatype Plain = Plain(instanceId: int, identified: bool, domainId: int)

  /** `rmw_init_options_t`. `impl_` is never set to anything but null by the modelled functions. */
  class Options {
    var plain: Plain
    var security: Security
    var localhostOnly: bool
    var discovery: Discovery
    var enclave: Ptr
    var allocator: Allocator
    var impl_: Ptr

    /** `rmw_get_zero_initialized_init_options`. */
    constructor ()
      ensures Zeroed()
    {
      plain, localhostOnly := Plain(0, false, 0), false;
      security, discovery := ZERO_SECURITY, ZERO_DISCOVERY;
      enclave, allocator, impl_ := NULL, NO_ALLOCATOR, NULL;
    }

    ghost predicate Zeroed()
      reads this
    {
      && plain == Plain(0, false, 0) && !localhostOnly && security == ZERO_SECURITY
      && discovery == ZERO_DISCOVERY && enclave == NULL && allocator == NO_ALLOCATOR && impl_ == NULL
    }
  }

  /** `part` is exactly the memory the three pointers own: no two name the same block. */
  ghost predicate Own3(part: Live, path: Ptr, peers: Ptr, enclave: Ptr) {
    && (forall p {:trigger p in part} ::
          p in part <==> p != NULL && (p == path || p == peers || p == enclave))
    && (path != NULL ==> path != enclave && part[path].Text?)
    && (peers != NULL ==> part[peers].Peers?)
    && (enclave != NULL ==> part[enclave].Text?)
  }

  ghost predicate Owns(part: Live, o: Options)
    reads o
  {
    && Own3(part, o.security.rootPath, o.discovery.peers, o.enclave)
    && (o.discovery.peers != NULL ==> o.discovery.allocator.Valid())
  }

  // ---- The rmw library

  /** The pointer `p` into `part` stands for what `src` stands for in `base`: nothing, or an equal block. */
  ghost predicate Mirrors(base: Live, part: Live, src: Ptr, p: Ptr) {
    if src == NULL then p == NULL else src in base && p in part && part[p] == base[src]
  }

  ghost predicate Extends(part: Live, more: Live) {
    forall p :: p in part ==> p in more && more[p] == part[p]
  }

  /** Duplicates the block at `src` for the owner of `part`; `base` is everything else. */
  method Duplicate(memory: Memory, src: Ptr, ghost base: Live, ghost part: Live)
    returns (p: Ptr, ghost more: Live)
    requires memory.Valid() && Split(memory.live, base, part) && src in base
    modifies memory
    ensures memory.Valid() && Split(memory.live, base, more)
    ensures more == if p == NULL then part else part[p := base[src]]
    ensures p !in base && p !in part
    ensures memory.refusals == old(memory.refusals) + if p == NULL then 1 else 0
  {
    p := memory.Allocate(memory.live[src]);
    more := part;
    if p != NULL {
      more := part[p := memory.live[p]];
    }
  }

  /** `rmw_security_options_copy` into zeroed options. */
  method CopySecurity(memory: Memory, src: Security, dst: Security, ghost base: Live)
    returns (ret: Ret, copy: Security, ghost part: Live)
    requires memory.Valid() && dst == ZERO_SECURITY && memory.live == base
    requires src.rootPath != NULL ==> src.rootPath in base && base[src.rootPath].Text?
    modifies memory
    ensures memory.Valid() && Split(memory.live, base, part) && Own3(part, copy.rootPath, NULL, NULL)
    ensures ret == RetOk ==>
              && copy.enforce == src.enforce && Mirrors(base, part, src.rootPath, copy.rootPath)
              && memory.refusals == old(memory.refusals)
    ensures ret != RetOk ==>
              && ret == RetBadAlloc && copy.rootPath == NULL && part == map[]
              && memory.refusals == old(memory.refusals) + 1
  {
    copy, part := dst.(enforce := src.enforce), map[];
    if src.rootPath == NULL {
      return RetOk, copy, part;
    }
    var p;
    p, part := Duplicate(memory, src.rootPath, base, part);
    copy := copy.(rootPath := p);
    ret := if p == NULL then RetBadAlloc else RetOk;
  }

  /** `rmw_discovery_options_copy` into zeroed options. Whether a failed copy leaves an allocator
      behind is open. */
  method CopyDiscovery(memory: Memory, src: Discovery, allocator: Allocator, dst: Discovery,
                       ghost base: Live, ghost part: Live, ghost path: Ptr)
    returns (ret: Ret, copy: Discovery, ghost more: Live)
    requires memory.Valid() && dst == ZERO_DISCOVERY && Split(memory.live, base, part)
    requires Own3(part, path, NULL, NULL)
    requires src.peers != NULL ==> src.peers in base && base[src.peers].Peers?
    modifies memory
    ensures memory.Valid() && Split(memory.live, base, more) && Extends(part, more)
    ensures Own3(more, path, copy.peers, NULL)
    ensures copy.peers != NULL ==> copy.allocator.Valid()
    ensures ret == RetInvalidArgument <==> !allocator.Valid()
    ensures ret == RetOk ==>
              && copy.range == src.range && Mirrors(base, more, src.peers, copy.peers)
              && memory.refusals == old(memory.refusals)
    ensures ret == RetInvalidArgument ==> memory.refusals == old(memory.refusals)
    ensures ret != RetOk ==>
              && copy.peers == NULL && ret in {RetInvalidArgument, RetBadAlloc}
    ensures ret == RetBadAlloc ==> memory.refusals == old(memory.refusals) + 1
  {
    copy, more := dst, part;
    if !allocator.Valid() {
      return RetInvalidArgument, copy, more;
    }
    copy := Discovery(src.range, NULL, allocator);
    if src.peers == NULL {
      return RetOk, copy, more;
    }
    var p;
    p, more := Duplicate(memory, src.peers, base, part);
    if p == NULL {
      if * {
        copy := ZERO_DISCOVERY;
      }
      return RetBadAlloc, copy, more;
    }
    copy := copy.(peers := p);
    ret := RetOk;
  }

  /** The enclave name: allocated with the source's allocator and copied byte by byte. */
  method CopyEnclave(memory: Memory, src: Ptr, ghost base: Live, ghost part: Live, ghost path: Ptr,
                     ghost peers: Ptr)
    returns (ret: Ret, copy: Ptr, ghost more: Live)
    requires memory.Valid() && Split(memory.live, base, part) && Own3(part, path, peers, NULL)
    requires src != NULL ==> src in base && base[src].Text?
    modifies memory
    ensures memory.Valid() && Split(memory.live, base, more) && Extends(part, more)
    ensures Own3(more, path, peers, copy)
    ensures ret == RetOk ==>
              Mirrors(base, more, src, copy) && memory.refusals == old(memory.refusals)
    ensures ret != RetOk ==>
              ret == RetBadAlloc && copy == NULL && memory.refusals == old(memory.refusals) + 1
  {
    more := part;
    if src == NULL {
      return RetOk, NULL, more;
    }
    copy, more := Duplicate(memory, src, base, part);
    ret := if copy == NULL then RetBadAlloc else RetOk;
  }

  /** `rmw_security_options_fini`. */
  method FreeSecurity(memory: Memory, s: Security, allocator: Allocator)
    returns (ret: Ret, after: Security)
    requires memory.Valid() && (s.rootPath != NULL ==> s.rootPath in memory.live)
    modifies memory`live
    ensures memory.Valid() && ret == if allocator.deallocate then RetOk else RetError
    ensures ret == RetOk ==> after == ZERO_SECURITY && memory.live == old(memory.live) - {s.rootPath}
    ensures ret == RetError ==> after == s && memory.live == old(memory.live)
  {
    if !allocator.deallocate {
      return RetError, s;
    }
    if s.rootPath != NULL {
      memory.Free(s.rootPath);
    }
    assert memory.live == old(memory.live) - {s.rootPath};
    return RetOk, ZERO_SECURITY;
  }

  /** `rmw_discovery_options_fini`, with the allocator that the options carry. */
  method FreeDiscovery(memory: Memory, d: Discovery) returns (ret: Ret, after: Discovery)
    requires memory.Valid() && (d.peers != NULL ==> d.peers in memory.live)
    modifies memory`live
    ensures memory.Valid() && ret == if d.allocator.Valid() then RetOk else RetInvalidArgument
    ensures ret == RetOk ==> after == ZERO_DISCOVERY && memory.live == old(memory.live) - {d.peers}
    ensures ret != RetOk ==> after == d && memory.live == old(memory.live)
  {
    if !d.allocator.Valid() {
      return RetInvalidArgument, d;
    }
    if d.peers != NULL {
      memory.Free(d.peers);
    }
    assert memory.live == old(memory.live) - {d.peers};
    return RetOk, ZERO_DISCOVERY;
  }

  // ---- The operations

  /** `rmw_init_options_init`: options that own nothing. */
  method Init(o: Options, allocator: Allocator) returns (ret: Ret)
    modifies o
    ensures ret == if allocator.allocate && allocator.deallocate then RetOk else RetInvalidArgument
    ensures o.plain == Plain(old(o.plain.instanceId), true, 0xFFFF_FFFF_FFFF_FFFF)
    ensures o.allocator == allocator && o.discovery.peers == NULL
    ensures ret == RetOk ==> o.discovery.allocator == allocator
    ensures o.security == old(o.security) && o.enclave == old(o.enclave) && o.impl_ == old(o.impl_)
    ensures old(o.Zeroed()) ==> Owns(map[], o)
  {
    o.plain := o.plain.(domainId := DEFAULT_DOMAIN_ID, identified := true);
    o.allocator := allocator;
    o.discovery := ZERO_DISCOVERY;
    if !allocator.Valid() {
      return RetInvalidArgument;
    }
    o.discovery := o.discovery.(allocator := allocator);
    ret := RetOk;
  }

  /** A destination without blocks of its own. */
  predicate Blank(o: Options)
    reads o
  {
    o.discovery.peers == NULL && o.enclave == NULL
  }

  /** The pointers a copy leaves behind when it stops: those of the fields it reached are in `part`, and
      the fields behind them are as they were. */
  twostate predicate Stopped(part: Live, o: Options)
    reads o
  {
    && o.enclave == old(o.enclave)
    && ((o.discovery == old(o.discovery) && part == map[] && o.security.rootPath == NULL)
        || (Own3(part, o.security.rootPath, o.discovery.peers, NULL)
            && (o.discovery.peers != NULL ==> o.discovery.allocator.Valid())))
  }

  /** The first two stages of the copy, which fill the security and discovery options. */
  method CopyNested(memory: Memory, src: Options, dst: Options, ghost base: Live, ghost srcPart: Live)
    returns (ret: Ret, ghost part: Live)
    requires memory.Valid() && src != dst && Owns(srcPart, src) && memory.live == base
    requires Extends(srcPart, base) && src.allocator.allocate
    modifies memory, dst`security, dst`discovery
    ensures memory.Valid() && Split(memory.live, base, part)
    ensures ret != RetOk ==> Stopped(part, dst)
    ensures ret == RetOk ==>
              && Own3(part, dst.security.rootPath, dst.discovery.peers, NULL)
              && (dst.discovery.peers != NULL ==> dst.discovery.allocator.Valid())
              && Mirrors(base, part, src.discovery.peers, dst.discovery.peers)
              && dst.security.enforce == src.security.enforce
              && dst.discovery.range == src.discovery.range
    ensures ret != RetBadAlloc ==> Mirrors(base, part, src.security.rootPath, dst.security.rootPath)
    ensures ret == RetInvalidArgument ==> dst.discovery.peers == NULL
    ensures ret == RetBadAlloc && !src.allocator.Valid() ==> part == map[]
    ensures ret == RetOk <==> src.allocator.Valid() && memory.refusals == old(memory.refusals)
    ensures ret == RetBadAlloc <==> memory.refusals != old(memory.refusals)
    ensures ret in {RetOk, RetBadAlloc, RetInvalidArgument}
  {
    dst.security := ZERO_SECURITY;
    ret, dst.security, part := CopySecurity(memory, src.security, dst.security, base);
    if ret != RetOk {
      return;
    }
    dst.discovery := ZERO_DISCOVERY;
    ret, dst.discovery, part := CopyDiscovery(memory, src.discovery, src.allocator, dst.discovery,
                                              base, part, dst.security.rootPath);
  }

  /** `rmw_init_options_copy` after its checks. On every path the memory grows by exactly `part`, which
      shares no block with anything there was before. */
  method CopyFields(memory: Memory, src: Options, dst: Options, ghost base: Live, ghost srcPart: Live)
    returns (ret: Ret, ghost part: Live)
    requires memory.Valid() && src != dst && Owns(srcPart, src) && memory.live == base
    requires Extends(srcPart, base) && src.allocator.allocate
    modifies memory, dst
    ensures memory.Valid() && Split(memory.live, base, part)
    ensures dst.allocator == src.allocator && dst.plain == src.plain && dst.impl_ == old(dst.impl_)
    ensures if ret == RetOk then Owns(part, dst) else Stopped(part, dst)
    ensures ret == RetOk ==>
              && Mirrors(base, part, src.discovery.peers, dst.discovery.peers)
              && Mirrors(base, part, src.enclave, dst.enclave)
              && dst.security.enforce == src.security.enforce
              && dst.discovery.range == src.discovery.range
    ensures ret != RetBadAlloc ==> Mirrors(base, part, src.security.rootPath, dst.security.rootPath)
    ensures ret == RetInvalidArgument ==> dst.discovery.peers == NULL
    ensures ret == RetBadAlloc && !src.allocator.Valid() ==> part == map[]
    ensures ret == RetOk <==> src.allocator.Valid() && memory.refusals == old(memory.refusals)
    ensures ret == RetBadAlloc <==> memory.refusals != old(memory.refusals)
    ensures ret in {RetOk, RetBadAlloc, RetInvalidArgument}
    ensures dst.localhostOnly == old(dst.localhostOnly)
  {
    dst.plain, dst.allocator := src.plain, src.allocator;
    ret, part := CopyNested(memory, src, dst, base, srcPart);
    if ret != RetOk {
      return;
    }
    var enclave;
    ret, enclave, part := CopyEnclave(memory, src.enclave, base, part, dst.security.rootPath,
                                      dst.discovery.peers);
    if ret != RetOk {
      return;
    }
    dst.enclave := enclave;
  }

  /** `dst` is null like `src`, or points to a new block that equals the one at `src`. */
  ghost predicate Copied(before: Live, after: Live, src: Ptr, dst: Ptr) {
    if src == NULL then dst == NULL
    else src in before && dst in after && dst !in before && after[dst] == before[src]
  }

  /** `rmw_init_options_copy`. A destination that had no blocks owns `part` afterwards, even when the
      copy fails halfway, and so does any destination of a copy that succeeds. */
  method Copy(memory: Memory, src: Options, dst: Options, ghost srcPart: Live)
    returns (ret: Ret, ghost part: Live)
    requires memory.Valid() && src != dst && Owns(srcPart, src) && Extends(srcPart, memory.live)
    modifies memory, dst
    ensures memory.Valid() && Split(memory.live, old(memory.live), part)
    ensures old(dst.impl_) != NULL || !src.allocator.allocate ==>
              ret == RetInvalidArgument && unchanged(memory, dst)
    ensures old(dst.impl_) == NULL && src.allocator.allocate ==>
              && dst.allocator == src.allocator && dst.plain == src.plain && dst.impl_ == NULL
              && (old(Blank(dst)) || ret == RetOk ==> Owns(part, dst))
              && (ret != RetOk ==> Stopped(part, dst))
              && (ret != RetBadAlloc ==>
                    Mirrors(old(memory.live), part, src.security.rootPath, dst.security.rootPath))
              && (ret == RetInvalidArgument ==> dst.discovery.peers == NULL)
              && (ret == RetBadAlloc && !src.allocator.Valid() ==> part == map[])
    ensures ret == RetOk ==>
              && Mirrors(old(memory.live), part, src.discovery.peers, dst.discovery.peers)
              && Mirrors(old(memory.live), part, src.enclave, dst.enclave)
              && dst.security.enforce == src.security.enforce
              && dst.discovery.range == src.discovery.range
    // The three pointers of a finished copy lead to new blocks of their own; all others are as before.
    ensures ret == RetOk ==>
              && Copied(old(memory.live), memory.live, src.security.rootPath, dst.security.rootPath)
              && Copied(old(memory.live), memory.live, src.discovery.peers, dst.discovery.peers)
              && Copied(old(memory.live), memory.live, src.enclave, dst.enclave)
    ensures forall p :: p in old(memory.live) ==>
              p in memory.live && memory.live[p] == old(memory.live)[p]
    ensures ret == RetOk <==>
              && old(dst.impl_) == NULL && src.allocator.allocate && src.allocator.deallocate
              && memory.refusals == old(memory.refusals)
    ensures ret == RetBadAlloc <==> memory.refusals != old(memory.refusals)
    ensures ret in {RetOk, RetBadAlloc, RetInvalidArgument}
    ensures dst.localhostOnly == old(dst.localhostOnly)
  {
    part := map[];
    if dst.impl_ != NULL || !src.allocator.allocate {
      return RetInvalidArgument, part;
    }
    ret, part := CopyFields(memory, src, dst, memory.live, srcPart);
    if ret == RetOk {
      dst.impl_ := NULL;
    }
  }

  lemma FreedAll(live: Live, rest: Live, part: Live, path: Ptr, peers: Ptr, enclave: Ptr)
    requires Split(live, rest, part) && Own3(part, path, peers, enclave) && NULL !in live
    ensures live - {enclave} - {path} - {peers} == rest
  {
  }

  /** Frees the enclave name, given a deallocator. */
  method FreeEnclave(memory: Memory, o: Options)
    requires memory.Valid() && (o.enclave != NULL ==> o.enclave in memory.live)
    modifies memory`live, o`enclave
    ensures memory.Valid()
    ensures o.allocator.deallocate ==> memory.live == old(memory.live) - {old(o.enclave)} && o.enclave == NULL
    ensures !o.allocator.deallocate ==> memory.live == old(memory.live) && o.enclave == old(o.enclave)
  {
    if o.enclave != NULL {
      if o.allocator.deallocate {
        memory.Free(o.enclave);
        o.enclave := NULL;
      }
    }
    assert o.allocator.deallocate ==> memory.live == old(memory.live) - {old(o.enclave)};
  }

  /** `rmw_init_options_fini`. */
  method Fini(memory: Memory, o: Options, ghost rest: Live, ghost part: Live) returns (ret: Ret)
    requires memory.Valid() && Split(memory.live, rest, part) && Owns(part, o)
    modifies memory`live, o
    ensures memory.Valid()
    ensures o.allocator.deallocate ==>
              && memory.live == rest && o.enclave == NULL && o.security == ZERO_SECURITY
              && o.discovery.peers == NULL
    ensures !o.allocator.deallocate ==> memory.live == old(memory.live) && ret == RetError
    ensures ret == RetOk <==>
              o.allocator.deallocate && old(o.discovery.allocator).Valid()
    ensures o.plain == old(o.plain) && o.allocator == old(o.allocator)
  {
    FreedAll(memory.live, rest, part, o.security.rootPath, o.discovery.peers, o.enclave);
    FreeEnclave(memory, o);
    ret, o.security := FreeSecurity(memory, o.security, o.allocator);
    if ret != RetOk {
      return;
    }
    ret, o.discovery := FreeDiscovery(memory, o.discovery);
    if ret != RetOk {
      assert memory.live == memory.live - {NULL};
      return;
    }
    o.impl_ := NULL;
  }

  /** Copying into zeroed options and finalising the copy gives the memory back exactly as it was,
      whichever allocation failed, if the source's allocator can free. If it can allocate and not
      free, the copy stops after the security path and the finalisation frees nothing: the path is
      lost, and that is the one way to lose anything. */
  method CopyThenFini(memory: Memory, src: Options, ghost srcPart: Live)
    returns (ret: Ret, ghost part: Live)
    requires memory.Valid() && Owns(srcPart, src) && Extends(srcPart, memory.live)
    modifies memory
    ensures memory.Valid() && Owns(srcPart, src)
    ensures src.allocator.deallocate ==> memory.live == old(memory.live)
    ensures !src.allocator.deallocate ==> Split(memory.live, old(memory.live), part)
    ensures memory.live != old(memory.live) <==>
              && src.allocator == Allocator(true, false) && src.security.rootPath != NULL
              && memory.refusals == old(memory.refusals)
  {
    var dst := new Options();
    ret, part := Copy(memory, src, dst, srcPart);
    SplitGrows(memory.live, old(memory.live), part);
    LonePath(part, dst.security.rootPath);
    var freed := Fini(memory, dst, old(memory.live), part);
  }

  lemma SplitGrows(live: Live, rest: Live, part: Live)
    requires Split(live, rest, part)
    ensures live == rest <==> part == map[]
  {
    if p :| p in part {
      assert p in live && p !in rest;
    }
  }

  lemma LonePath(part: Live, path: Ptr)
    ensures Own3(part, path, NULL, NULL) ==> (part == map[] <==> path == NULL)
  {
    if Own3(part, path, NULL, NULL) && path != NULL {
      assert path in part;
    }
  }

  /** Options own nothing exactly when their three pointers are null. */
  lemma OwnsNothing(part: Live, o: Options)
    requires Owns(part, o)
    ensures part == map[] <==> o.security.rootPath == o.discovery.peers == o.enclave == NULL
  {
    assert part == map[] <==> forall p :: p !in part;
    if part == map[] {
      assert o.security.rootPath !in part && o.discovery.peers !in part && o.enclave !in part;
    }
  }

  /** The test for an initialised destination reads a field that no modelled function fills, so a
      second copy into the same options goes ahead. The blocks of the first copy stay allocated in
      every case. The options no longer name the first security path; after a second copy that
      succeeds they name none of them, which loses memory unless the source owns none; after one that
      is refused they still name the enclave, and the peers only if the refusal came before them. */
  method CopyTwice(memory: Memory, src: Options, ghost srcPart: Live, dst: Options)
    returns (ret: Ret, again: Ret, ghost first: Live, ghost second: Live, ghost peers: Ptr,
             ghost enclave: Ptr)
    requires memory.Valid() && Owns(srcPart, src) && src != dst && Extends(srcPart, memory.live)
    requires dst.Zeroed()
    modifies memory, dst
    ensures memory.Valid() && memory.live == old(memory.live) + first + second
    ensures old(memory.live).Keys !! first.Keys !! second.Keys
    ensures ret != RetOk ==> again == ret && second == map[]
    ensures ret == RetOk ==>
              && (again == RetOk || again == RetBadAlloc)
              && (first == map[] <==> srcPart == map[]) && dst.security.rootPath !in first
    ensures ret == RetOk && again == RetOk ==>
              Owns(second, dst) && dst.discovery.peers !in first && dst.enclave !in first
    ensures ret == RetOk && again != RetOk ==>
              && (enclave != NULL <==> src.enclave != NULL) && dst.enclave == enclave
              && (enclave != NULL ==> enclave in first)
              && (peers != NULL <==> src.discovery.peers != NULL) && (peers != NULL ==> peers in first)
              && (dst.discovery.peers == peers || dst.discovery.peers !in first)
  {
    ret, first := Copy(memory, src, dst, srcPart);
    again, second, peers, enclave := ret, map[], dst.discovery.peers, dst.enclave;
    if ret != RetOk {
      return;
    }
    OwnsNothing(first, dst);
    OwnsNothing(srcPart, src);
    again, second := Copy(memory, src, dst, srcPart);
  }
}
