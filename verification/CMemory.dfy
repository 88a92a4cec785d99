/** Memory handed to C callers: an allocator that may refuse any request, and the string arrays of
    rcutils (crates/rmw-zenoh-rs/src/bindings.rs:126, 633, 641). */
module CMemory {
  import opened Common
  import opened Boxes

  /** A block holds a NUL-terminated text, an array of pointers to such texts, or an array of peer
      addresses. */
  datatype Block = Text(text: string) | Slots(ptrs: seq<Ptr>) | Peers(addresses: seq<string>)

  type Live = map<Ptr, Block>

  /** The blocks in use, and how often the allocator has refused. */
  class Memory {
    var live: Live
    ghost var refusals: nat

    ghost predicate Valid()
      reads this
    {
      NULL !in live
    }

    constructor ()
      ensures Valid() && live == map[]
    {
      live, refusals := map[], 0;
    }

    /** Any address that is not in use, or null: the choice is the allocator's. */
    method Allocate(b: Block) returns (p: Ptr)
      requires Valid()
      modifies this
      ensures Valid()
      ensures p == NULL ==> live == old(live) && refusals == old(refusals) + 1
      ensures p != NULL ==>
                p !in old(live) && live == old(live)[p := b] && refusals == old(refusals)
    {
      if * {
        refusals := refusals + 1;
        return NULL;
      }
      ghost var unused := FreshPtr(live.Keys);
      p :| p != NULL && p !in live;
      live := live[p := b];
    }

    /** Freeing what is not in use, or twice, is ruled out by the precondition. */
    method Free(p: Ptr)
      requires Valid() && p in live
      modifies this`live
      ensures Valid() && live == old(live) - {p}
    {
      live := live - {p};
    }
  }

  // ---- String arrays

  /** The first `|texts|` slots point to blocks of their own that hold the texts; the rest are null. */
  ghost predicate Holds(live: Live, data: Ptr, size: nat, texts: seq<string>) {
    && data in live && live[data].Slots? && |live[data].ptrs| == size && |texts| <= size
    && var ptrs := live[data].ptrs;
    && (forall j :: 0 <= j < |texts| ==> ptrs[j] in live && live[ptrs[j]] == Text(texts[j]))
    && (forall j :: |texts| <= j < size ==> ptrs[j] == NULL)
    && (forall j, k :: 0 <= j < k < |texts| ==> ptrs[j] != ptrs[k])
  }

  /** The blocks an array owns. */
  ghost function Footprint(live: Live, data: Ptr): set<Ptr>
    requires data in live && live[data].Slots?
  {
    {data} + set p | p in live[data].ptrs && p != NULL
  }

  function Elements(ps: seq<Ptr>): set<Ptr> {
    set p | p in ps
  }

  lemma {:induction false} DistinctElements(ps: seq<Ptr>)
    requires forall j, k :: 0 <= j < k < |ps| ==> ps[j] != ps[k]
    ensures |Elements(ps)| == |ps|
  {
    if ps == [] {
      assert Elements(ps) == {};
    } else {
      var front, last := ps[..|ps| - 1], ps[|ps| - 1];
      assert ps == front + [last];
      DistinctElements(front);
      assert last !in front;
      assert Elements(ps) == Elements(front) + {last};
    }
  }

  /** An array that holds `n` texts owns exactly `n + 1` blocks. */
  lemma FootprintSize(live: Live, data: Ptr, size: nat, texts: seq<string>)
    requires NULL !in live && Holds(live, data, size, texts)
    ensures |Footprint(live, data)| == |texts| + 1
  {
    var ptrs := live[data].ptrs;
    var filled := ptrs[..|texts|];
    FilledSlots(live, data, size, texts);
    DistinctElements(filled);
    assert Footprint(live, data) == {data} + Elements(filled);
  }

  lemma FilledSlots(live: Live, data: Ptr, size: nat, texts: seq<string>)
    requires NULL !in live && Holds(live, data, size, texts)
    ensures data !in Elements(live[data].ptrs[..|texts|])
    ensures (set p | p in live[data].ptrs && p != NULL) == Elements(live[data].ptrs[..|texts|])
  {
    var ptrs := live[data].ptrs;
    assert ptrs == ptrs[..|texts|] + ptrs[|texts|..];
  }

  /** `part` is exactly the memory that the array owns. */
  ghost predicate Column(part: Live, data: Ptr, size: nat, texts: seq<string>) {
    NULL !in part && Holds(part, data, size, texts) && part.Keys == Footprint(part, data)
  }

  /** The memory is `rest` and `part`, which have no block in common. */
  ghost predicate Split(live: Live, rest: Live, part: Live) {
    live == rest + part && rest.Keys !! part.Keys
  }

  /** Storing a fresh text in the next slot. */
  lemma ColumnOneMore(part: Live, data: Ptr, size: nat, texts: seq<string>, p: Ptr, s: string)
    requires Column(part, data, size, texts) && |texts| < size && p !in part && p != NULL
    ensures var more := part[p := Text(s)][data := Slots(part[data].ptrs[|texts| := p])];
            Column(more, data, size, texts + [s])
  {
    var ptrs := part[data].ptrs;
    var filled := ptrs[|texts| := p];
    assert filled[|texts|] == p;
    forall q | q in ptrs && q != NULL
      ensures q in filled
    {
      var j :| 0 <= j < |ptrs| && ptrs[j] == q;
      assert filled[j] == q;
    }
  }

  /** An allocation and a write inside `part` stay there. */
  lemma SplitOneMore(live: Live, rest: Live, part: Live, data: Ptr, p: Ptr, text: Block, slots: Block)
    requires Split(live, rest, part) && data in part && p !in live
    ensures Split(live[p := text][data := slots], rest, part[p := text][data := slots])
  {
  }

  /** `rcutils_string_array_t`. Each method takes the rest of the memory as a ghost argument and leaves
      it alone. */
  class StringArray {
    var size: nat
    var data: Ptr

    constructor ()
      ensures size == 0 && data == NULL
    {
      size, data := 0, NULL;
    }

    /** `rcutils_string_array_init` on a zero-initialised array: all slots null. */
    method Init(memory: Memory, n: nat) returns (ok: bool, ghost part: Live)
      requires memory.Valid() && data == NULL
      modifies this, memory
      ensures memory.Valid()
      ensures ok ==>
                && memory.refusals == old(memory.refusals) && size == n
                && Split(memory.live, old(memory.live), part) && Column(part, data, size, [])
      ensures !ok ==>
                && unchanged(this) && memory.live == old(memory.live)
                && memory.refusals == old(memory.refusals) + 1
    {
      var p := memory.Allocate(Slots(seq(n, _ => NULL)));
      ok, part := p != NULL, map[];
      if ok {
        data, size := p, n;
        part := map[p := memory.live[p]];
      }
    }

    /** `data[i] = rcutils_strdup(s)`, and the test for null. */
    method Put(memory: Memory, i: nat, s: string, ghost rest: Live, ghost part: Live,
               ghost texts: seq<string>)
      returns (ok: bool, ghost after: Live)
      requires memory.Valid() && Split(memory.live, rest, part)
      requires Column(part, data, size, texts) && i == |texts| < size
      modifies memory
      ensures memory.Valid()
      ensures Split(memory.live, rest, after)
      ensures ok ==> Column(after, data, size, texts + [s]) && memory.refusals == old(memory.refusals)
      ensures !ok ==> after == part && memory.refusals == old(memory.refusals) + 1
    {
      ghost var before := memory.live;
      var p := memory.Allocate(Text(s));
      ok, after := p != NULL, part;
      var ptrs := memory.live[data].ptrs;
      memory.live := memory.live[data := Slots(ptrs[i := p])];
      if ok {
        ColumnOneMore(part, data, size, texts, p, s);
        SplitOneMore(before, rest, part, data, p, Text(s), Slots(ptrs[i := p]));
        after := part[p := Text(s)][data := Slots(ptrs[i := p])];
      } else {
        assert ptrs[i := p] == ptrs;
        assert memory.live == before;
      }
    }

    /** `rcutils_string_array_fini`: each text once, null slots skipped, then the array itself. */
    method Fini(memory: Memory, ghost rest: Live, ghost part: Live, ghost texts: seq<string>)
      requires memory.Valid() && Split(memory.live, rest, part)
      requires Column(part, data, size, texts)
      modifies this, memory`live
      ensures memory.Valid() && data == NULL && size == 0
      ensures memory.live == rest
    {
      ghost var before := memory.live;
      var ptrs := memory.live[data].ptrs;
      var i := 0;
      while i < size
        invariant 0 <= i <= size == |ptrs| && data == old(data)
        invariant memory.Valid() && memory.live == before - set p | p in ptrs[..i] && p != NULL
      {
        assert ptrs[..i + 1] == ptrs[..i] + [ptrs[i]];
        if ptrs[i] != NULL {
          assert forall p :: p in ptrs[..i] ==> p != ptrs[i];
          memory.Free(ptrs[i]);
        }
        i := i + 1;
      }
      assert ptrs[..i] == ptrs;
      memory.Free(data);
      data, size := NULL, 0;
    }
  }
}
