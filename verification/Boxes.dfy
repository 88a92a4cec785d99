/** Ownership of boxed implementations behind C handles (crates/rmw-zenoh-rs/src/traits.rs).

    A handle is a C struct whose pointer field is null or owns a boxed Rust value. The heap hands out
    any address that is not in use, so addresses of freed boxes come back. */
module Boxes {
  import opened Common

  type Ptr = nat

  const NULL: Ptr := 0

  datatype Cell<+I> = Handle(data: Ptr) | Boxed(value: I)

  datatype AccessError = NullSelfPtr | NullImplPtr | NonNullImplPtr

  datatype Result<+T> = Success(value: T) | Failure(error: AccessError)

  /** Null is no cell; every non-null pointer field owns a live box, and no box has two owners. */
  ghost predicate WellOwned<I>(cells: map<Ptr, Cell<I>>) {
    && NULL !in cells
    && (forall h {:trigger cells[h].Handle?} :: h in cells && cells[h].Handle? && cells[h].data != NULL ==>
          cells[h].data in cells && cells[cells[h].data].Boxed?)
    && (forall g, h {:trigger cells[g].Handle?, cells[h].Handle?} ::
          g in cells && h in cells && g != h && cells[g].Handle? && cells[h].Handle? ==>
          cells[g].data != cells[h].data || cells[g].data == NULL)
  }

  lemma FreshPtr(used: set<Ptr>) returns (p: Ptr)
    ensures p !in used && p != NULL
  {
    p := 1;
    var rest := used;
    while p in rest
      invariant p != NULL
      invariant rest <= used
      invariant forall q :: q in used && q !in rest ==> q < p
      decreases rest
    {
      rest := rest - {p};
      p := p + 1;
    }
  }

  /** The heap. `allocations` and `frees` count what happened to it. */
  class Heap<I> {
    var cells: map<Ptr, Cell<I>>
    ghost var allocations: nat
    ghost var frees: nat

    ghost predicate Valid()
      reads this
    {
      WellOwned(cells) && allocations == |cells| + frees
    }

    /** A valid pointer to a handle, or null. */
    predicate IsHandle(h: Ptr)
      reads this
    {
      h == NULL || (h in cells && cells[h].Handle?)
    }

    constructor ()
      ensures Valid() && cells == map[]
    {
      cells := map[];
      allocations, frees := 0, 0;
    }

    /** `Box::into_raw(Box::new(c))`, at any unused address. */
    method IntoRaw(c: Cell<I>) returns (p: Ptr)
      requires NULL !in cells
      modifies this
      ensures p != NULL && p !in old(cells) && cells == old(cells)[p := c]
      ensures allocations == old(allocations) + 1 && frees == old(frees)
    {
      ghost var unused := FreshPtr(cells.Keys);
      p :| p != NULL && p !in cells;
      cells := cells[p := c];
      allocations := allocations + 1;
    }

    /** `Box::from_raw(p)` followed by a move out of the box: only a live box can be freed. */
    method FromRaw(p: Ptr) returns (c: Cell<I>)
      requires p in cells
      modifies this
      ensures c == old(cells)[p] && cells == old(cells) - {p}
      ensures allocations == old(allocations) && frees == old(frees) + 1
    {
      c := cells[p];
      cells := cells - {p};
      frees := frees + 1;
    }

    /** `borrow_impl` / `borrow_data`: the address of the owned value. */
    method Borrow(h: Ptr) returns (r: Result<Ptr>)
      requires Valid() && IsHandle(h)
      ensures r.Success? <==> h != NULL && cells[h].data != NULL
      ensures r.Success? ==> r.value == cells[h].data && r.value in cells && cells[r.value].Boxed?
      ensures r.Failure? ==> r.error == if h == NULL then NullSelfPtr else NullImplPtr
    {
      if h == NULL {
        return Failure(NullSelfPtr);
      }
      var data := cells[h].data;
      if data == NULL {
        return Failure(NullImplPtr);
      }
      r := Success(data);
    }

    /** `own_impl` / `own_data`: frees the box and clears the field, so that a second call fails
        instead of freeing twice. */
    method Own(h: Ptr) returns (r: Result<I>)
      requires Valid() && IsHandle(h)
      modifies this
      ensures Valid()
      ensures r.Success? <==> h != NULL && old(cells)[h].data != NULL
      ensures r.Success? ==>
                && Boxed(r.value) == old(cells)[old(cells)[h].data]
                && cells == old(cells)[h := Handle(NULL)] - {old(cells)[h].data}
                && frees == old(frees) + 1
      ensures r.Failure? ==>
                && r.error == (if h == NULL then NullSelfPtr else NullImplPtr)
                && unchanged(this)
    {
      if h == NULL {
        return Failure(NullSelfPtr);
      }
      var data := cells[h].data;
      if data == NULL {
        return Failure(NullImplPtr);
      }
      var owned := FromRaw(data);
      cells := cells[h := Handle(NULL)];
      r := Success(owned.value);
    }

    /** `assign_impl` / `assign_data`: an occupied field is left alone and nothing is allocated. */
    method Assign(h: Ptr, v: I) returns (r: Result<()>)
      requires Valid() && IsHandle(h)
      modifies this
      ensures Valid()
      ensures r.Success? <==> h != NULL && old(cells)[h].data == NULL
      ensures r.Success? ==>
                && h in cells && cells[h].Handle? && cells[h].data !in old(cells)
                && cells == old(cells)[h := cells[h]][cells[h].data := Boxed(v)]
                && allocations == old(allocations) + 1 && frees == old(frees)
      ensures r.Failure? ==>
                && r.error == (if h == NULL then NullSelfPtr else NonNullImplPtr)
                && unchanged(this)
    {
      if h == NULL {
        return Failure(NullSelfPtr);
      }
      if cells[h].data != NULL {
        return Failure(NonNullImplPtr);
      }
      var p := IntoRaw(Boxed(v));
      cells := cells[h := Handle(p)];
      r := Success(());
    }

    /** Allocates a handle that owns nothing yet. */
    method NewHandle() returns (h: Ptr)
      requires Valid()
      modifies this
      ensures Valid() && h != NULL && h !in old(cells) && cells == old(cells)[h := Handle(NULL)]
      ensures allocations == old(allocations) + 1 && frees == old(frees)
    {
      h := IntoRaw(Handle(NULL));
    }

    /** Frees a handle that owns nothing any more. */
    method DropHandle(h: Ptr)
      requires Valid() && h in cells && cells[h] == Handle(NULL)
      modifies this
      ensures Valid() && cells == old(cells) - {h}
      ensures allocations == old(allocations) && frees == old(frees) + 1
    {
      var c := FromRaw(h);
    }
  }
}
