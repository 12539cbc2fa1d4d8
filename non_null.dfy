/**
 * nova::non_null<T>: an object with one field, the wrapped representation, that is
 * validated once at construction and never observably null afterwards. Copy
 * and move require a copyable category: the move operations carry a
 * `requires copyable_pointer<T>` clause, and the defaulted copy operations are
 * deleted for a unique_ptr because unique_ptr's own copy is. A Unique wrapper
 * has only swap and take.
 */
module NonNullPointer {

  import opened Optional
  import opened Pointers
  import Spec = NonNullSpec

  class NonNull {
    /** The category of T; a wrapper's T never changes. */
    const category: Category
    /** The `ptr_` member. */
    var ptr: Handle
    /** Set by take (and by a move that empties the source): the wrapper must not be used. */
    ghost var consumed: bool

    ghost function Model(): Spec.Wrapper
      reads this
    {
      Spec.Wrapper(ptr, consumed)
    }

    ghost predicate Valid()
      reads this
    {
      KindOf(ptr) == category && Spec.Valid(Model())
    }

    ghost predicate Live()
      reads this
    {
      Valid() && !consumed
    }

    /** The validating constructor: the handle must not be null. */
    constructor (h: Handle)
      requires !IsNull(h)
      ensures Live() && category == KindOf(h)
      ensures Model() == Spec.Wrap(h)
    {
      category := KindOf(h);
      ptr := h;
      consumed := false;
    }

    /**
     * The copy constructor, and the converting constructor from a compatible
     * wrapper: the new wrapper holds the same handle (the same address, and for a
     * shared handle the same allocation group).
     */
    constructor Copy(other: NonNull)
      requires other.Live() && Copyable(other.category)
      ensures Live() && category == other.category
      ensures ptr == other.ptr && Get() == other.Get()
    {
      category := other.category;
      ptr := other.ptr;
      consumed := false;
    }

    /**
     * The move constructor (copyable categories only): this wrapper takes the
     * source's handle; the source keeps it if it is a raw pointer and is emptied,
     * and so consumed, if it is a shared_ptr.
     */
    constructor Move(other: NonNull)
      requires other.Live() && Copyable(other.category)
      modifies other
      ensures Live() && category == other.category && other.Valid()
      ensures (Model(), other.Model()) == Spec.MoveOut(old(other.Model()))
    {
      var h := other.ptr;
      var left := MovedFrom(h);
      category := other.category;
      ptr := h;
      consumed := false;
      other.ptr := left;
      other.consumed := IsNull(left);
    }

    /** Copy assignment: this wrapper (live or moved-from) now holds the source's handle. */
    method CopyAssign(other: NonNull)
      requires Valid() && other.Live() && other.category == category && Copyable(category)
      modifies this
      ensures Live() && ptr == other.ptr
    {
      ptr := other.ptr;
      consumed := false;
    }

    /**
     * Move assignment: as the move constructor; a self-move leaves the wrapper
     * as it was.
     */
    method MoveAssign(other: NonNull)
      requires Valid() && other.Live() && other.category == category && Copyable(category)
      modifies this, other
      ensures Live() && other.Valid()
      ensures other == this ==> Model() == old(Model())
      ensures other != this ==> (Model(), other.Model()) == Spec.MoveOut(old(other.Model()))
    {
      if other != this {
        var h := other.ptr;
        var left := MovedFrom(h);
        ptr := h;
        consumed := false;
        other.ptr := left;
        other.consumed := IsNull(left);
      }
    }

    /** Member swap: the two handles are exchanged and both wrappers stay live. */
    method Swap(other: NonNull)
      requires Live() && other.Live() && other.category == category
      modifies this, other
      ensures Live() && other.Live()
      ensures ptr == old(other.ptr) && other.ptr == old(ptr)
    {
      var mine, theirs := ptr, other.ptr;
      ptr := theirs;
      other.ptr := mine;
    }

    /**
     * The friend `take`: returns the handle and leaves the wrapper consumed, holding
     * what std::move left in its representation.
     */
    method Take() returns (h: Handle)
      requires Live()
      modifies this
      ensures Valid()
      ensures (h, Model()) == Spec.TakeOut(old(Model()))
    {
      h := ptr;
      ptr := MovedFrom(h);
      consumed := true;
    }

    /** get() (and operator->): the pointee address, never null. */
    function Get(): (p: Address)
      reads this
      requires Live()
      ensures p != Null
      ensures p == ptr.address
    {
      ptr.address
    }

    /** underlying() and the explicit conversion to `const T&`: the handle, never null. */
    function Underlying(): (h: Handle)
      reads this
      requires Live()
      ensures !IsNull(h) && KindOf(h) == category
      ensures h == ptr
    {
      ptr
    }

    /** The explicit conversion to bool: always true. */
    function ToBool(): (b: bool)
      reads this
      requires Live()
      ensures b
    {
      true
    }
  }

  /** The free (ADL) swap of two wrappers of the same type. */
  method Swap(a: NonNull, b: NonNull)
    requires a.Live() && b.Live() && a.category == b.category
    modifies a, b
    ensures a.Live() && b.Live()
    ensures a.ptr == old(b.ptr) && b.ptr == old(a.ptr)
  {
    a.Swap(b);
  }

  /** try_make_non_null: no wrapper for a null handle, else a fresh wrapper of it. */
  method TryMakeNonNull(h: Handle) returns (r: Option<NonNull>)
    ensures r.None? <==> IsNull(h)
    ensures r.Some? ==> fresh(r.value) && r.value.Live() && r.value.Underlying() == h
    ensures r.Some? ==> Spec.TryMake(h) == Some(r.value.Model())
  {
    if IsNull(h) {
      r := None;
    } else {
      var w := new NonNull(h);
      r := Some(w);
    }
  }

  /** make_non_null_unique: wraps a fresh allocation; `live` are the addresses in use. */
  method MakeNonNullUnique(live: seq<Address>) returns (w: NonNull)
    ensures fresh(w) && w.Live() && w.category == Unique
    ensures w.Get() !in live
  {
    w := new NonNull(UniquePtr(FreshAddress(live)));
  }

  /**
   * make_non_null_shared: wraps a fresh allocation with a new control block;
   * `live` are the addresses in use and `groups` the control blocks in use.
   */
  method MakeNonNullShared(live: seq<Address>, groups: seq<nat>) returns (w: NonNull)
    ensures fresh(w) && w.Live() && w.category == Shared
    ensures w.Get() !in live
    ensures w.ptr.group != 0 && w.ptr.group !in groups
  {
    w := new NonNull(SharedPtr(FreshAddress(live), FreshAddress(groups)));
  }

  /**
   * The documented ownership-transfer idiom `non_null(take(std::move(nn)))`: the
   * source is consumed and the new wrapper holds the handle it held.
   */
  method TakeAndRewrap(w: NonNull) returns (w2: NonNull)
    requires w.Live()
    modifies w
    ensures fresh(w2) && w2.Live() && w2.category == w.category
    ensures w2.Underlying() == old(w.ptr)
    ensures w.Valid() && w.consumed
    ensures w.Model() == Spec.TakeOut(old(w.Model())).1
  {
    var h := w.Take();
    w2 := new NonNull(h);
  }

  // ---------------------------------------------------------------------------
  // Comparison operators. The two wrappers may wrap different types (different
  // categories); every comparison is one of get() addresses.
  // ---------------------------------------------------------------------------

  /** `a == b` for two wrappers. */
  function Equal(a: NonNull, b: NonNull): (r: bool)
    reads a, b
    requires a.Live() && b.Live()
    ensures r <==> a.ptr.address == b.ptr.address
  {
    a.Get() == b.Get()
  }

  /** `a <=> b` for two wrappers. */
  function Compare(a: NonNull, b: NonNull): (o: Ordering)
    reads a, b
    requires a.Live() && b.Live()
    ensures o == Ordering.Equal <==> Equal(a, b)
    ensures o == Less <==> a.ptr.address < b.ptr.address
  {
    CompareAddresses(a.Get(), b.Get())
  }

  /** `a == p` for a wrapper and a bare pointer. */
  function EqualToPointer(a: NonNull, p: Address): (r: bool)
    reads a
    requires a.Live()
    ensures r <==> p == a.ptr.address
    ensures p == Null ==> !r
  {
    a.Get() == p
  }

  /** `a <=> p` for a wrapper and a bare pointer. */
  function CompareToPointer(a: NonNull, p: Address): (o: Ordering)
    reads a
    requires a.Live()
    ensures o == Ordering.Equal <==> EqualToPointer(a, p)
    ensures o == Less <==> a.ptr.address < p
    ensures p == Null ==> o == Greater
  {
    CompareAddresses(a.Get(), p)
  }

  /** `a == nullptr`: decided without looking at the wrapper. */
  function EqualToNullptr(a: NonNull): (r: bool)
    reads a
    requires a.Live()
    ensures !r
  {
    false
  }

  /** Two wrappers compare in exactly one of the three ways, and `b <=> a` is the converse. */
  lemma CompareTrichotomy(a: NonNull, b: NonNull)
    requires a.Live() && b.Live()
    ensures Compare(b, a) == Converse(Compare(a, b))
    ensures Equal(a, b) <==> Equal(b, a)
    ensures Compare(a, b) == Less || Equal(a, b) || Compare(b, a) == Less
    ensures !(Compare(a, b) == Less && Compare(b, a) == Less)
  {
    CompareAddressesConverse(a.Get(), b.Get());
  }

  /** The wrapper order is transitive. */
  lemma CompareTransitive(a: NonNull, b: NonNull, c: NonNull)
    requires a.Live() && b.Live() && c.Live()
    requires Compare(a, b) == Less && Compare(b, c) == Less
    ensures Compare(a, c) == Less
  {
  }

  /**
   * Against null the answer is fixed: comparing with a null bare pointer agrees
   * with comparing with nullptr, and every wrapper orders after null.
   */
  lemma NeverEqualToNull(a: NonNull)
    requires a.Live()
    ensures EqualToPointer(a, Null) == EqualToNullptr(a) == false
    ensures CompareToPointer(a, Null) == Greater
  {
  }

  /** A copy or a converted wrapper compares equal to its source. */
  lemma CopyComparesEqual(a: NonNull, b: NonNull)
    requires a.Live() && b.Live() && a.ptr == b.ptr
    ensures Equal(a, b) && Compare(a, b) == Ordering.Equal
    ensures EqualToPointer(a, b.Get())
  {
  }

}
