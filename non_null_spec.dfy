/**
 * The abstract state of one nova::non_null<T> object and the value-level meaning
 * of the operations that change it. The class in module NonNullPointer and the
 * multi-wrapper protocol in module Protocol are both specified by these functions.
 */
module NonNullSpec {

  import opened Optional
  import opened Pointers

  /**
   * A wrapper's state: the representation in its `ptr_` field and the tag
   * "consumed", set once the wrapper is moved-from and must no longer be used.
   */
  datatype Wrapper = Wrapper(ptr: Handle, consumed: bool)

  /**
   * The non-null invariant: a wrapper not consumed holds a non-null handle. It
   * holds of every live wrapper and says nothing about a consumed one.
   */
  predicate Valid(w: Wrapper): (b: bool)
    ensures Live(w) ==> b
    ensures w.consumed ==> b
  {
    !w.consumed ==> !IsNull(w.ptr)
  }

  /** A wrapper that may be used: not consumed, and so holding a non-null handle. */
  predicate Live(w: Wrapper)
  {
    !w.consumed && !IsNull(w.ptr)
  }

  /** The state the validating constructor establishes. */
  function Wrap(h: Handle): (w: Wrapper)
    requires !IsNull(h)
    ensures Live(w) && w.ptr == h
  {
    Wrapper(h, false)
  }

  /** try_make_non_null: absent exactly for the null handle, else a wrapper of it. */
  function TryMake(h: Handle): (r: Option<Wrapper>)
    ensures r.None? <==> IsNull(h)
    ensures r.Some? ==> Live(r.value) && r.value.ptr == h
  {
    if IsNull(h) then None else Some(Wrap(h))
  }

  /**
   * take: the handle the wrapper held, and the wrapper left behind, which is
   * consumed and holds whatever std::move left in its representation.
   */
  function TakeOut(w: Wrapper): (r: (Handle, Wrapper))
    requires Live(w)
    ensures r.0 == w.ptr && !IsNull(r.0)
    ensures r.1.consumed && Valid(r.1)
    ensures KindOf(r.1.ptr) == KindOf(w.ptr)
    ensures KindOf(w.ptr) != Raw ==> IsNull(r.1.ptr)
  {
    (w.ptr, Wrapper(MovedFrom(w.ptr), true))
  }

  /**
   * Move construction or move assignment out of `w` (copyable categories only):
   * the new target state and the state left in the source. The source member is
   * `std::move`d, so it becomes consumed exactly when that empties it.
   */
  function MoveOut(w: Wrapper): (r: (Wrapper, Wrapper))
    requires Live(w) && Copyable(KindOf(w.ptr))
    ensures Live(r.0) && r.0.ptr == w.ptr
    ensures Valid(r.1) && KindOf(r.1.ptr) == KindOf(w.ptr)
    ensures KindOf(w.ptr) == Raw ==> r.1 == w
    ensures KindOf(w.ptr) == Shared ==> r.1.consumed && IsNull(r.1.ptr)
  {
    var left := MovedFrom(w.ptr);
    (Wrapper(w.ptr, false), Wrapper(left, IsNull(left)))
  }

  /** Re-wrapping what take returned gives a live wrapper over the same handle. */
  lemma TakeThenWrap(w: Wrapper)
    requires Live(w)
    ensures !IsNull(TakeOut(w).0)
    ensures Wrap(TakeOut(w).0) == Wrapper(w.ptr, false)
    ensures TryMake(TakeOut(w).0) == Some(w)
  {
  }

}
