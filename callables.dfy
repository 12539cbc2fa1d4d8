/**
 * nova::non_null_function and nova::non_null_move_only_function: wrappers of a
 * callable-storage value (std::function, std::move_only_function) that is never
 * empty. The stored callable is an opaque value; invoking it applies its target.
 */
module Callables {

  /** A callable-storage value with a call signature A -> R: empty, or holding a target. */
  datatype Callable<!A, R> = Empty | Target(call: A -> R)

  /** non_null_function<R(Args...)>: copyable; its move is a copy. */
  class NonNullFunction<A, R> {
    /** The `fn_` member. */
    var fn: Callable<A, R>
    /** Set by take: the wrapper must not be used. */
    ghost var consumed: bool

    /** The non-empty invariant. */
    ghost predicate Valid()
      reads this
    {
      !consumed ==> fn.Target?
    }

    ghost predicate Live()
      reads this
    {
      !consumed && fn.Target?
    }

    /** The validating constructor: the callable must not be empty. */
    constructor (f: Callable<A, R>)
      requires f.Target?
      ensures Live() && fn == f
    {
      fn := f;
      consumed := false;
    }

    /** The copy constructor: both wrappers hold the same callable. */
    constructor Copy(other: NonNullFunction<A, R>)
      requires other.Live()
      ensures Live() && fn == other.fn
    {
      fn := other.fn;
      consumed := false;
    }

    /**
     * The move constructor, emulated by a copy: the source is not modified and
     * keeps its callable.
     */
    constructor Move(other: NonNullFunction<A, R>)
      requires other.Live()
      ensures Live() && fn == other.fn
      ensures other.Live() && unchanged(other)
    {
      fn := other.fn;
      consumed := false;
    }

    /** Copy assignment. */
    method CopyAssign(other: NonNullFunction<A, R>)
      requires Valid() && other.Live()
      modifies this
      ensures Live() && fn == old(other.fn)
    {
      fn := other.fn;
      consumed := false;
    }

    /** Move assignment, emulated by a copy: the source keeps its callable. */
    method MoveAssign(other: NonNullFunction<A, R>)
      requires Valid() && other.Live()
      modifies this
      ensures Live() && fn == old(other.fn)
      ensures other.Live() && other.fn == old(other.fn)
    {
      fn := other.fn;
      consumed := false;
    }

    /** operator(): applies the stored callable with no emptiness check. */
    function Invoke(x: A): (r: R)
      reads this
      requires Live()
      ensures r == fn.call(x)
    {
      fn.call(x)
    }

    /** underlying(): the stored callable, never empty. */
    function Underlying(): (f: Callable<A, R>)
      reads this
      requires Live()
      ensures f.Target? && f == fn
    {
      fn
    }

    /** The explicit conversion to bool: always true. */
    function ToBool(): (b: bool)
      reads this
      requires Live()
      ensures b
    {
      true
    }

    /** Member swap: the callables are exchanged and both wrappers stay non-empty. */
    method Swap(other: NonNullFunction<A, R>)
      requires Live() && other.Live()
      modifies this, other
      ensures Live() && other.Live()
      ensures fn == old(other.fn) && other.fn == old(fn)
    {
      var mine, theirs := fn, other.fn;
      fn := theirs;
      other.fn := mine;
    }

    /**
     * The friend `take`: returns the stored callable and leaves the wrapper
     * consumed; what remains in `fn_` is unspecified.
     */
    method Take() returns (f: Callable<A, R>)
      requires Live()
      modifies this
      ensures f == old(fn) && f.Target?
      ensures Valid() && consumed
    {
      f := fn;
      fn := Empty;
      consumed := true;
    }
  }

  /** The free (ADL) swap of two non_null_function objects. */
  method SwapFunctions<A, R>(a: NonNullFunction<A, R>, b: NonNullFunction<A, R>)
    requires a.Live() && b.Live()
    modifies a, b
    ensures a.Live() && b.Live()
    ensures a.fn == old(b.fn) && b.fn == old(a.fn)
  {
    a.Swap(b);
  }

  /**
   * non_null_move_only_function<R(Args...)>: neither copyable nor movable; take is
   * the only way to transfer its callable out.
   */
  class NonNullMoveOnlyFunction<A, R> {
    /** The `fn_` member. */
    var fn: Callable<A, R>
    /** Set by take: the wrapper must not be used. */
    ghost var consumed: bool

    /** The non-empty invariant. */
    ghost predicate Valid()
      reads this
    {
      !consumed ==> fn.Target?
    }

    ghost predicate Live()
      reads this
    {
      !consumed && fn.Target?
    }

    /** The validating constructor: the callable must not be empty. */
    constructor (f: Callable<A, R>)
      requires f.Target?
      ensures Live() && fn == f
    {
      fn := f;
      consumed := false;
    }

    /** operator(): applies the stored callable with no emptiness check. */
    function Invoke(x: A): (r: R)
      reads this
      requires Live()
      ensures r == fn.call(x)
    {
      fn.call(x)
    }

    /** underlying(): the stored callable, never empty. */
    function Underlying(): (f: Callable<A, R>)
      reads this
      requires Live()
      ensures f.Target? && f == fn
    {
      fn
    }

    /** The explicit conversion to bool: always true. */
    function ToBool(): (b: bool)
      reads this
      requires Live()
      ensures b
    {
      true
    }

    /** Member swap: the callables are exchanged and both wrappers stay non-empty. */
    method Swap(other: NonNullMoveOnlyFunction<A, R>)
      requires Live() && other.Live()
      modifies this, other
      ensures Live() && other.Live()
      ensures fn == old(other.fn) && other.fn == old(fn)
    {
      var mine, theirs := fn, other.fn;
      fn := theirs;
      other.fn := mine;
    }

    /**
     * The friend `take`: returns the stored callable and leaves the wrapper
     * consumed; what remains in `fn_` is unspecified.
     */
    method Take() returns (f: Callable<A, R>)
      requires Live()
      modifies this
      ensures f == old(fn) && f.Target?
      ensures Valid() && consumed
    {
      f := fn;
      fn := Empty;
      consumed := true;
    }
  }

  /** The free (ADL) swap of two non_null_move_only_function objects. */
  method SwapMoveOnlyFunctions<A, R>(a: NonNullMoveOnlyFunction<A, R>, b: NonNullMoveOnlyFunction<A, R>)
    requires a.Live() && b.Live()
    modifies a, b
    ensures a.Live() && b.Live()
    ensures a.fn == old(b.fn) && b.fn == old(a.fn)
  {
    a.Swap(b);
  }

  /**
   * Transferring a move-only callable to a new wrapper by `take` and re-wrapping:
   * the new wrapper calls exactly what the old one did, and the old one is consumed.
   */
  method TakeAndRewrapMoveOnly<A, R>(w: NonNullMoveOnlyFunction<A, R>) returns (w2: NonNullMoveOnlyFunction<A, R>)
    requires w.Live()
    modifies w
    ensures fresh(w2) && w2.Live() && w2.fn == old(w.fn)
    ensures forall x :: w2.Invoke(x) == old(w.fn).call(x)
    ensures w.Valid() && w.consumed
  {
    var f := w.Take();
    w2 := new NonNullMoveOnlyFunction(f);
  }

}
