/**
 * A program's use of non_null wrappers, as a sequence of operations over a
 * collection of wrapper objects (slot i is the i-th object created). Each step
 * either completes or ends the program in one of three ways: it does not compile
 * (a deleted or category-gated operation, or mismatched types), it has undefined
 * behaviour (a consumed wrapper is used), or it fails the invariant check at
 * construction. The lemmas show that a program that completes keeps every
 * wrapper non-null and never lets two wrappers own the same unique_ptr target.
 */
module Protocol {

  import opened Pointers
  import opened NonNullSpec

  datatype Op =
    | WrapRaw(address: Address)              // non_null<T*>(p)
    | MakeUnique                             // make_non_null_unique<T>(...)
    | MakeShared                             // make_non_null_shared<T>(...)
    | CopyConstruct(src: nat)                // non_null(w)
    | MoveConstruct(src: nat)                // non_null(std::move(w))
    | CopyAssign(dst: nat, src: nat)         // d = s
    | MoveAssign(dst: nat, src: nat)         // d = std::move(s)
    | Swap(a: nat, b: nat)                   // swap(a, b)
    | Take(i: nat)                           // take(std::move(w)), result dropped
    | TakeAndRewrap(i: nat)                  // non_null(take(std::move(w)))
    | Use(i: nat)                            // get(), underlying(), *w, w->, comparisons

  datatype Outcome =
    | Done(ws: seq<Wrapper>)
    | IllFormed
    | Undefined
    | InvariantViolation

  /** The addresses held by the wrappers, slot by slot. */
  function Addresses(ws: seq<Wrapper>): seq<Address>
  {
    seq(|ws|, i requires 0 <= i < |ws| => ws[i].ptr.address)
  }

  /** The control blocks held by the wrappers, slot by slot (0 for none). */
  function Groups(ws: seq<Wrapper>): seq<nat>
  {
    seq(|ws|, i requires 0 <= i < |ws| => if ws[i].ptr.SharedPtr? then ws[i].ptr.group else 0)
  }

  /**
   * One operation on the collection. Only wrapping a null pointer fails the
   * construction check, only reading a consumed wrapper is undefined, and a
   * completed step adds at most one wrapper.
   */
  function Step(ws: seq<Wrapper>, op: Op): (r: Outcome)
    ensures r == InvariantViolation <==> op.WrapRaw? && op.address == Null
    ensures r == Undefined ==> exists i: nat :: i < |ws| && ReadsSlot(op, i) && !Live(ws[i])
    ensures r.Done? ==> |ws| <= |r.ws| <= |ws| + 1
  {
    match op
    case WrapRaw(a) =>
      if a == Null then InvariantViolation else Done(ws + [Wrap(RawPtr(a))])
    case MakeUnique =>
      Done(ws + [Wrap(UniquePtr(FreshAddress(Addresses(ws))))])
    case MakeShared =>
      Done(ws + [Wrap(SharedPtr(FreshAddress(Addresses(ws)), FreshAddress(Groups(ws))))])
    case CopyConstruct(s) =>
      if s >= |ws| || !Copyable(KindOf(ws[s].ptr)) then IllFormed
      else if !Live(ws[s]) then Undefined
      else Done(ws + [Wrap(ws[s].ptr)])
    case MoveConstruct(s) =>
      if s >= |ws| || !Copyable(KindOf(ws[s].ptr)) then IllFormed
      else if !Live(ws[s]) then Undefined
      else Done(ws[s := MoveOut(ws[s]).1] + [MoveOut(ws[s]).0])
    case CopyAssign(d, s) =>
      if d >= |ws| || s >= |ws| || KindOf(ws[d].ptr) != KindOf(ws[s].ptr) || !Copyable(KindOf(ws[s].ptr)) then IllFormed
      else if !Live(ws[s]) then Undefined
      else Done(ws[d := Wrap(ws[s].ptr)])
    case MoveAssign(d, s) =>
      if d >= |ws| || s >= |ws| || KindOf(ws[d].ptr) != KindOf(ws[s].ptr) || !Copyable(KindOf(ws[s].ptr)) then IllFormed
      else if !Live(ws[s]) then Undefined
      else if d == s then Done(ws)
      else Done(ws[d := MoveOut(ws[s]).0][s := MoveOut(ws[s]).1])
    case Swap(a, b) =>
      if a >= |ws| || b >= |ws| || KindOf(ws[a].ptr) != KindOf(ws[b].ptr) then IllFormed
      else if !Live(ws[a]) || !Live(ws[b]) then Undefined
      else Done(ws[a := ws[b]][b := ws[a]])
    case Take(i) =>
      if i >= |ws| then IllFormed
      else if !Live(ws[i]) then Undefined
      else Done(ws[i := TakeOut(ws[i]).1])
    case TakeAndRewrap(i) =>
      if i >= |ws| then IllFormed
      else if !Live(ws[i]) then Undefined
      else Done(ws[i := TakeOut(ws[i]).1] + [Wrap(TakeOut(ws[i]).0)])
    case Use(i) =>
      if i >= |ws| then IllFormed
      else if !Live(ws[i]) then Undefined
      else Done(ws)
  }

  /** Runs the operations in order, stopping at the first that does not complete. */
  function Run(ws: seq<Wrapper>, ops: seq<Op>): (r: Outcome)
    ensures r == InvariantViolation ==> exists k :: 0 <= k < |ops| && ops[k] == WrapRaw(Null)
    decreases |ops|
  {
    if ops == [] then Done(ws)
    else
      match Step(ws, ops[0])
      case Done(next) => Run(next, ops[1..])
      case other => other
  }

  // ---------------------------------------------------------------------------
  // Invariants of a collection of wrappers
  // ---------------------------------------------------------------------------

  /** Every wrapper satisfies the non-null invariant. */
  predicate AllValid(ws: seq<Wrapper>)
  {
    forall i :: 0 <= i < |ws| ==> Valid(ws[i])
  }

  /** A live wrapper owning a unique_ptr. */
  predicate OwnsUnique(w: Wrapper)
  {
    Live(w) && w.ptr.UniquePtr?
  }

  /** No two live wrappers own a unique_ptr to the same address. */
  predicate UniqueExclusive(ws: seq<Wrapper>)
  {
    forall i, j :: 0 <= i < |ws| && 0 <= j < |ws| && i != j && OwnsUnique(ws[i]) && OwnsUnique(ws[j]) ==>
      ws[i].ptr.address != ws[j].ptr.address
  }

  /** The operations that read slot i as their source or operand. */
  predicate ReadsSlot(op: Op, i: nat)
  {
    match op
    case CopyConstruct(s) => s == i
    case MoveConstruct(s) => s == i
    case CopyAssign(_, s) => s == i
    case MoveAssign(_, s) => s == i
    case Swap(a, b) => a == i || b == i
    case Take(k) => k == i
    case TakeAndRewrap(k) => k == i
    case Use(k) => k == i
    case _ => false
  }

  // ---------------------------------------------------------------------------
  // One step
  // ---------------------------------------------------------------------------

  /** A completed step keeps every slot (it only appends) and the category of each. */
  lemma StepKeepsSlots(ws: seq<Wrapper>, op: Op)
    requires Step(ws, op).Done?
    ensures |ws| <= |Step(ws, op).ws|
    ensures forall i :: 0 <= i < |ws| ==> KindOf(Step(ws, op).ws[i].ptr) == KindOf(ws[i].ptr)
  {
  }

  /** A completed step preserves the non-null invariant of every wrapper. */
  lemma StepKeepsValid(ws: seq<Wrapper>, op: Op)
    requires AllValid(ws) && Step(ws, op).Done?
    ensures AllValid(Step(ws, op).ws)
  {
    var next := Step(ws, op).ws;
    match op
    case Swap(a, b) =>
      forall k | 0 <= k < |next| ensures Valid(next[k]) {
        assert next[k] == (if k == b then ws[a] else if k == a then ws[b] else ws[k]);
      }
    case _ =>
  }

  /** Adding a wrapper keeps ownership exclusive when it owns no unique_ptr target already owned. */
  lemma AppendKeepsExclusive(ws: seq<Wrapper>, w: Wrapper)
    requires UniqueExclusive(ws)
    requires OwnsUnique(w) ==> forall k :: 0 <= k < |ws| && OwnsUnique(ws[k]) ==> ws[k].ptr.address != w.ptr.address
    ensures UniqueExclusive(ws + [w])
  {
    var next := ws + [w];
    forall i, j | 0 <= i < |next| && 0 <= j < |next| && i != j && OwnsUnique(next[i]) && OwnsUnique(next[j])
      ensures next[i].ptr.address != next[j].ptr.address
    {
      if i < |ws| && j < |ws| {
        assert next[i] == ws[i] && next[j] == ws[j];
      }
    }
  }

  /** Overwriting a slot with a wrapper that owns no unique_ptr keeps ownership exclusive. */
  lemma ReplaceKeepsExclusive(ws: seq<Wrapper>, k: nat, w: Wrapper)
    requires k < |ws| && UniqueExclusive(ws) && !OwnsUnique(w)
    ensures UniqueExclusive(ws[k := w])
  {
    var next := ws[k := w];
    forall i, j | 0 <= i < |next| && 0 <= j < |next| && i != j && OwnsUnique(next[i]) && OwnsUnique(next[j])
      ensures next[i].ptr.address != next[j].ptr.address
    {
      assert next[i] == ws[i] && next[j] == ws[j];
    }
  }

  /** Exchanging two slots keeps ownership exclusive. */
  lemma ExchangeKeepsExclusive(ws: seq<Wrapper>, a: nat, b: nat)
    requires a < |ws| && b < |ws| && UniqueExclusive(ws)
    ensures UniqueExclusive(ws[a := ws[b]][b := ws[a]])
  {
    var next := ws[a := ws[b]][b := ws[a]];
    forall i, j | 0 <= i < |next| && 0 <= j < |next| && i != j && OwnsUnique(next[i]) && OwnsUnique(next[j])
      ensures next[i].ptr.address != next[j].ptr.address
    {
      var oi := if i == b then a else if i == a then b else i;
      var oj := if j == b then a else if j == a then b else j;
      assert next[i] == ws[oi] && next[j] == ws[oj];
    }
  }

  /** A completed step never gives two live wrappers the same unique_ptr target. */
  lemma StepKeepsExclusive(ws: seq<Wrapper>, op: Op)
    requires UniqueExclusive(ws) && Step(ws, op).Done?
    ensures UniqueExclusive(Step(ws, op).ws)
  {
    match op
    case WrapRaw(a) =>
      AppendKeepsExclusive(ws, Wrap(RawPtr(a)));
    case MakeUnique =>
      var a := FreshAddress(Addresses(ws));
      assert forall k :: 0 <= k < |ws| ==> Addresses(ws)[k] == ws[k].ptr.address;
      AppendKeepsExclusive(ws, Wrap(UniquePtr(a)));
    case MakeShared =>
      AppendKeepsExclusive(ws, Wrap(SharedPtr(FreshAddress(Addresses(ws)), FreshAddress(Groups(ws)))));
    case CopyConstruct(s) =>
      AppendKeepsExclusive(ws, Wrap(ws[s].ptr));
    case MoveConstruct(s) =>
      var (t, left) := MoveOut(ws[s]);
      ReplaceKeepsExclusive(ws, s, left);
      AppendKeepsExclusive(ws[s := left], t);
    case CopyAssign(d, s) =>
      ReplaceKeepsExclusive(ws, d, Wrap(ws[s].ptr));
    case MoveAssign(d, s) =>
      if d != s {
        var (t, left) := MoveOut(ws[s]);
        ReplaceKeepsExclusive(ws, d, t);
        ReplaceKeepsExclusive(ws[d := t], s, left);
      }
    case Swap(a, b) =>
      ExchangeKeepsExclusive(ws, a, b);
    case Take(t) =>
      ReplaceKeepsExclusive(ws, t, TakeOut(ws[t]).1);
    case TakeAndRewrap(t) =>
      var (h, left) := TakeOut(ws[t]);
      ReplaceKeepsExclusive(ws, t, left);
      var mid := ws[t := left];
      if h.UniquePtr? {
        forall k | 0 <= k < |mid| && OwnsUnique(mid[k])
          ensures mid[k].ptr.address != h.address
        {
          assert k != t && mid[k] == ws[k] && OwnsUnique(ws[t]);
        }
      }
      AppendKeepsExclusive(mid, Wrap(h));
    case Use(_) =>
  }

  /**
   * The source's defaulted copy, its swap and its take do not look at whether
   * their operand was moved from. After a shared wrapper is emptied by a move,
   * as written: a copy of it holds null and is not consumed; swapping it with
   * another live shared wrapper exchanges only the members, so that wrapper,
   * never moved from, is left holding null; and take of it
   * returns a null handle. Each breaks the non-null guarantee. Step instead
   * treats all three as a use after move.
   */
  lemma CopyAfterSharedMoveAsWritten(ws: seq<Wrapper>, s: nat, t: nat)
    requires s < |ws| && Live(ws[s]) && KindOf(ws[s].ptr) == Shared
    requires t < |ws| && t != s && Live(ws[t]) && KindOf(ws[t].ptr) == Shared
    ensures Step(ws, MoveConstruct(s)).Done?
    ensures var moved := Step(ws, MoveConstruct(s)).ws;
      && IsNull(moved[s].ptr)
      && !Valid(Wrapper(moved[s].ptr, false))
      && !Valid(Wrapper(moved[s].ptr, moved[t].consumed))
      && Step(moved, CopyConstruct(s)) == Undefined
      && Step(moved, Swap(s, t)) == Undefined
      && Step(moved, Take(s)) == Undefined
  {
  }

  /**
   * make_non_null_shared appends a live shared wrapper whose address and control
   * block no existing wrapper holds.
   */
  lemma MakeSharedIsFresh(ws: seq<Wrapper>)
    ensures Step(ws, MakeShared).Done? && |Step(ws, MakeShared).ws| == |ws| + 1
    ensures var w := Step(ws, MakeShared).ws[|ws|];
      && Live(w) && w.ptr.SharedPtr? && w.ptr.group != 0
      && (forall k :: 0 <= k < |ws| ==> ws[k].ptr.address != w.ptr.address)
      && (forall k :: 0 <= k < |ws| && ws[k].ptr.SharedPtr? ==> ws[k].ptr.group != w.ptr.group)
  {
    var w := Step(ws, MakeShared).ws[|ws|];
    forall k | 0 <= k < |ws| ensures ws[k].ptr.address != w.ptr.address {
      assert Addresses(ws)[k] == ws[k].ptr.address;
    }
    forall k | 0 <= k < |ws| && ws[k].ptr.SharedPtr? ensures ws[k].ptr.group != w.ptr.group {
      assert Groups(ws)[k] == ws[k].ptr.group;
    }
  }

  /**
   * The consumed-state protocol: once a wrapper is consumed, any operation that
   * reads it has undefined behaviour (or does not compile), whatever it is.
   */
  lemma ConsumedIsNeverRead(ws: seq<Wrapper>, op: Op, i: nat)
    requires i < |ws| && ws[i].consumed && ReadsSlot(op, i)
    ensures Step(ws, op) == Undefined || Step(ws, op) == IllFormed
  {
  }

  /** Take consumes the wrapper it is applied to, whatever its category. */
  lemma TakeConsumes(ws: seq<Wrapper>, i: nat)
    requires i < |ws| && Live(ws[i])
    ensures Step(ws, Take(i)).Done? && Step(ws, Take(i)).ws[i].consumed
    ensures Step(ws, Use(i)).Done? && Step(Step(ws, Take(i)).ws, Use(i)) == Undefined
  {
  }

  /**
   * A consumed wrapper becomes usable again only by being assigned to from
   * another, live wrapper.
   */
  lemma OnlyAssignmentRevives(ws: seq<Wrapper>, op: Op, i: nat)
    requires i < |ws| && ws[i].consumed
    requires Step(ws, op).Done? && !Step(ws, op).ws[i].consumed
    ensures (op.CopyAssign? || op.MoveAssign?) && op.dst == i && op.src != i
  {
  }

  /**
   * Move follows the category: it does not compile for a unique_ptr, leaves a raw
   * source untouched, and empties a shared_ptr source; the target always receives
   * the source's handle.
   */
  lemma MoveFollowsCategory(ws: seq<Wrapper>, s: nat)
    requires s < |ws| && Live(ws[s])
    ensures KindOf(ws[s].ptr) == Unique ==> Step(ws, MoveConstruct(s)) == IllFormed
    ensures KindOf(ws[s].ptr) == Raw ==> Step(ws, MoveConstruct(s)) == Done(ws + [ws[s]])
    ensures KindOf(ws[s].ptr) == Shared ==>
      && Step(ws, MoveConstruct(s)).Done?
      && Step(ws, MoveConstruct(s)).ws[s].consumed
      && Step(ws, MoveConstruct(s)).ws[|ws|] == ws[s]
  {
  }

  /** Swapping twice restores the collection. */
  lemma SwapTwice(ws: seq<Wrapper>, a: nat, b: nat)
    requires Step(ws, Swap(a, b)).Done?
    ensures Step(Step(ws, Swap(a, b)).ws, Swap(a, b)) == Done(ws)
  {
    var once := Step(ws, Swap(a, b)).ws;
    assert Live(once[a]) && Live(once[b]);
    assert once[a := once[b]][b := once[a]] == ws;
  }

  /** take followed by re-wrapping moves the handle to a new live wrapper unchanged. */
  lemma RewrapKeepsHandle(ws: seq<Wrapper>, i: nat)
    requires i < |ws| && Live(ws[i])
    ensures Step(ws, TakeAndRewrap(i)).Done?
    ensures Step(ws, TakeAndRewrap(i)).ws[|ws|] == ws[i]
    ensures Step(ws, TakeAndRewrap(i)).ws[i].consumed
  {
  }

  // ---------------------------------------------------------------------------
  // Whole programs
  // ---------------------------------------------------------------------------

  /** Every program that completes leaves every wrapper it created non-null or consumed. */
  lemma {:induction false} RunKeepsValid(ws: seq<Wrapper>, ops: seq<Op>)
    requires AllValid(ws) && Run(ws, ops).Done?
    ensures AllValid(Run(ws, ops).ws)
    decreases |ops|
  {
    if ops != [] {
      StepKeepsValid(ws, ops[0]);
      RunKeepsValid(Step(ws, ops[0]).ws, ops[1..]);
    }
  }

  /**
   * Every program that completes keeps unique ownership exclusive: unique_ptr
   * targets reach new wrappers only by take or swap, never by copy or move.
   */
  lemma {:induction false} RunKeepsExclusive(ws: seq<Wrapper>, ops: seq<Op>)
    requires AllValid(ws) && UniqueExclusive(ws) && Run(ws, ops).Done?
    ensures AllValid(Run(ws, ops).ws) && UniqueExclusive(Run(ws, ops).ws)
    decreases |ops|
  {
    if ops != [] {
      StepKeepsValid(ws, ops[0]);
      StepKeepsExclusive(ws, ops[0]);
      RunKeepsExclusive(Step(ws, ops[0]).ws, ops[1..]);
    }
  }

  /** Every program that completes keeps every slot it started with, in its category. */
  lemma {:induction false} RunKeepsSlots(ws: seq<Wrapper>, ops: seq<Op>)
    requires Run(ws, ops).Done?
    ensures |ws| <= |Run(ws, ops).ws|
    ensures forall i :: 0 <= i < |ws| ==> KindOf(Run(ws, ops).ws[i].ptr) == KindOf(ws[i].ptr)
    decreases |ops|
  {
    if ops != [] {
      StepKeepsSlots(ws, ops[0]);
      RunKeepsSlots(Step(ws, ops[0]).ws, ops[1..]);
    }
  }

}
