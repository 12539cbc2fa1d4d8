/**
 * The pointer-like representations a non_null can wrap (T*, std::unique_ptr<T>,
 * std::shared_ptr<T>), reduced to what the wrapper observes of them: the address
 * they point at, their ownership category, what std::move leaves in them, and how
 * addresses compare.
 */
module Pointers {

  /** A memory address; address 0 is the null pointer. */
  type Address = nat

  const Null: Address := 0

  /** Ownership category of a wrapped representation. */
  datatype Category = Raw | Shared | Unique

  /**
   * A wrapped representation. A shared handle also carries the identity of its
   * allocation group (its control block); 0 stands for "no control block".
   */
  datatype Handle =
    | RawPtr(address: Address)
    | UniquePtr(address: Address)
    | SharedPtr(address: Address, group: nat)

  function KindOf(h: Handle): Category
  {
    match h
    case RawPtr(_) => Raw
    case UniquePtr(_) => Unique
    case SharedPtr(_, _) => Shared
  }

  /** `h == nullptr`: every representation compares its pointee address with null. */
  predicate IsNull(h: Handle)
  {
    h.address == Null
  }

  /** The copyable_pointer concept: copy-constructible and copy-assignable. */
  predicate Copyable(c: Category)
  {
    c != Unique
  }

  /**
   * What `std::move` leaves in the moved-from representation: a raw pointer is
   * copied and keeps its value; a unique_ptr or shared_ptr is emptied.
   */
  function MovedFrom(h: Handle): (r: Handle)
    ensures KindOf(r) == KindOf(h)
    ensures KindOf(h) == Raw ==> r == h
    ensures KindOf(h) != Raw ==> IsNull(r)
  {
    match h
    case RawPtr(_) => h
    case UniquePtr(_) => UniquePtr(Null)
    case SharedPtr(_, _) => SharedPtr(Null, 0)
  }

  /** The result of `<=>` on two pointers (std::strong_ordering). */
  datatype Ordering = Less | Equal | Greater

  function Converse(o: Ordering): Ordering
  {
    match o
    case Less => Greater
    case Equal => Equal
    case Greater => Less
  }

  /** `x <=> y` on addresses: the total order of addresses. */
  function CompareAddresses(x: Address, y: Address): (o: Ordering)
    ensures o == Less <==> x < y
    ensures o == Equal <==> x == y
    ensures o == Greater <==> y < x
  {
    if x < y then Less else if x == y then Equal else Greater
  }

  lemma CompareAddressesConverse(x: Address, y: Address)
    ensures CompareAddresses(y, x) == Converse(CompareAddresses(x, y))
  {
  }

  lemma CompareAddressesTransitive(x: Address, y: Address, z: Address, o: Ordering)
    requires o != Equal
    requires CompareAddresses(x, y) == o && CompareAddresses(y, z) == o
    ensures CompareAddresses(x, z) == o
  {
  }

  // ---------------------------------------------------------------------------
  // The allocator behind make_unique / make_shared: it returns an address that is
  // not null and not held by any live allocation.
  // ---------------------------------------------------------------------------

  /** The largest address in `s`, or 0 when `s` is empty. */
  function MaxAddress(s: seq<Address>): (m: Address)
    ensures forall i :: 0 <= i < |s| ==> s[i] <= m
    ensures s != [] ==> m in s
  {
    if s == [] then 0
    else
      var rest := MaxAddress(s[1..]);
      if rest < s[0] then s[0] else rest
  }

  /** An address a fresh allocation may receive, given the addresses in use. */
  function FreshAddress(live: seq<Address>): (a: Address)
    ensures a != Null
    ensures a !in live
  {
    MaxAddress(live) + 1
  }

}
