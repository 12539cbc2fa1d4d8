# nova non_null wrappers in Dafny

This project models the wrapper family of `nova/non_null.hpp`:

- `nova::non_null<T>` over a raw pointer, a `std::unique_ptr` or a `std::shared_ptr`;
- `nova::non_null_function<R(Args...)>` over a `std::function`;
- `nova::non_null_move_only_function<R(Args...)>` over a `std::move_only_function`.

Each wrapper holds one value. It checks once, at construction, that the value is not the null or empty sentinel, and assumes it from then on. Its one sanctioned exit is the consuming `take`.

Files and modules:

- `pointers.dfy` (module `Pointers`): the wrapped representations. A pointer is an address (`nat`, with 0 as null). A `Handle` is a raw, unique or shared pointer; a shared handle also carries its allocation group. The module also holds what `std::move` leaves in each kind, the total order on addresses, and the allocator's choice of a fresh address.
- `non_null_spec.dfy` (module `NonNullSpec`): the abstract state of one `non_null`. It is the handle plus a `consumed` tag, a ghost tag that exists only in the model: it is set when the wrapper is taken or emptied by a move. The module defines the invariant and the value-level meaning of `try_make_non_null`, `take` and move.
- `non_null.dfy` (module `NonNullPointer`): class `NonNull`, with one mutable field `ptr` (the source's `ptr_`) and a ghost `consumed` flag. Each constructor and method is specified against `NonNullSpec`. The module also holds the free `swap`, `try_make_non_null`, the two factories, and the comparison operators with their ordering laws.
- `callables.dfy` (module `Callables`): classes `NonNullFunction` and `NonNullMoveOnlyFunction`. The callable is a value that is either `Empty` or a `Target` function; invoking it applies that function.
- `protocol.dfy` (module `Protocol`): a program as a sequence of operations over a collection of `non_null` objects. A step either completes or ends the program in one of three ways:
  - it does not compile (a deleted or category-gated operation);
  - it has undefined behaviour (a wrapper that was taken, or emptied by a move, is used);
  - it fails the construction check.

  The lemmas prove two things for every program that completes. Every wrapper stays non-null or consumed. And no two live wrappers ever own the same `unique_ptr` target. Both rest on the rules the model adds, given under "## Left out" and "## Findings".
- `optional.dfy` (module `Optional`): the `Option` type standing for `std::optional`.

Copy and move of a `NonNull` require a copyable category, so a `Unique` wrapper can only be swapped or taken. For move this is the source's `requires copyable_pointer<T>` clause (`include/nova/non_null.hpp:149`, `:159`). Copy is defaulted (`:141-142`); it is deleted for a `unique_ptr` because `unique_ptr`'s own copy is deleted. `NonNullMoveOnlyFunction` has no copy or move members at all.

`non_null_function`'s documentation says its copy and move mirror `non_null` for copyable pointer types (`include/nova/non_null.hpp:489-490`), and it moves by copying (`:518-533`). `non_null`'s move constructor and move assignment `std::move` the member instead (`:151`, `:161`). That leaves a `shared_ptr` source null, as the comment at `tests/test_non_null.cpp:470-471` notes. So in this model:

- a shared-category move leaves the source consumed;
- a raw-category move leaves the source unchanged and live;
- only `non_null_function` really moves by copying.

## Model

| member | source | states |
|---|---|---|
| Pointers.MovedFrom | include/nova/non_null.hpp:148-163 | moving a representation keeps its category; a raw pointer keeps its value, while a unique_ptr or shared_ptr becomes null |
| Pointers.CompareAddresses | include/nova/non_null.hpp:373-377 | `<=>` on addresses is less, equal or greater exactly when the addresses are ordered that way |
| Pointers.CompareAddressesConverse | tests/test_non_null.cpp:151-167 | swapping the operands of `<=>` gives the converse result (`py > px` follows from `px < py`) |
| Pointers.CompareAddressesTransitive | include/nova/non_null.hpp:373-377 | the address order is transitive |
| Pointers.FreshAddress | include/nova/non_null.hpp:454-472 | the allocation behind make_unique / make_shared is a non-null address that no live allocation holds |
| NonNullSpec.Valid | include/nova/non_null.hpp:401 | the invariant of `T NOVA_NONNULL ptr_`: a wrapper that is not consumed holds a non-null handle; every live wrapper satisfies it, and a consumed one is unconstrained |
| NonNullSpec.Wrap | include/nova/non_null.hpp:113-121 | a validated non-null handle gives a live wrapper holding exactly that handle |
| NonNullSpec.TryMake | include/nova/non_null.hpp:437-444 | the result is absent if and only if the handle is null; otherwise it is a live wrapper holding that handle |
| NonNullSpec.TakeOut | include/nova/non_null.hpp:183-189 | take returns exactly the held handle, which is non-null; the wrapper is left consumed and of the same category; a unique or shared wrapper is left null |
| NonNullSpec.MoveOut | include/nova/non_null.hpp:148-163 | a move gives the target the source's handle; a raw source is unchanged, and a shared source is emptied and consumed |
| NonNullSpec.TakeThenWrap | include/nova/non_null.hpp:179-181 | re-wrapping what take returned succeeds and gives a wrapper equal to the original |
| NonNullPointer.NonNull.constructor | include/nova/non_null.hpp:113-121 | construction requires a non-null handle; the wrapper is live and holds exactly that handle |
| NonNullPointer.NonNull.Copy | include/nova/non_null.hpp:127-142 | copying, or converting from a compatible wrapper, needs a copyable category; the copy holds the same handle, with the same address and the same shared group |
| NonNullPointer.NonNull.Move | include/nova/non_null.hpp:148-152 | move construction needs a copyable category; it matches MoveOut for both the target and the source |
| NonNullPointer.NonNull.CopyAssign | include/nova/non_null.hpp:142 | copy assignment makes this wrapper live and holding the source's handle |
| NonNullPointer.NonNull.MoveAssign | include/nova/non_null.hpp:158-163 | move assignment matches MoveOut on both wrappers; a self-move changes nothing |
| NonNullPointer.NonNull.Swap | include/nova/non_null.hpp:195-199 | the two handles are exchanged and both wrappers stay live |
| NonNullPointer.NonNull.Take | include/nova/non_null.hpp:183-189 | take returns the held handle and leaves the wrapper in the TakeOut state, consumed and still valid |
| NonNullPointer.NonNull.Get | include/nova/non_null.hpp:206-213 | get() returns the pointee address of the held handle, which is never null |
| NonNullPointer.NonNull.Underlying | include/nova/non_null.hpp:219-226 | underlying() returns exactly the held handle, non-null and of the wrapper's category |
| NonNullPointer.NonNull.ToBool | include/nova/non_null.hpp:266-269 | the conversion to bool is always true |
| NonNullPointer.Swap | include/nova/non_null.hpp:419-423 | the free swap exchanges the two handles and both wrappers stay live |
| NonNullPointer.TryMakeNonNull | include/nova/non_null.hpp:437-444 | the result is absent if and only if the handle is null; otherwise it is a fresh live wrapper whose underlying() is the handle, as TryMake says |
| NonNullPointer.MakeNonNullUnique | include/nova/non_null.hpp:454-458 | gives a fresh live unique wrapper whose address no live allocation holds |
| NonNullPointer.MakeNonNullShared | include/nova/non_null.hpp:468-472 | gives a fresh live shared wrapper whose address no live allocation holds and whose control block is new: non-zero and not among the control blocks in use |
| NonNullPointer.TakeAndRewrap | include/nova/non_null.hpp:179-189 | `non_null(take(std::move(nn)))` consumes `nn`, which is left in the TakeOut state (null for a unique or shared wrapper); the new wrapper holds the same handle and has the same category |
| NonNullPointer.Equal | include/nova/non_null.hpp:364-368 | two wrappers, of any categories, are equal if and only if their get() addresses are equal |
| NonNullPointer.Compare | include/nova/non_null.hpp:373-377 | `<=>` on two wrappers is equal exactly when Equal holds, and less exactly when the first address is smaller |
| NonNullPointer.EqualToPointer | include/nova/non_null.hpp:382-389 | a wrapper equals a bare pointer if and only if the pointer is its get() address; it never equals a null pointer |
| NonNullPointer.CompareToPointer | include/nova/non_null.hpp:394-398 | `<=>` against a bare pointer orders by address; a wrapper is always greater than a null pointer |
| NonNullPointer.EqualToNullptr | include/nova/non_null.hpp:385-386 | comparing a wrapper with nullptr is always "not equal" |
| NonNullPointer.CompareTrichotomy | include/nova/non_null.hpp:364-377 | exactly one of `a < b`, `a == b`, `b < a` holds; `b <=> a` is the converse of `a <=> b`; equality is symmetric |
| NonNullPointer.CompareTransitive | include/nova/non_null.hpp:373-377 | the wrapper order is transitive |
| NonNullPointer.NeverEqualToNull | include/nova/non_null.hpp:382-398 | comparing with a null bare pointer agrees with comparing with nullptr (never equal), and every wrapper orders after null |
| NonNullPointer.CopyComparesEqual | tests/test_non_null.cpp:190-201 | wrappers holding the same handle, such as a copy or a converted wrapper, compare equal, and each equals the other's get() |
| Callables.NonNullFunction.constructor | include/nova/non_null.hpp:506-512 | construction requires a non-empty callable and stores exactly it |
| Callables.NonNullFunction.Copy | include/nova/non_null.hpp:515 | the copy holds the same callable |
| Callables.NonNullFunction.Move | include/nova/non_null.hpp:519-527 | move construction is a copy: the target holds the source's callable, and the source is unchanged and still live |
| Callables.NonNullFunction.CopyAssign | include/nova/non_null.hpp:516 | copy assignment makes this wrapper live and holding the source's callable |
| Callables.NonNullFunction.MoveAssign | include/nova/non_null.hpp:528-533 | move assignment is a copy: the target holds the callable and the source keeps it and stays live |
| Callables.NonNullFunction.Invoke | include/nova/non_null.hpp:545-550 | the call applies the stored callable; the only precondition is that the wrapper is live, so there is no emptiness check |
| Callables.NonNullFunction.Underlying | include/nova/non_null.hpp:557-560 | underlying() is the stored callable, never empty |
| Callables.NonNullFunction.ToBool | include/nova/non_null.hpp:566-569 | the conversion to bool is always true |
| Callables.NonNullFunction.Swap | include/nova/non_null.hpp:574-577 | the callables are exchanged and both wrappers stay non-empty |
| Callables.NonNullFunction.Take | include/nova/non_null.hpp:586-589 | take returns the stored non-empty callable and leaves the wrapper consumed |
| Callables.SwapFunctions | include/nova/non_null.hpp:605-609 | the free swap exchanges the callables; both stay non-empty |
| Callables.NonNullMoveOnlyFunction.constructor | include/nova/non_null.hpp:642-649 | construction requires a non-empty callable and stores exactly it |
| Callables.NonNullMoveOnlyFunction.Invoke | include/nova/non_null.hpp:671-676 | the call applies the stored callable, with no emptiness check |
| Callables.NonNullMoveOnlyFunction.Underlying | include/nova/non_null.hpp:681-684 | underlying() is the stored callable, never empty |
| Callables.NonNullMoveOnlyFunction.ToBool | include/nova/non_null.hpp:690-693 | the conversion to bool is always true |
| Callables.NonNullMoveOnlyFunction.Swap | include/nova/non_null.hpp:698-701 | the callables are exchanged and both wrappers stay non-empty |
| Callables.NonNullMoveOnlyFunction.Take | include/nova/non_null.hpp:711-714 | take returns the stored non-empty callable and leaves the wrapper consumed |
| Callables.SwapMoveOnlyFunctions | include/nova/non_null.hpp:723-727 | the free swap exchanges the callables; both stay non-empty |
| Callables.TakeAndRewrapMoveOnly | tests/test_non_null_function.cpp:211-218 | take and re-wrap moves the callable to a new live wrapper that returns the same result for every argument; the old wrapper is consumed |
| Protocol.Step | include/nova/non_null.hpp:113-199 | one operation on a collection of wrappers (construction, factories, copy and move gated by category, assignment, swap, take, rewrap, use): only wrapping a null raw pointer fails the construction check, only reading a consumed wrapper (taken, or emptied by a move) is undefined, and a completed step adds at most one wrapper |
| Protocol.Run | include/nova/non_null.hpp:113-121 | a program runs its operations in order until one does not complete; it fails the construction check only if it wraps a null pointer somewhere |
| Protocol.MakeSharedIsFresh | include/nova/non_null.hpp:454-472 | make_non_null_shared appends a live shared wrapper whose address and control block no existing wrapper holds |
| Protocol.StepKeepsValid | include/nova/non_null.hpp:113-199 | no completed operation leaves a wrapper that is null without being consumed |
| Protocol.StepKeepsExclusive | include/nova/non_null.hpp:136-189 | no completed operation lets two live wrappers own the same unique_ptr target |
| Protocol.StepKeepsSlots | include/nova/non_null.hpp:96-199 | no operation removes a wrapper or changes the category of one |
| Protocol.RunKeepsSlots | include/nova/non_null.hpp:96-199 | by induction over the program: a program that completes keeps every wrapper it started with, each in its category |
| Protocol.CopyAfterSharedMoveAsWritten | include/nova/non_null.hpp:141-199 | as written, after a move empties a shared wrapper, copying it gives a null wrapper that is not consumed, swapping it leaves the other wrapper null, and taking it returns a null handle; Step calls all three undefined |
| Protocol.RunKeepsValid | include/nova/non_null.hpp:113-199 | every program that completes keeps every wrapper non-null or consumed |
| Protocol.RunKeepsExclusive | include/nova/non_null.hpp:136-189 | every program that completes keeps unique ownership exclusive, because unique targets pass only by take or swap |
| Protocol.ConsumedIsNeverRead | include/nova/non_null.hpp:173-189 | any operation that reads a consumed wrapper has undefined behaviour or does not compile |
| Protocol.TakeConsumes | include/nova/non_null.hpp:173-189 | take on a live wrapper completes and consumes it; a later use of it is undefined |
| Protocol.OnlyAssignmentRevives | include/nova/non_null.hpp:141-163 | a consumed wrapper becomes live again only as the target of an assignment from another wrapper |
| Protocol.MoveFollowsCategory | include/nova/non_null.hpp:136-167 | moving a unique wrapper does not compile; a raw move leaves the source unchanged; a shared move consumes the source; the target holds the source's handle |
| Protocol.SwapTwice | include/nova/non_null.hpp:195-199 | swapping the same two wrappers twice restores them |
| Protocol.RewrapKeepsHandle | include/nova/non_null.hpp:179-181 | take-and-rewrap consumes the wrapper and appends a live wrapper equal to it |

## Left out

- Protocol.Step: copying, copy-assigning, moving, move-assigning, swapping or taking a shared wrapper that a move emptied is `Undefined`, a use-after-move rule the model adds; `NonNull.Copy`, `NonNull.CopyAssign`, `NonNull.Move`, `NonNull.MoveAssign`, `NonNull.Swap` and `NonNull.Take` likewise require a live operand. The source runs these operations with no check (`include/nova/non_null.hpp:141-142`, `:151`, `:161`, `:183-189`, `:195-199`). A copy or move produces a wrapper that holds null while its `operator bool` and `== nullptr` still report non-null; a swap leaves the other wrapper holding null; a take returns a null `shared_ptr`. `RunKeepsValid` holds under this rule; see "## Findings".
- Protocol.Step: it has no operation that wraps an existing `unique_ptr` or `shared_ptr`, although the validating constructor accepts them (`include/nova/non_null.hpp:113-121`). `NonNull.constructor` covers that case, including the null check. In `Protocol`, unique targets come only from `MakeUnique`'s fresh address, so `RunKeepsExclusive` assumes that each `unique_ptr` a caller wraps is owned by it alone, and "only wrapping a null pointer fails the construction check" speaks of raw pointers.
- The optimiser hints (`NOVA_ASSUME`, `NOVA_RETURNS_NONNULL`, `NOVA_NONNULL`, `assume_nonnull`, `assume_not_empty`) appear only as preconditions. A construction from null is a precondition violation for the classes and an `InvariantViolation` outcome in `Protocol`. Checked and unchecked builds are not told apart.
- Template machinery is replaced by a `requires` on the category: `element_type_trait`, the `copyable_pointer` concept, the deduction guides and the `requires` gating.
- The converting constructor shares `NonNull.Copy`. Converting a derived pointer to a base pointer is assumed to keep the address, as the tests check. Pointer adjustment under multiple inheritance is not modelled.
- The explicit conversion to `const T&` returns the same value as `underlying()`, so `NonNull.Underlying` stands for both. The deleted rvalue `underlying() &&`, `operator=(nullptr)` and the `nullptr` constructor appear only as absent members.
- Dereference and `operator->` have no memory model. `operator->` returns `get()`, which `NonNull.Get` models; `operator*` would read the pointee, and the model has no pointees.
- `get_deleter`, `use_count`, `owner_before`, `owner_hash` and `owner_equal` are left out. They forward to the standard library's internals. Only the allocation group of a shared handle is kept, so reference counts are not modelled.
- Heap allocation inside `make_unique` / `make_shared` becomes "a fresh non-null address not among the given live addresses" (`Pointers.FreshAddress`). In `Protocol` the address avoids every slot, consumed raw wrappers included, so the model assumes every wrapper's target stays allocated while the wrapper holds it: memory freed by dropping a unique target and then reused by the allocator is not modelled, and `Protocol.MakeSharedIsFresh` rests on no wrapper dangling. Allocation failure (an exception) is not modelled.
- A callable is an opaque value. Invoking it applies a Dafny function, so the callable's own state and side effects are not modelled. This matters for the non-const call of `std::move_only_function` and for the test callables that increment captured counters.
- Callables.NonNullFunction.Take: what a moved-from `std::function` holds is unspecified by the standard, so the contract says only that the wrapper is consumed, not what `fn` holds afterwards.
- Callables.NonNullMoveOnlyFunction.Take: the same holds for a moved-from `std::move_only_function`.
- The reversed and rewritten comparisons that C++20 synthesises (`!=`, `<`, `>`, `<=`, `>=`, `nullptr == w`, `p > w`) are not separate members. They follow from `Equal`, `Compare` and the converse lemma.
- The order that `<=>` gives pointers is fixed here as the order of `nat` addresses, with null least, as on flat-memory implementations. ISO C++ leaves `<=>` unspecified for pointers into different objects, including a non-null pointer against null. `NonNullPointer.CompareToPointer`, `NonNullPointer.NeverEqualToNull` and `NonNullPointer.CompareTransitive` rely on this order.
- Thread safety, exceptions and the Catch2 test harness are not modelled. The wrappers perform no concurrency or I/O.
- `Protocol` models only non_null objects, not the callable wrappers. Their operations are single assignments, and the class contracts state them completely.

## Findings

| source | as written | input that shows it | evidently intended | confidence | as-written member | corrected member |
|---|---|---|---|---|---|---|
| include/nova/non_null.hpp:141-199 | the defaulted copy, the move operations, `take` (:183-189) and `swap` (:195-199) read their operand without checking that it still holds a pointer; a move leaves a `shared_ptr` operand null (tests/test_non_null.cpp:470-471) | `auto a = make_non_null_shared<int>(1); auto b = std::move(a); auto c = a;` gives `c` holding null, while `bool(c)` is true and `c == nullptr` is false; `swap(a, d)` for a live shared `d` instead leaves `d` holding null, and `take(std::move(a))` returns a null `shared_ptr` | a `non_null` is never observably null, so a wrapper emptied by a move is not read again; under that rule Protocol.RunKeepsValid proves every wrapper stays non-null or consumed | medium, not executed | Protocol.CopyAfterSharedMoveAsWritten | Protocol.Step |
