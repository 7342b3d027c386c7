# Copy-on-write SGVector, modelled in Dafny

This project models the copy-on-write (COW), reference-counted vector of
`cow-SGVector`. It has two layers.

- `SGReferencedData` is the shared-ownership base. It holds a nullable
  pointer to a shared `RefCount` and runs the counting protocol: `ref`,
  `unref(update_data)`, `copy_refcount`, `ref_count` and the COW trigger
  `detach`. It calls back into four payload hooks.
- `SGVector<T>` is the container. It holds a raw buffer, a length and a COW
  flag. It implements the hooks, and every non-const access goes through the
  non-const `get_vector()`, which detaches first when COW is on. On top of
  this sit `set_const`, `add`, `clone`, `operator+`, copy construction,
  assignment and destruction.

Files:

- `refcount.dfy` (module `RefCounting`): the shared counter, a class with an
  integer `count` and the `ref`/`unref` steps the base uses.
- `sgvector.dfy` (module `CowVector`): one class `SGVector<T>` holding the
  base's `refcount` field and the vector's `vector`, `vlen` and `isCow`
  fields. Operations that change state are methods of the class; the const
  readers `ConstVector`, `GetElement` and `ReferenceCount` are functions.
  The loops of `set_const` and `add` are the module-level methods
  `FillPrefix` and `AddPrefix`. The module also holds the ownership
  invariant of the world and the lemmas about it.
- `scenarios.dfy` (module `Scenarios`): the demonstration driver
  `cow-SGVector/main.cpp` replayed against the model, with the values it
  prints as results.

The world of live C++ objects is a ghost parameter `live` of the operations
that create, destroy or re-point handles. `Consistent(live)` is the
ownership invariant:

- each live handle has a counter, and that counter's `count` equals the
  number of live handles pointing at it;
- handles that share a counter see the same buffer, length and COW flag;
- one non-null buffer belongs to one counter.

Every operation that changes ownership takes a consistent world to a
consistent world. A buffer that an operation frees is reported as a ghost
`released` value. `Destroy` and `Assign`, and `Unref` with `update_data`
true, state that a buffer they free is reached by no other live handle (no
use after free, no double free), and that a buffer they do not free is
still held by another live handle (no leak). `Unref` with `update_data`
false frees nothing and leaves the handle its buffer pointer; `detach`, its
only caller, calls it only when the count is above 1, so another live
handle still holds that buffer.

## Model

| member | source | states |
|---|---|---|
| RefCounting.RefCount.constructor | cow-SGVector/SGReferencedData.h:16 | a new counter starts at the given value (0 in the base) |
| RefCounting.RefCount.Ref | cow-SGVector/SGReferencedData.h:86 | the count rises by exactly 1 and the new value is returned |
| RefCounting.RefCount.Unref | cow-SGVector/SGReferencedData.h:104 | the count drops by exactly 1 and the new value is returned |
| CowVector.SGVector.InitReferencedData | cow-SGVector/SGReferencedData.h:12-20 | with counting on, a fresh counter at 1; with counting off, a null handle; the payload fields are untouched |
| CowVector.SGVector.Ref | cow-SGVector/SGReferencedData.h:82-89 | a null handle returns -1 and changes nothing; otherwise the shared count rises by 1 and the new count is returned |
| CowVector.SGVector.CopyRefcount | cow-SGVector/SGReferencedData.h:73-76 | the handle adopts the other's counter without counting it; the payload fields are untouched |
| CowVector.SGVector.ReferenceCount | cow-SGVector/SGReferencedData.h:43-50 | -1 on a null handle, otherwise the current count; being a function it changes nothing |
| CowVector.SGVector.Unref | cow-SGVector/SGReferencedData.h:96-120 | null handle: `init_data` only when `update_data`, returns -1, frees nothing. Last holder: the count drops, the buffer is freed only when `update_data`, the handle is cleared, returns 0, and no other live handle shared the counter or the buffer. Otherwise: the count drops by 1, nothing is freed, `init_data` only when `update_data`, returns the positive remaining count, and another live handle shares counter and buffer. A live handle of a consistent world leaves it consistent without it |
| CowVector.SGVector.Detach | cow-SGVector/SGReferencedData.h:53-69 | the counter must be non-null. Count at most 1: counter and buffer unchanged. Count above 1: the old counter loses one holder, and the handle gets a fresh counter at 1 and a fresh copy of the elements it kept. Either way the elements are the same, the count is 1, no other live handle sees the buffer, and the world stays consistent |
| CowVector.SGVector.StartPrivateCopy | cow-SGVector/SGReferencedData.h:60-63 | a handle that dropped its stake and kept its buffer pointer takes a fresh counter at 1 and a fresh copy of the same elements, and rejoins the world consistently |
| CowVector.SGVector.constructor | cow-SGVector/SGVector.h:17-19 | stores buffer, length and COW flag; the buffer is held by no live handle; fresh counter at 1; the world plus the new handle is consistent |
| CowVector.SGVector.Copy | cow-SGVector/SGVector.h:21-24 | the copy aliases the original's buffer, length, COW flag and counter, whose count rises by exactly 1; the world plus the copy is consistent |
| CowVector.SGVector.Share | cow-SGVector/SGVector.h:46-48 | `copy_data`, `copy_refcount` and `ref` together: a handle outside the world aliases the other's fields and counter, the count rises by 1, and it joins the world consistently |
| CowVector.SGVector.Destroy | cow-SGVector/SGVector.h:26-29 | the count drops by 1 and the handle is cleared. The last holder releases its buffer, which no other live handle reaches through counter or pointer. Otherwise nothing is released and another live handle still holds counter and buffer. The rest of the world stays consistent |
| CowVector.SGVector.Assign | cow-SGVector/SGVector.h:41-50 | self-assignment changes nothing. Otherwise the old stake is released (the last holder frees the old buffer, which no live handle still reaches), the handle adopts the other's buffer, length, flag and counter, and that count rises by 1. When the old stake was not the last, nothing is released and another live handle still holds the old counter and buffer. Counts are unchanged when both already shared one counter. The world stays consistent |
| CowVector.SGVector.ConstVector | cow-SGVector/SGVector.h:137 | the const accessor returns the buffer pointer and, being a function, changes neither counter nor pointer |
| CowVector.SGVector.GetElement | cow-SGVector/SGVector.h:73-76 | `get_element` (and the const `operator[]` at lines 52-55) returns the element at that index of what the handle sees, with no detach |
| CowVector.SGVector.GetVector | cow-SGVector/SGVector.h:139-144 | COW on: the handle ends as the only holder of counter and buffer, with the same elements; a shared handle gets a fresh counter and buffer and the old count drops by 1. COW off, or already exclusive: counter, buffer and count are unchanged. The world stays consistent |
| CowVector.SGVector.ElementRef | cow-SGVector/SGVector.h:57-60 | the non-const `operator[]` detaches as `get_vector` does and gives the element slot, which holds the element seen before |
| CowVector.SGVector.SetConst | cow-SGVector/SGVector.h:96-101 | every element the handle sees becomes the constant. Every live handle on another buffer keeps its elements, so with COW on the former sharers keep theirs. The ownership changes are those of `get_vector` |
| CowVector.FillPrefix | cow-SGVector/SGVector.h:99-100 | the loop of `set_const`: the first `n` elements become the constant, the elements from `n` on keep their values, and the world stays consistent |
| CowVector.SGVector.Add | cow-SGVector/SGVector.h:65-71 | for every index below the length, the new element is the old one plus the other vector's old element, even when the other is this vector or shares its buffer. The other vector's counter, buffer and length are unchanged, and every live handle on another buffer keeps its elements. The ownership changes are those of `get_vector` |
| CowVector.AddPrefix | cow-SGVector/SGVector.h:69-70 | the loop of `add`: `p[k]` becomes old `p[k]` plus old `q[k]` for the first `n` indices, also when `p` and `q` are one buffer; the elements from `n` on keep their values |
| CowVector.SGVector.Clone | cow-SGVector/SGVector.h:81-84 | a new vector with the same elements and length in a fresh buffer (null for a null source), COW off, with a fresh counter at 1; the world plus the clone is consistent |
| CowVector.SGVector.CloneVector | cow-SGVector/SGVector.h:86-94 | null for a null buffer; otherwise a fresh buffer holding the first `vlen` elements (the handle's length, not `len`) |
| CowVector.SGVector.Plus | cow-SGVector/SGVector.h:34-39 | the result is a fresh, unshared vector whose elements are the element-wise sums of both operands; neither operand nor any count changes |
| CowVector.SGVector.CopyData | cow-SGVector/SGVector.h:106-111 | aliases the other's buffer, length and COW flag; the counter is untouched |
| CowVector.SGVector.CloneData | cow-SGVector/SGVector.h:113-116 | points at a fresh copy of the same elements (null stays null); counter, length and flag are untouched |
| CowVector.SGVector.InitData | cow-SGVector/SGVector.h:118-122 | pointer null and length 0, nothing released |
| CowVector.SGVector.FreeData | cow-SGVector/SGVector.h:124-132 | the buffer it held is released; then pointer null and length 0 |
| CowVector.Join | cow-SGVector/SGReferencedData.h:19 | a handle whose counter already counts it, and which agrees with every live handle, joins the world consistently |
| CowVector.Leave | cow-SGVector/SGReferencedData.h:104-119 | a handle that dropped its counter, while every other counter still counts its holders, leaves the world consistently |
| CowVector.SoleHolder | cow-SGVector/SGReferencedData.h:56 | in a consistent world a live handle's count is at least 1. It is 1 exactly when no other live handle shares the counter, and then no other live handle sees the buffer |
| CowVector.OtherHolder | cow-SGVector/SGReferencedData.h:113-119 | a count above 1 means another live handle shares both counter and buffer, so the buffer is not leaked |
| CowVector.SharersReadAlike | cow-SGVector/SGVector.h:21-24 | handles that share a counter read the same elements |
| CowVector.TwoOwnersInconsistent | cow-SGVector/SGVector.h:17-19 | two counters over one buffer break the ownership invariant: each would free the buffer as its last holder |
| Scenarios.Filled | cow-SGVector/main.cpp:14-17 | a fresh COW vector over a fresh buffer of 100, filled in place, count 1 |
| Scenarios.SharedPair | cow-SGVector/main.cpp:14-19 | the filled vector and its copy share one buffer and one counter at 2 |
| Scenarios.WriteOneSharer | cow-SGVector/main.cpp:24 | a write through one of two sharers moves it to its own buffer and counter; the other keeps `data` and its elements, with count 1 |
| Scenarios.WriteBothOwners | cow-SGVector/main.cpp:29-30 | two sole holders write in place and each sees only its own write |
| Scenarios.SingleRefWrite | cow-SGVector/main.cpp:4-10 | an unshared COW vector is filled in place: same buffer, count 1, and element 0 reads 25 |
| Scenarios.MultiRefWrite | cow-SGVector/main.cpp:12-34 | the prints: 24/24/24 with count 2; after `y.set_const(5)`, 24/5/24 with counts 1 and 1; after the two writes, 3/4/3 |
| Scenarios.SideEffect | cow-SGVector/main.cpp:68-76 | reading `y[0]` through the non-const `operator[]` still detaches `y`: it reads 0, has its own buffer, and both counts are 1 |
| Scenarios.ConstEffectAsWritten | cow-SGVector/main.cpp:36-50 | as written, a write of 3 through `y`'s buffer is read back through the const `x` |
| Scenarios.ConstEffect | cow-SGVector/main.cpp:36-50 | with `y` over `data2`, the write through `y` leaves `x` as it was |
| Scenarios.ConstEffect2AsWritten | cow-SGVector/main.cpp:52-66 | as written, two counters at 1 own one buffer, which breaks the ownership invariant; `y.add(x)` does not detach, so element 2 doubles in place and `x` reads the doubled value too; both `unref` calls at scope exit take the last-holder branch, return 0 and each release `data` |
| Scenarios.Separate | cow-SGVector/main.cpp:54-60 | with `y` over `data2`, two consistent sole holders of two buffers |
| Scenarios.ConstEffect2 | cow-SGVector/main.cpp:52-66 | with `y` over `data2`: `add` keeps `y`'s buffer and count 1, sums element-wise, leaves `x` alone |
| Scenarios.ReleaseBoth | cow-SGVector/SGVector.h:26-29 | at scope exit each of two sole holders frees its own buffer, once |
| Scenarios.CloneIsIndependent | cow-SGVector/SGVector.h:81-84 | a clone still reads 1 at element 0 after its source (COW off) is refilled with 7 in place, and the source reads 7 |

## Left out

- Atomicity of `RefCount`: the world is single-threaded and the count is a
  plain integer. `RefCount.h` is not part of this model; its `ref` and
  `unref` are taken as "add 1, return the new value" and "subtract 1, return
  the new value".
- All `printf` tracing, including the print in `ref_count`.
- Freeing: Dafny cannot free memory. A freed buffer is the ghost `released`
  result of `FreeData`, `Unref`, `Destroy` and `Assign`, and deleting a
  counter is clearing the handle. The `delete` on a buffer made with
  `new[]` (`SGVector.h:128` against `:91`) is modelled as "the buffer is
  released".
- `memcpy` in `clone_vector` is modelled as copying the element sequence.
- `index_t`, `int32_t` and `uint32_t` widths: lengths and indices are
  unbounded naturals, so negative lengths and wrap-around are not modelled.
- The element type's `+=` is a parameter `plus` of `Add` and `Plus`.
- `SGReferencedData::operator=` (`SGReferencedData.h:30`) is declared but
  never defined; only the vector's `operator=` is modelled.
- `get_vlen` is read as the `vlen` field.
- Plus: the by-value parameter `x` of `operator+` is a copy made and
  destroyed by the caller; the model takes `x` as a live handle and leaves
  that copy's count changes to the caller.
- The return of `*this` from `operator=`, and the return-by-value copies of
  `clone` and `operator+` (taken as elided).
- GetElement, ElementRef, the constructor, SetConst, Add and Plus: their
  requires exclude out-of-range indices, a length past the end of the
  buffer, and a null buffer with a positive length. The source accepts all
  three without a check, and they are undefined behaviour there.
- Add: requires `x`'s length to be at least this vector's. The source does
  not check it and reads past the shorter buffer.
- Detach: requires a non-null counter, because the source dereferences it
  unchecked. A handle built with counting off never arises from the
  `SGVector` constructors, which always count.
- The COW flag of the buffer constructor defaults to off in the code. The
  model follows the code, so `Clone` yields a vector with COW off.
- Destroy: modelled for live handles, whose counter is non-null. The
  null-handle branch of `unref` is modelled in `Unref`.
- Detach, StartPrivateCopy, CloneVector: allocation is taken to succeed,
  as `new` does in Dafny. In the source, `new RefCount(0)`
  (`SGReferencedData.h:16`, `:60`) and `new T[m_vlen]` (`SGVector.h:91`)
  can throw. If `clone_data` throws inside `detach`
  (`SGReferencedData.h:59-63`), the handle has already left the shared
  counter and taken a fresh one at 1, but still points at the shared
  buffer: two counters over one buffer, the state `TwoOwnersInconsistent`
  rules out. Destroying that handle later would free a buffer its former
  sharers still use. The model does not capture this failure path.
- The `SGObject` mixin headers and their example are compile-time machinery
  with no runtime behaviour; they are not part of this model.

## Findings

| source | as written | input that shows it | evidently intended | confidence | as-written member | corrected member |
|---|---|---|---|---|---|---|
| cow-SGVector/main.cpp:46 | `y` is built over `data`, the buffer the const `x` already owns through its own counter | write 3 into `y`'s buffer: `y` is unshared and so not detached, and `x[0]` then reads 3 | `y` over `data2`, which is allocated on the line before and otherwise unused | medium, not executed | Scenarios.ConstEffectAsWritten | Scenarios.ConstEffect |
| cow-SGVector/main.cpp:60 | `y` is built over `data`, so two counters, each at 1, own one buffer | at scope exit both destructors take the last-holder branch of `unref` and release `data` twice; `TwoOwnersInconsistent` shows that such a world breaks the ownership invariant | `y` over `data2`, which is allocated on the line before and otherwise unused | medium, not executed | Scenarios.ConstEffect2AsWritten | Scenarios.ConstEffect2 |
