# managed_ptr — a Dafny model

`managed_ptr<T>` is a move-only smart pointer: a `std::unique_ptr<T, managed_ptr_deleter>`
whose deleter carries a run-time "delete on destroy" flag (`deletes_pointer`). When the flag
is cleared, destroying or resetting the handle forgets the object instead of deleting it.
`untyped_managed_ptr_impl` is the type-erased base through which a handle can be used
without its `T`. Its `as<T>()` recovers either the pointer or a copy of the object.
`make_managed` offers two factories: one builds a fresh object, the other wraps a pointer
the caller already has.

The model is functional. A handle is the pair `Handle(ptr, deletes)`, with `ptr` a nullable
address. `new` and `delete` act on an abstract heap (module `Heap`), which holds:

- a map from live addresses to objects;
- a log of every address freed, in order;
- the next fresh address.

Every handle operation is a pure function. It returns the new handle(s) and the one address
it frees, if any. The unique_ptr rules used are those of the C++17 standard (N4659):

- the destructor and `reset` call the deleter only on a non-null pointer;
- `reset(p)` stores `p` before disposing of the old pointer;
- move assignment is `reset(u.release())`, and then the deleter is copied.

Module `Ownership` puts many handle variables over one heap. It states the guarantee the
library is for: a program that uses the handles within their contract never frees an address
twice. This holds whatever flags it sets, and whatever it releases and later deletes by hand,
provided no two variables ever hold the same non-null address at once, whatever their flags.
Module `Scenarios` replays the lifecycle sequences of the repository's example program, and
checks exactly which objects it frees and in what order.

Modules: `Wrappers` (Option), `Heap`, `ManagedPtr`, `Untyped`, `MakeManaged`, `Ownership`,
`Scenarios`.

## Model

| member | source | states |
|---|---|---|
| Heap.FreeKeepsValid | include/managed_pointer/managed_ptr.h:20-22 | a `delete` of a live address keeps the heap well formed, and the address appears in the free log exactly once |
| ManagedPtr.Deleter | include/managed_pointer/managed_ptr.h:20-22 | the deleter frees its pointer iff its flag is set, and frees nothing else |
| ManagedPtr.FromRaw | include/managed_pointer/managed_ptr.h:30-32 | the `(T*, bool)` constructor adopts exactly the given pointer with exactly the given flag |
| ManagedPtr.FromRawDefault | include/managed_pointer/managed_ptr.h:30 | with the flag omitted, deletion is enabled |
| ManagedPtr.FromValue | include/managed_pointer/managed_ptr.h:29 | the value constructor owns a non-null address now holding the value, with deletion enabled; nothing is freed |
| ManagedPtr.Default | include/managed_pointer/managed_ptr.h:28 | the default constructor owns a non-null address holding `T()`, with deletion enabled; nothing is freed |
| ManagedPtr.ConstructorsOwnFresh | include/managed_pointer/managed_ptr.h:28-29 | in a well-formed heap, both allocating constructors own an address that was neither live nor ever freed, and the heap stays well formed |
| ManagedPtr.Get | include/managed_pointer/managed_ptr.h:56 | `get()` is the stored address |
| ManagedPtr.VoidPtr | include/managed_pointer/managed_ptr.h:37 | `void_ptr()` is the same address as `get()` |
| ManagedPtr.IsSet | include/managed_pointer/managed_ptr.h:60 | `operator bool` is true iff the stored pointer is non-null |
| ManagedPtr.DeletesPointer | include/managed_pointer/managed_ptr.h:42 | `deletes_pointer()` reports the deleter's flag |
| ManagedPtr.Deref | include/managed_pointer/managed_ptr.h:58 | `operator*` is the object at the stored address, defined only for a non-null live address |
| ManagedPtr.SetDeletesPointer | include/managed_pointer/managed_ptr.h:43-45 | sets the flag to the argument and leaves the pointer alone |
| ManagedPtr.SetDeletesPointerDefault | include/managed_pointer/managed_ptr.h:43 | with the argument omitted, deletion is enabled |
| ManagedPtr.DisableDelete | include/managed_pointer/managed_ptr.h:40 | clears the flag and leaves the pointer alone |
| ManagedPtr.EnableDelete | include/managed_pointer/managed_ptr.h:41 | sets the flag and leaves the pointer alone |
| ManagedPtr.Destroy | include/managed_pointer/managed_ptr.h:34 | the destructor frees the held address iff it is non-null and the flag is set |
| ManagedPtr.Reset | include/managed_pointer/managed_ptr.h:62 | `reset(p)` makes the handle hold `p` with its flag kept; the old address is freed iff it was non-null and the flag was set |
| ManagedPtr.DisabledSelfResetIsNoOp | include/managed_pointer/managed_ptr.h:62 | with deletion disabled, `reset(get())` leaves the handle as it was and frees nothing |
| ManagedPtr.Release | include/managed_pointer/managed_ptr.h:63 | `release()` empties the handle, frees nothing whatever the flag, and keeps the flag |
| ManagedPtr.MoveConstruct | include/managed_pointer/managed_ptr.h:50 | the new handle takes the source's pointer and deleter; the source is left null with its flag; nothing is freed |
| ManagedPtr.MoveAssign | include/managed_pointer/managed_ptr.h:51-54 | the destination takes the source's pointer and flag; the source is left null; the destination's old address is freed iff it was non-null and its OLD flag was set |
| ManagedPtr.MoveAssignIsResetRelease | include/managed_pointer/managed_ptr.h:52 | move assignment agrees with the standard's `reset(u.release())` followed by copying the deleter, wherever that `reset` is defined |
| ManagedPtr.MoveAssignOldFlagDecides | include/managed_pointer/managed_ptr.h:52 | the source's flag has no say in whether the destination's old object is freed |
| ManagedPtr.ResetFreesAsDestroy | include/managed_pointer/managed_ptr.h:62 | `reset` frees exactly what the destructor would have freed |
| ManagedPtr.ReleaseVersusReset | include/managed_pointer/managed_ptr.h:62-63 | `release()` and `reset()` leave the same empty handle; they are equal iff destruction would have freed nothing |
| ManagedPtr.DisabledResetIsRelease | include/managed_pointer/managed_ptr.h:40 | after `disable_delete()`, `reset()` is `release()` and frees nothing |
| ManagedPtr.ResetEmptyIsNoOp | include/managed_pointer/managed_ptr.h:62 | `reset()` on an empty handle changes nothing and frees nothing |
| ManagedPtr.ResetIdempotent | include/managed_pointer/managed_ptr.h:62 | a second `reset()` in a row frees nothing |
| ManagedPtr.FlagMutatorsIdempotent | include/managed_pointer/managed_ptr.h:40-45 | the flag mutators are idempotent, the last one wins, and `enable_delete()` is `set_deletes_pointer()` |
| ManagedPtr.MoveConstructConserves | include/managed_pointer/managed_ptr.h:50 | after a move construction the new handle would free what the source would have, and the source would free nothing |
| Untyped.AsPointer | include/managed_pointer/untyped_managed_ptr_impl.h:18-23 | `as<T*>()` is null for an empty handle and the stored address otherwise |
| Untyped.AsValue | include/managed_pointer/untyped_managed_ptr_impl.h:25-30 | `as<T>()` is a default `T` for an empty handle and the object at the stored address otherwise |
| Untyped.UntypedReset | include/managed_pointer/untyped_managed_ptr_impl.h:14 | the untyped `reset()` empties the handle, keeps the flag, and frees what the destructor would have |
| Untyped.UntypedRelease | include/managed_pointer/untyped_managed_ptr_impl.h:15 | the untyped `release()` empties the handle, keeps the flag, and frees nothing |
| Untyped.VoidPtrIsGet | include/managed_pointer/untyped_managed_ptr_impl.h:9 | the untyped view observes the typed handle's address, and `as<T*>()` returns it unchanged |
| Untyped.AsValueIsDerefOfAsPointer | include/managed_pointer/untyped_managed_ptr_impl.h:25-30 | for a non-empty handle, `as<T>()` is the dereference of `as<T*>()` and agrees with `operator*` |
| Untyped.AsIgnoresFlag | include/managed_pointer/untyped_managed_ptr_impl.h:18-30 | changing the flag does not change what either `as<T>()` returns |
| MakeManaged.MakeManaged | include/managed_pointer/make_managed.h:7-10 | the forwarding factory owns an address now holding the constructed object, with deletion enabled; nothing is freed |
| MakeManaged.MakeManagedFresh | include/managed_pointer/make_managed.h:7-10 | in a well-formed heap the forwarding factory owns a fresh address and keeps the heap well formed |
| MakeManaged.MakeManagedWrap | include/managed_pointer/make_managed.h:12-15 | the wrapping factory owns exactly the given pointer with exactly the given flag, and is set iff the pointer is non-null |
| MakeManaged.MakeManagedWrapDefault | include/managed_pointer/make_managed.h:12 | with the flag omitted, deletion is enabled |
| MakeManaged.MakeManagedIsFromValue | include/managed_pointer/make_managed.h:9 | the forwarding factory gives the same handle and heap as the value constructor |
| MakeManaged.MakeManagedWrapIsFromRaw | include/managed_pointer/make_managed.h:14 | the wrapping factory is the `(T*, bool)` constructor, with and without the flag |
| MakeManaged.MakeManagedNullIsEmpty | include/managed_pointer/make_managed.h:12-15 | wrapping `nullptr` gives an empty handle whose destruction frees nothing |
| Ownership.ExecGrows | include/managed_pointer/managed_ptr.h:62-63 | a handle operation only appends to the free log, at most one address at a time |
| Ownership.RunGrows | include/managed_pointer/managed_ptr.h:51-63 | over any run of commands, the free log before the run is a prefix of the log after it |
| Ownership.RunAppend | include/managed_pointer/managed_ptr.h:51-63 | running two command sequences one after the other is running their concatenation |
| Ownership.ExecKeepsInv | include/managed_pointer/managed_ptr.h:28-63 | from a world where every held address is live and owned once, no command double-frees, and a completed command keeps that invariant |
| Ownership.RunKeepsInv | include/managed_pointer/managed_ptr.h:28-63 | the same holds over any sequence of commands |
| Ownership.NoDoubleFree | include/managed_pointer/managed_ptr.h:20-22 | from the empty program no command sequence double-frees, and every freed address appears in the free log exactly once |
| Ownership.FreedExactlyOnce | include/managed_pointer/managed_ptr.h:34 | a handle holding `a` with deletion enabled frees `a` when it is destroyed, and nothing that follows frees it again |
| Ownership.DisabledDestroyLeaks | include/managed_pointer/managed_ptr.h:40 | with deletion disabled, destroying a handle leaves the heap unchanged and its object live and unowned |
| Ownership.ReleaseNeverFrees | include/managed_pointer/managed_ptr.h:63 | `release()` never touches the heap; the released object stays live and unowned, and the caller's own `delete` of it completes |
| Ownership.SelfMoveIsNoOp | include/managed_pointer/managed_ptr.h:52 | self-move-assignment changes nothing |
| Ownership.DisabledSelfResetInWorld | include/managed_pointer/managed_ptr.h:62 | with deletion disabled, `x.reset(x.get())` changes nothing in the program's state |
| Ownership.MoveAssignInWorld | include/managed_pointer/managed_ptr.h:51-54 | move assignment between two variables moves pointer and flag, empties the source, and frees the destination's old object iff it was non-null and its flag was set |
| Scenarios.Declare | Example.cpp:20-21 | `auto dog = make_managed<Dog>(...)` owns the next fresh address and frees nothing |
| Scenarios.AssignMade | Example.cpp:23-24 | assigning a newly made dog frees the old one iff `dog` was set with deletion enabled, and `dog` then owns the new address |
| Scenarios.ReleaseDog | Example.cpp:26-28 | `dog.release()` empties `dog` and leaves the heap unchanged |
| Scenarios.AssignWrapped | Example.cpp:42-45 | assigning a handle built from a raw `new` disposes of the old dog as assignment does, and `dog` owns the new address |
| Scenarios.DisableDog | Example.cpp:58 | `dog.disable_delete()` changes only the flag |
| Scenarios.ResetToNew | Example.cpp:34-36 | `dog.reset(new Dog(...))` builds the new dog first, then frees the old one under the flag |
| Scenarios.ResetToNull | Example.cpp:38-40 | `dog.reset(nullptr)` empties `dog` and frees the old dog under the flag |
| Scenarios.UntypedDelete | Example.cpp:62-69 | `delete` through the untyped view frees Scooby once and leaves `dog` and the other live objects alone |
| Scenarios.LeaveScope | Example.cpp:71-73 | `dog` leaving the scope frees what it holds under its flag, and an empty `dog` frees nothing |
| Scenarios.FidoRover | Example.cpp:20-28 | Fido is freed by the assignment of Rover; Rover is released, so it stays live and is owned by no one |
| Scenarios.LassieSpot | Example.cpp:30-40 | Lassie is freed by `reset(new Dog("Spot"))` and Spot by `reset(nullptr)`, in that order |
| Scenarios.FidoToNull | Example.cpp:20-40 | the first half of the program frees Fido, Lassie and Spot in that order, and never frees Rover |
| Scenarios.FidoFromStart | Example.cpp:20-40 | from the empty program, the freed addresses are exactly 0, 2 and 3 |
| Scenarios.WrapReset | Example.cpp:42-47 | a dog from a raw `new`, assigned to `dog` and then reset, is freed exactly once |
| Scenarios.SpikeDawg | Example.cpp:42-54 | Spike and then Dawg are each freed once, in order |
| Scenarios.Snoopy | Example.cpp:56-60 | after `disable_delete()`, `reset()` empties `dog` without freeing Snoopy, which stays live and owned by no one, and the caller's own `delete` of it completes |
| Scenarios.Scooby | Example.cpp:62-72 | Scooby is freed once by the untyped `delete`, and the empty `dog` frees nothing when `main` returns |

## Left out

- Real memory: `new`, `delete` and the constructors and destructors of `T` act on an abstract heap. Out-of-memory is not modelled.
- The file `untyped_managed_ptr.h` included by `managed_ptr.h` is not part of this model. The untyped handle is taken to be a pointer to `untyped_managed_ptr_impl`, so `delete` through it runs the typed destructor.
- Virtual dispatch and inheritance: the untyped view reads the same `Handle`, because its pure virtual members are implemented by the typed ones.
- The `enable_if` selection of the two `as<T>()` overloads: they are two functions, `Untyped.AsPointer` and `Untyped.AsValue`.
- Untyped.AsValue: `init` is the caller-supplied value-initialised `T{}` that `return {}` produces, which the model cannot compute for an arbitrary `T`.
- Untyped.AsValue: the type check of `static_cast<T*>` is not modelled. The heap holds objects of one type, so the caller's obligation becomes "the address is live".
- Perfect forwarding: `make_managed<T>(args...)` and `managed_ptr(T&&)` receive the object those arguments construct as a value.
- ManagedPtr.Default: `T()` cannot be computed for an arbitrary `T`, so its value is a parameter.
- `untyped()` (`managed_ptr.h:38`) returns `this` from a `const` member as a non-const pointer, which is ill-formed and fails to compile once called. It adds nothing beyond the view `Untyped` already models.
- The typed `reset(T* = nullptr)` has a different signature from the base's pure virtual `reset()`, so as written it does not override it. The untyped `reset()` is modelled as the typed `reset(nullptr)`, which is the override the base's pure virtual `reset()` expects.
- `operator->` (`managed_ptr.h:57`) returns the same pointer as `get()` and is not modelled separately.
- ManagedPtr.Deref: dereferencing an empty or dangling handle is undefined behaviour, so the function requires a live, non-null address.
- ManagedPtr.Reset: resetting a handle to the pointer it already holds, with deletion enabled, would leave it dangling. That one case is excluded by the precondition and reported as `Misuse` in `Ownership`. With deletion disabled the same call is allowed and changes nothing.
- ManagedPtr.MoveAssignByStandard has no contract of its own. It is the standard's definition, which `ManagedPtr.MoveAssignIsResetRelease` proves equal to `MoveAssign`.
- Ownership.Exec and Ownership.Run carry no contracts of their own. Their properties are the lemmas `ExecGrows`, `RunGrows`, `ExecKeepsInv`, `RunKeepsInv` and `NoDoubleFree`.
- Ownership.ExecKeepsInv: the theorem rests on exclusive ownership. Two variables holding the same non-null address is `Misuse`, even when one of them has deletion disabled and is only a non-owning view. C++ accepts such a view (`managed_ptr<T> v(p, false)` beside an owner of `p`, or a move between two handles on `p`), but a later `enable_delete()` on it would free `p` twice, so the model does not admit it. The same exclusion carries over to `Ownership.RunKeepsInv` and `Ownership.NoDoubleFree`.
- Undefined behaviour by the caller is not executed. The caller may redeclare a variable, adopt an address that is dead or already held by another variable, or delete a held or dead address by hand. Such a command stops the run as `Misuse`. A free of a dead address is reported as `DoubleFree` rather than performed.
- `noexcept`, copy deletion (`managed_ptr.h:47-48`) and the defaulted destructor are compile-time facts. The command set simply has no copy.
- Concurrency: the library has no synchronisation, and the model is sequential.
- The example's printing and the `Dog` names: the scenes take the dogs as parameters and track only addresses.
- The example's whole `main` is not stated as a single run. The first half is one run (`Scenarios.FidoToNull`, `Scenarios.FidoFromStart`). The later scenes (`SpikeDawg`, `Snoopy`, `Scooby`) are each proved from any world in which `dog` is the only variable, so they compose in the same way.
