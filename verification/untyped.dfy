/**
  `untyped_managed_ptr_impl`: the capability interface a `managed_ptr<T>`
  offers without its type, and the type-erased re-acquisition `as<T>()`.
  The untyped view has no state of its own; it reads the same handle. Its
  two `as<T>()` overloads (chosen by whether `T` is a pointer type) are two
  functions here. Both are `const`: they return a value and nothing else,
  so neither the handle nor the heap can change.
 */
module Untyped {
  import opened Wrappers
  import opened Heap
  import opened ManagedPtr

  /** `as<T*>()`: null for an empty handle, otherwise the stored address unchanged. */
  function AsPointer(h: Handle): (p: Ptr)
    ensures !IsSet(h) ==> p.None?
    ensures IsSet(h) ==> p == Get(h)
  {
    var raw := VoidPtr(h);
    if raw.None? then None else raw
  }

  /**
    `as<T>()` for a non-pointer `T`: a default-constructed `T` (given as
    `init`) for an empty handle, otherwise a copy of the object at the stored
    address. Nothing checks that `T` is the owned type; the heap here holds
    objects of one type, so the caller's obligation is that the address is
    still live.
   */
  function AsValue<V>(h: Handle, heap: Heap<V>, init: V): (v: V)
    requires IsSet(h) ==> Get(h).value in heap.live
    ensures !IsSet(h) ==> v == init
    ensures IsSet(h) ==> v == heap.live[Get(h).value]
  {
    var raw := VoidPtr(h);
    if raw.None? then init else heap.live[raw.value]
  }

  /** The untyped `reset()`: `reset(nullptr)` on the typed handle. */
  function UntypedReset(h: Handle): (r: Step)
    ensures !IsSet(r.handle) && DeletesPointer(r.handle) == DeletesPointer(h)
    ensures r.freed == Destroy(h)
  {
    Reset(h, None)
  }

  /** The untyped `release()`. */
  function UntypedRelease(h: Handle): (r: Step)
    ensures !IsSet(r.handle) && r.freed.None?
    ensures DeletesPointer(r.handle) == DeletesPointer(h)
  {
    Release(h)
  }

  /** The untyped view observes the address the typed handle holds. */
  lemma VoidPtrIsGet(h: Handle)
    ensures VoidPtr(h) == Get(h) == AsPointer(h)
  {
  }

  /** A non-empty handle's value view is the dereference of its pointer view. */
  lemma AsValueIsDerefOfAsPointer<V>(h: Handle, heap: Heap<V>, init: V)
    requires IsSet(h) && Get(h).value in heap.live
    ensures AsValue(h, heap, init) == Deref(h, heap) == heap.live[AsPointer(h).value]
  {
  }

  /** Flag changes do not change what `as<T>()` returns. */
  lemma AsIgnoresFlag<V>(h: Handle, b: bool, heap: Heap<V>, init: V)
    requires IsSet(h) ==> Get(h).value in heap.live
    ensures AsPointer(SetDeletesPointer(h, b)) == AsPointer(h)
    ensures AsValue(SetDeletesPointer(h, b), heap, init) == AsValue(h, heap, init)
  {
  }
}
