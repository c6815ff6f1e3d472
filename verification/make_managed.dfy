/** The two `make_managed` factories: call-site shorthands for the constructors. */
module MakeManaged {
  import opened Wrappers
  import opened Heap
  import opened ManagedPtr

  /**
    `make_managed<T>(args...)`: `new T(args...)` wrapped with deletion enabled.
    `value` is the object those arguments construct. Nothing is freed.
   */
  function MakeManaged<V>(heap: Heap<V>, value: V): (r: Made<V>)
    ensures IsSet(r.handle) && DeletesPointer(r.handle)
    ensures r.heap.live == heap.live[Get(r.handle).value := value] && r.heap.log == heap.log
  {
    var a := Alloc(heap, value);
    Made(FromRaw(Some(a.addr), true), a.heap)
  }

  /** In a well-formed heap, `make_managed` owns a fresh address: neither live nor ever freed before. */
  lemma MakeManagedFresh<V>(heap: Heap<V>, value: V)
    requires Valid(heap)
    ensures var r := MakeManaged(heap, value);
      && Get(r.handle).value !in heap.live && Get(r.handle).value !in heap.log && Valid(r.heap)
  {
    AllocKeepsValid(heap, value);
  }

  /** `make_managed(ptr, deletes_pointer)`: owns exactly `ptr`; no allocation, no copy, nothing freed. */
  function MakeManagedWrap(ptr: Ptr, deletes: bool): (h: Handle)
    ensures Get(h) == ptr && DeletesPointer(h) == deletes
    ensures IsSet(h) <==> ptr.Some?
  {
    FromRaw(ptr, deletes)
  }

  /** `make_managed(ptr)` with the flag omitted: deletion enabled. */
  function MakeManagedWrapDefault(ptr: Ptr): (h: Handle)
    ensures Get(h) == ptr && DeletesPointer(h)
  {
    MakeManagedWrap(ptr, true)
  }

  /** The forwarding factory is the value constructor: same handle, same heap. */
  lemma MakeManagedIsFromValue<V>(heap: Heap<V>, value: V)
    ensures MakeManaged(heap, value) == FromValue(heap, value)
  {
  }

  /** The wrapping factory is the `(T*, bool)` constructor. */
  lemma MakeManagedWrapIsFromRaw(ptr: Ptr, deletes: bool)
    ensures MakeManagedWrap(ptr, deletes) == FromRaw(ptr, deletes)
    ensures MakeManagedWrapDefault(ptr) == FromRawDefault(ptr)
  {
  }

  /** `make_managed(nullptr, flag)` is an empty handle, and destroying it frees nothing. */
  lemma MakeManagedNullIsEmpty(deletes: bool)
    ensures !IsSet(MakeManagedWrap(None, deletes))
    ensures Destroy(MakeManagedWrap(None, deletes)).None?
  {
  }
}
