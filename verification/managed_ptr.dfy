/**
  `managed_ptr<T>`: a `std::unique_ptr<T, managed_ptr_deleter>` whose deleter
  carries a run-time "delete on destroy" flag. A handle is the pair of its
  nullable address and that flag. Every operation is a pure function that
  returns the new handle(s) together with the address it frees, if any; at
  most one address is freed per operation. The unique_ptr rules used are
  those of the C++17 standard (N4659): [unique.ptr.single.ctor],
  [unique.ptr.single.dtor], [unique.ptr.single.asgn] and
  [unique.ptr.single.modifiers].
 */
module ManagedPtr {
  import opened Wrappers
  import opened Heap

  /** A nullable address; `None` is `nullptr`. */
  type Ptr = Option<Addr>

  /** The unique_ptr's stored pointer and its deleter's flag. */
  datatype Handle = Handle(ptr: Ptr, deletes: bool)

  /** The handle after an operation, and the address that operation freed. */
  datatype Step = Step(handle: Handle, freed: Ptr)

  /** Both handles after a move, and what the move freed. */
  datatype Moved = Moved(dst: Handle, src: Handle, freed: Ptr)

  /** A handle to a freshly allocated object, and the heap that holds it. */
  datatype Made<V> = Made(handle: Handle, heap: Heap<V>)

  // ---------------------------------------------------------------- deleter

  /** `managed_ptr_deleter::operator()(p)`: frees `p` exactly when the flag is set. */
  function Deleter(deletes: bool, p: Addr): (freed: Ptr)
    ensures freed.Some? <==> deletes
    ensures freed.Some? ==> freed.value == p
  {
    if deletes then Some(p) else None
  }

  /**
    What unique_ptr does with the pointer it gives up on destruction or reset:
    the deleter is invoked only on a non-null pointer.
   */
  function Dispose(h: Handle): (freed: Ptr)
    ensures freed.Some? <==> h.ptr.Some? && h.deletes
    ensures freed.Some? ==> freed == h.ptr
  {
    match h.ptr
    case None => None
    case Some(p) => Deleter(h.deletes, p)
  }

  // ----------------------------------------------------------- constructors

  /** `managed_ptr(T* ptr, bool deletes_pointer = true)`: adopts `ptr` as is, no copy, no allocation. */
  function FromRaw(ptr: Ptr, deletes: bool): (h: Handle)
    ensures h.ptr == ptr && h.deletes == deletes
  {
    Handle(ptr, deletes)
  }

  /** `managed_ptr(ptr)` with the flag argument omitted. */
  function FromRawDefault(ptr: Ptr): (h: Handle)
    ensures h.ptr == ptr && h.deletes
  {
    FromRaw(ptr, true)
  }

  /** `managed_ptr(T&& value)`: a heap copy of `value`, owned with deletion enabled. */
  function FromValue<V>(heap: Heap<V>, value: V): (r: Made<V>)
    ensures r.handle.ptr.Some? && r.handle.deletes
    ensures r.heap.live == heap.live[r.handle.ptr.value := value] && r.heap.log == heap.log
  {
    var a := Alloc(heap, value);
    Made(FromRawDefault(Some(a.addr)), a.heap)
  }

  /**
    `managed_ptr()`: `new T()`, owned with deletion enabled. `init` is the value
    `T()` constructs, which the model cannot compute for an arbitrary `T`.
   */
  function Default<V>(heap: Heap<V>, init: V): (r: Made<V>)
    ensures r.handle.ptr.Some? && r.handle.deletes
    ensures r.heap.live == heap.live[r.handle.ptr.value := init] && r.heap.log == heap.log
  {
    FromValue(heap, init)
  }

  // ---------------------------------------------------------- observers

  /** `get()`: the stored address. */
  function Get(h: Handle): (p: Ptr)
    ensures p == h.ptr
  {
    h.ptr
  }

  /** `void_ptr()`: the same address, viewed without its type. */
  function VoidPtr(h: Handle): (p: Ptr)
    ensures p == Get(h)
  {
    h.ptr
  }

  /** `explicit operator bool()`: true iff the stored pointer is non-null. */
  function IsSet(h: Handle): (b: bool)
    ensures b <==> h.ptr != None
  {
    h.ptr.Some?
  }

  /** `deletes_pointer()`: the deleter's flag. */
  function DeletesPointer(h: Handle): (b: bool)
    ensures b == h.deletes
  {
    h.deletes
  }

  /**
    `operator*()`: the object at the stored address. Dereferencing an empty
    (or dangling) handle is undefined behaviour, so it is excluded.
   */
  function Deref<V>(h: Handle, heap: Heap<V>): (v: V)
    requires h.ptr.Some? && h.ptr.value in heap.live
    ensures v == heap.live[Get(h).value]
  {
    heap.live[h.ptr.value]
  }

  // ---------------------------------------------------------- flag mutators

  /** `set_deletes_pointer(b)`: replaces the flag; the pointer is untouched. */
  function SetDeletesPointer(h: Handle, b: bool): (r: Handle)
    ensures r.ptr == h.ptr && DeletesPointer(r) == b
  {
    Handle(h.ptr, b)
  }

  /** `set_deletes_pointer()` with the argument omitted. */
  function SetDeletesPointerDefault(h: Handle): (r: Handle)
    ensures r.ptr == h.ptr && DeletesPointer(r)
  {
    SetDeletesPointer(h, true)
  }

  /** `disable_delete()`. */
  function DisableDelete(h: Handle): (r: Handle)
    ensures r.ptr == h.ptr && !DeletesPointer(r)
  {
    SetDeletesPointer(h, false)
  }

  /** `enable_delete()`. */
  function EnableDelete(h: Handle): (r: Handle)
    ensures r.ptr == h.ptr && DeletesPointer(r)
  {
    Handle(h.ptr, true)
  }

  // ---------------------------------------------------------- ownership moves

  /** `~managed_ptr()`: the held address is freed iff it is non-null and the flag is set. */
  function Destroy(h: Handle): (freed: Ptr)
    ensures freed.Some? <==> IsSet(h) && DeletesPointer(h)
    ensures freed.Some? ==> freed == Get(h)
  {
    Dispose(h)
  }

  /**
    `reset(p)`: the handle holds `p` from now on; the old pointer is handed to
    the deleter if it was non-null; the flag stays. Resetting to the pointer
    already held with deletion enabled would leave the handle dangling, so
    that one case is excluded; with deletion disabled it changes nothing.
   */
  function Reset(h: Handle, p: Ptr): (r: Step)
    requires p.None? || p != h.ptr || !h.deletes
    ensures Get(r.handle) == p
    ensures DeletesPointer(r.handle) == DeletesPointer(h)
    ensures r.freed.Some? <==> IsSet(h) && DeletesPointer(h)
    ensures r.freed.Some? ==> r.freed == Get(h)
  {
    Step(Handle(p, h.deletes), Dispose(h))
  }

  /** `release()`: forgets the pointer without freeing it, whatever the flag; the flag stays. */
  function Release(h: Handle): (r: Step)
    ensures !IsSet(r.handle) && r.freed.None?
    ensures DeletesPointer(r.handle) == DeletesPointer(h)
  {
    Step(Handle(None, h.deletes), None)
  }

  /**
    `managed_ptr(managed_ptr&& other)`: the new handle takes the pointer and
    the deleter; the source is left null with its (copied-from) flag.
   */
  function MoveConstruct(src: Handle): (r: Moved)
    ensures r.dst == src
    ensures !IsSet(r.src) && DeletesPointer(r.src) == DeletesPointer(src)
    ensures r.freed.None?
  {
    Moved(src, Handle(None, src.deletes), None)
  }

  /**
    `dst = std::move(src)` for two distinct objects. The destination's old
    resource is disposed of under the destination's OLD flag; then the
    destination holds the source's pointer and flag, and the source is null
    with its flag unchanged.
   */
  function MoveAssign(dst: Handle, src: Handle): (r: Moved)
    ensures r.dst == src
    ensures !IsSet(r.src) && DeletesPointer(r.src) == DeletesPointer(src)
    ensures r.freed.Some? <==> IsSet(dst) && DeletesPointer(dst)
    ensures r.freed.Some? ==> r.freed == Get(dst)
  {
    Moved(src, Handle(None, src.deletes), Dispose(dst))
  }

  /**
    The standard's definition of move assignment ([unique.ptr.single.asgn]):
    `reset(u.release())`, then `get_deleter() = u.get_deleter()`.
   */
  function MoveAssignByStandard(dst: Handle, src: Handle): (r: Moved)
    requires dst.ptr.None? || dst.ptr != src.ptr || !dst.deletes
  {
    var released := Release(src);
    var reset := Reset(dst, src.ptr);
    Moved(SetDeletesPointer(reset.handle, src.deletes), released.handle, reset.freed)
  }

  // ---------------------------------------------------------- lemmas

  /**
    Move assignment agrees with the standard's definition of it, wherever
    that definition's `reset` is defined.
   */
  lemma MoveAssignIsResetRelease(dst: Handle, src: Handle)
    requires dst.ptr.None? || dst.ptr != src.ptr || !dst.deletes
    ensures MoveAssign(dst, src) == MoveAssignByStandard(dst, src)
  {
  }

  /**
    The flag that decides the destination's old resource is the destination's
    own: whatever the source's flag, the freed address is the same.
   */
  lemma MoveAssignOldFlagDecides(dst: Handle, src1: Handle, src2: Handle)
    ensures MoveAssign(dst, src1).freed == MoveAssign(dst, src2).freed == Destroy(dst)
  {
  }

  /** Reset frees exactly what destruction would have freed. */
  lemma ResetFreesAsDestroy(h: Handle, p: Ptr)
    requires p.None? || p != h.ptr || !h.deletes
    ensures Reset(h, p).freed == Destroy(h)
  {
  }

  /** With deletion disabled, resetting a handle to the pointer it holds changes nothing. */
  lemma DisabledSelfResetIsNoOp(h: Handle)
    requires !DeletesPointer(h)
    ensures Reset(h, Get(h)) == Step(h, None)
  {
  }

  /** Release and `reset()` leave the same empty handle; they differ only in what is freed. */
  lemma ReleaseVersusReset(h: Handle)
    ensures Release(h).handle == Reset(h, None).handle
    ensures Release(h) == Reset(h, None) <==> Destroy(h).None?
  {
  }

  /** With deletion disabled, `reset()` is `release()`: it empties the handle and frees nothing. */
  lemma DisabledResetIsRelease(h: Handle)
    ensures Reset(DisableDelete(h), None) == Release(DisableDelete(h))
    ensures Reset(DisableDelete(h), None).freed.None?
  {
  }

  /** `reset()` on an empty handle frees nothing and leaves it as it was. */
  lemma ResetEmptyIsNoOp(h: Handle)
    requires !IsSet(h)
    ensures Reset(h, None) == Step(h, None)
  {
  }

  /** Resetting twice in a row frees nothing the second time. */
  lemma ResetIdempotent(h: Handle)
    ensures Reset(Reset(h, None).handle, None) == Step(Reset(h, None).handle, None)
  {
  }

  /** The flag mutators are idempotent and the last one written wins. */
  lemma FlagMutatorsIdempotent(h: Handle, b: bool, c: bool)
    ensures DisableDelete(DisableDelete(h)) == DisableDelete(h)
    ensures EnableDelete(EnableDelete(h)) == EnableDelete(h)
    ensures SetDeletesPointer(SetDeletesPointer(h, b), c) == SetDeletesPointer(h, c)
    ensures EnableDelete(DisableDelete(h)) == SetDeletesPointerDefault(h)
  {
  }

  /**
    In a well-formed heap both allocating constructors own an address that
    was neither live nor ever freed, and the heap stays well formed.
   */
  lemma ConstructorsOwnFresh<V>(heap: Heap<V>, value: V)
    requires Valid(heap)
    ensures var r := FromValue(heap, value);
      && Get(r.handle).value !in heap.live && Get(r.handle).value !in heap.log && Valid(r.heap)
    ensures var r := Default(heap, value);
      && Get(r.handle).value !in heap.live && Get(r.handle).value !in heap.log && Valid(r.heap)
  {
    AllocKeepsValid(heap, value);
  }

  /** Moves conserve ownership: between them, the two handles own what the source owned. */
  lemma MoveConstructConserves(src: Handle)
    ensures var m := MoveConstruct(src); Destroy(m.dst) == Destroy(src) && Destroy(m.src).None?
  {
  }
}
