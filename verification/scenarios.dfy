/**
  The lifecycle sequences of the repository's example program (`Example.cpp`),
  replayed as command scripts over the abstract heap. What the dogs are
  called does not matter to ownership, so the objects are parameters; what
  matters is the order in which addresses are handed out (`n`, `n + 1`, ...
  from the heap's next fresh address) and which of them reach the free log.
 */
module Scenarios {
  import opened Wrappers
  import opened Heap
  import opened ManagedPtr
  import opened Ownership

  /** The variable `dog`, and the temporary that `dog = <expression>` moves from. */
  const DogVar: Var := 0
  const TempVar: Var := 1
  /** The untyped handle of the example's last scene. */
  const ScoobyVar: Var := 2

  /** The objects the example constructs, in order of construction. */
  datatype Dogs<V> = Dogs(fido: V, rover: V, lassie: V, spot: V, spike: V, dawg: V, snoopy: V, scooby: V)

  /** The address freed, as a log entry (none for `None`). */
  function Entry(freed: Ptr): seq<Addr> {
    if freed.Some? then [freed.value] else []
  }

  /** Every live address was handed out before the heap's next fresh one. */
  predicate Fresh<V>(h: Heap<V>) {
    forall a :: a in h.live ==> a < h.next
  }

  /** Only `dog` is in scope, it is the handle `dog`, and what it holds is live. */
  predicate DogIs<V>(w: World<V>, dog: Handle) {
    && w.vars == map[DogVar := dog]
    && Fresh(w.heap)
    && (dog.ptr.Some? ==> dog.ptr.value in w.heap.live)
  }

  // ------------------------------------------------------------- statements

  /** `auto dog = make_managed<Dog>(v)`. */
  function DeclareCmds<V>(v: V): seq<Cmd<V>> {
    [Make(DogVar, v)]
  }

  /** `dog = make_managed<Dog>(v)`: build the temporary, move-assign it into `dog`, end the temporary. */
  function AssignMadeCmds<V>(v: V): seq<Cmd<V>> {
    [Make(TempVar, v), Assign(DogVar, TempVar), EndScope(TempVar)]
  }

  /** `auto* p = new Dog(v); dog = managed_ptr<Dog>(p);` where `p` will be address `a`. */
  function AssignWrappedCmds<V>(v: V, a: Addr): seq<Cmd<V>> {
    [NewRaw(v), Wrap(TempVar, Some(a), true), Assign(DogVar, TempVar), EndScope(TempVar)]
  }

  /** `dog.reset(new Dog(v))` where the new object will be address `a`. */
  function ResetToNewCmds<V>(v: V, a: Addr): seq<Cmd<V>> {
    [NewRaw(v), ResetTo(DogVar, Some(a))]
  }

  /** `untyped_managed_ptr scooby = new managed_ptr<Dog>(new Dog(v)); delete scooby;`, address `a`. */
  function UntypedDeleteCmds<V>(v: V, a: Addr): seq<Cmd<V>> {
    [NewRaw(v), Wrap(ScoobyVar, Some(a), true), EndScope(ScoobyVar)]
  }

  // ------------------------------------------------------------- heap facts

  /** Allocating keeps `Fresh` and hands out the one address that was not live. */
  lemma AllocFresh<V>(h: Heap<V>, v: V)
    requires Fresh(h)
    ensures Fresh(Alloc(h, v).heap) && Alloc(h, v).addr == h.next && h.next !in h.live
    ensures Alloc(h, v).heap.next == h.next + 1 && Alloc(h, v).heap.log == h.log
  {
  }

  /** Freeing a live address (or nothing) keeps `Fresh`. */
  lemma FreeFresh<V>(h: Heap<V>, freed: Ptr)
    requires Fresh(h) && (freed.Some? ==> freed.value in h.live)
    ensures Fresh(FreeOpt(h, freed)) && FreeOpt(h, freed).next == h.next
    ensures FreeOpt(h, freed).log == h.log + Entry(freed)
  {
  }

  /** Two commands that each complete, run in order. */
  lemma Steps2<V>(w0: World<V>, c1: Cmd<V>, c2: Cmd<V>, w1: World<V>, w2: World<V>)
    requires Exec(w0, c1) == Done(w1) && Exec(w1, c2) == Done(w2)
    ensures Run(w0, [c1, c2]) == Done(w2)
  {
    assert Run(w1, [c2]) == Done(w2) by { RunStep(w1, c2, []); }
    RunStep(w0, c1, [c2]);
    assert [c1] + [c2] == [c1, c2];
  }

  /** Three commands that each complete, run in order. */
  lemma Steps3<V>(w0: World<V>, c1: Cmd<V>, c2: Cmd<V>, c3: Cmd<V>, w1: World<V>, w2: World<V>, w3: World<V>)
    requires Exec(w0, c1) == Done(w1) && Exec(w1, c2) == Done(w2) && Exec(w2, c3) == Done(w3)
    ensures Run(w0, [c1, c2, c3]) == Done(w3)
  {
    assert Run(w2, [c3]) == Done(w3) by { RunStep(w2, c3, []); }
    assert Run(w1, [c2, c3]) == Done(w3) by { RunStep(w1, c2, [c3]); assert [c2] + [c3] == [c2, c3]; }
    RunStep(w0, c1, [c2, c3]);
    assert [c1] + [c2, c3] == [c1, c2, c3];
  }

  /** Four commands that each complete, run in order. */
  lemma Steps4<V>(w0: World<V>, c1: Cmd<V>, c2: Cmd<V>, c3: Cmd<V>, c4: Cmd<V>,
                  w1: World<V>, w2: World<V>, w3: World<V>, w4: World<V>)
    requires Exec(w0, c1) == Done(w1) && Exec(w1, c2) == Done(w2) && Exec(w2, c3) == Done(w3)
    requires Exec(w3, c4) == Done(w4)
    ensures Run(w0, [c1, c2, c3, c4]) == Done(w4)
  {
    Steps3(w1, c2, c3, c4, w2, w3, w4);
    RunStep(w0, c1, [c2, c3, c4]);
    assert [c1] + [c2, c3, c4] == [c1, c2, c3, c4];
  }

  // ------------------------------------------------------------- one statement each

  /** `auto dog = make_managed<Dog>(v)`: `dog` owns the next fresh address; nothing is freed. */
  lemma Declare<V>(w: World<V>, v: V)
    requires Fresh(w.heap) && w.vars == map[]
    ensures var r := Run(w, DeclareCmds(v));
      && r.Done? && DogIs(r.world, Handle(Some(w.heap.next), true))
      && r.world.heap.log == w.heap.log && r.world.heap.next == w.heap.next + 1
  {
    AllocFresh(w.heap, v);
    RunStep(w, Make(DogVar, v), []);
  }

  /**
    `dog = make_managed<Dog>(v)`: the new object is built first, then `dog`'s
    old object is disposed of under `dog`'s old flag; the emptied temporary
    frees nothing when it ends.
   */
  lemma AssignMade<V>(w: World<V>, dog: Handle, v: V)
    requires DogIs(w, dog)
    ensures var r := Run(w, AssignMadeCmds(v));
      && r.Done? && DogIs(r.world, Handle(Some(w.heap.next), true))
      && r.world.heap.log == w.heap.log + Entry(Destroy(dog)) && r.world.heap.next == w.heap.next + 1
  {
    var a := w.heap.next;
    var h1 := Alloc(w.heap, v).heap;
    AllocFresh(w.heap, v);
    var w1 := World(h1, map[DogVar := dog, TempVar := Handle(Some(a), true)]);
    assert Exec(w, Make(TempVar, v)) == Done(w1) by {
      assert w.vars[TempVar := Handle(Some(a), true)] == w1.vars;
    }
    var h2 := FreeOpt(h1, Destroy(dog));
    FreeFresh(h1, Destroy(dog));
    var w2 := World(h2, map[DogVar := Handle(Some(a), true), TempVar := Handle(None, true)]);
    assert Exec(w1, Assign(DogVar, TempVar)) == Done(w2) by {
      assert w1.vars[DogVar := Handle(Some(a), true)][TempVar := Handle(None, true)] == w2.vars;
    }
    var w3 := World(h2, map[DogVar := Handle(Some(a), true)]);
    assert Exec(w2, EndScope(TempVar)) == Done(w3) by {
      assert w2.vars - {TempVar} == w3.vars;
    }
    Steps3(w, Make(TempVar, v), Assign(DogVar, TempVar), EndScope(TempVar), w1, w2, w3);
  }

  /** `auto* p = new Dog(v); dog = managed_ptr<Dog>(p);`: like `AssignMade`, through a raw pointer. */
  lemma AssignWrapped<V>(w: World<V>, dog: Handle, v: V)
    requires DogIs(w, dog)
    ensures var r := Run(w, AssignWrappedCmds(v, w.heap.next));
      && r.Done? && DogIs(r.world, Handle(Some(w.heap.next), true))
      && r.world.heap.log == w.heap.log + Entry(Destroy(dog)) && r.world.heap.next == w.heap.next + 1
  {
    var a := w.heap.next;
    var h1 := Alloc(w.heap, v).heap;
    AllocFresh(w.heap, v);
    var w1 := World(h1, w.vars);
    assert Exec(w, NewRaw(v)) == Done(w1);
    var w2 := World(h1, map[DogVar := dog, TempVar := Handle(Some(a), true)]);
    assert Exec(w1, Wrap(TempVar, Some(a), true)) == Done(w2) by {
      assert !Owned(w1, a);
      assert w1.vars[TempVar := Handle(Some(a), true)] == w2.vars;
    }
    var h3 := FreeOpt(h1, Destroy(dog));
    FreeFresh(h1, Destroy(dog));
    var w3 := World(h3, map[DogVar := Handle(Some(a), true), TempVar := Handle(None, true)]);
    assert Exec(w2, Assign(DogVar, TempVar)) == Done(w3) by {
      assert w2.vars[DogVar := Handle(Some(a), true)][TempVar := Handle(None, true)] == w3.vars;
    }
    var w4 := World(h3, map[DogVar := Handle(Some(a), true)]);
    assert Exec(w3, EndScope(TempVar)) == Done(w4) by {
      assert w3.vars - {TempVar} == w4.vars;
    }
    Steps4(w, NewRaw(v), Wrap(TempVar, Some(a), true), Assign(DogVar, TempVar), EndScope(TempVar), w1, w2, w3, w4);
  }

  /** `dog.release()`: `dog` is emptied, nothing is freed, the heap is unchanged. */
  lemma ReleaseDog<V>(w: World<V>, dog: Handle)
    requires DogIs(w, dog)
    ensures var r := Run(w, [ReleaseOwnership(DogVar)]);
      && r.Done? && DogIs(r.world, Handle(None, dog.deletes)) && r.world.heap == w.heap
  {
    RunStep(w, ReleaseOwnership(DogVar), []);
  }

  /** `dog.disable_delete()`: only the flag changes. */
  lemma DisableDog<V>(w: World<V>, dog: Handle)
    requires DogIs(w, dog)
    ensures var r := Run(w, [SetFlag(DogVar, false)]);
      && r.Done? && DogIs(r.world, Handle(dog.ptr, false)) && r.world.heap == w.heap
  {
    RunStep(w, SetFlag(DogVar, false), []);
  }

  /** `dog.reset(new Dog(v))`: the new object is built first, then the old one is disposed of. */
  lemma ResetToNew<V>(w: World<V>, dog: Handle, v: V)
    requires DogIs(w, dog)
    ensures var r := Run(w, ResetToNewCmds(v, w.heap.next));
      && r.Done? && DogIs(r.world, Handle(Some(w.heap.next), dog.deletes))
      && r.world.heap.log == w.heap.log + Entry(Destroy(dog)) && r.world.heap.next == w.heap.next + 1
  {
    var a := w.heap.next;
    var h1 := Alloc(w.heap, v).heap;
    AllocFresh(w.heap, v);
    var w1 := World(h1, w.vars);
    assert Exec(w, NewRaw(v)) == Done(w1);
    var h2 := FreeOpt(h1, Destroy(dog));
    FreeFresh(h1, Destroy(dog));
    var w2 := World(h2, map[DogVar := Handle(Some(a), dog.deletes)]);
    assert Exec(w1, ResetTo(DogVar, Some(a))) == Done(w2) by {
      assert !Owned(w1, a);
      assert w1.vars[DogVar := Handle(Some(a), dog.deletes)] == w2.vars;
    }
    Steps2(w, NewRaw(v), ResetTo(DogVar, Some(a)), w1, w2);
  }

  /** `dog.reset(nullptr)` and `dog.reset()`: the old object is disposed of and `dog` is empty. */
  lemma ResetToNull<V>(w: World<V>, dog: Handle)
    requires DogIs(w, dog)
    ensures var r := Run(w, [ResetTo(DogVar, None)]);
      && r.Done? && DogIs(r.world, Handle(None, dog.deletes))
      && r.world.heap.log == w.heap.log + Entry(Destroy(dog)) && r.world.heap.next == w.heap.next
  {
    FreeFresh(w.heap, Destroy(dog));
    RunStep(w, ResetTo(DogVar, None), []);
  }

  /**
    Deleting through the untyped view destroys the handle, which frees its
    object exactly once; `dog` is untouched.
   */
  lemma UntypedDelete<V>(w: World<V>, dog: Handle, v: V)
    requires DogIs(w, dog)
    ensures var r := Run(w, UntypedDeleteCmds(v, w.heap.next));
      && r.Done? && DogIs(r.world, dog) && r.world.heap.live == w.heap.live
      && r.world.heap.log == w.heap.log + [w.heap.next] && r.world.heap.next == w.heap.next + 1
  {
    var a := w.heap.next;
    var h1 := Alloc(w.heap, v).heap;
    AllocFresh(w.heap, v);
    var w1 := World(h1, w.vars);
    assert Exec(w, NewRaw(v)) == Done(w1);
    var w2 := World(h1, map[DogVar := dog, ScoobyVar := Handle(Some(a), true)]);
    assert Exec(w1, Wrap(ScoobyVar, Some(a), true)) == Done(w2) by {
      assert !Owned(w1, a);
      assert w1.vars[ScoobyVar := Handle(Some(a), true)] == w2.vars;
    }
    var h3 := FreeOpt(h1, Some(a));
    FreeFresh(h1, Some(a));
    var w3 := World(h3, map[DogVar := dog]);
    assert h3.live == w.heap.live;
    assert Exec(w2, EndScope(ScoobyVar)) == Done(w3) by {
      assert w2.vars - {ScoobyVar} == w3.vars;
    }
    Steps3(w, NewRaw(v), Wrap(ScoobyVar, Some(a), true), EndScope(ScoobyVar), w1, w2, w3);
  }

  /** `dog` going out of scope: its destructor disposes of what it holds under its flag. */
  lemma LeaveScope<V>(w: World<V>, dog: Handle)
    requires DogIs(w, dog)
    ensures var r := Run(w, [EndScope(DogVar)]);
      && r.Done? && r.world.vars == map[]
      && r.world.heap.log == w.heap.log + Entry(Destroy(dog))
      && (Destroy(dog).None? ==> r.world.heap == w.heap)
  {
    var w1 := World(FreeOpt(w.heap, Destroy(dog)), map[]);
    assert Exec(w, EndScope(DogVar)) == Done(w1) by {
      assert w.vars - {DogVar} == w1.vars;
    }
    var none: seq<Cmd<V>> := [];
    RunStep(w, EndScope(DogVar), none);
    assert [EndScope(DogVar)] + none == [EndScope(DogVar)];
  }

  /** Two scripts that each run compose. */
  lemma Then<V>(w: World<V>, s: seq<Cmd<V>>, t: seq<Cmd<V>>, w1: World<V>, w2: World<V>)
    requires Run(w, s) == Done(w1) && Run(w1, t) == Done(w2)
    ensures Run(w, s + t) == Done(w2)
  {
    RunAppend(w, s, t);
  }

  /** Three scripts that each run, one after the other, compose. */
  lemma Then3<V>(w0: World<V>, s1: seq<Cmd<V>>, s2: seq<Cmd<V>>, s3: seq<Cmd<V>>, w1: World<V>, w2: World<V>, w3: World<V>)
    requires Run(w0, s1) == Done(w1) && Run(w1, s2) == Done(w2) && Run(w2, s3) == Done(w3)
    ensures Run(w0, s1 + s2 + s3) == Done(w3)
  {
    assert Run(w0, s1 + s2) == Done(w2) by { Then(w0, s1, s2, w1, w2); }
    Then(w0, s1 + s2, s3, w2, w3);
  }

  // ------------------------------------------------------------- the example's scenes

  /** Fido, then Rover by assignment, then `release()`. */
  function FidoRoverScript<V>(d: Dogs<V>): seq<Cmd<V>> {
    DeclareCmds(d.fido) + AssignMadeCmds(d.rover) + [ReleaseOwnership(DogVar)]
  }

  /**
    Fido (address n) is freed by the assignment of Rover; Rover (n + 1) is
    released, so it is never freed and stays live, owned by no variable.
   */
  lemma FidoRover<V>(w0: World<V>, d: Dogs<V>)
    requires Fresh(w0.heap) && w0.vars == map[]
    ensures var n := w0.heap.next; var r := Run(w0, FidoRoverScript(d));
      && r.Done? && DogIs(r.world, Handle(None, true))
      && r.world.heap.log == w0.heap.log + [n] && r.world.heap.next == n + 2
      && n + 1 in r.world.heap.live && !Owned(r.world, n + 1)
  {
    var n := w0.heap.next;
    Declare(w0, d.fido);
    var w1 := Run(w0, DeclareCmds(d.fido)).world;
    AssignMade(w1, Handle(Some(n), true), d.rover);
    var w2 := Run(w1, AssignMadeCmds(d.rover)).world;
    ReleaseDog(w2, Handle(Some(n + 1), true));
    var w3 := Run(w2, [ReleaseOwnership(DogVar)]).world;
    Then3(w0, DeclareCmds(d.fido), AssignMadeCmds(d.rover), [ReleaseOwnership(DogVar)], w1, w2, w3);
  }

  /** Lassie by assignment, `reset(new Dog("Spot"))`, `reset(nullptr)`; `n` is Lassie's address. */
  function LassieSpotScript<V>(d: Dogs<V>, n: Addr): seq<Cmd<V>> {
    AssignMadeCmds(d.lassie) + ResetToNewCmds(d.spot, n + 1) + [ResetTo(DogVar, None)]
  }

  /**
    Assigning Lassie (n) to an empty `dog` frees nothing; `reset(Spot)`
    frees Lassie and `reset(nullptr)` frees Spot (n + 1). `dog` ends empty,
    deletion still enabled.
   */
  lemma LassieSpot<V>(w0: World<V>, d: Dogs<V>)
    requires DogIs(w0, Handle(None, true))
    ensures var n := w0.heap.next; var r := Run(w0, LassieSpotScript(d, n));
      && r.Done? && DogIs(r.world, Handle(None, true))
      && r.world.heap.log == w0.heap.log + [n, n + 1] && r.world.heap.next == n + 2
  {
    var n := w0.heap.next;
    AssignMade(w0, Handle(None, true), d.lassie);
    var w1 := Run(w0, AssignMadeCmds(d.lassie)).world;
    ResetToNew(w1, Handle(Some(n), true), d.spot);
    var w2 := Run(w1, ResetToNewCmds(d.spot, n + 1)).world;
    ResetToNull(w2, Handle(Some(n + 1), true));
    var w3 := Run(w2, [ResetTo(DogVar, None)]).world;
    Then3(w0, AssignMadeCmds(d.lassie), ResetToNewCmds(d.spot, n + 1), [ResetTo(DogVar, None)], w1, w2, w3);
  }

  /** The first half of `main`, through `reset(nullptr)`; `n` is the first address handed out. */
  function FidoScript<V>(d: Dogs<V>, n: Addr): seq<Cmd<V>> {
    FidoRoverScript(d) + LassieSpotScript(d, n + 2)
  }

  /** Fido (n), Lassie (n + 2) and Spot (n + 3) are freed in that order; Rover (n + 1) never is. */
  lemma FidoToNull<V>(w0: World<V>, d: Dogs<V>)
    requires Fresh(w0.heap) && w0.vars == map[]
    ensures var n := w0.heap.next; var r := Run(w0, FidoScript(d, n));
      && r.Done? && DogIs(r.world, Handle(None, true))
      && r.world.heap.log == w0.heap.log + [n, n + 2, n + 3] && r.world.heap.next == n + 4
  {
    var n := w0.heap.next;
    FidoRover(w0, d);
    var w1 := Run(w0, FidoRoverScript(d)).world;
    LassieSpot(w1, d);
    var w2 := Run(w1, LassieSpotScript(d, n + 2)).world;
    Then(w0, FidoRoverScript(d), LassieSpotScript(d, n + 2), w1, w2);
  }

  /** A dog created by the caller with `new` at address `n`, handed to a `managed_ptr`, assigned to `dog`, then `dog.reset()`. */
  function WrapResetScript<V>(v: V, n: Addr): seq<Cmd<V>> {
    AssignWrappedCmds(v, n) + [ResetTo(DogVar, None)]
  }

  /** The assignment disposes of `dog`'s old object; `reset()` then frees the new one (n). */
  lemma WrapReset<V>(w0: World<V>, dog: Handle, v: V)
    requires DogIs(w0, dog)
    ensures var n := w0.heap.next; var r := Run(w0, WrapResetScript(v, n));
      && r.Done? && DogIs(r.world, Handle(None, true))
      && r.world.heap.log == w0.heap.log + Entry(Destroy(dog)) + [n] && r.world.heap.next == n + 1
  {
    var n := w0.heap.next;
    AssignWrapped(w0, dog, v);
    var w1 := Run(w0, AssignWrappedCmds(v, n)).world;
    ResetToNull(w1, Handle(Some(n), true));
    var w2 := Run(w1, [ResetTo(DogVar, None)]).world;
    Then(w0, AssignWrappedCmds(v, n), [ResetTo(DogVar, None)], w1, w2);
  }

  /** Spike, then Dawg, each through `WrapResetScript`. */
  function SpikeDawgScript<V>(d: Dogs<V>, n: Addr): seq<Cmd<V>> {
    WrapResetScript(d.spike, n) + WrapResetScript(d.dawg, n + 1)
  }

  /** Starting from an empty `dog`, Spike (n) and Dawg (n + 1) are each freed once, in order. */
  lemma SpikeDawg<V>(w0: World<V>, deletes: bool, d: Dogs<V>)
    requires DogIs(w0, Handle(None, deletes))
    ensures var n := w0.heap.next; var r := Run(w0, SpikeDawgScript(d, n));
      && r.Done? && DogIs(r.world, Handle(None, true))
      && r.world.heap.log == w0.heap.log + [n, n + 1] && r.world.heap.next == n + 2
  {
    var n := w0.heap.next;
    WrapReset(w0, Handle(None, deletes), d.spike);
    var w1 := Run(w0, WrapResetScript(d.spike, n)).world;
    WrapReset(w1, Handle(None, true), d.dawg);
    var w2 := Run(w1, WrapResetScript(d.dawg, n + 1)).world;
    Then(w0, WrapResetScript(d.spike, n), WrapResetScript(d.dawg, n + 1), w1, w2);
  }

  /** Snoopy: `dog = make_managed<Dog>(...)`, `dog.disable_delete()`, `dog.reset()`. */
  function SnoopyScript<V>(v: V): seq<Cmd<V>> {
    AssignMadeCmds(v) + [SetFlag(DogVar, false)] + [ResetTo(DogVar, None)]
  }

  /**
    Assigning Snoopy (n) disposes of `dog`'s old object as usual; after
    `disable_delete()`, `reset()` empties `dog` without freeing Snoopy, which
    stays live and owned by no one, so the caller's own `delete` of it
    completes.
   */
  lemma Snoopy<V>(w0: World<V>, dog: Handle, v: V)
    requires DogIs(w0, dog)
    ensures var n := w0.heap.next; var r := Run(w0, SnoopyScript(v));
      && r.Done? && DogIs(r.world, Handle(None, false))
      && r.world.heap.log == w0.heap.log + Entry(Destroy(dog)) && r.world.heap.next == n + 1
      && n in r.world.heap.live && !Owned(r.world, n)
      && Exec(r.world, DeleteRaw(n)).Done?
  {
    var n := w0.heap.next;
    AssignMade(w0, dog, v);
    var w1 := Run(w0, AssignMadeCmds(v)).world;
    DisableDog(w1, Handle(Some(n), true));
    var w2 := Run(w1, [SetFlag(DogVar, false)]).world;
    ResetToNull(w2, Handle(Some(n), false));
    var w3 := Run(w2, [ResetTo(DogVar, None)]).world;
    Then3(w0, AssignMadeCmds(v), [SetFlag(DogVar, false)], [ResetTo(DogVar, None)], w1, w2, w3);
  }

  /** Scooby through the untyped view (address `n`), then `dog` going out of scope. */
  function ScoobyScript<V>(v: V, n: Addr): seq<Cmd<V>> {
    UntypedDeleteCmds(v, n) + [EndScope(DogVar)]
  }

  /**
    With `dog` empty: Scooby (n) is freed once by the untyped `delete`, and
    `dog` leaving the scope frees nothing; every other live object stays live.
   */
  lemma Scooby<V>(w0: World<V>, deletes: bool, v: V)
    requires DogIs(w0, Handle(None, deletes))
    ensures var n := w0.heap.next; var r := Run(w0, ScoobyScript(v, n));
      && r.Done? && r.world.vars == map[]
      && r.world.heap.log == w0.heap.log + [n] && r.world.heap.live == w0.heap.live
  {
    var n := w0.heap.next;
    UntypedDelete(w0, Handle(None, deletes), v);
    var w1 := Run(w0, UntypedDeleteCmds(v, n)).world;
    LeaveScope(w1, Handle(None, deletes));
    var w2 := Run(w1, [EndScope(DogVar)]).world;
    Then(w0, UntypedDeleteCmds(v, n), [EndScope(DogVar)], w1, w2);
  }

  /**
    The example's opening run from an empty heap: Fido (0), Lassie (2) and
    Spot (3) are freed, in that order; Rover (1) never is.
   */
  lemma FidoFromStart<V>(w0: World<V>, d: Dogs<V>)
    requires w0 == Initial<V>()
    ensures Run(w0, FidoScript(d, 0)).Done?
    ensures Run(w0, FidoScript(d, 0)).world.heap.log == [0, 2, 3]
  {
    FidoToNull(w0, d);
  }
}
