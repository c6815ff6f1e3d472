/**
  A program's worth of `managed_ptr` variables over one heap. Copying is
  deleted, so the only ways for an address to enter or leave a handle are
  the operations below. A command that breaks the caller's side of the
  contract (using an undeclared variable, redeclaring one, handing a handle
  an address that is dead or already owned, deleting an owned or dead
  address by hand) is `Misuse`. A handle asked to free an address that is
  no longer live would be a double free; `Exec` reports that as
  `DoubleFree` instead of freeing. The theorems below show that from a
  well-formed start no sequence of commands ever reaches `DoubleFree`.
 */
module Ownership {
  import opened Wrappers
  import opened Heap
  import opened ManagedPtr
  import MakeManaged

  /** A variable of type `managed_ptr<T>`, by name. Distinct names are distinct objects. */
  type Var = nat

  datatype World<V> = World(heap: Heap<V>, vars: map<Var, Handle>)

  datatype Cmd<V> =
    | Make(x: Var, value: V)                  // auto x = make_managed<T>(args...) / managed_ptr<T> x(T&&)
    | Wrap(x: Var, ptr: Ptr, deletes: bool)   // managed_ptr<T> x(ptr, deletes) / make_managed(ptr, deletes)
    | MoveNew(x: Var, from: Var)              // managed_ptr<T> x(std::move(from))
    | Assign(x: Var, from: Var)               // x = std::move(from)
    | SetFlag(x: Var, deletes: bool)          // x.set_deletes_pointer / enable_delete / disable_delete
    | ResetTo(x: Var, ptr: Ptr)               // x.reset(ptr)
    | ReleaseOwnership(x: Var)                // x.release()
    | EndScope(x: Var)                        // ~managed_ptr(), also `delete` through the untyped view
    | NewRaw(value: V)                        // new T(...) by the caller
    | DeleteRaw(addr: Addr)                   // delete by the caller

  /** What running a command comes to. */
  datatype Outcome<V> = Done(world: World<V>) | Misuse | DoubleFree

  /** Some variable holds `a`. */
  predicate Owned<V>(w: World<V>, a: Addr) {
    exists x :: x in w.vars && w.vars[x].ptr == Some(a)
  }

  /**
    The ownership invariant: the heap is well formed (so its free log has no
    duplicates), every held address is live, and no two variables hold the
    same address.
   */
  predicate Inv<V>(w: World<V>) {
    && Valid(w.heap)
    && (forall x :: x in w.vars && w.vars[x].ptr.Some? ==> w.vars[x].ptr.value in w.heap.live)
    && (forall x, y :: x in w.vars && y in w.vars && x != y && w.vars[x].ptr.Some? ==> w.vars[x].ptr != w.vars[y].ptr)
  }

  /** A pointer the caller may hand to a handle: null, or live and owned by no one. */
  predicate Adoptable<V>(w: World<V>, p: Ptr) {
    p.None? || (p.value in w.heap.live && !Owned(w, p.value))
  }

  /** The free log only grows, by at most one address per command. */
  predicate Grows<V>(w: World<V>, w': World<V>) {
    && |w.heap.log| <= |w'.heap.log| <= |w.heap.log| + 1
    && w'.heap.log[..|w.heap.log|] == w.heap.log
  }

  /** Before the program starts: an empty heap and no variables. */
  function Initial<V>(): (w: World<V>)
    ensures Inv(w) && w.heap.log == []
  {
    World(Empty(), map[])
  }

  /** Applies what a handle operation freed, unless that address is already dead. */
  function Settle<V>(w: World<V>, freed: Ptr, vars: map<Var, Handle>): (r: Outcome<V>)
    ensures r.DoubleFree? <==> freed.Some? && freed.value !in w.heap.live
    ensures r.Done? ==> r.world.vars == vars && r.world.heap == FreeOpt(w.heap, freed)
  {
    if freed.Some? && freed.value !in w.heap.live then DoubleFree
    else Done(World(FreeOpt(w.heap, freed), vars))
  }

  /** `auto x = make_managed<T>(value)`: a fresh variable owning a fresh address. */
  function ExecMake<V>(w: World<V>, x: Var, value: V): Outcome<V> {
    if x in w.vars then Misuse
    else
      var m := MakeManaged.MakeManaged(w.heap, value);
      Done(World(m.heap, w.vars[x := m.handle]))
  }

  /** `managed_ptr<T> x(p, deletes)`: a fresh variable adopting a pointer nobody owns. */
  function ExecWrap<V>(w: World<V>, x: Var, p: Ptr, deletes: bool): Outcome<V> {
    if x in w.vars || !Adoptable(w, p) then Misuse
    else Done(World(w.heap, w.vars[x := FromRaw(p, deletes)]))
  }

  /** `managed_ptr<T> x(std::move(y))`: a fresh variable taking over `y`'s pointer and flag. */
  function ExecMoveNew<V>(w: World<V>, x: Var, y: Var): Outcome<V> {
    if x in w.vars || y !in w.vars then Misuse
    else
      var m := MoveConstruct(w.vars[y]);
      Done(World(w.heap, w.vars[y := m.src][x := m.dst]))
  }

  /** `x = std::move(y)`: a no-op when `x` and `y` are the same object. */
  function ExecAssign<V>(w: World<V>, x: Var, y: Var): Outcome<V> {
    if x !in w.vars || y !in w.vars || (x != y && w.vars[x].ptr.Some? && w.vars[x].ptr == w.vars[y].ptr) then Misuse
    else if x == y then Done(w)
    else
      var m := MoveAssign(w.vars[x], w.vars[y]);
      Settle(w, m.freed, w.vars[x := m.dst][y := m.src])
  }

  /** `x.set_deletes_pointer(deletes)`. */
  function ExecSetFlag<V>(w: World<V>, x: Var, deletes: bool): Outcome<V> {
    if x !in w.vars then Misuse
    else Done(World(w.heap, w.vars[x := SetDeletesPointer(w.vars[x], deletes)]))
  }

  /**
    `x.reset(p)`, where `p` is null or a pointer nobody owns. Resetting `x` to
    the pointer it already holds changes nothing with deletion disabled, and
    would leave `x` dangling with deletion enabled.
   */
  function ExecReset<V>(w: World<V>, x: Var, p: Ptr): Outcome<V> {
    if x !in w.vars then Misuse
    else if p.Some? && p == w.vars[x].ptr then (if w.vars[x].deletes then Misuse else Done(w))
    else if !Adoptable(w, p) then Misuse
    else
      var s := Reset(w.vars[x], p);
      Settle(w, s.freed, w.vars[x := s.handle])
  }

  /** `x.release()`. */
  function ExecRelease<V>(w: World<V>, x: Var): Outcome<V> {
    if x !in w.vars then Misuse
    else Done(World(w.heap, w.vars[x := Release(w.vars[x]).handle]))
  }

  /** The end of `x`'s lifetime: its destructor runs and the variable is gone. */
  function ExecEndScope<V>(w: World<V>, x: Var): Outcome<V> {
    if x !in w.vars then Misuse
    else Settle(w, Destroy(w.vars[x]), w.vars - {x})
  }

  /** `delete a` by the caller, allowed only on a live address no variable owns. */
  function ExecDeleteRaw<V>(w: World<V>, a: Addr): Outcome<V> {
    if a !in w.heap.live || Owned(w, a) then Misuse
    else Done(World(Free(w.heap, a), w.vars))
  }

  /** Runs one command. */
  function Exec<V>(w: World<V>, c: Cmd<V>): (r: Outcome<V>)
  {
    match c
    case Make(x, value) => ExecMake(w, x, value)
    case Wrap(x, p, deletes) => ExecWrap(w, x, p, deletes)
    case MoveNew(x, y) => ExecMoveNew(w, x, y)
    case Assign(x, y) => ExecAssign(w, x, y)
    case SetFlag(x, deletes) => ExecSetFlag(w, x, deletes)
    case ResetTo(x, p) => ExecReset(w, x, p)
    case ReleaseOwnership(x) => ExecRelease(w, x)
    case EndScope(x) => ExecEndScope(w, x)
    case NewRaw(value) => Done(World(Alloc(w.heap, value).heap, w.vars))
    case DeleteRaw(a) => ExecDeleteRaw(w, a)
  }

  /** Runs commands in order, stopping at the first that does not complete. */
  function Run<V>(w: World<V>, cmds: seq<Cmd<V>>): (r: Outcome<V>)
    decreases |cmds|
  {
    if cmds == [] then Done(w)
    else
      match Exec(w, cmds[0])
      case Done(w') => Run(w', cmds[1..])
      case Misuse => Misuse
      case DoubleFree => DoubleFree
  }

  /** A command that completes only appends to the free log, at most one address. */
  lemma ExecGrows<V>(w: World<V>, c: Cmd<V>)
    ensures Exec(w, c).Done? ==> Grows(w, Exec(w, c).world)
  {
  }

  /** A run that completes only appends to the free log: what was freed before stays freed, in order. */
  lemma {:induction false} RunGrows<V>(w: World<V>, cmds: seq<Cmd<V>>)
    ensures Run(w, cmds).Done? ==>
              |w.heap.log| <= |Run(w, cmds).world.heap.log| && Run(w, cmds).world.heap.log[..|w.heap.log|] == w.heap.log
    decreases |cmds|
  {
    if cmds != [] && Exec(w, cmds[0]).Done? && Run(Exec(w, cmds[0]).world, cmds[1..]).Done? {
      var w1 := Exec(w, cmds[0]).world;
      ExecGrows(w, cmds[0]);
      RunGrows(w1, cmds[1..]);
      var log := Run(w1, cmds[1..]).world.heap.log;
      assert log[..|w1.heap.log|][..|w.heap.log|] == log[..|w.heap.log|];
    }
  }

  /** Running a non-empty script is running its first command, then the rest. */
  lemma RunStep<V>(w: World<V>, c: Cmd<V>, rest: seq<Cmd<V>>)
    requires Exec(w, c).Done?
    ensures Run(w, [c] + rest) == Run(Exec(w, c).world, rest)
  {
    assert ([c] + rest)[0] == c && ([c] + rest)[1..] == rest;
  }

  /** Running two scripts back to back is running their concatenation. */
  lemma {:induction false} RunAppend<V>(w: World<V>, s: seq<Cmd<V>>, t: seq<Cmd<V>>)
    requires Run(w, s).Done?
    ensures Run(w, s + t) == Run(Run(w, s).world, t)
    decreases |s|
  {
    if s == [] {
      assert s + t == t;
    } else {
      var w1 := Exec(w, s[0]).world;
      assert (s + t)[0] == s[0] && (s + t)[1..] == s[1..] + t;
      RunAppend(w1, s[1..], t);
    }
  }

  // ---------------------------------------------------------- theorems

  /** One command keeps the ownership invariant, and no handle is ever asked to free a dead address. */
  lemma ExecKeepsInv<V>(w: World<V>, c: Cmd<V>)
    requires Inv(w)
    ensures !Exec(w, c).DoubleFree?
    ensures Exec(w, c).Done? ==> Inv(Exec(w, c).world)
  {
    match c
    case Make(x, value) => MakeKeepsInv(w, x, value);
    case Wrap(x, p, deletes) => WrapKeepsInv(w, x, p, deletes);
    case MoveNew(x, y) => MoveNewKeepsInv(w, x, y);
    case Assign(x, y) => AssignKeepsInv(w, x, y);
    case SetFlag(x, deletes) => SetFlagKeepsInv(w, x, deletes);
    case ResetTo(x, p) => ResetKeepsInv(w, x, p);
    case ReleaseOwnership(x) => ReleaseKeepsInv(w, x);
    case EndScope(x) => EndScopeKeepsInv(w, x);
    case NewRaw(value) => AllocKeepsValid(w.heap, value);
    case DeleteRaw(a) => DeleteRawKeepsInv(w, a);
  }

  lemma MakeKeepsInv<V>(w: World<V>, x: Var, value: V)
    requires Inv(w)
    ensures ExecMake(w, x, value).Done? ==> Inv(ExecMake(w, x, value).world)
  {
    MakeManaged.MakeManagedFresh(w.heap, value);
  }

  lemma WrapKeepsInv<V>(w: World<V>, x: Var, p: Ptr, deletes: bool)
    requires Inv(w)
    ensures ExecWrap(w, x, p, deletes).Done? ==> Inv(ExecWrap(w, x, p, deletes).world)
  {
  }

  lemma MoveNewKeepsInv<V>(w: World<V>, x: Var, y: Var)
    requires Inv(w)
    ensures ExecMoveNew(w, x, y).Done? ==> Inv(ExecMoveNew(w, x, y).world)
  {
  }

  lemma AssignKeepsInv<V>(w: World<V>, x: Var, y: Var)
    requires Inv(w)
    ensures !ExecAssign(w, x, y).DoubleFree?
    ensures ExecAssign(w, x, y).Done? ==> Inv(ExecAssign(w, x, y).world)
  {
    if x in w.vars && y in w.vars && x != y && (w.vars[x].ptr.None? || w.vars[x].ptr != w.vars[y].ptr) {
      FreeOptKeepsValid(w.heap, MoveAssign(w.vars[x], w.vars[y]).freed);
    }
  }

  lemma SetFlagKeepsInv<V>(w: World<V>, x: Var, deletes: bool)
    requires Inv(w)
    ensures ExecSetFlag(w, x, deletes).Done? ==> Inv(ExecSetFlag(w, x, deletes).world)
  {
  }

  lemma ResetKeepsInv<V>(w: World<V>, x: Var, p: Ptr)
    requires Inv(w)
    ensures !ExecReset(w, x, p).DoubleFree?
    ensures ExecReset(w, x, p).Done? ==> Inv(ExecReset(w, x, p).world)
  {
    if x in w.vars && (p.None? || p != w.vars[x].ptr) && Adoptable(w, p) {
      FreeOptKeepsValid(w.heap, Reset(w.vars[x], p).freed);
    }
  }

  lemma ReleaseKeepsInv<V>(w: World<V>, x: Var)
    requires Inv(w)
    ensures ExecRelease(w, x).Done? ==> Inv(ExecRelease(w, x).world)
  {
  }

  lemma EndScopeKeepsInv<V>(w: World<V>, x: Var)
    requires Inv(w)
    ensures !ExecEndScope(w, x).DoubleFree?
    ensures ExecEndScope(w, x).Done? ==> Inv(ExecEndScope(w, x).world)
  {
    if x in w.vars {
      FreeOptKeepsValid(w.heap, Destroy(w.vars[x]));
    }
  }

  lemma DeleteRawKeepsInv<V>(w: World<V>, a: Addr)
    requires Inv(w)
    ensures ExecDeleteRaw(w, a).Done? ==> Inv(ExecDeleteRaw(w, a).world)
  {
    if a in w.heap.live && !Owned(w, a) {
      FreeKeepsValid(w.heap, a);
    }
  }

  /** Any sequence of commands keeps the invariant and never frees an address twice. */
  lemma {:induction false} RunKeepsInv<V>(w: World<V>, cmds: seq<Cmd<V>>)
    requires Inv(w)
    ensures !Run(w, cmds).DoubleFree?
    ensures Run(w, cmds).Done? ==> Inv(Run(w, cmds).world)
    decreases |cmds|
  {
    if cmds != [] {
      ExecKeepsInv(w, cmds[0]);
      if Exec(w, cmds[0]).Done? {
        RunKeepsInv(Exec(w, cmds[0]).world, cmds[1..]);
      }
    }
  }

  /**
    Across any run of the program, no handle is ever asked to free an address
    twice, and every address in the free log was freed exactly once.
   */
  lemma {:induction false} NoDoubleFree<V>(cmds: seq<Cmd<V>>, a: Addr)
    ensures !Run(Initial<V>(), cmds).DoubleFree?
    ensures Run(Initial<V>(), cmds).Done? && a in Run(Initial<V>(), cmds).world.heap.log ==>
              Count(Run(Initial<V>(), cmds).world.heap.log, a) == 1
  {
    RunKeepsInv(Initial<V>(), cmds);
    var r := Run(Initial<V>(), cmds);
    if r.Done? && a in r.world.heap.log {
      var log := r.world.heap.log;
      var k :| 0 <= k < |log| && log[k] == a;
      NoDupCountOne(log, k);
    }
  }

  /**
    Exactly-once freeing under the flag: destroying a variable that holds `a`
    with deletion enabled frees `a` now, and nothing that runs afterwards
    frees it again.
   */
  lemma {:induction false} FreedExactlyOnce<V>(w: World<V>, x: Var, a: Addr, rest: seq<Cmd<V>>)
    requires Inv(w) && x in w.vars && w.vars[x] == Handle(Some(a), true)
    ensures Exec(w, EndScope(x)).Done?
    ensures Exec(w, EndScope(x)).world.heap.log == w.heap.log + [a]
    ensures !Run(Exec(w, EndScope(x)).world, rest).DoubleFree?
    ensures Run(Exec(w, EndScope(x)).world, rest).Done? ==>
              Count(Run(Exec(w, EndScope(x)).world, rest).world.heap.log, a) == 1
  {
    ExecKeepsInv(w, EndScope(x));
    var w1 := Exec(w, EndScope(x)).world;
    RunKeepsInv(w1, rest);
    RunGrows(w1, rest);
    var r := Run(w1, rest);
    if r.Done? {
      var log := r.world.heap.log;
      assert log[|w.heap.log|] == w1.heap.log[|w.heap.log|] == a;
      NoDupCountOne(log, |w.heap.log|);
    }
  }

  /** With deletion disabled, destroying a variable frees nothing and leaves its object live and unowned. */
  lemma DisabledDestroyLeaks<V>(w: World<V>, x: Var, a: Addr)
    requires Inv(w) && x in w.vars && w.vars[x] == Handle(Some(a), false)
    ensures Exec(w, EndScope(x)).Done?
    ensures Exec(w, EndScope(x)).world.heap == w.heap
    ensures a in w.heap.live && !Owned(Exec(w, EndScope(x)).world, a)
  {
  }

  /**
    `release()` never frees: the heap is untouched, whatever the flag, and the
    object stays live but owned by no variable, so the caller may delete it
    once.
   */
  lemma ReleaseNeverFrees<V>(w: World<V>, x: Var)
    requires Inv(w) && x in w.vars
    ensures Exec(w, ReleaseOwnership(x)).Done?
    ensures Exec(w, ReleaseOwnership(x)).world.heap == w.heap
    ensures w.vars[x].ptr.Some? ==>
              var a := w.vars[x].ptr.value;
              && a in w.heap.live
              && !Owned(Exec(w, ReleaseOwnership(x)).world, a)
              && Exec(Exec(w, ReleaseOwnership(x)).world, DeleteRaw(a)).Done?
  {
  }

  /** Self-move-assignment changes nothing. */
  lemma SelfMoveIsNoOp<V>(w: World<V>, x: Var)
    requires x in w.vars
    ensures Exec(w, Assign(x, x)) == Done(w)
  {
  }

  /**
    Move assignment between distinct variables frees the destination's old
    object iff it was non-null and the destination's old flag was set; the
    destination then holds the source's pointer and flag, and the source is
    null with its flag kept.
   */
  lemma MoveAssignInWorld<V>(w: World<V>, x: Var, y: Var)
    requires Inv(w) && x in w.vars && y in w.vars && x != y
    ensures Exec(w, Assign(x, y)).Done?
    ensures var w1 := Exec(w, Assign(x, y)).world;
      && w1.vars[x] == w.vars[y]
      && w1.vars[y] == Handle(None, w.vars[y].deletes)
      && (if w.vars[x].ptr.Some? && w.vars[x].deletes
          then w1.heap.log == w.heap.log + [w.vars[x].ptr.value]
          else w1.heap == w.heap)
  {
  }

  /** With deletion disabled, `x.reset(x.get())` is a no-op. */
  lemma DisabledSelfResetInWorld<V>(w: World<V>, x: Var)
    requires x in w.vars && !w.vars[x].deletes
    ensures Exec(w, ResetTo(x, w.vars[x].ptr)) == Done(w)
  {
  }
}
