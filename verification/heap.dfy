/**
  An abstract heap that stands in for `new` and `delete`: a map of live
  addresses to the objects they hold, a log of every address freed (in
  order), and the next address allocation will hand out. No real memory is
  involved; freeing is recorded, never performed.
 */
module Heap {
  import opened Wrappers

  type Addr = nat

  datatype Heap<V> = Heap(live: map<Addr, V>, log: seq<Addr>, next: Addr)

  /** No address occurs twice in `s`. */
  predicate NoDup(s: seq<Addr>) {
    forall i, j :: 0 <= i < j < |s| ==> s[i] != s[j]
  }

  /** Number of times `a` occurs in `s`. */
  function Count(s: seq<Addr>, a: Addr): nat {
    if s == [] then 0 else (if s[0] == a then 1 else 0) + Count(s[1..], a)
  }

  /**
    A well-formed heap: every live or freed address was handed out before,
    nothing freed is live again, and no address was freed twice.
   */
  predicate Valid<V>(h: Heap<V>) {
    && (forall a :: a in h.live ==> a < h.next)
    && (forall i :: 0 <= i < |h.log| ==> h.log[i] < h.next && h.log[i] !in h.live)
    && NoDup(h.log)
  }

  /** The heap before anything is allocated. */
  function Empty<V>(): (h: Heap<V>)
    ensures Valid(h) && h.live == map[] && h.log == []
  {
    Heap(map[], [], 0)
  }

  datatype Allocated<V> = Allocated(heap: Heap<V>, addr: Addr)

  /** `new T(value)`: the next address, now holding `value`; nothing is freed. */
  function Alloc<V>(h: Heap<V>, value: V): (r: Allocated<V>)
    ensures r.heap.live == h.live[r.addr := value]
    ensures r.heap.log == h.log && r.heap.next > r.addr
  {
    Allocated(Heap(h.live[h.next := value], h.log, h.next + 1), h.next)
  }

  /**
    In a well-formed heap the address `new` hands out is fresh: neither live
    nor ever freed, and the heap stays well formed.
   */
  lemma AllocKeepsValid<V>(h: Heap<V>, value: V)
    requires Valid(h)
    ensures Alloc(h, value).addr !in h.live && Alloc(h, value).addr !in h.log
    ensures Valid(Alloc(h, value).heap)
  {
  }

  /** `delete a`: only a live address may be freed; it leaves the live set and is appended to the log. */
  function Free<V>(h: Heap<V>, a: Addr): (r: Heap<V>)
    requires a in h.live
    ensures a !in r.live && r.live == h.live - {a}
    ensures r.log == h.log + [a] && r.next == h.next
  {
    Heap(h.live - {a}, h.log + [a], h.next)
  }

  /** Freeing keeps a well-formed heap well formed, with the freed address logged exactly once. */
  lemma FreeKeepsValid<V>(h: Heap<V>, a: Addr)
    requires Valid(h) && a in h.live
    ensures Valid(Free(h, a)) && Count(Free(h, a).log, a) == 1
  {
    var r := Free(h, a);
    assert NoDup(r.log) by {
      forall i, j | 0 <= i < j < |r.log| ensures r.log[i] != r.log[j] {
        if j == |h.log| {
          assert r.log[i] == h.log[i];
        }
      }
    }
    NoDupCountOne(r.log, |h.log|);
  }

  /** Frees the address if there is one; `None` frees nothing. */
  function FreeOpt<V>(h: Heap<V>, freed: Option<Addr>): (r: Heap<V>)
    requires freed.Some? ==> freed.value in h.live
    ensures r.next == h.next
    ensures freed.None? ==> r == h
    ensures freed.Some? ==> r.log == h.log + [freed.value] && r.live == h.live - {freed.value}
  {
    if freed.Some? then Free(h, freed.value) else h
  }

  /** Freeing a live address, or nothing, keeps a well-formed heap well formed. */
  lemma FreeOptKeepsValid<V>(h: Heap<V>, freed: Option<Addr>)
    requires Valid(h) && (freed.Some? ==> freed.value in h.live)
    ensures Valid(FreeOpt(h, freed))
  {
    if freed.Some? {
      FreeKeepsValid(h, freed.value);
    }
  }

  /** In a sequence without duplicates, the element at index `k` occurs exactly once. */
  lemma {:induction false} NoDupCountOne(s: seq<Addr>, k: nat)
    requires NoDup(s) && k < |s|
    ensures Count(s, s[k]) == 1
  {
    if k == 0 {
      CountAbsent(s[1..], s[0]);
    } else {
      assert s[1..][k - 1] == s[k];
      assert NoDup(s[1..]) by {
        forall i, j | 0 <= i < j < |s[1..]| ensures s[1..][i] != s[1..][j] {
          assert s[1..][i] == s[i + 1] && s[1..][j] == s[j + 1];
        }
      }
      NoDupCountOne(s[1..], k - 1);
    }
  }

  /** An address absent from `s` occurs zero times. */
  lemma {:induction false} CountAbsent(s: seq<Addr>, a: Addr)
    requires forall i :: 0 <= i < |s| ==> s[i] != a
    ensures Count(s, a) == 0
  {
    if s != [] {
      assert forall i :: 0 <= i < |s[1..]| ==> s[1..][i] == s[i + 1];
      CountAbsent(s[1..], a);
    }
  }
}
