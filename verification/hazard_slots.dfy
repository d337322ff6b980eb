/** The slot array of one hazard handle, as a value: each slot holds an address and the
    delete mark that `mark_pointer.hpp` keeps in the topmost bit of the same word. */
module HazardSlots {

  type Ptr = nat

  const NULL: Ptr := 0

  datatype Slot = Slot(ptr: Ptr, mark: bool)

  const EMPTY := Slot(NULL, false)

  /** The slot at an index; out of range reads as empty. */
  function At(slots: seq<Slot>, k: int): Slot {
    if 0 <= k < |slots| then slots[k] else EMPTY
  }

  function Put(slots: seq<Slot>, k: int, x: Slot): (r: seq<Slot>)
    ensures |r| == |slots|
  {
    if 0 <= k < |slots| then slots[k := x] else slots
  }

  /** The addresses in the slots, marks dropped. */
  function Ptrs(slots: seq<Slot>): (r: seq<Ptr>)
    ensures |r| == |slots|
    ensures forall k :: 0 <= k < |slots| ==> r[k] == slots[k].ptr
  {
    seq(|slots|, k requires 0 <= k < |slots| => slots[k].ptr)
  }

  function Occupancy(slots: seq<Slot>): multiset<Ptr> {
    multiset(Ptrs(slots))
  }

  /** The highest index below `n` that holds `p`, or -1. */
  function Topmost(slots: seq<Slot>, n: int, p: Ptr): (k: int)
    requires n <= |slots|
    ensures k == -1 || 0 <= k < n
    ensures k >= 0 ==> slots[k].ptr == p
    ensures forall j :: 0 <= j < n && k < j ==> slots[j].ptr != p
  {
    if n <= 0 then -1
    else if slots[n - 1].ptr == p then n - 1
    else Topmost(slots, n - 1, p)
  }

  lemma OccupancyUpdate(slots: seq<Slot>, k: int, x: Slot)
    requires 0 <= k < |slots|
    ensures Occupancy(slots[k := x]) == Occupancy(slots) - multiset{slots[k].ptr} + multiset{x.ptr}
    ensures Occupancy(slots)[slots[k].ptr] > 0
  {
    assert Ptrs(slots[k := x]) == Ptrs(slots)[k := x.ptr];
    assert Ptrs(slots)[k] in Ptrs(slots);
  }

  lemma OccupancyWitness(slots: seq<Slot>, p: Ptr) returns (k: nat)
    requires Occupancy(slots)[p] > 0
    ensures k < |slots| && slots[k].ptr == p
  {
    assert p in Ptrs(slots);
    k :| k < |slots| && Ptrs(slots)[k] == p;
  }

  lemma OccupancyIndex(slots: seq<Slot>, k: int)
    requires 0 <= k < |slots|
    ensures Occupancy(slots)[slots[k].ptr] > 0
  {
    assert Ptrs(slots)[k] in Ptrs(slots);
  }
}
