/** The internal handle of the hazard manager as the object it is: a counter and an array of
    slots, its operations run by the owner with nobody in between. */
module HazardHandle {
  import opened HazardSlots
  import opened CellReads
  import P = HazardProtocol

  datatype IState = NotFound | Marked | Unmarked

  function StateOf(x: Slot): IState {
    if x.mark then Marked else Unmarked
  }

  /** Slots and counter after `remove`: the topmost copy of `p` is replaced by the last slot. */
  function Removed(slots: seq<Slot>, n: int, p: Ptr): (r: seq<Slot>)
    requires 0 <= n <= |slots|
    ensures |r| == |slots|
  {
    var pos := Topmost(slots, n, p);
    if pos < 0 then slots else slots[pos := slots[n - 1]][n - 1 := EMPTY]
  }

  class InternalHandle {
    var counter: int
    const slots: array<Slot>

    ghost predicate Valid()
      reads this, slots
    {
      && 0 <= counter <= slots.Length
      && (forall k :: 0 <= k < counter ==> slots[k].ptr != NULL)
      && (forall k :: counter <= k < slots.Length ==> slots[k] == EMPTY)
    }

    constructor (maxProtections: nat)
      ensures Valid() && fresh(slots) && slots.Length == maxProtections && counter == 0
    {
      slots := new Slot[maxProtections](_ => EMPTY);
      counter := 0;
    }

    method Insert(p: Ptr) returns (pos: int)
      requires Valid() && counter < slots.Length && p != NULL
      modifies this`counter, slots
      ensures Valid() && pos == old(counter) && counter == old(counter) + 1
      ensures slots[..] == old(slots[..])[pos := Slot(p, false)]
    {
      pos := counter;
      counter := counter + 1;
      slots[pos] := Slot(p, false);
    }

    method Find(p: Ptr) returns (pos: int)
      requires Valid()
      ensures pos == Topmost(slots[..], counter, p)
    {
      var i := counter - 1;
      while i >= 0
        invariant -1 <= i < counter
        invariant Topmost(slots[..], counter, p) == Topmost(slots[..], i + 1, p)
      {
        if slots[i].ptr == p { return i; }
        i := i - 1;
      }
      return -1;
    }

    method Remove(p: Ptr) returns (st: IState, pos: int)
      requires Valid() && p != NULL
      modifies this`counter, slots
      ensures Valid() && pos == Topmost(old(slots[..]), old(counter), p)
      ensures slots[..] == Removed(old(slots[..]), old(counter), p)
      ensures counter == old(counter) - (if pos < 0 then 0 else 1)
      ensures st == if pos < 0 then NotFound else StateOf(old(slots[pos]))
    {
      pos := Find(p);
      if pos < 0 { return NotFound, -1; }
      var tsize := counter;
      if pos == tsize - 1 {
        counter := counter - 1;
        var temp := slots[pos];
        slots[pos] := EMPTY;
        return StateOf(temp), pos;
      }
      var lastPtr := slots[tsize - 1];
      var temp := slots[pos];
      slots[pos] := lastPtr;
      var wasMarked := temp.mark;
      counter := counter - 1;
      temp := slots[tsize - 1];
      slots[tsize - 1] := EMPTY;
      if lastPtr != temp { slots[pos] := temp; }
      st := if wasMarked then Marked else Unmarked;
    }

    /** Valid, but for a null in slot `i`. */
    ghost predicate Holed(i: nat)
      reads this, slots
    {
      && i < counter <= slots.Length && slots[i] == EMPTY
      && (forall k :: 0 <= k < counter && k != i ==> slots[k].ptr != NULL)
      && (forall k :: counter <= k < slots.Length ==> slots[k] == EMPTY)
    }

    method Replace(i: nat, p: Ptr) returns (st: IState)
      requires Valid() && i < counter
      modifies slots
      ensures if p == NULL then Holed(i) else Valid()
      ensures slots[..] == old(slots[..])[i := Slot(p, false)]
      ensures st == StateOf(old(slots[i]))
    {
      var temp := slots[i];
      slots[i] := Slot(p, false);
      st := StateOf(temp);
    }

    /** `_counter.fetch_sub(1)` when the last slot has been emptied. */
    method FetchSub()
      requires counter > 0 && Holed(counter - 1)
      modifies this`counter
      ensures Valid() && counter == old(counter) - 1
    {
      counter := counter - 1;
    }

    /** protect, while others change the cell and nobody marks the slot: ends with the slot holding
        what two reads in a row agreed on, and without a slot if it meets a null. */
    method Protect(seen: seq<Ptr>) returns (p: Ptr)
      requires Valid() && counter < slots.Length && seen != []
      modifies this`counter, slots
      ensures Valid() && p == seen[Stop(seen, NULL)]
      ensures slots[..] == if p == NULL then old(slots[..]) else old(slots[..])[old(counter) := Slot(p, false)]
      ensures counter == old(counter) + if p == NULL then 0 else 1
    {
      var temp0 := seen[0];
      if temp0 == NULL { return NULL; }
      var pos := Insert(temp0);
      var temp1 := Look(seen, 1);
      var k := 0;
      while temp0 != temp1
        invariant k < |seen| && temp0 == seen[k] && temp1 == Look(seen, k + 1)
        invariant forall j :: 0 <= j <= k ==> seen[j] != NULL
        invariant forall j :: 0 <= j < k ==> seen[j + 1] != seen[j]
        invariant Valid() && pos == old(counter) && counter == pos + 1
        invariant slots[..] == old(slots[..])[pos := Slot(temp0, false)]
        decreases |seen| - k
      {
        var state := Replace(pos, temp1);
        if state == Marked { assert false; }    // alone nobody has parked a mark for continue_deletion
        k := k + 1;
        if temp1 == NULL {
          StopHere(seen, NULL, k);
          FetchSub();
          return NULL;
        }
        temp0 := temp1;
        temp1 := Look(seen, k + 1);
      }
      StopHere(seen, NULL, k);
      p := temp1;
    }

    /** Marks the topmost copy of `p` at or below `start`, if there is one. */
    method Mark(p: Ptr, start: int) returns (st: IState)
      requires Valid() && p != NULL && start < slots.Length
      modifies slots
      ensures Valid()
      ensures var from := if start < 0 then counter else start + 1;
              var k := Topmost(old(slots[..]), from, p);
        && slots[..] == (if k < 0 then old(slots[..]) else old(slots[..])[k := Slot(p, true)])
        && st == (if k < 0 then NotFound else StateOf(old(slots[k])))
    {
      var i := if start < 0 then counter - 1 else start;
      ghost var from := i + 1;
      while i >= 0
        invariant -1 <= i < from <= slots.Length && slots[..] == old(slots[..])
        invariant Topmost(slots[..], from, p) == Topmost(slots[..], i + 1, p)
      {
        var temp := slots[i];
        if temp.ptr == p {
          if temp.mark {
            assert slots[..] == slots[..][i := Slot(p, true)];
            return Marked;
          }
          slots[i] := Slot(p, true);
          return Unmarked;
        }
        i := i - 1;
      }
      return NotFound;
    }
  }

  /** Removing takes away one copy of `p` and moves every other slot's content, mark included. */
  lemma RemovedTakesOne(slots: seq<Slot>, n: int, p: Ptr)
    requires 0 <= n <= |slots| && Topmost(slots, n, p) >= 0
    ensures multiset(Removed(slots, n, p)) == multiset(slots) - multiset{slots[Topmost(slots, n, p)]} + multiset{EMPTY}
  {
    var pos := Topmost(slots, n, p);
    var moved := slots[pos := slots[n - 1]];
    assert multiset(moved) == multiset(slots) - multiset{slots[pos]} + multiset{slots[n - 1]};
    assert slots[pos] in slots;
  }

  // ---------------------------------------------------------------- the same, step by step

  /** `k` owner steps in a row, with no other thread in between. */
  function Alone(h: P.Handle, i: int, k: nat): P.Handle
    decreases k
  {
    if k == 0 then h else Alone(P.Advance(h, i, 0, NULL), i, k - 1)
  }

  lemma Alone2(h: P.Handle, i: int)
    ensures Alone(h, i, 2) == P.Advance(P.Advance(h, i, 0, NULL), i, 0, NULL)
  {
    hide P.Advance;
    var h1 := P.Advance(h, i, 0, NULL);
    assert Alone(h, i, 2) == Alone(h1, i, 1);
    assert Alone(h1, i, 1) == Alone(P.Advance(h1, i, 0, NULL), i, 0);
  }

  /** The interleaved steps of `unprotect`, when nobody comes between them, leave the slots as
      the method `Remove` does, and a deletion to continue exactly if it reports a mark. */
  lemma RemoveAlone(h: P.Handle, i: int, p: Ptr) returns (k: nat)
    requires P.Resting(h) && p != NULL && 0 <= h.counter <= |h.slots|
    ensures var h', pos := Alone(P.StartRemove(h, p), i, k), Topmost(h.slots, h.counter, p);
      && h'.pc.Idle?
      && h'.slots == Removed(h.slots, h.counter, p)
      && h'.counter == h.counter - (if pos < 0 then 0 else 1)
      && h'.scan == if pos >= 0 && h.slots[pos].mark then P.Scan(p, P.AtSlot(i, pos)) else P.NoScan
  {
    var pos, h1 := Topmost(h.slots, h.counter, p), P.StartRemove(h, p);
    if pos < 0 {
      k := 0;
    } else if pos == h.counter - 1 {
      k := 2;
      Alone2(h1, i);
    } else {
      k := 4;
      RemoveAloneSwap(h, i, p, pos);
    }
  }

  lemma RemoveAloneSwap(h: P.Handle, i: int, p: Ptr, pos: int)
    requires P.Resting(h) && 0 <= h.counter <= |h.slots|
    requires pos == Topmost(h.slots, h.counter, p) && 0 <= pos < h.counter - 1
    ensures var h' := Alone(P.StartRemove(h, p), i, 4);
      && h'.pc.Idle?
      && h'.slots == Removed(h.slots, h.counter, p)
      && h'.counter == h.counter - 1
      && h'.scan == if h.slots[pos].mark then P.Scan(p, P.AtSlot(i, pos)) else P.NoScan
  {
    var h1 := P.StartRemove(h, p);
    assert h1 == h.(pc := P.MovLoad(p, pos, h.counter), valid := h1.valid);
    SwapSteps(h1, i, p, pos, h.counter);
    hide P.Advance, P.StartRemove;
    Alone2(h1, i);
    FourSteps(h1, i);
  }

  lemma FourSteps(h: P.Handle, i: int)
    ensures Alone(h, i, 4) == Alone(Alone(h, i, 2), i, 2)
  {
    hide P.Advance;
    Alone2(h, i);
    assert Alone(h, i, 4) == Alone(P.Advance(h, i, 0, NULL), i, 3);
  }

  lemma SwapSteps(h: P.Handle, i: int, p: Ptr, pos: int, n: int)
    requires h.pc == P.MovLoad(p, pos, n) && 0 <= pos < n - 1 < |h.slots| && h.counter == n && h.scan.NoScan?
    ensures var slots := h.slots[pos := h.slots[n - 1]];
      Alone(Alone(h, i, 2), i, 2) == h.(pc := P.Idle, counter := n - 1, slots := slots[n - 1 := EMPTY],
                                        scan := if h.slots[pos].mark then P.Scan(p, P.AtSlot(i, pos)) else P.NoScan)
  {
    var last := h.slots[n - 1];
    var h1 := h.(pc := P.MovDec(p, pos, n, last, h.slots[pos].mark), slots := h.slots[pos := last]);
    assert Alone(h, i, 2) == h1 by { Alone2(h, i); }
    AfterSwap(h1, i, p, pos, n, last, h.slots[pos].mark);
  }

  lemma AfterSwap(h: P.Handle, i: int, p: Ptr, pos: int, n: int, last: Slot, due: bool)
    requires h.pc == P.MovDec(p, pos, n, last, due) && 0 <= pos < n - 1 < |h.slots| && h.counter == n
    requires h.slots[n - 1] == last && h.scan.NoScan?
    ensures Alone(h, i, 2) == h.(pc := P.Idle, counter := n - 1, slots := h.slots[n - 1 := EMPTY],
                                 scan := if due then P.Scan(p, P.AtSlot(i, pos)) else P.NoScan)
  {
    Alone2(h, i);
  }
}
