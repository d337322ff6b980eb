/** hazard_manager with its handles as objects, the operations run by one thread with nobody in
    between: retiring, giving up a protection, and handing the duty to delete on. */
module HazardObject {
  import opened HazardSlots
  import opened HazardHandle
  import opened CellReads

  // ---------------------------------------------------------------- what the operations do, as values

  /** One handle: its slots, its counter, and whether it was given back for reuse. */
  datatype Table = Table(slots: seq<Slot>, counter: int, free: bool)

  /** All handles up to _handle_counter, and whether the operation called the destructor. */
  datatype Outcome = Outcome(tables: seq<Table>, destroyed: bool)

  ghost predicate Sound(v: seq<Table>) {
    forall i :: 0 <= i < |v| ==> 0 <= v[i].counter <= |v[i].slots|
  }

  /** The topmost copy of `p` below slot `n`, marked. */
  function MarkedAt(t: Table, n: int, p: Ptr): (r: Table)
    requires n <= |t.slots|
    ensures |r.slots| == |t.slots| && r.counter == t.counter && r.free == t.free
  {
    var k := Topmost(t.slots, n, p);
    if k < 0 then t else t.(slots := t.slots[k := Slot(p, true)])
  }

  /** The first handle from `start` down that is in use and holds `p`, -1 if there is none. */
  function Holder(v: seq<Table>, start: int, p: Ptr): (i: int)
    requires start < |v| && Sound(v)
    ensures -1 <= i <= start || (i == -1 && start < 0)
    ensures i >= 0 ==> !v[i].free && Topmost(v[i].slots, v[i].counter, p) >= 0
    ensures forall j :: 0 <= j && i < j <= start ==> v[j].free || Topmost(v[j].slots, v[j].counter, p) < 0
  {
    if start < 0 then -1
    else if !v[start].free && Topmost(v[start].slots, v[start].counter, p) >= 0 then start
    else Holder(v, start - 1, p)
  }

  function Scanned(v: seq<Table>, start: int, p: Ptr): Outcome
    requires start < |v| && Sound(v)
  {
    var i := Holder(v, start, p);
    if i < 0 then Outcome(v, true) else Outcome(v[i := MarkedAt(v[i], v[i].counter, p)], false)
  }

  /** One turn of the loop: the scan ends at `i` or goes on below. */
  lemma ScanHere(v: seq<Table>, start: int, i: int, p: Ptr)
    requires -1 <= i <= start < |v| && Sound(v) && Holder(v, start, p) == Holder(v, i, p)
    ensures i < 0 ==> Scanned(v, start, p) == Outcome(v, true)
    ensures i >= 0 && !v[i].free && Topmost(v[i].slots, v[i].counter, p) >= 0 ==>
      Scanned(v, start, p) == Outcome(v[i := MarkedAt(v[i], v[i].counter, p)], false)
    ensures i >= 0 && (v[i].free || Topmost(v[i].slots, v[i].counter, p) < 0) ==>
      Holder(v, start, p) == Holder(v, i - 1, p)
  {
  }

  function Continued(v: seq<Table>, id: int, pos: int, p: Ptr): Outcome
    requires 0 <= id < |v| && Sound(v) && pos < |v[id].slots|
  {
    if Topmost(v[id].slots, pos + 1, p) >= 0
    then Outcome(v[id := MarkedAt(v[id], pos + 1, p)], false)
    else Scanned(v, id - 1, p)
  }

  /** Handle `t` without its topmost copy of `p`. */
  function Without(t: Table, p: Ptr): (r: Table)
    requires 0 <= t.counter <= |t.slots|
    ensures |r.slots| == |t.slots| && 0 <= r.counter <= |r.slots|
  {
    var k := Topmost(t.slots, t.counter, p);
    Table(Removed(t.slots, t.counter, p), t.counter - (if k < 0 then 0 else 1), t.free)
  }

  function GivenUp(v: seq<Table>, id: int, p: Ptr): Outcome
    requires 0 <= id < |v| && Sound(v)
  {
    var k, v' := Topmost(v[id].slots, v[id].counter, p), v[id := Without(v[id], p)];
    if k < 0 || !v[id].slots[k].mark then Outcome(v', false) else Continued(v', id, k, p)
  }

  // ---------------------------------------------------------------- the duty is handed on, not lost

  /** How many slots of a handle carry a mark for `p`. */
  function MarksIn(slots: seq<Slot>, p: Ptr): nat {
    multiset(slots)[Slot(p, true)]
  }

  function Marks(v: seq<Table>, p: Ptr): nat {
    if v == [] then 0 else Marks(v[..|v| - 1], p) + MarksIn(v[|v| - 1].slots, p)
  }

  lemma {:induction false} MarksUpdate(v: seq<Table>, i: nat, t: Table, p: Ptr)
    requires i < |v|
    ensures Marks(v[i := t], p) == Marks(v, p) - MarksIn(v[i].slots, p) + MarksIn(t.slots, p)
  {
    var n := |v| - 1;
    if i == n {
      assert v[i := t][..n] == v[..n];
    } else {
      MarksUpdate(v[..n], i, t, p);
      assert v[i := t][..n] == v[..n][i := t];
    }
  }

  /** Marking a copy adds one mark, unless it had one. */
  lemma MarkAdds(t: Table, n: int, p: Ptr)
    requires n <= |t.slots| && Topmost(t.slots, n, p) >= 0
    ensures MarksIn(MarkedAt(t, n, p).slots, p) ==
      MarksIn(t.slots, p) + if t.slots[Topmost(t.slots, n, p)].mark then 0 else 1
  {
    var k := Topmost(t.slots, n, p);
    assert multiset(t.slots[k := Slot(p, true)]) == multiset(t.slots) - multiset{t.slots[k]} + multiset{Slot(p, true)};
    assert t.slots[k] in t.slots;
  }

  /** Removing a copy takes away its mark and no other. */
  lemma WithoutTakes(t: Table, p: Ptr)
    requires 0 <= t.counter <= |t.slots| && p != NULL && Topmost(t.slots, t.counter, p) >= 0
    ensures MarksIn(Without(t, p).slots, p) ==
      MarksIn(t.slots, p) - if t.slots[Topmost(t.slots, t.counter, p)].mark then 1 else 0
  {
    RemovedTakesOne(t.slots, t.counter, p);
    assert t.slots[Topmost(t.slots, t.counter, p)] in t.slots;
  }

  lemma ScanParks(v: seq<Table>, start: int, p: Ptr)
    requires start < |v| && Sound(v) && Marks(v, p) == 0
    ensures var o := Scanned(v, start, p); Marks(o.tables, p) + (if o.destroyed then 1 else 0) == 1
  {
    var i := Holder(v, start, p);
    if i >= 0 {
      MarksUpdate(v, i, MarkedAt(v[i], v[i].counter, p), p);
      MarkAdds(v[i], v[i].counter, p);
      MarkedOne(v, i, Topmost(v[i].slots, v[i].counter, p), p);
    }
  }

  /** A marked copy counts. */
  lemma {:induction false} MarkedOne(v: seq<Table>, i: nat, k: nat, p: Ptr)
    requires i < |v| && k < |v[i].slots| && v[i].slots[k].ptr == p && Marks(v, p) == 0
    ensures !v[i].slots[k].mark
  {
    if i < |v| - 1 { MarkedOne(v[..|v| - 1], i, k, p); }
    assert v[i].slots[k] in v[i].slots;
  }

  /** Main result: retiring a pointer that carries no duty parks exactly one, or destroys it. */
  lemma RetiringParksOne(v: seq<Table>, p: Ptr)
    requires Sound(v) && Marks(v, p) == 0
    ensures var o := Scanned(v, |v| - 1, p); Marks(o.tables, p) + (if o.destroyed then 1 else 0) == 1
  {
    ScanParks(v, |v| - 1, p);
  }

  /** Main result: giving up a protection of a retired pointer keeps its one duty, handing it on
      if it was on the copy that goes; so it is destroyed exactly if the duty finds no copy below. */
  lemma DutyHandedOn(v: seq<Table>, id: int, p: Ptr)
    requires 0 <= id < |v| && Sound(v) && p != NULL && Marks(v, p) == 1
    ensures var o := GivenUp(v, id, p); Marks(o.tables, p) + (if o.destroyed then 1 else 0) == 1
  {
    var k, t := Topmost(v[id].slots, v[id].counter, p), Without(v[id], p);
    MarksUpdate(v, id, t, p);
    if k >= 0 {
      WithoutTakes(v[id], p);
      if v[id].slots[k].mark { ContinuedParks(v[id := t], id, k, p); }
    }
  }

  lemma ContinuedParks(v: seq<Table>, id: int, pos: int, p: Ptr)
    requires 0 <= id < |v| && Sound(v) && pos < |v[id].slots| && Marks(v, p) == 0
    ensures var o := Continued(v, id, pos, p); Marks(o.tables, p) + (if o.destroyed then 1 else 0) == 1
  {
    var k := Topmost(v[id].slots, pos + 1, p);
    if k >= 0 {
      MarksUpdate(v, id, MarkedAt(v[id], pos + 1, p), p);
      MarkAdds(v[id], pos + 1, p);
      MarkedOne(v, id, k, p);
    } else {
      ScanParks(v, id - 1, p);
    }
  }

  // ---------------------------------------------------------------- nothing protected is destroyed

  /** How often the slots below the counter hold `p`. */
  function CopiesIn(t: Table, p: Ptr): nat
    requires 0 <= t.counter <= |t.slots|
  {
    Occupancy(t.slots[..t.counter])[p]
  }

  /** `p` is among the first `n` slots exactly if they have a topmost copy. */
  lemma CopyIffTopmost(slots: seq<Slot>, n: nat, p: Ptr)
    requires n <= |slots|
    ensures Topmost(slots, n, p) >= 0 <==> Occupancy(slots[..n])[p] > 0
  {
    var k := Topmost(slots, n, p);
    if k >= 0 {
      OccupancyIndex(slots[..n], k);
    } else {
      forall j | 0 <= j < n ensures Ptrs(slots[..n])[j] != p { assert slots[..n][j] == slots[j]; }
      assert p !in Ptrs(slots[..n]);
    }
  }

  /** Below the topmost copy there is one less. */
  lemma CopiesBelow(slots: seq<Slot>, n: nat, p: Ptr)
    requires n <= |slots| && Topmost(slots, n, p) >= 0
    ensures Occupancy(slots[..n])[p] == Occupancy(slots[..Topmost(slots, n, p)])[p] + 1
  {
    var k := Topmost(slots, n, p);
    var low, high := slots[..k], slots[k + 1..n];
    assert Ptrs(slots[..n]) == Ptrs(low) + [p] + Ptrs(high);
    forall j | 0 <= j < |high| ensures Ptrs(high)[j] != p { assert high[j] == slots[k + 1 + j]; }
  }

  /** What fills the hole that the topmost copy leaves is no copy, so the search goes on below it. */
  lemma SearchGoesOn(t: Table, p: Ptr)
    requires 0 <= t.counter <= |t.slots| && p != NULL && Topmost(t.slots, t.counter, p) >= 0
    ensures var k := Topmost(t.slots, t.counter, p);
      Topmost(Without(t, p).slots, k + 1, p) == Topmost(t.slots, k, p)
  {
    var k, slots := Topmost(t.slots, t.counter, p), Without(t, p).slots;
    assert slots[k].ptr != p;
    SameBelow(t.slots, slots, k, p);
  }

  lemma {:induction false} SameBelow(slots: seq<Slot>, slots': seq<Slot>, n: nat, p: Ptr)
    requires n <= |slots| == |slots'| && forall j :: 0 <= j < n ==> slots'[j].ptr == slots[j].ptr
    ensures Topmost(slots', n, p) == Topmost(slots, n, p)
  {
    if n > 0 { SameBelow(slots, slots', n - 1, p); }
  }


  /** Slot `q` of handle `m` carries the mark for `p` now, and nothing else has changed. */
  ghost predicate MarkedIn(v: seq<Table>, v': seq<Table>, m: int, q: int, p: Ptr) {
    && 0 <= m < |v| && 0 <= q < |v[m].slots| && v[m].slots[q].ptr == p
    && v' == v[m := v[m].(slots := v[m].slots[q := Slot(p, true)])]
  }

  /** Main result: retiring `p` destroys it if and only if no handle in use holds it; otherwise the
      topmost copy in the highest such handle carries the mark. */
  lemma ScannedExact(v: seq<Table>, start: int, p: Ptr) returns (m: int, q: int)
    requires start < |v| && Sound(v)
    ensures var o := Scanned(v, start, p);
      && (o.destroyed <==> forall j :: 0 <= j <= start ==> v[j].free || CopiesIn(v[j], p) == 0)
      && (if o.destroyed then o.tables == v
          else
            && m <= start && MarkedIn(v, o.tables, m, q, p) && !v[m].free && q == Topmost(v[m].slots, v[m].counter, p)
            && forall j :: m < j <= start ==> v[j].free || CopiesIn(v[j], p) == 0)
  {
    m := Holder(v, start, p);
    q := if m >= 0 then Topmost(v[m].slots, v[m].counter, p) else -1;
    forall j | 0 <= j <= start ensures Topmost(v[j].slots, v[j].counter, p) >= 0 <==> CopiesIn(v[j], p) > 0 {
      CopyIffTopmost(v[j].slots, v[j].counter, p);
    }
  }

  /** Main result: giving up a protection destroys `p` if and only if the copy that goes carried the
      duty, the own handle holds no other copy, and no lower handle in use holds one. Otherwise a
      duty found on that copy goes to the next copy below it in the own handle, or if there is none
      to the topmost one in the next handle below that has any; and without a duty on it nothing
      happens but the removal. */
  lemma GivenUpExact(v: seq<Table>, id: int, p: Ptr) returns (m: int, q: int)
    requires 0 <= id < |v| && Sound(v) && p != NULL && CopiesIn(v[id], p) > 0
    ensures var o, k, left := GivenUp(v, id, p), Topmost(v[id].slots, v[id].counter, p), v[id := Without(v[id], p)];
      && 0 <= k < v[id].counter
      && (o.destroyed <==>
            && v[id].slots[k].mark && CopiesIn(v[id], p) == 1
            && forall j :: 0 <= j < id ==> v[j].free || CopiesIn(v[j], p) == 0)
      && (if !v[id].slots[k].mark || o.destroyed then o.tables == left
          else
            && m <= id && MarkedIn(left, o.tables, m, q, p)
            && if CopiesIn(v[id], p) > 1 then m == id && q == Topmost(v[id].slots, k, p)
               else m < id && !v[m].free && q == Topmost(v[m].slots, v[m].counter, p)
                    && forall j :: m < j < id ==> v[j].free || CopiesIn(v[j], p) == 0)
  {
    hide Without, GivenUp, Topmost, Occupancy, Continued;
    CopyIffTopmost(v[id].slots, v[id].counter, p);
    var k, left := Topmost(v[id].slots, v[id].counter, p), v[id := Without(v[id], p)];
    CopiesBelow(v[id].slots, v[id].counter, p);
    CopyIffTopmost(v[id].slots, k, p);
    SearchGoesOn(v[id], p);
    GivenUpIs(v, id, p);
    m, q := ContinuedExact(left, id, k, p);
    forall j | 0 <= j < id ensures left[j] == v[j] {}
  }

  lemma GivenUpIs(v: seq<Table>, id: int, p: Ptr)
    requires 0 <= id < |v| && Sound(v) && Topmost(v[id].slots, v[id].counter, p) >= 0
    ensures var k, left := Topmost(v[id].slots, v[id].counter, p), v[id := Without(v[id], p)];
      Sound(left) && GivenUp(v, id, p) == if v[id].slots[k].mark then Continued(left, id, k, p) else Outcome(left, false)
  {
  }

  lemma ContinuedExact(v: seq<Table>, id: int, pos: int, p: Ptr) returns (m: int, q: int)
    requires 0 <= id < |v| && Sound(v) && pos < |v[id].slots|
    ensures var o, own := Continued(v, id, pos, p), Topmost(v[id].slots, pos + 1, p);
      && (o.destroyed <==> own < 0 && forall j :: 0 <= j < id ==> v[j].free || CopiesIn(v[j], p) == 0)
      && (if o.destroyed then o.tables == v
          else
            && m <= id && MarkedIn(v, o.tables, m, q, p)
            && if own >= 0 then m == id && q == own
               else m < id && !v[m].free && q == Topmost(v[m].slots, v[m].counter, p)
                    && forall j :: m < j < id ==> v[j].free || CopiesIn(v[j], p) == 0)
  {
    m, q := ScannedExact(v, id - 1, p);
    if Topmost(v[id].slots, pos + 1, p) >= 0 { m, q := id, Topmost(v[id].slots, pos + 1, p); }
    hide Scanned, CopiesIn, Topmost;
  }

  // ---------------------------------------------------------------- the objects

  class Manager {
    const handles: seq<InternalHandle?>    // _handles without their mark
    var free: seq<bool>                    // the mark on them: given back, to be reused
    var handleCounter: int
    var destroyed: seq<Ptr>                // the calls of the destructor

    ghost predicate Apart() {
      && (forall i, j :: 0 <= i < j < |handles| && handles[i] != null ==> handles[i] != handles[j])
      && (forall i, j :: 0 <= i < j < |handles| && handles[i] != null && handles[j] != null ==>
            handles[i].slots != handles[j].slots)
    }

    ghost function Objects(): set<object> {
      (set i | 0 <= i < |handles| && handles[i] != null :: handles[i])
      + (set i | 0 <= i < |handles| && handles[i] != null :: handles[i].slots)
    }

    ghost predicate Valid()
      reads this, Objects()
    {
      && Apart() && |free| == |handles| && -1 <= handleCounter < |handles|
      && (forall i :: 0 <= i <= handleCounter ==> handles[i] != null && handles[i].Valid())
    }

    ghost function TableOf(i: int): Table
      requires Valid() && 0 <= i <= handleCounter
      reads this, Objects()
    {
      Table(handles[i].slots[..], handles[i].counter, free[i])
    }

    ghost function TablesTo(n: int): (v: seq<Table>)
      requires Valid() && 0 <= n <= handleCounter + 1
      reads this, Objects()
      ensures |v| == n && forall i :: 0 <= i < n ==> v[i] == TableOf(i)
    {
      if n == 0 then [] else TablesTo(n - 1) + [TableOf(n - 1)]
    }

    ghost function Tables(): (v: seq<Table>)
      requires Valid()
      reads this, Objects()
      ensures |v| == handleCounter + 1 && Sound(v)
      ensures forall i :: 0 <= i <= handleCounter ==> v[i] == TableOf(i)
    {
      TablesTo(handleCounter + 1)
    }

    method MarkIn(i: nat, p: Ptr, pos: int) returns (st: IState)
      requires Valid() && p != NULL && i <= handleCounter && pos < |TableOf(i).slots|
      modifies Objects()
      ensures Valid() && var t := old(TableOf(i));
        var n := if pos < 0 then t.counter else pos + 1;
        && Tables() == old(Tables())[i := MarkedAt(t, n, p)]
        && (st == NotFound <==> Topmost(t.slots, n, p) < 0)
      ensures st == NotFound ==> Tables() == old(Tables())
    {
      st := handles[i].Mark(p, pos);
    }

    method RemoveIn(i: nat, p: Ptr) returns (st: IState, pos: int)
      requires Valid() && p != NULL && i <= handleCounter
      modifies Objects()
      ensures Valid() && var t := old(TableOf(i));
        && Tables() == old(Tables())[i := Without(t, p)]
        && pos == Topmost(t.slots, t.counter, p)
        && (st == Marked <==> pos >= 0 && t.slots[pos].mark)
    {
      hide Tables, TablesTo, Topmost, Removed;
      st, pos := handles[i].Remove(p);
    }

    /** protect, while others change the cell: the pointer that two reads in a row agree on is in
        the handle's next slot; null is not protected. */
    method Protect(seen: seq<Ptr>, id: nat) returns (p: Ptr)
      requires Valid() && id <= handleCounter && TableOf(id).counter < |TableOf(id).slots| && seen != []
      modifies Objects()
      ensures Valid() && p == seen[Stop(seen, NULL)] && var t := old(TableOf(id));
        Tables() == if p == NULL then old(Tables())
                    else old(Tables())[id := Table(t.slots[t.counter := Slot(p, false)], t.counter + 1, t.free)]
    {
      hide Tables, TablesTo;
      p := handles[id].Protect(seen);
    }

    /** The call of the destructor. */
    method Destroy(p: Ptr)
      requires Valid()
      modifies this`destroyed
      ensures Valid() && Tables() == old(Tables()) && destroyed == old(destroyed) + [p]
    {
      destroyed := destroyed + [p];
    }

    /** The scan at handle `i`: passes it by if it was given back, marks in it otherwise. */
    method Visit(i: nat, p: Ptr) returns (found: bool)
      requires Valid() && p != NULL && i <= handleCounter
      modifies Objects()
      ensures Valid() && var t := old(TableOf(i));
        && (found <==> !t.free && Topmost(t.slots, t.counter, p) >= 0)
        && Tables() == if found then old(Tables())[i := MarkedAt(t, t.counter, p)] else old(Tables())
    {
      found := false;
      if !free[i] {
        var st := MarkIn(i, p, -1);
        found := st != NotFound;
      }
    }

    /** The loop over the handles from `start` down that safe_delete and continue_deletion share. */
    method Scan(p: Ptr, start: int)
      requires Valid() && p != NULL && -1 <= start <= handleCounter
      modifies this`destroyed, Objects()
      ensures Valid() && Tables() == Scanned(old(Tables()), start, p).tables
      ensures destroyed == old(destroyed) + if Scanned(old(Tables()), start, p).destroyed then [p] else []
    {
      hide Valid, Apart, MarkedAt, Topmost, Sound, Holder, Scanned, Tables, TablesTo, TableOf;
      var i := start;
      ghost var v := Tables();
      while i >= 0
        invariant -1 <= i <= start && Valid() && destroyed == old(destroyed) && Tables() == v
        invariant Holder(v, start, p) == Holder(v, i, p)
      {
        assert v[i] == TableOf(i);
        ScanHere(v, start, i, p);
        var found := Visit(i, p);
        if found { return; }
        i := i - 1;
      }
      ScanHere(v, start, i, p);
      Destroy(p);
    }

    /** safe_delete: parks the duty on the topmost handle that holds `p`, or destroys it. */
    method SafeDelete(p: Ptr)
      requires Valid() && p != NULL
      modifies this`destroyed, Objects()
      ensures Valid() && Tables() == Scanned(old(Tables()), handleCounter, p).tables
      ensures destroyed == old(destroyed) + if Scanned(old(Tables()), handleCounter, p).destroyed then [p] else []
    {
      Scan(p, handleCounter);
    }

    /** continue_deletion: on below slot `pos` of handle `id`, then in the handles below. */
    method ContinueDeletion(p: Ptr, pos: nat, id: nat)
      requires Valid() && p != NULL && id <= handleCounter && pos < |TableOf(id).slots|
      modifies this`destroyed, Objects()
      ensures Valid() && Tables() == Continued(old(Tables()), id, pos, p).tables
      ensures destroyed == old(destroyed) + if Continued(old(Tables()), id, pos, p).destroyed then [p] else []
    {
      hide Valid, Apart, MarkedAt, Topmost, Sound, Holder;
      var st := MarkIn(id, p, pos);
      if st != NotFound { return; }
      Scan(p, id - 1);
    }

    /** unprotect: one copy of `p` goes; a mark found on it is a duty to be handed on. */
    method Unprotect(p: Ptr, id: nat)
      requires Valid() && p != NULL && id <= handleCounter
      modifies this`destroyed, Objects()
      ensures Valid() && Tables() == GivenUp(old(Tables()), id, p).tables
      ensures destroyed == old(destroyed) + if GivenUp(old(Tables()), id, p).destroyed then [p] else []
    {
      var st, pos := RemoveIn(id, p);
      if st == Marked { ContinueDeletion(p, pos, id); }
    }
  }
}
