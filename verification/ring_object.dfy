/** The ring as an object: 64-bit ticket counters that wrap around and a buffer changed in place.
    Each method that is not `Push` or `Pop` is one atomic step. */
module RingObject {
  import opened Arithmetic
  import opened RingProtocol
  import opened RingSafety

  /** What the ring holds when nothing is pending, in the order of the pop tickets. */
  function Queue(s: Ring): (q: seq<Value>)
    requires 0 <= s.pushId - s.popId
    ensures |q| == s.pushId - s.popId && forall i :: 0 <= i < |q| ==> q[i] == At(s, s.popId + i)
  {
    seq(s.pushId - s.popId, i requires i >= 0 => At(s, s.popId + i))
  }

  ghost predicate Quiet(s: Ring) {
    s.pushing == map[] && s.popping == map[]
  }

  /** mod(id + 1) of a wrapped ticket is the slot of the ticket. */
  lemma WrappedSlot(cap: nat, ticket: nat)
    requires cap > 0 && WORD % cap == 0
    ensures (ticket % WORD + 1) % WORD % cap == Slot(cap, ticket)
  {
    WordNext(ticket);
    ModOfMod(ticket + 1, WORD, cap);
  }

  /** Tickets less than a lap apart have slots of their own. */
  lemma SlotsApart(cap: nat, i: nat, j: nat)
    requires cap > 0 && i < j < i + cap
    ensures Slot(cap, i) != Slot(cap, j)
  {
    SlotAt(cap, i, Slot(cap, i), 0);
    SlotAt(cap, i, Slot(cap, i), j - i);
  }

  /** The two steps of a push that runs alone. */
  function Pushed(s: Ring, v: Value): Ring {
    Apply(Apply(s, CallPush(v)), TryStore(s.pushId))
  }

  function Popped(s: Ring): Ring {
    Apply(Apply(s, CallPop), TryTake(s.popId))
  }

  /** Alone, a push that is not a lap ahead finds its slot empty and appends. */
  lemma PushAppends(s: Ring, v: Value)
    requires Inv(s) && Quiet(s) && v != DUMMY && Sized(s) < |s.buffer|
    ensures Sized(s) >= 0 && At(s, s.pushId) == DUMMY && Inv(Pushed(s, v)) && Quiet(Pushed(s, v))
    ensures Sized(Pushed(s, v)) == Sized(s) + 1 && Queue(Pushed(s, v)) == Queue(s) + [v]
  {
    var cap, k := |s.buffer|, s.pushId;
    QuietSlots(s);
    forall i | s.popId <= i < k ensures Slot(cap, i) != Slot(cap, k) { SlotsApart(cap, i, k); }
    assert Slot(cap, k) !in Filled(s);
    var s1, s2 := Apply(s, CallPush(v)), Pushed(s, v);
    StepKeepsInv(s, CallPush(v));
    StepKeepsInv(s1, TryStore(k));
    assert s2.pushing == map[] && s2.popping == map[];
    hide Inv;
    assert At(s2, k) == v;
    assert forall j: nat :: s.popId <= j < k ==> At(s2, j) == At(s, j);
  }

  /** Alone, a pop takes the first value, if there is one. */
  lemma PopTakesFirst(s: Ring)
    requires Inv(s) && Quiet(s) && Sized(s) > 0
    ensures At(s, s.popId) != DUMMY && Inv(Popped(s)) && Quiet(Popped(s))
    ensures Queue(s) == [At(s, s.popId)] + Queue(Popped(s))
  {
    var cap, k := |s.buffer|, s.popId;
    QuietSlots(s);
    assert Slot(cap, k) in Filled(s);
    forall i | k < i < s.pushId ensures Slot(cap, i) != Slot(cap, k) { SlotsApart(cap, k, i); }
    var s1, s2 := Apply(s, CallPop), Popped(s);
    StepKeepsInv(s, CallPop);
    StepKeepsInv(s1, TryTake(k));
    assert s2.pushing == map[] && s2.popping == map[];
    hide Inv;
    assert forall j: nat :: k < j < s.pushId ==> At(s2, j) == At(s, j);
  }

  class TicketRing {
    const mask: nat
    const buffer: array<Value>
    var pushId: nat
    var popId: nat
    ghost var ring: Ring    // the same with tickets that never wrap, and the operations under way

    ghost predicate Valid()
      reads this, buffer
    {
      && Inv(ring) && ring.buffer == buffer[..]
      && mask + 1 == buffer.Length && WORD % buffer.Length == 0
      && pushId == ring.pushId % WORD && popId == ring.popId % WORD
    }

    /** The capacity is the next power of two. */
    constructor (capacity: nat)
      requires capacity <= 0x8000_0000_0000_0000
      ensures Valid() && ring == Init(buffer.Length) && fresh(buffer)
      ensures capacity <= buffer.Length && (buffer.Length == 1 || buffer.Length < 2 * capacity)
    {
      var tcap: nat := 1;
      ghost var k := 0;
      while tcap < capacity
        invariant tcap == Power2(k) && k <= 63
        invariant tcap == 1 || tcap < 2 * capacity
        decreases 2 * capacity - tcap
      {
        if k == 63 { WordIsPower(); }
        tcap, k := 2 * tcap, k + 1;
      }
      WordIsPower();
      PowerDivides(k, 64);
      InitInv(tcap);
      mask, pushId, popId, ring := tcap - 1, 0, 0, Init(tcap);
      buffer := new Value[tcap](_ => DUMMY);
    }

    /** `id = _push_id.fetch_add(1)` and `id = mod(id + 1)`. */
    method DrawPush(v: Value) returns (id: nat)
      requires Valid() && v != DUMMY
      modifies this
      ensures Valid() && ring == Apply(old(ring), CallPush(v)) && id == Slot(buffer.Length, old(ring.pushId))
    {
      WrappedSlot(buffer.Length, ring.pushId);
      WordNext(ring.pushId);
      StepKeepsInv(ring, CallPush(v));
      hide Inv;
      id := (pushId + 1) % WORD % (mask + 1);
      pushId := (pushId + 1) % WORD;
      ring := Apply(ring, CallPush(v));
    }

    method DrawPop() returns (id: nat)
      requires Valid()
      modifies this
      ensures Valid() && ring == Apply(old(ring), CallPop) && id == Slot(buffer.Length, old(ring.popId))
    {
      WrappedSlot(buffer.Length, ring.popId);
      WordNext(ring.popId);
      StepKeepsInv(ring, CallPop);
      hide Inv;
      id := (popId + 1) % WORD % (mask + 1);
      popId := (popId + 1) % WORD;
      ring := Apply(ring, CallPop);
    }

    /** One compare-exchange of push. */
    method Store(ghost ticket: nat, id: nat, e: Value) returns (ok: bool)
      requires Valid() && ticket in ring.pushing && ring.pushing[ticket] == e && id == Slot(buffer.Length, ticket)
      modifies this`ring, buffer
      ensures Valid() && ring == Apply(old(ring), TryStore(ticket))
      ensures ok == (old(At(ring, ticket)) == DUMMY) == (ticket !in ring.pushing)
    {
      hide Inv;
      StepKeepsInv(ring, TryStore(ticket));
      ok := buffer[id] == DUMMY;
      if ok { buffer[id] := e; }
      ring := Apply(ring, TryStore(ticket));
    }

    /** One exchange of pop. */
    method Exchange(ghost ticket: nat, id: nat) returns (temp: Value)
      requires Valid() && ticket in ring.popping && ring.popping[ticket].Exchange? && id == Slot(buffer.Length, ticket)
      modifies this`ring, buffer
      ensures Valid() && ring == Apply(old(ring), TryTake(ticket))
      ensures temp == old(At(ring, ticket)) && (temp != DUMMY <==> ticket !in ring.popping)
    {
      hide Inv;
      StepKeepsInv(ring, TryTake(ticket));
      temp := buffer[id];
      buffer[id] := DUMMY;
      ring := Apply(ring, TryTake(ticket));
    }

    /** size(): the difference of the wrapped counters. */
    method Size() returns (n: nat)
      requires Valid()
      ensures 0 <= Sized(ring) < WORD ==> n == Sized(ring)
    {
      n := (pushId - popId) % WORD;
      if 0 <= Sized(ring) < WORD { WordDifference(ring.pushId, ring.popId); }
    }

    /** push, run alone on a ring that is not full. */
    method Push(e: Value)
      requires Valid() && Quiet(ring) && e != DUMMY && Sized(ring) < buffer.Length
      modifies this, buffer
      ensures Valid() && Quiet(ring) && 0 <= old(Sized(ring)) && Sized(ring) >= 0
      ensures Queue(ring) == old(Queue(ring)) + [e]
    {
      PushAppends(ring, e);
      ghost var ticket := ring.pushId;
      var id := DrawPush(e);
      var ok := Store(ticket, id, e);
      assert ok;
    }

    /** pop, run alone on a ring that is not empty. */
    method Pop() returns (temp: Value)
      requires Valid() && Quiet(ring) && Sized(ring) > 0
      modifies this, buffer
      ensures Valid() && Quiet(ring) && Sized(ring) >= 0
      ensures old(Queue(ring)) == [temp] + Queue(ring)
    {
      PopTakesFirst(ring);
      ghost var ticket := ring.popId;
      var id := DrawPop();
      temp := Exchange(ticket, id);
      assert temp != DUMMY;
    }
  }
}
