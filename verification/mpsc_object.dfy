/** The flip-flop buffer as an object, its methods as one thread runs them when nobody else is in
    the middle of an operation. */
module MpscObject {
  import opened Arithmetic
  import opened MpscProtocol
  import opened MpscSafety

  /** What waits to be popped, in order. */
  function Queue(s: State): seq<Value>
    requires |s.popped| <= |s.pushed|
  {
    s.pushed[|s.popped|..]
  }

  /** Nobody is in the middle of an operation. */
  ghost predicate Quiet(s: State) {
    Inv(s) && s.storing == map[] && s.pc.Idle?
  }

  lemma PushAlone(s: State, v: Value)
    requires Quiet(s) && Enabled(s, Claim(v))
    ensures var s1 := Apply(s, Claim(v));
      if Fits(s)
      then Enabled(s1, Store(|s.pushed|)) && Quiet(Apply(s1, Store(|s.pushed|))) && s1.storing[|s.pushed|] < |s.buffer|
      else Quiet(s1)
  {
    var n := |s.pushed|;
    var s1 := Apply(s, Claim(v));
    StepKeepsInv(s, Claim(v));
    if Fits(s) {
      assert Due(s1, n) && Placed(s1, n);
      StepKeepsInv(s1, Store(n));
      assert Apply(s1, Store(n)).storing == map[];
    }
  }

  /** Alone, pop finds the next value stored. */
  lemma NextIsStored(s: State)
    requires Inv(s) && s.storing == map[] && s.pc.Load?
    ensures s.readPos < |s.buffer| && |s.popped| < |s.pushed|
    ensures s.buffer[s.readPos] == s.pushed[|s.popped|] != DUMMY
  {
    var n := |s.popped|;
    assert Due(s, n) && Placed(s, n) && Place(s, n) == s.readPos;
  }

  /** The two steps of a pop that found its value. */
  lemma TakeAlone(s: State)
    requires Inv(s) && s.storing == map[] && s.pc.Load?
    ensures s.readPos < |s.buffer| && s.popped < s.pushed && s.buffer[s.readPos] == s.pushed[|s.popped|] != DUMMY
    ensures var s' := Apply(Apply(s, Consume), Consume);
      && Quiet(s') && s' == s.(buffer := s.buffer[s.readPos := DUMMY], readPos := s.readPos + 1, pc := Idle,
                               popped := s.popped + [s.pushed[|s.popped|]], last := Some(s.pushed[|s.popped|]))
  {
    NextIsStored(s);
    StepKeepsInv(s, Consume);
    StepKeepsInv(Apply(s, Consume), Consume);
  }

  class Buffer {
    const cap: nat
    const buffer: array<Value>
    var pos: nat
    var readPos: nat
    var readEnd: nat
    ghost var state: State

    ghost predicate Valid()
      reads this, buffer
    {
      && Quiet(state) && Agrees()
    }

    ghost predicate Agrees()
      reads this, buffer
    {
      && state.cap == cap && state.pos == pos && state.buffer == buffer[..]
      && state.readPos == readPos && state.readEnd == readEnd
    }

    constructor (capacity: nat)
      requires 2 * capacity < FLAG
      ensures Valid() && cap == capacity && state == Init(capacity) && fresh(buffer)
    {
      InitInv(capacity);
      cap, pos, readPos, readEnd, state := capacity, 0, 0, 0, Init(capacity);
      buffer := new Value[2 * capacity](_ => DUMMY);
    }

    /** push_back: appends unless the half it fills is full. */
    method PushBack(e: Value) returns (ok: bool)
      requires Valid() && e != DUMMY && pos % FLAG < FLAG - 1
      modifies this, buffer
      ensures Valid() && ok == old(Fits(state))
      ensures Queue(state) == if ok then old(Queue(state)) + [e] else old(Queue(state))
    {
      PushAlone(state, e);
      hide Inv;
      ghost var n, s := |state.pushed|, state;
      var tpos := pos;
      pos := (pos + 1) % WORD;
      state := Apply(state, Claim(e));
      if tpos >= FLAG {
        tpos := tpos - FLAG;
        if tpos >= 2 * cap { return false; }
      } else if tpos >= cap {
        return false;
      }
      buffer[tpos] := e;
      state := Apply(state, Store(n));
      return true;
    }

    /** pop: the first value that waits, nothing if none does. */
    method Pop() returns (r: Popped)
      requires Valid()
      modifies this, buffer
      ensures Valid()
      ensures if old(Queue(state)) == [] then r == Nothing && Queue(state) == []
              else r.Some? && old(Queue(state)) == [r.value] + Queue(state)
    {
      StepKeepsInv(state, CallPop);
      hide Inv;
      state := Apply(state, CallPop);
      if readPos == readEnd {
        Fetch();
        if readPos == readEnd { return Nothing; }
      }
      TakeAlone(state);
      hide Apply;
      var read := buffer[readPos];
      assert read != DUMMY;                 // so the wait loop is not entered
      buffer[readPos] := DUMMY;
      readPos := readPos + 1;
      state := Apply(Apply(state, Consume), Consume);
      return Some(read);
    }

    /** fetch_on_empty_read_buffer: the half filled so far becomes the one to read. */
    method Fetch()
      requires Inv(state) && Agrees() && state.storing == map[] && state.pc.LoadFlag?
      modifies this
      ensures Inv(state) && Agrees() && state.storing == map[]
      ensures state.pushed == old(state.pushed) && state.popped == old(state.popped)
      ensures if readPos == readEnd then state.pc.Idle? && state.popped == state.pushed else state.pc.Load?
    {
      StepKeepsInv(state, Consume);
      state := Apply(state, Consume);
      StepSwap(state);
      hide Inv;
      var firstToSecond := pos < FLAG;
      if firstToSecond {
        readEnd, pos := pos, cap + FLAG;
        readEnd := if readEnd <= cap then readEnd else cap;
        readPos := 0;
      } else {
        readEnd, pos := pos, 0;
        readEnd := readEnd - FLAG;
        readEnd := if readEnd <= 2 * cap then readEnd else 2 * cap;
        readPos := cap;
      }
      state := Apply(state, Consume);
    }
  }
}
