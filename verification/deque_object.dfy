/** circular_buffer, a growing deque over indices that wrap around modulo 2^64. */
module DequeObject {
  import opened Arithmetic

  type Value = int

  datatype Option = None | Some(value: Value)

  /** `inc` and `dec` of a 64-bit index. */
  function Inc(i: nat): nat {
    (i + 1) % WORD
  }

  function Dec(i: nat): nat {
    (i - 1) % WORD
  }

  /** size(): the difference of the indices as a word. */
  function Size(start: nat, end: nat): nat {
    (end - start) % WORD
  }

  /** The test `_end > _start + _bitmask`, where the sum wraps around. */
  predicate LooksFull(start: nat, end: nat, mask: nat) {
    end > (start + mask) % WORD
  }

  /** On a full buffer the test fires exactly when `_end` is not 0. */
  lemma FullTestExact(start: nat, end: nat, mask: nat)
    requires start < WORD && end < WORD && mask + 1 < WORD && Size(start, end) == mask + 1
    ensures LooksFull(start, end, mask) <==> end != 0
  {
    var k := (end - start) / WORD;
    assert end == start + mask + 1 + k * WORD;
    if start + mask < WORD {
      DivModUnique(start + mask, 0, start + mask, WORD);
    } else {
      DivModUnique(start + mask, 1, start + mask - WORD, WORD);
    }
  }

  /** `mod(i)`: the slot of index `i`. */
  function Mod(cap: nat, i: nat): (slot: nat)
    requires cap > 0
    ensures slot < cap
  {
    i % cap
  }

  /** The n values from index `start` on, in a buffer whose length divides the word. */
  function Values(buffer: seq<Value>, start: nat, n: nat): (q: seq<Value>)
    requires |buffer| > 0
    ensures |q| == n && forall i :: 0 <= i < n ==> q[i] == buffer[Mod(|buffer|, start + i)]
  {
    seq(n, i requires 0 <= i < n => buffer[Mod(|buffer|, start + i)])
  }

  // ---------------------------------------------------------------- indices

  lemma SizeSpans(start: nat, end: nat, i: nat)
    requires start < WORD && end < WORD && i <= Size(start, end)
    ensures (start + i) % WORD == end <==> i == Size(start, end)
  {
    var n, k := Size(start, end), (end - start) / WORD;
    assert end == start + n + k * WORD;
    DivModUnique(start + n, -k, end, WORD);
    if i < n { ModApart(start + i, n - i, WORD); }
  }

  lemma SizeGrows(start: nat, end: nat)
    requires start < WORD && end < WORD && Size(start, end) + 1 < WORD
    ensures Size(start, Inc(end)) == Size(start, end) + 1 == Size(Dec(start), end)
  {
    var n, k := Size(start, end), (end - start) / WORD;
    DivModUnique(Inc(end) - start, if end + 1 == WORD then k - 1 else k, n + 1, WORD);
    DivModUnique(end - Dec(start), if start == 0 then k - 1 else k, n + 1, WORD);
  }

  lemma SizeShrinks(start: nat, end: nat)
    requires start < WORD && end < WORD && Size(start, end) > 0
    ensures Size(start, Dec(end)) == Size(start, end) - 1 == Size(Inc(start), end)
  {
    var n, k := Size(start, end), (end - start) / WORD;
    DivModUnique(Dec(end) - start, if end == 0 then k + 1 else k, n - 1, WORD);
    DivModUnique(end - Inc(start), if start + 1 == WORD then k + 1 else k, n - 1, WORD);
  }

  /** Where the value behind the last one goes. */
  lemma EndSlot(start: nat, end: nat, cap: nat)
    requires start < WORD && end < WORD && cap > 0 && WORD % cap == 0
    ensures Mod(cap, end) == Mod(cap, start + Size(start, end))
  {
    SizeSpans(start, end, Size(start, end));
    ModOfMod(start + Size(start, end), WORD, cap);
  }

  lemma WordSlot(cap: nat, i: nat)
    requires cap > 0 && WORD % cap == 0
    ensures Mod(cap, i % WORD) == Mod(cap, i)
  {
    ModOfMod(i, WORD, cap);
  }

  lemma InWord(i: nat)
    requires i < WORD
    ensures i % WORD == i && Size(0, i) == i
  {
    DivModUnique(i, 0, i, WORD);
  }

  lemma NextPower(k: nat)
    requires Power2(k) <= MAX_CAPACITY
    ensures Power2(k + 1) == 2 * Power2(k) && k < 63
  {
    if k >= 63 {
      WordIsPower();
      PowerAdd(63, k - 63);
    }
  }

  lemma FromZero(buffer: seq<Value>, n: nat)
    requires 0 < |buffer| && n <= |buffer|
    ensures Values(buffer, 0, n) == buffer[..n]
  {
  }

  lemma Apart(cap: nat, i: nat, j: nat)
    requires i < j < i + cap
    ensures Mod(cap, i) != Mod(cap, j)
  {
    ModApart(i, j - i, cap);
  }

  lemma Appended(buffer: seq<Value>, start: nat, n: nat, v: Value)
    requires n < |buffer|
    ensures Values(buffer[Mod(|buffer|, start + n) := v], start, n + 1) == Values(buffer, start, n) + [v]
  {
    hide Mod;
    var now, was := Values(buffer[Mod(|buffer|, start + n) := v], start, n + 1), Values(buffer, start, n);
    forall i | 0 <= i < n ensures now[i] == was[i] { Apart(|buffer|, start + i, start + n); }
  }

  /** The indices from the one before `start` on name the same slots as without the wrap. */
  lemma DecSlot(cap: nat, start: nat, i: nat)
    requires start < WORD && cap > 0 && WORD % cap == 0
    ensures Mod(cap, Dec(start) + 1 + i) == Mod(cap, start + i)
  {
    if start == 0 { ModPlus(i, WORD, cap); }
  }

  lemma IncSlot(cap: nat, start: nat, i: nat)
    requires start < WORD && cap > 0 && WORD % cap == 0
    ensures Mod(cap, Inc(start) + i) == Mod(cap, start + 1 + i)
  {
    if start + 1 == WORD { ModPlus(i, WORD, cap); }
  }

  lemma Prepended(buffer: seq<Value>, start: nat, n: nat, v: Value)
    requires n < |buffer| && start < WORD && WORD % |buffer| == 0
    ensures Values(buffer[Mod(|buffer|, Dec(start)) := v], Dec(start), n + 1) == [v] + Values(buffer, start, n)
  {
    hide Mod;
    var d, was := Dec(start), Values(buffer, start, n);
    var now := Values(buffer[Mod(|buffer|, d) := v], d, n + 1);
    forall i | 0 <= i < n ensures now[i + 1] == was[i] {
      DecSlot(|buffer|, start, i);
      Apart(|buffer|, d, d + 1 + i);
      assert d + (i + 1) == d + 1 + i;
    }
  }

  lemma WithoutFirst(buffer: seq<Value>, start: nat, n: nat)
    requires |buffer| > 0 && n > 0 && start < WORD && WORD % |buffer| == 0
    ensures Values(buffer, start, n) == [buffer[Mod(|buffer|, start)]] + Values(buffer, Inc(start), n - 1)
  {
    hide Mod;
    var was, now := Values(buffer, start, n), Values(buffer, Inc(start), n - 1);
    forall i | 0 <= i < n - 1 ensures was[i + 1] == now[i] {
      IncSlot(|buffer|, start, i);
      assert start + (i + 1) == start + 1 + i;
    }
  }

  lemma WithoutLast(buffer: seq<Value>, start: nat, n: nat)
    requires |buffer| > 0 && n > 0
    ensures Values(buffer, start, n) == Values(buffer, start, n - 1) + [buffer[Mod(|buffer|, start + n - 1)]]
  {
    hide Mod;
  }

  // ---------------------------------------------------------------- the class

  /** More slots than this cannot be allocated. */
  const MAX_CAPACITY: nat := 0x4000_0000_0000_0000

  class CircularBuffer {
    var start: nat
    var end: nat
    var bitmask: nat
    var buffer: array<Value>
    ghost var log: nat    // the capacity is 2^log

    ghost predicate Valid()
      reads this, buffer
    {
      && start < WORD && end < WORD && buffer.Length == bitmask + 1
      && bitmask + 1 == Power2(log) && log <= 63
      && Size(start, end) <= bitmask + 1
    }

    /** The abstract sequence. */
    ghost function Contents(): seq<Value>
      requires buffer.Length > 0
      reads this, buffer
    {
      Values(buffer[..], start, Size(start, end))
    }

    /** Full, with `_end` wrapped around to 0: the one state in which the full test is silent. */
    ghost predicate Blind()
      reads this
    {
      Size(start, end) == bitmask + 1 && end == 0
    }

    constructor (capacity: nat)
      requires capacity <= MAX_CAPACITY
      ensures Valid() && Contents() == [] && fresh(buffer)
      ensures 32 <= buffer.Length && capacity <= buffer.Length && (capacity <= 32 ==> buffer.Length == 32)
      ensures start == end == 0x8000_0000
    {
      var tcap: nat := 32;
      ghost var k := 5;
      assert Power2(5) == 32;
      while tcap < capacity
        invariant tcap == Power2(k) && 5 <= k <= 62 && 32 <= tcap && (capacity <= 32 ==> tcap == 32)
        decreases 2 * capacity - tcap
      {
        if k == 62 { WordIsPower(); }
        tcap, k := 2 * tcap, k + 1;
      }
      start, end, bitmask, log := 0x8000_0000, 0x8000_0000, tcap - 1, k;
      buffer := new Value[tcap];
    }

    lemma CapacityDividesWord()
      requires Valid()
      ensures WORD % buffer.Length == 0 && buffer.Length < WORD
    {
      WordIsPower();
      PowerDivides(log, 64);
      PowerAdd(log, 64 - log);
      assert Power2(64 - log) >= 2;
      MulGap(1, Power2(64 - log), Power2(log));
    }

    /** The loop of grow: the values go to the front of the new buffer. */
    method MoveTo(nbuffer: array<Value>) returns (i: nat)
      requires Valid() && nbuffer != buffer && nbuffer.Length >= buffer.Length
      modifies nbuffer
      ensures i == Size(start, end) <= nbuffer.Length && nbuffer[..i] == Contents()
    {
      CapacityDividesWord();
      hide Valid, Power2, Values, Mod, Size;
      ghost var values := Contents();
      var it := start;
      i := 0;
      SizeSpans(start, end, 0);
      InWord(start);
      while it != end
        invariant i <= |values| && it == (start + i) % WORD && (it == end <==> i == |values|)
        invariant nbuffer[..i] == values[..i]
        decreases |values| - i
      {
        SizeSpans(start, end, i + 1);
        WordSlot(buffer.Length, start + i);
        WordNext(start + i);
        nbuffer[i] := buffer[Mod(bitmask + 1, it)];
        i, it := i + 1, Inc(it);
      }
    }

    /** grow: twice the capacity, the same values, from index 0 on. */
    method Grow()
      requires Valid() && buffer.Length <= MAX_CAPACITY
      modifies this
      ensures Valid() && fresh(buffer) && Contents() == old(Contents())
      ensures buffer.Length == 2 * old(buffer.Length) && start == 0 && end == old(Size(start, end))
    {
      CapacityDividesWord();
      NextPower(log);
      var nbitmask := 2 * bitmask + 1;
      var nbuffer := new Value[nbitmask + 1];
      var i := MoveTo(nbuffer);
      FromZero(nbuffer[..], i);
      InWord(i);
      start, end, bitmask, buffer := 0, i, nbitmask, nbuffer;
      log := log + 1;
    }

    /** The lines of push_back behind the full test: they append if there is a free slot. */
    method ConstructBack(e: Value)
      requires Valid() && buffer.Length <= 2 * MAX_CAPACITY
      modifies this`end, buffer
      ensures if old(Size(start, end)) <= bitmask then Valid() && Contents() == old(Contents()) + [e] else !Valid()
      ensures end == Inc(old(end))
    {
      CapacityDividesWord();
      EndSlot(start, end, buffer.Length);
      SizeGrows(start, end);
      if Size(start, end) <= bitmask { Appended(buffer[..], start, Size(start, end), e); }
      ghost var cells := buffer[..];
      buffer[Mod(bitmask + 1, end)] := e;
      end := Inc(end);
      assert buffer[..] == cells[Mod(bitmask + 1, old(end)) := e];
    }

    /** push_back and emplace_back keep the sequence exactly if the buffer is not full with
        `_end == 0`. */
    method PushBack(e: Value)
      requires Valid() && buffer.Length <= MAX_CAPACITY
      modifies this, buffer
      ensures !old(Blind()) <==> Valid() && Contents() == old(Contents()) + [e]
      ensures if old(LooksFull(start, end, bitmask))
              then fresh(buffer) && buffer.Length == 2 * old(buffer.Length)
                   && start == 0 && end == Inc(old(Size(start, end)))
              else buffer == old(buffer) && start == old(start) && end == Inc(old(end))
    {
      CapacityDividesWord();
      if Size(start, end) == bitmask + 1 { FullTestExact(start, end, bitmask); }
      if LooksFull(start, end, bitmask) { Grow(); }
      ConstructBack(e);
    }

    /** The lines of push_front behind the full test. */
    method ConstructFront(e: Value)
      requires Valid() && buffer.Length <= 2 * MAX_CAPACITY
      modifies this`start, buffer
      ensures if old(Size(start, end)) <= bitmask then Valid() && Contents() == [e] + old(Contents()) else !Valid()
      ensures start == Dec(old(start))
    {
      CapacityDividesWord();
      SizeGrows(start, end);
      if Size(start, end) <= bitmask { Prepended(buffer[..], start, Size(start, end), e); }
      ghost var cells := buffer[..];
      start := Dec(start);
      buffer[Mod(bitmask + 1, start)] := e;
      assert buffer[..] == cells[Mod(bitmask + 1, start) := e];
    }

    /** push_front and emplace_front: the same condition. */
    method PushFront(e: Value)
      requires Valid() && buffer.Length <= MAX_CAPACITY
      modifies this, buffer
      ensures !old(Blind()) <==> Valid() && Contents() == [e] + old(Contents())
      ensures if old(LooksFull(start, end, bitmask))
              then fresh(buffer) && buffer.Length == 2 * old(buffer.Length)
                   && start == Dec(0) && end == old(Size(start, end))
              else buffer == old(buffer) && start == Dec(old(start)) && end == old(end)
    {
      CapacityDividesWord();
      if Size(start, end) == bitmask + 1 { FullTestExact(start, end, bitmask); }
      if LooksFull(start, end, bitmask) { Grow(); }
      ConstructFront(e);
    }

    /** pop_back: the last value, if there is one. */
    method PopBack() returns (r: Option)
      requires Valid()
      modifies this`end
      ensures Valid() && end == if old(start == end) then old(end) else Dec(old(end))
      ensures if old(Contents()) == [] then r == None && Contents() == []
              else r.Some? && old(Contents()) == Contents() + [r.value]
    {
      CapacityDividesWord();
      SizeSpans(start, end, 0);
      InWord(start);
      if start == end { return None; }
      SizeShrinks(start, end);
      WithoutLast(buffer[..], start, Size(start, end));
      EndSlot(start, Dec(end), buffer.Length);
      end := Dec(end);
      return Some(buffer[Mod(bitmask + 1, end)]);
    }

    /** pop_front: the first value, if there is one. */
    method PopFront() returns (r: Option)
      requires Valid()
      modifies this`start
      ensures Valid()
      ensures if old(Contents()) == [] then r == None && Contents() == []
              else r.Some? && old(Contents()) == [r.value] + Contents()
    {
      CapacityDividesWord();
      SizeSpans(start, end, 0);
      InWord(start);
      if start == end { return None; }
      SizeShrinks(start, end);
      WithoutFirst(buffer[..], start, Size(start, end));
      r := Some(buffer[Mod(bitmask + 1, start)]);
      start := Inc(start);
    }

    /** size() is the length of the sequence. */
    method Length() returns (n: nat)
      requires Valid()
      ensures n == |Contents()|
    {
      n := Size(start, end);
    }

    /** Forward iteration from begin() to end() meets the values in order, once each. */
    method Iterate() returns (visited: seq<Value>)
      requires Valid()
      ensures visited == Contents()
    {
      CapacityDividesWord();
      ghost var values := Contents();
      visited := [];
      var off := start;
      SizeSpans(start, end, 0);
      InWord(start);
      while off != end
        invariant |visited| <= |values| && off == (start + |visited|) % WORD && (off == end <==> |visited| == |values|)
        invariant visited == values[..|visited|]
        decreases |values| - |visited|
      {
        SizeSpans(start, end, |visited| + 1);
        WordSlot(buffer.Length, start + |visited|);
        WordNext(start + |visited|);
        visited := visited + [buffer[Mod(bitmask + 1, off)]];
        off := Inc(off);
      }
    }
  }

  /** A new buffer filled and pushed to once more, so that it grows and starts at index 0. */
  method GrownOnce() returns (b: CircularBuffer)
    ensures fresh(b) && fresh(b.buffer) && b.Valid() && b.buffer.Length == 64 && b.start == 0 && b.end == 33
  {
    b := new CircularBuffer(0);
    for i := 0 to 32
      invariant b.Valid() && fresh(b) && fresh(b.buffer) && b.buffer.Length == 32
      invariant b.start == 0x8000_0000 && b.end == 0x8000_0000 + i
    {
      b.PushBack(7);
    }
    b.PushBack(7);
  }

  /** The silent full buffer can be reached through the public operations: after growing, pop
      everything from the back, then push to the front until it is full. The next push, on either
      side, breaks the sequence (PushBack, PushFront). */
  method ReachBlind() returns (b: CircularBuffer)
    ensures b.Valid() && b.Blind() && b.buffer.Length == 64
  {
    b := GrownOnce();
    for i := 0 to 33
      invariant b.Valid() && fresh(b) && fresh(b.buffer) && b.buffer.Length == 64
      invariant b.start == 0 && b.end == 33 - i
    {
      var _ := b.PopBack();
    }
    for i := 0 to 64
      invariant b.Valid() && fresh(b) && fresh(b.buffer) && b.buffer.Length == 64
      invariant b.end == 0 && b.start == (if i == 0 then 0 else WORD - i)
    {
      b.PushFront(7);
    }
  }
}
