/** The ticketed ring buffer concurrent_circular_buffer as interleaved atomic steps, for any number
    of threads. A ticket is the value a fetch_add returned; it stands for the thread that drew it. */
module RingProtocol {

  type Value = int

  /** The template parameter `dummy`: what an empty slot holds. Never pushed. */
  const DUMMY: Value := 0

  datatype Popper = Exchange | Peek

  /** `pushed` and `popped` collect the values of the operations that are complete. */
  datatype Ring = Ring(
    buffer: seq<Value>, pushId: nat, popId: nat,
    pushing: map<nat, Value>, popping: map<nat, Popper>,
    pushed: multiset<Value>, popped: multiset<Value>)

  function Init(cap: nat): Ring {
    Ring(seq(cap, _ => DUMMY), 0, 0, map[], map[], multiset{}, multiset{})
  }

  function Slot(cap: nat, ticket: nat): (r: nat)
    requires cap > 0
    ensures r < cap
  {
    (ticket + 1) % cap
  }

  datatype Action =
    | CallPush(v: Value)      // push draws its ticket
    | TryStore(ticket: nat)   // one compare-exchange of push
    | CallPop                 // pop draws its ticket
    | TryTake(ticket: nat)    // one exchange of pop, or one load of its inner loop

  predicate Enabled(s: Ring, a: Action) {
    match a
    case CallPush(v) => v != DUMMY
    case TryStore(k) => k in s.pushing
    case CallPop => true
    case TryTake(k) => k in s.popping
  }

  function At(s: Ring, ticket: nat): Value {
    if |s.buffer| > 0 then s.buffer[Slot(|s.buffer|, ticket)] else DUMMY
  }

  function Put(s: Ring, ticket: nat, v: Value): seq<Value> {
    if |s.buffer| > 0 then s.buffer[Slot(|s.buffer|, ticket) := v] else s.buffer
  }

  function Apply(s: Ring, a: Action): Ring {
    match a
    case CallPush(v) => s.(pushId := s.pushId + 1, pushing := s.pushing[s.pushId := v])
    case TryStore(k) =>
      if k in s.pushing && At(s, k) == DUMMY
      then s.(buffer := Put(s, k, s.pushing[k]), pushing := s.pushing - {k}, pushed := s.pushed + multiset{s.pushing[k]})
      else s
    case CallPop => s.(popId := s.popId + 1, popping := s.popping[s.popId := Exchange])
    case TryTake(k) =>
      if k !in s.popping then s
      else if s.popping[k].Peek? then (if At(s, k) == DUMMY then s else s.(popping := s.popping[k := Exchange]))
      else if At(s, k) == DUMMY then s.(popping := s.popping[k := Peek])
      else s.(buffer := Put(s, k, DUMMY), popping := s.popping - {k}, popped := s.popped + multiset{At(s, k)})
  }

  // ---------------------------------------------------------------- runs

  predicate Legal(s: Ring, acts: seq<Action>)
    decreases |acts|
  {
    acts == [] || (Enabled(s, acts[0]) && Legal(Apply(s, acts[0]), acts[1..]))
  }

  function Exec(s: Ring, acts: seq<Action>): Ring
    decreases |acts|
  {
    if acts == [] then s else Exec(Apply(s, acts[0]), acts[1..])
  }

  ghost predicate Reachable(s: Ring) {
    exists cap: nat, acts :: cap > 0 && Legal(Init(cap), acts) && s == Exec(Init(cap), acts)
  }
}
