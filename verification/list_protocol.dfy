/** The lock-free singly linked list with logical deletion, as interleaved atomic steps
    (sequentially consistent), for any number of threads running push, erase and size.
    A validated `guard(cell)` is the last read of the cell in the reclamation handle's `protect`;
    nodes are not recycled while somebody may still look at them, which is the reclamation
    manager's business. */
module ListProtocol {

  type Addr = nat
  type Value = int

  const NULL: Addr := 0

  /** The content of a `next` field: an address and the delete mark in its upper bits. */
  datatype Link = Link(ptr: Addr, mark: bool)

  datatype Node = Node(value: Value, next: Link)

  datatype Op = Erase(v: Value) | Size(n: nat)

  /** What an operation returns. */
  datatype Result = Pushed | Erased(count: nat) | Counted(n: nat)

  datatype Pc =
    | Idle
    | PushStore(item: Addr, temp: Addr) | PushCas(item: Addr, temp: Addr)
    | Begin(op: Op)                                          // erase: about to test _head
    | Enter(op: Op)                                          // about to guard _head
    | Walk(op: Op, prev: Addr, curr: Addr)                   // about to guard curr->next
    | TryMark(op: Op, prev: Addr, curr: Addr, next: Link)    // erase: about to mark curr->next
    | Unlink(op: Op, prev: Addr, curr: Addr, next: Link)     // remove: about to unlink curr
    | SelfLink(op: Op, prev: Addr, curr: Addr, next: Link)   // remove: about to store curr->next = curr
    | Retire(op: Op, prev: Addr, curr: Addr, next: Link)     // remove: about to call safe_delete(curr)
    | ReNext(op: Op, prev: Addr, curr: Addr)                 // remove: about to guard the next link

  datatype Thread = Thread(pc: Pc, last: seq<Result>)

  /** `retired` logs the calls of safe_delete. */
  datatype State = State(head: Addr, heap: map<Addr, Node>, ths: seq<Thread>, retired: seq<Addr>)

  function Init(threads: nat): State {
    State(NULL, map[], seq(threads, _ => Thread(Idle, [])), [])
  }

  /** Drop is a step in which the guard of a marked null comes back as a plain null pointer:
      counting_manager's protect always returns that, hazard_manager's when it has to re-read. */
  datatype Action =
    | CallPush(t: nat, item: Addr, v: Value) | CallErase(t: nat, v: Value) | CallSize(t: nat)
    | Run(t: nat) | Drop(t: nat)

  /** About to guard `curr->next`. */
  predicate Guards(pc: Pc) {
    pc.Walk? || pc.ReNext?
  }

  predicate Enabled(s: State, a: Action) {
    && a.t < |s.ths|
    && (a.Run? || a.Drop? <==> !s.ths[a.t].pc.Idle?)
    && (a.Drop? ==> Guards(s.ths[a.t].pc) && NodeAt(s, s.ths[a.t].pc.curr).next == Link(NULL, true))
    && (a.CallPush? ==> a.item != NULL && a.item !in s.heap)
  }

  function Th(s: State, t: nat): Thread {
    if t < |s.ths| then s.ths[t] else Thread(Idle, [])
  }

  function NodeAt(s: State, x: Addr): Node {
    if x in s.heap then s.heap[x] else Node(0, Link(NULL, false))
  }

  function Go(s: State, t: nat, pc: Pc): State {
    if t < |s.ths| then s.(ths := s.ths[t := s.ths[t].(pc := pc)]) else s
  }

  function Return(s: State, t: nat, r: Result): State {
    if t < |s.ths| then s.(ths := s.ths[t := Thread(Idle, s.ths[t].last + [r])]) else s
  }

  function SetNext(s: State, x: Addr, l: Link): State {
    if x in s.heap then s.(heap := s.heap[x := s.heap[x].(next := l)]) else s
  }

  /** Where a traversal starts over. */
  function Restart(op: Op): Pc {
    match op
    case Erase(_) => Begin(op)
    case Size(_) => Enter(Size(1))
  }

  function Apply(s: State, a: Action): State {
    match a
    case CallPush(t, item, v) =>
      Go(s.(heap := s.heap[item := Node(v, Link(NULL, false))]), t, PushStore(item, s.head))
    case CallErase(t, v) => Go(s, t, Begin(Erase(v)))
    case CallSize(t) => Go(s, t, Enter(Size(1)))
    case Run(t) => RunStep(s, t)
    case Drop(t) => DropStep(s, t)
  }

  function DropStep(s: State, t: nat): State {
    match Th(s, t).pc
    case Walk(op, prev, curr) => WalkStep(s, t, op, prev, curr, Link(NULL, false))
    case ReNext(op, _, _) => Go(s, t, Restart(op))
    case _ => s
  }

  /** The content of the cell `prev->next`, or of _head when there is no prev. */
  function CellOf(s: State, prev: Addr): Link {
    if prev == NULL then Link(s.head, false) else NodeAt(s, prev).next
  }

  function SetCell(s: State, prev: Addr, x: Addr): State {
    if prev == NULL then s.(head := x) else SetNext(s, prev, Link(x, false))
  }

  function RunStep(s: State, t: nat): State {
    match Th(s, t).pc
    case Idle => s
    case PushStore(item, temp) => Go(SetNext(s, item, Link(temp, false)), t, PushCas(item, temp))
    case PushCas(item, temp) =>
      if s.head == temp then Return(s.(head := item), t, Pushed) else Go(s, t, PushStore(item, s.head))
    case Begin(op) => if s.head == NULL then Return(s, t, Erased(0)) else Go(s, t, Enter(op))
    case Enter(op) =>
      if s.head != NULL then Go(s, t, Walk(op, NULL, s.head))
      else if op.Erase? then Go(s, t, Begin(op))
      else Return(s, t, Counted(0))
    case Walk(op, prev, curr) => WalkStep(s, t, op, prev, curr, NodeAt(s, curr).next)
    case TryMark(op, prev, curr, next) =>
      if NodeAt(s, curr).next == next
      then Return(SetNext(s, curr, Link(next.ptr, true)), t, Erased(1))   // remove sees the unmarked next
      else Go(s, t, Walk(op, prev, curr))
    case Unlink(op, prev, curr, next) =>
      if CellOf(s, prev) == Link(curr, false)
      then Go(SetCell(s, prev, next.ptr), t, SelfLink(op, prev, curr, next))
      else Go(s, t, Restart(op))
    case SelfLink(op, prev, curr, next) =>
      Go(SetNext(s, curr, Link(curr, false)), t, Retire(op, prev, curr, next))
    case Retire(op, prev, curr, next) =>
      Go(s.(retired := s.retired + [curr]), t,
         if next.ptr == NULL then Restart(op) else ReNext(op, prev, next.ptr))
    case ReNext(op, prev, curr) =>
      var next := NodeAt(s, curr).next;
      Go(s, t, if next.mark then Unlink(op, prev, curr, next) else Restart(op))
  }

  function WalkStep(s: State, t: nat, op: Op, prev: Addr, curr: Addr, next: Link): State {
    if op.Erase? && !next.mark && NodeAt(s, curr).value == op.v then Go(s, t, TryMark(op, prev, curr, next))
    else if next == Link(NULL, false) then Return(s, t, if op.Erase? then Erased(0) else Counted(op.n))
    else if next.mark then Go(s, t, Unlink(op, prev, curr, next))
    else if next.ptr == curr then Go(s, t, Restart(op))
    else Go(s, t, Walk(if op.Erase? then op else Size(op.n + 1), curr, next.ptr))
  }

  // ---------------------------------------------------------------- runs

  predicate Legal(s: State, acts: seq<Action>)
    decreases |acts|
  {
    acts == [] || (Enabled(s, acts[0]) && Legal(Apply(s, acts[0]), acts[1..]))
  }

  function Exec(s: State, acts: seq<Action>): State
    decreases |acts|
  {
    if acts == [] then s else Exec(Apply(s, acts[0]), acts[1..])
  }

  ghost predicate Reachable(s: State) {
    exists threads: nat, acts :: Legal(Init(threads), acts) && s == Exec(Init(threads), acts)
  }
}
