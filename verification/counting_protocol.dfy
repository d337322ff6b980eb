/** The counting reclamation manager as interleaved atomic steps (sequentially consistent), for
    any number of threads. Memory is recycled through a freelist and never given back, so a slow
    thread may count up and down an object that was erased, queued or reborn in the meantime. */
module CountingProtocol {

  type Ptr = nat
  type Cell = nat

  const NULL: Ptr := 0
  const DEL_FLAG: nat := 0x8000_0000
  const WORD: nat := 0x1_0000_0000

  /** A pointer word: the address and the tag bits above it. */
  datatype Link = Link(ptr: Ptr, tag: nat)

  /** What happens to the T inside a counted object. */
  datatype Phase =
    | Alive
    | Retired                  // safe_delete has set the delete flag
    | Erasing(t: nat)          // thread t won the reset and is about to run ~T
    | Erased(t: nat)           // ~T has run, t is about to push the memory on the freelist
    | Queued
    | Popped(t: nat)           // t took it from the freelist and is about to construct a new T

  /** `ctr` is the 32-bit `_counter`. The last three fields count events in the object's history. */
  datatype Object = Object(ctr: nat, phase: Phase, retires: nat, erases: nat, pushes: nat)

  /** What a thread does after a decrement it had to do inside `protect`. */
  datatype Cont = Done | Again(c: Cell, next: Link)

  datatype Pc =
    | Idle
    | ProtInc(c: Cell, v: Link) | ProtCheck(c: Cell, v: Link) | ProtDec(c: Cell, v: Link, next: Link)
    | Reset(p: Ptr, k: Cont) | Erase(p: Ptr, k: Cont) | Push(p: Ptr, k: Cont)
    | Emplace(p: Ptr)

  datatype Thread = Thread(pc: Pc, valid: multiset<Ptr>)

  datatype State = State(ths: seq<Thread>, objs: map<Ptr, Object>, cells: map<Cell, Link>,
                         freelist: seq<Ptr>, priv: map<Ptr, nat>)

  function Init(threads: nat): State {
    State(seq(threads, _ => Thread(Idle, multiset{})), map[], map[], [], map[])
  }

  function Read(s: State, c: Cell): Link {
    if c in s.cells then s.cells[c] else Link(NULL, 0)
  }

  // ---------------------------------------------------------------- 32-bit atomics

  function FetchAdd(ctr: nat): nat { (ctr + 1) % WORD }

  function FetchSub(ctr: nat): nat { (ctr + WORD - 1) % WORD }

  function FetchOr(ctr: nat): nat { if ctr % WORD >= DEL_FLAG then ctr else ctr + DEL_FLAG }

  // ---------------------------------------------------------------- holds

  /** The pointer a thread has counted up without having validated it, or about to count down. */
  function Tentative(pc: Pc): Ptr {
    match pc
    case ProtCheck(_, v) => v.ptr
    case ProtDec(_, v, _) => v.ptr
    case _ => NULL
  }

  function HoldsOf(th: Thread, p: Ptr): nat {
    th.valid[p] + (if p != NULL && Tentative(th.pc) == p then 1 else 0)
  }

  function Holds(ths: seq<Thread>, p: Ptr): nat {
    if ths == [] then 0 else HoldsOf(ths[0], p) + Holds(ths[1..], p)
  }

  // ---------------------------------------------------------------- actions

  datatype Action =
    | CallProtect(t: nat, c: Cell) | CallRaw(t: nat, p: Ptr) | CallUnprotect(t: nat, p: Ptr)
    | CallDelete(t: nat, p: Ptr) | CallCreate(t: nat, q: Ptr)
    | Run(t: nat)
    | Publish(t: nat, c: Cell, v: Link) | Write(c: Cell, v: Link)

  predicate Resting(s: State, t: nat) {
    t < |s.ths| && s.ths[t].pc.Idle?
  }

  predicate IsAlive(s: State, p: Ptr) {
    p in s.objs && s.objs[p].phase.Alive?
  }

  /** Program order, fewer than 2^31 holds, and the discipline asked of the clients. */
  predicate Enabled(s: State, a: Action) {
    match a
    case CallProtect(t, c) => Resting(s, t)
    case CallRaw(t, p) =>
      && Resting(s, t) && Holds(s.ths, p) + 1 < DEL_FLAG
      && p != NULL && (p in s.ths[t].valid || (p in s.priv && s.priv[p] == t))
    case CallUnprotect(t, p) => Resting(s, t) && p in s.ths[t].valid
    case CallDelete(t, p) =>
      && Resting(s, t) && IsAlive(s, p) && (p in s.priv ==> s.priv[p] == t)
      && forall c :: c in s.cells ==> s.cells[c].ptr != p
    case CallCreate(t, q) => Resting(s, t) && (s.freelist == [] ==> q != NULL && q !in s.objs)
    case Run(t) =>
      && t < |s.ths| && !s.ths[t].pc.Idle?
      && (s.ths[t].pc.ProtInc? ==> Holds(s.ths, s.ths[t].pc.v.ptr) + 1 < DEL_FLAG)
    case Publish(t, c, v) => Resting(s, t) && v.ptr in s.priv && s.priv[v.ptr] == t
    case Write(c, v) => v.ptr == NULL || (IsAlive(s, v.ptr) && v.ptr !in s.priv)
  }

  function Obj(s: State, p: Ptr): Object {
    if p in s.objs then s.objs[p] else Object(0, Queued, 0, 0, 0)
  }

  function Th(s: State, t: nat): Thread {
    if t < |s.ths| then s.ths[t] else Thread(Idle, multiset{})
  }

  /** Thread `t` and object `p` change in one atomic step. */
  function Put(s: State, t: nat, th: Thread, p: Ptr, o: Object): State {
    if t < |s.ths| && p in s.objs then s.(ths := s.ths[t := th], objs := s.objs[p := o]) else s
  }

  function PutThread(s: State, t: nat, th: Thread): State {
    if t < |s.ths| then s.(ths := s.ths[t := th]) else s
  }

  function After(k: Cont): Pc {
    match k
    case Done => Idle
    case Again(c, next) => if next.ptr == NULL then Idle else ProtInc(c, next)
  }

  /** decrement_counter: the caller that takes a flagged counter to zero has to try `reset`. */
  function Decremented(was: nat, p: Ptr, k: Cont): Pc {
    if was == DEL_FLAG + 1 then Reset(p, k) else After(k)
  }

  function Apply(s: State, a: Action): State {
    match a
    case CallProtect(t, c) =>
      var v := Read(s, c);
      if v.ptr == NULL then s else PutThread(s, t, Th(s, t).(pc := ProtInc(c, v)))
    case CallRaw(t, p) =>
      Put(s, t, Th(s, t).(valid := Th(s, t).valid + multiset{p}), p,
          Obj(s, p).(ctr := FetchAdd(Obj(s, p).ctr)))
    case CallUnprotect(t, p) =>
      Put(s, t, Thread(Decremented(Obj(s, p).ctr, p, Done), Th(s, t).valid - multiset{p}), p,
          Obj(s, p).(ctr := FetchSub(Obj(s, p).ctr)))
    case CallDelete(t, p) =>
      var o := Obj(s, p);
      Put(s, t, Th(s, t).(pc := if o.ctr == 0 then Reset(p, Done) else Idle), p,
          o.(ctr := FetchOr(o.ctr), phase := Retired, retires := o.retires + 1))
        .(priv := s.priv - {p})
    case CallCreate(t, q) =>
      if s.freelist == [] then
        s.(objs := s.objs[q := Object(0, Alive, 0, 0, 0)], priv := s.priv[q := t])
      else
        var p := s.freelist[0];
        Put(s, t, Th(s, t).(pc := Emplace(p)), p, Obj(s, p).(phase := Popped(t)))
          .(freelist := s.freelist[1..])
    case Run(t) => RunStep(s, t)
    case Publish(t, c, v) => s.(cells := s.cells[c := v], priv := s.priv - {v.ptr})
    case Write(c, v) => s.(cells := s.cells[c := v])
  }

  function RunStep(s: State, t: nat): State {
    var th := Th(s, t);
    match th.pc
    case Idle => s
    case ProtInc(c, v) =>
      Put(s, t, th.(pc := ProtCheck(c, v)), v.ptr, Obj(s, v.ptr).(ctr := FetchAdd(Obj(s, v.ptr).ctr)))
    case ProtCheck(c, v) =>
      PutThread(s, t, if Read(s, c) == v then Thread(Idle, th.valid + multiset{v.ptr})
                      else th.(pc := ProtDec(c, v, Read(s, c))))
    case ProtDec(c, v, next) =>
      Put(s, t, th.(pc := Decremented(Obj(s, v.ptr).ctr, v.ptr, Again(c, next))), v.ptr,
          Obj(s, v.ptr).(ctr := FetchSub(Obj(s, v.ptr).ctr)))
    case Reset(p, k) =>
      if Obj(s, p).ctr == DEL_FLAG
      then Put(s, t, th.(pc := Erase(p, k)), p, Obj(s, p).(ctr := 0, phase := Erasing(t)))
      else PutThread(s, t, th.(pc := After(k)))
    case Erase(p, k) =>
      Put(s, t, th.(pc := Push(p, k)), p, Obj(s, p).(phase := Erased(t), erases := Obj(s, p).erases + 1))
    case Push(p, k) =>
      Put(s, t, th.(pc := After(k)), p, Obj(s, p).(phase := Queued, pushes := Obj(s, p).pushes + 1))
        .(freelist := s.freelist + [p])
    case Emplace(p) =>
      Put(s, t, th.(pc := Idle), p, Obj(s, p).(phase := Alive)).(priv := s.priv[p := t])
  }

  /** The step runs the destructor of the T at `p`. */
  predicate Erases(s: State, a: Action, p: Ptr) {
    a.Run? && Th(s, a.t).pc.Erase? && Th(s, a.t).pc.p == p
  }

  // ---------------------------------------------------------------- runs

  predicate Legal(s: State, acts: seq<Action>)
    decreases |acts|
  {
    acts == [] || (Enabled(s, acts[0]) && Legal(Apply(s, acts[0]), acts[1..]))
  }

  function Exec(s: State, acts: seq<Action>): State
    decreases |acts|
  {
    if acts == [] then s else Exec(Apply(s, acts[0]), acts[1..])
  }

  ghost predicate Reachable(s: State) {
    exists threads: nat, acts :: Legal(Init(threads), acts) && s == Exec(Init(threads), acts)
  }
}
