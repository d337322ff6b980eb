/** The hazard-pointer manager as interleaved atomic steps (sequentially consistent), for any
    number of handles, slots, cells and threads calling `get_handle`.

    A deleter keeps no retired list: the duty to delete a pointer is either in the hands of
    the thread that is scanning for it, or parked as a mark on a slot that holds it. */
module HazardProtocol {
  import opened HazardSlots

  type Cell = nat

  // ---------------------------------------------------------------- state

  /** What `_handles[i]` holds: null, the plain address, or the marked (reusable) address. */
  datatype Own = Absent | Live | Free

  /** Where a deletion scan stands. */
  datatype Phase =
    | Begin                          // about to read _handle_counter
    | AtHandle(i: int)               // about to read _handles[i]; i < 0: about to destroy
    | AtCounter(i: int)              // about to read the _counter of handle i
    | AtSlot(i: int, k: int)         // about to read slot k of handle i; k < 0: not found there
    | AtCas(i: int, k: int)          // saw the pointer unmarked in slot k, about to mark it

  datatype Scan = NoScan | Scan(p: Ptr, at: Phase)

  /** The owner's program counter: the next atomic step of the running operation. */
  datatype Pc =
    | Unowned
    | RaiseLoad | RaiseCas(b: int)                                     // end of get_handle
    | Idle
    | ProtInc(c: Cell, t: Ptr) | ProtStore(c: Cell, t: Ptr, pos: int)   // protect
    | ProtCheck(c: Cell, t: Ptr, pos: int)
    | ProtSwap(c: Cell, t: Ptr, pos: int, next: Ptr) | ProtDec
    | RawInc(t: Ptr) | RawStore(t: Ptr, pos: int)                       // protect_raw
    | TopDec(t: Ptr, pos: int) | TopClear(t: Ptr, pos: int)             // remove, last slot
    | MovLoad(t: Ptr, pos: int, n: int)                                // remove, with swap
    | MovOver(t: Ptr, pos: int, n: int, last: Slot)
    | MovDec(t: Ptr, pos: int, n: int, last: Slot, due: bool)
    | MovClear(t: Ptr, pos: int, n: int, last: Slot, due: bool)
    | MovFix(t: Ptr, pos: int, due: bool, temp: Slot)
    | DtorLoop(i: int) | DtorZero | DtorFree                           // ~handle_type

  /** One internal handle with the thread that runs on it. `valid` is the client's view: the
      protections it has obtained and not yet given up. */
  datatype Handle = Handle(own: Own, counter: int, slots: seq<Slot>, pc: Pc, scan: Scan,
                           valid: multiset<Ptr>)

  /** A thread inside the search loop of get_handle. */
  datatype Seeker = Look(i: nat) | TryNew(i: nat) | TryReuse(i: nat)

  datatype State = State(hc: int, hs: seq<Handle>, seekers: map<nat, Seeker>,
                         cells: map<Cell, Ptr>, alive: set<Ptr>, priv: map<Ptr, nat>,
                         retired: set<Ptr>)

  function EmptyHandle(slotCount: nat): Handle {
    Handle(Absent, 0, seq(slotCount, _ => EMPTY), Unowned, NoScan, multiset{})
  }

  function Init(handleCount: nat, slotCount: nat): State {
    State(-1, seq(handleCount, _ => EmptyHandle(slotCount)), map[], map[], {}, map[], {})
  }

  function Read(s: State, c: Cell): Ptr {
    if c in s.cells then s.cells[c] else NULL
  }

  function H(s: State, i: int): Handle {
    if 0 <= i < |s.hs| then s.hs[i] else EmptyHandle(0)
  }

  function With(s: State, i: int, h: Handle): State {
    if 0 <= i < |s.hs| then s.(hs := s.hs[i := h]) else s
  }

  // ---------------------------------------------------------------- actions

  datatype Action =
    | Acquire(a: nat) | Seek(a: nat)                    // get_handle
    | CallProtect(i: nat, c: Cell) | CallRaw(i: nat, p: Ptr)
    | CallUnprotect(i: nat, p: Ptr) | CallDelete(i: nat, p: Ptr) | CallDestruct(i: nat)
    | Run(i: nat)                                       // next atomic step of the thread on i
    | Create(i: nat, p: Ptr) | Publish(i: nat, c: Cell, p: Ptr) | Write(c: Cell, p: Ptr)

  predicate Resting(h: Handle) {
    h.own.Live? && h.pc.Idle? && h.scan.NoScan?
  }

  /** When an action may happen: program order, and the discipline the manager asks of its
      clients (a pointer leaves every cell before safe_delete and is retired once; protect_raw
      only on own private or already protected pointers; at most maxProtections slots). */
  predicate Enabled(s: State, a: Action) {
    match a
    case Acquire(x) => x !in s.seekers
    case Seek(x) => x in s.seekers
    case CallProtect(i, c) => i < |s.hs| && Resting(s.hs[i]) && s.hs[i].counter < |s.hs[i].slots|
    case CallRaw(i, p) =>
      && i < |s.hs| && Resting(s.hs[i]) && s.hs[i].counter < |s.hs[i].slots|
      && p != NULL && (p in s.hs[i].valid || (p in s.priv && s.priv[p] == i))
    case CallUnprotect(i, p) => i < |s.hs| && Resting(s.hs[i]) && p != NULL
    case CallDelete(i, p) =>
      && i < |s.hs| && Resting(s.hs[i]) && p in s.alive
      && (p in s.priv ==> s.priv[p] == i)
      && forall c :: c in s.cells ==> s.cells[c] != p
    case CallDestruct(i) => i < |s.hs| && Resting(s.hs[i])
    case Run(i) =>
      && i < |s.hs|
      && (s.hs[i].scan.Scan? || (!s.hs[i].pc.Idle? && !s.hs[i].pc.Unowned?))
    case Create(i, p) =>
      i < |s.hs| && Resting(s.hs[i]) && p != NULL && p !in s.alive && p !in s.retired
    case Publish(i, c, p) => i < |s.hs| && Resting(s.hs[i]) && p in s.priv && s.priv[p] == i
    case Write(c, p) => p == NULL || (p in s.alive && p !in s.priv)
  }

  /** The step destroys `p`: the scan has run out of handles. */
  predicate Destroys(s: State, a: Action, p: Ptr) {
    a.Run? && var h := H(s, a.i);
    h.scan.Scan? && h.scan.p == p && h.scan.at.AtHandle? && h.scan.at.i < 0
  }

  function Apply(s: State, a: Action): State {
    match a
    case Acquire(x) => s.(seekers := s.seekers[x := Look(0)])
    case Seek(x) => if x in s.seekers then SeekStep(s, x, s.seekers[x]) else s
    case CallProtect(i, c) =>
      var t := Read(s, c);
      if t == NULL then s else With(s, i, H(s, i).(pc := ProtInc(c, t)))
    case CallRaw(i, p) => With(s, i, H(s, i).(pc := RawInc(p)))
    case CallUnprotect(i, p) => With(s, i, StartRemove(H(s, i), p))
    case CallDelete(i, p) =>
      With(s, i, H(s, i).(scan := Scan(p, Begin)))
        .(alive := s.alive - {p}, priv := s.priv - {p}, retired := s.retired + {p})
    case CallDestruct(i) =>
      With(s, i, H(s, i).(pc := DtorLoop(H(s, i).counter - 1), valid := multiset{}))
    case Run(i) => if H(s, i).scan.Scan? then ScanStep(s, i) else OwnerStep(s, i)
    case Create(i, p) => s.(alive := s.alive + {p}, priv := s.priv[p := i])
    case Publish(i, c, p) => s.(cells := s.cells[c := p], priv := s.priv - {p})
    case Write(c, p) => s.(cells := s.cells[c := p])
  }

  // get_handle, hazard_reclamation.hpp:188-214
  function SeekStep(s: State, x: nat, k: Seeker): State {
    var own := H(s, k.i).own;
    var gone := s.(seekers := s.seekers - {x});
    if k.i >= |s.hs| then gone
    else match k
      case Look(i) =>
        s.(seekers := s.seekers[x := match own case Absent => TryNew(i)
                                               case Free => TryReuse(i)
                                               case Live => Look(i + 1)])
      case TryNew(i) =>
        if own.Absent? then With(gone, i, H(s, i).(own := Live, pc := RaiseLoad))
        else s.(seekers := s.seekers[x := if own.Free? then TryReuse(i) else Look(i + 1)])
      case TryReuse(i) =>
        if own.Free? then With(gone, i, H(s, i).(own := Live, pc := Idle))
        else s.(seekers := s.seekers[x := Look(i + 1)])
  }

  /** unprotect gives the protection up, then runs `find` and reads _counter; only the owner
      writes these (see OthersKeepAddresses), so they count as one step. */
  function StartRemove(h: Handle, p: Ptr): Handle {
    var pos := Topmost(h.slots, if h.counter <= |h.slots| then h.counter else |h.slots|, p);
    var h' := h.(valid := h.valid - multiset{p});
    if pos < 0 then h'
    else if pos == h.counter - 1 then h'.(pc := TopDec(p, pos))
    else h'.(pc := MovLoad(p, pos, h.counter))
  }

  /** The step after a slot gave up `p` at index `pos`: a mark found there is a duty to go on. */
  function Resume(h: Handle, due: bool, i: int, p: Ptr, pos: int, pc: Pc): Handle {
    h.(pc := pc, scan := if due then Scan(p, AtSlot(i, pos)) else NoScan)
  }

  /** The owner's next atomic step on its own handle. `hc` is what it reads from
      _handle_counter, `seen` what it reads from the shared cell it is protecting. */
  function Advance(h: Handle, i: int, hc: int, seen: Ptr): Handle {
    match h.pc
    case Unowned => h
    case Idle => h
    case RaiseLoad => h.(pc := RaiseCas(hc))
    case RaiseCas(b) => h.(pc := if b >= i then Idle else RaiseCas(hc))
    case ProtInc(c, t) => h.(pc := ProtStore(c, t, h.counter), counter := h.counter + 1)
    case ProtStore(c, t, pos) =>
      h.(pc := ProtCheck(c, t, pos), slots := Put(h.slots, pos, Slot(t, false)))
    case ProtCheck(c, t, pos) =>
      if seen == t then h.(pc := Idle, valid := h.valid + multiset{t})
      else h.(pc := ProtSwap(c, t, pos, seen))
    case ProtSwap(c, t, pos, next) =>
      Resume(h.(slots := Put(h.slots, pos, Slot(next, false))), At(h.slots, pos).mark, i, t, pos,
             if next == NULL then ProtDec else ProtCheck(c, next, pos))
    case ProtDec => h.(pc := Idle, counter := h.counter - 1)
    case RawInc(t) => h.(pc := RawStore(t, h.counter), counter := h.counter + 1)
    case RawStore(t, pos) =>
      h.(pc := Idle, slots := Put(h.slots, pos, Slot(t, false)), valid := h.valid + multiset{t})
    case TopDec(t, pos) => h.(pc := TopClear(t, pos), counter := h.counter - 1)
    case TopClear(t, pos) =>
      Resume(h.(slots := Put(h.slots, pos, EMPTY)), At(h.slots, pos).mark, i, t, pos, Idle)
    case MovLoad(t, pos, n) => h.(pc := MovOver(t, pos, n, At(h.slots, n - 1)))
    case MovOver(t, pos, n, last) =>
      h.(pc := MovDec(t, pos, n, last, At(h.slots, pos).mark), slots := Put(h.slots, pos, last))
    case MovDec(t, pos, n, last, due) => h.(pc := MovClear(t, pos, n, last, due), counter := h.counter - 1)
    case MovClear(t, pos, n, last, due) =>
      var temp := At(h.slots, n - 1);
      var h' := h.(slots := Put(h.slots, n - 1, EMPTY));
      if temp != last then h'.(pc := MovFix(t, pos, due, temp)) else Resume(h', due, i, t, pos, Idle)
    case MovFix(t, pos, due, temp) =>
      Resume(h.(slots := Put(h.slots, pos, temp)), due, i, t, pos, Idle)
    case DtorLoop(k) =>
      if k < 0 then h.(pc := DtorZero)
      else Resume(h.(slots := Put(h.slots, k, EMPTY)), At(h.slots, k).mark, i, At(h.slots, k).ptr, k,
                  DtorLoop(k - 1))
    case DtorZero => h.(pc := DtorFree, counter := 0)
    case DtorFree => h.(pc := Unowned, own := Free)
  }

  function Seen(s: State, h: Handle): Ptr {
    if h.pc.ProtCheck? then Read(s, h.pc.c) else NULL
  }

  function OwnerStep(s: State, i: int): State {
    var h := H(s, i);
    if h.pc.RaiseCas? && h.pc.b < i && s.hc == h.pc.b then s.(hc := i)   // the CAS succeeds
    else With(s, i, Advance(h, i, s.hc, Seen(s, h)))
  }

  /** safe_delete and continue_deletion: handles downwards, in each the slots downwards. */
  function ScanStep(s: State, i: int): State {
    var h := H(s, i);
    if h.scan.NoScan? then s else
    var p := h.scan.p;
    match h.scan.at
    case Begin => With(s, i, h.(scan := Scan(p, AtHandle(s.hc))))
    case AtHandle(j) =>
      if j < 0 then With(s, i, h.(scan := NoScan)).(retired := s.retired - {p})
      else if H(s, j).own.Absent? then s   // null dereference: shown unreachable
      else With(s, i, h.(scan := Scan(p, if H(s, j).own.Free? then AtHandle(j - 1) else AtCounter(j))))
    case AtCounter(j) => With(s, i, h.(scan := Scan(p, AtSlot(j, H(s, j).counter - 1))))
    case AtSlot(j, k) =>
      With(s, i, h.(scan :=
        if k < 0 then Scan(p, AtHandle(j - 1))
        else var x := At(H(s, j).slots, k);
          if x.ptr != p then Scan(p, AtSlot(j, k - 1))
          else if x.mark then NoScan          // somebody else's duty: shown unreachable
          else Scan(p, AtCas(j, k))))
    case AtCas(j, k) =>
      var x := At(H(s, j).slots, k);
      if x == Slot(p, false) then
        var s' := With(s, j, H(s, j).(slots := Put(H(s, j).slots, k, Slot(p, true))));
        With(s', i, H(s', i).(scan := NoScan))
      else With(s, i, h.(scan := if x == Slot(p, true) then NoScan else Scan(p, AtSlot(j, k - 1))))
  }

  /** The scan is about to dereference a null handle, or to drop its duty on a marked slot. */
  predicate Faults(s: State, a: Action) {
    a.Run? && match H(s, a.i).scan
    case NoScan => false
    case Scan(p, Begin) => false
    case Scan(p, AtHandle(j)) => j >= 0 && H(s, j).own.Absent?
    case Scan(p, AtCounter(j)) => H(s, j).own.Absent?
    case Scan(p, AtSlot(j, k)) => At(H(s, j).slots, k) == Slot(p, true)
    case Scan(p, AtCas(j, k)) => At(H(s, j).slots, k) == Slot(p, true)
  }

  // ---------------------------------------------------------------- runs

  predicate Legal(s: State, acts: seq<Action>)
    decreases |acts|
  {
    acts == [] || (Enabled(s, acts[0]) && Legal(Apply(s, acts[0]), acts[1..]))
  }

  function Exec(s: State, acts: seq<Action>): State
    decreases |acts|
  {
    if acts == [] then s else Exec(Apply(s, acts[0]), acts[1..])
  }

  ghost predicate Reachable(s: State) {
    exists handleCount: nat, slotCount: nat, acts ::
      Legal(Init(handleCount, slotCount), acts) && s == Exec(Init(handleCount, slotCount), acts)
  }
}
