/** What every reachable state of the hazard protocol keeps. */
module HazardInvariant {
  import opened HazardSlots
  import opened HazardProtocol

  // ---------------------------------------------------------------- one handle

  /** What the slots hold beyond the valid protections, at each point of an operation. */
  function Extra(h: Handle): multiset<Ptr> {
    match h.pc
    case ProtCheck(_, t, _) => multiset{t}
    case ProtSwap(_, t, _, _) => multiset{t}
    case TopDec(t, _) => multiset{t}
    case TopClear(t, _) => multiset{t}
    case MovLoad(t, _, _) => multiset{t}
    case MovOver(t, _, _, _) => multiset{t}
    case MovDec(_, _, _, last, _) => multiset{last.ptr}
    case MovClear(_, _, _, last, _) => multiset{last.ptr}
    case _ => multiset{}
  }

  /** Slots below this index are occupied, those from it on are empty. */
  function Top(h: Handle): int {
    match h.pc
    case ProtStore(_, _, _) => h.counter - 1
    case ProtDec => h.counter - 1
    case RawStore(_, _) => h.counter - 1
    case TopClear(_, _) => h.counter + 1
    case MovClear(_, _, _, _, _) => h.counter + 1
    case DtorLoop(i) => i + 1
    case DtorZero => 0
    case DtorFree => 0
    case _ => h.counter
  }

  predicate Destructing(h: Handle) {
    h.pc.DtorLoop? || h.pc.DtorZero? || h.pc.DtorFree?
  }

  predicate Unshared(h: Handle) {
    h.pc.Unowned? || h.pc.RaiseLoad? || h.pc.RaiseCas? || Destructing(h)
  }

  /** The slots hold exactly the non-null pointers of `m`, each as often as `m` says. */
  ghost predicate Holds(slots: seq<Slot>, m: multiset<Ptr>) {
    forall p: Ptr :: p != NULL ==> Occupancy(slots)[p] == m[p]
  }

  function Expected(h: Handle): multiset<Ptr> {
    h.valid + Extra(h)
  }

  ghost predicate PackedTo(slots: seq<Slot>, top: int) {
    && 0 <= top <= |slots|
    && (forall k :: 0 <= k < top ==> slots[k].ptr != NULL)
    && (forall k :: top <= k < |slots| ==> slots[k] == EMPTY)
  }

  ghost predicate NotFrom(h: Handle, k: int, p: Ptr) {
    forall j :: 0 <= j && k <= j < |h.slots| ==> h.slots[j].ptr != p
  }

  ghost predicate PcOk(h: Handle)
    requires 0 <= h.counter <= |h.slots| && PackedTo(h.slots, Top(h))
  {
    match h.pc
    case Unowned => h.counter == 0
    case RaiseLoad => h.counter == 0
    case RaiseCas(_) => h.counter == 0
    case Idle => true
    case ProtInc(_, t) => t != NULL && h.counter < |h.slots|
    case ProtStore(_, t, pos) => t != NULL && pos == h.counter - 1
    case ProtCheck(_, t, pos) => t != NULL && pos == h.counter - 1 >= 0 && h.slots[pos].ptr == t
    case ProtSwap(_, t, pos, next) => t != NULL && next != t && pos == h.counter - 1 >= 0 && h.slots[pos].ptr == t
    case ProtDec => true
    case RawInc(t) => t != NULL && h.counter < |h.slots|
    case RawStore(t, pos) => t != NULL && pos == h.counter - 1
    case TopDec(t, pos) => t != NULL && pos == h.counter - 1 >= 0 && h.slots[pos].ptr == t
    case TopClear(t, pos) => t != NULL && pos == h.counter && h.slots[pos].ptr == t
    case MovLoad(t, pos, n) =>
      t != NULL && 0 <= pos < n - 1 && n == h.counter && h.slots[pos].ptr == t && NotFrom(h, pos + 1, t)
    case MovOver(t, pos, n, last) =>
      && t != NULL && 0 <= pos < n - 1 && n == h.counter && h.slots[pos].ptr == t && NotFrom(h, pos + 1, t)
      && h.slots[n - 1].ptr == last.ptr && (last.mark ==> h.slots[n - 1].mark)
    case MovDec(t, pos, n, last, _) =>
      && t != NULL && 0 <= pos < n - 1 && n == h.counter && NotFrom(h, pos, t)
      && h.slots[n - 1].ptr == last.ptr == h.slots[pos].ptr
      && (last.mark ==> h.slots[n - 1].mark && h.slots[pos].mark)
    case MovClear(t, pos, n, last, _) =>
      && t != NULL && 0 <= pos < n - 1 && n - 1 == h.counter && NotFrom(h, pos, t)
      && h.slots[n - 1].ptr == last.ptr == h.slots[pos].ptr
      && (last.mark ==> h.slots[n - 1].mark && h.slots[pos].mark)
    case MovFix(t, pos, _, temp) =>
      && t != NULL && 0 <= pos < h.counter && NotFrom(h, pos, t)
      && h.slots[pos].ptr == temp.ptr && temp.mark
    case DtorLoop(i) => i < h.counter
    case DtorZero => true
    case DtorFree => h.counter == 0
  }

  ghost predicate Local(h: Handle) {
    && 0 <= h.counter <= |h.slots|
    && (Destructing(h) || Holds(h.slots, Expected(h))) && PackedTo(h.slots, Top(h)) && PcOk(h)
    && NULL !in h.valid
    && (Unshared(h) ==> h.valid == multiset{})
    && (h.own.Live? <==> !h.pc.Unowned?)
    && (h.scan.Scan? ==> h.scan.p != NULL && (h.pc.Idle? || h.pc.ProtCheck? || h.pc.ProtDec? || h.pc.DtorLoop?))
  }

  ghost predicate Locals(s: State) {
    forall i :: 0 <= i < |s.hs| ==> Local(s.hs[i])
  }

  // ---------------------------------------------------------------- the manager

  ghost predicate HandleOk(s: State, i: int)
    requires 0 <= i < |s.hs|
  {
    && (i <= s.hc ==> !s.hs[i].own.Absent?)
    && (i > s.hc && s.hs[i].own.Live? ==> s.hs[i].pc.RaiseLoad? || s.hs[i].pc.RaiseCas?)
    && (i > s.hc ==> !s.hs[i].own.Free?)
    && (s.hs[i].pc.RaiseCas? ==> s.hs[i].pc.b <= s.hc)
    && match s.hs[i].scan
       case NoScan => true
       case Scan(_, Begin) => true
       case Scan(_, AtHandle(j)) => -1 <= j <= s.hc
       case Scan(_, AtCounter(j)) => 0 <= j <= s.hc
       case Scan(_, AtSlot(j, k)) => 0 <= j <= s.hc && k < |H(s, j).slots|
       case Scan(_, AtCas(j, k)) => 0 <= j <= s.hc && 0 <= k < |H(s, j).slots|
  }

  /** Handles are taken from index 0 upwards and never go back to null. */
  ghost predicate Prefix(s: State) {
    forall i, j :: 0 <= i < j < |s.hs| && s.hs[i].own.Absent? ==> s.hs[j].own.Absent?
  }

  ghost predicate SeekerOk(s: State, k: Seeker) {
    && (forall j :: 0 <= j < k.i && j < |s.hs| ==> !s.hs[j].own.Absent?)
    && (k.TryReuse? && k.i < |s.hs| ==> !s.hs[k.i].own.Absent? && k.i <= s.hc)
  }

  ghost predicate Manager(s: State) {
    && -1 <= s.hc < |s.hs|
    && (forall i :: 0 <= i < |s.hs| ==> HandleOk(s, i))
    && Prefix(s)
    && (forall x :: x in s.seekers ==> SeekerOk(s, s.seekers[x]))
  }

  // ---------------------------------------------------------------- the clients' memory

  ghost predicate ClientOk(s: State, i: int)
    requires 0 <= i < |s.hs|
  {
    && (forall p :: p in s.hs[i].valid ==> p in s.alive || p in s.retired)
    && (s.hs[i].pc.RawInc? || s.hs[i].pc.RawStore? ==>
          s.hs[i].pc.t in s.hs[i].valid || (s.hs[i].pc.t in s.priv && s.priv[s.hs[i].pc.t] == i))
  }

  ghost predicate Memory(s: State) {
    && NULL !in s.alive && NULL !in s.retired && s.alive !! s.retired
    && (forall c :: c in s.cells ==> s.cells[c] == NULL || s.cells[c] in s.alive)
    && (forall p :: p in s.priv ==> p in s.alive)
    && (forall i :: 0 <= i < |s.hs| ==> ClientOk(s, i))
  }

  // ---------------------------------------------------------------- deletion duties

  /** Where the duty to delete a retired pointer is. */
  datatype Loc = InSlot(i: int, k: int) | InHand(i: int)

  /** The thread on `h` holds the duty for `p`: it is scanning, or it has just taken a mark. */
  predicate Hand(h: Handle, p: Ptr) {
    || (h.scan.Scan? && h.scan.p == p)
    || ((h.pc.MovDec? || h.pc.MovClear? || h.pc.MovFix?) && h.pc.due && h.pc.t == p)
    || (h.pc.MovFix? && h.pc.temp.ptr == p)
  }

  /** Slot `k` is the old copy of a marked last slot that a swap has already copied down. */
  predicate Shadow(h: Handle, k: int) {
    (h.pc.MovDec? || h.pc.MovClear?) && h.pc.last.mark && k == h.pc.n - 1
  }

  ghost predicate MarkOk(s: State, d: map<Ptr, Loc>, i: int, k: int)
    requires 0 <= i < |s.hs| && 0 <= k < |s.hs[i].slots|
  {
    s.hs[i].slots[k].mark ==>
      var p := s.hs[i].slots[k].ptr;
      p in d && (d[p] == InSlot(i, k) || Shadow(s.hs[i], k))
  }

  ghost predicate LocOk(s: State, p: Ptr, l: Loc) {
    match l
    case InSlot(i, k) => 0 <= i < |s.hs| && 0 <= k < |s.hs[i].slots| && s.hs[i].slots[k] == Slot(p, true)
    case InHand(i) => 0 <= i < |s.hs| && Hand(s.hs[i], p)
  }

  ghost predicate Duties(s: State, d: map<Ptr, Loc>) {
    && d.Keys == s.retired
    && (forall i, k :: 0 <= i < |s.hs| && 0 <= k < |s.hs[i].slots| ==> MarkOk(s, d, i, k))
    && (forall p :: p in d ==> LocOk(s, p, d[p]))
    && (forall i, p :: 0 <= i < |s.hs| && Hand(s.hs[i], p) ==> p in d && d[p] == InHand(i))
  }

  // ---------------------------------------------------------------- scans miss nothing

  ghost predicate NoneAbove(s: State, j: int, p: Ptr) {
    forall i :: 0 <= i < |s.hs| && j < i ==> p !in s.hs[i].valid
  }

  /** If the handle validly protects `p`, some slot at or below `k` holds it. */
  ghost predicate Covers(h: Handle, p: Ptr, k: int) {
    p in h.valid ==> exists j :: 0 <= j < |h.slots| && j <= k && h.slots[j].ptr == p
  }

  ghost predicate ScanPlaced(s: State, p: Ptr, at: Phase) {
    match at
    case Begin => true
    case AtHandle(j) => NoneAbove(s, j, p)
    case AtCounter(j) => NoneAbove(s, j, p)
    case AtSlot(j, k) => NoneAbove(s, j, p) && Covers(H(s, j), p, k)
    case AtCas(j, k) => NoneAbove(s, j, p) && Covers(H(s, j), p, k)
  }

  ghost predicate Placed(s: State, p: Ptr, l: Loc) {
    match l
    case InSlot(i, _) => NoneAbove(s, i, p)
    case InHand(i) =>
      var sc := H(s, i).scan;
      if sc.Scan? && sc.p == p then ScanPlaced(s, p, sc.at) else NoneAbove(s, i, p)
  }

  ghost predicate Placements(s: State, d: map<Ptr, Loc>) {
    forall p :: p in d ==> Placed(s, p, d[p])
  }

  ghost predicate Inv(s: State, d: map<Ptr, Loc>) {
    Locals(s) && Manager(s) && Memory(s) && Duties(s, d) && Placements(s, d)
  }

  lemma InitInv(handleCount: nat, slotCount: nat)
    ensures Inv(Init(handleCount, slotCount), map[])
  {
    var h := EmptyHandle(slotCount);
    assert Local(h) by {
      forall p: Ptr | p != NULL ensures Occupancy(h.slots)[p] == 0 {
        if Occupancy(h.slots)[p] > 0 { var k := OccupancyWitness(h.slots, p); }
      }
    }
  }
}
