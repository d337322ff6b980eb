/** The steps of a deletion scan, of get_handle and of the clients keep the invariant. */
module HazardScanSteps {
  import opened HazardSlots
  import opened HazardProtocol
  import opened HazardInvariant
  import opened HazardSteps

  // ---------------------------------------------------------------- scanning

  ghost predicate Scanning(s: State, d: map<Ptr, Loc>, i: int) {
    Inv(s, d) && 0 <= i < |s.hs| && s.hs[i].scan.Scan?
  }

  function Rescan(s: State, i: int, scan: Scan): State {
    With(s, i, H(s, i).(scan := scan))
  }

  /** Moving a scan on. */
  lemma ScanFrame(s: State, d: map<Ptr, Loc>, i: int, p: Ptr, at: Phase)
    requires Scanning(s, d, i) && s.hs[i].scan.p == p
    requires HandleOk(Rescan(s, i, Scan(p, at)), i) && ScanPlaced(s, p, at)
    ensures Inv(Rescan(s, i, Scan(p, at)), d)
  {
    hide Manager, Memory, Duties, Placements, HandleOk, ScanPlaced, Holds, PackedTo;
    var h, h' := s.hs[i], s.hs[i].(scan := Scan(p, at));
    assert Local(h') by { assert Local(h); }
    hide Local;
    ManagerFrame(s, i, h');
    ClientSame(s, i, h');
    MemoryFrame(s, i, h');
    RescanDuties(s, d, i, p, at);
    RescanPlacements(s, d, i, p, at);
  }

  lemma RescanDuties(s: State, d: map<Ptr, Loc>, i: int, p: Ptr, at: Phase)
    requires 0 <= i < |s.hs| && Duties(s, d) && s.hs[i].scan.Scan? && s.hs[i].scan.p == p
    ensures Duties(Rescan(s, i, Scan(p, at)), d)
    ensures p in d && d[p] == InHand(i)
  {
    var h, h', s' := s.hs[i], s.hs[i].(scan := Scan(p, at)), Rescan(s, i, Scan(p, at));
    assert Hand(h, p);
    forall q | q in d && d[q].i == i ensures LocOk(s', q, d[q]) { assert LocOk(s, q, d[q]); }
    forall k | 0 <= k < |h'.slots| ensures MarkOk(s', d, i, k) { assert MarkOk(s, d, i, k); }
    forall q | Hand(h', q) ensures q in d && d[q] == InHand(i) { assert Hand(h, q); }
    DutyFrame(s, d, i, h', d);
  }

  /** Moving on inside the same handle. */
  lemma ScanMove(s: State, d: map<Ptr, Loc>, i: int, p: Ptr, at: Phase)
    requires Scanning(s, d, i) && s.hs[i].scan.p == p && HandleOk(s, i)
    requires s.hs[i].scan.at.AtSlot? || s.hs[i].scan.at.AtCas?
    requires ScanPlaced(s, p, s.hs[i].scan.at)
    requires at.AtSlot? || (at.AtCas? && at.k >= 0)
    requires at.i == s.hs[i].scan.at.i && at.k <= s.hs[i].scan.at.k && Covers(H(s, at.i), p, at.k)
    ensures Inv(Rescan(s, i, Scan(p, at)), d)
  {
    hide Manager, Memory, Duties, Placements, Local, NoneAbove, Covers;
    ScanFrame(s, d, i, p, at);
  }

  lemma ClientSame(s: State, i: int, h': Handle)
    requires Memory(s) && 0 <= i < |s.hs| && h'.valid == s.hs[i].valid && h'.pc == s.hs[i].pc
    ensures ClientOk(With(s, i, h'), i)
  {
    assert ClientOk(s, i);
  }

  lemma RescanPlacements(s: State, d: map<Ptr, Loc>, i: int, p: Ptr, at: Phase)
    requires 0 <= i < |s.hs| && Placements(s, d) && s.hs[i].scan.Scan? && s.hs[i].scan.p == p
    requires p in d && d[p] == InHand(i) && ScanPlaced(s, p, at)
    ensures Placements(Rescan(s, i, Scan(p, at)), d)
  {
    var s' := Rescan(s, i, Scan(p, at));
    forall q | q in d ensures Placed(s', q, d[q]) {
      assert Placed(s, q, d[q]);
    }
  }

  /** The step moves the scan from `at` on to `to` and does nothing else. */
  ghost predicate Moves(s: State, i: int, to: Phase) {
    && 0 <= i < |s.hs| && s.hs[i].scan.Scan?
    && ScanStep(s, i) == Rescan(s, i, Scan(s.hs[i].scan.p, to))
  }

  lemma ManagerHandle(s: State, i: int)
    requires Manager(s) && 0 <= i < |s.hs|
    ensures HandleOk(s, i)
  {
  }

  lemma StepBegin(s: State, d: map<Ptr, Loc>, i: int)
    requires Scanning(s, d, i) && s.hs[i].scan.at.Begin?
    ensures Inv(ScanStep(s, i), d)
  {
    hide Duties, Placements, Memory, Holds, PackedTo;
    var p := s.hs[i].scan.p;
    forall j | 0 <= j < |s.hs| && s.hc < j ensures p !in s.hs[j].valid {
      assert HandleOk(s, j) && Local(s.hs[j]);
    }
    assert HandleOk(s, i);
    ScanFrame(s, d, i, p, AtHandle(s.hc));
  }

  /** A scan only ever visits slots of handles that exist. */
  lemma ScanSeesHandles(s: State, d: map<Ptr, Loc>, i: int)
    requires Scanning(s, d, i)
    ensures s.hs[i].scan.at.AtHandle? && s.hs[i].scan.at.i >= 0 ==> !H(s, s.hs[i].scan.at.i).own.Absent?
    ensures s.hs[i].scan.at.AtCounter? ==> !H(s, s.hs[i].scan.at.i).own.Absent?
  {
    assert HandleOk(s, i);
    var at := s.hs[i].scan.at;
    if (at.AtHandle? && at.i >= 0) || at.AtCounter? { assert HandleOk(s, at.i); }
  }

  /** No handle at all protects a pointer whose scan has passed handle 0. */
  lemma ScanPlace(s: State, d: map<Ptr, Loc>, i: int)
    requires Scanning(s, d, i)
    ensures ScanPlaced(s, s.hs[i].scan.p, s.hs[i].scan.at)
  {
    hide Locals, Manager, Memory, ScanPlaced, NoneAbove;
    var p := s.hs[i].scan.p;
    assert Hand(s.hs[i], p);
    assert Placed(s, p, d[p]);
  }

  lemma FreeProtectsNothing(s: State, j: int)
    requires Locals(s) && 0 <= j < |s.hs| && s.hs[j].own.Free?
    ensures s.hs[j].valid == multiset{}
  {
    hide Holds, PackedTo;
    assert Local(s.hs[j]);
  }

  lemma StepAtHandle(s: State, d: map<Ptr, Loc>, i: int)
    requires Scanning(s, d, i) && s.hs[i].scan.at.AtHandle? && s.hs[i].scan.at.i >= 0
    ensures Inv(ScanStep(s, i), d)
  {
    var p, j := s.hs[i].scan.p, s.hs[i].scan.at.i;
    ScanSeesHandles(s, d, i);
    ScanPlace(s, d, i);
    hide Duties, Placements, Memory, Local;
    assert HandleOk(s, i);
    var at := if s.hs[j].own.Free? then AtHandle(j - 1) else AtCounter(j);
    if s.hs[j].own.Free? { FreeProtectsNothing(s, j); }
    assert ScanPlaced(s, p, at);
    assert HandleOk(Rescan(s, i, Scan(p, at)), i);
    assert ScanStep(s, i) == Rescan(s, i, Scan(p, at));
    hide Inv, HandleOk, ScanPlaced, ScanStep, Locals, Manager;
    ScanFrame(s, d, i, p, at);
  }

  /** While an operation has a slot in use at or above _counter, a copy lies below. */
  lemma CounterCovers(h: Handle, p: Ptr)
    requires Local(h) && p != NULL
    ensures Covers(h, p, h.counter - 1)
  {
    if h.pc.TopClear? && p == h.pc.t { CounterCoversTop(h); }
    else if h.pc.MovClear? && p == h.pc.last.ptr { assert h.slots[h.pc.pos].ptr == p; }
    else if p in h.valid { CounterCoversPlain(h, p); }
  }

  lemma CounterCoversTop(h: Handle)
    requires Local(h) && h.pc.TopClear?
    ensures Covers(h, h.pc.t, h.counter - 1)
  {
    var p := h.pc.t;
    if p in h.valid {
      OccupancyUpdate(h.slots, h.pc.pos, EMPTY);
      var k := OccupancyWitness(h.slots[h.pc.pos := EMPTY], p);
      assert h.slots[k].ptr == p;
    }
  }

  lemma CounterCoversPlain(h: Handle, p: Ptr)
    requires Local(h) && p != NULL && p in h.valid
    requires h.pc.TopClear? ==> p != h.pc.t
    requires h.pc.MovClear? ==> p != h.pc.last.ptr
    ensures Covers(h, p, h.counter - 1)
  {
    assert Expected(h)[p] > 0;
    var k := OccupancyWitness(h.slots, p);
    assert k <= h.counter - 1;
  }

  lemma StepAtCounter(s: State, d: map<Ptr, Loc>, i: int)
    requires Scanning(s, d, i) && s.hs[i].scan.at.AtCounter?
    ensures Inv(ScanStep(s, i), d)
  {
    var p, j := s.hs[i].scan.p, s.hs[i].scan.at.i;
    ScanPlace(s, d, i);
    hide Duties, Placements, Memory, Holds, PackedTo;
    assert HandleOk(s, i) && Local(s.hs[i]) && Local(s.hs[j]);
    CounterCovers(s.hs[j], p);
    hide Covers, NoneAbove;
    var at := AtSlot(j, s.hs[j].counter - 1);
    assert at.k < |H(s, j).slots|;
    hide Local;
    assert ScanPlaced(s, p, at);
    assert HandleOk(Rescan(s, i, Scan(p, at)), i);
    assert Moves(s, i, at);
    hide Inv, HandleOk, ScanPlaced, ScanStep, Locals, Manager;
    ScanFrame(s, d, i, p, at);
  }

  /** A mark on a slot is a parked duty. */
  lemma MarkIsParked(s: State, d: map<Ptr, Loc>, j: int, k: int)
    requires Duties(s, d) && Locals(s) && 0 <= j < |s.hs| && 0 <= k < |s.hs[j].slots| && s.hs[j].slots[k].mark
    ensures s.hs[j].slots[k].ptr in d && d[s.hs[j].slots[k].ptr].InSlot?
  {
    hide Local;
    assert MarkOk(s, d, j, k);
    if Shadow(s.hs[j], k) {
      ShadowHasOriginal(s, j, k);
      assert MarkOk(s, d, j, s.hs[j].pc.pos);
    }
  }

  /** The thread that scans for `p` holds its only duty, so no slot shows `p` marked. */
  lemma ScanSeesNoMark(s: State, d: map<Ptr, Loc>, i: int, j: int, k: int)
    requires Duties(s, d) && 0 <= i < |s.hs| && s.hs[i].scan.Scan?
    requires Locals(s)
    ensures At(H(s, j).slots, k) != Slot(s.hs[i].scan.p, true)
  {
    hide Local;
    ScannedIsNotNull(s, i);
    assert Hand(s.hs[i], s.hs[i].scan.p);
    if At(H(s, j).slots, k).mark { MarkIsParked(s, d, j, k); }
  }

  lemma ScannedIsNotNull(s: State, i: int)
    requires Locals(s) && 0 <= i < |s.hs| && s.hs[i].scan.Scan?
    ensures s.hs[i].scan.p != NULL
  {
    hide Holds, PackedTo;
    assert Local(s.hs[i]);
  }

  /** The old copy of a marked slot coexists with the marked new copy, lower in the same handle. */
  lemma ShadowHasOriginal(s: State, j: int, k: int)
    requires Locals(s) && 0 <= j < |s.hs| && 0 <= k < |s.hs[j].slots| && Shadow(s.hs[j], k)
    ensures var pos := s.hs[j].pc.pos; 0 <= pos < k && s.hs[j].slots[pos] == s.hs[j].slots[k]
  {
    hide Holds;
    assert Local(s.hs[j]);
  }

  lemma StepAtSlotDone(s: State, d: map<Ptr, Loc>, i: int)
    requires Scanning(s, d, i) && s.hs[i].scan.at.AtSlot? && s.hs[i].scan.at.k < 0
    ensures Inv(ScanStep(s, i), d)
  {
    var p, j := s.hs[i].scan.p, s.hs[i].scan.at.i;
    hide Local, Duties, Placements, Memory, Manager;
    ManagerHandle(s, i);
    ScanPlace(s, d, i);
    assert Moves(s, i, AtHandle(j - 1));
    hide ScanStep;
    assert ScanPlaced(s, p, AtHandle(j - 1));
    hide NoneAbove, Covers, ScanPlaced;
    assert HandleOk(Rescan(s, i, Scan(p, AtHandle(j - 1))), i);
    hide Inv, HandleOk;
    ScanFrame(s, d, i, p, AtHandle(j - 1));
  }

  lemma StepAtSlotSkip(s: State, d: map<Ptr, Loc>, i: int)
    requires Scanning(s, d, i) && s.hs[i].scan.at.AtSlot? && s.hs[i].scan.at.k >= 0
    requires At(H(s, s.hs[i].scan.at.i).slots, s.hs[i].scan.at.k).ptr != s.hs[i].scan.p
    ensures Inv(ScanStep(s, i), d)
  {
    var p, j, k := s.hs[i].scan.p, s.hs[i].scan.at.i, s.hs[i].scan.at.k;
    hide Covers, NoneAbove, Local, Duties, Placements, Memory, Manager;
    ManagerHandle(s, i);
    ScanPlace(s, d, i);
    CoversNext(H(s, j), p, k);
    assert Moves(s, i, AtSlot(j, k - 1));
    hide Inv, HandleOk, ScanPlaced, ScanStep;
    ScanMove(s, d, i, p, AtSlot(j, k - 1));
  }

  lemma StepAtSlotFound(s: State, d: map<Ptr, Loc>, i: int)
    requires Scanning(s, d, i) && s.hs[i].scan.at.AtSlot? && s.hs[i].scan.at.k >= 0
    requires At(H(s, s.hs[i].scan.at.i).slots, s.hs[i].scan.at.k).ptr == s.hs[i].scan.p
    ensures Inv(ScanStep(s, i), d)
  {
    var p, j, k := s.hs[i].scan.p, s.hs[i].scan.at.i, s.hs[i].scan.at.k;
    hide Covers, NoneAbove, Local, Duties, Placements, Memory, Manager;
    ManagerHandle(s, i);
    ScanPlace(s, d, i);
    ScanSeesNoMark(s, d, i, j, k);
    assert Covers(H(s, j), p, k);
    assert Moves(s, i, AtCas(j, k));
    hide Inv, HandleOk, ScanPlaced, ScanStep;
    ScanMove(s, d, i, p, AtCas(j, k));
  }

  lemma CoversNext(h: Handle, p: Ptr, k: int)
    requires Covers(h, p, k) && At(h.slots, k).ptr != p
    ensures Covers(h, p, k - 1)
  {
  }

  lemma StepAtCasFail(s: State, d: map<Ptr, Loc>, i: int)
    requires Scanning(s, d, i) && s.hs[i].scan.at.AtCas?
    requires At(H(s, s.hs[i].scan.at.i).slots, s.hs[i].scan.at.k) != Slot(s.hs[i].scan.p, false)
    ensures Inv(ScanStep(s, i), d)
  {
    var p, j, k := s.hs[i].scan.p, s.hs[i].scan.at.i, s.hs[i].scan.at.k;
    hide Covers, NoneAbove, Local, Duties, Placements, Memory, Manager;
    ManagerHandle(s, i);
    ScanPlace(s, d, i);
    ScanSeesNoMark(s, d, i, j, k);
    assert Covers(H(s, j), p, k);
    assert Moves(s, i, AtSlot(j, k - 1));
    hide Inv, HandleOk, ScanPlaced, ScanStep;
    CoversNext(H(s, j), p, k);
    ScanMove(s, d, i, p, AtSlot(j, k - 1));
  }

  // ---------------------------------------------------------------- a duty is parked

  function Marked(h: Handle, k: int, p: Ptr): Handle {
    h.(slots := Put(h.slots, k, Slot(p, true)))
  }

  lemma MarkLocal(h: Handle, k: int, p: Ptr)
    requires Local(h) && 0 <= k < |h.slots| && h.slots[k] == Slot(p, false) && p != NULL
    ensures Local(Marked(h, k, p))
  {
    hide Holds;
    if !Destructing(h) { HoldsUpdate(h.slots, k, Slot(p, true), Expected(h), Expected(h)); }
    PackedMark(h.slots, Top(h), k, p);
    MarkPcOk(h, k, p);
    MarkExpected(h, k, p);
    hide PackedTo, Expected, PcOk, Top, Put;
  }

  lemma MarkPcOk(h: Handle, k: int, p: Ptr)
    requires Local(h) && 0 <= k < |h.slots| && h.slots[k] == Slot(p, false) && p != NULL
    requires PackedTo(Marked(h, k, p).slots, Top(Marked(h, k, p)))
    ensures PcOk(Marked(h, k, p))
  {
    hide Holds, Expected;
  }

  lemma MarkExpected(h: Handle, k: int, p: Ptr)
    ensures var m := Marked(h, k, p);
      && Expected(m) == Expected(h) && Top(m) == Top(h)
      && (0 <= k < |h.slots| ==> m.slots == h.slots[k := Slot(p, true)])
  {
    assert Extra(Marked(h, k, p)) == Extra(h);
    hide Extra;
  }

  lemma PackedMark(slots: seq<Slot>, top: int, k: int, p: Ptr)
    requires PackedTo(slots, top) && 0 <= k < |slots| && slots[k] == Slot(p, false) && p != NULL
    ensures PackedTo(slots[k := Slot(p, true)], top) && 0 <= top <= |slots|
  {
  }

  function Parked(s: State, i: int, j: int, k: int, p: Ptr): State {
    Rescan(With(s, j, Marked(H(s, j), k, p)), i, NoScan)
  }

  lemma ParkDuties(s: State, d: map<Ptr, Loc>, i: int, j: int, k: int, p: Ptr)
    requires Duties(s, d) && 0 <= i < |s.hs| && s.hs[i].scan.Scan? && s.hs[i].scan.p == p
    requires 0 <= j < |s.hs| && 0 <= k < |s.hs[j].slots| && s.hs[j].slots[k] == Slot(p, false)
    requires !Swapping(s.hs[i].pc)
    ensures Duties(Parked(s, i, j, k, p), d[p := InSlot(j, k)])
  {
    var s', d' := Parked(s, i, j, k, p), d[p := InSlot(j, k)];
    assert Hand(s.hs[i], p) && d[p] == InHand(i);
    forall j', k' | 0 <= j' < |s'.hs| && 0 <= k' < |s'.hs[j'].slots| ensures MarkOk(s', d', j', k') {
      assert MarkOk(s, d, j', k');
    }
    forall q | q in d' ensures LocOk(s', q, d'[q]) {
      assert LocOk(s, q, d[q]);
    }
    hide MarkOk, LocOk;
    ParkHands(s, d, i, j, k, p);
  }

  lemma ParkHands(s: State, d: map<Ptr, Loc>, i: int, j: int, k: int, p: Ptr)
    requires Duties(s, d) && 0 <= i < |s.hs| && s.hs[i].scan.Scan? && s.hs[i].scan.p == p && p in d && d[p] == InHand(i)
    requires 0 <= j < |s.hs| && 0 <= k < |s.hs[j].slots| && !Swapping(s.hs[i].pc)
    ensures var s', d' := Parked(s, i, j, k, p), d[p := InSlot(j, k)];
      forall j', q :: 0 <= j' < |s'.hs| && Hand(s'.hs[j'], q) ==> q in d' && d'[q] == InHand(j')
  {
    hide MarkOk, LocOk;
    var s', d' := Parked(s, i, j, k, p), d[p := InSlot(j, k)];
    forall j', q | 0 <= j' < |s'.hs| && Hand(s'.hs[j'], q) ensures q in d' && d'[q] == InHand(j') {
      assert Hand(s.hs[j'], q);
    }
  }

  lemma ParkPlacements(s: State, d: map<Ptr, Loc>, i: int, j: int, k: int, p: Ptr)
    requires Placements(s, d) && 0 <= i < |s.hs| && s.hs[i].scan.Scan? && s.hs[i].scan.p == p
    requires 0 <= j < |s.hs| && 0 <= k < |s.hs[j].slots| && s.hs[j].slots[k] == Slot(p, false)
    requires NoneAbove(s, j, p)
    requires forall q :: q in d && q != p ==> d[q] != InHand(i)
    ensures Placements(Parked(s, i, j, k, p), d[p := InSlot(j, k)])
  {
    var s', d' := Parked(s, i, j, k, p), d[p := InSlot(j, k)];
    forall j' | 0 <= j' < |s.hs|
      ensures s'.hs[j'].valid == s.hs[j'].valid && (j' != i ==> s'.hs[j'].scan == s.hs[j'].scan)
      ensures Ptrs(s'.hs[j'].slots) == Ptrs(s.hs[j'].slots) {}
    forall q | q in d' ensures Placed(s', q, d'[q]) {
      if q != p { assert Placed(s, q, d[q]); SamePlaced(s, s', q, d[q]); }
    }
  }

  /** Placement only looks at protections, addresses in slots, and the scan itself. */
  lemma SamePlaced(s: State, s': State, q: Ptr, l: Loc)
    requires |s.hs| == |s'.hs| && Placed(s, q, l)
    requires forall j :: 0 <= j < |s.hs| ==>
      s'.hs[j].valid == s.hs[j].valid && Ptrs(s'.hs[j].slots) == Ptrs(s.hs[j].slots)
    requires l.InHand? ==> H(s', l.i).scan == H(s, l.i).scan
    ensures Placed(s', q, l)
  {
    forall j, k | 0 <= j < |s.hs| && Covers(s.hs[j], q, k) ensures Covers(s'.hs[j], q, k) {
      SameCovers(s.hs[j], s'.hs[j], q, k);
    }
  }

  lemma SameCovers(h: Handle, h': Handle, q: Ptr, k: int)
    requires h'.valid == h.valid && Ptrs(h'.slots) == Ptrs(h.slots) && Covers(h, q, k)
    ensures Covers(h', q, k)
  {
    if q in h.valid {
      var j :| 0 <= j < |h.slots| && j <= k && h.slots[j].ptr == q;
      assert Ptrs(h.slots)[j] == q && Ptrs(h'.slots)[j] == h'.slots[j].ptr;
    }
  }

  lemma StepPark(s: State, d: map<Ptr, Loc>, i: int) returns (d': map<Ptr, Loc>)
    requires Scanning(s, d, i) && s.hs[i].scan.at.AtCas?
    requires At(H(s, s.hs[i].scan.at.i).slots, s.hs[i].scan.at.k) == Slot(s.hs[i].scan.p, false)
    ensures Inv(Parked(s, i, s.hs[i].scan.at.i, s.hs[i].scan.at.k, s.hs[i].scan.p), d')
  {
    var p, j, k := s.hs[i].scan.p, s.hs[i].scan.at.i, s.hs[i].scan.at.k;
    hide Local, Manager, Memory, Duties, Placements, NoneAbove, Covers;
    ScanPlace(s, d, i);
    ManagerHandle(s, i);
    ScannedIsNotNull(s, i);
    ScannerNotSwapping(s, i);
    assert NoneAbove(s, j, p) && 0 <= j < |s.hs|;
    hide ScanPlaced, HandleOk;
    d' := d[p := InSlot(j, k)];
    ParkLocals(s, i, j, k, p);
    ParkManager(s, i, j, k, p);
    ParkMemory(s, i, j, k, p);
    ParkDuties(s, d, i, j, k, p);
    OneHand(s, d, i);
    ParkPlacements(s, d, i, j, k, p);
    hide Locals, Parked;
  }

  lemma ScannerNotSwapping(s: State, i: int)
    requires Locals(s) && 0 <= i < |s.hs| && s.hs[i].scan.Scan?
    ensures !Swapping(s.hs[i].pc)
  {
    hide Holds, PackedTo;
    assert Local(s.hs[i]);
  }

  lemma ParkLocals(s: State, i: int, j: int, k: int, p: Ptr)
    requires Locals(s) && 0 <= i < |s.hs| && 0 <= j < |s.hs| && p != NULL
    requires 0 <= k < |s.hs[j].slots| && s.hs[j].slots[k] == Slot(p, false)
    ensures Locals(Parked(s, i, j, k, p))
  {
    hide Local;
    var s1 := With(s, j, Marked(s.hs[j], k, p));
    assert Local(s.hs[j]) && Local(s.hs[i]);
    MarkLocal(s.hs[j], k, p);
    NoScanLocal(s1.hs[i]);
  }

  lemma ParkMemory(s: State, i: int, j: int, k: int, p: Ptr)
    requires Memory(s) && 0 <= i < |s.hs| && 0 <= j < |s.hs|
    ensures Memory(Parked(s, i, j, k, p))
  {
    hide Memory;
    var s1 := With(s, j, Marked(s.hs[j], k, p));
    ClientSame(s, j, s1.hs[j]);
    MemoryFrame(s, j, s1.hs[j]);
    ClientSame(s1, i, s1.hs[i].(scan := NoScan));
    MemoryFrame(s1, i, s1.hs[i].(scan := NoScan));
  }

  lemma NoScanLocal(h: Handle)
    requires Local(h)
    ensures Local(h.(scan := NoScan))
  {
    hide Holds, PackedTo;
  }

  lemma ParkManager(s: State, i: int, j: int, k: int, p: Ptr)
    requires Manager(s) && 0 <= i < |s.hs| && 0 <= j < |s.hs|
    ensures Manager(Parked(s, i, j, k, p))
  {
    var s1 := With(s, j, Marked(s.hs[j], k, p));
    assert HandleOk(s, j);
    ManagerFrame(s, j, s1.hs[j]);
    assert HandleOk(s1, i);
    ManagerFrame(s1, i, s1.hs[i].(scan := NoScan));
  }

  /** A thread that scans has no second duty in its hands. */
  lemma OneHand(s: State, d: map<Ptr, Loc>, i: int)
    requires Duties(s, d) && 0 <= i < |s.hs| && s.hs[i].scan.Scan? && !Swapping(s.hs[i].pc)
    ensures forall q :: q in d && d[q] == InHand(i) ==> q == s.hs[i].scan.p
  {
    forall q | q in d && d[q] == InHand(i) ensures q == s.hs[i].scan.p {
      assert LocOk(s, q, d[q]);
    }
  }
}
