/** The remaining steps of the hazard protocol: destruction of a pointer, the ends of
    get_handle and of a handle, the calls, and the clients' own memory accesses. */
module HazardCallSteps {
  import opened HazardSlots
  import opened HazardProtocol
  import opened HazardInvariant
  import opened HazardSteps
  import opened HazardScanSteps

  // ---------------------------------------------------------------- a pointer is destroyed

  function Destroyed(s: State, i: int, p: Ptr): State {
    Rescan(s, i, NoScan).(retired := s.retired - {p})
  }

  ghost predicate Unprotected(s: State, p: Ptr) {
    forall j :: 0 <= j < |s.hs| ==> p !in s.hs[j].valid
  }

  lemma DestroyDuties(s: State, d: map<Ptr, Loc>, i: int, p: Ptr)
    requires Duties(s, d) && 0 <= i < |s.hs| && s.hs[i].scan.Scan? && s.hs[i].scan.p == p
    requires !Swapping(s.hs[i].pc)
    requires forall q :: q in d && d[q] == InHand(i) ==> q == p
    requires forall j, k :: 0 <= j < |s.hs| && 0 <= k < |s.hs[j].slots| && s.hs[j].slots[k].mark ==>
      s.hs[j].slots[k].ptr != p
    ensures Duties(Destroyed(s, i, p), d - {p})
  {
    var s', d' := Destroyed(s, i, p), d - {p};
    assert Hand(s.hs[i], p) && d[p] == InHand(i);
    forall j, k | 0 <= j < |s'.hs| && 0 <= k < |s'.hs[j].slots| ensures MarkOk(s', d', j, k) {
      assert MarkOk(s, d, j, k);
    }
    forall q | q in d' ensures LocOk(s', q, d'[q]) {
      assert LocOk(s, q, d[q]);
    }
    forall j, q | 0 <= j < |s'.hs| && Hand(s'.hs[j], q) ensures q in d' && d'[q] == InHand(j) {
      assert j != i && Hand(s.hs[j], q) && d[q] == InHand(j);
    }
  }

  lemma DestroyMemory(s: State, i: int, p: Ptr)
    requires Memory(s) && 0 <= i < |s.hs| && Unprotected(s, p)
    ensures Memory(Destroyed(s, i, p))
  {
    var s' := Destroyed(s, i, p);
    forall j | 0 <= j < |s'.hs| ensures ClientOk(s', j) {
      assert ClientOk(s, j);
    }
  }

  lemma DestroyPlacements(s: State, d: map<Ptr, Loc>, i: int, p: Ptr)
    requires Placements(s, d) && 0 <= i < |s.hs| && s.hs[i].scan.Scan? && s.hs[i].scan.p == p
    requires forall q :: q in d && d[q] == InHand(i) ==> q == p
    ensures Placements(Destroyed(s, i, p), d - {p})
  {
    var s', d' := Destroyed(s, i, p), d - {p};
    forall q | q in d' ensures Placed(s', q, d'[q]) {
      assert Placed(s, q, d[q]);
      SamePlaced(s, s', q, d[q]);
    }
  }

  lemma DestroyManager(s: State, i: int, p: Ptr)
    requires Manager(s) && 0 <= i < |s.hs|
    ensures Manager(Destroyed(s, i, p))
  {
    var s' := Destroyed(s, i, p);
    forall j | 0 <= j < |s'.hs| ensures HandleOk(s', j) { assert HandleOk(s, j); }
  }

  lemma DestroyLocals(s: State, i: int, p: Ptr)
    requires Locals(s) && 0 <= i < |s.hs|
    ensures Locals(Destroyed(s, i, p))
  {
    hide Local;
    NoScanLocal(s.hs[i]) by { assert Local(s.hs[i]); }
  }

  /** The step that destroys a pointer: nobody validly protects it. */
  lemma StepDestroy(s: State, d: map<Ptr, Loc>, i: int)
    requires Scanning(s, d, i) && s.hs[i].scan.at.AtHandle? && s.hs[i].scan.at.i < 0
    ensures Unprotected(s, s.hs[i].scan.p)
    ensures s.hs[i].scan.p in s.retired
    ensures Inv(Destroyed(s, i, s.hs[i].scan.p), d - {s.hs[i].scan.p})
  {
    var p := s.hs[i].scan.p;
    ScanPlace(s, d, i);
    hide Local, Manager, Memory, Placements;
    assert Hand(s.hs[i], p);
    ScannerNotSwapping(s, i);
    OneHand(s, d, i);
    forall j, k | 0 <= j < |s.hs| && 0 <= k < |s.hs[j].slots| && s.hs[j].slots[k].mark
      ensures s.hs[j].slots[k].ptr != p
    {
      MarkIsParked(s, d, j, k);
    }
    hide Duties;
    DestroyDuties(s, d, i, p);
    DestroyMemory(s, i, p);
    DestroyPlacements(s, d, i, p);
    DestroyManager(s, i, p);
    DestroyLocals(s, i, p);
    hide Destroyed, Locals;
  }

  // ---------------------------------------------------------------- get_handle and ~handle_type

  ghost predicate SameHandles(s: State, s': State) {
    |s.hs| == |s'.hs| && s'.retired == s.retired &&
    forall j :: 0 <= j < |s.hs| ==>
      && s'.hs[j].slots == s.hs[j].slots && s'.hs[j].valid == s.hs[j].valid && s'.hs[j].scan == s.hs[j].scan
      && (s'.hs[j].pc == s.hs[j].pc || (!Swapping(s'.hs[j].pc) && !Swapping(s.hs[j].pc)))
  }

  /** Duties and placements only look at slots, protections, scans and swaps. */
  lemma SameDuties(s: State, s': State, d: map<Ptr, Loc>)
    requires SameHandles(s, s') && Duties(s, d)
    ensures Duties(s', d)
  {
    forall j, k | 0 <= j < |s'.hs| && 0 <= k < |s'.hs[j].slots| ensures MarkOk(s', d, j, k) {
      assert MarkOk(s, d, j, k);
    }
    forall q | q in d ensures LocOk(s', q, d[q]) { assert LocOk(s, q, d[q]); }
    forall j, q | 0 <= j < |s'.hs| && Hand(s'.hs[j], q) ensures q in d && d[q] == InHand(j) {
      assert Hand(s.hs[j], q);
    }
  }

  lemma SamePlacements(s: State, s': State, d: map<Ptr, Loc>)
    requires SameHandles(s, s') && Placements(s, d) && Duties(s, d)
    ensures Placements(s', d)
  {
    forall q | q in d ensures Placed(s', q, d[q]) {
      assert Placed(s, q, d[q]) && LocOk(s, q, d[q]);
      SamePlaced(s, s', q, d[q]);
    }
  }

  lemma StepRaised(s: State, d: map<Ptr, Loc>, i: int)
    requires Turn(s, d, i) && s.hs[i].pc.RaiseCas? && s.hs[i].pc.b < i && s.hc == s.hs[i].pc.b
    ensures Inv(s.(hc := i), d)
  {
    var s' := s.(hc := i);
    hide Local;
    assert Manager(s') by {
      LiveAt(s, i);
      forall j | 0 <= j < |s'.hs| ensures HandleOk(s', j) { assert HandleOk(s, j); }
    }
    hide Duties, Placements, Manager;
    assert Memory(s') by {
      forall j | 0 <= j < |s'.hs| ensures ClientOk(s', j) { assert ClientOk(s, j); }
    }
    SameDuties(s, s', d);
    SamePlacements(s, s', d);
  }

  lemma LiveAt(s: State, i: int)
    requires Locals(s) && 0 <= i < |s.hs| && !s.hs[i].pc.Unowned?
    ensures s.hs[i].own.Live?
  {
    hide Holds, PackedTo;
    assert Local(s.hs[i]);
  }

  lemma FreeManager(s: State, i: int, h': Handle)
    requires Manager(s) && 0 <= i < |s.hs| && s.hs[i].own.Live? && s.hs[i].pc.DtorFree?
    requires h' == s.hs[i].(pc := Unowned, own := Free)
    ensures Manager(With(s, i, h'))
  {
    var s' := With(s, i, h');
    assert HandleOk(s, i);
    forall j | 0 <= j < |s'.hs| ensures HandleOk(s', j) { assert HandleOk(s, j); }
  }

  lemma FreeMemory(s: State, i: int, h': Handle)
    requires Memory(s) && 0 <= i < |s.hs| && h' == s.hs[i].(pc := Unowned, own := Free)
    ensures Memory(With(s, i, h'))
  {
    assert ClientOk(s, i);
    MemoryFrame(s, i, h');
  }

  lemma StepFree(s: State, d: map<Ptr, Loc>, i: int)
    requires Turn(s, d, i) && s.hs[i].pc.DtorFree?
    ensures Inv(With(s, i, Next(s, i)), d)
  {
    var h, h', s' := s.hs[i], Next(s, i), With(s, i, Next(s, i));
    hide Local, Manager, Memory, Duties, Placements;
    LocalAdvance(h, i, s.hc, Seen(s, h));
    LiveAt(s, i);
    FreeManager(s, i, h');
    FreeMemory(s, i, h');
    SameDuties(s, s', d);
    SamePlacements(s, s', d);
  }

  // ---------------------------------------------------------------- get_handle looks for a place

  lemma SeekHandles(s: State, x: nat, j: int)
    requires Manager(s) && x in s.seekers && 0 <= j < |s.hs|
    ensures HandleOk(Apply(s, Seek(x)), j)
  {
    hide Prefix;
    var k := s.seekers[x];
    assert SeekerOk(s, k);
    hide SeekerOk;
    assert HandleOk(s, j);
    if k.i < |s.hs| { assert HandleOk(s, k.i); }
  }

  lemma SeekPrefix(s: State, x: nat)
    requires Prefix(s) && x in s.seekers && SeekerOk(s, s.seekers[x])
    ensures Prefix(Apply(s, Seek(x)))
  {
  }

  lemma SeekSeekers(s: State, x: nat, y: nat)
    requires Manager(s) && x in s.seekers && y in Apply(s, Seek(x)).seekers
    ensures SeekerOk(Apply(s, Seek(x)), Apply(s, Seek(x)).seekers[y])
  {
    hide Prefix;
    assert y in s.seekers && SeekerOk(s, s.seekers[y]);
    var k := s.seekers[x];
    if k.i < |s.hs| {
      assert HandleOk(s, k.i);
      hide HandleOk;
    }
  }

  lemma SeekManager(s: State, x: nat)
    requires Manager(s) && x in s.seekers
    ensures Manager(Apply(s, Seek(x)))
  {
    var s' := Apply(s, Seek(x));
    assert s'.hc == s.hc && |s'.hs| == |s.hs|;
    hide Apply, HandleOk, Prefix, SeekerOk;
    forall j | 0 <= j < |s'.hs| ensures HandleOk(s', j) { SeekHandles(s, x, j); }
    SeekPrefix(s, x);
    forall y | y in s'.seekers ensures SeekerOk(s', s'.seekers[y]) { SeekSeekers(s, x, y); }
  }

  lemma SeekLocals(s: State, x: nat)
    requires Locals(s) && x in s.seekers
    ensures Locals(Apply(s, Seek(x)))
  {
    var i := s.seekers[x].i;
    hide Local;
    if i < |s.hs| && !s.hs[i].own.Live? {
      assert Local(s.hs[i]);
      AdoptLocal(s.hs[i]);
    }
  }

  lemma AdoptLocal(h: Handle)
    requires Local(h) && !h.own.Live?
    ensures Local(h.(own := Live, pc := Idle)) && Local(h.(own := Live, pc := RaiseLoad))
    ensures h.pc.Unowned?
  {
    hide Holds, PackedTo;
    assert Expected(h.(own := Live, pc := Idle)) == Expected(h) == Expected(h.(own := Live, pc := RaiseLoad));
  }

  lemma SeekMemory(s: State, x: nat)
    requires Memory(s) && x in s.seekers
    ensures Memory(Apply(s, Seek(x)))
  {
    var s' := Apply(s, Seek(x));
    forall j | 0 <= j < |s'.hs| ensures ClientOk(s', j) { assert ClientOk(s, j); }
  }

  lemma SeekSameHandles(s: State, x: nat)
    requires Locals(s) && x in s.seekers
    ensures SameHandles(s, Apply(s, Seek(x)))
  {
    hide Local;
    var i := s.seekers[x].i;
    if i < |s.hs| && !s.hs[i].own.Live? { AdoptLocal(s.hs[i]) by { assert Local(s.hs[i]); } }
  }

  lemma StepSeek(s: State, d: map<Ptr, Loc>, x: nat)
    requires Inv(s, d) && x in s.seekers
    ensures Inv(Apply(s, Seek(x)), d)
  {
    hide Locals, Manager, Memory, Duties, Placements, SameHandles, Apply;
    SeekManager(s, x);
    SeekLocals(s, x);
    SeekMemory(s, x);
    SeekSameHandles(s, x);
    SameDuties(s, Apply(s, Seek(x)), d);
    SamePlacements(s, Apply(s, Seek(x)), d);
  }

  // ---------------------------------------------------------------- calls

  ghost predicate AtRest(s: State, d: map<Ptr, Loc>, i: int) {
    Inv(s, d) && 0 <= i < |s.hs| && Resting(s.hs[i])
  }

  /** A resting handle starts an operation that has touched nothing yet. */
  lemma CallLocal(h: Handle, pc: Pc)
    requires Local(h) && Resting(h)
    requires (pc.ProtInc? || pc.RawInc?) && pc.t != NULL && h.counter < |h.slots|
    ensures Local(h.(pc := pc))
  {
    hide Holds, PackedTo;
    assert Expected(h.(pc := pc)) == Expected(h);
  }

  lemma StepCall(s: State, d: map<Ptr, Loc>, i: int, pc: Pc)
    requires AtRest(s, d, i) && (pc.ProtInc? || pc.RawInc?) && pc.t != NULL
    requires s.hs[i].counter < |s.hs[i].slots|
    requires pc.RawInc? ==> pc.t in s.hs[i].valid || (pc.t in s.priv && s.priv[pc.t] == i)
    ensures Inv(With(s, i, s.hs[i].(pc := pc)), d)
  {
    hide Local, Manager, Duties, Placements;
    CallLocal(s.hs[i], pc) by { assert Local(s.hs[i]); }
    ManagerHandle(s, i);
    assert ClientOk(s, i);
    hide Memory;
    QuietFrame(s, d, i, s.hs[i].(pc := pc));
  }

  lemma TakeBack(m: multiset<Ptr>, p: Ptr)
    requires p in m
    ensures m - multiset{p} + multiset{p} == m
  {
  }

  lemma FoundIsValid(h: Handle, p: Ptr, pos: int)
    requires Local(h) && Resting(h) && p != NULL && 0 <= pos < h.counter && h.slots[pos].ptr == p
    ensures p in h.valid
  {
    OccupancyIndex(h.slots, pos);
    assert Expected(h)[p] > 0;
  }

  lemma RemoveFound(h: Handle, p: Ptr, pos: int)
    requires Local(h) && Resting(h) && p != NULL && pos == Topmost(h.slots, h.counter, p) && pos >= 0
    ensures Local(StartRemove(h, p))
  {
    hide Holds;
    FoundIsValid(h, p, pos);
    TakeBack(h.valid, p);
    assert Expected(h) == h.valid && Expected(StartRemove(h, p)) == h.valid;
    hide Expected, Extra;
  }

  lemma RemoveNotFound(h: Handle, p: Ptr)
    requires Local(h) && Resting(h) && p != NULL && Topmost(h.slots, h.counter, p) < 0
    ensures StartRemove(h, p) == h
  {
    if h.valid[p] > 0 {
      assert Expected(h)[p] > 0;
      var k := OccupancyWitness(h.slots, p);
    }
    assert h.valid - multiset{p} == h.valid;
  }

  lemma RemoveLocal(h: Handle, p: Ptr)
    requires Local(h) && Resting(h) && p != NULL
    ensures Local(StartRemove(h, p))
  {
    hide Local;
    CounterFits(h);
    var pos := Topmost(h.slots, h.counter, p);
    if pos >= 0 { RemoveFound(h, p, pos); } else { RemoveNotFound(h, p); }
  }

  lemma CounterFits(h: Handle)
    requires Local(h)
    ensures 0 <= h.counter <= |h.slots|
  {
    hide Holds, PackedTo;
  }

  lemma StepRemove(s: State, d: map<Ptr, Loc>, i: int, p: Ptr)
    requires AtRest(s, d, i) && p != NULL
    ensures Inv(With(s, i, StartRemove(s.hs[i], p)), d)
  {
    hide Local, Manager, Duties, Placements;
    RemoveLocal(s.hs[i], p) by { assert Local(s.hs[i]); }
    ManagerHandle(s, i);
    assert ClientOk(s, i);
    hide Memory;
    QuietFrame(s, d, i, StartRemove(s.hs[i], p));
  }

  lemma DestructLocal(h: Handle)
    requires Local(h) && Resting(h)
    ensures Local(h.(pc := DtorLoop(h.counter - 1), valid := multiset{}))
  {
    hide Holds;
  }

  lemma StepDestruct(s: State, d: map<Ptr, Loc>, i: int)
    requires AtRest(s, d, i)
    ensures Inv(Apply(s, CallDestruct(i)), d)
  {
    hide Local, Manager, Duties, Placements;
    var h' := s.hs[i].(pc := DtorLoop(s.hs[i].counter - 1), valid := multiset{});
    DestructLocal(s.hs[i]) by { assert Local(s.hs[i]); }
    ManagerHandle(s, i);
    assert ClientOk(s, i);
    hide Memory;
    QuietFrame(s, d, i, h');
  }

  // ---------------------------------------------------------------- safe_delete

  function Retired(s: State, i: int, p: Ptr): State {
    Rescan(s, i, Scan(p, Begin)).(alive := s.alive - {p}, priv := s.priv - {p}, retired := s.retired + {p})
  }

  lemma RetireDuties(s: State, d: map<Ptr, Loc>, i: int, p: Ptr)
    requires Duties(s, d) && 0 <= i < |s.hs| && s.hs[i].scan.NoScan? && !Swapping(s.hs[i].pc)
    requires p !in s.retired
    ensures Duties(Retired(s, i, p), d[p := InHand(i)])
  {
    var s', d' := Retired(s, i, p), d[p := InHand(i)];
    forall j, k | 0 <= j < |s'.hs| && 0 <= k < |s'.hs[j].slots| ensures MarkOk(s', d', j, k) {
      assert MarkOk(s, d, j, k);
    }
    forall q | q in d' ensures LocOk(s', q, d'[q]) {
      if q in d { assert LocOk(s, q, d[q]); }
    }
    forall j, q | 0 <= j < |s'.hs| && Hand(s'.hs[j], q) ensures q in d' && d'[q] == InHand(j) {
      if j != i { assert Hand(s.hs[j], q); }
    }
  }

  lemma RetirePlacements(s: State, d: map<Ptr, Loc>, i: int, p: Ptr)
    requires Placements(s, d) && 0 <= i < |s.hs| && s.hs[i].scan.NoScan? && p !in d
    requires forall q :: q in d ==> d[q] != InHand(i)
    ensures Placements(Retired(s, i, p), d[p := InHand(i)])
  {
    var s', d' := Retired(s, i, p), d[p := InHand(i)];
    forall q | q in d' ensures Placed(s', q, d'[q]) {
      if q != p { assert Placed(s, q, d[q]); SamePlaced(s, s', q, d[q]); }
    }
  }

  lemma RetireMemory(s: State, i: int, p: Ptr)
    requires Memory(s) && 0 <= i < |s.hs| && Resting(s.hs[i]) && p in s.alive
    requires p in s.priv ==> s.priv[p] == i
    requires forall c :: c in s.cells ==> s.cells[c] != p
    ensures Memory(Retired(s, i, p))
  {
    var s' := Retired(s, i, p);
    forall j | 0 <= j < |s'.hs| ensures ClientOk(s', j) { assert ClientOk(s, j); }
  }

  lemma RetireLocals(s: State, i: int, p: Ptr)
    requires Locals(s) && 0 <= i < |s.hs| && Resting(s.hs[i]) && p != NULL
    ensures Locals(Retired(s, i, p))
  {
    hide Local;
    RescanLocal(s.hs[i], p) by { assert Local(s.hs[i]); }
  }

  lemma RescanLocal(h: Handle, p: Ptr)
    requires Local(h) && Resting(h) && p != NULL
    ensures Local(h.(scan := Scan(p, Begin)))
  {
    hide Holds, PackedTo;
    assert Expected(h.(scan := Scan(p, Begin))) == Expected(h);
  }

  lemma RetireManager(s: State, i: int, p: Ptr)
    requires Manager(s) && 0 <= i < |s.hs|
    ensures Manager(Retired(s, i, p))
  {
    var s1 := Rescan(s, i, Scan(p, Begin));
    ManagerHandle(s, i);
    ManagerFrame(s, i, s1.hs[i]);
    ManagerOnly(s1, Retired(s, i, p));
  }

  /** The manager's part of the invariant only looks at the handles and the seekers. */
  lemma ManagerOnly(s: State, s': State)
    requires Manager(s) && s'.hc == s.hc && s'.hs == s.hs && s'.seekers == s.seekers
    ensures Manager(s')
  {
    forall j | 0 <= j < |s'.hs| ensures HandleOk(s', j) { assert HandleOk(s, j); }
    forall x | x in s'.seekers ensures SeekerOk(s', s'.seekers[x]) { assert SeekerOk(s, s.seekers[x]); }
  }

  lemma StepRetire(s: State, d: map<Ptr, Loc>, i: nat, p: Ptr)
    requires Inv(s, d) && Enabled(s, CallDelete(i, p))
    ensures Inv(Retired(s, i, p), d[p := InHand(i)])
  {
    hide Locals, Manager, Placements;
    assert p !in s.retired && p != NULL;
    forall q | q in d ensures d[q] != InHand(i) { assert LocOk(s, q, d[q]); }
    assert p !in d;
    hide Duties, Memory, Retired;
    RetireLocals(s, i, p);
    RetireManager(s, i, p);
    RetireMemory(s, i, p);
    RetireDuties(s, d, i, p);
    RetirePlacements(s, d, i, p);
  }

  // ---------------------------------------------------------------- the clients' memory

  lemma StepClient(s: State, d: map<Ptr, Loc>, a: Action)
    requires Inv(s, d) && Enabled(s, a) && (a.Create? || a.Publish? || a.Write?)
    ensures Inv(Apply(s, a), d)
  {
    hide Local, Manager, Duties, Placements;
    var s' := Apply(s, a);
    assert Memory(s') by {
      forall j | 0 <= j < |s'.hs| ensures ClientOk(s', j) { assert ClientOk(s, j); }
    }
    assert s'.hs == s.hs && s'.hc == s.hc && s'.seekers == s.seekers && s'.retired == s.retired;
    assert SameHandles(s, s');
    hide Apply, Memory, SameHandles;
    ManagerOnly(s, s');
    SameDuties(s, s', d);
    SamePlacements(s, s', d);
  }

  lemma StepAcquire(s: State, d: map<Ptr, Loc>, a: Action)
    requires Inv(s, d) && a.Acquire?
    ensures Inv(Apply(s, a), d)
  {
    hide Local, Duties, Placements;
    var s' := Apply(s, a);
    forall j | 0 <= j < |s'.hs| ensures HandleOk(s', j) { assert HandleOk(s, j); }
    forall x | x in s'.seekers ensures SeekerOk(s', s'.seekers[x]) {
      if x in s.seekers { assert SeekerOk(s, s.seekers[x]); }
    }
    assert SameHandles(s, s');
    assert Memory(s') by {
      forall j | 0 <= j < |s'.hs| ensures ClientOk(s', j) { assert ClientOk(s, j); }
    }
    hide Memory;
    SameDuties(s, s', d);
    SamePlacements(s, s', d);
  }
}
