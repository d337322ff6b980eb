/** Main results about every run of the hazard-pointer manager. */
module HazardSafety {
  import opened HazardSlots
  import opened HazardProtocol
  import opened HazardInvariant
  import opened HazardSteps
  import opened HazardScanSteps
  import opened HazardCallSteps

  lemma ScanKeepsInv(s: State, d: map<Ptr, Loc>, i: int) returns (d': map<Ptr, Loc>)
    requires Scanning(s, d, i)
    ensures Inv(ScanStep(s, i), d')
  {
    hide Inv;
    var sc := s.hs[i].scan;
    d' := d;
    match sc.at
    case Begin => StepBegin(s, d, i);
    case AtHandle(j) =>
      if j < 0 {
        StepDestroy(s, d, i);
        d' := d - {sc.p};
        assert ScanStep(s, i) == Destroyed(s, i, sc.p);
      } else {
        StepAtHandle(s, d, i);
      }
    case AtCounter(j) => StepAtCounter(s, d, i);
    case AtSlot(j, k) =>
      if k < 0 { StepAtSlotDone(s, d, i); }
      else if At(H(s, j).slots, k).ptr != sc.p { StepAtSlotSkip(s, d, i); }
      else { StepAtSlotFound(s, d, i); }
    case AtCas(j, k) =>
      if At(H(s, j).slots, k) == Slot(sc.p, false) {
        d' := StepPark(s, d, i);
        assert ScanStep(s, i) == Parked(s, i, j, k, sc.p);
      } else {
        StepAtCasFail(s, d, i);
      }
  }

  lemma OwnerKeepsInv(s: State, d: map<Ptr, Loc>, i: int) returns (d': map<Ptr, Loc>)
    requires Turn(s, d, i)
    ensures Inv(OwnerStep(s, i), d')
  {
    hide Inv, Advance;
    d' := d;
    var pc := s.hs[i].pc;
    if pc.RaiseCas? && pc.b < i && s.hc == pc.b { StepRaised(s, d, i); }
    else if QuietPc(pc) { StepQuiet(s, d, i); }
    else if pc.DtorFree? { StepFree(s, d, i); }
    else if pc.ProtStore? || pc.RawStore? { StepStore(s, d, i); }
    else if pc.TopClear? || pc.ProtSwap? { d' := StepRelease(s, d, i); }
    else if pc.MovOver? { d' := StepMovOver(s, d, i); }
    else if pc.MovClear? { d' := StepMovClear(s, d, i); }
    else if pc.MovFix? { d' := StepMovFix(s, d, i); }
    else { d' := StepDtorLoop(s, d, i); }
  }

  /** Every enabled step of every thread, in every interleaving, keeps the invariant. */
  lemma StepKeepsInv(s: State, d: map<Ptr, Loc>, a: Action) returns (d': map<Ptr, Loc>)
    requires Inv(s, d) && Enabled(s, a)
    ensures Inv(Apply(s, a), d')
  {
    d' := d;
    match a
    case Acquire(_) => StepAcquire(s, d, a);
    case Seek(x) => StepSeek(s, d, x);
    case CallProtect(i, c) => ProtectKeepsInv(s, d, i, c);
    case CallRaw(i, p) => StepCall(s, d, i, RawInc(p));
    case CallUnprotect(i, p) => StepRemove(s, d, i, p);
    case CallDelete(i, p) => StepRetire(s, d, i, p); d' := d[p := InHand(i)];
    case CallDestruct(i) => StepDestruct(s, d, i);
    case Run(i) => d' := RunKeepsInv(s, d, i);
    case Create(_, _) => StepClient(s, d, a);
    case Publish(_, _, _) => StepClient(s, d, a);
    case Write(_, _) => StepClient(s, d, a);
  }

  lemma ProtectKeepsInv(s: State, d: map<Ptr, Loc>, i: nat, c: Cell)
    requires Inv(s, d) && Enabled(s, CallProtect(i, c))
    ensures Inv(Apply(s, CallProtect(i, c)), d)
  {
    hide Inv;
    if Read(s, c) != NULL { StepCall(s, d, i, ProtInc(c, Read(s, c))); }
  }

  lemma RunKeepsInv(s: State, d: map<Ptr, Loc>, i: nat) returns (d': map<Ptr, Loc>)
    requires Inv(s, d) && Enabled(s, Run(i))
    ensures Inv(Apply(s, Run(i)), d')
  {
    hide Inv, OwnerStep, ScanStep;
    if s.hs[i].scan.Scan? { d' := ScanKeepsInv(s, d, i); } else { d' := OwnerKeepsInv(s, d, i); }
  }

  lemma {:induction false} RunInv(s: State, d: map<Ptr, Loc>, acts: seq<Action>) returns (d': map<Ptr, Loc>)
    requires Inv(s, d) && Legal(s, acts)
    ensures Inv(Exec(s, acts), d')
    decreases |acts|
  {
    hide Inv, Apply, Enabled;
    d' := d;
    if acts != [] {
      var d1 := StepKeepsInv(s, d, acts[0]);
      d' := RunInv(Apply(s, acts[0]), d1, acts[1..]);
    }
  }

  lemma ReachableInv(s: State) returns (d: map<Ptr, Loc>)
    requires Reachable(s)
    ensures Inv(s, d)
  {
    hide Inv, Legal, Exec, Init;
    var n: nat, m: nat, acts :| Legal(Init(n, m), acts) && s == Exec(Init(n, m), acts);
    InitInv(n, m);
    d := RunInv(Init(n, m), map[], acts);
  }

  // ---------------------------------------------------------------- safety

  /** Main result: whenever a pointer is destroyed it was retired, and no handle holds a validated
      protection of it, whatever the interleaving, slot swaps, duplicates and handle reuse. */
  lemma DestroyedIsUnprotected(s: State, a: Action, p: Ptr)
    requires Reachable(s) && Enabled(s, a) && Destroys(s, a, p)
    ensures p in s.retired
    ensures forall i :: 0 <= i < |s.hs| ==> p !in s.hs[i].valid
    ensures p !in Apply(s, a).retired && p !in Apply(s, a).alive
  {
    var d := ReachableInv(s);
    hide Local, Manager, Duties, Placements;
    StepDestroy(s, d, a.i);
    assert Apply(s, a) == Destroyed(s, a.i, p);
  }

  /** Main result: a validly protected pointer is allocated. */
  lemma ProtectedIsAllocated(s: State, i: nat, p: Ptr)
    requires Reachable(s) && i < |s.hs| && p in s.hs[i].valid
    ensures p in s.alive || p in s.retired
  {
    var d := ReachableInv(s);
    assert ClientOk(s, i);
  }

  /** Memory is given back by destroying steps only. */
  lemma FreedOnlyByDestroying(s: State, a: Action, p: Ptr)
    requires Enabled(s, a) && (p in s.alive || p in s.retired)
    requires p !in Apply(s, a).alive && p !in Apply(s, a).retired
    ensures Destroys(s, a, p)
  {
    hide Advance, StartRemove, Read;
    if a.Run? { RunFrees(s, a.i); }
    hide OwnerStep, ScanStep, SeekStep;
    if a.Seek? { SeekFrees(s, a.a); }
  }

  lemma SeekFrees(s: State, x: nat)
    requires x in s.seekers
    ensures SeekStep(s, x, s.seekers[x]).alive == s.alive && SeekStep(s, x, s.seekers[x]).retired == s.retired
  {
  }

  lemma RunFrees(s: State, i: nat)
    ensures !H(s, i).scan.Scan? ==> OwnerStep(s, i).alive == s.alive && OwnerStep(s, i).retired == s.retired
    ensures ScanStep(s, i).alive == s.alive
    ensures ScanStep(s, i).retired != s.retired ==>
      H(s, i).scan.Scan? && H(s, i).scan.at.AtHandle? && H(s, i).scan.at.i < 0
      && ScanStep(s, i).retired == s.retired - {H(s, i).scan.p}
  {
    hide Advance;
  }

  /** No scan dereferences a null handle, and none meets a mark it could lose its duty on. */
  lemma NoFault(s: State, a: Action)
    requires Reachable(s) && Enabled(s, a)
    ensures !Faults(s, a)
  {
    var d := ReachableInv(s);
    if a.Run? && s.hs[a.i].scan.Scan? {
      hide Local, Manager, Memory, Duties, Placements;
      ScanSeesHandles(s, d, a.i);
      var at := s.hs[a.i].scan.at;
      if at.AtSlot? || at.AtCas? { ScanSeesNoMark(s, d, a.i, at.i, at.k); }
    }
  }

  // ---------------------------------------------------------------- the scan cannot miss

  /** Main result: a thread scanning for `p` at slot `k` of handle `j` has not passed by any
      validated protection: none in a higher handle, and in `j` a copy at or below `k`. */
  lemma ScanMissesNothing(s: State, i: nat, j: int, k: int)
    requires Reachable(s) && i < |s.hs|
    requires s.hs[i].scan.Scan? && s.hs[i].scan.at == AtSlot(j, k)
    ensures 0 <= j < |s.hs|
    ensures forall j' :: j < j' < |s.hs| ==> s.hs[i].scan.p !in s.hs[j'].valid
    ensures s.hs[i].scan.p in s.hs[j].valid ==>
      exists k' :: 0 <= k' < |s.hs[j].slots| && k' <= k && s.hs[j].slots[k'].ptr == s.hs[i].scan.p
  {
    var d := ReachableInv(s);
    hide Local, Duties, Placements, Memory;
    ScanPlace(s, d, i);
    ManagerHandle(s, i);
  }

  /** The lowest slot that holds a protected pointer never rises: no step of the owner, in
      particular no swap of slots, lifts `p` above a slot a scan has already reached. */
  lemma LowestNeverRises(h: Handle, i: int, hc: int, seen: Ptr, p: Ptr, k: int)
    requires Local(h) && h.scan.NoScan? && !h.pc.Idle? && !h.pc.Unowned?
    requires p in h.valid && p in Advance(h, i, hc, seen).valid
    requires exists j :: 0 <= j < |h.slots| && j <= k && h.slots[j].ptr == p
    ensures var h' := Advance(h, i, hc, seen);
      exists j :: 0 <= j < |h'.slots| && j <= k && h'.slots[j].ptr == p
  {
    var h' := Advance(h, i, hc, seen);
    assert Covers(h, p, k) && p != NULL;
    LocalAdvance(h, i, hc, seen);
    if h'.slots != h.slots { LowestKept(h, i, hc, seen, p, k); }
  }

  lemma LowestKept(h: Handle, i: int, hc: int, seen: Ptr, p: Ptr, k: int)
    requires Local(h) && Local(Advance(h, i, hc, seen)) && h.scan.NoScan? && !h.pc.Idle? && !h.pc.Unowned?
    requires p in h.valid && p in Advance(h, i, hc, seen).valid && p != NULL && Covers(h, p, k)
    requires Advance(h, i, hc, seen).slots != h.slots
    ensures Covers(Advance(h, i, hc, seen), p, k)
  {
    var h' := Advance(h, i, hc, seen);
    var pc := h.pc;
    hide Holds, Expected;
    if pc.ProtStore? || pc.RawStore? { CoversUpdate(h, h', pc.pos, Slot(pc.t, false), p, k); }
    else if pc.TopClear? || pc.ProtSwap? {
      ReleaseCovers(h, i, hc, seen);
      CoversUpdate(h, h', pc.pos, if pc.TopClear? then EMPTY else Slot(pc.next, false), p, k);
    }
    else if pc.MovOver? { CoversBelow(h', pc.t, pc.pos); CoversUpdate(h, h', pc.pos, pc.last, p, k); }
    else if pc.MovClear? { MovedCovers(h', pc.pos, pc.n, pc.last.ptr); CoversUpdate(h, h', pc.n - 1, EMPTY, p, k); }
    else if pc.MovFix? { CoversUpdate(h, h', pc.pos, pc.temp, p, k); }
  }

  // ---------------------------------------------------------------- exactly one duty

  /** `l` carries the duty to delete `p`; the old copy of a slot in the middle of a swap does not count. */
  predicate Carries(s: State, l: Loc, p: Ptr) {
    match l
    case InSlot(i, k) =>
      && 0 <= i < |s.hs| && 0 <= k < |s.hs[i].slots|
      && s.hs[i].slots[k] == Slot(p, true) && !Shadow(s.hs[i], k)
    case InHand(i) => 0 <= i < |s.hs| && Hand(s.hs[i], p)
  }

  /** Main result: a pointer is retired and not yet destroyed exactly if some place carries the
      duty to delete it, and then exactly one place does. */
  lemma ExactlyOneDuty(s: State, p: Ptr)
    requires Reachable(s)
    ensures p in s.retired <==> exists l :: Carries(s, l, p)
    ensures forall l, l' :: Carries(s, l, p) && Carries(s, l', p) ==> l == l'
  {
    var d := ReachableInv(s);
    hide Local, Manager, Memory, Placements;
    forall l | Carries(s, l, p) ensures p in d && d[p] == l { CarrierIsLoc(s, d, l, p); }
    if p in s.retired {
      LocCarries(s, d, p);
    }
  }

  lemma CarrierIsLoc(s: State, d: map<Ptr, Loc>, l: Loc, p: Ptr)
    requires Duties(s, d) && Carries(s, l, p)
    ensures p in d && d[p] == l
  {
    if l.InSlot? { assert MarkOk(s, d, l.i, l.k); } else { assert Hand(s.hs[l.i], p); }
  }

  lemma LocCarries(s: State, d: map<Ptr, Loc>, p: Ptr)
    requires Duties(s, d) && Locals(s) && p in d
    ensures Carries(s, d[p], p)
  {
    hide Local;
    DutyPlace(s, d, p);
    if d[p].InSlot? && Shadow(s.hs[d[p].i], d[p].k) { ShadowHome(s, d, d[p].i, d[p].k); }
  }

  lemma ShadowHome(s: State, d: map<Ptr, Loc>, i: int, k: int)
    requires Duties(s, d) && Locals(s) && 0 <= i < |s.hs| && 0 <= k < |s.hs[i].slots|
    requires Shadow(s.hs[i], k) && s.hs[i].slots[k].mark
    ensures s.hs[i].pc.pos < k && s.hs[i].slots[k].ptr in d && d[s.hs[i].slots[k].ptr] == InSlot(i, s.hs[i].pc.pos)
  {
    hide Local;
    ShadowHasOriginal(s, i, k);
    assert MarkOk(s, d, i, s.hs[i].pc.pos);
  }

  lemma DutyPlace(s: State, d: map<Ptr, Loc>, p: Ptr)
    requires Duties(s, d) && p in d
    ensures LocOk(s, p, d[p])
  {
  }

  /** At quiescence, when no handle is in use or in the middle of an operation and all slots are
      empty, nothing retired is left over. */
  lemma NothingLeft(s: State)
    requires Reachable(s)
    requires forall i :: 0 <= i < |s.hs| ==>
      s.hs[i].scan.NoScan? && (s.hs[i].pc.Idle? || s.hs[i].pc.Unowned?)
      && forall k :: 0 <= k < |s.hs[i].slots| ==> s.hs[i].slots[k] == EMPTY
    ensures s.retired == {}
  {
    forall p ensures p !in s.retired { ExactlyOneDuty(s, p); }
  }

  function Retirements(acts: seq<Action>, p: Ptr): nat {
    if acts == [] then 0
    else (if acts[0].CallDelete? && acts[0].p == p then 1 else 0) + Retirements(acts[1..], p)
  }

  function Destructions(s: State, acts: seq<Action>, p: Ptr): nat
    decreases |acts|
  {
    if acts == [] then 0
    else (if Destroys(s, acts[0], p) then 1 else 0) + Destructions(Apply(s, acts[0]), acts[1..], p)
  }

  /** Conservation over whole runs: each call of safe_delete is answered by one destruction,
      apart from the at most one still pending at the end. */
  lemma {:induction false} RetiredOnceDestroyedOnce(s: State, d: map<Ptr, Loc>, acts: seq<Action>, p: Ptr)
    requires Inv(s, d) && Legal(s, acts)
    ensures Retirements(acts, p) + (if p in s.retired then 1 else 0)
         == Destructions(s, acts, p) + (if p in Exec(s, acts).retired then 1 else 0)
    decreases |acts|
  {
    if acts != [] {
      var a, s' := acts[0], Apply(s, acts[0]);
      OneStepBalance(s, d, a, p);
      var d' := StepKeepsInv(s, d, a);
      hide Inv, Apply, Enabled, Destroys;
      RetiredOnceDestroyedOnce(s', d', acts[1..], p);
    }
  }

  /** The balance for a manager started empty. */
  lemma EveryRetirementIsAnswered(handleCount: nat, slotCount: nat, acts: seq<Action>, p: Ptr)
    requires Legal(Init(handleCount, slotCount), acts)
    ensures var s := Init(handleCount, slotCount);
      Retirements(acts, p) == Destructions(s, acts, p) + (if p in Exec(s, acts).retired then 1 else 0)
  {
    InitInv(handleCount, slotCount);
    RetiredOnceDestroyedOnce(Init(handleCount, slotCount), map[], acts, p);
  }

  lemma RetiredChanges(s: State, a: Action)
    requires Enabled(s, a)
    ensures Apply(s, a).retired ==
      if a.CallDelete? then s.retired + {a.p}
      else if a.Run? && s.hs[a.i].scan.Scan? && Destroys(s, a, s.hs[a.i].scan.p) then s.retired - {s.hs[a.i].scan.p}
      else s.retired
  {
    hide Advance;
  }

  lemma OneStepBalance(s: State, d: map<Ptr, Loc>, a: Action, p: Ptr)
    requires Inv(s, d) && Enabled(s, a)
    ensures (if a.CallDelete? && a.p == p then 1 else 0) + (if p in s.retired then 1 else 0)
         == (if Destroys(s, a, p) then 1 else 0) + (if p in Apply(s, a).retired then 1 else 0)
  {
    hide Local, Manager, Duties, Placements;
    RetiredChanges(s, a);
    hide Apply;
    if a.Run? && s.hs[a.i].scan.Scan? && s.hs[a.i].scan.at.AtHandle? && s.hs[a.i].scan.at.i < 0 {
      StepDestroy(s, d, a.i);
    } else if a.CallDelete? {
      assert a.p !in s.retired;
    }
  }

  // ---------------------------------------------------------------- slots and protections agree

  /** Between operations the slots below _counter hold exactly the handle's protections, each as
      often as it was protected, and the slots from _counter on are empty. */
  lemma SlotsAreProtections(s: State, i: nat)
    requires Reachable(s) && i < |s.hs| && Resting(s.hs[i])
    ensures var h := s.hs[i];
      && 0 <= h.counter <= |h.slots|
      && multiset(Ptrs(h.slots)[..h.counter]) == h.valid
      && forall k :: h.counter <= k < |h.slots| ==> h.slots[k] == EMPTY
  {
    var d := ReachableInv(s);
    hide Manager, Memory, Duties, Placements;
    assert Local(s.hs[i]);
    RestingSlots(s.hs[i]);
  }

  lemma RestingSlots(h: Handle)
    requires Local(h) && Resting(h)
    ensures multiset(Ptrs(h.slots)[..h.counter]) == h.valid
  {
    var below: seq<Ptr>, above: seq<Ptr> := Ptrs(h.slots)[..h.counter], Ptrs(h.slots)[h.counter..];
    var inUse: multiset<Ptr>, unused: multiset<Ptr> := multiset(below), multiset(above);
    assert Ptrs(h.slots) == below + above;
    assert Expected(h) == h.valid;
    forall p: Ptr ensures inUse[p] == h.valid[p] {
      if p == NULL {
        assert p !in below;
      } else {
        assert p !in above;
        assert Occupancy(h.slots)[p] == inUse[p] + unused[p];
      }
    }
  }

  predicate ActsOn(a: Action, i: nat) {
    match a
    case CallProtect(j, _) => i == j
    case CallRaw(j, _) => i == j
    case CallUnprotect(j, _) => i == j
    case CallDelete(j, _) => i == j
    case CallDestruct(j) => i == j
    case Run(j) => i == j
    case _ => false
  }

  ghost predicate SameButMarks(h: Handle, h': Handle) {
    Ptrs(h'.slots) == Ptrs(h.slots) && h' == h.(slots := h'.slots)
  }

  lemma ScanKeepsAddresses(s: State, j: int, i: nat)
    requires i < |s.hs| && i != j
    ensures SameButMarks(s.hs[i], ScanStep(s, j).hs[i])
  {
    var h := H(s, j);
    if h.scan.Scan? && h.scan.at.AtCas? && h.scan.at.i == i {
      var k := h.scan.at.k;
      assert Ptrs(Put(s.hs[i].slots, k, At(s.hs[i].slots, k).(mark := true))) == Ptrs(s.hs[i].slots);
    }
  }

  /** Other threads change nothing of a handle in use but marks, so the owner's `find` and its
      reads of _counter may count as one step. */
  lemma OthersKeepAddresses(s: State, a: Action, i: nat)
    requires Enabled(s, a) && !ActsOn(a, i) && i < |s.hs| && s.hs[i].own.Live?
    ensures Ptrs(Apply(s, a).hs[i].slots) == Ptrs(s.hs[i].slots)
    ensures Apply(s, a).hs[i] == s.hs[i].(slots := Apply(s, a).hs[i].slots)
  {
    if a.Run? && s.hs[a.i].scan.Scan? {
      hide ScanStep;
      ScanKeepsAddresses(s, a.i, i);
    } else {
      hide Advance;
    }
  }
}
