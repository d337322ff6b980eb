/** What the operations of the hazard-pointer manager come to when their thread runs alone, from
    wherever it has been interrupted in any interleaving; and what a call of protect comes to in
    any interleaving. The sequential manager's outcome functions describe the results. */
module HazardProgress {
  import opened HazardSlots
  import opened HazardProtocol
  import opened HazardInvariant
  import opened HazardSteps
  import opened HazardScanSteps
  import opened HazardSafety
  import HH = HazardHandle
  import O = HazardObject

  /** `k` steps in a row of the thread on handle `i`. */
  function Alone(s: State, i: nat, k: nat): State
    decreases k
  {
    if k == 0 then s else Alone(Apply(s, Run(i)), i, k - 1)
  }

  predicate Allowed(s: State, i: nat, k: nat)
    decreases k
  {
    k == 0 || (Enabled(s, Run(i)) && Allowed(Apply(s, Run(i)), i, k - 1))
  }

  lemma {:induction false} AloneIsRun(s: State, i: nat, k: nat)
    requires Allowed(s, i, k)
    ensures Legal(s, seq(k, _ => Run(i))) && Exec(s, seq(k, _ => Run(i))) == Alone(s, i, k)
    decreases k
  {
    hide Apply, Enabled;
    if k > 0 {
      AloneIsRun(Apply(s, Run(i)), i, k - 1);
      assert seq(k, _ => Run(i))[1..] == seq(k - 1, _ => Run(i));
    }
  }

  lemma {:induction false} Joined(s: State, i: nat, k: nat, m: nat)
    requires Allowed(s, i, k) && Allowed(Alone(s, i, k), i, m)
    ensures Allowed(s, i, k + m) && Alone(s, i, k + m) == Alone(Alone(s, i, k), i, m)
    decreases k
  {
    hide Apply, Enabled;
    if k > 0 { Joined(Apply(s, Run(i)), i, k - 1, m); }
  }

  // ---------------------------------------------------------------- a scan

  function TableOf(h: Handle): O.Table {
    O.Table(h.slots, h.counter, h.own.Free?)
  }

  /** The handles as the sequential manager knows them. */
  function Tables(s: State): (v: seq<O.Table>)
    ensures |v| == (if s.hc < 0 then 0 else s.hc + 1) && forall j :: 0 <= j < |v| ==> v[j] == TableOf(H(s, j))
  {
    seq(if s.hc < 0 then 0 else s.hc + 1, j => TableOf(H(s, j)))
  }

  /** What the sequential manager makes of the rest of a scan. */
  ghost function Rest(v: seq<O.Table>, p: Ptr, at: Phase): O.Outcome
    requires O.Sound(v) && AtFits(v, at)
  {
    match at
    case Begin => O.Scanned(v, |v| - 1, p)
    case AtHandle(j) => O.Scanned(v, j, p)
    case AtCounter(j) => O.Continued(v, j, v[j].counter - 1, p)
    case AtSlot(j, k) => O.Continued(v, j, k, p)
    case AtCas(j, k) => O.Continued(v, j, k, p)
  }

  ghost predicate AtFits(v: seq<O.Table>, at: Phase) {
    match at
    case Begin => true
    case AtHandle(j) => -1 <= j < |v|
    case AtCounter(j) => 0 <= j < |v|
    case AtSlot(j, k) => 0 <= j < |v| && k < |v[j].slots|
    case AtCas(j, k) => 0 <= j < |v| && 0 <= k < |v[j].slots|
  }

  /** The state in which the outcome of a scan by `i` leaves everything. */
  function Ended(s: State, i: int, o: O.Outcome): State {
    s.(hs := seq(|s.hs|, j requires 0 <= j < |s.hs| =>
                   s.hs[j].(slots := if j < |o.tables| then o.tables[j].slots else s.hs[j].slots,
                            scan := if j == i then NoScan else s.hs[j].scan)),
       retired := if o.destroyed && H(s, i).scan.Scan? then s.retired - {H(s, i).scan.p} else s.retired)
  }

  /** The outcome does not depend on how far the scan has come. */
  lemma EndedLater(s: State, i: int, scan: Scan, o: O.Outcome)
    requires 0 <= i < |s.hs| && s.hs[i].scan.Scan? && scan.Scan? && scan.p == s.hs[i].scan.p
    ensures Ended(Rescan(s, i, scan), i, o) == Ended(s, i, o)
  {
  }

  /** What a scan finds in a state that is reachable. */
  ghost predicate Ready(s: State, i: int) {
    && 0 <= i < |s.hs| && s.hs[i].scan.Scan? && -1 <= s.hc < |s.hs| && O.Sound(Tables(s)) && AtFits(Tables(s), s.hs[i].scan.at)
    && !Faults(s, Run(i)) && s.hs[i].scan.p != NULL
  }

  lemma ReadyNow(s: State, d: map<Ptr, Loc>, i: nat)
    requires Scanning(s, d, i)
    ensures Ready(s, i) && Enabled(s, Run(i))
  {
    hide Memory, Placements, Holds, PackedTo;
    forall j | 0 <= j < |Tables(s)| ensures 0 <= Tables(s)[j].counter <= |Tables(s)[j].slots| { assert Local(s.hs[j]); }
    ManagerHandle(s, i);
    ScanSeesHandles(s, d, i);
    ScannedIsNotNull(s, i);
    var at := s.hs[i].scan.at;
    if at.AtSlot? || at.AtCas? { ScanSeesNoMark(s, d, i, at.i, at.k); }
    hide Locals, Local, Manager, Duties;
  }

  /** How far the scan still has to go. */
  function HandlesLeft(s: State, at: Phase): nat {
    match at
    case Begin => |s.hs| + 1
    case _ => if at.i < 0 then 0 else at.i + 1
  }

  function SlotsLeft(at: Phase): nat {
    match at
    case AtSlot(_, k) => if k < 0 then 0 else 2 * k + 2
    case AtCas(_, k) => if k < 0 then 0 else 2 * k + 1
    case _ => 0
  }

  function HandlePart(at: Phase): nat {
    match at
    case AtHandle(_) => 2
    case AtCounter(_) => 1
    case _ => 0
  }

  lemma RestAtHandle(v: seq<O.Table>, p: Ptr, j: int)
    requires O.Sound(v) && 0 <= j < |v|
    ensures Rest(v, p, AtHandle(j)) == Rest(v, p, if v[j].free then AtHandle(j - 1) else AtCounter(j))
  {
    hide Topmost, O.MarkedAt;
  }

  /** At a slot that does not hold the pointer. */
  lemma RestAtSlot(v: seq<O.Table>, p: Ptr, j: int, k: int)
    requires O.Sound(v) && 0 <= j < |v| && k < |v[j].slots|
    ensures k < 0 ==> Rest(v, p, AtSlot(j, k)) == Rest(v, p, AtHandle(j - 1))
    ensures k >= 0 && v[j].slots[k].ptr != p ==> Rest(v, p, AtSlot(j, k)) == Rest(v, p, AtSlot(j, k - 1))
    ensures k >= 0 && v[j].slots[k].ptr == p ==>
      Rest(v, p, AtSlot(j, k)) == O.Outcome(v[j := v[j].(slots := v[j].slots[k := Slot(p, true)])], false)
  {
    hide O.Scanned;
  }

  /** What a step leaves of the scan, if anything. */
  ghost predicate Moves(s: State, i: int, s': State) {
    && Ready(s, i)
    && var sc := H(s', i).scan;
      if sc.NoScan? then s' == Ended(s, i, Rest(Tables(s), H(s, i).scan.p, H(s, i).scan.at))
      else
        && s' == Rescan(s, i, sc) && sc.p == H(s, i).scan.p && AtFits(Tables(s), sc.at)
        && Rest(Tables(s), sc.p, sc.at) == Rest(Tables(s), sc.p, H(s, i).scan.at)
        && (HandlesLeft(s, sc.at) < HandlesLeft(s, H(s, i).scan.at)
            || (HandlesLeft(s, sc.at) == HandlesLeft(s, H(s, i).scan.at)
                && (HandlePart(sc.at) < HandlePart(H(s, i).scan.at)
                    || (HandlePart(sc.at) == HandlePart(H(s, i).scan.at)
                        && SlotsLeft(sc.at) < SlotsLeft(H(s, i).scan.at)))))
  }

  lemma MovesHandles(s: State, i: int)
    requires Ready(s, i) && (s.hs[i].scan.at.Begin? || s.hs[i].scan.at.AtHandle? || s.hs[i].scan.at.AtCounter?)
    ensures Moves(s, i, ScanStep(s, i))
  {
    hide Topmost, O.MarkedAt, O.Scanned, Ended, At, Put;
    var at := s.hs[i].scan.at;
    if at.AtHandle? && at.i >= 0 { RestAtHandle(Tables(s), s.hs[i].scan.p, at.i); }
    if at.AtHandle? && at.i < 0 { Destroyed(s, i); }
    hide O.Continued, O.Sound, Tables;
  }

  lemma Destroyed(s: State, i: int)
    requires Ready(s, i) && s.hs[i].scan.at == AtHandle(-1)
    ensures ScanStep(s, i) == Ended(s, i, Rest(Tables(s), s.hs[i].scan.p, AtHandle(-1)))
  {
  }

  lemma MovesSlots(s: State, i: int)
    requires Ready(s, i) && (s.hs[i].scan.at.AtSlot? || s.hs[i].scan.at.AtCas?)
    ensures Moves(s, i, ScanStep(s, i))
  {
    var at := s.hs[i].scan.at;
    RestAtSlot(Tables(s), s.hs[i].scan.p, at.i, at.k);
    assert Tables(s)[at.i] == TableOf(s.hs[at.i]);
    if at.AtCas? && At(s.hs[at.i].slots, at.k) == Slot(s.hs[i].scan.p, false) { Parks(s, i); }
    hide O.Continued, O.Sound, Tables;
  }

  lemma Parks(s: State, i: int)
    requires Ready(s, i) && s.hs[i].scan.at.AtCas?
    requires At(H(s, s.hs[i].scan.at.i).slots, s.hs[i].scan.at.k) == Slot(s.hs[i].scan.p, false)
    ensures ScanStep(s, i) == Ended(s, i, Rest(Tables(s), s.hs[i].scan.p, s.hs[i].scan.at))
  {
    var at, p := s.hs[i].scan.at, s.hs[i].scan.p;
    RestAtSlot(Tables(s), p, at.i, at.k);
    hide O.Continued;
    assert ScanStep(s, i).hs == Ended(s, i, Rest(Tables(s), p, at)).hs;
  }

  lemma TablesSame(s: State, i: int, sc: Scan)
    requires 0 <= i < |s.hs|
    ensures Tables(Rescan(s, i, sc)) == Tables(s) && |Rescan(s, i, sc).hs| == |s.hs| && H(Rescan(s, i, sc), i).scan == sc
  {
  }

  lemma {:induction false} ScanFrom(s: State, d: map<Ptr, Loc>, i: nat) returns (k: nat, d': map<Ptr, Loc>)
    requires Scanning(s, d, i)
    ensures Ready(s, i) && Allowed(s, i, k)
    ensures Alone(s, i, k) == Ended(s, i, Rest(Tables(s), s.hs[i].scan.p, s.hs[i].scan.at))
    ensures Inv(Alone(s, i, k), d')
    decreases HandlesLeft(s, s.hs[i].scan.at), HandlePart(s.hs[i].scan.at), SlotsLeft(s.hs[i].scan.at)
  {
    hide Inv, ScanStep, OwnerStep, Enabled, Faults, Rest, Tables;
    ReadyNow(s, d, i);
    var s1 := ScanStep(s, i);
    assert s1 == Apply(s, Run(i));
    d' := StepKeepsInv(s, d, Run(i));
    hide Apply;
    if s.hs[i].scan.at.AtSlot? || s.hs[i].scan.at.AtCas? { MovesSlots(s, i); } else { MovesHandles(s, i); }
    var sc := H(s1, i).scan;
    k := 0;
    if sc.Scan? {
      TablesSame(s, i, sc);
      EndedLater(s, i, sc, Rest(Tables(s), sc.p, sc.at));
      k, d' := ScanFrom(s1, d', i);
    } else {
      assert Alone(s1, i, 0) == s1 && Allowed(s1, i, 0);
    }
    k := k + 1;
  }

  /** Main result: safe_delete run alone does in every reachable state what the sequential manager
      does: by O.ScannedExact it destroys the pointer if and only if no handle in use holds it. */
  lemma DeleteEnds(s: State, i: nat, p: Ptr) returns (k: nat)
    requires Reachable(s) && Enabled(s, CallDelete(i, p))
    ensures O.Sound(Tables(s)) && s.hc >= -1
    ensures var s1 := Apply(s, CallDelete(i, p));
      Allowed(s1, i, k) && Alone(s1, i, k) == Ended(s1, i, O.Scanned(Tables(s), |Tables(s)| - 1, p))
  {
    var d := ReachableInv(s);
    var s1 := Apply(s, CallDelete(i, p));
    var d1 := StepKeepsInv(s, d, CallDelete(i, p));
    assert Tables(s1) == Tables(s) && s1.hc == s.hc;
    hide Inv, Apply, Ended, O.Scanned;
    var d';
    k, d' := ScanFrom(s1, d1, i);
    ReadyNow(s1, d1, i);
  }

  // ---------------------------------------------------------------- unprotect

  /** In the middle of remove. */
  predicate Removes(pc: Pc) {
    pc.TopDec? || pc.TopClear? || pc.MovLoad? || pc.MovOver? || pc.MovDec? || pc.MovClear? || pc.MovFix?
  }

  lemma RemoveStep(s: State, i: nat, h: Handle)
    requires i < |s.hs| && Removes(h.pc) && h.scan.NoScan?
    ensures Enabled(With(s, i, h), Run(i))
    ensures var h1 := Advance(h, i, 0, NULL);
      && Apply(With(s, i, h), Run(i)) == With(s, i, h1)
      && (h1.pc.Idle? || (Removes(h1.pc) && h1.scan.NoScan?)) && h1.own == h.own && h1.valid == h.valid
  {
    assert With(With(s, i, h), i, Advance(h, i, 0, NULL)) == With(s, i, Advance(h, i, 0, NULL));
  }

  lemma {:induction false} StaysIdle(h: Handle, i: int, k: nat)
    requires h.pc.Idle?
    ensures HH.Alone(h, i, k) == h
    decreases k
  {
    if k > 0 { StaysIdle(h, i, k - 1); }
  }

  /** The owner's steps on its handle are those of the protocol. */
  lemma {:induction false} OwnerRun(s: State, i: nat, h: Handle, k: nat) returns (m: nat)
    requires i < |s.hs| && Removes(h.pc) && h.scan.NoScan? && HH.Alone(h, i, k).pc.Idle?
    ensures Allowed(With(s, i, h), i, m) && Alone(With(s, i, h), i, m) == With(s, i, HH.Alone(h, i, k))
    ensures HH.Alone(h, i, k).own == h.own && HH.Alone(h, i, k).valid == h.valid
    decreases k
  {
    hide Apply, Enabled, Advance, With;
    RemoveStep(s, i, h);
    var h1 := Advance(h, i, 0, NULL);
    if k == 0 {
      assert false;
    } else if h1.pc.Idle? {
      StaysIdle(h1, i, k - 1);
      m := 1;
      var s1 := Apply(With(s, i, h), Run(i));
      assert Alone(s1, i, 0) == s1 && Allowed(s1, i, 0);
    } else {
      m := OwnerRun(s, i, h1, k - 1);
      m := m + 1;
    }
  }

  lemma {:induction false} AloneKeepsInv(s: State, d: map<Ptr, Loc>, i: nat, k: nat) returns (d': map<Ptr, Loc>)
    requires Inv(s, d) && Allowed(s, i, k)
    ensures Inv(Alone(s, i, k), d')
    decreases k
  {
    hide Inv, Apply, Enabled;
    d' := d;
    if k > 0 {
      d' := StepKeepsInv(s, d, Run(i));
      d' := AloneKeepsInv(Apply(s, Run(i)), d', i, k - 1);
    }
  }

  lemma RestingIsKnown(s: State, d: map<Ptr, Loc>, i: nat)
    requires Inv(s, d) && i < |s.hs| && Resting(s.hs[i])
    ensures 0 <= i < |Tables(s)| && O.Sound(Tables(s)) && 0 <= s.hs[i].counter <= |s.hs[i].slots|
  {
    hide Memory, Placements, Duties, Holds, PackedTo;
    ManagerHandle(s, i);
    forall j | 0 <= j < |Tables(s)| ensures 0 <= Tables(s)[j].counter <= |Tables(s)[j].slots| { assert Local(s.hs[j]); }
  }

  /** Only handle `i` and marks in slots have changed, besides the retired pointers. */
  ghost predicate Untouched(s: State, i: nat, s': State) {
    && |s'.hs| == |s.hs| && s' == s.(hs := s'.hs, retired := s'.retired)
    && forall j :: 0 <= j < |s.hs| && j != i ==> s'.hs[j] == s.hs[j].(slots := s'.hs[j].slots)
  }

  /** The handle when remove is through, with a duty it has found in its thread's hands. */
  function Removed(h: Handle, i: nat, p: Ptr): Handle
    requires 0 <= h.counter <= |h.slots|
  {
    var pos, u := Topmost(h.slots, h.counter, p), O.Without(TableOf(h), p);
    Handle(h.own, u.counter, u.slots, Idle, if pos >= 0 && h.slots[pos].mark then Scan(p, AtSlot(i, pos)) else NoScan,
           h.valid - multiset{p})
  }

  /** The part of unprotect before the duty it may have found. */
  lemma RemoveEnds(s: State, d: map<Ptr, Loc>, i: nat, p: Ptr) returns (m: nat)
    requires Inv(s, d) && i < |s.hs| && Resting(s.hs[i]) && p != NULL
    ensures i < |Tables(s)| && O.Sound(Tables(s)) && 0 <= s.hs[i].counter <= |s.hs[i].slots|
    ensures var s1 := Apply(s, CallUnprotect(i, p));
      Allowed(s1, i, m) && Alone(s1, i, m) == With(s, i, Removed(s.hs[i], i, p))
  {
    RestingIsKnown(s, d, i);
    hide Inv, StartRemove, Advance, Enabled, Removed;
    var h, h1 := s.hs[i], StartRemove(s.hs[i], p);
    var kk := RemovedIs(h, i, p);
    hide Apply;
    if h1.pc.Idle? {
      m := 0;
      StaysIdle(h1, i, kk);
    } else {
      m := OwnerRun(s, i, h1, kk);
    }
  }

  lemma RemovedIs(h: Handle, i: nat, p: Ptr) returns (kk: nat)
    requires Resting(h) && p != NULL && 0 <= h.counter <= |h.slots|
    ensures var h1, h2 := StartRemove(h, p), HH.Alone(StartRemove(h, p), i, kk);
      && h1.scan.NoScan? && (h1.pc.Idle? || Removes(h1.pc)) && h2.pc.Idle?
      && (h2.own == h1.own && h2.valid == h1.valid ==> h2 == Removed(h, i, p))
  {
    kk := HH.RemoveAlone(h, i, p);
    hide Topmost, HH.Removed, HH.Alone;
  }

  /** `o` is what a scan in `v` may come to: slots have changed, and nothing else. */
  ghost predicate SlotsOnly(v: seq<O.Table>, o: O.Outcome) {
    |o.tables| == |v| && forall j :: 0 <= j < |v| ==> o.tables[j] == v[j].(slots := o.tables[j].slots)
  }

  lemma ContinuedSlotsOnly(v: seq<O.Table>, id: int, pos: int, p: Ptr)
    requires 0 <= id < |v| && O.Sound(v) && pos < |v[id].slots|
    ensures SlotsOnly(v, O.Continued(v, id, pos, p))
  {
  }

  lemma EndedTables(s: State, i: nat, o: O.Outcome)
    requires SlotsOnly(Tables(s), o) && i < |s.hs| && s.hc < |s.hs|
    ensures Tables(Ended(s, i, o)) == o.tables && Untouched(s, i, Ended(s, i, o))
    ensures H(Ended(s, i, o), i) == s.hs[i].(slots := H(Ended(s, i, o), i).slots, scan := NoScan)
  {
    hide Topmost;
    assert forall j :: 0 <= j < |o.tables| ==> Tables(Ended(s, i, o))[j] == o.tables[j];
  }

  /** The state in which a whole unprotect leaves everything. */
  ghost predicate GaveUp(s: State, i: nat, p: Ptr, s': State)
    requires i < |s.hs|
  {
    && i < |Tables(s)| && O.Sound(Tables(s)) && Untouched(s, i, s')
    && var o := O.GivenUp(Tables(s), i, p);
      && Tables(s') == o.tables && s'.retired == (if o.destroyed then s.retired - {p} else s.retired)
      && Resting(H(s', i)) && H(s', i).valid == s.hs[i].valid - multiset{p}
  }

  lemma GaveUpPlain(s: State, i: nat, p: Ptr)
    requires i < |s.hs| && i < |Tables(s)| && O.Sound(Tables(s)) && Resting(s.hs[i]) && s.hc < |s.hs|
    requires 0 <= s.hs[i].counter <= |s.hs[i].slots| && Removed(s.hs[i], i, p).scan.NoScan?
    ensures GaveUp(s, i, p, With(s, i, Removed(s.hs[i], i, p)))
  {
    var h := Removed(s.hs[i], i, p);
    assert TableOf(s.hs[i]) == Tables(s)[i];
    hide Topmost, O.Without;
    assert Tables(With(s, i, h)) == Tables(s)[i := TableOf(h)];
  }

  lemma GaveUpDuty(s: State, i: nat, p: Ptr)
    requires i < |s.hs| && i < |Tables(s)| && O.Sound(Tables(s)) && Resting(s.hs[i]) && s.hc < |s.hs|
    requires 0 <= s.hs[i].counter <= |s.hs[i].slots| && Removed(s.hs[i], i, p).scan.Scan?
    ensures var at, s2 := Removed(s.hs[i], i, p).scan.at, With(s, i, Removed(s.hs[i], i, p));
      && O.Sound(Tables(s2)) && AtFits(Tables(s2), at) && Removed(s.hs[i], i, p).scan.p == p
      && GaveUp(s, i, p, Ended(s2, i, Rest(Tables(s2), p, at)))
  {
    var h := Removed(s.hs[i], i, p);
    var pos, s2 := h.scan.at.k, With(s, i, h);
    assert TableOf(s.hs[i]) == Tables(s)[i];
    hide Topmost, O.Without;
    assert Tables(s2) == Tables(s)[i := TableOf(h)];
    ContinuedSlotsOnly(Tables(s2), i, pos, p);
    EndedTables(s2, i, O.Continued(Tables(s2), i, pos, p));
    hide O.Continued, Ended;
  }

  lemma HandlesBound(s: State, d: map<Ptr, Loc>)
    requires Inv(s, d)
    ensures s.hc < |s.hs|
  {
  }

  /** Main result: unprotect run alone does in every reachable state what the sequential manager
      does: by O.GivenUpExact it destroys the pointer if and only if the copy that goes carried the
      duty and no other copy is left in the own handle or in a lower one in use. */
  lemma UnprotectEnds(s: State, i: nat, p: Ptr) returns (k: nat)
    requires Reachable(s) && Enabled(s, CallUnprotect(i, p))
    ensures var s1 := Apply(s, CallUnprotect(i, p)); Allowed(s1, i, k) && GaveUp(s, i, p, Alone(s1, i, k))
  {
    var d := ReachableInv(s);
    var d1 := StepKeepsInv(s, d, CallUnprotect(i, p));
    hide Inv, Apply, GaveUp;
    k := UnprotectFrom(s, d, d1, i, p);
  }

  lemma UnprotectFrom(s: State, d: map<Ptr, Loc>, d1: map<Ptr, Loc>, i: nat, p: Ptr) returns (k: nat)
    requires Inv(s, d) && i < |s.hs| && Resting(s.hs[i]) && p != NULL && Inv(Apply(s, CallUnprotect(i, p)), d1)
    ensures var s1 := Apply(s, CallUnprotect(i, p)); Allowed(s1, i, k) && GaveUp(s, i, p, Alone(s1, i, k))
  {
    hide Inv, Apply, Enabled, Removed, Ended, GaveUp, Tables, Rest, O.Sound, AtFits;
    HandlesBound(s, d);
    var h, s1 := s.hs[i], Apply(s, CallUnprotect(i, p));
    k := RemoveEnds(s, d, i, p);
    var s2 := With(s, i, Removed(h, i, p));
    assert H(s2, i) == Removed(h, i, p);
    if Removed(h, i, p).scan.Scan? {
      GaveUpDuty(s, i, p);
      var d2 := AloneKeepsInv(s1, d1, i, k);
      var k', d3 := ScanFrom(s2, d2, i);
      Joined(s1, i, k, k');
      k := k + k';
    } else {
      GaveUpPlain(s, i, p);
    }
  }

  // ---------------------------------------------------------------- protect

  /** Inside protect, with what it has read last; or on the way out after a null. */
  datatype Where = Outside | Inside(c: Cell, last: Ptr) | Leaving

  function Place(pc: Pc): Where {
    match pc
    case ProtInc(c, t) => Inside(c, t)
    case ProtStore(c, t, _) => Inside(c, t)
    case ProtCheck(c, t, _) => Inside(c, t)
    case ProtSwap(c, _, _, next) => Inside(c, next)
    case ProtDec => Leaving
    case _ => Outside
  }

  function One(p: Ptr): multiset<Ptr> {
    if p == NULL then multiset{} else multiset{p}
  }

  /** What the cell that is wanted shows. */
  function Content(s: State, pc: Pc): Ptr {
    match Place(pc)
    case Inside(c, _) => Read(s, c)
    case _ => NULL
  }

  /** What the call is going to protect if the cell goes on showing `r`. */
  function Wanted(pc: Pc, r: Ptr): Ptr {
    match Place(pc)
    case Inside(_, last) => if last == NULL then NULL else r
    case _ => NULL
  }

  function StepsLeft(pc: Pc, r: Ptr): nat {
    match Place(pc)
    case Outside => 0
    case Leaving => 1
    case Inside(c, last) =>
      (if last == r || last == NULL then 0 else 5) + match pc
        case ProtSwap(_, _, _, _) => 4
        case ProtInc(_, _) => 3
        case ProtStore(_, _, _) => 2
        case _ => 1
  }

  /** The thread on handle `i` is back and protects `w` in addition, if that is not null. */
  ghost predicate Returned(s: State, i: nat, s': State, w: Ptr) {
    && i < |s.hs| && Untouched(s, i, s')
    && H(s', i).pc.Idle? && H(s', i).scan.NoScan? && H(s', i).own == s.hs[i].own
    && H(s', i).valid == s.hs[i].valid + One(w)
  }

  lemma ReturnedLater(s: State, i: nat, s1: State, s': State, w: Ptr)
    requires i < |s.hs| && Untouched(s, i, s1) && s1.hs[i].own == s.hs[i].own && s1.hs[i].valid == s.hs[i].valid
    requires Returned(s1, i, s', w)
    ensures Returned(s, i, s', w)
  {
  }

  /** protect takes no slot for null. */
  lemma ReadIsNotNull(h: Handle)
    requires Local(h) && (h.pc.ProtInc? || h.pc.ProtStore? || h.pc.ProtCheck?)
    ensures h.pc.t != NULL
  {
    hide Holds, PackedTo;
  }

  lemma ProtectAdvance(h: Handle, i: int, hc: int, r: Ptr)
    requires h.scan.NoScan? && !Place(h.pc).Outside?
    requires h.pc.ProtInc? || h.pc.ProtStore? || h.pc.ProtCheck? ==> h.pc.t != NULL
    ensures var h1 := Advance(h, i, hc, r);
      && h1.own == h.own
      && if h1.pc.Idle? then h1.scan.NoScan? && h1.valid == h.valid + One(Wanted(h.pc, r))
         else
           && h1.valid == h.valid && (Place(h1.pc).Leaving? || (Place(h1.pc).Inside? && Place(h.pc).Inside? && Place(h1.pc).c == Place(h.pc).c))
           && Wanted(h1.pc, r) == Wanted(h.pc, r) && StepsLeft(h1.pc, r) < StepsLeft(h.pc, r)
  {
    hide Put, At;
    assert h.valid + multiset{} == h.valid;
  }

  /** One step of protect between scans. */
  lemma ProtectStep(s: State, i: nat)
    requires i < |s.hs| && s.hs[i].scan.NoScan? && !Place(s.hs[i].pc).Outside?
    ensures Enabled(s, Run(i))
    ensures Apply(s, Run(i)) == With(s, i, Advance(s.hs[i], i, s.hc, Content(s, s.hs[i].pc)))
  {
    hide Put, At;
  }

  lemma LocalAt(s: State, d: map<Ptr, Loc>, i: nat)
    requires Inv(s, d) && i < |s.hs|
    ensures Local(s.hs[i])
  {
  }

  /** Neither a scan nor a step of another kind changes what the call wants. */
  lemma WantedSame(s: State, i: nat, s1: State)
    requires i < |s.hs| && Untouched(s, i, s1)
    requires s1.hs[i].pc == s.hs[i].pc
    ensures Content(s1, s1.hs[i].pc) == Content(s, s.hs[i].pc)
  {
  }

  lemma EndedUntouched(s: State, i: nat, o: O.Outcome)
    requires i < |s.hs|
    ensures var s1 := Ended(s, i, o);
      Untouched(s, i, s1) && s1.hs[i] == s.hs[i].(slots := s1.hs[i].slots, scan := NoScan)
  {
  }

  /** A scan that an operation has started comes to its end and leaves the operation where it was. */
  lemma ScanAside(s: State, d: map<Ptr, Loc>, i: nat) returns (k: nat, d': map<Ptr, Loc>)
    requires Scanning(s, d, i)
    ensures var s1 := Alone(s, i, k);
      && Allowed(s, i, k) && Inv(s1, d') && Untouched(s, i, s1)
      && i < |s1.hs| && s1.hs[i] == s.hs[i].(slots := s1.hs[i].slots, scan := NoScan)
  {
    hide Inv, Rest, Ended, Untouched, Tables;
    k, d' := ScanFrom(s, d, i);
    EndedUntouched(s, i, Rest(Tables(s), s.hs[i].scan.p, s.hs[i].scan.at));
    UntouchedLength(s, i, Alone(s, i, k));
  }

  lemma AdvanceUntouched(s: State, i: nat, h: Handle)
    requires i < |s.hs|
    ensures Untouched(s, i, With(s, i, h)) && H(With(s, i, h), i) == h
    ensures Content(With(s, i, h), h.pc) == Content(s, h.pc)
  {
  }

  lemma {:induction false} ProtectFrom(s: State, d: map<Ptr, Loc>, i: nat) returns (k: nat)
    requires Inv(s, d) && i < |s.hs| && !Place(s.hs[i].pc).Outside?
    ensures Allowed(s, i, k) && Returned(s, i, Alone(s, i, k), Wanted(s.hs[i].pc, Content(s, s.hs[i].pc)))
    decreases StepsLeft(s.hs[i].pc, Content(s, s.hs[i].pc)), if s.hs[i].scan.Scan? then 1 else 0
  {
    hide Inv, Apply, Enabled, Advance, Returned, Ended, Rest, Untouched, Local, With;
    var h, r := s.hs[i], Content(s, s.hs[i].pc);
    if h.scan.Scan? {
      var d1;
      k, d1 := ScanAside(s, d, i);
      var s1 := Alone(s, i, k);
      WantedSame(s, i, s1);
      var k' := ProtectFrom(s1, d1, i);
      Joined(s, i, k, k');
      ReturnedLater(s, i, s1, Alone(s1, i, k'), Wanted(h.pc, r));
      k := k + k';
    } else {
      LocalAt(s, d, i);
      ProtectStep(s, i);
      if h.pc.ProtInc? || h.pc.ProtStore? || h.pc.ProtCheck? { ReadIsNotNull(h); }
      ProtectAdvance(h, i, s.hc, r);
      var h1 := Advance(h, i, s.hc, r);
      var s1 := Apply(s, Run(i));
      AdvanceUntouched(s, i, h1);
      var d1 := StepKeepsInv(s, d, Run(i));
      k := 0;
      if h1.pc.Idle? {
        assert Alone(s1, i, 0) == s1 && Allowed(s1, i, 0);
        assert Returned(s, i, s1, Wanted(h.pc, r)) by { Back(s, i, s1, Wanted(h.pc, r)); }
      } else {
        assert i < |s1.hs| by { UntouchedLength(s, i, s1); }
        SameContent(s, h.pc, h1.pc, r);
        k := ProtectFrom(s1, d1, i);
        ReturnedLater(s, i, s1, Alone(s1, i, k), Wanted(h.pc, r));
      }
      k := k + 1;
    }
  }

  lemma UntouchedLength(s: State, i: nat, s1: State)
    requires Untouched(s, i, s1)
    ensures |s1.hs| == |s.hs|
  {
  }

  lemma Back(s: State, i: nat, s1: State, w: Ptr)
    requires i < |s.hs| && Untouched(s, i, s1) && H(s1, i).pc.Idle? && H(s1, i).scan.NoScan?
    requires H(s1, i).own == s.hs[i].own && H(s1, i).valid == s.hs[i].valid + One(w)
    ensures Returned(s, i, s1, w)
  {
  }

  lemma SameContent(s: State, pc: Pc, pc1: Pc, r: Ptr)
    requires r == Content(s, pc)
    requires Place(pc1).Leaving? || (Place(pc1).Inside? && Place(pc).Inside? && Place(pc1).c == Place(pc).c)
    ensures Wanted(pc1, Content(s, pc1)) == Wanted(pc1, r) && StepsLeft(pc1, Content(s, pc1)) == StepsLeft(pc1, r)
  {
  }

  /** Main result: from every reachable state in which the thread on handle `i` is inside a call of
      protect, with a scan for a duty it has found or without, the call ends if the thread runs
      alone, protecting in addition exactly what the cell shows, or nothing if that is null or the
      call has read a null before. */
  lemma ProtectEnds(s: State, i: nat) returns (k: nat)
    requires Reachable(s) && i < |s.hs| && !Place(s.hs[i].pc).Outside?
    ensures Allowed(s, i, k) && Returned(s, i, Alone(s, i, k), Wanted(s.hs[i].pc, Content(s, s.hs[i].pc)))
  {
    var d := ReachableInv(s);
    hide Inv;
    k := ProtectFrom(s, d, i);
  }

  lemma RawStores(s: State, i: nat)
    requires i < |s.hs| && s.hs[i].pc.RawStore? && s.hs[i].scan.NoScan? && s.hs[i].pc.t != NULL
    ensures Allowed(s, i, 1) && Returned(s, i, Alone(s, i, 1), s.hs[i].pc.t)
  {
    var s1 := Apply(s, Run(i));
    assert Untouched(s, i, s1) && H(s1, i).valid == s.hs[i].valid + One(s.hs[i].pc.t);
    hide Apply;
    assert Alone(s, i, 1) == Alone(s1, i, 0) == s1 && Allowed(s1, i, 0);
  }

  lemma RawCounts(s: State, i: nat)
    requires i < |s.hs| && s.hs[i].pc.RawInc? && s.hs[i].scan.NoScan?
    ensures Enabled(s, Run(i))
    ensures var s1 := Apply(s, Run(i));
      Untouched(s, i, s1) && H(s1, i) == s.hs[i].(pc := RawStore(s.hs[i].pc.t, s.hs[i].counter), counter := s.hs[i].counter + 1)
  {
  }

  /** protect_raw ends within two steps, with its pointer protected. */
  lemma RawEnds(s: State, i: nat) returns (k: nat)
    requires Reachable(s) && i < |s.hs| && (s.hs[i].pc.RawInc? || s.hs[i].pc.RawStore?)
    ensures k <= 2 && Allowed(s, i, k) && Returned(s, i, Alone(s, i, k), s.hs[i].pc.t)
  {
    var d := ReachableInv(s);
    LocalAt(s, d, i);
    RawFacts(s.hs[i]);
    hide Inv, Local, Apply, Enabled, Returned;
    k := 1;
    if s.hs[i].pc.RawStore? {
      RawStores(s, i);
    } else {
      var s1 := Apply(s, Run(i));
      RawCounts(s, i);
      UntouchedLength(s, i, s1);
      RawStores(s1, i);
      ReturnedLater(s, i, s1, Alone(s1, i, 1), s.hs[i].pc.t);
      k := 2;
    }
  }

  lemma RawFacts(h: Handle)
    requires Local(h) && (h.pc.RawInc? || h.pc.RawStore?)
    ensures h.pc.t != NULL && h.scan.NoScan?
  {
    hide Holds, PackedTo;
  }

  // ---------------------------------------------------------------- protect in any interleaving

  /** What the thread on handle `i` has read last from the cell that it wants to protect. */
  function LastRead(s: State, acts: seq<Action>, i: nat, last: Ptr): Ptr
    decreases |acts|
  {
    if acts == [] then last
    else LastRead(Apply(s, acts[0]), acts[1..], i, Reads(s, acts[0], i, last))
  }

  function Reads(s: State, a: Action, i: nat, last: Ptr): Ptr {
    if a.CallProtect? && a.i == i then Read(s, a.c)
    else if a == Run(i) && H(s, i).scan.NoScan? && H(s, i).pc.ProtCheck? then Read(s, H(s, i).pc.c)
    else last
  }

  /** A call of the thread on handle `i`. */
  predicate Calls(a: Action, i: nat) {
    (a.CallProtect? || a.CallRaw? || a.CallUnprotect? || a.CallDelete? || a.CallDestruct?) && a.i == i
  }

  /** Inside protect of `c` with `last` in its hands, or back from it with that protected. */
  predicate Knows(h: Handle, was: multiset<Ptr>, c: Cell, last: Ptr) {
    && h.own.Live?
    && if h.pc.Idle? then h.valid == was + One(last)
       else
         && h.valid == was && (Place(h.pc) == Inside(c, last) || (h.pc.ProtDec? && last == NULL))
         && (h.pc.ProtInc? || h.pc.ProtStore? || h.pc.ProtCheck? ==> last != NULL)
  }

  /** Steps of others change only marks of the handle. */
  lemma OthersStep(s: State, a: Action, i: nat)
    requires i < |s.hs| && s.hs[i].own.Live? && !Calls(a, i) && a != Run(i)
    ensures i < |Apply(s, a).hs| && Apply(s, a).hs[i] == s.hs[i].(slots := Apply(s, a).hs[i].slots)
  {
    hide Advance, StartRemove, Put, At;
    if a.Run? && a.i < |s.hs| {
      if s.hs[a.i].scan.Scan? { ScanTouches(s, a.i, i); } else { OthersOwner(s, a.i, i); }
    }
    hide ScanStep, OwnerStep;
  }

  /** A scanning step by `j` changes slots, and where its scan stands. */
  lemma ScanTouches(s: State, j: nat, i: nat)
    requires i < |s.hs| && j < |s.hs|
    ensures i < |ScanStep(s, j).hs|
    ensures var h := ScanStep(s, j).hs[i]; h == s.hs[i].(slots := h.slots, scan := if i == j then h.scan else s.hs[i].scan)
  {
    hide Put, At;
    if s.hs[j].scan.Scan? && s.hs[j].scan.at.AtCas? { CasTouches(s, j, i); } else { PlainTouches(s, j); }
    hide ScanStep;
  }

  lemma PlainTouches(s: State, j: nat)
    requires j < |s.hs| && !(s.hs[j].scan.Scan? && s.hs[j].scan.at.AtCas?)
    ensures ScanStep(s, j).hs == s.hs[j := s.hs[j].(scan := H(ScanStep(s, j), j).scan)]
  {
    hide Put, At;
  }

  lemma CasTouches(s: State, j: nat, i: nat)
    requires i < |s.hs| && j < |s.hs| && s.hs[j].scan.Scan? && s.hs[j].scan.at.AtCas?
    ensures i < |ScanStep(s, j).hs|
    ensures var h := ScanStep(s, j).hs[i]; h == s.hs[i].(slots := h.slots, scan := if i == j then h.scan else s.hs[i].scan)
  {
    hide Put, At;
  }

  lemma OthersOwner(s: State, j: nat, i: nat)
    requires i < |s.hs| && j < |s.hs| && j != i
    ensures i < |OwnerStep(s, j).hs| && OwnerStep(s, j).hs[i] == s.hs[i]
  {
    hide Advance;
  }

  lemma OwnStep(s: State, i: nat, was: multiset<Ptr>, c: Cell, last: Ptr)
    requires i < |s.hs| && Knows(s.hs[i], was, c, last) && s.hs[i].scan.NoScan? && !s.hs[i].pc.Idle?
    ensures i < |OwnerStep(s, i).hs| && Knows(OwnerStep(s, i).hs[i], was, c, Reads(s, Run(i), i, last))
  {
    hide Put, At;
    assert was + multiset{} == was;
  }

  lemma KnowsStep(s: State, a: Action, i: nat, was: multiset<Ptr>, c: Cell, last: Ptr)
    requires i < |s.hs| && Enabled(s, a) && !Calls(a, i) && Knows(s.hs[i], was, c, last)
    ensures i < |Apply(s, a).hs| && Knows(Apply(s, a).hs[i], was, c, Reads(s, a, i, last))
  {
    if a == Run(i) {
      hide ScanStep, OwnerStep;
      if s.hs[i].scan.Scan? { ScanTouches(s, i, i); } else { OwnStep(s, i, was, c, last); }
    } else {
      hide Apply;
      OthersStep(s, a, i);
    }
  }

  lemma {:induction false} KnowsRun(s: State, acts: seq<Action>, i: nat, was: multiset<Ptr>, c: Cell, last: Ptr)
    requires i < |s.hs| && Legal(s, acts) && Knows(s.hs[i], was, c, last)
    requires forall n :: 0 <= n < |acts| ==> !Calls(acts[n], i)
    ensures i < |Exec(s, acts).hs| && Knows(Exec(s, acts).hs[i], was, c, LastRead(s, acts, i, last))
    decreases |acts|
  {
    hide Apply, Enabled, Knows, Reads, Calls;
    if acts != [] {
      KnowsStep(s, acts[0], i, was, c, last);
      KnowsRun(Apply(s, acts[0]), acts[1..], i, was, c, Reads(s, acts[0], i, last));
    }
  }

  lemma LegalTail(s: State, acts: seq<Action>)
    requires Legal(s, acts) && acts != []
    ensures Enabled(s, acts[0]) && Legal(Apply(s, acts[0]), acts[1..])
  {
  }

  /** Main result, in every interleaving: when a call of protect has returned, the handle protects in
      addition exactly what its thread has read from the cell last. So it returns without a new
      protection only if its last read was null. */
  lemma ProtectHoldsLastRead(s: State, acts: seq<Action>, i: nat, c: Cell)
    requires acts != [] && acts[0] == CallProtect(i, c) && Legal(s, acts)
    requires forall n :: 0 < n < |acts| ==> !Calls(acts[n], i)
    ensures var s', last := Exec(s, acts), LastRead(s, acts, i, NULL);
      H(s', i).pc.Idle? ==> H(s', i).valid == H(s, i).valid + One(last)
  {
    hide Legal, Exec, LastRead;
    LegalTail(s, acts);
    var s1 := Apply(s, acts[0]);
    assert i < |s1.hs| && Knows(s1.hs[i], s.hs[i].valid, c, Read(s, c));
    hide Apply, Enabled;
    KnowsRun(s1, acts[1..], i, s.hs[i].valid, c, Read(s, c));
    FirstRead(s, acts, i, c);
  }

  lemma FirstRead(s: State, acts: seq<Action>, i: nat, c: Cell)
    requires acts != [] && acts[0] == CallProtect(i, c)
    ensures LastRead(s, acts, i, NULL) == LastRead(Apply(s, acts[0]), acts[1..], i, Read(s, c))
    ensures Exec(s, acts) == Exec(Apply(s, acts[0]), acts[1..])
  {
  }

  // ---------------------------------------------------------------- get_handle

  /** `k` steps in a row of the search of thread `x`. */
  function SeekAlone(s: State, x: nat, k: nat): State
    decreases k
  {
    if k == 0 then s else SeekAlone(Apply(s, Seek(x)), x, k - 1)
  }

  predicate SeekAllowed(s: State, x: nat, k: nat)
    decreases k
  {
    k == 0 || (Enabled(s, Seek(x)) && SeekAllowed(Apply(s, Seek(x)), x, k - 1))
  }

  /** The first handle from `i` on that is not in use, or |s.hs|. */
  function FirstFree(s: State, i: nat): (j: nat)
    ensures i <= |s.hs| ==> j <= |s.hs|
    ensures forall n :: i <= n < j && n < |s.hs| ==> s.hs[n].own.Live?
    ensures j < |s.hs| ==> i <= j && !s.hs[j].own.Live?
    decreases |s.hs| - i
  {
    if i >= |s.hs| then |s.hs| else if s.hs[i].own.Live? then FirstFree(s, i + 1) else i
  }

  /** The search has taken handle `j`, or left without one if there is none. */
  function Taken(s: State, x: nat, j: nat): State {
    var gone := s.(seekers := s.seekers - {x});
    if j < |s.hs| then With(gone, j, s.hs[j].(own := Live, pc := if s.hs[j].own.Absent? then RaiseLoad else Idle)) else gone
  }

  function SeekLeft(s: State, k: Seeker): nat {
    (if k.i < |s.hs| then 3 * (|s.hs| - k.i) else 0) + match k
      case Look(_) => 2
      case TryNew(_) => 1
      case TryReuse(_) => 0
  }

  lemma SeekMoves(s: State, x: nat)
    requires x in s.seekers
    requires s.seekers[x].TryReuse? && s.seekers[x].i < |s.hs| ==> !s.hs[s.seekers[x].i].own.Absent?
    ensures var k, s1 := s.seekers[x], Apply(s, Seek(x));
      if x in s1.seekers then
        var k1 := s1.seekers[x];
        && s1 == s.(seekers := s.seekers[x := k1]) && FirstFree(s1, k1.i) == FirstFree(s, k.i) && SeekLeft(s1, k1) < SeekLeft(s, k)
        && (k1.TryReuse? && k1.i < |s.hs| ==> !s.hs[k1.i].own.Absent?)
      else s1 == Taken(s, x, FirstFree(s, k.i))
  {
    var k, s1 := s.seekers[x], Apply(s, Seek(x));
    if x in s1.seekers { SameFirst(s, s1, s1.seekers[x].i); }
  }

  lemma {:induction false} SameFirst(s: State, s1: State, i: nat)
    requires s1.hs == s.hs
    ensures FirstFree(s1, i) == FirstFree(s, i)
    decreases |s.hs| - i
  {
    if i < |s.hs| { SameFirst(s, s1, i + 1); }
  }

  lemma {:induction false} SeekFrom(s: State, x: nat) returns (k: nat)
    requires x in s.seekers
    requires s.seekers[x].TryReuse? && s.seekers[x].i < |s.hs| ==> !s.hs[s.seekers[x].i].own.Absent?
    ensures k <= SeekLeft(s, s.seekers[x]) + 1 && SeekAllowed(s, x, k)
    ensures SeekAlone(s, x, k) == Taken(s, x, FirstFree(s, s.seekers[x].i))
    decreases SeekLeft(s, s.seekers[x])
  {
    SeekMoves(s, x);
    var s1 := Apply(s, Seek(x));
    assert Enabled(s, Seek(x));
    hide Apply, Enabled, FirstFree;
    k := 0;
    if x in s1.seekers {
      k := SeekFrom(s1, x);
      var j := FirstFree(s, s.seekers[x].i);
      assert s1.seekers - {x} == s.seekers - {x};
      assert Taken(s1, x, j) == Taken(s, x, j);
    } else {
      assert SeekAlone(s1, x, 0) == s1 && SeekAllowed(s1, x, 0);
    }
    k := k + 1;
  }

  /** Main result: from wherever it has been interrupted in any interleaving, the search of get_handle
      ends if its thread runs alone; it has then taken the first handle from its place on that is
      not in use, or there is none. */
  lemma SeekEnds(s: State, x: nat) returns (k: nat)
    requires Reachable(s) && x in s.seekers
    ensures k <= 3 * |s.hs| + 3 && SeekAllowed(s, x, k)
    ensures SeekAlone(s, x, k) == Taken(s, x, FirstFree(s, s.seekers[x].i))
  {
    var d := ReachableInv(s);
    assert SeekerOk(s, s.seekers[x]);
    hide Inv;
    k := SeekFrom(s, x);
  }

  function RaiseLeft(s: State, i: nat): nat {
    match H(s, i).pc
    case RaiseCas(b) => if b >= i then 0 else if s.hc >= i then 1 else if b == s.hc then 2 else 3
    case _ => 4
  }

  lemma RaiseStep(s: State, i: nat)
    requires i < |s.hs| && s.hs[i].scan.NoScan? && (s.hs[i].pc.RaiseLoad? || s.hs[i].pc.RaiseCas?)
    requires s.hs[i].pc.RaiseCas? ==> s.hs[i].pc.b <= s.hc
    ensures Enabled(s, Run(i))
    ensures var s1 := Apply(s, Run(i));
      && s1 == With(s.(hc := s1.hc), i, s.hs[i].(pc := H(s1, i).pc)) && (s1.hc == s.hc || s.hc < i == s1.hc)
      && if H(s1, i).pc.Idle? then s1.hc >= i
         else H(s1, i).pc.RaiseCas? && H(s1, i).pc.b <= s1.hc && RaiseLeft(s1, i) < RaiseLeft(s, i)
  {
  }

  lemma {:induction false} RaiseFrom(s: State, i: nat) returns (k: nat)
    requires i < |s.hs| && s.hs[i].scan.NoScan? && (s.hs[i].pc.RaiseLoad? || s.hs[i].pc.RaiseCas?)
    requires s.hs[i].pc.RaiseCas? ==> s.hs[i].pc.b <= s.hc
    ensures k <= RaiseLeft(s, i) + 1 && Allowed(s, i, k)
    ensures Alone(s, i, k) == With(s.(hc := if s.hc < i then i else s.hc), i, s.hs[i].(pc := Idle))
    decreases RaiseLeft(s, i)
  {
    hide Apply, Enabled, RaiseLeft;
    RaiseStep(s, i);
    var s1 := Apply(s, Run(i));
    k := 0;
    if H(s1, i).pc.Idle? {
      assert Alone(s1, i, 0) == s1 && Allowed(s1, i, 0);
    } else {
      k := RaiseFrom(s1, i);
    }
    k := k + 1;
  }

  /** Main result: a new handle raises _handle_counter to its place, unless it is there already, within
      five steps if its thread runs alone, and then nothing keeps it from being used. */
  lemma RaiseEnds(s: State, i: nat) returns (k: nat)
    requires Reachable(s) && i < |s.hs| && (s.hs[i].pc.RaiseLoad? || s.hs[i].pc.RaiseCas?)
    ensures k <= 5 && Allowed(s, i, k) && Resting(H(Alone(s, i, k), i))
    ensures Alone(s, i, k) == With(s.(hc := if s.hc < i then i else s.hc), i, s.hs[i].(pc := Idle))
  {
    var d := ReachableInv(s);
    RaiseFacts(s, d, i);
    hide Inv;
    k := RaiseFrom(s, i);
  }

  lemma RaiseFacts(s: State, d: map<Ptr, Loc>, i: nat)
    requires Inv(s, d) && i < |s.hs| && (s.hs[i].pc.RaiseLoad? || s.hs[i].pc.RaiseCas?)
    ensures s.hs[i].scan.NoScan? && s.hs[i].own.Live? && (s.hs[i].pc.RaiseCas? ==> s.hs[i].pc.b <= s.hc)
  {
    hide Memory, Duties, Placements, Holds, PackedTo;
    LocalAt(s, d, i);
    ManagerHandle(s, i);
  }

  // ---------------------------------------------------------------- ~handle_type

  /** The handle is cleared and left for reuse. */
  ghost predicate Cleared(s: State, i: nat, s': State) {
    && i < |s.hs| && Untouched(s, i, s')
    && H(s', i).own.Free? && H(s', i).pc.Unowned? && H(s', i).scan.NoScan?
  }

  function DtorLeft(pc: Pc): nat {
    match pc
    case DtorLoop(j) => if j < 0 then 2 else j + 3
    case DtorZero => 1
    case _ => 0
  }

  lemma DtorStep(s: State, i: nat)
    requires i < |s.hs| && s.hs[i].scan.NoScan? && Destructing(s.hs[i])
    ensures Enabled(s, Run(i))
    ensures var s1, h := Apply(s, Run(i)), s.hs[i];
      && Untouched(s, i, s1)
      && if h.pc.DtorFree? then Cleared(s, i, s1) else Destructing(H(s1, i)) && DtorLeft(H(s1, i).pc) < DtorLeft(h.pc)
  {
    hide Put, At;
  }

  lemma ClearedLater(s: State, i: nat, s1: State, s': State)
    requires i < |s.hs| && Untouched(s, i, s1) && Cleared(s1, i, s')
    ensures Cleared(s, i, s')
  {
  }

  lemma {:induction false} DtorFrom(s: State, d: map<Ptr, Loc>, i: nat) returns (k: nat, d': map<Ptr, Loc>)
    requires Inv(s, d) && i < |s.hs| && Destructing(s.hs[i])
    ensures Allowed(s, i, k) && Cleared(s, i, Alone(s, i, k)) && Inv(Alone(s, i, k), d')
    decreases DtorLeft(s.hs[i].pc), if s.hs[i].scan.Scan? then 1 else 0
  {
    hide Inv, Apply, Enabled, Ended, Rest, Untouched, Cleared, With, Ready;
    var h := s.hs[i];
    if h.scan.Scan? {
      k, d' := ScanAside(s, d, i);
      var s1 := Alone(s, i, k);
      var k';
      k', d' := DtorFrom(s1, d', i);
      Joined(s, i, k, k');
      ClearedLater(s, i, s1, Alone(s1, i, k'));
      k := k + k';
    } else {
      DtorStep(s, i);
      var s1 := Apply(s, Run(i));
      d' := StepKeepsInv(s, d, Run(i));
      k := 0;
      if h.pc.DtorFree? {
        assert Alone(s1, i, 0) == s1 && Allowed(s1, i, 0);
      } else {
        assert i < |s1.hs| by { UntouchedLength(s, i, s1); }
        k, d' := DtorFrom(s1, d', i);
        ClearedLater(s, i, s1, Alone(s1, i, k));
      }
      k := k + 1;
    }
  }

  /** Main result: from every reachable state in which a handle is being destructed, its thread clears
      it and leaves it for reuse if it runs alone, handing on every duty it finds. */
  lemma DestructEnds(s: State, i: nat) returns (k: nat)
    requires Reachable(s) && i < |s.hs| && Destructing(s.hs[i])
    ensures Allowed(s, i, k) && Cleared(s, i, Alone(s, i, k))
    ensures H(Alone(s, i, k), i).counter == 0 && forall j :: 0 <= j < |H(Alone(s, i, k), i).slots| ==> H(Alone(s, i, k), i).slots[j] == EMPTY
  {
    var d := ReachableInv(s);
    var d';
    k, d' := DtorFrom(s, d, i);
    var s' := Alone(s, i, k);
    UntouchedLength(s, i, s');
    LocalAt(s', d', i);
    hide Inv, Holds;
  }
}
