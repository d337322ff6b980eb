/** Every step of the hazard protocol keeps the invariant. */
module HazardSteps {
  import opened HazardSlots
  import opened HazardProtocol
  import opened HazardInvariant

  // ---------------------------------------------------------------- steps that rewrite one handle

  lemma ManagerFrame(s: State, i: int, h': Handle)
    requires Manager(s) && 0 <= i < |s.hs|
    requires h'.own == s.hs[i].own && |h'.slots| == |s.hs[i].slots|
    requires HandleOk(With(s, i, h'), i)
    ensures Manager(With(s, i, h'))
  {
    var s' := With(s, i, h');
    forall j | 0 <= j < |s'.hs| ensures HandleOk(s', j) {
      assert HandleOk(s, j);
    }
    forall x | x in s'.seekers ensures SeekerOk(s', s'.seekers[x]) {
      assert SeekerOk(s, s.seekers[x]);
    }
  }

  lemma MemoryFrame(s: State, i: int, h': Handle)
    requires Memory(s) && 0 <= i < |s.hs|
    requires ClientOk(With(s, i, h'), i)
    ensures Memory(With(s, i, h'))
  {
    var s' := With(s, i, h');
    forall j | 0 <= j < |s'.hs| ensures ClientOk(s', j) {
      assert ClientOk(s, j);
    }
  }

  lemma DutyFrame(s: State, d: map<Ptr, Loc>, i: int, h': Handle, d': map<Ptr, Loc>)
    requires Duties(s, d) && 0 <= i < |s.hs|
    requires d'.Keys == d.Keys
    requires forall p :: p in d && d[p].i != i ==> d'[p] == d[p]
    requires forall p :: p in d && d[p].i == i ==> d'[p].i == i && LocOk(With(s, i, h'), p, d'[p])
    requires forall k :: 0 <= k < |h'.slots| ==> MarkOk(With(s, i, h'), d', i, k)
    requires forall p :: Hand(h', p) ==> p in d && d'[p] == InHand(i)
    ensures Duties(With(s, i, h'), d')
  {
    var s' := With(s, i, h');
    forall j, k | 0 <= j < |s'.hs| && 0 <= k < |s'.hs[j].slots| ensures MarkOk(s', d', j, k) {
      if j != i {
        assert s'.hs[j] == s.hs[j];
        assert MarkOk(s, d, j, k);
      }
    }
    forall p | p in d' ensures LocOk(s', p, d'[p]) {
      assert LocOk(s, p, d[p]);
    }
    forall j, p | 0 <= j < |s'.hs| && Hand(s'.hs[j], p) ensures p in d' && d'[p] == InHand(j) {
      if j != i { assert Hand(s.hs[j], p); }
    }
  }

  lemma PlacedFrame(s: State, i: int, h': Handle, p: Ptr, l: Loc)
    requires 0 <= i < |s.hs| && Placed(s, p, l)
    requires p in h'.valid ==> p in s.hs[i].valid
    requires forall k :: Covers(s.hs[i], p, k) ==> Covers(h', p, k)
    requires l.i != i || h'.scan == s.hs[i].scan
    ensures Placed(With(s, i, h'), p, l)
  {
  }

  /** A step that rewrites handle `i` only, moving only duties located at `i`. */
  lemma OwnerFrame(s: State, d: map<Ptr, Loc>, i: int, h': Handle, d': map<Ptr, Loc>)
    requires Inv(s, d) && 0 <= i < |s.hs|
    requires Local(h') && h'.own == s.hs[i].own && |h'.slots| == |s.hs[i].slots|
    requires HandleOk(With(s, i, h'), i) && ClientOk(With(s, i, h'), i)
    requires d'.Keys == d.Keys
    requires forall p :: p in d && d[p].i != i ==> d'[p] == d[p]
    requires forall p :: p in d && d[p].i == i ==> d'[p].i == i && LocOk(With(s, i, h'), p, d'[p])
    requires forall p :: p in d && d[p].i == i ==> Placed(With(s, i, h'), p, d'[p])
    requires forall k :: 0 <= k < |h'.slots| ==> MarkOk(With(s, i, h'), d', i, k)
    requires forall p :: Hand(h', p) ==> p in d && d'[p] == InHand(i)
    requires forall p :: p in d && p in h'.valid ==> p in s.hs[i].valid
    requires forall p, k :: p in d && Covers(s.hs[i], p, k) ==> Covers(h', p, k)
    ensures Inv(With(s, i, h'), d')
  {
    ManagerFrame(s, i, h');
    MemoryFrame(s, i, h');
    DutyFrame(s, d, i, h', d');
    forall p | p in d' ensures Placed(With(s, i, h'), p, d'[p]) {
      assert Placed(s, p, d[p]);
      if d[p].i != i { PlacedFrame(s, i, h', p, d[p]); }
    }
  }

  /** A step that moves no mark and no duty. */
  lemma QuietFrame(s: State, d: map<Ptr, Loc>, i: int, h': Handle)
    requires Inv(s, d) && 0 <= i < |s.hs|
    requires Local(h') && h'.own == s.hs[i].own && h'.slots == s.hs[i].slots && h'.scan == s.hs[i].scan
    requires HandleOk(With(s, i, h'), i) && ClientOk(With(s, i, h'), i)
    requires forall p :: Hand(h', p) <==> Hand(s.hs[i], p)
    requires forall k :: Shadow(s.hs[i], k) ==> Shadow(h', k)
    requires forall p :: p in h'.valid ==> p in s.hs[i].valid || p !in s.retired
    ensures Inv(With(s, i, h'), d)
  {
    hide Local, HandleOk, ClientOk, Manager, Memory;
    var s', h := With(s, i, h'), s.hs[i];
    forall p | p in d && d[p].i == i ensures LocOk(s', p, d[p]) { assert LocOk(s, p, d[p]); }
    forall p | p in d && d[p].i == i ensures Placed(s', p, d[p]) {
      assert Placed(s, p, d[p]);
      PlacedFrame(s, i, h', p, d[p]);
    }
    forall k | 0 <= k < |h'.slots| ensures MarkOk(s', d, i, k) { assert MarkOk(s, d, i, k); }
    OwnerFrame(s, d, i, h', d);
  }

  // ---------------------------------------------------------------- the owner's steps, one handle

  lemma HoldsUpdate(slots: seq<Slot>, k: int, x: Slot, m: multiset<Ptr>, m': multiset<Ptr>)
    requires 0 <= k < |slots| && Holds(slots, m)
    requires forall p: Ptr :: p != NULL ==>
      m'[p] + (if p == slots[k].ptr then 1 else 0) == m[p] + (if p == x.ptr then 1 else 0)
    ensures Holds(slots[k := x], m')
  {
    OccupancyUpdate(slots, k, x);
  }

  lemma PackedUpdate(slots: seq<Slot>, top: int, k: int, x: Slot, top': int)
    requires PackedTo(slots, top)
    requires || (0 <= k < top == top' && x.ptr != NULL)
             || (0 <= k == top' == top - 1 && x == EMPTY)
    ensures top <= |slots| && PackedTo(slots[k := x], top')
  {
  }

  lemma HoldsNothing(slots: seq<Slot>)
    requires PackedTo(slots, 0)
    ensures Holds(slots, multiset{})
  {
    forall p: Ptr | p != NULL ensures Occupancy(slots)[p] == 0 {
      if Occupancy(slots)[p] > 0 { var k := OccupancyWitness(slots, p); }
    }
  }

  lemma LocalRaise(h: Handle, i: int, hc: int, seen: Ptr)
    requires Local(h) && h.scan.NoScan? && (h.pc.RaiseLoad? || h.pc.RaiseCas?)
    ensures Local(Advance(h, i, hc, seen))
  {
    hide Holds, PackedTo;
  }

  lemma LocalProtInc(h: Handle, i: int, hc: int, seen: Ptr)
    requires Local(h) && h.scan.NoScan? && h.pc.ProtInc?
    ensures Local(Advance(h, i, hc, seen))
  {
    hide Holds;
  }

  lemma LocalRawInc(h: Handle, i: int, hc: int, seen: Ptr)
    requires Local(h) && h.scan.NoScan? && h.pc.RawInc?
    ensures Local(Advance(h, i, hc, seen))
  {
    hide Holds;
  }

  lemma LocalProtDec(h: Handle, i: int, hc: int, seen: Ptr)
    requires Local(h) && h.scan.NoScan? && h.pc.ProtDec?
    ensures Local(Advance(h, i, hc, seen))
  {
    hide Holds;
  }

  lemma LocalCheckOk(h: Handle, i: int, hc: int, seen: Ptr)
    requires Local(h) && h.scan.NoScan? && h.pc.ProtCheck? && seen == h.pc.t
    ensures Local(Advance(h, i, hc, seen))
  {
    hide Holds, PackedTo;
    assert h.valid + multiset{h.pc.t} == h.valid + multiset{h.pc.t} + multiset{};
  }

  lemma LocalCheckFail(h: Handle, i: int, hc: int, seen: Ptr)
    requires Local(h) && h.scan.NoScan? && h.pc.ProtCheck? && seen != h.pc.t
    ensures Local(Advance(h, i, hc, seen))
  {
    hide Holds, PackedTo;
  }

  lemma LocalDtorEnd(h: Handle, i: int, hc: int, seen: Ptr)
    requires Local(h) && h.scan.NoScan? && (h.pc.DtorZero? || (h.pc.DtorLoop? && h.pc.i < 0))
    ensures Local(Advance(h, i, hc, seen))
  {
    hide Holds;
  }

  lemma LocalDtorFree(h: Handle, i: int, hc: int, seen: Ptr)
    requires Local(h) && h.scan.NoScan? && h.pc.DtorFree?
    ensures Local(Advance(h, i, hc, seen))
  {
    hide Holds;
    HoldsNothing(h.slots);
    assert Expected(Advance(h, i, hc, seen)) == multiset{};
  }

  lemma LocalTopDec(h: Handle, i: int, hc: int, seen: Ptr)
    requires Local(h) && h.scan.NoScan? && h.pc.TopDec?
    ensures Local(Advance(h, i, hc, seen))
  {
    hide Holds;
  }

  lemma LocalMovLoad(h: Handle, i: int, hc: int, seen: Ptr)
    requires Local(h) && h.scan.NoScan? && h.pc.MovLoad?
    ensures Local(Advance(h, i, hc, seen))
  {
    hide Holds;
  }

  lemma LocalMovDec(h: Handle, i: int, hc: int, seen: Ptr)
    requires Local(h) && h.scan.NoScan? && h.pc.MovDec?
    ensures Local(Advance(h, i, hc, seen))
  {
    hide Holds;
  }

  lemma LocalDtorLoop(h: Handle, i: int, hc: int, seen: Ptr)
    requires Local(h) && h.scan.NoScan? && h.pc.DtorLoop? && h.pc.i >= 0
    ensures Local(Advance(h, i, hc, seen))
  {
    hide Holds;
  }

  lemma LocalProtStore(h: Handle, i: int, hc: int, seen: Ptr)
    requires Local(h) && h.scan.NoScan? && h.pc.ProtStore?
    ensures Local(Advance(h, i, hc, seen))
  {
    hide Holds;
    HoldsUpdate(h.slots, h.pc.pos, Slot(h.pc.t, false), Expected(h), Expected(Advance(h, i, hc, seen)));
  }

  lemma LocalRawStore(h: Handle, i: int, hc: int, seen: Ptr)
    requires Local(h) && h.scan.NoScan? && h.pc.RawStore?
    ensures Local(Advance(h, i, hc, seen))
  {
    hide Holds;
    HoldsUpdate(h.slots, h.pc.pos, Slot(h.pc.t, false), Expected(h), Expected(Advance(h, i, hc, seen)));
  }

  lemma LocalProtSwap(h: Handle, i: int, hc: int, seen: Ptr)
    requires Local(h) && h.scan.NoScan? && h.pc.ProtSwap?
    ensures Local(Advance(h, i, hc, seen))
  {
    hide Local, Advance;
    if h.pc.next == NULL { LocalSwapNull(h, i, hc, seen); } else { LocalSwapNext(h, i, hc, seen); }
  }

  lemma LocalSwapNull(h: Handle, i: int, hc: int, seen: Ptr)
    requires Local(h) && h.scan.NoScan? && h.pc.ProtSwap? && h.pc.next == NULL
    ensures Local(Advance(h, i, hc, seen))
  {
    hide Holds;
    HoldsUpdate(h.slots, h.pc.pos, EMPTY, Expected(h), Expected(Advance(h, i, hc, seen)));
  }

  lemma LocalSwapNext(h: Handle, i: int, hc: int, seen: Ptr)
    requires Local(h) && h.scan.NoScan? && h.pc.ProtSwap? && h.pc.next != NULL
    ensures Local(Advance(h, i, hc, seen))
  {
    hide Holds;
    HoldsUpdate(h.slots, h.pc.pos, Slot(h.pc.next, false), Expected(h), Expected(Advance(h, i, hc, seen)));
  }

  lemma LocalTopClear(h: Handle, i: int, hc: int, seen: Ptr)
    requires Local(h) && h.scan.NoScan? && h.pc.TopClear?
    ensures Local(Advance(h, i, hc, seen))
  {
    hide Holds;
    HoldsUpdate(h.slots, h.pc.pos, EMPTY, Expected(h), Expected(Advance(h, i, hc, seen)));
  }

  lemma LocalMovOver(h: Handle, i: int, hc: int, seen: Ptr)
    requires Local(h) && h.scan.NoScan? && h.pc.MovOver?
    ensures Local(Advance(h, i, hc, seen))
  {
    hide Holds;
    assert h.slots[h.pc.n - 1].ptr != NULL;
    hide PackedTo;
    PackedUpdate(h.slots, Top(h), h.pc.pos, h.pc.last, Top(h));
    HoldsUpdate(h.slots, h.pc.pos, h.pc.last, Expected(h), Expected(Advance(h, i, hc, seen)));
  }

  lemma LocalMovClearClean(h: Handle, i: int, hc: int, seen: Ptr)
    requires Local(h) && h.scan.NoScan? && h.pc.MovClear? && At(h.slots, h.pc.n - 1) == h.pc.last
    ensures Local(Advance(h, i, hc, seen))
  {
    hide Holds;
    HoldsUpdate(h.slots, h.pc.n - 1, EMPTY, Expected(h), Expected(Advance(h, i, hc, seen)));
  }

  lemma LocalMovClearMarked(h: Handle, i: int, hc: int, seen: Ptr)
    requires Local(h) && h.scan.NoScan? && h.pc.MovClear? && At(h.slots, h.pc.n - 1) != h.pc.last
    ensures Local(Advance(h, i, hc, seen))
  {
    hide Holds, PackedTo;
    PackedUpdate(h.slots, Top(h), h.pc.n - 1, EMPTY, h.pc.n - 1);
    HoldsUpdate(h.slots, h.pc.n - 1, EMPTY, Expected(h), Expected(Advance(h, i, hc, seen)));
  }

  lemma LocalMovFix(h: Handle, i: int, hc: int, seen: Ptr)
    requires Local(h) && h.scan.NoScan? && h.pc.MovFix?
    ensures Local(Advance(h, i, hc, seen))
  {
    hide Holds;
    HoldsUpdate(h.slots, h.pc.pos, h.pc.temp, Expected(h), Expected(Advance(h, i, hc, seen)));
  }

  lemma LocalAdvance(h: Handle, i: int, hc: int, seen: Ptr)
    requires Local(h) && h.scan.NoScan? && !h.pc.Idle? && !h.pc.Unowned?
    ensures Local(Advance(h, i, hc, seen))
  {
    hide Local, Advance;
    match h.pc
    case RaiseLoad => LocalRaise(h, i, hc, seen);
    case RaiseCas(_) => LocalRaise(h, i, hc, seen);
    case ProtInc(_, _) => LocalProtInc(h, i, hc, seen);
    case ProtStore(_, _, _) => LocalProtStore(h, i, hc, seen);
    case ProtCheck(_, t, _) => if seen == t { LocalCheckOk(h, i, hc, seen); } else { LocalCheckFail(h, i, hc, seen); }
    case ProtSwap(_, _, _, _) => LocalProtSwap(h, i, hc, seen);
    case ProtDec => LocalProtDec(h, i, hc, seen);
    case RawInc(_) => LocalRawInc(h, i, hc, seen);
    case RawStore(_, _) => LocalRawStore(h, i, hc, seen);
    case TopDec(_, _) => LocalTopDec(h, i, hc, seen);
    case TopClear(_, _) => LocalTopClear(h, i, hc, seen);
    case MovLoad(_, _, _) => LocalMovLoad(h, i, hc, seen);
    case MovOver(_, _, _, _) => LocalMovOver(h, i, hc, seen);
    case MovDec(_, _, _, _, _) => LocalMovDec(h, i, hc, seen);
    case MovClear(_, _, n, last, _) =>
      if At(h.slots, n - 1) == last { LocalMovClearClean(h, i, hc, seen); } else { LocalMovClearMarked(h, i, hc, seen); }
    case MovFix(_, _, _, _) => LocalMovFix(h, i, hc, seen);
    case DtorLoop(k) => if k < 0 { LocalDtorEnd(h, i, hc, seen); } else { LocalDtorLoop(h, i, hc, seen); }
    case DtorZero => LocalDtorEnd(h, i, hc, seen);
    case DtorFree => LocalDtorFree(h, i, hc, seen);
  }

  // ---------------------------------------------------------------- the owner's steps, whole state

  ghost predicate Turn(s: State, d: map<Ptr, Loc>, i: int) {
    Inv(s, d) && 0 <= i < |s.hs| && s.hs[i].scan.NoScan? && !s.hs[i].pc.Idle? && !s.hs[i].pc.Unowned?
  }

  function Next(s: State, i: int): Handle {
    Advance(H(s, i), i, s.hc, Seen(s, H(s, i)))
  }

  predicate QuietPc(pc: Pc) {
    || pc.RaiseLoad? || pc.RaiseCas? || pc.ProtInc? || pc.RawInc? || pc.ProtDec? || pc.ProtCheck?
    || pc.TopDec? || pc.MovLoad? || pc.MovDec? || pc.DtorZero? || (pc.DtorLoop? && pc.i < 0)
  }

  /** A scan the owner's step starts begins at a slot of its own handle. */
  ghost predicate StartsOwn(h: Handle, h': Handle, i: int, hc: int) {
    && h'.own == h.own && |h'.slots| == |h.slots|
    && (h'.pc.RaiseCas? ==> h'.pc.b == hc)
    && (h'.scan.Scan? ==> h'.scan.at.AtSlot? && h'.scan.at.i == i && h'.scan.at.k < |h.slots|)
    && (h'.scan.Scan? ==> !h.pc.RaiseLoad? && !h.pc.RaiseCas?)
    && (h.pc.RaiseLoad? || (h.pc.RaiseCas? && h.pc.b < i) ==> h'.pc.RaiseCas?)
  }

  lemma AdvanceScan(h: Handle, i: int, hc: int, seen: Ptr)
    requires Local(h) && h.scan.NoScan? && !h.pc.Idle? && !h.pc.Unowned? && !h.pc.DtorFree?
    ensures StartsOwn(h, Advance(h, i, hc, seen), i, hc)
  {
    hide Holds, Expected;
  }

  lemma HandleOkNext(s: State, i: int, h': Handle)
    requires -1 <= s.hc < |s.hs| && 0 <= i < |s.hs| && HandleOk(s, i) && s.hs[i].own.Live?
    requires StartsOwn(s.hs[i], h', i, s.hc)
    ensures HandleOk(With(s, i, h'), i)
  {
  }

  lemma NextHandleOk(s: State, i: int)
    requires Manager(s) && 0 <= i < |s.hs| && Local(s.hs[i]) && s.hs[i].scan.NoScan?
    requires !s.hs[i].pc.Idle? && !s.hs[i].pc.Unowned? && !s.hs[i].pc.DtorFree?
    requires s.hs[i].pc.RaiseCas? ==> s.hs[i].pc.b >= i || s.hc != s.hs[i].pc.b
    ensures HandleOk(With(s, i, Next(s, i)), i)
    ensures Next(s, i).own == s.hs[i].own && |Next(s, i).slots| == |s.hs[i].slots|
  {
    hide Holds, PackedTo, Expected, PcOk, Advance, StartsOwn;
    var h := s.hs[i];
    assert HandleOk(s, i);
    AdvanceScan(h, i, s.hc, Seen(s, h));
    hide HandleOk, Local;
    HandleOkNext(s, i, Next(s, i));
    OwnKept(h, Next(s, i), i, s.hc);
  }

  lemma OwnKept(h: Handle, h': Handle, i: int, hc: int)
    requires StartsOwn(h, h', i, hc)
    ensures h'.own == h.own && |h'.slots| == |h.slots|
  {
  }

  /** Only a successful re-read and protect_raw make a protection valid. */
  lemma AdvanceValid(h: Handle, i: int, hc: int, seen: Ptr)
    requires !h.pc.Idle? && !h.pc.Unowned?
    ensures var h' := Advance(h, i, hc, seen);
      && !h'.pc.RawInc?
      && (h'.pc.RawStore? ==> h.pc.RawInc? && h'.pc.t == h.pc.t && h'.valid == h.valid)
      && (|| h'.valid == h.valid
          || ((h.pc.RawStore? || (h.pc.ProtCheck? && seen == h.pc.t)) && h'.valid == h.valid + multiset{h.pc.t}))
  {
  }

  /** Whatever becomes validly protected is allocated and not retired at that moment. */
  lemma NextClientOk(s: State, i: int)
    requires Memory(s) && 0 <= i < |s.hs| && Local(s.hs[i])
    requires !s.hs[i].pc.Idle? && !s.hs[i].pc.Unowned?
    ensures ClientOk(With(s, i, Next(s, i)), i)
    ensures forall p :: p in Next(s, i).valid ==> p in s.hs[i].valid || p in s.alive
  {
    var h := s.hs[i];
    assert h.pc.ProtCheck? ==> h.pc.t != NULL;
    hide Local, Advance;
    assert ClientOk(s, i);
    AdvanceValid(h, i, s.hc, Seen(s, h));
    if Next(s, i).valid != h.valid {
      assert h.pc.t in h.valid || h.pc.t in s.alive;
    }
  }

  /** Steps that leave the slots alone, except the last two of get_handle and ~handle_type. */
  lemma StepQuiet(s: State, d: map<Ptr, Loc>, i: int)
    requires Turn(s, d, i) && QuietPc(s.hs[i].pc)
    requires s.hs[i].pc.RaiseCas? ==> s.hs[i].pc.b >= i || s.hc != s.hs[i].pc.b
    ensures Inv(With(s, i, Next(s, i)), d)
  {
    hide Duties, Placements, Local, Manager, HandleOk, ClientOk;
    NextHandleOk(s, i);
    NextClientOk(s, i);
    LocalAdvance(s.hs[i], i, s.hc, Seen(s, s.hs[i]));
    QuietFrame(s, d, i, Next(s, i));
  }

  /** Rewriting slot `pos` keeps every `Covers` unless it drops the lowest copy of a protected pointer. */
  lemma CoversUpdate(h: Handle, h': Handle, pos: int, x: Slot, p: Ptr, k: int)
    requires 0 <= pos < |h.slots| && h'.slots == h.slots[pos := x] && p != NULL
    requires p in h'.valid ==> p in h.valid
    requires h.slots[pos].ptr == p && x.ptr != p ==> Covers(h', p, pos - 1)
    requires Covers(h, p, k)
    ensures Covers(h', p, k)
  {
    if p in h'.valid {
      var j :| 0 <= j < |h.slots| && j <= k && h.slots[j].ptr == p;
      if j != pos || x.ptr == p {
        assert h'.slots[j].ptr == p;
      } else {
        var j' :| 0 <= j' < |h'.slots| && j' <= pos - 1 && h'.slots[j'].ptr == p;
      }
    }
  }

  /** Once the topmost copy of `p` is gone, a pointer still protected sits below it. */
  lemma CoversBelow(h: Handle, p: Ptr, pos: int)
    requires Local(h) && !Destructing(h) && p != NULL && NotFrom(h, pos, p) && 0 <= pos
    ensures Covers(h, p, pos - 1)
  {
    if p in h.valid {
      var k := OccupancyWitness(h.slots, p);
      assert k <= pos - 1;
    }
  }

  predicate Swapping(pc: Pc) {
    pc.MovDec? || pc.MovClear? || pc.MovFix?
  }

  /** A slot is overwritten by an unmarked value and its mark, if any, becomes a scan. */
  lemma ReleaseFrame(s: State, d: map<Ptr, Loc>, i: int, h': Handle, t: Ptr, pos: int, x: Ptr)
    returns (d': map<Ptr, Loc>)
    requires Inv(s, d) && 0 <= i < |s.hs|
    requires s.hs[i].scan.NoScan? && !Swapping(s.hs[i].pc) && !Swapping(h'.pc)
    requires 0 <= pos < |s.hs[i].slots| && s.hs[i].slots[pos].ptr == t && t != NULL
    requires h'.slots == s.hs[i].slots[pos := Slot(x, false)] && h'.own == s.hs[i].own
    requires h'.scan == if s.hs[i].slots[pos].mark then Scan(t, AtSlot(i, pos)) else NoScan
    requires Local(h') && HandleOk(With(s, i, h'), i) && ClientOk(With(s, i, h'), i)
    requires forall p :: p in h'.valid ==> p in s.hs[i].valid
    requires Covers(h', t, pos - 1)
    ensures Inv(With(s, i, h'), d')
  {
    hide Local, HandleOk, ClientOk, Manager;
    var h, s' := s.hs[i], With(s, i, h');
    assert MarkOk(s, d, i, pos);
    d' := if h.slots[pos].mark then d[t := InHand(i)] else d;
    forall p | p in d && d[p].i == i ensures LocOk(s', p, d'[p]) && Placed(s', p, d'[p]) {
      assert LocOk(s, p, d[p]) && Placed(s, p, d[p]);
    }
    forall k | 0 <= k < |h'.slots| ensures MarkOk(s', d', i, k) { assert MarkOk(s, d, i, k); }
    forall p, k | p in d && Covers(h, p, k) ensures Covers(h', p, k) {
      CoversUpdate(h, h', pos, Slot(x, false), p, k);
    }
    OwnerFrame(s, d, i, h', d');
  }

  lemma StepRelease(s: State, d: map<Ptr, Loc>, i: int) returns (d': map<Ptr, Loc>)
    requires Turn(s, d, i) && (s.hs[i].pc.TopClear? || s.hs[i].pc.ProtSwap?)
    ensures Inv(With(s, i, Next(s, i)), d')
  {
    hide Manager, Memory, Duties, Placements, Holds;
    var h, h' := s.hs[i], Next(s, i);
    NextHandleOk(s, i);
    NextClientOk(s, i);
    LocalAdvance(h, i, s.hc, Seen(s, h));
    ReleaseCovers(h, i, s.hc, Seen(s, h));
    hide Local, HandleOk, ClientOk, Manager, Memory, Duties, Placements;
    d' := ReleaseFrame(s, d, i, h', h.pc.t, h.pc.pos, if h.pc.TopClear? then NULL else h.pc.next);
  }

  lemma ReleaseCovers(h: Handle, i: int, hc: int, seen: Ptr)
    requires Local(h) && Local(Advance(h, i, hc, seen)) && (h.pc.TopClear? || h.pc.ProtSwap?)
    ensures h.slots[h.pc.pos].ptr == h.pc.t != NULL
    ensures Covers(Advance(h, i, hc, seen), h.pc.t, h.pc.pos - 1)
  {
    var h' := Advance(h, i, hc, seen);
    if h.pc.t in h'.valid {
      assert Expected(h')[h.pc.t] > 0;
      var k := OccupancyWitness(h'.slots, h.pc.t);
      assert k <= h.pc.pos - 1;
    }
  }

  lemma StepDtorLoop(s: State, d: map<Ptr, Loc>, i: int) returns (d': map<Ptr, Loc>)
    requires Turn(s, d, i) && s.hs[i].pc.DtorLoop? && s.hs[i].pc.i >= 0
    ensures Inv(With(s, i, Next(s, i)), d')
  {
    hide Manager, Memory, Duties, Placements, Holds;
    var h, h' := s.hs[i], Next(s, i);
    NextHandleOk(s, i);
    NextClientOk(s, i);
    LocalAdvance(h, i, s.hc, Seen(s, h));
    assert h.slots[h.pc.i].ptr != NULL && h'.valid == multiset{};
    hide Local, HandleOk, ClientOk, Manager, Memory, Duties, Placements;
    d' := ReleaseFrame(s, d, i, h', h.slots[h.pc.i].ptr, h.pc.i, NULL);
  }

  /** The facts every step owes about its own handle before its duties are looked at. */
  ghost predicate Updates(s: State, d: map<Ptr, Loc>, i: int, h': Handle) {
    && Inv(s, d) && 0 <= i < |s.hs| && s.hs[i].scan.NoScan?
    && Local(h') && h'.own == s.hs[i].own && |h'.slots| == |s.hs[i].slots|
    && HandleOk(With(s, i, h'), i) && ClientOk(With(s, i, h'), i)
    && (forall p :: p in h'.valid ==> p in s.hs[i].valid || p !in s.retired)
  }

  lemma NextUpdates(s: State, d: map<Ptr, Loc>, i: int)
    requires Turn(s, d, i) && !s.hs[i].pc.DtorFree? && !s.hs[i].pc.RaiseCas?
    ensures Updates(s, d, i, Next(s, i))
  {
    hide Local, HandleOk, ClientOk, Manager, Duties, Placements;
    NextHandleOk(s, i);
    NextClientOk(s, i);
    LocalAdvance(s.hs[i], i, s.hc, Seen(s, s.hs[i]));
  }

  /** A duty located at a handle that is not scanning may move anywhere on that handle. */
  lemma OwnPlaced(s: State, d: map<Ptr, Loc>, i: int, h': Handle, p: Ptr, l: Loc)
    requires 0 <= i < |s.hs| && s.hs[i].scan.NoScan? && Placements(s, d)
    requires p in d && d[p].i == i && l.i == i
    requires h'.scan.Scan? && h'.scan.p == p ==>
      h'.scan.at.AtSlot? && h'.scan.at.i == i && Covers(h', p, h'.scan.at.k)
    ensures Placed(With(s, i, h'), p, l)
  {
    assert Placed(s, p, d[p]);
  }

  /** An empty slot is filled. */
  lemma StoreFrame(s: State, d: map<Ptr, Loc>, i: int, h': Handle, pos: int, p0: Ptr)
    requires Updates(s, d, i, h')
    requires !Swapping(s.hs[i].pc) && !Swapping(h'.pc) && h'.scan.NoScan?
    requires 0 <= pos < |h'.slots| && s.hs[i].slots[pos] == EMPTY && h'.slots == s.hs[i].slots[pos := Slot(p0, false)]
    ensures Inv(With(s, i, h'), d)
  {
    hide Local, HandleOk, ClientOk, Manager;
    var h, s' := s.hs[i], With(s, i, h');
    forall p | p in d && d[p].i == i ensures LocOk(s', p, d[p]) && Placed(s', p, d[p]) {
      assert LocOk(s, p, d[p]) && Placed(s, p, d[p]);
    }
    forall k | 0 <= k < |h'.slots| ensures MarkOk(s', d, i, k) { assert MarkOk(s, d, i, k); }
    forall p, k | p in d && Covers(h, p, k) ensures Covers(h', p, k) {
      CoversUpdate(h, h', pos, Slot(p0, false), p, k);
    }
    OwnerFrame(s, d, i, h', d);
  }

  lemma StepStore(s: State, d: map<Ptr, Loc>, i: int)
    requires Turn(s, d, i) && (s.hs[i].pc.ProtStore? || s.hs[i].pc.RawStore?)
    ensures Inv(With(s, i, Next(s, i)), d)
  {
    hide Manager, Memory, Duties, Placements, Holds;
    var h := s.hs[i];
    assert Local(h);
    NextUpdates(s, d, i);
    assert 0 <= h.pc.pos < |h.slots| && h.slots[h.pc.pos] == EMPTY;
    hide Local, Inv, Updates;
    StoreFrame(s, d, i, Next(s, i), h.pc.pos, h.pc.t);
  }

  /** The last slot is copied over the hole: a mark on the hole comes into the owner's hand,
      a mark on the last slot is from now on kept by the copy. */
  lemma MovOverFrame(s: State, d: map<Ptr, Loc>, i: int, h': Handle, t: Ptr, pos: int, n: int, last: Slot)
    returns (d': map<Ptr, Loc>)
    requires Updates(s, d, i, h')
    requires !Swapping(s.hs[i].pc) && h'.scan.NoScan? && 0 <= pos < n - 1 < |h'.slots|
    requires h'.pc == MovDec(t, pos, n, last, s.hs[i].slots[pos].mark) && h'.slots == s.hs[i].slots[pos := last]
    requires s.hs[i].slots[pos].ptr == t != NULL && t != last.ptr
    requires s.hs[i].slots[n - 1].ptr == last.ptr && (last.mark ==> s.hs[i].slots[n - 1].mark)
    requires Covers(h', t, pos - 1)
    ensures Inv(With(s, i, h'), d')
  {
    hide Local, HandleOk, ClientOk, Manager, Placed, Placements, Covers;
    var h, s' := s.hs[i], With(s, i, h');
    var d1 := if h.slots[pos].mark then d[t := InHand(i)] else d;
    d' := if last.mark then d1[last.ptr := InSlot(i, pos)] else d1;
    assert MarkOk(s, d, i, pos) && MarkOk(s, d, i, n - 1);
    forall p | p in d && d[p].i == i ensures LocOk(s', p, d'[p]) && Placed(s', p, d'[p]) {
      assert LocOk(s, p, d[p]);
      OwnPlaced(s, d, i, h', p, d'[p]);
    }
    forall k | 0 <= k < |h'.slots| ensures MarkOk(s', d', i, k) { assert MarkOk(s, d, i, k); }
    forall p, k | p in d && Covers(h, p, k) ensures Covers(h', p, k) {
      CoversUpdate(h, h', pos, last, p, k);
    }
    OwnerFrame(s, d, i, h', d');
  }

  lemma StepMovOver(s: State, d: map<Ptr, Loc>, i: int) returns (d': map<Ptr, Loc>)
    requires Turn(s, d, i) && s.hs[i].pc.MovOver?
    ensures Inv(With(s, i, Next(s, i)), d')
  {
    hide Manager, Memory, Duties, Placements, Holds, PackedTo, Expected, Updates;
    var h := s.hs[i];
    assert Local(h);
    NextUpdates(s, d, i);
    assert Local(Next(s, i)) by { UpdatesLocal(s, d, i, Next(s, i)); }
    CoversBelow(Next(s, i), h.pc.t, h.pc.pos);
    hide Inv, Updates;
    d' := MovOverFrame(s, d, i, Next(s, i), h.pc.t, h.pc.pos, h.pc.n, h.pc.last);
  }

  lemma MovedCovers(h: Handle, pos: int, n: int, p: Ptr)
    requires 0 <= pos < n - 1 && pos < |h.slots| && h.slots[pos].ptr == p
    ensures Covers(h, p, n - 2)
  {
  }

  /** What the exchange on the old last slot leaves. */
  ghost predicate MovCleared(h: Handle, h': Handle, i: int)
    requires h.pc.MovClear?
  {
    var pc := h.pc;
    && 0 <= pc.pos < pc.n - 1 < |h'.slots| && |h.slots| == |h'.slots| && h'.slots == h.slots[pc.n - 1 := EMPTY]
    && pc.t != NULL && pc.t != pc.last.ptr && pc.last.ptr != NULL
    && h.slots[pc.pos].ptr == h.slots[pc.n - 1].ptr == pc.last.ptr
    && (pc.last.mark ==> h.slots[pc.n - 1].mark && h.slots[pc.pos].mark)
    && (if h.slots[pc.n - 1] == pc.last
        then h'.pc.Idle? && h'.scan == if pc.due then Scan(pc.t, AtSlot(i, pc.pos)) else NoScan
        else h'.pc == MovFix(pc.t, pc.pos, pc.due, h.slots[pc.n - 1]) && h'.scan.NoScan?)
  }

  lemma AdvanceMovClear(h: Handle, i: int, hc: int, seen: Ptr)
    requires Local(h) && h.pc.MovClear? && h.scan.NoScan? && Local(Advance(h, i, hc, seen))
    ensures MovCleared(h, Advance(h, i, hc, seen), i) && Covers(Advance(h, i, hc, seen), h.pc.t, h.pc.pos)
  {
    hide Holds, Expected;
    CoversBelow(Advance(h, i, hc, seen), h.pc.t, h.pc.pos);
  }

  /** The old copy of the moved slot is cleared; a mark that arrived there meanwhile is taken along. */
  lemma MovClearFrame(s: State, d: map<Ptr, Loc>, i: int, h': Handle)
    returns (d': map<Ptr, Loc>)
    requires Updates(s, d, i, h') && s.hs[i].pc.MovClear? && MovCleared(s.hs[i], h', i)
    requires Covers(h', s.hs[i].pc.t, s.hs[i].pc.pos)
    ensures Inv(With(s, i, h'), d')
  {
    hide Local, HandleOk, ClientOk, Manager, Placed, Placements, Covers;
    var h, s' := s.hs[i], With(s, i, h');
    var t, pos, n, last := h.pc.t, h.pc.pos, h.pc.n, h.pc.last;
    d' := if h.slots[n - 1] != last then d[last.ptr := InHand(i)] else d;
    assert MarkOk(s, d, i, pos) && MarkOk(s, d, i, n - 1);
    forall p | p in d && d[p].i == i ensures LocOk(s', p, d'[p]) && Placed(s', p, d'[p]) {
      assert LocOk(s, p, d[p]);
      OwnPlaced(s, d, i, h', p, d'[p]);
    }
    forall k | 0 <= k < |h'.slots| ensures MarkOk(s', d', i, k) { assert MarkOk(s, d, i, k); }
    forall p, k | p in d && Covers(h, p, k) ensures Covers(h', p, k) {
      if p == last.ptr { MovedCovers(h', pos, n, p); }
      CoversUpdate(h, h', n - 1, EMPTY, p, k);
    }
    OwnerFrame(s, d, i, h', d');
  }

  lemma UpdatesLocal(s: State, d: map<Ptr, Loc>, i: int, h': Handle)
    requires Updates(s, d, i, h')
    ensures Local(h')
  {
    hide Inv, Local;
  }

  lemma StepMovClear(s: State, d: map<Ptr, Loc>, i: int) returns (d': map<Ptr, Loc>)
    requires Turn(s, d, i) && s.hs[i].pc.MovClear?
    ensures Inv(With(s, i, Next(s, i)), d')
  {
    hide Manager, Memory, Duties, Placements, Local, Updates, Advance, MovCleared, Covers;
    var h := s.hs[i];
    assert Local(h);
    NextUpdates(s, d, i);
    UpdatesLocal(s, d, i, Next(s, i));
    AdvanceMovClear(h, i, s.hc, Seen(s, h));
    hide Inv;
    d' := MovClearFrame(s, d, i, Next(s, i));
  }

  /** The mark taken along is put back on the moved copy. */
  lemma MovFixFrame(s: State, d: map<Ptr, Loc>, i: int, h': Handle)
    returns (d': map<Ptr, Loc>)
    requires Updates(s, d, i, h') && s.hs[i].pc.MovFix?
    requires var pc := s.hs[i].pc;
      && 0 <= pc.pos < |h'.slots| && h'.slots == s.hs[i].slots[pc.pos := pc.temp]
      && pc.t != NULL && pc.t != pc.temp.ptr && pc.temp.ptr != NULL && pc.temp.mark
      && s.hs[i].slots[pc.pos].ptr == pc.temp.ptr
      && h'.pc.Idle? && h'.scan == (if pc.due then Scan(pc.t, AtSlot(i, pc.pos)) else NoScan)
      && Covers(h', pc.t, pc.pos)
    ensures Inv(With(s, i, h'), d')
  {
    hide Local, HandleOk, ClientOk, Manager, Placed, Placements, Covers;
    var h, s' := s.hs[i], With(s, i, h');
    var t, pos, temp := h.pc.t, h.pc.pos, h.pc.temp;
    assert Hand(h, temp.ptr);
    d' := d[temp.ptr := InSlot(i, pos)];
    assert MarkOk(s, d, i, pos);
    forall p | p in d && d[p].i == i ensures LocOk(s', p, d'[p]) && Placed(s', p, d'[p]) {
      assert LocOk(s, p, d[p]);
      OwnPlaced(s, d, i, h', p, d'[p]);
    }
    forall k | 0 <= k < |h'.slots| ensures MarkOk(s', d', i, k) { assert MarkOk(s, d, i, k); }
    forall p, k | p in d && Covers(h, p, k) ensures Covers(h', p, k) {
      CoversUpdate(h, h', pos, temp, p, k);
    }
    OwnerFrame(s, d, i, h', d');
  }

  lemma StepMovFix(s: State, d: map<Ptr, Loc>, i: int) returns (d': map<Ptr, Loc>)
    requires Turn(s, d, i) && s.hs[i].pc.MovFix?
    ensures Inv(With(s, i, Next(s, i)), d')
  {
    hide Manager, Memory, Duties, Placements, Holds;
    var h := s.hs[i];
    assert Local(h);
    NextUpdates(s, d, i);
    CoversBelow(Next(s, i), h.pc.t, h.pc.pos);
    hide Inv, Updates;
    d' := MovFixFrame(s, d, i, Next(s, i));
  }
}
