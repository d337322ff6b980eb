/** What every run of the counting manager keeps, and the main results. */
module CountingSafety {
  import opened CountingProtocol

  // ---------------------------------------------------------------- sums of holds

  lemma {:induction false} HoldsUpdate(ths: seq<Thread>, t: nat, th: Thread, p: Ptr)
    requires t < |ths|
    ensures Holds(ths[t := th], p) + HoldsOf(ths[t], p) == Holds(ths, p) + HoldsOf(th, p)
  {
    if t == 0 {
      assert ths[0 := th][1..] == ths[1..];
    } else {
      assert ths[t := th][1..] == ths[1..][t - 1 := th];
      HoldsUpdate(ths[1..], t - 1, th, p);
    }
  }

  lemma {:induction false} HoldsCoverEach(ths: seq<Thread>, t: nat, p: Ptr)
    requires t < |ths|
    ensures HoldsOf(ths[t], p) <= Holds(ths, p)
  {
    if t > 0 { HoldsCoverEach(ths[1..], t - 1, p); }
  }

  lemma {:induction false} NoHolds(ths: seq<Thread>, p: Ptr)
    requires forall t :: 0 <= t < |ths| ==> HoldsOf(ths[t], p) == 0
    ensures Holds(ths, p) == 0
  {
    if ths != [] {
      forall t | 0 <= t < |ths[1..]| ensures HoldsOf(ths[1..][t], p) == 0 { assert ths[1..][t] == ths[t + 1]; }
      NoHolds(ths[1..], p);
    }
  }

  // ---------------------------------------------------------------- invariant

  /** The counter word is the number of holds, plus the flag while the object is retired. */
  ghost predicate Counted(s: State, p: Ptr)
    requires p in s.objs
  {
    && Holds(s.ths, p) < DEL_FLAG
    && s.objs[p].ctr == Holds(s.ths, p) + (if s.objs[p].phase.Retired? then DEL_FLAG else 0)
  }

  /** Some thread is still due to call `reset` on `p`. */
  ghost predicate Due(s: State, p: Ptr) {
    exists t :: 0 <= t < |s.ths| && s.ths[t].pc.Reset? && s.ths[t].pc.p == p
  }

  ghost predicate PcOk(s: State, t: nat)
    requires t < |s.ths|
  {
    match s.ths[t].pc
    case Idle => true
    case ProtInc(_, v) => v.ptr in s.objs
    case ProtCheck(_, v) => v.ptr in s.objs
    case ProtDec(_, v, next) => v.ptr in s.objs && (next.ptr == NULL || next.ptr in s.objs)
    case Reset(p, k) => p in s.objs && ContOk(s, k)
    case Erase(p, k) => p in s.objs && s.objs[p].phase == Erasing(t) && ContOk(s, k)
    case Push(p, k) => p in s.objs && s.objs[p].phase == Erased(t) && ContOk(s, k)
    case Emplace(p) => p in s.objs && s.objs[p].phase == Popped(t)
  }

  ghost predicate ContOk(s: State, k: Cont) {
    k.Again? ==> k.next.ptr == NULL || k.next.ptr in s.objs
  }

  ghost predicate ThreadOk(s: State, t: nat)
    requires t < |s.ths|
  {
    && PcOk(s, t)
    && (forall p :: p in s.ths[t].valid ==> p in s.objs && (s.objs[p].phase.Alive? || s.objs[p].phase.Retired?))
  }

  predicate OwnedBy(ph: Phase, t: nat) {
    ph == Erasing(t) || ph == Erased(t) || ph == Popped(t)
  }

  /** A thread that owns an object in a passing phase is at the matching step. */
  ghost predicate Owned(s: State, p: Ptr)
    requires p in s.objs
  {
    match s.objs[p].phase
    case Erasing(t) => t < |s.ths| && s.ths[t].pc.Erase? && s.ths[t].pc.p == p
    case Erased(t) => t < |s.ths| && s.ths[t].pc.Push? && s.ths[t].pc.p == p
    case Popped(t) => t < |s.ths| && s.ths[t].pc.Emplace? && s.ths[t].pc.p == p
    case _ => true
  }

  ghost predicate History(o: Object) {
    && o.retires == o.erases + (if o.phase.Retired? || o.phase.Erasing? then 1 else 0)
    && o.erases == o.pushes + (if o.phase.Erased? then 1 else 0)
  }

  ghost predicate ObjectOk(s: State, p: Ptr)
    requires p in s.objs
  {
    && p != NULL && Counted(s, p) && Owned(s, p) && History(s.objs[p])
    && (s.objs[p].phase.Retired? && Holds(s.ths, p) == 0 ==> Due(s, p))
    && (s.objs[p].phase.Queued? <==> p in s.freelist)
  }

  ghost predicate Distinct(q: seq<Ptr>) {
    forall i, j :: 0 <= i < j < |q| ==> q[i] != q[j]
  }

  ghost predicate CellsOk(s: State) {
    && (forall c :: c in s.cells ==> s.cells[c].ptr == NULL || IsAlive(s, s.cells[c].ptr))
    && (forall p :: p in s.priv ==> IsAlive(s, p))
  }

  ghost predicate Inv(s: State) {
    && (forall t :: 0 <= t < |s.ths| ==> ThreadOk(s, t))
    && (forall p :: p in s.objs ==> ObjectOk(s, p))
    && (forall p :: p in s.freelist ==> p in s.objs) && Distinct(s.freelist)
    && CellsOk(s)
  }

  lemma InitInv(threads: nat)
    ensures Inv(Init(threads))
  {
  }

  // ---------------------------------------------------------------- one thread and one object change

  /** What a step that changes thread `t` and object `p` owes to the rest of the state. */
  ghost predicate Handover(s: State, s': State, t: nat, p: Ptr)
    requires t < |s.ths| && p in s.objs
  {
    && |s'.ths| == |s.ths| && s' == Put(s, t, s'.ths[t], p, Obj(s', p)).(freelist := s'.freelist, priv := s'.priv)
    && ThreadOk(s', t)
    // a passing phase is only left by its owner
    && (Obj(s', p).phase == s.objs[p].phase
        || forall r: nat :: r < |s.ths| && r != t ==> !OwnedBy(s.objs[p].phase, r))
    && (s.ths[t].pc.Erase? || s.ths[t].pc.Push? || s.ths[t].pc.Emplace? ==> s.ths[t].pc.p == p)
    // nobody loses a protection
    && (Obj(s', p).phase == s.objs[p].phase || Obj(s', p).phase.Alive? || Obj(s', p).phase.Retired?
        || forall r: nat :: r < |s.ths| ==> p !in s.ths[r].valid)
    // other objects keep their holds, their due resets and their place in the freelist
    && (forall q :: q in s.objs && q != p ==> HoldsOf(s'.ths[t], q) == HoldsOf(s.ths[t], q))
    && (s.ths[t].pc.Reset? ==> s.ths[t].pc.p == p)
    && (forall q :: q != p ==> (q in s'.freelist <==> q in s.freelist))
  }

  lemma OtherObjects(s: State, s': State, t: nat, p: Ptr, q: Ptr)
    requires t < |s.ths| && p in s.objs && Handover(s, s', t, p)
    requires q in s.objs && q != p && ObjectOk(s, q)
    ensures ObjectOk(s', q)
  {
    HoldsUpdate(s.ths, t, s'.ths[t], q);
    assert Counted(s', q);
    if s.objs[q].phase.Retired? && Holds(s.ths, q) == 0 {
      var r :| 0 <= r < |s.ths| && s.ths[r].pc.Reset? && s.ths[r].pc.p == q;
      assert s'.ths[r].pc.Reset? && s'.ths[r].pc.p == q;
    }
  }

  lemma OtherThreads(s: State, s': State, t: nat, p: Ptr, r: nat)
    requires t < |s.ths| && p in s.objs && Handover(s, s', t, p)
    requires r < |s.ths| && r != t && ThreadOk(s, r)
    ensures ThreadOk(s', r)
  {
    assert Obj(s', p).phase == s.objs[p].phase || !OwnedBy(s.objs[p].phase, r);
  }

  /** Cells and private pointers stay good when no object stops being alive. */
  lemma CellsSame(s: State, s': State, p: Ptr)
    requires CellsOk(s) && s'.cells == s.cells && p in s.objs && s'.priv == s.priv
    requires s'.objs == s.objs[p := Obj(s', p)] && (s.objs[p].phase.Alive? ==> Obj(s', p).phase.Alive?)
    ensures CellsOk(s')
  {
  }

  lemma Frame(s: State, s': State, t: nat, p: Ptr)
    requires Inv(s) && t < |s.ths| && p in s.objs && Handover(s, s', t, p)
    requires ObjectOk(s', p) && CellsOk(s')
    requires Distinct(s'.freelist) && forall q :: q in s'.freelist ==> q in s.objs
    ensures Inv(s')
  {
    forall r | 0 <= r < |s'.ths| ensures ThreadOk(s', r) {
      assert ThreadOk(s, r);
      if r != t { OtherThreads(s, s', t, p, r); }
    }
    forall q | q in s'.objs ensures ObjectOk(s', q) {
      assert q in s.objs && ObjectOk(s, q);
      if q != p { OtherObjects(s, s', t, p, q); }
    }
  }

  /** A step that changes a thread only. */
  lemma ThreadFrame(s: State, t: nat, th: Thread)
    requires Inv(s) && t < |s.ths| && ThreadOk(PutThread(s, t, th), t)
    requires forall q :: q != NULL ==> HoldsOf(th, q) == HoldsOf(s.ths[t], q)
    requires !s.ths[t].pc.Erase? && !s.ths[t].pc.Push? && !s.ths[t].pc.Emplace?
    requires s.ths[t].pc.Reset? ==> Obj(s, s.ths[t].pc.p).ctr != DEL_FLAG
    ensures Inv(PutThread(s, t, th))
  {
    var s' := PutThread(s, t, th);
    forall r | 0 <= r < |s'.ths| ensures ThreadOk(s', r) { assert ThreadOk(s, r); }
    forall q | q in s'.objs ensures ObjectOk(s', q) {
      assert ObjectOk(s, q);
      HoldsUpdate(s.ths, t, th, q);
      if s.objs[q].phase.Retired? && Holds(s.ths, q) == 0 {
        var r :| 0 <= r < |s.ths| && s.ths[r].pc.Reset? && s.ths[r].pc.p == q;
        assert s'.ths[r].pc.Reset? && s'.ths[r].pc.p == q;
      }
    }
  }

  // ---------------------------------------------------------------- the steps

  ghost predicate Ready(s: State, a: Action) {
    Inv(s) && Enabled(s, a)
  }

  lemma Arithmetic(ctr: nat)
    ensures ctr + 1 < WORD ==> FetchAdd(ctr) == ctr + 1
    ensures 0 < ctr < WORD ==> FetchSub(ctr) == ctr - 1
    ensures ctr < DEL_FLAG ==> FetchOr(ctr) == ctr + DEL_FLAG
  {
  }

  /** Counting up on an object whose T is anything: erased, queued or reborn included. */
  lemma IncObject(s: State, s': State, t: nat, p: Ptr)
    requires t < |s.ths| && p in s.objs && ObjectOk(s, p) && Holds(s.ths, p) + 1 < DEL_FLAG
    requires |s'.ths| == |s.ths| && s'.ths == s.ths[t := s'.ths[t]] && s'.freelist == s.freelist
    requires s'.objs == s.objs[p := s.objs[p].(ctr := FetchAdd(s.objs[p].ctr))]
    requires HoldsOf(s'.ths[t], p) == HoldsOf(s.ths[t], p) + 1
    requires s.ths[t].pc.ProtInc? || s.ths[t].pc.Idle?
    ensures ObjectOk(s', p)
  {
    Arithmetic(s.objs[p].ctr);
    hide FetchAdd;
    HoldsUpdate(s.ths, t, s'.ths[t], p);
    hide Holds, HoldsOf;
  }

  /** Counting down: whoever takes a flagged counter to zero is due to reset. */
  lemma DecObject(s: State, s': State, t: nat, p: Ptr)
    requires t < |s.ths| && p in s.objs && ObjectOk(s, p)
    requires |s'.ths| == |s.ths| && s'.ths == s.ths[t := s'.ths[t]] && s'.freelist == s.freelist
    requires s'.objs == s.objs[p := s.objs[p].(ctr := FetchSub(s.objs[p].ctr))]
    requires HoldsOf(s'.ths[t], p) + 1 == HoldsOf(s.ths[t], p)
    requires s.ths[t].pc.ProtDec? || s.ths[t].pc.Idle?
    requires s.objs[p].ctr == DEL_FLAG + 1 ==> s'.ths[t].pc.Reset? && s'.ths[t].pc.p == p
    ensures ObjectOk(s', p)
  {
    HoldsCoverEach(s.ths, t, p);
    Arithmetic(s.objs[p].ctr);
    hide FetchSub;
    HoldsUpdate(s.ths, t, s'.ths[t], p);
    hide Holds, HoldsOf;
    assert Counted(s', p) && Owned(s', p);
    assert s.objs[p].phase.Retired? && Holds(s'.ths, p) == 0 ==> Due(s', p);
  }

  /** A change of count on a hold of `p`, thread and phases otherwise as before. */
  lemma CountFrame(s: State, s': State, t: nat, p: Ptr)
    requires Inv(s) && t < |s.ths| && p in s.objs && |s'.ths| == |s.ths|
    requires s' == Put(s, t, s'.ths[t], p, Obj(s', p)) && Obj(s', p).phase == s.objs[p].phase
    requires s.ths[t].pc.Idle? || s.ths[t].pc.ProtInc? || s.ths[t].pc.ProtDec?
    requires forall q :: q in s.objs && q != p ==> HoldsOf(s'.ths[t], q) == HoldsOf(s.ths[t], q)
    requires ThreadOk(s', t) && ObjectOk(s', p)
    ensures Inv(s')
  {
    CellsSame(s, s', p);
    hide PcOk, ObjectOk, CellsOk, HoldsOf;
    Frame(s, s', t, p);
  }

  lemma StepInc(s: State, t: nat)
    requires Ready(s, Run(t)) && s.ths[t].pc.ProtInc?
    ensures Inv(Apply(s, Run(t)))
  {
    var s', p := Apply(s, Run(t)), s.ths[t].pc.v.ptr;
    assert ThreadOk(s, t) && ThreadOk(s', t);
    assert p != NULL by { assert ObjectOk(s, p); }
    hide ObjectOk, CellsOk, ThreadOk, Holds;
    IncObject(s, s', t, p);
    CountFrame(s, s', t, p);
  }

  lemma StepDec(s: State, t: nat)
    requires Ready(s, Run(t)) && s.ths[t].pc.ProtDec?
    ensures Inv(Apply(s, Run(t)))
  {
    var s', p := Apply(s, Run(t)), s.ths[t].pc.v.ptr;
    assert ThreadOk(s, t) && ThreadOk(s', t);
    assert p != NULL by { assert ObjectOk(s, p); }
    hide ObjectOk, CellsOk, ThreadOk, Holds;
    DecObject(s, s', t, p);
    CountFrame(s, s', t, p);
  }

  lemma StepCheck(s: State, t: nat)
    requires Ready(s, Run(t)) && s.ths[t].pc.ProtCheck?
    ensures Inv(Apply(s, Run(t)))
  {
    assert ThreadOk(s, t);
    ThreadFrame(s, t, Apply(s, Run(t)).ths[t]);
  }

  lemma StepResetFails(s: State, t: nat)
    requires Ready(s, Run(t)) && s.ths[t].pc.Reset? && Obj(s, s.ths[t].pc.p).ctr != DEL_FLAG
    ensures Inv(Apply(s, Run(t)))
  {
    assert ThreadOk(s, t);
    ThreadFrame(s, t, Apply(s, Run(t)).ths[t]);
  }

  lemma NobodyProtects(s: State, p: Ptr)
    requires Inv(s) && p in s.objs && !s.objs[p].phase.Alive?
    requires s.objs[p].phase.Retired? ==> s.objs[p].ctr == DEL_FLAG
    ensures forall r: nat :: r < |s.ths| ==> p !in s.ths[r].valid
  {
    forall r: nat | r < |s.ths| ensures p !in s.ths[r].valid {
      assert ThreadOk(s, r) && ObjectOk(s, p);
      HoldsCoverEach(s.ths, r, p);
    }
  }

  lemma FlagMeansRetired(s: State, p: Ptr)
    requires Inv(s) && p in s.objs && s.objs[p].ctr == DEL_FLAG
    ensures s.objs[p].phase.Retired?
  {
    assert ObjectOk(s, p);
  }

  /** Thread `t` moves the object `p` through a phase it owns, or takes it over. */
  ghost predicate PhaseStep(s: State, s': State, t: nat, p: Ptr)
    requires t < |s.ths| && p in s.objs
  {
    && |s'.ths| == |s.ths| && s' == Put(s, t, s'.ths[t], p, Obj(s', p)).(freelist := s'.freelist)
    && !s.objs[p].phase.Alive? && (OwnedBy(s.objs[p].phase, t) || s.objs[p].phase.Retired?)
    && !s.ths[t].pc.Idle? && !s.ths[t].pc.ProtInc? && !s.ths[t].pc.ProtCheck? && !s.ths[t].pc.ProtDec?
    && s.ths[t].pc.p == p && (forall q :: HoldsOf(s'.ths[t], q) == HoldsOf(s.ths[t], q))
    && (forall q :: q != p ==> (q in s'.freelist <==> q in s.freelist))
    && Distinct(s'.freelist) && (forall q :: q in s'.freelist ==> q in s.objs)
    && ThreadOk(s', t) && History(Obj(s', p)) && !Obj(s', p).phase.Retired? && Owned(s', p)
    && Obj(s', p).ctr == s.objs[p].ctr - (if s.objs[p].phase.Retired? then DEL_FLAG else 0)
    && (Obj(s', p).phase.Queued? <==> p in s'.freelist)
  }

  lemma PhaseObject(s: State, s': State, t: nat, p: Ptr)
    requires t < |s.ths| && p in s.objs && ObjectOk(s, p) && PhaseStep(s, s', t, p)
    ensures ObjectOk(s', p)
  {
    HoldsUpdate(s.ths, t, s'.ths[t], p);
    hide ThreadOk, Distinct, HoldsOf, Holds;
  }

  lemma PhaseFrame(s: State, s': State, t: nat, p: Ptr)
    requires Inv(s) && t < |s.ths| && p in s.objs && PhaseStep(s, s', t, p) && ObjectOk(s', p)
    requires forall r: nat :: r < |s.ths| ==> p !in s.ths[r].valid
    ensures Inv(s')
  {
    hide ThreadOk, ObjectOk, HoldsOf, Distinct, History;
    CellsSame(s, s', p);
    assert forall r: nat :: r < |s.ths| && r != t ==> !OwnedBy(s.objs[p].phase, r);
    hide CellsOk;
    Frame(s, s', t, p);
  }

  lemma PhaseKeepsInv(s: State, s': State, t: nat, p: Ptr)
    requires Inv(s) && t < |s.ths| && p in s.objs && PhaseStep(s, s', t, p)
    requires s.objs[p].phase.Retired? ==> s.objs[p].ctr == DEL_FLAG
    ensures Inv(s')
  {
    hide ThreadOk, ObjectOk, HoldsOf, CellsOk, History, Owned, Distinct;
    NobodyProtects(s, p);
    assert ObjectOk(s, p);
    PhaseObject(s, s', t, p);
    PhaseFrame(s, s', t, p);
  }

  /** The one thread whose `reset` succeeds finds no hold at all, so nobody protects the object. */
  lemma StepReset(s: State, t: nat)
    requires Ready(s, Run(t)) && s.ths[t].pc.Reset? && Obj(s, s.ths[t].pc.p).ctr == DEL_FLAG
    ensures Inv(Apply(s, Run(t)))
  {
    hide CellsOk, HoldsOf, Holds;
    var s', p := Apply(s, Run(t)), s.ths[t].pc.p;
    assert ThreadOk(s, t) && ObjectOk(s, p);
    FlagMeansRetired(s, p);
    NobodyProtects(s, p);
    SameHolds(s.ths[t], s'.ths[t]);
    PhaseKeepsInv(s, s', t, p);
  }

  lemma SameHolds(th: Thread, th': Thread)
    requires th'.valid == th.valid && Tentative(th'.pc) == Tentative(th.pc)
    ensures forall q :: HoldsOf(th', q) == HoldsOf(th, q)
  {
  }

  lemma StepErase(s: State, t: nat)
    requires Ready(s, Run(t)) && s.ths[t].pc.Erase?
    ensures Inv(Apply(s, Run(t)))
  {
    hide CellsOk, HoldsOf, Holds;
    var s', p := Apply(s, Run(t)), s.ths[t].pc.p;
    assert ThreadOk(s, t) && ObjectOk(s, p);
    SameHolds(s.ths[t], s'.ths[t]);
    PhaseKeepsInv(s, s', t, p);
  }

  lemma StepPush(s: State, t: nat)
    requires Ready(s, Run(t)) && s.ths[t].pc.Push?
    ensures Inv(Apply(s, Run(t)))
  {
    hide CellsOk, HoldsOf, Holds;
    var s', p := Apply(s, Run(t)), s.ths[t].pc.p;
    assert ThreadOk(s, t) && ObjectOk(s, p);
    SameHolds(s.ths[t], s'.ths[t]);
    assert p !in s.freelist;
    PhaseKeepsInv(s, s', t, p);
  }

  lemma StepEmplace(s: State, t: nat)
    requires Ready(s, Run(t)) && s.ths[t].pc.Emplace?
    ensures Inv(Apply(s, Run(t)))
  {
    hide CellsOk, HoldsOf, Holds;
    var s', p := Apply(s, Run(t)), s.ths[t].pc.p;
    assert ThreadOk(s, t) && ObjectOk(s, p);
    SameHolds(s.ths[t], s'.ths[t]);
    EmplaceObject(s, s', t, p);
    EmplaceCells(s, s', p);
    assert ThreadOk(s', t);
    assert forall r: nat :: r < |s.ths| && r != t ==> !OwnedBy(s.objs[p].phase, r);
    hide ObjectOk, ThreadOk;
    Frame(s, s', t, p);
  }

  lemma EmplaceObject(s: State, s': State, t: nat, p: Ptr)
    requires t < |s.ths| && p in s.objs && ObjectOk(s, p) && s.objs[p].phase == Popped(t)
    requires |s'.ths| == |s.ths| && s'.ths == s.ths[t := s'.ths[t]] && s'.freelist == s.freelist
    requires s'.objs == s.objs[p := s.objs[p].(phase := Alive)] && HoldsOf(s'.ths[t], p) == HoldsOf(s.ths[t], p)
    ensures ObjectOk(s', p)
  {
    HoldsUpdate(s.ths, t, s'.ths[t], p);
    hide Holds, HoldsOf;
  }

  lemma EmplaceCells(s: State, s': State, p: Ptr)
    requires CellsOk(s) && p in s.objs && s'.cells == s.cells && s'.objs == s.objs[p := Obj(s', p)]
    requires Obj(s', p).phase.Alive? && forall q :: q in s'.priv ==> q == p || q in s.priv
    ensures CellsOk(s')
  {
  }

  lemma StepRaw(s: State, t: nat, p: Ptr)
    requires Ready(s, CallRaw(t, p))
    ensures Inv(Apply(s, CallRaw(t, p)))
  {
    var s' := Apply(s, CallRaw(t, p));
    assert ThreadOk(s, t) && ThreadOk(s', t);
    hide ObjectOk, CellsOk, ThreadOk, Holds;
    IncObject(s, s', t, p);
    CountFrame(s, s', t, p);
  }

  lemma StepUnprotect(s: State, t: nat, p: Ptr)
    requires Ready(s, CallUnprotect(t, p))
    ensures Inv(Apply(s, CallUnprotect(t, p)))
  {
    hide Holds, CellsOk;
    var s' := Apply(s, CallUnprotect(t, p));
    assert ThreadOk(s, t) && ThreadOk(s', t);
    assert p != NULL by { assert ObjectOk(s, p); }
    hide ObjectOk, CellsOk, ThreadOk, Holds;
    DecObject(s, s', t, p);
    hide FetchSub;
    CountFrame(s, s', t, p);
  }

  lemma StepProtect(s: State, t: nat, c: Cell)
    requires Ready(s, CallProtect(t, c))
    ensures Inv(Apply(s, CallProtect(t, c)))
  {
    assert ThreadOk(s, t);
    if Read(s, c).ptr != NULL { ThreadFrame(s, t, Apply(s, CallProtect(t, c)).ths[t]); }
  }

  lemma RetireObject(s: State, s': State, t: nat, p: Ptr)
    requires Inv(s) && Enabled(s, CallDelete(t, p)) && s' == Apply(s, CallDelete(t, p))
    ensures ObjectOk(s', p)
  {
    assert ObjectOk(s, p);
    Arithmetic(s.objs[p].ctr);
    hide FetchOr;
    HoldsUpdate(s.ths, t, s'.ths[t], p);
    if Holds(s'.ths, p) == 0 { assert s'.ths[t].pc.Reset? && s'.ths[t].pc.p == p; }
  }

  lemma StepDelete(s: State, t: nat, p: Ptr)
    requires Ready(s, CallDelete(t, p))
    ensures Inv(Apply(s, CallDelete(t, p)))
  {
    var s' := Apply(s, CallDelete(t, p));
    RetireObject(s, s', t, p);
    assert ThreadOk(s, t) && ThreadOk(s', t);
    assert CellsOk(s');
    hide ThreadOk, CellsOk, ObjectOk;
    Frame(s, s', t, p);
  }

  lemma StepFresh(s: State, t: nat, q: Ptr)
    requires Ready(s, CallCreate(t, q)) && s.freelist == []
    ensures Inv(Apply(s, CallCreate(t, q)))
  {
    var s' := Apply(s, CallCreate(t, q));
    forall r | 0 <= r < |s'.ths| ensures ThreadOk(s', r) { assert ThreadOk(s, r); }
    forall r | 0 <= r < |s.ths| ensures HoldsOf(s.ths[r], q) == 0 { assert ThreadOk(s, r); }
    NoHolds(s.ths, q);
    forall p | p in s'.objs ensures ObjectOk(s', p) { if p != q { assert ObjectOk(s, p); } }
  }

  lemma RecycleObject(s: State, s': State, t: nat, p: Ptr)
    requires Inv(s) && Resting(s, t) && s.freelist != [] && p == s.freelist[0] && p in s.objs
    requires s' == Put(s, t, s.ths[t].(pc := Emplace(p)), p, s.objs[p].(phase := Popped(t))).(freelist := s.freelist[1..])
    ensures ObjectOk(s', p)
  {
    assert ObjectOk(s, p);
    HoldsUpdate(s.ths, t, s'.ths[t], p);
  }

  lemma StepRecycle(s: State, t: nat, q: Ptr)
    requires Ready(s, CallCreate(t, q)) && s.freelist != []
    ensures Inv(Apply(s, CallCreate(t, q)))
  {
    hide HoldsOf, Holds;
    var s', p := Apply(s, CallCreate(t, q)), s.freelist[0];
    assert p in s.freelist && p in s.objs && ObjectOk(s, p);
    RecycleObject(s, s', t, p);
    NobodyProtects(s, p);
    SameHolds(s.ths[t], s'.ths[t]);
    assert ThreadOk(s, t) && ThreadOk(s', t);
    CellsSame(s, s', p);
    assert s.freelist == [p] + s'.freelist;
    hide ThreadOk, CellsOk, ObjectOk;
    Frame(s, s', t, p);
  }

  lemma StepMemory(s: State, a: Action)
    requires Ready(s, a) && (a.Publish? || a.Write?)
    ensures Inv(Apply(s, a))
  {
    var s' := Apply(s, a);
    forall r | 0 <= r < |s'.ths| ensures ThreadOk(s', r) { assert ThreadOk(s, r); }
    forall p | p in s'.objs ensures ObjectOk(s', p) { assert ObjectOk(s, p); }
  }

  lemma StepRun(s: State, t: nat)
    requires Ready(s, Run(t))
    ensures Inv(Apply(s, Run(t)))
  {
    hide Inv, Apply;
    match s.ths[t].pc
    case ProtInc(_, _) => StepInc(s, t);
    case ProtCheck(_, _) => StepCheck(s, t);
    case ProtDec(_, _, _) => StepDec(s, t);
    case Reset(p, _) => if Obj(s, p).ctr == DEL_FLAG { StepReset(s, t); } else { StepResetFails(s, t); }
    case Erase(_, _) => StepErase(s, t);
    case Push(_, _) => StepPush(s, t);
    case Emplace(_) => StepEmplace(s, t);
  }

  /** Every enabled step keeps the invariant. */
  lemma StepKeepsInv(s: State, a: Action)
    requires Inv(s) && Enabled(s, a)
    ensures Inv(Apply(s, a))
  {
    hide Inv, Apply;
    match a
    case CallProtect(t, c) => StepProtect(s, t, c);
    case CallRaw(t, p) => StepRaw(s, t, p);
    case CallUnprotect(t, p) => StepUnprotect(s, t, p);
    case CallDelete(t, p) => StepDelete(s, t, p);
    case CallCreate(t, q) => if s.freelist == [] { StepFresh(s, t, q); } else { StepRecycle(s, t, q); }
    case Run(t) => StepRun(s, t);
    case Publish(_, _, _) => StepMemory(s, a);
    case Write(_, _) => StepMemory(s, a);
  }

  lemma {:induction false} RunInv(s: State, acts: seq<Action>)
    requires Inv(s) && Legal(s, acts)
    ensures Inv(Exec(s, acts))
    decreases |acts|
  {
    hide Inv, Apply, Enabled;
    if acts != [] {
      StepKeepsInv(s, acts[0]);
      RunInv(Apply(s, acts[0]), acts[1..]);
    }
  }

  lemma ReachableInv(s: State)
    requires Reachable(s)
    ensures Inv(s)
  {
    hide Inv, Legal, Exec, Init;
    var n: nat, acts :| Legal(Init(n), acts) && s == Exec(Init(n), acts);
    InitInv(n);
    RunInv(Init(n), acts);
  }

  // ---------------------------------------------------------------- main results

  /** The destructor of a T never runs while any thread holds a validated protection of it. */
  lemma ErasedIsUnprotected(s: State, a: Action, p: Ptr)
    requires Reachable(s) && Enabled(s, a) && Erases(s, a, p)
    ensures forall r: nat :: r < |s.ths| ==> p !in s.ths[r].valid
    ensures forall c :: c in s.cells ==> s.cells[c].ptr != p
  {
    ReachableInv(s);
    assert ThreadOk(s, a.t);
    NobodyProtects(s, p);
  }

  /** A validly protected pointer has a T that was constructed and not yet erased. */
  lemma ProtectedIsConstructed(s: State, t: nat, p: Ptr)
    requires Reachable(s) && t < |s.ths| && p in s.ths[t].valid
    ensures p in s.objs && (s.objs[p].phase.Alive? || s.objs[p].phase.Retired?)
  {
    ReachableInv(s);
    assert ThreadOk(s, t);
  }

  /** The low 31 bits of the counter are the holds on the memory, stale ones included, and the
      flag is set exactly between safe_delete and the successful reset. */
  lemma CounterIsHolds(s: State, p: Ptr)
    requires Reachable(s) && p in s.objs
    ensures s.objs[p].ctr % DEL_FLAG == Holds(s.ths, p)
    ensures s.objs[p].ctr / DEL_FLAG == if s.objs[p].phase.Retired? then 1 else 0
  {
    ReachableInv(s);
    assert ObjectOk(s, p);
  }

  /** Whenever the counter is exactly the delete flag, some thread is still due to reset it. */
  lemma SomebodyIsDue(s: State, p: Ptr)
    requires Reachable(s) && p in s.objs && s.objs[p].ctr == DEL_FLAG
    ensures exists t :: 0 <= t < |s.ths| && s.ths[t].pc.Reset? && s.ths[t].pc.p == p
  {
    ReachableInv(s);
    assert ObjectOk(s, p);
  }

  /** Each safe_delete is answered by exactly one erase and one push on the freelist, apart from
      the one that is still under way. */
  lemma RetiredOnceErasedOnce(s: State, p: Ptr)
    requires Reachable(s) && p in s.objs
    ensures s.objs[p].retires == s.objs[p].erases + (if s.objs[p].phase.Retired? || s.objs[p].phase.Erasing? then 1 else 0)
    ensures s.objs[p].erases == s.objs[p].pushes + (if s.objs[p].phase.Erased? then 1 else 0)
  {
    ReachableInv(s);
    assert ObjectOk(s, p);
  }

  /** Once all threads rest and hold nothing, nothing retired is left unerased or unqueued. */
  lemma NothingLeft(s: State, p: Ptr)
    requires Reachable(s) && p in s.objs
    requires forall t :: 0 <= t < |s.ths| ==> s.ths[t].pc.Idle? && s.ths[t].valid == multiset{}
    ensures s.objs[p].retires == s.objs[p].erases == s.objs[p].pushes
    ensures s.objs[p].phase.Alive? || s.objs[p].phase.Queued?
  {
    ReachableInv(s);
    assert ObjectOk(s, p);
    NoHolds(s.ths, p);
  }

  /** The freelist holds no memory twice, and only memory whose T was erased. */
  lemma FreelistIsClean(s: State)
    requires Reachable(s)
    ensures Distinct(s.freelist)
    ensures forall p :: p in s.freelist <==> p in s.objs && s.objs[p].phase.Queued?
  {
    ReachableInv(s);
    forall p | p in s.objs ensures p in s.freelist <==> s.objs[p].phase.Queued? { assert ObjectOk(s, p); }
  }
}
