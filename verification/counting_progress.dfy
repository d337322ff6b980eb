/** What a call of protect comes to: run alone from wherever it has been interrupted, and in any
    interleaving. */
module CountingProgress {
  import opened CountingProtocol
  import opened CountingSafety

  // ---------------------------------------------------------------- one thread alone

  /** `k` steps of thread `t` in a row. */
  function Alone(s: State, t: nat, k: nat): State
    decreases k
  {
    if k == 0 then s else Alone(Apply(s, Run(t)), t, k - 1)
  }

  predicate Allowed(s: State, t: nat, k: nat)
    decreases k
  {
    k == 0 || (Enabled(s, Run(t)) && Allowed(Apply(s, Run(t)), t, k - 1))
  }

  lemma {:induction false} AloneIsRun(s: State, t: nat, k: nat)
    requires Allowed(s, t, k)
    ensures Legal(s, seq(k, _ => Run(t))) && Exec(s, seq(k, _ => Run(t))) == Alone(s, t, k)
    decreases k
  {
    hide Apply, Enabled;
    if k > 0 {
      AloneIsRun(Apply(s, Run(t)), t, k - 1);
      assert seq(k, _ => Run(t))[1..] == seq(k - 1, _ => Run(t));
    }
  }

  /** Inside protect, with what it has read last. */
  datatype Where = Outside | Inside(c: Cell, last: Link)

  function Place(pc: Pc): Where {
    match pc
    case ProtInc(c, v) => Inside(c, v)
    case ProtCheck(c, v) => Inside(c, v)
    case ProtDec(c, _, next) => Inside(c, next)
    case Reset(_, Again(c, next)) => Inside(c, next)
    case Erase(_, Again(c, next)) => Inside(c, next)
    case Push(_, Again(c, next)) => Inside(c, next)
    case _ => Outside
  }

  function One(p: Ptr): multiset<Ptr> {
    if p == NULL then multiset{} else multiset{p}
  }

  /** There is room for one more hold besides that of `t`'s own attempt. */
  ghost predicate Room(s: State, t: nat)
    requires t < |s.ths|
  {
    forall p :: p in s.objs ==> Holds(s.ths, p) + 1 < DEL_FLAG + if Tentative(s.ths[t].pc) == p then 1 else 0
  }

  /** Only thread `t` has moved, and it holds what it held. */
  predicate Moved(s: State, s': State, t: nat, pc: Pc) {
    && t < |s.ths| && s'.ths == s.ths[t := Thread(pc, s.ths[t].valid)]
    && s'.cells == s.cells && s'.objs.Keys == s.objs.Keys
  }

  lemma RoomKept(s: State, s': State, t: nat, pc: Pc)
    requires Moved(s, s', t, pc) && Room(s, t) && NULL !in s.objs
    ensures Room(s', t)
  {
    hide Holds;
    forall p | p in s'.objs
      ensures Holds(s'.ths, p) + 1 < DEL_FLAG + if Tentative(s'.ths[t].pc) == p then 1 else 0
    {
      HoldsUpdate(s.ths, t, s'.ths[t], p);
    }
  }

  /** Steps that are left, at most, when nobody writes the cell. */
  function StepsLeft(s: State, pc: Pc): nat {
    match Place(pc)
    case Outside => 0
    case Inside(c, last) =>
      (if last == Read(s, c) || last.ptr == NULL then 0 else 7) + match pc
        case ProtDec(_, _, _) => 7
        case Reset(_, _) => 6
        case Erase(_, _) => 5
        case Push(_, _) => 4
        case ProtInc(_, _) => 2
        case _ => 1
  }

  lemma NullIsNoObject(s: State)
    requires Inv(s)
    ensures NULL !in s.objs
  {
    assert NULL in s.objs ==> ObjectOk(s, NULL);
  }

  /** What is named on the way are objects. */
  lemma NamesObjects(s: State, t: nat)
    requires Inv(s) && t < |s.ths|
    ensures PcOk(s, t) && NULL !in s.objs
  {
    NullIsNoObject(s);
    assert ThreadOk(s, t);
  }

  /** A step that does not confirm what was read. */
  lemma GoesOn(s: State, t: nat)
    requires t < |s.ths| && PcOk(s, t) && NULL !in s.objs && Place(s.ths[t].pc).Inside?
    requires !(s.ths[t].pc.ProtCheck? && s.ths[t].pc.v == Read(s, s.ths[t].pc.c))
    ensures var pc, s' := s.ths[t].pc, Apply(s, Run(t));
      && Moved(s, s', t, Th(s', t).pc)
      && (if Th(s', t).pc.Idle? then !pc.ProtCheck? && Place(pc).last.ptr == NULL
          else Place(Th(s', t).pc).Inside? && Place(Th(s', t).pc).c == Place(pc).c
               && Place(Th(s', t).pc).last == if pc.ProtCheck? then Read(s, pc.c) else Place(pc).last)
      && StepsLeft(s', Th(s', t).pc) < StepsLeft(s, pc)
  {
  }

  lemma SameWanted(s: State, t: nat)
    requires t < |s.ths| && PcOk(s, t) && NULL !in s.objs && Place(s.ths[t].pc).Inside?
    requires !(s.ths[t].pc.ProtCheck? && s.ths[t].pc.v == Read(s, s.ths[t].pc.c))
    ensures var s' := Apply(s, Run(t)); Wanted(s', Th(s', t).pc) == Wanted(s, s.ths[t].pc)
  {
    GoesOn(s, t);
    if s.ths[t].pc.ProtCheck? { NotNull(s, t); }
    hide Apply, PcOk;
  }

  lemma Confirms(s: State, t: nat)
    requires t < |s.ths| && s.ths[t].pc.ProtCheck? && s.ths[t].pc.v == Read(s, s.ths[t].pc.c)
    ensures Apply(s, Run(t)) == s.(ths := s.ths[t := Thread(Idle, s.ths[t].valid + multiset{s.ths[t].pc.v.ptr})])
  {
  }

  lemma StepAllowed(s: State, t: nat)
    requires Inv(s) && t < |s.ths| && Room(s, t) && Place(s.ths[t].pc).Inside?
    ensures Enabled(s, Run(t))
  {
    NamesObjects(s, t);
    hide Inv;
  }

  /** What the call is going to hold if nobody writes the cell from now on: what the cell shows,
      unless it has read a null and is on its way out. */
  function Wanted(s: State, pc: Pc): Ptr {
    match Place(pc)
    case Outside => NULL
    case Inside(c, last) => if last.ptr == NULL then NULL else Read(s, c).ptr
  }

  /** Thread `t` has returned and holds `w` in addition, if that is not null. */
  predicate Returned(s: State, t: nat, s': State, w: Ptr) {
    && t < |s.ths| && s'.ths == s.ths[t := Thread(Idle, s.ths[t].valid + One(w))] && s'.cells == s.cells
  }

  lemma ReturnedLater(s: State, s1: State, t: nat, pc: Pc, s': State, w: Ptr)
    requires Moved(s, s1, t, pc) && Returned(s1, t, s', w)
    ensures Returned(s, t, s', w)
  {
  }

  lemma {:induction false} ProtectFrom(s: State, t: nat) returns (k: nat)
    requires Inv(s) && t < |s.ths| && Room(s, t) && Place(s.ths[t].pc).Inside?
    ensures k <= StepsLeft(s, s.ths[t].pc) && Allowed(s, t, k)
    ensures Returned(s, t, Alone(s, t, k), Wanted(s, s.ths[t].pc))
    decreases StepsLeft(s, s.ths[t].pc)
  {
    hide Inv, Apply, Enabled, PcOk, Room;
    var pc, s1 := s.ths[t].pc, Apply(s, Run(t));
    StepAllowed(s, t);
    NamesObjects(s, t);
    if pc.ProtCheck? && pc.v == Read(s, pc.c) {
      Confirms(s, t);
      NotNull(s, t);
      k := 1;
      assert Alone(s, t, 1) == Alone(s1, t, 0) == s1 && Allowed(s1, t, 0);
    } else {
      GoesOn(s, t);
      SameWanted(s, t);
      StepKeepsInv(s, Run(t));
      RoomKept(s, s1, t, s1.ths[t].pc);
      k := 0;
      if s1.ths[t].pc.Idle? {
        assert s.ths[t].valid + One(NULL) == s.ths[t].valid;
        assert Alone(s1, t, 0) == s1 && Allowed(s1, t, 0);
      } else {
        k := ProtectFrom(s1, t);
        ReturnedLater(s, s1, t, s1.ths[t].pc, Alone(s1, t, k), Wanted(s1, s1.ths[t].pc));
      }
      k := k + 1;
    }
  }

  /** protect counts up what is not null. */
  lemma NotNull(s: State, t: nat)
    requires t < |s.ths| && PcOk(s, t) && NULL !in s.objs && s.ths[t].pc.ProtCheck?
    ensures s.ths[t].pc.v.ptr != NULL
  {
  }

  /** Main result: from every reachable state in which thread `t` is inside a call of protect, the
      call ends within fourteen steps if `t` runs alone, holding in addition exactly what the cell
      shows, or nothing if that is null or the call has read a null before. */
  lemma ProtectEnds(s: State, t: nat) returns (k: nat)
    requires Reachable(s) && t < |s.ths| && Place(s.ths[t].pc).Inside?
    requires forall p :: Holds(s.ths, p) + 1 < DEL_FLAG
    ensures k <= 14 && Allowed(s, t, k) && Returned(s, t, Alone(s, t, k), Wanted(s, s.ths[t].pc))
  {
    ReachableInv(s);
    hide Inv;
    k := ProtectFrom(s, t);
  }

  // ---------------------------------------------------------------- the ends of the other operations

  lemma PushStep(s: State, t: nat, p: Ptr)
    requires Inv(s) && t < |s.ths| && s.ths[t].pc == Push(p, Done)
    ensures Allowed(s, t, 1) && p in s.objs
    ensures Alone(s, t, 1) ==
      s.(ths := s.ths[t := Thread(Idle, s.ths[t].valid)], freelist := s.freelist + [p],
         objs := s.objs[p := s.objs[p].(phase := Queued, pushes := s.objs[p].pushes + 1)])
  {
    NamesObjects(s, t);
    hide Inv;
    assert Alone(s, t, 1) == Alone(Apply(s, Run(t)), t, 0) && Allowed(Apply(s, Run(t)), t, 0);
  }

  lemma EraseSteps(s: State, t: nat, p: Ptr)
    requires Inv(s) && t < |s.ths| && s.ths[t].pc == Erase(p, Done)
    ensures Allowed(s, t, 2) && p in s.objs && p in Alone(s, t, 2).objs
    ensures var s', o := Alone(s, t, 2), s.objs[p];
      && s'.ths == s.ths[t := Thread(Idle, s.ths[t].valid)] && s'.freelist == s.freelist + [p]
      && s'.objs[p] == o.(phase := Queued, erases := o.erases + 1, pushes := o.pushes + 1)
  {
    NamesObjects(s, t);
    var s1 := Apply(s, Run(t));
    StepKeepsInv(s, Run(t));
    assert s1.ths[t].pc == Push(p, Done);
    PushStep(s1, t, p);
    hide Inv;
    assert Alone(s, t, 2) == Alone(s1, t, 1);
  }

  /** Whoever has taken the counter to the bare flag and then runs alone erases the object and gives
      its memory to the freelist, unless another thread was faster. */
  lemma ResetEnds(s: State, t: nat, p: Ptr) returns (k: nat)
    requires Reachable(s) && t < |s.ths| && s.ths[t].pc == Reset(p, Done)
    ensures k <= 3 && Allowed(s, t, k) && p in s.objs && p in Alone(s, t, k).objs
    ensures var s', o := Alone(s, t, k), s.objs[p];
      && s'.ths == s.ths[t := Thread(Idle, s.ths[t].valid)]
      && if o.ctr == DEL_FLAG
         then s'.freelist == s.freelist + [p] && s'.objs[p] == Object(0, Queued, o.retires, o.erases + 1, o.pushes + 1)
         else s'.freelist == s.freelist && s'.objs == s.objs
  {
    ReachableInv(s);
    NamesObjects(s, t);
    var s1 := Apply(s, Run(t));
    if s.objs[p].ctr == DEL_FLAG {
      k := 3;
      StepKeepsInv(s, Run(t));
      assert s1.ths[t].pc == Erase(p, Done);
      EraseSteps(s1, t, p);
      hide Inv;
      assert Alone(s, t, 3) == Alone(s1, t, 2);
    } else {
      k := 1;
      hide Inv;
      assert Alone(s, t, 1) == Alone(s1, t, 0) && Allowed(s1, t, 0);
    }
  }

  /** create_pointer run alone: the first piece of memory on the freelist, or else the new one, has a
      live object in it that only its thread knows. */
  lemma CreateEnds(s: State, t: nat, q: Ptr) returns (k: nat)
    requires Reachable(s) && Enabled(s, CallCreate(t, q))
    ensures var s1, p := Apply(s, CallCreate(t, q)), if s.freelist == [] then q else s.freelist[0];
      var s' := Alone(s1, t, k);
      && k <= 1 && Allowed(s1, t, k) && s'.ths == s.ths && IsAlive(s', p) && s'.priv == s.priv[p := t]
      && s'.freelist == if s.freelist == [] then [] else s.freelist[1..]
  {
    ReachableInv(s);
    var s1, p := Apply(s, CallCreate(t, q)), if s.freelist == [] then q else s.freelist[0];
    if s.freelist == [] {
      k := 0;
    } else {
      k := 1;
      assert p in s.freelist && p in s.objs;
      hide Inv;
      var s2 := Apply(s1, Run(t));
      assert s2.ths == s.ths;
      assert Alone(s1, t, 1) == Alone(s2, t, 0) && Allowed(s2, t, 0);
    }
  }

  // ---------------------------------------------------------------- any interleaving

  /** What thread `t` has read last from the cell that it wants to protect. */
  function LastRead(s: State, acts: seq<Action>, t: nat, last: Link): Link
    decreases |acts|
  {
    if acts == [] then last
    else LastRead(Apply(s, acts[0]), acts[1..], t, Reads(s, acts[0], t, last))
  }

  function Reads(s: State, a: Action, t: nat, last: Link): Link {
    if a.CallProtect? && a.t == t then Read(s, a.c)
    else if a == Run(t) && Th(s, t).pc.ProtCheck? then Read(s, Th(s, t).pc.c)
    else last
  }

  /** A call of thread `t`. */
  predicate Calls(a: Action, t: nat) {
    (a.CallProtect? || a.CallRaw? || a.CallUnprotect? || a.CallDelete? || a.CallCreate?) && a.t == t
  }

  /** Thread `t` is inside protect of `c` with `last` in its hands, or back from it with that held. */
  predicate Knows(th: Thread, was: multiset<Ptr>, c: Cell, last: Link) {
    if th.pc.Idle? then th.valid == was + One(last.ptr)
    else Place(th.pc) == Inside(c, last) && th.valid == was && (th.pc.ProtInc? || th.pc.ProtCheck? ==> last.ptr != NULL)
  }

  lemma OthersStep(s: State, a: Action, t: nat)
    requires t < |s.ths| && !Calls(a, t) && a != Run(t)
    ensures t < |Apply(s, a).ths| && Apply(s, a).ths[t] == s.ths[t]
  {
  }

  lemma OwnStep(s: State, t: nat, was: multiset<Ptr>, c: Cell, last: Link)
    requires t < |s.ths| && Knows(s.ths[t], was, c, last) && !s.ths[t].pc.Idle?
    ensures t < |Apply(s, Run(t)).ths| && Knows(Apply(s, Run(t)).ths[t], was, c, Reads(s, Run(t), t, last))
  {
    hide FetchAdd, FetchSub;
    assert was + multiset{} == was;
    match s.ths[t].pc
    case ProtCheck(_, _) => CheckStep(s, t, was, c, last);
    case _ =>
  }

  lemma CheckStep(s: State, t: nat, was: multiset<Ptr>, c: Cell, last: Link)
    requires t < |s.ths| && Knows(s.ths[t], was, c, last) && s.ths[t].pc.ProtCheck?
    ensures t < |Apply(s, Run(t)).ths| && Knows(Apply(s, Run(t)).ths[t], was, c, Reads(s, Run(t), t, last))
  {
  }

  lemma KnowsStep(s: State, a: Action, t: nat, was: multiset<Ptr>, c: Cell, last: Link)
    requires t < |s.ths| && Enabled(s, a) && !Calls(a, t) && Knows(s.ths[t], was, c, last)
    ensures t < |Apply(s, a).ths| && Knows(Apply(s, a).ths[t], was, c, Reads(s, a, t, last))
  {
    hide Apply, Knows, Calls, Holds;
    if a == Run(t) {
      OwnStep(s, t, was, c, last);
    } else {
      OthersStep(s, a, t);
      assert Calls(a, t) || Reads(s, a, t, last) == last by { CallCalls(a, t); }
    }
  }

  lemma CallCalls(a: Action, t: nat)
    ensures a.CallProtect? && a.t == t ==> Calls(a, t)
  {
  }

  lemma {:induction false} KnowsRun(s: State, acts: seq<Action>, t: nat, was: multiset<Ptr>, c: Cell, last: Link)
    requires t < |s.ths| && Legal(s, acts) && Knows(s.ths[t], was, c, last)
    requires forall i :: 0 <= i < |acts| ==> !Calls(acts[i], t)
    ensures t < |Exec(s, acts).ths| && Knows(Exec(s, acts).ths[t], was, c, LastRead(s, acts, t, last))
    decreases |acts|
  {
    hide Apply, Enabled, Knows, Reads, Calls;
    if acts != [] {
      KnowsStep(s, acts[0], t, was, c, last);
      KnowsRun(Apply(s, acts[0]), acts[1..], t, was, c, Reads(s, acts[0], t, last));
    }
  }

  /** Main result, in every interleaving: when a call of protect has returned, the thread holds in
      addition exactly what it has read from the cell last. So it returns without a new hold only if
      its last read was null. */
  lemma ProtectHoldsLastRead(s: State, acts: seq<Action>, t: nat, c: Cell)
    requires acts != [] && acts[0] == CallProtect(t, c) && Legal(s, acts)
    requires forall i :: 0 < i < |acts| ==> !Calls(acts[i], t)
    ensures var s', last := Exec(s, acts), LastRead(s, acts, t, Link(NULL, 0));
      Th(s', t).pc.Idle? ==> Th(s', t).valid == Th(s, t).valid + One(last.ptr)
  {
    var s1 := Apply(s, acts[0]);
    assert Knows(s1.ths[t], s.ths[t].valid, c, Read(s, c));
    hide Apply, Enabled, Legal;
    assert Legal(s1, acts[1..]) by { LegalTail(s, acts); }
    KnowsRun(s1, acts[1..], t, s.ths[t].valid, c, Read(s, c));
  }

  lemma LegalTail(s: State, acts: seq<Action>)
    requires Legal(s, acts) && acts != []
    ensures Legal(Apply(s, acts[0]), acts[1..])
  {
  }
}
