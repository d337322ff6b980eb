/** Main results about every run of the flip-flop buffer: it is a FIFO queue. */
module MpscSafety {
  import opened Arithmetic
  import opened MpscProtocol

  // ---------------------------------------------------------------- invariant

  /** Where the half that push_back fills now begins. */
  function Start(s: State): nat {
    if Second(s.pos) then s.cap else 0
  }

  /** How many places of that half are taken. */
  function Claimed(s: State): int {
    Min(Clean(s.pos), Limit(s)) - Start(s)
  }

  /** What the consumer has not yet read of the other half. */
  function Unread(s: State): int {
    s.readEnd - s.readPos
  }

  ghost predicate Shape(s: State) {
    && |s.buffer| == 2 * s.cap && 2 * s.cap < FLAG && s.pos < WORD
    && Start(s) <= Clean(s.pos) && s.readPos <= s.readEnd
    && (s.readPos < s.readEnd ==> if Second(s.pos) then s.readEnd <= s.cap else s.cap <= s.readPos && s.readEnd <= 2 * s.cap)
    && |s.pushed| == |s.popped| + Unread(s) + Claimed(s)
  }

  ghost predicate Due(s: State, n: nat) {
    |s.popped| <= n < |s.pushed|
  }

  /** The place of the n-th successful push, which is not popped yet. */
  ghost function Place(s: State, n: nat): (i: nat)
    requires Shape(s) && Due(s, n)
    ensures i < 2 * s.cap
  {
    if n < |s.popped| + Unread(s) then s.readPos + n - |s.popped| else Start(s) + n - |s.popped| - Unread(s)
  }

  /** The n-th value is in its place, or its producer has yet to store it there. */
  ghost predicate Placed(s: State, n: nat)
    requires Shape(s) && Due(s, n)
  {
    && s.pushed[n] != DUMMY
    && (n in s.storing ==> s.storing[n] == Place(s, n))
    && s.buffer[Place(s, n)] == if n in s.storing then DUMMY else s.pushed[n]
  }

  predicate Free(s: State, i: nat) {
    !(s.readPos <= i < s.readEnd) && !(Start(s) <= i < Start(s) + Claimed(s))
  }

  ghost predicate Turn(s: State) {
    match s.pc
    case Idle => true
    case LoadFlag => s.readPos == s.readEnd
    case Swap(first) => s.readPos == s.readEnd && first == !Second(s.pos)
    case Load => s.readPos < s.readEnd
    case Clear(read) =>
      s.readPos < s.readEnd && |s.popped| < |s.pushed| && |s.popped| !in s.storing && read == s.pushed[|s.popped|]
  }

  ghost predicate Inv(s: State) {
    && Shape(s) && Turn(s)
    && s.popped <= s.pushed
    && (forall n :: n in s.storing ==> Due(s, n))
    && (forall n: nat :: Due(s, n) ==> Placed(s, n))
    && (forall i: nat :: i < 2 * s.cap && Free(s, i) ==> s.buffer[i] == DUMMY)
  }

  lemma InitInv(cap: nat)
    requires 2 * cap < FLAG
    ensures Inv(Init(cap))
  {
  }

  // ---------------------------------------------------------------- steps

  lemma PlacesApart(s: State, n: nat, m: nat)
    requires Shape(s) && Due(s, n) && Due(s, m) && n != m
    ensures Place(s, n) != Place(s, m)
  {
  }

  lemma PlaceTaken(s: State, n: nat)
    requires Shape(s) && Due(s, n)
    ensures !Free(s, Place(s, n))
  {
  }

  lemma ClaimWord(s: State)
    requires Shape(s) && s.pos % FLAG < FLAG - 1
    ensures (s.pos + 1) % WORD == s.pos + 1 && Second(s.pos + 1) == Second(s.pos) && Clean(s.pos + 1) == Clean(s.pos) + 1
  {
  }

  lemma ClaimShape(s: State, v: Value)
    requires Shape(s) && Enabled(s, Claim(v))
    ensures var s' := Apply(s, Claim(v));
      && Shape(s') && Start(s') == Start(s) && Second(s'.pos) == Second(s.pos)
      && Claimed(s') == Claimed(s) + (if Fits(s) then 1 else 0) && (Fits(s) ==> Clean(s.pos) == Start(s) + Claimed(s))
  {
    ClaimWord(s);
  }

  lemma ClaimPlaced(s: State, v: Value, n: nat)
    requires Inv(s) && Enabled(s, Claim(v)) && Shape(Apply(s, Claim(v))) && Due(Apply(s, Claim(v)), n)
    ensures Placed(Apply(s, Claim(v)), n)
  {
    ClaimShape(s, v);
    hide Start, Claimed, Second, Clean;
    var s' := Apply(s, Claim(v));
    if n < |s.pushed| {
      assert Placed(s, n) && Place(s', n) == Place(s, n);
    } else {
      assert Free(s, Place(s', n));
    }
  }

  lemma ClaimKeeps(s: State, v: Value)
    requires Inv(s) && Enabled(s, Claim(v)) && Shape(Apply(s, Claim(v)))
    ensures var s' := Apply(s, Claim(v));
      && Turn(s') && s'.popped <= s'.pushed && (forall n :: n in s'.storing ==> Due(s', n))
      && (forall i: nat :: i < 2 * s'.cap && Free(s', i) ==> s'.buffer[i] == DUMMY)
  {
    var s' := Apply(s, Claim(v));
    ClaimShape(s, v);
    hide Start, Claimed, Second, Clean, Placed;
    forall i: nat | i < 2 * s.cap && Free(s', i) ensures s'.buffer[i] == DUMMY { assert Free(s, i); }
  }

  lemma StepClaim(s: State, v: Value)
    requires Inv(s) && Enabled(s, Claim(v))
    ensures Inv(Apply(s, Claim(v)))
  {
    var s' := Apply(s, Claim(v));
    ClaimShape(s, v);
    ClaimKeeps(s, v);
    hide Apply, Placed, Shape, Turn, Free;
    forall n: nat | Due(s', n) ensures Placed(s', n) { ClaimPlaced(s, v, n); }
  }

  lemma StepStore(s: State, n: nat)
    requires Inv(s) && Enabled(s, Store(n))
    ensures Inv(Apply(s, Store(n)))
  {
    var s' := Apply(s, Store(n));
    assert Due(s, n) && Placed(s, n);
    PlaceTaken(s, n);
    forall m: nat | Due(s', m) ensures Placed(s', m) {
      assert Placed(s, m) && Place(s', m) == Place(s, m);
      if m != n { PlacesApart(s, n, m); }
    }
    forall i: nat | i < 2 * s.cap && Free(s', i) ensures s'.buffer[i] == DUMMY { assert Free(s, i); }
  }

  lemma StepSwap(s: State)
    requires Inv(s) && s.pc.Swap?
    ensures Inv(ConsumeStep(s))
    ensures ConsumeStep(s).pc.Idle? ==> s.popped == s.pushed
  {
    var s' := ConsumeStep(s);
    assert s'.readPos == Start(s) && s'.readEnd == Start(s) + Claimed(s);
    assert Claimed(s') == 0;
    forall n: nat | Due(s', n) ensures Placed(s', n) { assert Due(s, n) && Placed(s, n) && Place(s', n) == Place(s, n); }
    forall i: nat | i < 2 * s.cap && Free(s', i) ensures s'.buffer[i] == DUMMY { assert Free(s, i); }
  }

  lemma StepLoad(s: State)
    requires Inv(s) && s.pc.Load?
    ensures Inv(ConsumeStep(s))
  {
    var n := |s.popped|;
    assert Due(s, n) && Placed(s, n) && Place(s, n) == s.readPos;
    var s' := ConsumeStep(s);
    forall m: nat | Due(s', m) ensures Placed(s', m) { assert Placed(s, m) && Place(s', m) == Place(s, m); }
    forall i: nat | i < 2 * s.cap && Free(s', i) ensures s'.buffer[i] == DUMMY { assert Free(s, i); }
  }

  lemma StepClear(s: State)
    requires Inv(s) && s.pc.Clear?
    ensures Inv(ConsumeStep(s))
  {
    var n := |s.popped|;
    assert Due(s, n) && Placed(s, n) && Place(s, n) == s.readPos;
    var s' := ConsumeStep(s);
    forall m: nat | Due(s', m) ensures Placed(s', m) {
      assert Due(s, m) && Placed(s, m) && Place(s', m) == Place(s, m);
      PlacesApart(s, n, m);
    }
    forall i: nat | i < 2 * s.cap && Free(s', i) ensures s'.buffer[i] == DUMMY {
      if i != s.readPos { assert Free(s, i); }
    }
  }

  lemma StepQuiet(s: State, pc: Consumer)
    requires Inv(s) && Turn(s.(pc := pc))
    ensures Inv(s.(pc := pc))
  {
    var s' := s.(pc := pc);
    forall m: nat | Due(s', m) ensures Placed(s', m) { assert Placed(s, m) && Place(s', m) == Place(s, m); }
    forall i: nat | i < 2 * s.cap && Free(s', i) ensures s'.buffer[i] == DUMMY { assert Free(s, i); }
  }

  lemma StepKeepsInv(s: State, a: Action)
    requires Inv(s) && Enabled(s, a)
    ensures Inv(Apply(s, a))
  {
    match a
    case Claim(v) => StepClaim(s, v);
    case Store(n) => StepStore(s, n);
    case CallPop => StepQuiet(s, Apply(s, a).pc);
    case Consume =>
      match s.pc
      case LoadFlag => StepQuiet(s, Swap(!Second(s.pos)));
      case Swap(_) => StepSwap(s);
      case Load => StepLoad(s);
      case Clear(_) => StepClear(s);
  }

  lemma {:induction false} RunInv(s: State, acts: seq<Action>)
    requires Inv(s) && Legal(s, acts)
    ensures Inv(Exec(s, acts))
    decreases |acts|
  {
    hide Inv, Apply, Enabled;
    if acts != [] {
      StepKeepsInv(s, acts[0]);
      RunInv(Apply(s, acts[0]), acts[1..]);
    }
  }

  lemma ReachableInv(s: State)
    requires Reachable(s)
    ensures Inv(s)
  {
    hide Inv, Apply, Enabled;
    var cap: nat, acts :| 2 * cap < FLAG && Legal(Init(cap), acts) && s == Exec(Init(cap), acts);
    InitInv(cap);
    RunInv(Init(cap), acts);
  }

  // ---------------------------------------------------------------- main results

  /** Main result: what pop has returned is always a prefix of the successful pushes in the order
      of their fetch_add, across all flips. */
  lemma Fifo(s: State)
    requires Reachable(s)
    ensures s.popped <= s.pushed
  {
    ReachableInv(s);
  }

  /** Main result: pop returns empty only if at its exchange every successful claim was popped;
      and if that is so, it returns empty. */
  lemma EmptyIffAllPopped(s: State)
    requires Reachable(s) && s.pc.Swap?
    ensures ConsumeStep(s).pc.Idle? <==> s.popped == s.pushed
    ensures ConsumeStep(s).pc.Idle? ==> ConsumeStep(s).last == Nothing
  {
    ReachableInv(s);
    StepSwap(s);
  }

  /** Main result: a store hits an empty place inside the buffer that no other producer stores to. */
  lemma StoresAreExclusive(s: State, n: nat)
    requires Reachable(s) && n in s.storing
    ensures s.storing[n] < |s.buffer| && s.buffer[s.storing[n]] == DUMMY
    ensures forall m :: m in s.storing && m != n ==> s.storing[m] != s.storing[n]
  {
    ReachableInv(s);
    assert Due(s, n) && Placed(s, n);
    forall m | m in s.storing && m != n ensures s.storing[m] != s.storing[n] {
      assert Due(s, m) && Placed(s, m);
      PlacesApart(s, n, m);
    }
  }

  /** push_back fails only when the half it fills is full, that is, when `cap` values wait in it. */
  lemma FailsIffFull(s: State, v: Value)
    requires Reachable(s) && Enabled(s, Claim(v))
    ensures Apply(s, Claim(v)).pushed == (if Claimed(s) < s.cap then s.pushed + [v] else s.pushed)
    ensures |s.pushed| - |s.popped| <= 2 * s.cap
  {
    ReachableInv(s);
  }

  /** Progress: while pop waits for a place, the producer of exactly the next value has yet to
      store it; once it has, pop goes on. */
  lemma WaitsForOneProducer(s: State)
    requires Reachable(s) && s.pc.Load?
    ensures |s.popped| < |s.pushed|
    ensures ConsumeStep(s) == s <==> |s.popped| in s.storing
    ensures |s.popped| in s.storing ==>
      ConsumeStep(Apply(s, Store(|s.popped|))).pc == Clear(s.pushed[|s.popped|])
  {
    ReachableInv(s);
    var n := |s.popped|;
    assert Due(s, n) && Placed(s, n) && Place(s, n) == s.readPos;
  }

  // ---------------------------------------------------------------- the consumer alone

  /** `k` steps of pop in a row. */
  function PopAlone(s: State, k: nat): State
    decreases k
  {
    if k == 0 then s else PopAlone(ConsumeStep(s), k - 1)
  }

  /** What pop returns when nobody else moves. */
  ghost predicate PopDone(s: State, s': State) {
    && s'.pc.Idle? && s'.pushed == s.pushed && s'.storing == s.storing
    && if |s.popped| < |s.pushed| then s'.last == Some(s.pushed[|s.popped|]) && s'.popped == s.popped + [s.pushed[|s.popped|]]
       else s'.last == Nothing && s'.popped == s.popped
  }

  function PopLeft(pc: Consumer): nat {
    match pc
    case Idle => 0
    case LoadFlag => 4
    case Swap(_) => 3
    case Load => 2
    case Clear(_) => 1
  }

  lemma PopStep(s: State)
    requires Inv(s) && !s.pc.Idle? && |s.popped| !in s.storing
    ensures var s1 := ConsumeStep(s);
      && Inv(s1)
      && if s1.pc.Idle? then PopDone(s, s1)
         else s1.pushed == s.pushed && s1.popped == s.popped && s1.storing == s.storing && PopLeft(s1.pc) < PopLeft(s.pc)
  {
    StepKeepsInv(s, Consume);
    var n := |s.popped|;
    if s.pc.Swap? { StepSwap(s); }
    if s.pc.Load? { assert Due(s, n) && Placed(s, n) && Place(s, n) == s.readPos; }
  }

  lemma {:induction false} PopFrom(s: State) returns (k: nat)
    requires Inv(s) && !s.pc.Idle? && |s.popped| !in s.storing
    ensures k <= PopLeft(s.pc) && PopDone(s, PopAlone(s, k))
    decreases PopLeft(s.pc)
  {
    hide Inv, ConsumeStep;
    PopStep(s);
    var s1 := ConsumeStep(s);
    k := 0;
    if s1.pc.Idle? { assert PopAlone(s1, 0) == s1; } else { k := PopFrom(s1); }
    k := k + 1;
  }

  /** Main result: wherever pop has been interrupted, it ends within four steps if the consumer runs
      alone and the producer of the next value has stored it; it then returns the first value that
      waits, or nothing exactly if none does. */
  lemma PopEnds(s: State) returns (k: nat)
    requires Reachable(s) && !s.pc.Idle? && |s.popped| !in s.storing
    ensures k <= 4 && PopDone(s, PopAlone(s, k))
  {
    ReachableInv(s);
    hide Inv;
    k := PopFrom(s);
  }
}
