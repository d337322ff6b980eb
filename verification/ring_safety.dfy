/** Main results about every run of the ticketed ring: conservation, shape and progress. */
module RingSafety {
  import opened Arithmetic
  import opened RingProtocol

  // ---------------------------------------------------------------- tickets of one slot

  /** How many of the first `n` tickets belong to slot `r`. */
  function Drawn(cap: nat, n: nat, r: nat): nat
    requires cap > 0
  {
    if n == 0 then 0 else Drawn(cap, n - 1, r) + if Slot(cap, n - 1) == r then 1 else 0
  }

  /** The first ticket from `n` on that belongs to slot `r`, relative to `n`. */
  function Offset(cap: nat, n: nat, r: nat): (d: nat)
    requires r < cap
    ensures d < cap
  {
    (r - 1 - n) % cap
  }

  lemma SlotAt(cap: nat, n: nat, r: nat, j: nat)
    requires r < cap && j < cap
    ensures Slot(cap, n + j) == r <==> Offset(cap, n, r) == j
  {
    var d := Offset(cap, n, r);
    var q := (r - 1 - n) / cap;
    assert r - 1 - n == q * cap + d;
    if d == j {
      assert n + j + 1 == -q * cap + r;
      DivModUnique(n + j + 1, -q, r, cap);
    } else if Slot(cap, n + j) == r {
      var p := (n + j + 1) / cap;
      assert r - 1 - n == -p * cap + j;
      DivModUnique(r - 1 - n, -p, j, cap);
    }
  }

  /** Of any `cap` tickets in a row each slot has exactly one. */
  lemma {:induction false} Window(cap: nat, n: nat, j: nat, r: nat)
    requires r < cap && j <= cap
    ensures Drawn(cap, n + j, r) == Drawn(cap, n, r) + if Offset(cap, n, r) < j then 1 else 0
  {
    if j > 0 {
      Window(cap, n, j - 1, r);
      SlotAt(cap, n, r, j - 1);
    }
  }

  /** Between two tickets no slot gets two more than another. */
  lemma {:induction false} Spread(cap: nat, n: nat, m: nat, r: nat, r': nat)
    requires r < cap && r' < cap && n <= m
    ensures -1 <= (Drawn(cap, m, r) - Drawn(cap, n, r)) - (Drawn(cap, m, r') - Drawn(cap, n, r')) <= 1
    decreases m
  {
    if m - n <= cap {
      Window(cap, n, m - n, r);
      Window(cap, n, m - n, r');
    } else {
      Spread(cap, n, m - cap, r, r');
      Window(cap, m - cap, cap, r);
      Window(cap, m - cap, cap, r');
    }
  }

  lemma {:induction false} DrawnGrows(cap: nat, n: nat, m: nat, r: nat)
    requires cap > 0 && n <= m
    ensures Drawn(cap, n, r) <= Drawn(cap, m, r)
  {
    if n < m { DrawnGrows(cap, n, m - 1, r); }
  }

  lemma DrawnNext(cap: nat, n: nat)
    requires cap > 0
    ensures Drawn(cap, n + 1, Slot(cap, n)) == Drawn(cap, n, Slot(cap, n)) + 1
  {
  }

  // ---------------------------------------------------------------- invariant

  /** The pending tickets of slot `r`. */
  function Pending(cap: nat, tickets: set<nat>, r: nat): set<nat>
    requires cap > 0
  {
    set k | k in tickets && Slot(cap, k) == r
  }

  function Occupied(s: Ring, r: nat): nat
    requires r < |s.buffer|
  {
    if s.buffer[r] == DUMMY then 0 else 1
  }

  /** Slot `r` holds a value exactly if one more push than pop of the slot is complete. */
  ghost predicate Balanced(s: Ring, r: nat)
    requires r < |s.buffer|
  {
    Occupied(s, r) + Drawn(|s.buffer|, s.popId, r) - |Pending(|s.buffer|, s.popping.Keys, r)|
      == Drawn(|s.buffer|, s.pushId, r) - |Pending(|s.buffer|, s.pushing.Keys, r)|
  }

  /** The values in the slots. */
  function Contents(buffer: seq<Value>): multiset<Value> {
    multiset(buffer)[DUMMY := 0]
  }

  ghost predicate Inv(s: Ring) {
    && |s.buffer| > 0
    && (forall k :: k in s.pushing ==> k < s.pushId && s.pushing[k] != DUMMY)
    && (forall k :: k in s.popping ==> k < s.popId)
    && (forall r: nat :: r < |s.buffer| ==> Balanced(s, r))
    && s.pushed == s.popped + Contents(s.buffer)
  }

  lemma InitInv(cap: nat)
    requires cap > 0
    ensures Inv(Init(cap))
  {
    var s := Init(cap);
    forall r: nat | r < cap ensures Balanced(s, r) {
      assert Pending(cap, s.popping.Keys, r) == {} && Pending(cap, s.pushing.Keys, r) == {};
    }
    assert forall v :: v in Contents(s.buffer) ==> v in s.buffer && v != DUMMY;
    assert Contents(s.buffer) == multiset{};
  }

  lemma Joins(cap: nat, tickets: set<nat>, k: nat, r: nat)
    requires cap > 0 && k !in tickets
    ensures |Pending(cap, tickets + {k}, r)| == |Pending(cap, tickets, r)| + if Slot(cap, k) == r then 1 else 0
  {
    assert Pending(cap, tickets + {k}, r) == Pending(cap, tickets, r) + if Slot(cap, k) == r then {k} else {};
  }

  lemma Leaves(cap: nat, tickets: set<nat>, k: nat, r: nat)
    requires cap > 0 && k in tickets
    ensures |Pending(cap, tickets - {k}, r)| == |Pending(cap, tickets, r)| - if Slot(cap, k) == r then 1 else 0
  {
    Joins(cap, tickets - {k}, k, r);
    assert tickets - {k} + {k} == tickets;
  }

  lemma ContentsUpdate(buffer: seq<Value>, i: nat, v: Value)
    requires i < |buffer|
    ensures Contents(buffer[i := v]) ==
      Contents(buffer) - (if buffer[i] == DUMMY then multiset{} else multiset{buffer[i]})
        + (if v == DUMMY then multiset{} else multiset{v})
    ensures buffer[i] != DUMMY ==> buffer[i] in Contents(buffer)
  {
    assert buffer == buffer[..i] + [buffer[i]] + buffer[i + 1..];
    assert buffer[i := v] == buffer[..i] + [v] + buffer[i + 1..];
  }

  /** Slots and tickets keep their balance when one ticket comes or goes. */
  lemma BalanceKept(s: Ring, s': Ring, a: Action, r: nat)
    requires |s.buffer| > 0 && Enabled(s, a) && s' == Apply(s, a) && r < |s.buffer| && Balanced(s, r)
    requires forall k :: k in s.pushing ==> k < s.pushId && s.pushing[k] != DUMMY
    requires forall k :: k in s.popping ==> k < s.popId
    ensures Balanced(s', r)
  {
    var cap := |s.buffer|;
    match a
    case CallPush(_) =>
      assert s'.pushing.Keys == s.pushing.Keys + {s.pushId};
      Joins(cap, s.pushing.Keys, s.pushId, r);
    case CallPop =>
      assert s'.popping.Keys == s.popping.Keys + {s.popId};
      Joins(cap, s.popping.Keys, s.popId, r);
    case TryStore(k) =>
      if At(s, k) == DUMMY {
        assert s'.pushing.Keys == s.pushing.Keys - {k};
        Leaves(cap, s.pushing.Keys, k, r);
      }
    case TryTake(k) =>
      if s.popping[k].Exchange? && At(s, k) != DUMMY {
        assert s'.popping.Keys == s.popping.Keys - {k};
        Leaves(cap, s.popping.Keys, k, r);
      } else {
        assert s'.popping.Keys == s.popping.Keys;
      }
  }

  lemma ContentsKept(s: Ring, a: Action)
    requires Inv(s) && Enabled(s, a)
    ensures var s' := Apply(s, a); s'.pushed == s'.popped + Contents(s'.buffer)
  {
    match a
    case CallPush(_) =>
    case CallPop =>
    case TryStore(k) => ContentsUpdate(s.buffer, Slot(|s.buffer|, k), s.pushing[k]);
    case TryTake(k) => ContentsUpdate(s.buffer, Slot(|s.buffer|, k), DUMMY);
  }

  lemma StepKeepsInv(s: Ring, a: Action)
    requires Inv(s) && Enabled(s, a)
    ensures Inv(Apply(s, a)) && |Apply(s, a).buffer| == |s.buffer|
  {
    var s' := Apply(s, a);
    assert forall r: nat :: r < |s.buffer| ==> Balanced(s, r);
    ContentsKept(s, a);
    TicketsKept(s, a);
    hide Balanced, Contents, Apply;
    forall r: nat | r < |s'.buffer| ensures Balanced(s', r) { BalanceKept(s, s', a, r); }
  }

  lemma TicketsKept(s: Ring, a: Action)
    requires Inv(s) && Enabled(s, a)
    ensures var s' := Apply(s, a);
      && |s'.buffer| == |s.buffer|
      && (forall k :: k in s'.pushing ==> k < s'.pushId && s'.pushing[k] != DUMMY)
      && (forall k :: k in s'.popping ==> k < s'.popId)
  {
  }

  lemma {:induction false} RunInv(s: Ring, acts: seq<Action>)
    requires Inv(s) && Legal(s, acts)
    ensures Inv(Exec(s, acts)) && |Exec(s, acts).buffer| == |s.buffer|
    decreases |acts|
  {
    hide Inv, Apply, Enabled;
    if acts != [] {
      StepKeepsInv(s, acts[0]);
      RunInv(Apply(s, acts[0]), acts[1..]);
    }
  }

  lemma ReachableInv(s: Ring)
    requires Reachable(s)
    ensures Inv(s)
  {
    hide Inv, Apply, Enabled;
    var cap: nat, acts :| cap > 0 && Legal(Init(cap), acts) && s == Exec(Init(cap), acts);
    InitInv(cap);
    RunInv(Init(cap), acts);
  }

  // ---------------------------------------------------------------- conservation

  /** Main result: in every interleaving the completed pushes are the completed pops and what is
      in the slots; nothing is lost, doubled or made up. */
  lemma Conservation(s: Ring)
    requires Reachable(s)
    ensures s.pushed == s.popped + Contents(s.buffer)
  {
    ReachableInv(s);
  }

  // ---------------------------------------------------------------- progress

  predicate Ready(s: Ring, k: nat) {
    || (k in s.pushing && At(s, k) == DUMMY)
    || (k in s.popping && At(s, k) != DUMMY)
  }

  /** What a slot owes to itself: pushes less pops drawn for it. */
  function Surplus(s: Ring, r: nat): int
    requires |s.buffer| > 0
  {
    Drawn(|s.buffer|, s.pushId, r) - Drawn(|s.buffer|, s.popId, r)
  }

  lemma StuckPush(s: Ring, k: nat)
    requires Inv(s) && k in s.pushing && At(s, k) != DUMMY
    requires Pending(|s.buffer|, s.popping.Keys, Slot(|s.buffer|, k)) == {}
    ensures Surplus(s, Slot(|s.buffer|, k)) >= 2
  {
    var r := Slot(|s.buffer|, k);
    assert Balanced(s, r) && k in Pending(|s.buffer|, s.pushing.Keys, r);
  }

  lemma StuckPop(s: Ring, k: nat)
    requires Inv(s) && k in s.popping && At(s, k) == DUMMY
    requires Pending(|s.buffer|, s.pushing.Keys, Slot(|s.buffer|, k)) == {}
    ensures Surplus(s, Slot(|s.buffer|, k)) <= -1
  {
    var r := Slot(|s.buffer|, k);
    assert Balanced(s, r) && k in Pending(|s.buffer|, s.popping.Keys, r);
  }

  lemma SurplusSpread(s: Ring, r: nat, r': nat)
    requires r < |s.buffer| && r' < |s.buffer|
    ensures Surplus(s, r) - Surplus(s, r') <= 1
    ensures 0 <= s.pushId - s.popId <= |s.buffer| ==>
      Surplus(s, r) == if Offset(|s.buffer|, s.popId, r) < s.pushId - s.popId then 1 else 0
  {
    if s.popId <= s.pushId {
      Spread(|s.buffer|, s.popId, s.pushId, r, r');
    } else {
      Spread(|s.buffer|, s.pushId, s.popId, r', r);
    }
    if 0 <= s.pushId - s.popId <= |s.buffer| { Window(|s.buffer|, s.popId, s.pushId - s.popId, r); }
  }

  lemma StuckPushes(s: Ring) returns (r: nat)
    requires Inv(s) && s.pushing != map[] && forall k :: !Ready(s, k)
    ensures r < |s.buffer| && Surplus(s, r) >= 2
  {
    var k :| k in s.pushing;
    r := Slot(|s.buffer|, k);
    assert !Ready(s, k);
    forall j | j in s.popping ensures Slot(|s.buffer|, j) != r { assert !Ready(s, j); }
    assert Pending(|s.buffer|, s.popping.Keys, r) == {};
    StuckPush(s, k);
  }

  lemma StuckPops(s: Ring) returns (r: nat)
    requires Inv(s) && s.popping != map[] && forall k :: !Ready(s, k)
    ensures r < |s.buffer| && Surplus(s, r) <= -1
  {
    var k :| k in s.popping;
    r := Slot(|s.buffer|, k);
    assert !Ready(s, k);
    forall j | j in s.pushing ensures Slot(|s.buffer|, j) != r { assert !Ready(s, j); }
    assert Pending(|s.buffer|, s.pushing.Keys, r) == {};
    StuckPop(s, k);
  }

  /** Main result, progress: if a push and a pop are pending, or something is pending while
      0 <= _push_id - _pop_id <= capacity, some pending operation finds its slot as it needs it. */
  lemma Progress(s: Ring)
    requires Reachable(s)
    requires || (s.pushing != map[] && s.popping != map[])
             || (0 <= s.pushId - s.popId <= |s.buffer| && (s.pushing != map[] || s.popping != map[]))
    ensures exists k :: Ready(s, k)
  {
    ReachableInv(s);
    if forall k :: !Ready(s, k) {
      hide Inv, Ready, Surplus;
      if s.pushing != map[] {
        var r := StuckPushes(s);
        SurplusSpread(s, r, r);
        if s.popping != map[] {
          var r' := StuckPops(s);
          SurplusSpread(s, r, r');
        }
      } else {
        var r := StuckPops(s);
        SurplusSpread(s, r, r);
      }
    }
  }

  /** A pending operation whose slot is as it needs it completes in at most two of its own steps. */
  lemma ReadyCompletes(s: Ring, k: nat)
    requires Inv(s) && Ready(s, k)
    ensures k in s.pushing && At(s, k) == DUMMY ==> k !in Apply(s, TryStore(k)).pushing
    ensures k in s.popping && At(s, k) != DUMMY ==>
      k !in Apply(Apply(s, TryTake(k)), TryTake(k)).popping || k !in Apply(s, TryTake(k)).popping
  {
  }

  // ---------------------------------------------------------------- shape

  function Sized(s: Ring): int {
    s.pushId - s.popId
  }

  /** The slots that hold a value. */
  function Filled(s: Ring): set<nat> {
    set r: nat | r < |s.buffer| && s.buffer[r] != DUMMY
  }

  /** The slots of the tickets from `n` to `m`. */
  function Slots(cap: nat, n: nat, m: nat): set<nat>
    requires cap > 0
  {
    set i | n <= i < m :: Slot(cap, i)
  }

  lemma {:induction false} SlotsCount(cap: nat, n: nat, j: nat)
    requires cap > 0 && j <= cap
    ensures |Slots(cap, n, n + j)| == j
  {
    if j == 0 {
      assert Slots(cap, n, n) == {};
    } else {
      SlotsCount(cap, n, j - 1);
      var r := Slot(cap, n + j - 1);
      SlotAt(cap, n, r, j - 1);
      forall i | n <= i < n + j - 1 ensures Slot(cap, i) != r { SlotAt(cap, n, r, i - n); }
      assert Slots(cap, n, n + j) == Slots(cap, n, n + j - 1) + {r};
    }
  }

  /** Main result, shape: with nothing pending, 0 <= size() <= capacity, size() is the number of
      occupied slots, and these are exactly the slots of the tickets from _pop_id to _push_id. */
  lemma QuietShape(s: Ring)
    requires Reachable(s) && s.pushing == map[] && s.popping == map[]
    ensures |s.buffer| > 0
    ensures 0 <= Sized(s) <= |s.buffer|
    ensures Filled(s) == Slots(|s.buffer|, s.popId, s.pushId)
    ensures Sized(s) == |Filled(s)|
  {
    ReachableInv(s);
    QuietSlots(s);
    SlotsCount(|s.buffer|, s.popId, Sized(s));
  }

  lemma QuietSlots(s: Ring)
    requires Inv(s) && s.pushing == map[] && s.popping == map[]
    ensures 0 <= Sized(s) <= |s.buffer|
    ensures Filled(s) == Slots(|s.buffer|, s.popId, s.pushId)
  {
    var cap := |s.buffer|;
    forall r: nat | r < cap ensures Surplus(s, r) == Occupied(s, r) {
      assert Balanced(s, r);
      assert Pending(cap, s.popping.Keys, r) == {} && Pending(cap, s.pushing.Keys, r) == {};
    }
    QuietBounds(s);
    forall r: nat | r < cap ensures r in Filled(s) <==> r in Slots(cap, s.popId, s.pushId) {
      SurplusSpread(s, r, r);
      var d := Offset(cap, s.popId, r);
      SlotAt(cap, s.popId, r, d);
      if r in Slots(cap, s.popId, s.pushId) {
        var i :| s.popId <= i < s.pushId && Slot(cap, i) == r;
        SlotAt(cap, s.popId, r, i - s.popId);
      }
      if d < Sized(s) { assert s.popId + d < s.pushId; }
    }
  }

  lemma QuietBounds(s: Ring)
    requires Inv(s) && forall r: nat :: r < |s.buffer| ==> Surplus(s, r) == Occupied(s, r)
    ensures 0 <= Sized(s) <= |s.buffer|
  {
    hide Drawn, Balanced, Contents;
    var cap := |s.buffer|;
    if s.pushId < s.popId {
      var r := Slot(cap, s.pushId);
      DrawnNext(cap, s.pushId);
      assert Surplus(s, r) == Occupied(s, r);
      DrawnGrows(cap, s.pushId + 1, s.popId, r);
    } else if s.pushId > s.popId + cap {
      var r := Slot(cap, s.popId + cap);
      Window(cap, s.popId, cap, r);
      DrawnNext(cap, s.popId + cap);
      assert Surplus(s, r) == Occupied(s, r);
      DrawnGrows(cap, s.popId + cap + 1, s.pushId, r);
    }
  }
}
