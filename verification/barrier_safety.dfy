/** Main results about every run of the barrier. */
module BarrierSafety {
  import opened BarrierProtocol

  // ---------------------------------------------------------------- invariant

  /** The main thread's place follows from the level it stored last. */
  ghost predicate MainOk(s: State) {
    var m := s.main.stage;
    match s.main.pc
    case Rest => s.level % 2 == 0 && m == s.level
    case InF => s.level % 2 == 1 && m == s.level
    case SpinStart => s.level % 2 == 0 && m == s.level + 1
    case ZeroStart => s.level % 2 == 0 && m == s.level + 1
    case LevelStart => s.level % 2 == 0 && m == s.level + 1
    case SpinEnd => s.level % 2 == 1 && m == s.level + 1
    case ZeroEnd => s.level % 2 == 1 && m == s.level + 1
    case LevelEnd => s.level % 2 == 1 && m == s.level + 1
  }

  /** A sub thread stands at the level or one stage on. */
  ghost predicate SubOk(level: nat, t: Sub) {
    match t.pc
    case Idle => level % 2 == 0 && t.stage == level
    case ArriveStart => level % 2 == 0 && t.stage == level + 1
    case WaitStart => t.stage == (if level % 2 == 0 then level + 1 else level)
    case Running => level % 2 == 1 && t.stage == level
    case ArriveEnd => level % 2 == 1 && t.stage == level + 1
    case WaitEnd => t.stage == if level % 2 == 1 then level + 1 else level
  }

  /** It has announced itself for the next stage. */
  predicate Arrived(level: nat, t: Sub) {
    t.stage == level + 1 && (t.pc.WaitStart? || t.pc.WaitEnd?)
  }

  function Waiting(s: State): set<nat> {
    set i: nat | i < |s.subs| && Arrived(s.level, s.subs[i])
  }

  function Everybody(n: nat): (all: set<nat>)
    ensures |all| == n && forall i: nat :: i in all <==> i < n
  {
    if n == 0 then {} else Everybody(n - 1) + {n - 1}
  }

  /** The counters hold the arrivals for the next stage, and none when they have just been zeroed. */
  ghost predicate CountsOk(s: State) {
    && s.waitStart == (if s.level % 2 == 0 && !s.main.pc.LevelStart? then |Waiting(s)| else 0)
    && s.waitEnd == (if s.level % 2 == 1 && !s.main.pc.LevelEnd? then |Waiting(s)| else 0)
  }

  /** Before the main thread zeroes a counter or raises the level everybody has arrived. */
  ghost predicate AllHere(s: State) {
    s.main.pc.ZeroStart? || s.main.pc.LevelStart? || s.main.pc.ZeroEnd? || s.main.pc.LevelEnd? ==>
      forall i: nat :: i < |s.subs| ==> Arrived(s.level, s.subs[i])
  }

  ghost predicate Inv(s: State) {
    && MainOk(s) && CountsOk(s) && AllHere(s) && s.main.stage <= 2 * s.rounds
    && (forall i: nat :: i < |s.subs| ==> SubOk(s.level, s.subs[i]) && s.subs[i].stage <= 2 * s.rounds)
  }

  lemma InitInv(rounds: nat, subs: nat)
    ensures Inv(Init(rounds, subs))
  {
    assert Waiting(Init(rounds, subs)) == {};
  }

  /** At most everybody waits, and if that many do, everybody does. */
  lemma Bounded(s: State)
    ensures |Waiting(s)| <= |s.subs|
    ensures |Waiting(s)| == |s.subs| <==> forall i: nat :: i < |s.subs| ==> Arrived(s.level, s.subs[i])
  {
    var all := Everybody(|s.subs|);
    assert Waiting(s) <= all;
    assert all == Waiting(s) + (all - Waiting(s));
    if |Waiting(s)| == |s.subs| {
      assert all - Waiting(s) == {};
      forall i: nat | i < |s.subs| ensures Arrived(s.level, s.subs[i]) { assert i in all; }
    }
    if forall i: nat :: i < |s.subs| ==> Arrived(s.level, s.subs[i]) {
      assert Waiting(s) == all;
    }
  }

  lemma StepMain(s: State)
    requires Inv(s) && Enabled(s, MainStep)
    ensures Inv(MainApply(s))
  {
    var s' := MainApply(s);
    Bounded(s);
    match s.main.pc
    case LevelStart => assert Waiting(s') == {};
    case LevelEnd => assert Waiting(s') == {};
    case _ => assert Waiting(s') == Waiting(s);
  }

  lemma SubWaiting(s: State, i: nat)
    requires i < |s.subs| && SubOk(s.level, s.subs[i])
    ensures var s' := SubApply(s, i);
      Waiting(s') == Waiting(s) + if s.subs[i].pc.ArriveStart? || s.subs[i].pc.ArriveEnd? then {i} else {}
    ensures s.subs[i].pc.ArriveStart? || s.subs[i].pc.ArriveEnd? ==> i !in Waiting(s)
  {
    var s' := SubApply(s, i);
    forall j: nat | j < |s.subs| && j != i ensures s'.subs[j] == s.subs[j] {}
  }

  lemma SubPlace(s: State, i: nat)
    requires i < |s.subs| && SubOk(s.level, s.subs[i]) && Enabled(s, SubStep(i))
    requires s.subs[i].stage <= 2 * s.rounds
    ensures var s' := SubApply(s, i);
      && |s'.subs| == |s.subs| && SubOk(s'.level, s'.subs[i]) && s'.subs[i].stage <= 2 * s.rounds
      && (forall j: nat :: j < |s.subs| && j != i ==> s'.subs[j] == s.subs[j])
      && (Arrived(s.level, s.subs[i]) ==> Arrived(s'.level, s'.subs[i]))
      && s'.level == s.level && s'.main == s.main && s'.rounds == s.rounds
      && s'.waitStart == s.waitStart + (if s.subs[i].pc.ArriveStart? then 1 else 0)
      && s'.waitEnd == s.waitEnd + (if s.subs[i].pc.ArriveEnd? then 1 else 0)
  {
  }

  lemma StepSub(s: State, i: nat)
    requires Inv(s) && Enabled(s, SubStep(i))
    ensures Inv(SubApply(s, i))
  {
    SubWaiting(s, i);
    SubPlace(s, i);
    assert SubOk(s.level, s.subs[i]);
    hide SubApply, Waiting;
  }

  lemma StepKeepsInv(s: State, a: Action)
    requires Inv(s) && Enabled(s, a)
    ensures Inv(Apply(s, a))
  {
    match a
    case MainStep => StepMain(s);
    case SubStep(i) => StepSub(s, i);
  }

  lemma {:induction false} RunInv(s: State, acts: seq<Action>)
    requires Inv(s) && Legal(s, acts)
    ensures Inv(Exec(s, acts))
    decreases |acts|
  {
    hide Inv, Apply, Enabled;
    if acts != [] {
      StepKeepsInv(s, acts[0]);
      RunInv(Apply(s, acts[0]), acts[1..]);
    }
  }

  lemma ReachableInv(s: State)
    requires Reachable(s)
    ensures Inv(s)
  {
    hide Inv, Apply, Enabled;
    var rounds: nat, subs: nat, acts :| Legal(Init(rounds, subs), acts) && s == Exec(Init(rounds, subs), acts);
    InitInv(rounds, subs);
    RunInv(Init(rounds, subs), acts);
  }

  // ---------------------------------------------------------------- safety

  /** Some thread is inside the function of the round whose start stage is `stage`. */
  predicate Inside(s: State, stage: nat) {
    || (s.main.pc.InF? && s.main.stage == stage)
    || (exists i: nat :: i < |s.subs| && s.subs[i].pc.Running? && s.subs[i].stage == stage)
  }

  /** While a function of a round runs, every thread has arrived for that round and none has gone
      beyond its end stage. */
  ghost predicate NoOverlap(s: State) {
    forall stage: nat :: Inside(s, stage) ==>
      && stage <= s.main.stage <= stage + 1 && !s.main.pc.SpinStart? && !s.main.pc.ZeroStart? && !s.main.pc.LevelStart?
      && (forall i: nat :: i < |s.subs| ==> stage <= s.subs[i].stage <= stage + 1 && !s.subs[i].pc.ArriveStart?)
      && (forall other: nat :: Inside(s, other) ==> other == stage)
  }

  /** Main result: no function of a round starts before all threads have arrived, and none of the
      next round starts before all have returned. */
  lemma RoundsDoNotOverlap(s: State)
    requires Reachable(s)
    ensures NoOverlap(s)
  {
    ReachableInv(s);
    forall i: nat | i < |s.subs| ensures SubOk(s.level, s.subs[i]) {}
  }

  /** Main result: any two stages differ by at most one. */
  lemma StagesAreClose(s: State, i: nat, j: nat)
    requires Reachable(s) && i < |s.subs| && j < |s.subs|
    ensures -1 <= s.subs[i].stage - s.subs[j].stage <= 1
    ensures -1 <= s.subs[i].stage - s.main.stage <= 1
  {
    ReachableInv(s);
    assert SubOk(s.level, s.subs[i]) && SubOk(s.level, s.subs[j]);
  }

  /** Main result: when a counter is set to zero it holds exactly one arrival of each sub thread,
      all for the stage the main thread is about to release; no arrival for a later stage is lost. */
  lemma ZeroDiscardsNothing(s: State)
    requires Reachable(s)
    ensures s.main.pc.ZeroStart? ==> s.waitStart == |s.subs|
    ensures s.main.pc.ZeroStart? ==> forall i: nat :: i < |s.subs| ==> s.subs[i] == Sub(WaitStart, s.main.stage)
    ensures s.main.pc.ZeroEnd? ==> s.waitEnd == |s.subs|
    ensures s.main.pc.ZeroEnd? ==> forall i: nat :: i < |s.subs| ==> s.subs[i] == Sub(WaitEnd, s.main.stage)
  {
    ReachableInv(s);
    if s.main.pc.ZeroStart? || s.main.pc.ZeroEnd? {
      Bounded(s);
      forall i: nat | i < |s.subs| ensures SubOk(s.level, s.subs[i]) && Arrived(s.level, s.subs[i]) {}
    }
  }

  /** The level never falls. */
  lemma LevelGrows(s: State, a: Action)
    requires Reachable(s) && Enabled(s, a)
    ensures s.level <= Apply(s, a).level
  {
    ReachableInv(s);
  }

  // ---------------------------------------------------------------- progress

  predicate AllDone(s: State) {
    MainDone(s) && forall i: nat :: i < |s.subs| ==> SubDone(s, i)
  }

  /** Main result, deadlock freedom: unless all threads have finished all rounds, some thread can
      leave its loop or take a step that does not wait. */
  lemma NoDeadlock(s: State)
    requires Reachable(s) && !AllDone(s)
    ensures exists a :: Enabled(s, a) && Apply(s, a) != s
  {
    ReachableInv(s);
    if forall a :: Enabled(s, a) ==> Apply(s, a) == s {
      Bounded(s);
      assert Enabled(s, MainStep) ==> Apply(s, MainStep) == s;
      forall i: nat | i < |s.subs| ensures SubDone(s, i) || (s.level < s.subs[i].stage && Arrived(s.level, s.subs[i])) {
        assert Enabled(s, SubStep(i)) ==> Apply(s, SubStep(i)) == s;
        assert SubOk(s.level, s.subs[i]);
      }
    }
  }

  /** How far a thread has come; each round takes the main thread eight steps, a sub thread six. */
  function MainRank(m: Main): int {
    4 * m.stage + match m.pc
      case Rest => 0
      case SpinStart => -3
      case ZeroStart => -2
      case LevelStart => -1
      case InF => 0
      case SpinEnd => -3
      case ZeroEnd => -2
      case LevelEnd => -1
  }

  function SubRank(t: Sub): int {
    3 * t.stage + match t.pc
      case Idle => 0
      case ArriveStart => -2
      case WaitStart => -1
      case Running => 0
      case ArriveEnd => -2
      case WaitEnd => -1
  }

  function SubRanks(subs: seq<Sub>): int {
    if subs == [] then 0 else SubRank(subs[0]) + SubRanks(subs[1..])
  }

  function Rank(s: State): int {
    MainRank(s.main) + SubRanks(s.subs)
  }

  lemma {:induction false} RankChanges(subs: seq<Sub>, i: nat, t: Sub)
    requires i < |subs|
    ensures SubRanks(subs[i := t]) == SubRanks(subs) + SubRank(t) - SubRank(subs[i])
  {
    if i == 0 {
      assert subs[i := t][1..] == subs[1..];
    } else {
      RankChanges(subs[1..], i - 1, t);
      assert subs[i := t][1..] == subs[1..][i - 1 := t];
    }
  }

  lemma {:induction false} RanksBounded(subs: seq<Sub>, bound: nat)
    requires forall i: nat :: i < |subs| ==> SubRank(subs[i]) <= bound
    ensures SubRanks(subs) <= bound * |subs|
  {
    if subs != [] {
      RanksBounded(subs[1..], bound);
      assert bound * |subs| == bound + bound * |subs[1..]|;
    }
  }

  lemma StepRanks(s: State, a: Action)
    requires Enabled(s, a)
    ensures Rank(Apply(s, a)) >= Rank(s) + if Apply(s, a) == s then 0 else 1
  {
    if a.SubStep? { RankChanges(s.subs, a.i, Apply(s, a).subs[a.i]); }
  }

  /** How many steps of a run do not just wait. */
  function Effective(s: State, acts: seq<Action>): nat
    decreases |acts|
  {
    if acts == [] then 0
    else (if Apply(s, acts[0]) == s then 0 else 1) + Effective(Apply(s, acts[0]), acts[1..])
  }

  lemma {:induction false} RunRanks(s: State, acts: seq<Action>)
    requires Legal(s, acts)
    ensures Rank(Exec(s, acts)) >= Rank(s) + Effective(s, acts)
    decreases |acts|
  {
    hide Apply, Enabled, Rank;
    if acts != [] {
      StepRanks(s, acts[0]);
      RunRanks(Apply(s, acts[0]), acts[1..]);
    }
  }

  lemma {:induction false} RankStart(n: nat)
    ensures SubRanks(seq(n, _ => Sub(Idle, 0))) == 0
  {
    if n > 0 {
      var subs := seq(n, _ => Sub(Idle, 0));
      assert subs[1..] == seq(n - 1, _ => Sub(Idle, 0));
      RankStart(n - 1);
    }
  }

  /** Main result: a run has only so many steps that do not wait. With NoDeadlock, every run in
      which threads that can go on do go on ends with all rounds finished. */
  lemma RunsEnd(rounds: nat, subs: nat, acts: seq<Action>)
    requires Legal(Init(rounds, subs), acts)
    ensures Effective(Init(rounds, subs), acts) <= 8 * rounds + 6 * rounds * subs
  {
    var s, s' := Init(rounds, subs), Exec(Init(rounds, subs), acts);
    RunRanks(s, acts);
    RankStart(subs);
    ReachableInv(s');
    RunShape(s, acts);
    RanksBounded(s'.subs, 6 * rounds);
  }

  lemma {:induction false} RunShape(s: State, acts: seq<Action>)
    ensures |Exec(s, acts).subs| == |s.subs| && Exec(s, acts).rounds == s.rounds
    decreases |acts|
  {
    if acts != [] {
      assert |Apply(s, acts[0]).subs| == |s.subs| && Apply(s, acts[0]).rounds == s.rounds;
      RunShape(Apply(s, acts[0]), acts[1..]);
    }
  }

  /** A finished run can be reached from wherever a run stands. */
  lemma {:induction false} CanFinish(s: State) returns (acts: seq<Action>)
    requires Reachable(s)
    ensures Legal(s, acts) && AllDone(Exec(s, acts)) && Reachable(Exec(s, acts))
    ensures Exec(s, acts).rounds == s.rounds && |Exec(s, acts).subs| == |s.subs|
    decreases 8 * s.rounds + 6 * s.rounds * |s.subs| - Rank(s)
  {
    hide Apply, Enabled, Rank, Inside;
    acts := [];
    if !AllDone(s) {
      NoDeadlock(s);
      var a :| Enabled(s, a) && Apply(s, a) != s;
      var s' := Apply(s, a);
      Extended(s, a);
      StepRanks(s, a);
      RankBounded(s');
      StepShape(s, a);
      var rest := CanFinish(s');
      acts := [a] + rest;
      assert acts[1..] == rest;
    }
  }

  lemma RankBounded(s: State)
    requires Reachable(s)
    ensures Rank(s) <= 8 * s.rounds + 6 * s.rounds * |s.subs|
  {
    ReachableInv(s);
    RanksBounded(s.subs, 6 * s.rounds);
  }

  lemma StepShape(s: State, a: Action)
    ensures |Apply(s, a).subs| == |s.subs| && Apply(s, a).rounds == s.rounds
  {
  }

  lemma {:induction false} ExecSnoc(s: State, acts: seq<Action>, a: Action)
    requires Legal(s, acts) && Enabled(Exec(s, acts), a)
    ensures Legal(s, acts + [a]) && Exec(s, acts + [a]) == Apply(Exec(s, acts), a)
    decreases |acts|
  {
    hide Apply, Enabled;
    if acts == [] {
      assert [a][1..] == [];
    } else {
      ExecSnoc(Apply(s, acts[0]), acts[1..], a);
      assert (acts + [a])[1..] == acts[1..] + [a];
    }
  }

  lemma Extended(s: State, a: Action)
    requires Reachable(s) && Enabled(s, a)
    ensures Reachable(Apply(s, a))
  {
    hide Apply, Enabled, Init;
    var rounds: nat, subs: nat, acts :| Legal(Init(rounds, subs), acts) && s == Exec(Init(rounds, subs), acts);
    ExecSnoc(Init(rounds, subs), acts, a);
  }

  // ---------------------------------------------------------------- every function is called

  /** The rounds whose function the main thread has returned from in the course of a run, in order. */
  function MainCalls(s: State, acts: seq<Action>): seq<nat>
    decreases |acts|
  {
    if acts == [] then []
    else (if acts[0].MainStep? && s.main.pc.InF? then [s.main.stage / 2] else []) + MainCalls(Apply(s, acts[0]), acts[1..])
  }

  /** The same for the i-th sub thread. */
  function SubCalls(s: State, acts: seq<Action>, i: nat): seq<nat>
    decreases |acts|
  {
    if acts == [] then []
    else
      (if acts[0] == SubStep(i) && i < |s.subs| && s.subs[i].pc.Running? then [s.subs[i].stage / 2] else [])
      + SubCalls(Apply(s, acts[0]), acts[1..], i)
  }

  function Rounds(n: nat): seq<nat> {
    seq(n, r => r)
  }

  lemma MainCallStep(s: State, a: Action)
    requires Inv(s) && Enabled(s, a)
    ensures Apply(s, a).main.stage / 2 == s.main.stage / 2 + if a.MainStep? && s.main.pc.InF? then 1 else 0
  {
    hide CountsOk, AllHere, SubOk;
  }

  lemma SubCallStep(s: State, a: Action, i: nat)
    requires Inv(s) && Enabled(s, a) && i < |s.subs|
    ensures i < |Apply(s, a).subs|
    ensures Apply(s, a).subs[i].stage / 2 == s.subs[i].stage / 2 + if a == SubStep(i) && s.subs[i].pc.Running? then 1 else 0
  {
    hide CountsOk, AllHere, MainOk;
    assert SubOk(s.level, s.subs[i]);
    if a.MainStep? { StepShape(s, a); }
  }

  lemma {:induction false} MainCallsFrom(s: State, acts: seq<Action>)
    requires Inv(s) && Legal(s, acts)
    ensures Rounds(s.main.stage / 2) + MainCalls(s, acts) == Rounds(Exec(s, acts).main.stage / 2)
    decreases |acts|
  {
    hide Inv, Apply, Enabled;
    if acts != [] {
      var s', r := Apply(s, acts[0]), s.main.stage / 2;
      var called := acts[0].MainStep? && s.main.pc.InF?;
      MainCallStep(s, acts[0]);
      assert Rounds(s'.main.stage / 2) == Rounds(r) + if called then [r] else [];
      StepKeepsInv(s, acts[0]);
      MainCallsFrom(s', acts[1..]);
      assert Rounds(r) + MainCalls(s, acts) == Rounds(s'.main.stage / 2) + MainCalls(s', acts[1..]);
    }
  }

  lemma {:induction false} SubCallsFrom(s: State, acts: seq<Action>, i: nat)
    requires Inv(s) && Legal(s, acts) && i < |s.subs|
    ensures i < |Exec(s, acts).subs|
    ensures Rounds(s.subs[i].stage / 2) + SubCalls(s, acts, i) == Rounds(Exec(s, acts).subs[i].stage / 2)
    decreases |acts|
  {
    hide Inv, Apply, Enabled;
    if acts != [] {
      var s', r := Apply(s, acts[0]), s.subs[i].stage / 2;
      var called := acts[0] == SubStep(i) && s.subs[i].pc.Running?;
      SubCallStep(s, acts[0], i);
      assert Rounds(s'.subs[i].stage / 2) == Rounds(r) + if called then [r] else [];
      StepKeepsInv(s, acts[0]);
      SubCallsFrom(s', acts[1..], i);
      assert Rounds(r) + SubCalls(s, acts, i) == Rounds(s'.subs[i].stage / 2) + SubCalls(s', acts[1..], i);
    }
  }

  /** Main result: at any point of any run each thread has called its function once in each of the
      rounds whose end stage it has begun, in order, and in no other; in a finished run once in
      every round. */
  lemma EveryRoundIsCalled(rounds: nat, subs: nat, acts: seq<Action>)
    requires Legal(Init(rounds, subs), acts)
    ensures var s, s' := Init(rounds, subs), Exec(Init(rounds, subs), acts);
      && |s'.subs| == subs
      && MainCalls(s, acts) == Rounds(s'.main.stage / 2)
      && (forall i: nat :: i < subs ==> SubCalls(s, acts, i) == Rounds(s'.subs[i].stage / 2))
      && (AllDone(s') ==>
            MainCalls(s, acts) == Rounds(rounds) && forall i: nat :: i < subs ==> SubCalls(s, acts, i) == Rounds(rounds))
  {
    var s, s' := Init(rounds, subs), Exec(Init(rounds, subs), acts);
    InitInv(rounds, subs);
    RunShape(s, acts);
    RunInv(s, acts);
    MainCallsFrom(s, acts);
    assert Rounds(0) == [];
    forall i: nat | i < subs ensures SubCalls(s, acts, i) == Rounds(s'.subs[i].stage / 2) { SubCallsFrom(s, acts, i); }
    if AllDone(s') { DoneStages(s'); }
  }

  lemma DoneStages(s: State)
    requires Inv(s) && AllDone(s)
    ensures s.main.stage == 2 * s.rounds && forall i: nat :: i < |s.subs| ==> s.subs[i].stage == 2 * s.rounds
  {
    forall i: nat | i < |s.subs| ensures s.subs[i].stage == 2 * s.rounds { assert SubDone(s, i); }
  }

  // ---------------------------------------------------------------- a second run

  /** What a finished run leaves in the three atomics, which nobody resets. */
  lemma RunLeaves(s: State)
    requires Reachable(s) && AllDone(s)
    ensures s.level == 2 * s.rounds && s.waitStart == 0 && s.waitEnd == 0
  {
    ReachableInv(s);
    assert forall i: nat :: i < |s.subs| ==> SubDone(s, i);
    assert Waiting(s) == {};
  }

  /** Fresh threads on the atomics that an earlier run has left. */
  function Again(s: State, rounds: nat, subs: nat): State {
    Init(rounds, subs).(level := s.level, waitStart := s.waitStart, waitEnd := s.waitEnd)
  }

  ghost predicate KeepsRounds(s: State) {
    forall acts :: Legal(s, acts) ==> NoOverlap(Exec(s, acts))
  }

  /** Main result: of the runs that start with both counters at 0 exactly those keep their rounds
      apart that start with the level at 0 as well, or have no rounds, or no sub threads. */
  lemma RoundsNeedLevelZero(rounds: nat, subs: nat, left: nat)
    ensures KeepsRounds(Init(rounds, subs).(level := left)) <==> left == 0 || rounds == 0 || subs == 0
  {
    var s := Init(rounds, subs).(level := left);
    if left == 0 {
      assert s == Init(rounds, subs);
      forall acts | Legal(s, acts) ensures NoOverlap(Exec(s, acts)) { RoundsDoNotOverlap(Exec(s, acts)); }
    } else if rounds == 0 || subs == 0 {
      forall acts | Legal(s, acts) ensures NoOverlap(Exec(s, acts)) { NobodyOverlaps(s, acts); }
    } else {
      var acts := StartsEarly(rounds, subs, left);
    }
  }

  /** Without rounds nothing happens, and the main thread alone cannot overlap with anybody. */
  lemma NobodyOverlaps(s: State, acts: seq<Action>)
    requires Legal(s, acts) && (s.rounds == 0 || s.subs == [])
    requires s == Init(s.rounds, |s.subs|).(level := s.level)
    ensures NoOverlap(Exec(s, acts))
  {
    assert s.rounds == 0 ==> forall a :: !Enabled(s, a);
    RunShape(s, acts);
  }

  /** The first sub thread enters its function while the main thread has not even called
      synchronized. */
  lemma StartsEarly(rounds: nat, subs: nat, left: nat) returns (acts: seq<Action>)
    requires rounds > 0 && subs > 0 && left > 0
    ensures var s := Init(rounds, subs).(level := left);
      Legal(s, acts) && !NoOverlap(Exec(s, acts))
  {
    var a := SubStep(0);
    var s := Init(rounds, subs).(level := left);
    var s1 := Apply(s, a);
    var s2 := Apply(s1, a);
    var s3 := Apply(s2, a);
    assert s3.subs[0] == Sub(Running, 1) && s3.main == Main(Rest, 0);
    assert Inside(s3, 1) && !NoOverlap(s3);
    assert Enabled(s, a) && Enabled(s1, a) && Enabled(s2, a);
    hide Apply, Enabled, NoOverlap;
    acts := [a, a, a];
    assert acts[1..] == [a, a] && [a, a][1..] == [a] && [a][1..] == [];
    assert Legal(s3, []) && Exec(s3, []) == s3;
    assert Exec(s2, [a]) == s3 && Legal(s2, [a]);
    assert Exec(s1, [a, a]) == s3 && Legal(s1, [a, a]);
  }

  /** Main result: after a finished run a second one with fresh threads keeps its rounds apart if and
      only if one of the two has no rounds or the second has no sub threads. */
  lemma SecondRunOverlaps(s: State, rounds: nat, subs: nat)
    requires Reachable(s) && AllDone(s)
    ensures KeepsRounds(Again(s, rounds, subs)) <==> s.rounds == 0 || rounds == 0 || subs == 0
  {
    RunLeaves(s);
    assert Again(s, rounds, subs) == Init(rounds, subs).(level := s.level);
    RoundsNeedLevelZero(rounds, subs, s.level);
  }
}
