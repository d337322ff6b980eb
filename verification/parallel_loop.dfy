/** execute_parallel and execute_blockwise_parallel: any number of threads share one counter from
    which they draw blocks of indices. */
module ParallelLoop {
  import opened Arithmetic

  const BLOCK: nat := 4096

  /** Where the j-th block begins. */
  function Begin(j: nat): nat {
    j * 4096
  }

  /** Where a thread is: about to draw a block, inside its block [next, end), or back. */
  datatype Worker = Draw | Body(next: nat, end: nat) | Done

  /** The arguments of one call f(c_s, c_e). */
  datatype Block = Block(begin: nat, end: nat)

  /** `calls` counts the calls f(i), `blocks` lists the calls f(c_s, c_e) of the blockwise form. */
  datatype State = State(e: nat, counter: nat, workers: seq<Worker>, calls: multiset<nat>, blocks: seq<Block>)

  function Init(e: nat, threads: nat): State {
    State(e, 0, seq(threads, _ => Draw), multiset{}, [])
  }

  predicate Enabled(s: State, t: nat) {
    t < |s.workers| && !s.workers[t].Done?
  }

  function Min(a: nat, b: nat): nat {
    if a <= b then a else b
  }

  /** One step of thread `t`: a fetch_add with the test of the loop, or one call. */
  function Apply(s: State, t: nat): State
    requires t < |s.workers|
  {
    match s.workers[t]
    case Draw =>
      var begin := s.counter;
      var s' := s.(counter := (s.counter + BLOCK) % WORD);
      if begin < s.e
      then var end := Min(begin + BLOCK, s.e);
        s'.(workers := s.workers[t := Body(begin, end)], blocks := s.blocks + [Block(begin, end)])
      else s'.(workers := s.workers[t := Done])
    case Body(next, end) =>
      s.(calls := s.calls + multiset{next}, workers := s.workers[t := if next + 1 < end then Body(next + 1, end) else Draw])
    case Done => s
  }

  predicate Legal(s: State, acts: seq<nat>)
    decreases |acts|
  {
    acts == [] || (Enabled(s, acts[0]) && Legal(Apply(s, acts[0]), acts[1..]))
  }

  function Exec(s: State, acts: seq<nat>): State
    requires Legal(s, acts)
    decreases |acts|
  {
    if acts == [] then s else Exec(Apply(s, acts[0]), acts[1..])
  }

  /** The counter must not wrap around: every thread may add one block beyond the last. */
  predicate NoWrap(e: nat, threads: nat) {
    e + BLOCK + Begin(threads) < WORD
  }

  ghost predicate Reachable(s: State) {
    exists e: nat, threads: nat, acts ::
      NoWrap(e, threads) && Legal(Init(e, threads), acts) && s == Exec(Init(e, threads), acts)
  }

  // ---------------------------------------------------------------- invariant

  /** The threads that have `x` in the rest of their block. */
  function Owners(s: State, x: nat): set<nat> {
    set t: nat | t < |s.workers| && s.workers[t].Body? && s.workers[t].next <= x < s.workers[t].end
  }

  function Returned(s: State): set<nat> {
    set t: nat | t < |s.workers| && s.workers[t].Done?
  }

  ghost predicate BlockOk(s: State, j: nat)
    requires j < |s.blocks|
  {
    s.blocks[j] == Block(Begin(j), Min(Begin(j + 1), s.e)) && Begin(j) < s.e
  }

  /** Each index that was given out is called or still ahead of exactly one thread. */
  ghost predicate OnceOk(s: State, x: nat) {
    |Owners(s, x)| + s.calls[x] == if x < Min(s.counter, s.e) then 1 else 0
  }

  ghost predicate BodyOk(s: State, w: Worker) {
    w.Body? ==> w.next < w.end <= Min(s.counter, s.e)
  }

  ghost predicate BlocksOk(s: State) {
    && (forall j: nat :: j < |s.blocks| ==> BlockOk(s, j))
    && s.counter == Begin(|s.blocks| + |Returned(s)|)
    && (Returned(s) != {} ==> s.e <= Begin(|s.blocks|))
  }

  ghost predicate Inv(s: State) {
    && NoWrap(s.e, |s.workers|) && BlocksOk(s)
    && (forall t: nat :: t < |s.workers| ==> BodyOk(s, s.workers[t]))
    && (forall x: nat :: OnceOk(s, x))
  }

  lemma InitInv(e: nat, threads: nat)
    requires NoWrap(e, threads)
    ensures Inv(Init(e, threads))
  {
    var s := Init(e, threads);
    assert Returned(s) == {};
    forall x: nat ensures OnceOk(s, x) { assert Owners(s, x) == {}; }
  }

  // ---------------------------------------------------------------- steps

  function Below(n: nat): (all: set<nat>)
    ensures |all| == n && forall i: nat :: i in all <==> i < n
  {
    if n == 0 then {} else Below(n - 1) + {n - 1}
  }

  lemma SomeoneIsOut(s: State, t: nat)
    requires t < |s.workers| && !s.workers[t].Done?
    ensures |Returned(s)| < |s.workers|
  {
    var all := Below(|s.workers|);
    assert Returned(s) + {t} <= all;
    assert all == (Returned(s) + {t}) + (all - (Returned(s) + {t}));
  }

  lemma CounterFits(s: State, t: nat)
    requires Inv(s) && Enabled(s, t)
    ensures s.counter + BLOCK < WORD
    ensures s.counter < s.e ==> Returned(s) == {}
  {
    SomeoneIsOut(s, t);
    if |s.blocks| > 0 { assert BlockOk(s, |s.blocks| - 1); }
  }

  lemma DrawOnce(s: State, t: nat, x: nat)
    requires OnceOk(s, x) && Enabled(s, t) && s.workers[t].Draw? && s.counter + BLOCK < WORD
    ensures OnceOk(Apply(s, t), x)
  {
    var s', begin := Apply(s, t), s.counter;
    assert Owners(s', x) == Owners(s, x) + if begin <= x < Min(begin + BLOCK, s.e) then {t} else {};
  }

  lemma CallOnce(s: State, t: nat, x: nat)
    requires OnceOk(s, x) && Enabled(s, t) && s.workers[t].Body? && BodyOk(s, s.workers[t])
    ensures OnceOk(Apply(s, t), x)
  {
    var s', next := Apply(s, t), s.workers[t].next;
    assert t in Owners(s, next);
    assert Owners(s', x) == Owners(s, x) - if x == next then {t} else {};
  }

  lemma DrawReturned(s: State, t: nat)
    requires Enabled(s, t) && s.workers[t].Draw?
    ensures |Returned(Apply(s, t))| == |Returned(s)| + if s.counter < s.e then 0 else 1
  {
    var s' := Apply(s, t);
    assert Returned(s') == Returned(s) + if s.counter < s.e then {} else {t};
  }

  lemma DrawBlocks(s: State, t: nat)
    requires BlocksOk(s) && Enabled(s, t) && s.workers[t].Draw? && s.counter + BLOCK < WORD
    requires s.counter < s.e ==> Returned(s) == {}
    ensures BlocksOk(Apply(s, t))
  {
    var s' := Apply(s, t);
    DrawReturned(s, t);
    hide Returned;
    forall j: nat | j < |s'.blocks| ensures BlockOk(s', j) {
      if j < |s.blocks| { assert BlockOk(s, j); }
    }
  }

  lemma StepDraw(s: State, t: nat)
    requires Inv(s) && Enabled(s, t) && s.workers[t].Draw?
    ensures Inv(Apply(s, t))
  {
    var s' := Apply(s, t);
    CounterFits(s, t);
    DrawBlocks(s, t);
    hide OnceOk, BlocksOk;
    forall x: nat ensures OnceOk(s', x) { DrawOnce(s, t, x); }
    forall r: nat | r < |s'.workers| ensures BodyOk(s', s'.workers[r]) {
      assert BodyOk(s, s.workers[r]);
    }
  }

  lemma StepCall(s: State, t: nat)
    requires Inv(s) && Enabled(s, t) && s.workers[t].Body?
    ensures Inv(Apply(s, t))
  {
    var s' := Apply(s, t);
    assert Returned(s') == Returned(s);
    assert BlocksOk(s') by { forall j: nat | j < |s'.blocks| ensures BlockOk(s', j) { assert BlockOk(s, j); } }
    hide OnceOk, BlocksOk;
    forall x: nat ensures OnceOk(s', x) { CallOnce(s, t, x); }
    forall r: nat | r < |s'.workers| ensures BodyOk(s', s'.workers[r]) {
      assert BodyOk(s, s.workers[r]);
    }
  }

  lemma StepKeepsInv(s: State, t: nat)
    requires Inv(s) && Enabled(s, t)
    ensures Inv(Apply(s, t))
  {
    match s.workers[t]
    case Draw => StepDraw(s, t);
    case Body(_, _) => StepCall(s, t);
  }

  lemma {:induction false} RunInv(s: State, acts: seq<nat>)
    requires Inv(s) && Legal(s, acts)
    ensures Inv(Exec(s, acts)) && |Exec(s, acts).workers| == |s.workers|
    decreases |acts|
  {
    hide Inv;
    if acts != [] {
      StepKeepsInv(s, acts[0]);
      RunInv(Apply(s, acts[0]), acts[1..]);
    }
  }

  lemma ReachableInv(s: State)
    requires Reachable(s)
    ensures Inv(s)
  {
    hide Inv, Apply;
    var e: nat, threads: nat, acts :|
      NoWrap(e, threads) && Legal(Init(e, threads), acts) && s == Exec(Init(e, threads), acts);
    InitInv(e, threads);
    RunInv(Init(e, threads), acts);
  }

  // ---------------------------------------------------------------- main results

  predicate AllReturned(s: State) {
    |s.workers| > 0 && forall t: nat :: t < |s.workers| ==> s.workers[t].Done?
  }

  /** Main result: no index is ever called twice, and when all threads have returned every index
      below `e` was called exactly once and no other was. */
  lemma EachIndexOnce(s: State, x: nat)
    requires Reachable(s)
    ensures s.calls[x] <= 1 && (s.calls[x] == 1 ==> x < s.e)
    ensures AllReturned(s) ==> s.calls[x] == if x < s.e then 1 else 0
  {
    ReachableInv(s);
    assert OnceOk(s, x);
    if AllReturned(s) {
      assert s.workers[0].Done?;
      assert 0 in Returned(s);
      assert Owners(s, x) == {};
    }
  }

  /** Main result: the blocks given out follow one another from 0 without gap or overlap, and when
      all threads have returned they end at `e`: they partition [0, e), with 4096 indices each but for the last. */
  lemma BlocksPartition(s: State)
    requires Reachable(s)
    ensures |s.blocks| > 0 ==> s.blocks[0].begin == 0
    ensures forall j: nat :: j < |s.blocks| ==> s.blocks[j].begin < s.blocks[j].end <= s.e
    ensures forall j: nat :: j < |s.blocks| ==> s.blocks[j].end == s.blocks[j].begin + 4096 || s.blocks[j].end == s.e
    ensures forall i: nat, j: nat :: i + 1 == j < |s.blocks| ==> s.blocks[i].end == s.blocks[j].begin
    ensures AllReturned(s) ==> if s.e == 0 then s.blocks == [] else |s.blocks| > 0 && s.blocks[|s.blocks| - 1].end == s.e
  {
    ReachableInv(s);
    forall j: nat | j < |s.blocks|
      ensures s.blocks[j].begin < s.blocks[j].end <= s.e
      ensures s.blocks[j].end == s.blocks[j].begin + 4096 || s.blocks[j].end == s.e
    {
      assert BlockOk(s, j);
    }
    forall i: nat, j: nat | i + 1 == j < |s.blocks| ensures s.blocks[i].end == s.blocks[j].begin {
      assert BlockOk(s, i) && BlockOk(s, j);
    }
    if |s.blocks| > 0 { assert BlockOk(s, 0); }
    if AllReturned(s) { AllGivenOut(s); }
  }

  lemma AllGivenOut(s: State)
    requires Inv(s) && AllReturned(s)
    ensures s.e <= Begin(|s.blocks|)
    ensures |s.blocks| > 0 ==> BlockOk(s, |s.blocks| - 1)
  {
    assert s.workers[0].Done?;
    assert 0 in Returned(s);
  }

  /** The counter never wraps around. */
  lemma CounterNeverWraps(s: State, t: nat)
    requires Reachable(s) && Enabled(s, t)
    ensures s.counter <= Apply(s, t).counter
  {
    ReachableInv(s);
    CounterFits(s, t);
  }

  // ---------------------------------------------------------------- runs end

  /** Every step is a call, or gives a block out, or sends a thread back. */
  lemma StepCounts(s: State, t: nat)
    requires Inv(s) && Enabled(s, t)
    ensures var s' := Apply(s, t);
      |s'.calls| + |s'.blocks| + |Returned(s')| == |s.calls| + |s.blocks| + |Returned(s)| + 1
  {
    hide Inv;
    if s.workers[t].Draw? {
      DrawReturned(s, t);
      hide Returned;
    } else {
      assert Returned(Apply(s, t)) == Returned(s);
    }
  }

  lemma {:induction false} RunCounts(s: State, acts: seq<nat>)
    requires Inv(s) && Legal(s, acts)
    ensures var s' := Exec(s, acts);
      |s'.calls| + |s'.blocks| + |Returned(s')| == |s.calls| + |s.blocks| + |Returned(s)| + |acts|
    decreases |acts|
  {
    hide Inv, Apply, Returned;
    if acts != [] {
      StepCounts(s, acts[0]);
      StepKeepsInv(s, acts[0]);
      RunCounts(Apply(s, acts[0]), acts[1..]);
    }
  }

  lemma {:induction false} FewCalls(calls: multiset<nat>, e: nat)
    requires forall x: nat :: calls[x] <= if x < e then 1 else 0
    ensures |calls| <= e
  {
    if e == 0 {
      assert calls == multiset{};
    } else {
      var x := e - 1;
      var rest := calls[x := 0];
      FewCalls(rest, e - 1);
      assert calls == rest + if calls[x] == 1 then multiset{x} else multiset{};
    }
  }

  /** Main result: a run has at most one step for each index, each block and each thread. As every
      thread that is not back can take a step, every run ends with all threads back. */
  lemma RunsEnd(e: nat, threads: nat, acts: seq<nat>)
    requires NoWrap(e, threads) && Legal(Init(e, threads), acts)
    ensures |acts| <= 2 * e + threads
  {
    var s, s' := Init(e, threads), Exec(Init(e, threads), acts);
    InitInv(e, threads);
    RunInv(s, acts);
    RunCounts(s, acts);
    assert Returned(s) == {};
    SameLimit(s, acts);
    forall x: nat ensures s'.calls[x] <= if x < e then 1 else 0 { assert OnceOk(s', x); }
    FewCalls(s'.calls, e);
    FewBlocks(s');
    var all := Below(threads);
    assert Returned(s') <= all;
    assert all == Returned(s') + (all - Returned(s'));
  }

  lemma FewBlocks(s: State)
    requires BlocksOk(s)
    ensures |s.blocks| <= s.e
  {
    if |s.blocks| > 0 { assert BlockOk(s, |s.blocks| - 1); }
  }

  lemma {:induction false} SameLimit(s: State, acts: seq<nat>)
    requires Legal(s, acts)
    ensures Exec(s, acts).e == s.e
    decreases |acts|
  {
    if acts != [] { SameLimit(Apply(s, acts[0]), acts[1..]); }
  }

  // ---------------------------------------------------------------- one thread alone

  /** The indices from `a` up to `b`. */
  function Range(a: nat, b: nat): (r: seq<nat>)
    ensures |r| == if a <= b then b - a else 0
    ensures forall k :: 0 <= k < |r| ==> r[k] == a + k
    decreases if a <= b then b - a else 0
  {
    if a >= b then [] else [a] + Range(a + 1, b)
  }

  function Indices(blocks: seq<Block>): seq<nat> {
    if blocks == [] then []
    else Indices(blocks[..|blocks| - 1]) + Range(blocks[|blocks| - 1].begin, blocks[|blocks| - 1].end)
  }

  lemma NoBlocks(start: nat, e: nat)
    ensures Indices([]) == [] == Range(start, start) && (e <= start ==> Range(start, e) == [])
  {
  }

  lemma OneMore(blocks: seq<Block>, cs: nat, ce: nat, start: nat)
    requires start <= cs <= ce && Indices(blocks) == Range(start, cs)
    ensures Indices(blocks + [Block(cs, ce)]) == Range(start, ce)
  {
    var more := blocks + [Block(cs, ce)];
    assert more[..|more| - 1] == blocks;
    assert Range(start, cs) + Range(cs, ce) == Range(start, ce);
  }

  /** The shared std::atomic_size_t. */
  class Counter {
    var value: nat

    constructor (v: nat)
      ensures value == v
    {
      value := v;
    }

    method FetchAdd(n: nat) returns (was: nat)
      modifies this
      ensures was == old(value) && value == (old(value) + n) % WORD
    {
      was := value;
      value := (value + n) % WORD;
    }
  }

  /** execute_parallel by one thread: f is called for what is left of [0, e), in order. */
  method ExecuteParallel(counter: Counter, e: nat) returns (calls: seq<nat>)
    requires counter.value + 2 * BLOCK < WORD && e + 2 * BLOCK < WORD
    modifies counter
    ensures calls == Range(old(counter.value), e) && e <= counter.value
  {
    calls := [];
    ghost var start := counter.value;
    var cs := counter.FetchAdd(BLOCK);
    while cs < e
      invariant counter.value == cs + BLOCK && (cs < e + BLOCK || cs == start)
      invariant calls == Range(start, if cs <= e then cs else e) && start <= cs
    {
      var ce := Min(cs + BLOCK, e);
      for i := cs to ce
        invariant calls == Range(start, i) && counter.value == cs + BLOCK
      {
        calls := calls + [i];
        assert calls == Range(start, i + 1);
      }
      cs := counter.FetchAdd(BLOCK);
    }
  }

  /** execute_blockwise_parallel by one thread: the blocks together are the same indices. */
  method ExecuteBlockwiseParallel(counter: Counter, e: nat) returns (blocks: seq<Block>)
    requires counter.value + 2 * BLOCK < WORD && e + 2 * BLOCK < WORD
    modifies counter
    ensures Indices(blocks) == Range(old(counter.value), e) && e <= counter.value
    ensures forall k :: 0 <= k < |blocks| ==> blocks[k].begin < blocks[k].end <= blocks[k].begin + BLOCK
  {
    hide Range, Indices;
    blocks := [];
    NoBlocks(counter.value, e);
    ghost var start := counter.value;
    var cs := counter.FetchAdd(BLOCK);
    while cs < e
      invariant counter.value == cs + BLOCK && (cs < e + BLOCK || cs == start)
      invariant Indices(blocks) == Range(start, if cs <= e then cs else e) && start <= cs
      invariant forall k :: 0 <= k < |blocks| ==> blocks[k].begin < blocks[k].end <= blocks[k].begin + BLOCK
    {
      var ce := Min(cs + BLOCK, e);
      OneMore(blocks, cs, ce, start);
      blocks := blocks + [Block(cs, ce)];
      cs := counter.FetchAdd(BLOCK);
    }
  }
}
