/** What a returned 0 of erase means when others are at work: a node of that value which is on the
    chain and unmarked from before the call to its end cannot be missed. */
module ListPresence {
  import opened ListProtocol
  import opened ListInvariant
  import opened ListSteps
  import opened ListSafety

  // ---------------------------------------------------------------- ranks on the chain

  lemma NextBelow(s: State, g: Shape, i: nat)
    requires Linked(s, g.chain) && Ranked(s, g) && i + 1 < |g.chain|
    ensures Below(g, g.chain[i + 1], g.chain[i])
  {
    ChainAt(s, g.chain, i);
    NextAt(s, g, g.chain[i]);
    ChainAt(s, g.chain, i + 1);
  }

  lemma {:induction false} Descends(s: State, g: Shape, i: nat, j: nat)
    requires Linked(s, g.chain) && Ranked(s, g) && i < j < |g.chain|
    ensures Below(g, g.chain[j], g.chain[i])
    decreases j
  {
    hide Linked, Ranked;
    NextBelow(s, g, j - 1);
    if i < j - 1 { Descends(s, g, i, j - 1); }
  }

  lemma AtMost(s: State, g: Shape, x: Addr, y: Addr) returns (i: nat, j: nat)
    requires Linked(s, g.chain) && Ranked(s, g) && x in g.chain && y in g.chain
    ensures i < |g.chain| && j < |g.chain| && g.chain[i] == x && g.chain[j] == y
    ensures x in g.rank && y in g.rank && (g.rank[x] <= g.rank[y] <==> j <= i)
  {
    i :| i < |g.chain| && g.chain[i] == x;
    j :| j < |g.chain| && g.chain[j] == y;
    hide Linked;
    if i < j { Descends(s, g, i, j); } else if j < i { Descends(s, g, j, i); }
  }

  /** A node that was the last when it was unlinked ranks below all that are linked. */
  ghost predicate Settled(s: State, g: Shape) {
    forall x, y :: x in g.chain && y in g.gone && y in s.heap && s.heap[y].next.ptr == NULL ==> Below(g, y, x)
  }

  lemma GoneStaysOff(s: State, g: Shape, a: Action, y: Addr)
    requires Inv(s, g) && Enabled(s, a) && y in g.gone
    ensures y in s.heap && y in Apply(s, a).heap
    ensures Apply(s, a).heap[y].next.ptr == NULL ==> s.heap[y].next.ptr == NULL
  {
    hide Linked, Custody;
    NextAt(s, g, y);
    if a.Run? {
      PcAt(s, g, a.t);
      if s.ths[a.t].pc.Unlink? && CellOf(s, s.ths[a.t].pc.prev) == Link(s.ths[a.t].pc.curr, false) {
        var k := UnlinkFacts(s, g, a.t);
      }
    }
  }

  lemma LastNull(s: State, chain: seq<Addr>, k: nat)
    requires Linked(s, chain) && k < |chain|
    ensures chain[k] in s.heap && (s.heap[chain[k]].next.ptr == NULL <==> k + 1 == |chain|)
  {
    ChainAt(s, chain, k);
    if k + 1 < |chain| { ChainAt(s, chain, k + 1); }
  }

  lemma SettledCut(s: State, g: Shape, a: Action, k: nat, x: Addr)
    requires Inv(s, g) && Enabled(s, a) && k < |g.chain| && x in Cut(g.chain, k)
    requires g.chain[k] in s.heap && s.heap[g.chain[k]].next.mark
    requires g.chain[k] in Apply(s, a).heap && Apply(s, a).heap[g.chain[k]].next.ptr == NULL
    ensures Below(g, g.chain[k], x)
  {
    hide Apply, Enabled, Ranked, Threads, Custody;
    FrozenStep(s, g, a, g.chain[k]);
    LastNull(s, g.chain, k);
    CutDistinct(g.chain, k);
    var i :| 0 <= i < |g.chain| && g.chain[i] == x;
    Descends(s, g, i, k);
  }

  lemma SettledStep(s: State, g: Shape, a: Action, g': Shape)
    requires Inv(s, g) && Settled(s, g) && Enabled(s, a) && ChainStep(s, a, g, g')
    ensures Settled(Apply(s, a), g')
  {
    var s' := Apply(s, a);
    hide Apply, Enabled, Linked, Custody, Threads, Cut;
    forall x, y | x in g'.chain && y in g'.gone && y in s'.heap && s'.heap[y].next.ptr == NULL ensures Below(g', y, x) {
      if y in g.gone {
        GoneStaysOff(s, g, a, y);
        if k :| MarkedCut(s, g.chain, g'.chain, k) && g' == Shape(g'.chain, g.rank, g.gone + {g.chain[k]}) {
          assert Linked(s, g.chain);
          InCut(s, g.chain, k, x);
        }
      } else {
        var k :| MarkedCut(s, g.chain, g'.chain, k) && g' == Shape(g'.chain, g.rank, g.gone + {g.chain[k]});
        SettledCut(s, g, a, k, x);
      }
    }
  }

  lemma InCut(s: State, chain: seq<Addr>, k: nat, x: Addr)
    requires Linked(s, chain) && k < |chain| && x in Cut(chain, k)
    ensures x in chain
  {
  }

  lemma SettledInit(threads: nat)
    ensures Settled(Init(threads), Shape([], map[], {}))
  {
  }

  // ---------------------------------------------------------------- a call that cannot miss

  /** The node `x` of value `v` is linked and not marked. */
  ghost predicate Present(s: State, x: Addr, v: Value) {
    x in s.heap && s.heap[x].value == v && !s.heap[x].next.mark && exists chain :: Linked(s, chain) && x in chain
  }

  /** Thread `t` is in a call of erase(v) and has not passed `x`. */
  ghost predicate Ahead(s: State, g: Shape, t: nat, x: Addr, v: Value) {
    && t < |s.ths| && !s.ths[t].pc.Idle? && !Private(s.ths[t].pc) && s.ths[t].pc.op == Erase(v) && x in g.rank
    && (s.ths[t].pc.Walk? || s.ths[t].pc.TryMark? ==>
          s.ths[t].pc.curr in g.rank && g.rank[x] <= g.rank[s.ths[t].pc.curr])
  }

  lemma HeadIsHighest(s: State, g: Shape, x: Addr)
    requires Linked(s, g.chain) && Ranked(s, g) && x in g.chain
    ensures s.head != NULL && s.head in g.rank && x in g.rank && g.rank[x] <= g.rank[s.head]
  {
    var i, j := AtMost(s, g, x, g.chain[0]);
  }

  /** Where the traversal stands, the link it reads does not lead past `x`. */
  lemma NotPast(s: State, g: Shape, x: Addr, curr: Addr, v: Value)
    requires Inv(s, g) && Settled(s, g) && x in g.chain && curr in g.rank && x in g.rank && g.rank[x] <= g.rank[curr]
    requires curr in s.heap && x in s.heap && s.heap[x].value == v && !s.heap[x].next.mark
    requires s.heap[curr].value == v ==> s.heap[curr].next.mark
    ensures s.heap[curr].next.ptr != NULL
    ensures !s.heap[curr].next.mark && s.heap[curr].next.ptr != curr ==>
      s.heap[curr].next.ptr in g.rank && g.rank[x] <= g.rank[s.heap[curr].next.ptr]
  {
    hide Threads, Custody, Linked;
    if curr in g.chain {
      hide Ranked, Settled;
      var i, j := AtMost(s, g, x, curr);
      NotPastAt(s, g, i, j);
    } else {
      NextAt(s, g, curr);
      assert curr in g.gone;
      hide Ranked;
    }
  }

  lemma NotPastAt(s: State, g: Shape, i: nat, j: nat)
    requires Linked(s, g.chain) && Ranked(s, g) && j < i < |g.chain|
    ensures g.chain[j] in s.heap
    ensures var z := s.heap[g.chain[j]].next.ptr;
      z != NULL && z in g.rank && g.chain[i] in g.rank && g.rank[g.chain[i]] <= g.rank[z]
  {
    ChainAt(s, g.chain, j);
    ChainAt(s, g.chain, j + 1);
    var a, b := AtMost(s, g, g.chain[i], g.chain[j + 1]);
    hide Ranked;
    ChainDistinct(s, g.chain, a, i);
    ChainDistinct(s, g.chain, b, j + 1);
  }

  /** One step of the erase itself: it goes on without passing `x`, or returns 1. */
  lemma OwnStep(s: State, g: Shape, a: Action, x: Addr, v: Value, g': Shape)
    requires Inv(s, g) && Settled(s, g) && Enabled(s, a) && x in g.chain && Ahead(s, g, a.t, x, v)
    requires x in s.heap && s.heap[x].value == v && !s.heap[x].next.mark && ChainStep(s, a, g, g')
    ensures var th := Th(Apply(s, a), a.t);
      if th.pc.Idle? then th.last == Th(s, a.t).last + [Erased(1)] else Ahead(Apply(s, a), g', a.t, x, v) && th.last == Th(s, a.t).last
  {
    hide Linked, Ranked, Custody, Settled;
    PcAt(s, g, a.t);
    HeadIsHighest(s, g, x);
    var pc := s.ths[a.t].pc;
    if pc.Walk? {
      NextAt(s, g, pc.curr);
      if s.heap[pc.curr].value == v ==> s.heap[pc.curr].next.mark { NotPast(s, g, x, pc.curr, v); }
    }
    hide Inv, PcOk;
  }

  lemma ThreadFrame(s: State, a: Action, t: nat)
    requires t < |s.ths| && a.t != t && Enabled(s, a)
    ensures Th(Apply(s, a), t) == Th(s, t) && t < |Apply(s, a).ths|
  {
    hide NodeAt, CellOf, Restart;
  }

  lemma RankKept(s: State, a: Action, g: Shape, g': Shape, x: Addr)
    requires ChainStep(s, a, g, g') && x in g.rank
    ensures x in g'.rank && g'.rank[x] == g.rank[x]
  {
  }

  lemma AheadStep(s: State, g: Shape, a: Action, t: nat, x: Addr, v: Value, g': Shape)
    requires Inv(s, g) && Settled(s, g) && Enabled(s, a) && x in g.chain && Ahead(s, g, t, x, v)
    requires x in s.heap && s.heap[x].value == v && !s.heap[x].next.mark && ChainStep(s, a, g, g')
    ensures var th := Th(Apply(s, a), t);
      if th.pc.Idle? then th.last == Th(s, t).last + [Erased(1)] else Ahead(Apply(s, a), g', t, x, v) && th.last == Th(s, t).last
  {
    if a.t == t {
      OwnStep(s, g, a, x, v, g');
    } else {
      ThreadFrame(s, a, t);
      RankKept(s, a, g, g', x);
      var pc := s.ths[t].pc;
      if pc.Walk? || pc.TryMark? { RankKept(s, a, g, g', pc.curr); }
      hide Apply, ChainStep, Inv, Settled;
    }
  }

  /** Thread `t` stays in its call, and `x` present, until the last of the steps. */
  ghost predicate During(s: State, acts: seq<Action>, t: nat, x: Addr, v: Value)
    decreases |acts|
  {
    acts == [] || (Present(s, x, v) && !Th(s, t).pc.Idle? && During(Apply(s, acts[0]), acts[1..], t, x, v))
  }

  lemma {:induction false} DuringRun(s: State, g: Shape, acts: seq<Action>, t: nat, x: Addr, v: Value)
    requires Inv(s, g) && Settled(s, g) && Legal(s, acts) && During(s, acts, t, x, v)
    requires Ahead(s, g, t, x, v)
    ensures var th := Th(Exec(s, acts), t); th.pc.Idle? ==> th.last == Th(s, t).last + [Erased(1)]
    decreases |acts|
  {
    if acts != [] {
      var chain :| Linked(s, chain) && x in chain;
      ChainUnique(s, chain, g.chain, 0);
      var g' := StepKeepsInv(s, g, acts[0]);
      SettledStep(s, g, acts[0], g');
      AheadStep(s, g, acts[0], t, x, v, g');
      hide Apply, Inv, Enabled, Settled, Linked;
      var s' := Apply(s, acts[0]);
      if Th(s', t).pc.Idle? {
        assert acts[1..] == [];
      } else {
        DuringRun(s', g', acts[1..], t, x, v);
      }
    }
  }

  lemma {:induction false} RunSettled(s: State, g: Shape, acts: seq<Action>) returns (g': Shape)
    requires Inv(s, g) && Settled(s, g) && Legal(s, acts)
    ensures Inv(Exec(s, acts), g') && Settled(Exec(s, acts), g')
    decreases |acts|
  {
    hide Inv, Apply, Enabled, Settled;
    g' := g;
    if acts != [] {
      var g1 := StepKeepsInv(s, g, acts[0]);
      SettledStep(s, g, acts[0], g1);
      g' := RunSettled(Apply(s, acts[0]), g1, acts[1..]);
    }
  }

  lemma SettledReachable(s: State) returns (g: Shape)
    requires Reachable(s)
    ensures Inv(s, g) && Settled(s, g)
  {
    hide Apply, Inv, Legal, Exec, Settled, Init;
    var n: nat, before :| Legal(Init(n), before) && s == Exec(Init(n), before);
    InitInv(n);
    SettledInit(n);
    g := RunSettled(Init(n), Shape([], map[], {}), before);
  }

  /** Main result: if a node of value `v` is linked and unmarked from before a call of erase(v) until
      the call returns, the call returns 1, whatever other threads do and whether or not guards drop
      the marks of null links. So a returned 0 means that each node of that value which was there
      at the call was taken out in the meantime. */
  lemma PresentIsFound(s: State, acts: seq<Action>, t: nat, v: Value, x: Addr)
    requires Reachable(s) && acts != [] && acts[0] == CallErase(t, v) && Legal(s, acts)
    requires Present(s, x, v) && During(Apply(s, acts[0]), acts[1..], t, x, v)
    ensures Th(Exec(s, acts), t).pc.Idle? ==> Th(Exec(s, acts), t).last == Th(s, t).last + [Erased(1)]
  {
    hide Inv, Settled, Linked, During, Present, Enabled;
    var g := SettledReachable(s);
    OnShape(s, g, x, v);
    var s' := Apply(s, acts[0]);
    var g' := StepKeepsInv(s, g, acts[0]);
    SettledStep(s, g, acts[0], g');
    RankKept(s, acts[0], g, g', x);
    CallFrame(s, t, v);
    hide Apply, ChainStep;
    DuringRun(s', g', acts[1..], t, x, v);
  }

  lemma OnShape(s: State, g: Shape, x: Addr, v: Value)
    requires Inv(s, g) && Present(s, x, v)
    ensures x in g.chain && x in g.rank
  {
    var chain :| Linked(s, chain) && x in chain;
    ChainUnique(s, chain, g.chain, 0);
  }

  lemma CallFrame(s: State, t: nat, v: Value)
    requires Enabled(s, CallErase(t, v))
    ensures Th(Apply(s, CallErase(t, v)), t) == Thread(Begin(Erase(v)), Th(s, t).last)
    ensures t < |Apply(s, CallErase(t, v)).ths|
  {
  }
}
