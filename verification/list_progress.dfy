/** Every operation of the list, interrupted anywhere in any interleaving, ends once its thread runs
    alone; a push has then put its value in front. */
module ListProgress {
  import opened ListProtocol
  import opened ListInvariant
  import opened ListSteps
  import opened ListSafety
  import opened ListAlone
  import opened ListPresence
  import opened ListDropping

  // ---------------------------------------------------------------- push

  /** The state after thread `t` has put its node in front of the list as it is now. */
  function Fronted(s: State, t: nat): State
    requires t < |s.ths| && Private(s.ths[t].pc)
  {
    var item := s.ths[t].pc.item;
    Return(SetNext(s, item, Link(s.head, false)).(head := item), t, Pushed)
  }

  lemma CasAtOnce(s: State, t: nat, drops: bool, item: Addr)
    requires t < |s.ths| && s.ths[t].pc == PushCas(item, s.head) && item in s.heap
    requires s.heap[item].next == Link(s.head, false)
    ensures Steps(s, t, drops, 1) == Fronted(s, t)
  {
    OneStep(s, t, drops, 0);
    assert s.heap[item := s.heap[item].(next := Link(s.head, false))] == s.heap;
  }

  lemma StoreAndCas(s: State, t: nat, drops: bool, item: Addr)
    requires t < |s.ths| && s.ths[t].pc == PushStore(item, s.head) && item in s.heap
    ensures Steps(s, t, drops, 2) == Fronted(s, t)
  {
    var s1 := Go(SetNext(s, item, Link(s.head, false)), t, PushCas(item, s.head));
    assert Apply(s, Next(s, t, drops)) == s1;
    CasAtOnce(s1, t, drops, item);
    assert Fronted(s1, t) == Fronted(s, t);
    hide Apply, Next, Fronted;
    OneStep(s, t, drops, 1);
  }

  /** However old the head that a push has read, it has put its node in front after at most four
      steps of its own. */
  lemma PushSteps(s: State, t: nat, drops: bool) returns (k: nat)
    requires t < |s.ths| && Private(s.ths[t].pc) && s.ths[t].pc.item in s.heap
    requires s.ths[t].pc.PushCas? ==> s.heap[s.ths[t].pc.item].next == Link(s.ths[t].pc.temp, false)
    ensures k <= 4 && Steps(s, t, drops, k) == Fronted(s, t)
  {
    var item, temp := s.ths[t].pc.item, s.ths[t].pc.temp;
    if s.ths[t].pc.PushStore? {
      if temp == s.head {
        k := 2;
        StoreAndCas(s, t, drops, item);
      } else {
        k := 4;
        var s1 := Go(SetNext(s, item, Link(temp, false)), t, PushCas(item, temp));
        assert Apply(s, Next(s, t, drops)) == s1;
        CasFails(s1, t, drops, item, temp);
        assert Fronted(s1, t) == Fronted(s, t);
        hide Apply, Next, Fronted;
        OneStep(s, t, drops, 3);
      }
    } else if temp == s.head {
      k := 1;
      CasAtOnce(s, t, drops, item);
    } else {
      k := 3;
      CasFails(s, t, drops, item, temp);
    }
  }

  lemma CasFails(s: State, t: nat, drops: bool, item: Addr, temp: Addr)
    requires t < |s.ths| && s.ths[t].pc == PushCas(item, temp) && temp != s.head && item in s.heap
    ensures Steps(s, t, drops, 3) == Fronted(s, t)
  {
    var s1 := Go(s, t, PushStore(item, s.head));
    assert Apply(s, Next(s, t, drops)) == s1;
    StoreAndCas(s1, t, drops, item);
    assert Fronted(s1, t) == Fronted(s, t);
    hide Apply, Next, Fronted;
    OneStep(s, t, drops, 2);
  }

  lemma PushFacts(s: State, g: Shape, t: nat)
    requires Inv(s, g) && t < |s.ths| && Private(s.ths[t].pc)
    ensures var pc := s.ths[t].pc;
      && pc.item in s.heap && pc.item !in g.chain && pc.item != NULL
      && (pc.PushCas? ==> s.heap[pc.item].next == Link(pc.temp, false))
  {
    hide Linked, Custody;
    PcAt(s, g, t);
  }

  lemma FrontedLive(s: State, chain: seq<Addr>, t: nat)
    requires Linked(s, chain) && t < |s.ths| && Private(s.ths[t].pc)
    requires var item := s.ths[t].pc.item; item in s.heap && item !in chain && item != NULL
    ensures var item := s.ths[t].pc.item;
      Linked(Fronted(s, t), [item] + chain)
      && Live(Fronted(s, t).heap, [item] + chain) == [s.heap[item].value] + Live(s.heap, chain)
  {
    var item, s' := s.ths[t].pc.item, Fronted(s, t);
    var s1 := SetNext(s, item, Link(s.head, false));
    OffChain(s, s1, chain, item);
    PushedChain(s1, s'.(ths := s.ths), chain, item);
    assert Agree(s.heap, s'.heap, chain);
    LiveAgrees(s.heap, s'.heap, chain);
    assert ([item] + chain)[1..] == chain;
  }

  /** Main result: from every reachable state in which thread `t` is inside a push, however stale the
      head it has read, `t` alone ends within four steps, and the values are then the old ones with
      its own in front. */
  lemma PushEnds(s: State, chain: seq<Addr>, t: nat, drops: bool) returns (k: nat)
    requires Reachable(s) && Linked(s, chain) && t < |s.ths| && Private(s.ths[t].pc)
    ensures var item, s' := s.ths[t].pc.item, Steps(s, t, drops, k);
      && k <= 4 && item in s.heap && s'.ths == s.ths[t := Thread(Idle, s.ths[t].last + [Pushed])]
      && Linked(s', [item] + chain)
      && Live(s'.heap, [item] + chain) == [s.heap[item].value] + Live(s.heap, chain)
  {
    var g := ReachableInv(s);
    ChainUnique(s, chain, g.chain, 0);
    PushFacts(s, g, t);
    hide Inv, Live, Steps;
    k := PushSteps(s, t, drops);
    FrontedLive(s, chain, t);
  }

  /** The same for a whole call of push(v). */
  lemma PushCallEnds(s: State, chain: seq<Addr>, t: nat, item: Addr, v: Value, drops: bool) returns (k: nat)
    requires Linked(s, chain) && Enabled(s, CallPush(t, item, v))
    ensures var s' := Steps(Apply(s, CallPush(t, item, v)), t, drops, k);
      && k <= 4 && s'.ths == s.ths[t := Thread(Idle, s.ths[t].last + [Pushed])]
      && Linked(s', [item] + chain) && Live(s'.heap, [item] + chain) == [v] + Live(s.heap, chain)
  {
    var s1 := Apply(s, CallPush(t, item, v));
    forall i | 0 <= i < |chain| ensures chain[i] in s.heap && chain[i] != item { ChainAt(s, chain, i); }
    assert Linked(s1, chain);
    assert Agree(s.heap, s1.heap, chain);
    LiveAgrees(s.heap, s1.heap, chain);
    k := PushSteps(s1, t, drops);
    FrontedLive(s1, chain, t);
  }

  // ---------------------------------------------------------------- erase and size

  /** The thread is somewhere on the way, at a node that was linked once. */
  predicate Travels(pc: Pc) {
    pc.Walk? || pc.TryMark? || pc.Unlink? || pc.SelfLink? || pc.Retire? || pc.ReNext?
  }

  predicate Restarts(pc: Pc) {
    (pc.Begin? && pc.op.Erase?) || (pc.Enter? && pc.op == Size(1))
  }

  function RankOf(g: Shape, x: Addr): nat {
    if x in g.rank then g.rank[x] else 0
  }

  /** How many more steps are taken at the same node. */
  function StepsHere(pc: Pc): nat {
    match pc
    case TryMark(_, _, _, _) => 5
    case Walk(_, _, _) => 4
    case ReNext(_, _, _) => 3
    case Unlink(_, _, _, _) => 2
    case SelfLink(_, _, _, _) => 1
    case _ => 0
  }

  /** Further down the ranks, or further on at the same node. */
  ghost predicate Nearer(g: Shape, pc: Pc, pc': Pc)
    requires Travels(pc) && Travels(pc')
  {
    || RankOf(g, pc'.curr) < RankOf(g, pc.curr)
    || (RankOf(g, pc'.curr) == RankOf(g, pc.curr) && StepsHere(pc') < StepsHere(pc))
  }

  /** About to find an unmarked node of erase's own value. */
  predicate Matches(s: State, pc: Pc) {
    && pc.Walk? && pc.op.Erase? && pc.curr in s.heap
    && !s.heap[pc.curr].next.mark && s.heap[pc.curr].value == pc.op.v
  }

  lemma TravelPc(s: State, g: Shape, t: nat)
    requires t < |s.ths| && Travels(s.ths[t].pc) && !Matches(s, s.ths[t].pc) && PcOk(s, g, s.ths[t].pc)
    requires s.ths[t].pc.curr in g.rank && s.ths[t].pc.curr in s.heap && NextOk(s, g, s.ths[t].pc.curr)
    ensures t < |RunStep(s, t).ths|
    ensures var pc := Th(RunStep(s, t), t).pc;
      || pc.Idle? || (Restarts(pc) && pc == Restart(pc.op))
      || (Travels(pc) && pc.curr in g.rank && Nearer(g, s.ths[t].pc, pc))
  {
  }

  /** One step of the way: it ends, or starts over, or has less before it. */
  lemma TravelStep(s: State, g: Shape, t: nat) returns (g': Shape)
    requires At(s, g, t) && Travels(s.ths[t].pc) && !Matches(s, s.ths[t].pc)
    ensures Inv(RunStep(s, t), g') && t < |RunStep(s, t).ths|
    ensures var pc := Th(RunStep(s, t), t).pc;
      || pc.Idle? || (Restarts(pc) && pc == Restart(pc.op))
      || (Travels(pc) && Nearer(g, s.ths[t].pc, pc) && RankOf(g', pc.curr) == RankOf(g, pc.curr))
  {
    hide RunStep, Linked, Ranked, Custody, ChainStep, NextOk;
    g' := RunKeepsInv(s, g, t);
    PcAt(s, g, t);
    var curr := s.ths[t].pc.curr;
    assert curr in g.rank;
    NextAt(s, g, curr);
    TravelPc(s, g, t);
    hide PcOk, Inv;
    var pc := Th(RunStep(s, t), t).pc;
    if Travels(pc) && pc.curr in g.rank { RankKept(s, Run(t), g, g', pc.curr); }
  }

  lemma FromRestartEnds(s: State, chain: seq<Addr>, t: nat) returns (k: nat)
    requires Linked(s, chain) && t < |s.ths| && Restarts(s.ths[t].pc)
    ensures Th(Steps(s, t, false, k), t).pc.Idle?
  {
    var chain';
    k, chain' := FromRestart(s, chain, t, s.ths[t].pc.op, false);
  }

  lemma RunNext(s: State, t: nat, k: nat)
    ensures Steps(s, t, false, 1 + k) == Steps(RunStep(s, t), t, false, k)
  {
    OneStep(s, t, false, k);
  }

  lemma {:induction false} TravelEnds(s: State, g: Shape, t: nat) returns (k: nat)
    requires At(s, g, t) && Travels(s.ths[t].pc)
    ensures Th(Steps(s, t, false, k), t).pc.Idle?
    decreases RankOf(g, s.ths[t].pc.curr), StepsHere(s.ths[t].pc)
  {
    hide Apply, Next, RunStep, Steps, Linked, Ranked, Custody, Threads, PcOk;
    if Matches(s, s.ths[t].pc) {
      k := 2;
      MatchSteps(s, t, s.ths[t].pc.op, false);
    } else {
      var g' := TravelStep(s, g, t);
      var s' := RunStep(s, t);
      k := 0;
      if s'.ths[t].pc.Idle? {
        NoSteps(s', t, false);
      } else if Restarts(s'.ths[t].pc) {
        k := FromRestartEnds(s', g'.chain, t);
      } else {
        k := TravelEnds(s', g', t);
      }
      RunNext(s, t, k);
      k := 1 + k;
    }
  }

  lemma HeadPc(s: State, t: nat)
    requires t < |s.ths| && (s.ths[t].pc.Begin? || s.ths[t].pc.Enter?)
    ensures t < |RunStep(s, t).ths|
    ensures var pc := RunStep(s, t).ths[t].pc;
      pc.Idle? || if s.ths[t].pc.Begin? then pc.Enter? else Restarts(pc) || Travels(pc)
  {
  }

  /** About to look at _head. */
  lemma HeadEnds(s: State, g: Shape, t: nat) returns (k: nat)
    requires At(s, g, t) && (s.ths[t].pc.Begin? || s.ths[t].pc.Enter?)
    ensures Th(Steps(s, t, false, k), t).pc.Idle?
    decreases if s.ths[t].pc.Begin? then 1 else 0
  {
    hide Steps, RunStep, Linked, Ranked, Custody, Threads;
    StepHead(s, g, t);
    HeadPc(s, t);
    var s' := RunStep(s, t);
    var pc := s'.ths[t].pc;
    k := 0;
    if pc.Idle? {
      NoSteps(s', t, false);
    } else if s.ths[t].pc.Begin? {
      k := HeadEnds(s', g, t);
    } else if Restarts(pc) {
      k := FromRestartEnds(s', g.chain, t);
    } else {
      k := TravelEnds(s', g, t);
    }
    RunNext(s, t, k);
    k := 1 + k;
  }

  /** Main result: whatever the others have done and wherever thread `t` has been interrupted, its
      operation ends once it runs alone, if its guards show it the marks of null links. */
  lemma AlwaysEnds(s: State, t: nat)
    requires Reachable(s) && t < |s.ths|
    ensures Ends(s, t, false)
  {
    var g := ReachableInv(s);
    hide Inv, Steps, Fronted;
    var pc, k := s.ths[t].pc, 0;
    if pc.Idle? {
      NoSteps(s, t, false);
    } else if Private(pc) {
      PushFacts(s, g, t);
      k := PushEnds(s, g.chain, t, false) by { InvLinked(s, g); }
    } else if pc.Begin? || pc.Enter? {
      k := HeadEnds(s, g, t);
    } else {
      k := TravelEnds(s, g, t);
    }
    assert Th(Steps(s, t, false, k), t).pc.Idle?;
  }

  lemma InvLinked(s: State, g: Shape)
    requires Inv(s, g)
    ensures Linked(s, g.chain)
  {
  }
}
