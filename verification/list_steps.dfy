/** Every step of the list operations keeps the invariant. */
module ListSteps {
  import opened ListProtocol
  import opened ListInvariant

  ghost predicate At(s: State, g: Shape, t: nat) {
    Inv(s, g) && t < |s.ths| && !s.ths[t].pc.Idle?
  }

  lemma PcAt(s: State, g: Shape, t: nat)
    requires Threads(s, g) && t < |s.ths|
    ensures PcOk(s, g, s.ths[t].pc)
  {
  }

  lemma NextAt(s: State, g: Shape, x: Addr)
    requires Ranked(s, g) && x in g.rank
    ensures x in s.heap && NextOk(s, g, x) && x != NULL
  {
  }

  // ---------------------------------------------------------------- reading steps

  lemma StepHead(s: State, g: Shape, t: nat)
    requires At(s, g, t) && (s.ths[t].pc.Begin? || s.ths[t].pc.Enter?)
    ensures Inv(RunStep(s, t), g)
  {
    HeadRanked(s, g);
    hide Inv;
    GoFrame(s, g, t, RunStep(s, t).ths[t]);
  }

  lemma HeadRanked(s: State, g: Shape)
    requires Linked(s, g.chain) && Ranked(s, g)
    ensures s.head == NULL || s.head in g.rank
  {
  }

  lemma StepWalk(s: State, g: Shape, t: nat)
    requires At(s, g, t) && s.ths[t].pc.Walk?
    ensures Inv(RunStep(s, t), g)
  {
    hide Linked, Ranked, Threads, Custody;
    PcAt(s, g, t);
    NextAt(s, g, s.ths[t].pc.curr);
    hide Inv;
    GoFrame(s, g, t, RunStep(s, t).ths[t]);
  }

  lemma StepReNext(s: State, g: Shape, t: nat)
    requires At(s, g, t) && s.ths[t].pc.ReNext?
    ensures Inv(RunStep(s, t), g)
  {
    hide Linked, Ranked, Threads, Custody;
    PcAt(s, g, t);
    NextAt(s, g, s.ths[t].pc.curr);
    hide Inv;
    GoFrame(s, g, t, RunStep(s, t).ths[t]);
  }

  lemma StepDrop(s: State, g: Shape, t: nat)
    requires At(s, g, t) && Guards(s.ths[t].pc)
    ensures Inv(DropStep(s, t), g)
  {
    hide Linked, Ranked, Threads, Custody;
    PcAt(s, g, t);
    NextAt(s, g, s.ths[t].pc.curr);
    hide Inv;
    GoFrame(s, g, t, DropStep(s, t).ths[t]);
  }

  lemma StepMiss(s: State, g: Shape, t: nat)
    requires At(s, g, t)
    requires || (s.ths[t].pc.TryMark? && NodeAt(s, s.ths[t].pc.curr).next != s.ths[t].pc.next)
             || (s.ths[t].pc.Unlink? && CellOf(s, s.ths[t].pc.prev) != Link(s.ths[t].pc.curr, false))
    ensures Inv(RunStep(s, t), g)
  {
    hide Linked, Ranked, Threads, Custody;
    PcAt(s, g, t);
    hide Inv;
    GoFrame(s, g, t, RunStep(s, t).ths[t]);
  }

  // ---------------------------------------------------------------- the mark

  lemma MarkLinked(s: State, s': State, g: Shape, x: Addr, l: Link)
    requires Linked(s, g.chain) && Ranked(s, g) && x in g.rank && s.heap[x].next == Link(l.ptr, false) && l.mark
    requires s'.heap == s.heap[x := s.heap[x].(next := l)] && s'.head == s.head
    ensures Linked(s', g.chain) && Ranked(s', g)
  {
    forall y | y in g.rank ensures y in s'.heap && NextOk(s', g, y) { assert NextOk(s, g, y); }
  }

  lemma MarkPc(s: State, s': State, g: Shape, x: Addr, l: Link, pc: Pc)
    requires PcOk(s, g, pc) && x in g.rank && x in s.heap && s.heap[x].next == Link(l.ptr, false) && l.mark
    requires s'.heap == s.heap[x := s.heap[x].(next := l)]
    ensures PcOk(s', g, pc)
  {
  }

  lemma StepMark(s: State, g: Shape, t: nat)
    requires At(s, g, t) && s.ths[t].pc.TryMark? && NodeAt(s, s.ths[t].pc.curr).next == s.ths[t].pc.next
    ensures Inv(RunStep(s, t), g)
  {
    var s', x := RunStep(s, t), s.ths[t].pc.curr;
    PcAt(s, g, t);
    NextAt(s, g, x);
    var l := Link(s.ths[t].pc.next.ptr, true);
    assert forall y :: y in s.retired ==> y in s'.heap && s'.heap[y].next.ptr == y;
    hide Linked, Ranked, Custody;
    MarkLinked(s, s', g, x, l);
    forall r | 0 <= r < |s'.ths| ensures PcOk(s', g, s'.ths[r].pc) {
      if r != t { MarkPc(s, s', g, x, l, s.ths[r].pc); }
    }
    hide PcOk;
    CustodySame(s, s', g, t);
  }

  // ---------------------------------------------------------------- unlinking

  /** Where a successful compare-exchange on `prev->next` finds `curr`: on the chain, right
      after `prev`. An unlinked `prev` cannot show an unmarked link to another node. */
  lemma UnlinkPosition(s: State, g: Shape, prev: Addr, curr: Addr) returns (k: nat)
    requires Linked(s, g.chain) && Ranked(s, g) && PrevOk(g, prev, curr) && CellOf(s, prev) == Link(curr, false)
    ensures k < |g.chain| && g.chain[k] == curr && curr !in g.gone
    ensures if k == 0 then prev == NULL else prev == g.chain[k - 1] && prev !in g.gone
  {
    if prev == NULL {
      NextAt(s, g, curr);
      k := 0;
    } else {
      NextAt(s, g, prev);
      NextAt(s, g, curr);
      assert prev !in g.gone;
      var i :| 0 <= i < |g.chain| && g.chain[i] == prev;
      k := i + 1;
    }
  }

  function Cut(chain: seq<Addr>, k: nat): seq<Addr>
    requires k < |chain|
  {
    chain[..k] + chain[k + 1..]
  }

  lemma CutDistinct(chain: seq<Addr>, k: nat)
    requires k < |chain| && Distinct(chain)
    ensures Distinct(Cut(chain, k)) && chain[k] !in Cut(chain, k)
    ensures forall x :: x in Cut(chain, k) <==> x in chain && x != chain[k]
  {
    forall x | x in chain && x != chain[k] ensures x in Cut(chain, k) {
      var i :| 0 <= i < |chain| && chain[i] == x;
      assert Cut(chain, k)[if i < k then i else i - 1] == x;
    }
  }

  lemma CutLinked(s: State, s': State, chain: seq<Addr>, k: nat, prev: Addr)
    requires Linked(s, chain) && k < |chain|
    requires if k == 0 then prev == NULL else prev == chain[k - 1]
    requires s'.head == (if k == 0 then ChainNext(chain, k) else s.head)
    requires s'.heap == if k == 0 then s.heap else s.heap[prev := s.heap[prev].(next := Link(ChainNext(chain, k), false))]
    ensures Linked(s', Cut(chain, k))
  {
    var cut := Cut(chain, k);
    CutDistinct(chain, k);
    hide Distinct;
    forall i | 0 <= i < |cut|
      ensures cut[i] != NULL && cut[i] in s'.heap && s'.heap[cut[i]].next.ptr == ChainNext(cut, i)
    {
      CutLinkedAt(s, s', chain, k, prev, i);
    }
    assert s'.head == First(cut);
  }

  lemma CutLinkedAt(s: State, s': State, chain: seq<Addr>, k: nat, prev: Addr, i: nat)
    requires Linked(s, chain) && k < |chain| && i < |chain| - 1
    requires if k == 0 then prev == NULL else prev == chain[k - 1]
    requires s'.heap == if k == 0 then s.heap else s.heap[prev := s.heap[prev].(next := Link(ChainNext(chain, k), false))]
    ensures var x := Cut(chain, k)[i]; x != NULL && x in s'.heap && s'.heap[x].next.ptr == ChainNext(Cut(chain, k), i)
  {
    var j := if i < k then i else i + 1;
    ChainAt(s, chain, j);
    CutNext(chain, k, i);
    if k > 0 { ChainDistinct(s, chain, j, k - 1); }
    hide Linked, Cut;
  }

  lemma ChainDistinct(s: State, chain: seq<Addr>, i: nat, j: nat)
    requires Linked(s, chain) && i < |chain| && j < |chain|
    ensures chain[i] == chain[j] <==> i == j
  {
  }

  lemma CutNext(chain: seq<Addr>, k: nat, i: nat)
    requires k < |chain| && i < |chain| - 1
    ensures Cut(chain, k)[i] == chain[if i < k then i else i + 1]
    ensures ChainNext(Cut(chain, k), i) ==
      if i == k - 1 then ChainNext(chain, k) else ChainNext(chain, if i < k then i else i + 1)
  {
  }

  lemma CutRanked(s: State, s': State, g: Shape, k: nat, prev: Addr, next: Link)
    requires Linked(s, g.chain) && Ranked(s, g) && k < |g.chain| && g.chain[k] !in g.gone
    requires s.heap[g.chain[k]].next == next && next.mark && PrevOk(g, prev, g.chain[k])
    requires prev != NULL ==> prev !in g.gone && prev in s.heap
    requires s'.heap == if prev == NULL then s.heap else s.heap[prev := s.heap[prev].(next := Link(next.ptr, false))]
    ensures Ranked(s', Shape(Cut(g.chain, k), g.rank, g.gone + {g.chain[k]}))
  {
    var g' := Shape(Cut(g.chain, k), g.rank, g.gone + {g.chain[k]});
    CutDistinct(g.chain, k);
    NextAt(s, g, g.chain[k]);
    forall x | x in g'.rank ensures x in s'.heap && NextOk(s', g', x) { NextAt(s, g, x); }
  }

  lemma UnlinkPc(s: State, s': State, g: Shape, curr: Addr, prev: Addr, l: Link, chain: seq<Addr>, pc: Pc)
    requires PcOk(s, g, pc) && curr !in g.gone
    requires prev == NULL || (prev in s.heap && prev in g.rank && prev !in g.gone && !s.heap[prev].next.mark)
    requires s'.heap == if prev == NULL then s.heap else s.heap[prev := s.heap[prev].(next := l)]
    ensures PcOk(s', Shape(chain, g.rank, g.gone + {curr}), pc)
  {
  }

  lemma CustodyTakes(s: State, s': State, g: Shape, g': Shape, t: nat, curr: Addr)
    requires Custody(s, g) && t < |s.ths| && |s'.ths| == |s.ths| && curr !in g.gone && curr in g.rank
    requires !Private(s.ths[t].pc) && !Removing(s.ths[t].pc)
    requires !Private(s'.ths[t].pc) && Removing(s'.ths[t].pc) && s'.ths[t].pc.curr == curr
    requires forall r :: 0 <= r < |s.ths| && r != t ==> s'.ths[r] == s.ths[r]
    requires forall r :: 0 <= r < |s.ths| && Removing(s.ths[r].pc) ==> s.ths[r].pc.curr in g.gone
    requires s'.retired == s.retired && s'.heap.Keys == s.heap.Keys && g'.rank == g.rank && g'.gone == g.gone + {curr}
    requires forall x :: x in s.retired ==> x in s'.heap && s'.heap[x].next.ptr == x
    ensures Custody(s', g')
  {
    forall x | x in g'.gone && x !in s'.retired ensures Remover(s', x) {
      if x == curr {
        assert Removing(s'.ths[t].pc);
      } else {
        var r :| 0 <= r < |s.ths| && Removing(s.ths[r].pc) && s.ths[r].pc.curr == x;
        assert s'.ths[r] == s.ths[r];
      }
    }
    forall x | x in s'.heap && x !in g'.rank ensures Pusher(s', x) {
      assert Pusher(s, x);
      var r :| 0 <= r < |s.ths| && Private(s.ths[r].pc) && s.ths[r].pc.item == x;
      assert s'.ths[r] == s.ths[r];
    }
  }

  lemma RemovingGone(s: State, g: Shape)
    requires Threads(s, g)
    ensures forall r :: 0 <= r < |s.ths| && Removing(s.ths[r].pc) ==> s.ths[r].pc.curr in g.gone
  {
    forall r | 0 <= r < |s.ths| && Removing(s.ths[r].pc) ensures s.ths[r].pc.curr in g.gone {
      assert PcOk(s, g, s.ths[r].pc);
    }
  }

  lemma RetiredKept(s: State, s': State, g: Shape, prev: Addr, l: Link)
    requires Custody(s, g) && (prev != NULL ==> prev !in g.gone && prev in s.heap)
    requires s'.heap == if prev == NULL then s.heap else s.heap[prev := s.heap[prev].(next := l)]
    ensures forall x :: x in s.retired ==> x in s'.heap && s'.heap[x].next.ptr == x
    ensures s'.heap.Keys == s.heap.Keys
  {
  }

  /** What a successful unlink finds. */
  lemma UnlinkFacts(s: State, g: Shape, t: nat) returns (k: nat)
    requires At(s, g, t) && s.ths[t].pc.Unlink?
    requires CellOf(s, s.ths[t].pc.prev) == Link(s.ths[t].pc.curr, false)
    ensures var pc := s.ths[t].pc;
      && k < |g.chain| && g.chain[k] == pc.curr && pc.curr !in g.gone && pc.curr in g.rank && PrevOk(g, pc.prev, pc.curr)
      && (if k == 0 then pc.prev == NULL else pc.prev == g.chain[k - 1])
      && (pc.prev == NULL || (pc.prev in s.heap && pc.prev in g.rank && pc.prev !in g.gone
                              && !s.heap[pc.prev].next.mark && pc.prev != NULL))
      && (k > 0 ==> pc.prev != NULL)
      && pc.curr in s.heap && s.heap[pc.curr].next == pc.next && pc.next.mark && pc.next.ptr == ChainNext(g.chain, k)
      && (pc.next.ptr == NULL || Below(g, pc.next.ptr, pc.curr)) && pc.curr != pc.prev
  {
    hide Linked, Ranked, Custody, Threads;
    var prev, curr := s.ths[t].pc.prev, s.ths[t].pc.curr;
    PcAt(s, g, t);
    k := UnlinkPosition(s, g, prev, curr);
    NextAt(s, g, curr);
    if prev != NULL { NextAt(s, g, prev); }
    ChainAt(s, g.chain, k);
    if k > 0 { ChainAt(s, g.chain, k - 1); }
  }

  lemma UnlinkThreads(s: State, s': State, g: Shape, g': Shape, t: nat)
    requires Threads(s, g) && t < |s.ths| && |s'.ths| == |s.ths| && s.ths[t].pc.Unlink?
    requires var pc := s.ths[t].pc;
      && pc.curr !in g.gone && g' == Shape(g'.chain, g.rank, g.gone + {pc.curr})
      && (pc.prev == NULL || (pc.prev in s.heap && pc.prev in g.rank && pc.prev !in g.gone && !s.heap[pc.prev].next.mark))
      && s'.heap == if pc.prev == NULL then s.heap else s.heap[pc.prev := s.heap[pc.prev].(next := Link(pc.next.ptr, false))]
    requires forall r :: 0 <= r < |s.ths| && r != t ==> s'.ths[r] == s.ths[r]
    requires PcOk(s', g', s'.ths[t].pc)
    ensures Threads(s', g')
  {
    hide PcOk;
    var pc := s.ths[t].pc;
    forall r | 0 <= r < |s'.ths| ensures PcOk(s', g', s'.ths[r].pc) {
      if r != t { UnlinkPc(s, s', g, pc.curr, pc.prev, Link(pc.next.ptr, false), g'.chain, s.ths[r].pc); }
    }
  }

  lemma UnlinkedPc(s': State, g: Shape, g': Shape, pc: Pc)
    requires pc.SelfLink? && pc.next.mark && PrevOk(g, pc.prev, pc.curr)
    requires pc.curr in s'.heap && s'.heap[pc.curr].next == pc.next && g'.rank == g.rank && pc.curr in g'.gone
    requires pc.next.ptr == NULL || Below(g, pc.next.ptr, pc.curr)
    ensures PcOk(s', g', pc)
  {
  }

  lemma UnlinkEffect(s: State, s': State, t: nat)
    requires t < |s.ths| && s.ths[t].pc.Unlink? && s' == RunStep(s, t)
    requires CellOf(s, s.ths[t].pc.prev) == Link(s.ths[t].pc.curr, false)
    requires s.ths[t].pc.prev == NULL || s.ths[t].pc.prev in s.heap
    ensures var pc := s.ths[t].pc;
      && s'.heap == (if pc.prev == NULL then s.heap
                     else s.heap[pc.prev := s.heap[pc.prev].(next := Link(pc.next.ptr, false))])
      && s'.head == (if pc.prev == NULL then pc.next.ptr else s.head)
      && s'.ths == s.ths[t := s.ths[t].(pc := SelfLink(pc.op, pc.prev, pc.curr, pc.next))]
      && s'.retired == s.retired
  {
  }

  lemma StepUnlink(s: State, g: Shape, t: nat) returns (g': Shape)
    requires At(s, g, t) && s.ths[t].pc.Unlink?
    requires CellOf(s, s.ths[t].pc.prev) == Link(s.ths[t].pc.curr, false)
    ensures Inv(RunStep(s, t), g')
    ensures exists k :: MarkedCut(s, g.chain, g'.chain, k) && g' == Shape(g'.chain, g.rank, g.gone + {g.chain[k]})
  {
    hide PcOk, Linked, Ranked, Custody, Threads;
    var s' := RunStep(s, t);
    var prev, curr, next := s.ths[t].pc.prev, s.ths[t].pc.curr, s.ths[t].pc.next;
    var k := UnlinkFacts(s, g, t);
    UnlinkEffect(s, s', t);
    hide RunStep;
    g' := Shape(Cut(g.chain, k), g.rank, g.gone + {curr});
    UnlinkedPc(s', g, g', s'.ths[t].pc);
    assert MarkedCut(s, g.chain, g'.chain, k);
    hide MarkedCut;
    hide NextOk, PrevOk, Below, Cut;
    CutLinked(s, s', g.chain, k, prev);
    CutRanked(s, s', g, k, prev, next);
    UnlinkThreads(s, s', g, g', t);
    RemovingGone(s, g);
    RetiredKept(s, s', g, prev, Link(next.ptr, false));
    CustodyTakes(s, s', g, g', t, curr);
  }

  lemma ThreadsFrom(s: State, g: Shape)
    requires forall t :: 0 <= t < |s.ths| ==> PcOk(s, g, s.ths[t].pc)
    ensures Threads(s, g)
  {
  }

  lemma ChainAt(s: State, chain: seq<Addr>, k: nat)
    requires Linked(s, chain) && k < |chain|
    ensures chain[k] != NULL && chain[k] in s.heap && s.heap[chain[k]].next.ptr == ChainNext(chain, k)
  {
  }

  // ---------------------------------------------------------------- self-link and retire

  lemma SelfLinkPc(s: State, s': State, g: Shape, c: Addr, pc: Pc)
    requires PcOk(s, g, pc) && c in g.gone && c in g.rank && c in s.heap
    requires s'.heap == s.heap[c := s.heap[c].(next := Link(c, false))]
    requires Removing(pc) ==> pc.curr != c
    ensures PcOk(s', g, pc)
  {
  }

  lemma SelfLinkChain(s: State, s': State, g: Shape, c: Addr)
    requires Linked(s, g.chain) && Ranked(s, g) && c in g.gone && c in s.heap
    requires s'.heap == s.heap[c := s.heap[c].(next := Link(c, false))] && s'.head == s.head
    ensures Linked(s', g.chain) && Ranked(s', g)
  {
    forall y | y in g.rank ensures y in s'.heap && NextOk(s', g, y) { assert NextOk(s, g, y); }
  }

  /** Custody when every thread keeps what it has. */
  lemma CustodyKept(s: State, s': State, g: Shape, t: nat)
    requires Custody(s, g) && t < |s.ths| && |s'.ths| == |s.ths|
    requires Private(s'.ths[t].pc) == Private(s.ths[t].pc) && Removing(s'.ths[t].pc) == Removing(s.ths[t].pc)
    requires Private(s.ths[t].pc) ==> s'.ths[t].pc.item == s.ths[t].pc.item
    requires Removing(s.ths[t].pc) ==> s'.ths[t].pc.curr == s.ths[t].pc.curr
    requires forall r :: 0 <= r < |s.ths| && r != t ==> s'.ths[r] == s.ths[r]
    requires s'.retired == s.retired && s'.heap.Keys == s.heap.Keys
    requires forall x :: x in s.retired ==> x in s'.heap && s'.heap[x].next.ptr == x
    ensures Custody(s', g)
  {
    forall x | x in g.gone && x !in s.retired ensures Remover(s', x) {
      var r :| 0 <= r < |s.ths| && Removing(s.ths[r].pc) && s.ths[r].pc.curr == x;
      assert Removing(s'.ths[r].pc) && s'.ths[r].pc.curr == x;
    }
    forall x | x in s'.heap && x !in g.rank ensures Pusher(s', x) {
      assert Pusher(s, x);
      var r :| 0 <= r < |s.ths| && Private(s.ths[r].pc) && s.ths[r].pc.item == x;
      assert Private(s'.ths[r].pc) && s'.ths[r].pc.item == x;
    }
  }

  lemma OneRemover(s: State, g: Shape, t: nat, r: nat)
    requires Custody(s, g) && t < |s.ths| && r < |s.ths| && t != r && Removing(s.ths[t].pc) && Removing(s.ths[r].pc)
    ensures s.ths[t].pc.curr != s.ths[r].pc.curr
  {
  }

  lemma OnePusher(s: State, g: Shape, t: nat, r: nat)
    requires Custody(s, g) && t < |s.ths| && r < |s.ths| && t != r && Private(s.ths[t].pc) && Private(s.ths[r].pc)
    ensures s.ths[t].pc.item != s.ths[r].pc.item
  {
  }

  lemma SelfLinkThreads(s: State, s': State, g: Shape, t: nat)
    requires Threads(s, g) && Custody(s, g) && t < |s.ths| && |s'.ths| == |s.ths| && s.ths[t].pc.SelfLink?
    requires var c := s.ths[t].pc.curr;
      c in g.gone && c in g.rank && c in s.heap && s'.heap == s.heap[c := s.heap[c].(next := Link(c, false))]
    requires forall r :: 0 <= r < |s.ths| && r != t ==> s'.ths[r] == s.ths[r]
    requires PcOk(s', g, s'.ths[t].pc)
    ensures Threads(s', g)
  {
    hide PcOk, Custody;
    forall r | 0 <= r < |s'.ths| ensures PcOk(s', g, s'.ths[r].pc) {
      if r != t {
        if Removing(s.ths[r].pc) { OneRemover(s, g, t, r); }
        SelfLinkPc(s, s', g, s.ths[t].pc.curr, s.ths[r].pc);
      }
    }
  }

  lemma StepSelfLink(s: State, g: Shape, t: nat)
    requires At(s, g, t) && s.ths[t].pc.SelfLink?
    ensures Inv(RunStep(s, t), g)
  {
    hide Linked, Ranked, Threads;
    var s', c := RunStep(s, t), s.ths[t].pc.curr;
    PcAt(s, g, t);
    assert forall y :: y in s.retired ==> y in s'.heap && s'.heap[y].next.ptr == y;
    hide Custody;
    assert PcOk(s', g, s'.ths[t].pc);
    hide PcOk;
    SelfLinkChain(s, s', g, c);
    SelfLinkThreads(s, s', g, t);
    CustodyKept(s, s', g, t);
  }

  lemma CustodyGives(s: State, s': State, g: Shape, t: nat)
    requires Custody(s, g) && t < |s.ths| && |s'.ths| == |s.ths| && s.ths[t].pc.Retire?
    requires !Private(s'.ths[t].pc) && !Removing(s'.ths[t].pc) && s'.retired == s.retired + [s.ths[t].pc.curr]
    requires forall r :: 0 <= r < |s.ths| && r != t ==> s'.ths[r] == s.ths[r]
    requires s'.heap == s.heap && PcOk(s, g, s.ths[t].pc)
    ensures Custody(s', g)
  {
    forall x | x in g.gone && x !in s'.retired ensures Remover(s', x) {
      var r :| 0 <= r < |s.ths| && Removing(s.ths[r].pc) && s.ths[r].pc.curr == x;
      assert s'.ths[r] == s.ths[r];
    }
    forall x | x in s'.heap && x !in g.rank ensures Pusher(s', x) {
      assert Pusher(s, x);
      var r :| 0 <= r < |s.ths| && Private(s.ths[r].pc) && s.ths[r].pc.item == x;
      assert s'.ths[r] == s.ths[r];
    }
  }

  lemma StepRetire(s: State, g: Shape, t: nat)
    requires At(s, g, t) && s.ths[t].pc.Retire?
    ensures Inv(RunStep(s, t), g)
  {
    var s' := RunStep(s, t);
    hide Linked, Ranked, Custody, Threads;
    PcAt(s, g, t);
    assert PcOk(s', g, s'.ths[t].pc);
    CustodyGives(s, s', g, t);
    hide PcOk;
    SameHeap(s, s', g);
    SamePc(s', s, g, s'.ths[t].pc);
    ThreadsSame(s, s', g, t);
  }

  // ---------------------------------------------------------------- push

  lemma FreshLinked(s: State, s': State, g: Shape, x: Addr, nd: Node)
    requires Linked(s, g.chain) && Ranked(s, g) && x !in g.rank
    requires s'.heap == s.heap[x := nd] && s'.head == s.head
    ensures Linked(s', g.chain) && Ranked(s', g)
  {
    forall y | y in g.rank ensures y in s'.heap && NextOk(s', g, y) { assert NextOk(s, g, y); }
  }

  lemma FreshPc(s: State, s': State, g: Shape, x: Addr, nd: Node, pc: Pc)
    requires PcOk(s, g, pc) && x !in g.rank && (forall y :: y in g.gone ==> y in g.rank)
    requires s'.heap == s.heap[x := nd] && (Private(pc) ==> pc.item != x)
    ensures PcOk(s', g, pc)
  {
  }

  lemma GoneRanked(s: State, g: Shape)
    requires Ranked(s, g)
    ensures forall y :: y in g.gone ==> y in g.rank
  {
  }

  lemma StepPushStore(s: State, g: Shape, t: nat)
    requires At(s, g, t) && s.ths[t].pc.PushStore?
    ensures Inv(RunStep(s, t), g)
  {
    var s', x := RunStep(s, t), s.ths[t].pc.item;
    PcAt(s, g, t);
    GoneRanked(s, g);
    assert forall y :: y in s.retired ==> y in s'.heap && s'.heap[y].next.ptr == y;
    assert PcOk(s', g, s'.ths[t].pc);
    hide PcOk, Linked, Ranked, Custody, Threads;
    FreshLinked(s, s', g, x, s'.heap[x]);
    forall r | 0 <= r < |s'.ths| ensures PcOk(s', g, s'.ths[r].pc) {
      if r != t {
        PcAt(s, g, r);
        if Private(s.ths[r].pc) { OnePusher(s, g, t, r); }
        FreshPc(s, s', g, x, s'.heap[x], s.ths[r].pc);
      }
    }
    ThreadsFrom(s', g);
    CustodyKept(s, s', g, t);
  }

  lemma StepPushRetry(s: State, g: Shape, t: nat)
    requires At(s, g, t) && s.ths[t].pc.PushCas? && s.head != s.ths[t].pc.temp
    ensures Inv(RunStep(s, t), g)
  {
    var s' := RunStep(s, t);
    PcAt(s, g, t);
    HeadRanked(s, g);
    assert PcOk(s, g, s'.ths[t].pc);
    assert forall y :: y in s.retired ==> y in s'.heap && s'.heap[y].next.ptr == y;
    hide PcOk, Linked, Ranked, Custody, Threads;
    SameHeap(s, s', g);
    ThreadsSame(s, s', g, t);
    CustodyKept(s, s', g, t);
  }

  lemma PushedPc(s: State, g: Shape, g': Shape, x: Addr, pc: Pc)
    requires PcOk(s, g, pc) && g'.gone == g.gone && g'.rank == g.rank[x := |g.rank|] && x !in g.rank
    requires Private(pc) ==> pc.item != x
    ensures PcOk(s, g', pc)
  {
  }

  lemma PushedChain(s: State, s': State, chain: seq<Addr>, x: Addr)
    requires Linked(s, chain) && x !in chain && x != NULL && x in s.heap
    requires s.heap[x].next == Link(s.head, false) && s'.heap == s.heap && s'.head == x
    ensures Linked(s', [x] + chain)
  {
    var chain' := [x] + chain;
    forall i | 0 <= i < |chain'|
      ensures chain'[i] != NULL && chain'[i] in s'.heap && s'.heap[chain'[i]].next.ptr == ChainNext(chain', i)
    {
      if i > 0 { ChainAt(s, chain, i - 1); }
    }
  }

  lemma PushedLinked(s: State, s': State, g: Shape, g': Shape, x: Addr)
    requires Linked(s, g.chain) && Ranked(s, g) && x !in g.rank && x != NULL && x in s.heap
    requires s.heap[x].next == Link(s.head, false) && s'.heap == s.heap && s'.head == x
    requires g' == Shape([x] + g.chain, g.rank[x := |g.rank|], g.gone)
    ensures Linked(s', g'.chain) && Ranked(s', g')
  {
    assert x !in g.chain;
    PushedChain(s, s', g.chain, x);
    HeadRanked(s, g);
    hide Linked;
    PushedRanked(s, s', g, g', x);
  }

  lemma PushedRanked(s: State, s': State, g: Shape, g': Shape, x: Addr)
    requires Ranked(s, g) && x !in g.rank && x != NULL && x in s.heap && (s.head == NULL || s.head in g.rank)
    requires s.heap[x].next == Link(s.head, false) && s'.heap == s.heap
    requires g' == Shape([x] + g.chain, g.rank[x := |g.rank|], g.gone)
    ensures Ranked(s', g')
  {
    assert g'.rank.Keys == g.rank.Keys + {x} && |g'.rank| == |g.rank| + 1;
    forall y | y in g'.rank ensures y in s'.heap && NextOk(s', g', y) {
      if y != x { NextAt(s, g, y); }
    }
  }

  lemma CustodyPushed(s: State, s': State, g: Shape, g': Shape, t: nat)
    requires Custody(s, g) && t < |s.ths| && |s'.ths| == |s.ths| && s.ths[t].pc.PushCas?
    requires !Private(s'.ths[t].pc) && !Removing(s'.ths[t].pc)
    requires forall r :: 0 <= r < |s.ths| && r != t ==> s'.ths[r] == s.ths[r]
    requires s'.retired == s.retired && s'.heap == s.heap
    requires g'.gone == g.gone && g'.rank.Keys == g.rank.Keys + {s.ths[t].pc.item}
    ensures Custody(s', g')
  {
    forall x | x in g'.gone && x !in s'.retired ensures Remover(s', x) {
      var r :| 0 <= r < |s.ths| && Removing(s.ths[r].pc) && s.ths[r].pc.curr == x;
      assert s'.ths[r] == s.ths[r];
    }
    forall x | x in s'.heap && x !in g'.rank ensures Pusher(s', x) {
      assert x !in g.rank && Pusher(s, x);
      var r :| 0 <= r < |s.ths| && Private(s.ths[r].pc) && s.ths[r].pc.item == x;
      assert s'.ths[r] == s.ths[r];
    }
  }

  lemma StepPushed(s: State, g: Shape, t: nat) returns (g': Shape)
    requires At(s, g, t) && s.ths[t].pc.PushCas? && s.head == s.ths[t].pc.temp
    ensures Inv(RunStep(s, t), g')
    ensures g' == WithFront(g, s.ths[t].pc.item)
  {
    var s', x := RunStep(s, t), s.ths[t].pc.item;
    PcAt(s, g, t);
    g' := Shape([x] + g.chain, g.rank[x := |g.rank|], g.gone);
    assert PcOk(s', g', s'.ths[t].pc);
    assert x !in g.rank && x != NULL && x in s.heap && s.heap[x].next == Link(s.head, false);
    hide PcOk, Linked, Ranked, Custody, Threads;
    PushedLinked(s, s', g, g', x);
    forall r | 0 <= r < |s'.ths| ensures PcOk(s', g', s'.ths[r].pc) {
      if r != t {
        PcAt(s, g, r);
        if Private(s.ths[r].pc) { OnePusher(s, g, t, r); }
        PushedPc(s, g, g', x, s.ths[r].pc);
        SamePc(s, s', g', s.ths[r].pc);
      }
    }
    ThreadsFrom(s', g');
    CustodyPushed(s, s', g, g', t);
  }

  lemma CustodyFresh(s: State, s': State, g: Shape, t: nat, x: Addr)
    requires Custody(s, g) && t < |s.ths| && |s'.ths| == |s.ths| && s.ths[t].pc.Idle? && x !in s.heap
    requires s'.ths[t].pc.PushStore? && s'.ths[t].pc.item == x
    requires forall r :: 0 <= r < |s.ths| && r != t ==> s'.ths[r] == s.ths[r]
    requires forall r :: 0 <= r < |s.ths| && Private(s.ths[r].pc) ==> s.ths[r].pc.item in s.heap
    requires s'.retired == s.retired && x in s'.heap && s'.heap == s.heap[x := s'.heap[x]]
    ensures Custody(s', g)
  {
    forall y | y in g.gone && y !in s'.retired ensures Remover(s', y) {
      var r :| 0 <= r < |s.ths| && Removing(s.ths[r].pc) && s.ths[r].pc.curr == y;
      assert s'.ths[r] == s.ths[r];
    }
    forall y | y in s'.heap && y !in g.rank ensures Pusher(s', y) {
      if y == x {
        assert Private(s'.ths[t].pc);
      } else {
        assert Pusher(s, y);
        var r :| 0 <= r < |s.ths| && Private(s.ths[r].pc) && s.ths[r].pc.item == y;
        assert s'.ths[r] == s.ths[r];
      }
    }
  }

  lemma PrivateAllocated(s: State, g: Shape)
    requires Threads(s, g)
    ensures forall r :: 0 <= r < |s.ths| && Private(s.ths[r].pc) ==> s.ths[r].pc.item in s.heap
  {
    forall r | 0 <= r < |s.ths| && Private(s.ths[r].pc) ensures s.ths[r].pc.item in s.heap {
      assert PcOk(s, g, s.ths[r].pc);
    }
  }

  lemma StepCallPush(s: State, g: Shape, t: nat, x: Addr, v: Value)
    requires Inv(s, g) && Enabled(s, CallPush(t, x, v))
    ensures Inv(Apply(s, CallPush(t, x, v)), g)
  {
    var s' := Apply(s, CallPush(t, x, v));
    HeadRanked(s, g);
    GoneRanked(s, g);
    assert x !in g.rank by { if x in g.rank { NextAt(s, g, x); } }
    assert PcOk(s', g, s'.ths[t].pc);
    hide PcOk, Linked, Ranked, Custody, Threads;
    FreshLinked(s, s', g, x, s'.heap[x]);
    PrivateAllocated(s, g);
    forall r | 0 <= r < |s'.ths| ensures PcOk(s', g, s'.ths[r].pc) {
      if r != t {
        PcAt(s, g, r);
        FreshPc(s, s', g, x, s'.heap[x], s.ths[r].pc);
      }
    }
    ThreadsFrom(s', g);
    CustodyFresh(s, s', g, t, x);
  }

  // ---------------------------------------------------------------- all steps

  /** A compare-exchange of push is about to succeed. */
  predicate Pushes(s: State, a: Action) {
    a.Run? && Th(s, a.t).pc.PushCas? && s.head == Th(s, a.t).pc.temp
  }

  /** A mark of erase is about to succeed. */
  predicate Marks(s: State, a: Action) {
    a.Run? && Th(s, a.t).pc.TryMark? && NodeAt(s, Th(s, a.t).pc.curr).next == Th(s, a.t).pc.next
  }

  /** How one step may change the chain: not at all, a new node in front, a marked node cut out. */
  ghost predicate ChainStep(s: State, a: Action, g: Shape, g': Shape) {
    || g' == g
    || (Pushes(s, a) && Th(s, a.t).pc.item !in g.rank && g' == WithFront(g, Th(s, a.t).pc.item))
    || (exists k :: MarkedCut(s, g.chain, g'.chain, k) && g' == Shape(g'.chain, g.rank, g.gone + {g.chain[k]}))
  }

  function WithFront(g: Shape, x: Addr): Shape {
    Shape([x] + g.chain, g.rank[x := |g.rank|], g.gone)
  }

  ghost predicate MarkedCut(s: State, chain: seq<Addr>, chain': seq<Addr>, k: int) {
    0 <= k < |chain| && chain[k] in s.heap && s.heap[chain[k]].next.mark && chain' == Cut(chain, k)
  }

  lemma InvThreads(s: State, g: Shape)
    requires Inv(s, g)
    ensures Threads(s, g)
  {
  }

  lemma RunKeepsInv(s: State, g: Shape, t: nat) returns (g': Shape)
    requires At(s, g, t)
    ensures Inv(RunStep(s, t), g') && ChainStep(s, Run(t), g, g')
  {
    hide Inv, RunStep;
    g' := g;
    match s.ths[t].pc
    case PushStore(_, _) => StepPushStore(s, g, t);
    case PushCas(item, temp) =>
      if s.head == temp {
        g' := StepPushed(s, g, t);
        assert item !in g.rank by { PcAt(s, g, t) by { InvThreads(s, g); } }
      } else { StepPushRetry(s, g, t); }
    case Begin(_) => StepHead(s, g, t);
    case Enter(_) => StepHead(s, g, t);
    case Walk(_, _, _) => StepWalk(s, g, t);
    case TryMark(_, _, curr, next) => if NodeAt(s, curr).next == next { StepMark(s, g, t); } else { StepMiss(s, g, t); }
    case Unlink(_, prev, curr, _) =>
      if CellOf(s, prev) == Link(curr, false) { g' := StepUnlink(s, g, t); } else { StepMiss(s, g, t); }
    case SelfLink(_, _, _, _) => StepSelfLink(s, g, t);
    case Retire(_, _, _, _) => StepRetire(s, g, t);
    case ReNext(_, _, _) => StepReNext(s, g, t);
  }

  lemma StepKeepsInv(s: State, g: Shape, a: Action) returns (g': Shape)
    requires Inv(s, g) && Enabled(s, a)
    ensures Inv(Apply(s, a), g') && ChainStep(s, a, g, g')
  {
    hide Inv, RunStep, DropStep;
    g' := g;
    match a
    case CallPush(t, x, v) => StepCallPush(s, g, t, x, v);
    case CallErase(t, v) => GoFrame(s, g, t, s.ths[t].(pc := Begin(Erase(v))));
    case CallSize(t) => GoFrame(s, g, t, s.ths[t].(pc := Enter(Size(1))));
    case Run(t) => g' := RunKeepsInv(s, g, t);
    case Drop(t) => StepDrop(s, g, t);
  }

  lemma {:induction false} RunInv(s: State, g: Shape, acts: seq<Action>) returns (g': Shape)
    requires Inv(s, g) && Legal(s, acts)
    ensures Inv(Exec(s, acts), g')
    decreases |acts|
  {
    hide Inv, Apply, Enabled;
    g' := g;
    if acts != [] {
      var g1 := StepKeepsInv(s, g, acts[0]);
      g' := RunInv(Apply(s, acts[0]), g1, acts[1..]);
    }
  }

  lemma ReachableInv(s: State) returns (g: Shape)
    requires Reachable(s)
    ensures Inv(s, g)
  {
    hide Inv, Legal, Exec, Init;
    var n: nat, acts :| Legal(Init(n), acts) && s == Exec(Init(n), acts);
    InitInv(n);
    g := RunInv(Init(n), Shape([], map[], {}), acts);
  }
}
