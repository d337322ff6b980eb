/** Main results about every run of the lock-free list. */
module ListSafety {
  import opened ListProtocol
  import opened ListInvariant
  import opened ListSteps

  // ---------------------------------------------------------------- structure

  /** Following `next` from _head always ends in null and never meets a node twice. */
  lemma ChainIsList(s: State) returns (chain: seq<Addr>)
    requires Reachable(s)
    ensures Linked(s, chain)
    ensures forall c :: Linked(s, c) ==> c == chain
  {
    var g := ReachableInv(s);
    chain := g.chain;
    forall c | Linked(s, c) ensures c == chain { ChainUnique(s, c, chain, 0); }
  }

  /** What stands at place `i` of a chain, null at its end, is what the cell before it says. */
  lemma ChainCell(s: State, c: seq<Addr>, i: nat)
    requires Linked(s, c) && i <= |c|
    ensures i > 0 ==> c[i - 1] in s.heap
    ensures (if i < |c| then c[i] else NULL) == (if i == 0 then s.head else s.heap[c[i - 1]].next.ptr)
    ensures i < |c| ==> c[i] != NULL
  {
    if i > 0 { ChainAt(s, c, i - 1); }
    if i < |c| { ChainAt(s, c, i); }
  }

  lemma {:induction false} ChainUnique(s: State, c: seq<Addr>, c': seq<Addr>, i: nat)
    requires Linked(s, c) && Linked(s, c')
    requires i <= |c| && i <= |c'| && forall j :: 0 <= j < i ==> c[j] == c'[j]
    ensures c == c'
    decreases |c| - i
  {
    hide Linked;
    ChainCell(s, c, i);
    ChainCell(s, c', i);
    if i < |c| { ChainUnique(s, c, c', i + 1); }
  }

  /** Main result: one step puts a new node in front, or cuts one marked node out, or leaves the
      chain alone. So a node leaves the chain only after its `next` is marked, no unmarked node is
      ever lost, and nobody else changes places. */
  lemma OnlyMarkedNodesLeave(s: State, a: Action, chain: seq<Addr>, chain': seq<Addr>)
    requires Reachable(s) && Enabled(s, a) && Linked(s, chain) && Linked(Apply(s, a), chain')
    ensures forall x :: x in chain && x !in chain' ==> s.heap[x].next.mark
    ensures || chain' == chain
            || (exists x :: x !in chain && chain' == [x] + chain)
            || (exists k :: 0 <= k < |chain| && s.heap[chain[k]].next.mark && chain' == chain[..k] + chain[k + 1..])
  {
    var g := ReachableInv(s);
    var g' := StepKeepsInv(s, g, a);
    hide Apply;
    ChainUnique(s, chain, g.chain, 0);
    ChainUnique(Apply(s, a), chain', g'.chain, 0);
    hide Threads, Custody;
    if k :| MarkedCut(s, chain, chain', k) { CutDistinct(chain, k); }
  }

  /** The link of a marked node is frozen while the node is on the chain. */
  lemma MarkedLinksAreFrozen(s: State, a: Action, chain: seq<Addr>, chain': seq<Addr>, x: Addr)
    requires Reachable(s) && Enabled(s, a) && Linked(s, chain) && Linked(Apply(s, a), chain')
    requires x in chain && x in chain' && s.heap[x].next.mark
    ensures Apply(s, a).heap[x].next == s.heap[x].next
  {
    var g := ReachableInv(s);
    ChainUnique(s, chain, g.chain, 0);
    FrozenStep(s, g, a, x);
  }

  lemma FrozenStep(s: State, g: Shape, a: Action, x: Addr)
    requires Inv(s, g) && Enabled(s, a) && x in g.chain && x in s.heap && s.heap[x].next.mark
    ensures x in Apply(s, a).heap && Apply(s, a).heap[x].next == s.heap[x].next
  {
    hide Linked, Custody;
    if a.Run? {
      PcAt(s, g, a.t);
      assert x in g.rank && x !in g.gone;
    }
  }

  // ---------------------------------------------------------------- safe_delete

  /** Main result: a node is handed to safe_delete at most once, and only when it is off the chain. */
  lemma RetiredOnceAndUnlinked(s: State, chain: seq<Addr>)
    requires Reachable(s) && Linked(s, chain)
    ensures Distinct(s.retired)
    ensures forall x :: x in s.retired ==> x !in chain
    ensures forall t: nat :: t < |s.ths| && s.ths[t].pc.Retire? ==>
      s.ths[t].pc.curr !in s.retired && s.ths[t].pc.curr !in chain
  {
    var g := ReachableInv(s);
    ChainUnique(s, chain, g.chain, 0);
    forall t: nat | t < |s.ths| && s.ths[t].pc.Retire?
      ensures s.ths[t].pc.curr !in s.retired && s.ths[t].pc.curr !in chain
    {
      PcAt(s, g, t);
    }
  }

  /** Every node ever allocated is in exactly one place: with its pusher, on the chain, with the
      thread that unlinked it, or handed to safe_delete. */
  lemma NodesAreConserved(s: State, chain: seq<Addr>, x: Addr)
    requires Reachable(s) && Linked(s, chain)
    ensures x in s.heap <==> Pusher(s, x) || x in chain || Remover(s, x) || x in s.retired
    ensures !(Pusher(s, x) && (x in chain || Remover(s, x) || x in s.retired))
    ensures !(x in chain && (Remover(s, x) || x in s.retired))
    ensures !(Remover(s, x) && x in s.retired)
  {
    var g := ReachableInv(s);
    ChainUnique(s, chain, g.chain, 0);
    if t :| 0 <= t < |s.ths| && Private(s.ths[t].pc) && s.ths[t].pc.item == x { PcAt(s, g, t); }
    if t :| 0 <= t < |s.ths| && Removing(s.ths[t].pc) && s.ths[t].pc.curr == x { PcAt(s, g, t); }
  }

  /** A shared cell names `c`: _head, or the `next` of another node that is no longer private. */
  ghost predicate Named(s: State, c: Addr) {
    s.head == c || exists d :: d in s.heap && d != c && !Pusher(s, d) && s.heap[d].next.ptr == c
  }

  /** The reclamation managers want a pointer out of every shared cell before safe_delete. `remove`
      meets that exactly if no thread is between unlinking a predecessor of the node and storing
      that predecessor's self-link; in that window the predecessor still names the node. */
  lemma DisciplineExact(s: State, t: nat)
    requires Reachable(s) && t < |s.ths| && s.ths[t].pc.Retire?
    ensures Named(s, s.ths[t].pc.curr) <==>
      exists r :: 0 <= r < |s.ths| && s.ths[r].pc.SelfLink? && s.ths[r].pc.next.ptr == s.ths[t].pc.curr
  {
    var g := ReachableInv(s);
    var c := s.ths[t].pc.curr;
    PcAt(s, g, t);
    if r :| 0 <= r < |s.ths| && s.ths[r].pc.SelfLink? && s.ths[r].pc.next.ptr == c {
      PcAt(s, g, r);
      NotPrivate(s, g, s.ths[r].pc.curr);
      assert Named(s, c);
    }
    HeadRanked(s, g);
    assert s.head != c;
    if d :| d in s.heap && d != c && !Pusher(s, d) && s.heap[d].next.ptr == c {
      NamedBySelfLinker(s, g, d, c);
    }
  }

  lemma NotPrivate(s: State, g: Shape, x: Addr)
    requires Threads(s, g) && x in g.rank
    ensures !Pusher(s, x)
  {
    if t :| 0 <= t < |s.ths| && Private(s.ths[t].pc) && s.ths[t].pc.item == x { PcAt(s, g, t); }
  }

  /** A node that still names a gone node is itself gone, not yet self-linked. */
  lemma NamerIsGone(s: State, g: Shape, d: Addr, c: Addr)
    requires Linked(s, g.chain) && Ranked(s, g) && d in g.rank && d in s.heap && s.heap[d].next.ptr == c && c in g.gone
    ensures d in g.gone
  {
  }

  lemma NamedBySelfLinker(s: State, g: Shape, d: Addr, c: Addr)
    requires Inv(s, g) && d in s.heap && d != c && !Pusher(s, d) && s.heap[d].next.ptr == c
    requires c in g.gone
    ensures exists r :: 0 <= r < |s.ths| && s.ths[r].pc.SelfLink? && s.ths[r].pc.next.ptr == c
  {
    NamerIsGone(s, g, d, c);
    var r :| 0 <= r < |s.ths| && Removing(s.ths[r].pc) && s.ths[r].pc.curr == d;
    PcAt(s, g, r);
  }

  // ---------------------------------------------------------------- the abstract sequence

  /** The values of the unmarked nodes on the chain. */
  function Live(heap: map<Addr, Node>, chain: seq<Addr>): seq<Value>
    requires forall i :: 0 <= i < |chain| ==> chain[i] in heap
  {
    if chain == [] then []
    else if heap[chain[0]].next.mark then Live(heap, chain[1..])
    else [heap[chain[0]].value] + Live(heap, chain[1..])
  }

  ghost predicate Alike(heap: map<Addr, Node>, heap': map<Addr, Node>, x: Addr) {
    && x in heap && x in heap' && heap'[x].value == heap[x].value && heap'[x].next.mark == heap[x].next.mark
  }

  ghost predicate Agree(heap: map<Addr, Node>, heap': map<Addr, Node>, chain: seq<Addr>) {
    forall i :: 0 <= i < |chain| ==> Alike(heap, heap', chain[i])
  }

  lemma {:induction false} LiveAgrees(heap: map<Addr, Node>, heap': map<Addr, Node>, chain: seq<Addr>)
    requires Agree(heap, heap', chain)
    ensures Live(heap', chain) == Live(heap, chain)
  {
    if chain != [] {
      assert Agree(heap, heap', chain[1..]);
      LiveAgrees(heap, heap', chain[1..]);
    }
  }

  lemma {:induction false} LiveCut(heap: map<Addr, Node>, chain: seq<Addr>, k: nat)
    requires forall i :: 0 <= i < |chain| ==> chain[i] in heap
    requires k < |chain| && heap[chain[k]].next.mark
    ensures (forall i :: 0 <= i < |Cut(chain, k)| ==> Cut(chain, k)[i] in heap)
    ensures Live(heap, Cut(chain, k)) == Live(heap, chain)
  {
    if k == 0 {
      assert Cut(chain, 0) == chain[1..];
    } else {
      assert Cut(chain, k)[1..] == Cut(chain[1..], k - 1);
      assert Cut(chain, k)[0] == chain[0];
      LiveCut(heap, chain[1..], k - 1);
    }
  }

  function Without(q: seq<Value>, i: nat): seq<Value>
    requires i < |q|
  {
    q[..i] + q[i + 1..]
  }

  /** `q'` is `q` without one occurrence of `v`. */
  ghost predicate TakesOut(q: seq<Value>, q': seq<Value>, v: Value) {
    exists i :: 0 <= i < |q| && q[i] == v && q' == Without(q, i)
  }

  /** How many nodes before place `k` are live. */
  function LiveBefore(heap: map<Addr, Node>, chain: seq<Addr>, k: nat): nat
    requires forall i :: 0 <= i < |chain| ==> chain[i] in heap
    requires k <= |chain|
  {
    if k == 0 then 0 else (if heap[chain[0]].next.mark then 0 else 1) + LiveBefore(heap, chain[1..], k - 1)
  }

  lemma WithoutTail(v: Value, q: seq<Value>, i: nat)
    requires i < |q|
    ensures Without([v] + q, i + 1) == [v] + Without(q, i)
  {
  }

  /** Marking one node takes exactly its value out of the live sequence. */
  lemma {:induction false} LiveMark(heap: map<Addr, Node>, heap': map<Addr, Node>, chain: seq<Addr>, k: nat)
    requires k < |chain|
    requires forall j :: 0 <= j < |chain| ==> chain[j] in heap && chain[j] in heap'
    requires forall j :: 0 <= j < |chain| && j != k ==> heap'[chain[j]] == heap[chain[j]]
    requires !heap[chain[k]].next.mark && heap'[chain[k]].next.mark
    ensures LiveBefore(heap, chain, k) < |Live(heap, chain)|
    ensures Live(heap, chain)[LiveBefore(heap, chain, k)] == heap[chain[k]].value
    ensures Live(heap', chain) == Without(Live(heap, chain), LiveBefore(heap, chain, k))
  {
    var rest := chain[1..];
    if k == 0 {
      assert Agree(heap, heap', rest);
      LiveAgrees(heap, heap', rest);
    } else {
      assert heap'[chain[0]] == heap[chain[0]];
      LiveMark(heap, heap', rest, k - 1);
      WithoutTail(heap[chain[0]].value, Live(heap, rest), LiveBefore(heap, rest, k - 1));
    }
  }

  ghost predicate InHeap(s: State, chain: seq<Addr>) {
    forall i :: 0 <= i < |chain| ==> chain[i] in s.heap
  }

  /** Main result, the linearization points: only a successful compare-exchange of push and a
      successful mark of erase change the sequence of live values. The push puts its value in
      front; the mark takes out one occurrence of erase's value if the node is still on the chain,
      and nothing if another thread has already unlinked and self-linked it (erase returns 1 all
      the same). Helping to unlink never changes the sequence. */
  lemma LinearizationPoints(s: State, a: Action, chain: seq<Addr>, chain': seq<Addr>)
    requires Reachable(s) && Enabled(s, a) && Linked(s, chain) && Linked(Apply(s, a), chain')
    ensures InHeap(s, chain) && InHeap(Apply(s, a), chain')
    ensures !Pushes(s, a) && !Marks(s, a) ==> Live(Apply(s, a).heap, chain') == Live(s.heap, chain)
    ensures Pushes(s, a) ==> Th(Apply(s, a), a.t).last == Th(s, a.t).last + [Pushed]
    ensures Pushes(s, a) ==>
      Live(Apply(s, a).heap, chain') == [NodeAt(s, Th(s, a.t).pc.item).value] + Live(s.heap, chain)
    ensures Marks(s, a) ==> Th(Apply(s, a), a.t).last == Th(s, a.t).last + [Erased(1)] && Th(s, a.t).pc.op.Erase?
    ensures Marks(s, a) && Th(s, a.t).pc.curr !in chain ==> Live(Apply(s, a).heap, chain') == Live(s.heap, chain)
    ensures Marks(s, a) && Th(s, a.t).pc.curr in chain ==>
      TakesOut(Live(s.heap, chain), Live(Apply(s, a).heap, chain'), Th(s, a.t).pc.op.v)
  {
    var g := ReachableInv(s);
    var g' := StepKeepsInv(s, g, a);
    ChainUnique(s, chain, g.chain, 0);
    ChainUnique(Apply(s, a), chain', g'.chain, 0);
    if Pushes(s, a) {
      PushLive(s, g, a, chain');
    } else if Marks(s, a) {
      MarkLive(s, g, a, chain');
    } else {
      OtherLive(s, g, g', a);
    }
  }

  lemma PushLive(s: State, g: Shape, a: Action, chain': seq<Addr>)
    requires Inv(s, g) && Enabled(s, a) && Pushes(s, a) && Linked(Apply(s, a), chain')
    ensures InHeap(s, g.chain) && InHeap(Apply(s, a), chain')
    ensures Live(Apply(s, a).heap, chain') == [NodeAt(s, Th(s, a.t).pc.item).value] + Live(s.heap, g.chain)
    ensures Th(Apply(s, a), a.t).last == Th(s, a.t).last + [Pushed]
  {
    hide Ranked, Custody;
    PcAt(s, g, a.t);
    var item := s.ths[a.t].pc.item;
    var g' := StepPushed(s, g, a.t);
    ChainUnique(Apply(s, a), chain', [item] + g.chain, 0);
    assert chain'[1..] == g.chain;
    LiveAgrees(s.heap, Apply(s, a).heap, g.chain);
  }

  lemma MarkLive(s: State, g: Shape, a: Action, chain': seq<Addr>)
    requires Inv(s, g) && Enabled(s, a) && Marks(s, a) && Linked(Apply(s, a), chain')
    ensures InHeap(s, g.chain) && InHeap(Apply(s, a), chain')
    ensures Th(Apply(s, a), a.t).last == Th(s, a.t).last + [Erased(1)] && Th(s, a.t).pc.op.Erase?
    ensures Th(s, a.t).pc.curr !in g.chain ==> Live(Apply(s, a).heap, chain') == Live(s.heap, g.chain)
    ensures Th(s, a.t).pc.curr in g.chain ==>
      TakesOut(Live(s.heap, g.chain), Live(Apply(s, a).heap, chain'), Th(s, a.t).pc.op.v)
  {
    hide Custody;
    PcAt(s, g, a.t);
    var s' := Apply(s, a);
    var curr := s.ths[a.t].pc.curr;
    StepMark(s, g, a.t);
    ChainUnique(s', chain', g.chain, 0);
    if curr in g.chain {
      var k :| 0 <= k < |g.chain| && g.chain[k] == curr;
      MarkedPlace(s, g, a, k);
    } else {
      assert Agree(s.heap, s'.heap, g.chain);
      LiveAgrees(s.heap, s'.heap, g.chain);
    }
  }

  lemma MarkedPlace(s: State, g: Shape, a: Action, k: nat)
    requires Linked(s, g.chain) && Threads(s, g) && Enabled(s, a) && Marks(s, a)
    requires k < |g.chain| && Th(s, a.t).pc.curr == g.chain[k]
    ensures InHeap(s, g.chain) && InHeap(Apply(s, a), g.chain)
    ensures TakesOut(Live(s.heap, g.chain), Live(Apply(s, a).heap, g.chain), Th(s, a.t).pc.op.v)
  {
    PcAt(s, g, a.t);
    LiveMark(s.heap, Apply(s, a).heap, g.chain, k);
  }

  /** Only a successful mark changes the value or the mark of a node that is still linked. */
  lemma AlikeAfter(s: State, g: Shape, a: Action, x: Addr)
    requires Inv(s, g) && Enabled(s, a) && !Marks(s, a) && x in g.chain
    ensures Alike(s.heap, Apply(s, a).heap, x)
  {
    hide Linked, Custody;
    NextAt(s, g, x);
    if a.Run? { PcAt(s, g, a.t); }
  }

  lemma OtherLive(s: State, g: Shape, g': Shape, a: Action)
    requires Inv(s, g) && Enabled(s, a) && !Marks(s, a) && !Pushes(s, a)
    requires ChainStep(s, a, g, g') && Linked(Apply(s, a), g'.chain)
    ensures InHeap(s, g.chain) && InHeap(Apply(s, a), g'.chain)
    ensures Live(Apply(s, a).heap, g'.chain) == Live(s.heap, g.chain)
  {
    var s' := Apply(s, a);
    forall i | 0 <= i < |g.chain| ensures Alike(s.heap, s'.heap, g.chain[i]) { AlikeAfter(s, g, a, g.chain[i]); }
    hide Apply;
    LiveAgrees(s.heap, s'.heap, g.chain);
    if g'.chain != g.chain {
      var k :| MarkedCut(s, g.chain, g'.chain, k);
      assert Alike(s.heap, s'.heap, g.chain[k]);
      LiveCut(s'.heap, g.chain, k);
    }
  }
}
