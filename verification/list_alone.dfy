/** What the list's operations do when one thread runs alone: every compare-exchange finds what was
    just read. */
module ListAlone {
  import opened ListProtocol
  import opened ListInvariant
  import opened ListSteps
  import opened ListSafety

  function RemoveFirst(q: seq<Value>, v: Value): seq<Value> {
    if q == [] then [] else if q[0] == v then q[1..] else [q[0]] + RemoveFirst(q[1..], v)
  }

  /** Every node is in exactly one place of exactly one of the two sequences. */
  ghost predicate Placed(heap: map<Addr, Node>, chain: seq<Addr>, retired: seq<Addr>) {
    && Distinct(chain) && Distinct(retired)
    && (forall x :: x in heap <==> x in chain || x in retired)
    && (forall x :: x in chain ==> x !in retired)
    && (forall x :: x in retired ==> x in heap && heap[x].next == Link(x, false))
  }

  ghost predicate Passed(heap: map<Addr, Node>, chain: seq<Addr>, k: nat, v: Value) {
    k <= |chain| && forall i :: 0 <= i < k ==> chain[i] in heap && !heap[chain[i]].next.mark && heap[chain[i]].value != v
  }

  ghost predicate AllIn(heap: map<Addr, Node>, chain: seq<Addr>) {
    forall i :: 0 <= i < |chain| ==> chain[i] in heap
  }

  /** Marking the first unmarked match takes the first occurrence out of the values. */
  lemma {:induction false} MarkRemovesFirst(
      heap: map<Addr, Node>, heap': map<Addr, Node>, chain: seq<Addr>, k: nat, v: Value)
    requires Distinct(chain) && k < |chain| && AllIn(heap, chain) && Passed(heap, chain, k, v)
    requires heap[chain[k]].value == v && !heap[chain[k]].next.mark
    requires heap' == heap[chain[k] := Node(v, Link(heap[chain[k]].next.ptr, true))]
    ensures v in Live(heap, chain)
    ensures Live(heap', chain) == RemoveFirst(Live(heap, chain), v)
  {
    var rest := chain[1..];
    if k == 0 {
      assert Agree(heap, heap', rest);
      LiveAgrees(heap, heap', rest);
    } else {
      MarkRemovesFirst(heap, heap', rest, k - 1, v);
      assert Live(heap, chain)[1..] == Live(heap, rest);
    }
  }

  lemma {:induction false} NoMatch(heap: map<Addr, Node>, chain: seq<Addr>, v: Value)
    requires Passed(heap, chain, |chain|, v)
    ensures v !in Live(heap, chain) && RemoveFirst(Live(heap, chain), v) == Live(heap, chain)
  {
    if chain != [] {
      NoMatch(heap, chain[1..], v);
      assert Live(heap, chain)[1..] == Live(heap, chain[1..]);
    }
  }

  lemma {:induction false} AllLive(heap: map<Addr, Node>, chain: seq<Addr>)
    requires AllIn(heap, chain) && forall i :: 0 <= i < |chain| ==> !heap[chain[i]].next.mark
    ensures |Live(heap, chain)| == |chain|
  {
    if chain != [] { AllLive(heap, chain[1..]); }
  }

  // ---------------------------------------------------------------- what remove does

  /** Where a traversal stands: at `chain[k]`, coming from the unmarked node before it. */
  ghost predicate StandsAt(heap: map<Addr, Node>, chain: seq<Addr>, prev: Addr, curr: Addr, k: nat) {
    && k < |chain| && chain[k] == curr && curr != NULL && curr in heap
    && (if k == 0 then prev == NULL else prev == chain[k - 1] && prev in heap && !heap[prev].next.mark && prev != NULL)
  }

  lemma StandsHere(heap: map<Addr, Node>, chain: seq<Addr>, prev: Addr, curr: Addr, k: nat)
    requires StandsAt(heap, chain, prev, curr, k)
    ensures k < |chain| && chain[k] == curr && curr in heap
  {
  }

  /** Helping keeps the values and every node; the nodes it hands to safe_delete were marked ones
      on the chain. */
  ghost predicate Helped(s: State, chain: seq<Addr>, s': State, chain': seq<Addr>) {
    && AllIn(s.heap, chain) && AllIn(s'.heap, chain')
    && Live(s'.heap, chain') == Live(s.heap, chain)
    && s'.heap.Keys == s.heap.Keys
    && (forall x :: x in chain' ==> x in chain && Alike(s.heap, s'.heap, x))
    && s.retired <= s'.retired
    && (forall i :: |s.retired| <= i < |s'.retired| ==> s'.retired[i] in chain && s.heap[s'.retired[i]].next.mark)
  }

  lemma HelpedAgain(s: State, chain: seq<Addr>, s1: State, chain1: seq<Addr>, s2: State, chain2: seq<Addr>)
    requires Helped(s, chain, s1, chain1) && Helped(s1, chain1, s2, chain2)
    ensures Helped(s, chain, s2, chain2)
  {
    forall i | |s.retired| <= i < |s2.retired| ensures s2.retired[i] in chain && s.heap[s2.retired[i]].next.mark {
      if i >= |s1.retired| { assert Alike(s.heap, s1.heap, s2.retired[i]); }
    }
    forall x | x in chain2 ensures x in chain && Alike(s.heap, s2.heap, x) {
      assert Alike(s1.heap, s2.heap, x) && Alike(s.heap, s1.heap, x);
    }
  }

  /** The state after a successful compare-exchange of remove, the self-link and safe_delete. */
  function Unlinked(s: State, prev: Addr, curr: Addr, next: Addr): State {
    var s1 := SetCell(s, prev, next);
    var s2 := SetNext(s1, curr, Link(curr, false));
    s2.(retired := s.retired + [curr])
  }

  /** In any state in which a marked node stands on the chain. */
  lemma UnlinkKeeps(s: State, chain: seq<Addr>, k: nat, prev: Addr, curr: Addr, next: Addr)
    requires Linked(s, chain) && StandsAt(s.heap, chain, prev, curr, k) && s.heap[curr].next == Link(next, true)
    ensures next == ChainNext(chain, k) && CellOf(s, prev) == Link(curr, false)
    ensures Linked(Unlinked(s, prev, curr, next), Cut(chain, k))
    ensures Helped(s, chain, Unlinked(s, prev, curr, next), Cut(chain, k))
    ensures if next == NULL then k == |Cut(chain, k)|
            else StandsAt(Unlinked(s, prev, curr, next).heap, Cut(chain, k), prev, next, k)
  {
    ChainAt(s, chain, k);
    if k > 0 { ChainAt(s, chain, k - 1); }
    var s1, s2 := SetCell(s, prev, next), Unlinked(s, prev, curr, next);
    CutLinked(s, s1, chain, k, prev);
    CutDistinct(chain, k);
    OffChain(s1, s2, Cut(chain, k), curr);
    if k > 0 { ChainDistinct(s, chain, k - 1, k); }
    UnlinkHelped(s, s2, chain, k, prev);
    if next != NULL { ChainAt(s, chain, k + 1); }
  }

  lemma UnlinkAlone(s: State, chain: seq<Addr>, k: nat, prev: Addr, curr: Addr, next: Addr)
    requires Linked(s, chain) && Placed(s.heap, chain, s.retired) && StandsAt(s.heap, chain, prev, curr, k)
    requires s.heap[curr].next == Link(next, true)
    ensures next == ChainNext(chain, k) && CellOf(s, prev) == Link(curr, false)
    ensures Linked(Unlinked(s, prev, curr, next), Cut(chain, k))
    ensures Helped(s, chain, Unlinked(s, prev, curr, next), Cut(chain, k))
    ensures Placed(Unlinked(s, prev, curr, next).heap, Cut(chain, k), s.retired + [curr])
    ensures if next == NULL then k == |Cut(chain, k)|
            else StandsAt(Unlinked(s, prev, curr, next).heap, Cut(chain, k), prev, next, k)
  {
    UnlinkKeeps(s, chain, k, prev, curr, next);
    hide Linked, Helped, Cut;
    UnlinkPlaced(s, Unlinked(s, prev, curr, next), chain, k);
  }

  /** The m-th node taken out from place `k` on. */
  lemma CutMore(q: seq<Addr>, gone: seq<Addr>, k: nat, m: nat)
    requires k + m < |q|
    ensures Cut(q[..k] + q[k + m..], k) == q[..k] + q[k + m + 1..] && (q[..k] + q[k + m..])[k] == q[k + m]
    ensures gone + q[k..k + m] + [q[k + m]] == gone + q[k..k + m + 1]
  {
  }

  lemma HelpedNot(s: State, chain: seq<Addr>)
    requires Linked(s, chain)
    ensures Helped(s, chain, s, chain)
  {
  }

  lemma OffChain(s: State, s': State, chain: seq<Addr>, x: Addr)
    requires Linked(s, chain) && x in s.heap && x !in chain
    requires s'.head == s.head && x in s'.heap && s'.heap == s.heap[x := s'.heap[x]]
    ensures Linked(s', chain)
  {
  }

  lemma UnlinkPlaced(s: State, s': State, chain: seq<Addr>, k: nat)
    requires Placed(s.heap, chain, s.retired) && k < |chain| && chain[k] in s.heap
    requires s'.heap.Keys == s.heap.Keys && s'.heap[chain[k]].next == Link(chain[k], false)
    requires forall x :: x in s.retired ==> s'.heap[x] == s.heap[x]
    ensures Placed(s'.heap, Cut(chain, k), s.retired + [chain[k]])
  {
    CutDistinct(chain, k);
    assert chain[k] in chain;
    hide Cut;
  }

  lemma UnlinkHelped(s: State, s': State, chain: seq<Addr>, k: nat, prev: Addr)
    requires AllIn(s.heap, chain) && Distinct(chain) && k < |chain| && s.heap[chain[k]].next.mark
    requires s'.heap.Keys == s.heap.Keys && s'.retired == s.retired + [chain[k]]
    requires forall x :: x in s.heap && (x != prev || prev == NULL) && x != chain[k] ==> s'.heap[x] == s.heap[x]
    requires prev != NULL && prev in s.heap ==> !s.heap[prev].next.mark && Alike(s.heap, s'.heap, prev)
    ensures Helped(s, chain, s', Cut(chain, k))
  {
    CutDistinct(chain, k);
    LiveCut(s.heap, chain, k);
    var cut := Cut(chain, k);
    forall i | 0 <= i < |cut| ensures Alike(s.heap, s'.heap, cut[i]) { assert cut[i] in cut; }
    LiveAgrees(s.heap, s'.heap, cut);
  }

  // ---------------------------------------------------------------- traversals

  lemma HeadAt(s: State, chain: seq<Addr>)
    requires Linked(s, chain)
    ensures if s.head == NULL then chain == [] else StandsAt(s.heap, chain, NULL, s.head, 0)
  {
  }

  lemma NextFrom(s: State, chain: seq<Addr>, prev: Addr, curr: Addr, k: nat)
    requires Linked(s, chain) && StandsAt(s.heap, chain, prev, curr, k) && !s.heap[curr].next.mark
    ensures var next := s.heap[curr].next.ptr;
      if next == NULL then k + 1 == |chain| else next != curr && StandsAt(s.heap, chain, curr, next, k + 1)
  {
    ChainAt(s, chain, k);
    if k + 1 < |chain| {
      ChainAt(s, chain, k + 1);
      ChainDistinct(s, chain, k, k + 1);
    }
  }

  /** Erase's mark on the first unmarked match. */
  function Marked(s: State, curr: Addr): State {
    SetNext(s, curr, Link(NodeAt(s, curr).next.ptr, true))
  }

  lemma MarkKeeps(s: State, chain: seq<Addr>, prev: Addr, curr: Addr, k: nat)
    requires Linked(s, chain) && StandsAt(s.heap, chain, prev, curr, k)
    requires !s.heap[curr].next.mark && Passed(s.heap, chain, k, s.heap[curr].value)
    ensures var v := s.heap[curr].value;
      && Linked(Marked(s, curr), chain) && StandsAt(Marked(s, curr).heap, chain, prev, curr, k)
      && v in Live(s.heap, chain) && Live(Marked(s, curr).heap, chain) == RemoveFirst(Live(s.heap, chain), v)
  {
    var heap := Marked(s, curr).heap;
    if k > 0 { ChainDistinct(s, chain, k - 1, k); }
    MarkRemovesFirst(s.heap, heap, chain, k, s.heap[curr].value);
    forall i | 0 <= i < |chain| ensures chain[i] in heap && heap[chain[i]].next.ptr == ChainNext(chain, i) {
      ChainAt(s, chain, i);
    }
  }

  lemma MarkAlone(s: State, chain: seq<Addr>, prev: Addr, curr: Addr, k: nat)
    requires Linked(s, chain) && Placed(s.heap, chain, s.retired) && StandsAt(s.heap, chain, prev, curr, k)
    requires !s.heap[curr].next.mark && Passed(s.heap, chain, k, s.heap[curr].value)
    ensures var v := s.heap[curr].value;
      && Linked(Marked(s, curr), chain) && Placed(Marked(s, curr).heap, chain, s.retired)
      && v in Live(s.heap, chain) && Live(Marked(s, curr).heap, chain) == RemoveFirst(Live(s.heap, chain), v)
      && StandsAt(Marked(s, curr).heap, chain, prev, curr, k)
  {
    MarkKeeps(s, chain, prev, curr, k);
    assert chain[k] in chain;
  }

  lemma PushLinked(s: State, s': State, chain: seq<Addr>, item: Addr, v: Value)
    requires Linked(s, chain) && item != NULL && item !in s.heap
    requires s'.head == item && s'.heap == s.heap[item := Node(v, Link(s.head, false))]
    ensures Linked(s', [item] + chain)
    ensures Live(s'.heap, [item] + chain) == [v] + Live(s.heap, chain)
  {
    forall i | 0 <= i < |chain| ensures chain[i] in s.heap && chain[i] != item { ChainAt(s, chain, i); }
    assert ([item] + chain)[1..] == chain;
    assert Agree(s.heap, s'.heap, chain);
    LiveAgrees(s.heap, s'.heap, chain);
    forall i | 0 <= i < |chain| ensures s'.heap[chain[i]].next.ptr == ChainNext([item] + chain, i + 1) {
      ChainAt(s, chain, i);
    }
  }

  /** The state after a push that nobody interfered with. */
  function PushedAlone(s: State, item: Addr, v: Value): State {
    s.(head := item, heap := s.heap[item := Node(v, Link(s.head, false))])
  }

  lemma PushAlone(s: State, chain: seq<Addr>, item: Addr, v: Value)
    requires Linked(s, chain) && Placed(s.heap, chain, s.retired) && item != NULL && item !in s.heap
    ensures var s' := PushedAlone(s, item, v);
      && Linked(s', [item] + chain) && Placed(s'.heap, [item] + chain, s'.retired)
      && Live(s'.heap, [item] + chain) == [v] + Live(s.heap, chain)
  {
    PushLinked(s, PushedAlone(s, item, v), chain, item, v);
  }
}
