/** What every interleaving of the list operations keeps. */
module ListInvariant {
  import opened ListProtocol

  /** Witnesses: the chain from _head, a rank that falls along every link, and the nodes that
      were unlinked. */
  datatype Shape = Shape(chain: seq<Addr>, rank: map<Addr, nat>, gone: set<Addr>)

  ghost predicate Distinct(q: seq<Addr>) {
    forall i, j :: 0 <= i < j < |q| ==> q[i] != q[j]
  }

  function ChainNext(chain: seq<Addr>, i: int): Addr
    requires 0 <= i < |chain|
  {
    if i + 1 < |chain| then chain[i + 1] else NULL
  }

  function First(chain: seq<Addr>): Addr {
    if chain == [] then NULL else chain[0]
  }

  /** The chain starts at _head, follows `next`, ends in null and never comes back. */
  ghost predicate Linked(s: State, chain: seq<Addr>) {
    && s.head == First(chain)
    && Distinct(chain)
    && (forall i :: 0 <= i < |chain| ==>
          chain[i] != NULL && chain[i] in s.heap && s.heap[chain[i]].next.ptr == ChainNext(chain, i))
  }

  ghost predicate Below(g: Shape, x: Addr, y: Addr) {
    x in g.rank && y in g.rank && g.rank[x] < g.rank[y]
  }

  /** The nodes that were ever linked are those on the chain and those gone. */
  ghost predicate Ranked(s: State, g: Shape) {
    && (forall x :: x in g.rank <==> x in g.chain || x in g.gone)
    && (forall x :: x in g.gone ==> x !in g.chain)
    && (forall x :: x in g.rank ==> x != NULL && x in s.heap && g.rank[x] < |g.rank|)
    && (forall x :: x in g.rank ==> NextOk(s, g, x))
  }

  ghost predicate NextOk(s: State, g: Shape, x: Addr)
    requires x in s.heap
  {
    var l := s.heap[x].next;
    && (l.ptr == NULL || l.ptr == x || Below(g, l.ptr, x))
    && (x in g.gone ==> l.mark || l.ptr == x)
    && (x !in g.gone ==> l.ptr != x)
  }

  ghost predicate PrevOk(g: Shape, prev: Addr, curr: Addr) {
    curr in g.rank && (prev == NULL || Below(g, curr, prev))
  }

  predicate Private(pc: Pc) {
    pc.PushStore? || pc.PushCas?
  }

  predicate Removing(pc: Pc) {
    pc.SelfLink? || pc.Retire?
  }

  ghost predicate PcOk(s: State, g: Shape, pc: Pc) {
    match pc
    case Idle => true
    case PushStore(item, temp) => item in s.heap && item !in g.rank && item != NULL && (temp == NULL || temp in g.rank)
    case PushCas(item, temp) =>
      item in s.heap && item !in g.rank && item != NULL && (temp == NULL || temp in g.rank)
      && s.heap[item].next == Link(temp, false)
    case Begin(_) => true
    case Enter(_) => true
    case Walk(_, prev, curr) => PrevOk(g, prev, curr)
    case TryMark(op, prev, curr, next) =>
      PrevOk(g, prev, curr) && !next.mark && op.Erase? && curr in s.heap && s.heap[curr].value == op.v
    case Unlink(_, prev, curr, next) =>
      && PrevOk(g, prev, curr) && next.mark
      && (next.ptr == NULL || next.ptr == curr || Below(g, next.ptr, curr))
      && (curr in s.heap && curr !in g.gone ==> s.heap[curr].next == next)
    case SelfLink(_, prev, curr, next) =>
      && PrevOk(g, prev, curr) && curr in g.gone && curr in s.heap && s.heap[curr].next == next && next.mark
      && (next.ptr == NULL || Below(g, next.ptr, curr))
    case Retire(_, prev, curr, next) =>
      && PrevOk(g, prev, curr) && curr in g.gone && curr in s.heap && s.heap[curr].next.ptr == curr
      && (next.ptr == NULL || Below(g, next.ptr, curr))
    case ReNext(_, prev, curr) => PrevOk(g, prev, curr)
  }

  ghost predicate Threads(s: State, g: Shape) {
    forall t :: 0 <= t < |s.ths| ==> PcOk(s, g, s.ths[t].pc)
  }

  /** New nodes belong to one pusher each, unlinked nodes to one remover each until they are
      handed to safe_delete. */
  ghost predicate Custody(s: State, g: Shape) {
    && (forall t, r :: 0 <= t < r < |s.ths| && Private(s.ths[t].pc) && Private(s.ths[r].pc) ==>
          s.ths[t].pc.item != s.ths[r].pc.item)
    && (forall t, r :: 0 <= t < r < |s.ths| && Removing(s.ths[t].pc) && Removing(s.ths[r].pc) ==>
          s.ths[t].pc.curr != s.ths[r].pc.curr)
    && (forall t :: 0 <= t < |s.ths| && Removing(s.ths[t].pc) ==> s.ths[t].pc.curr !in s.retired)
    && Distinct(s.retired)
    && (forall x :: x in s.retired ==> x in g.gone && x in s.heap && s.heap[x].next.ptr == x)
    && (forall x :: x in g.gone && x !in s.retired ==> Remover(s, x))
    && (forall x :: x in s.heap && x !in g.rank ==> Pusher(s, x))
  }

  ghost predicate Remover(s: State, x: Addr) {
    exists t :: 0 <= t < |s.ths| && Removing(s.ths[t].pc) && s.ths[t].pc.curr == x
  }

  ghost predicate Pusher(s: State, x: Addr) {
    exists t :: 0 <= t < |s.ths| && Private(s.ths[t].pc) && s.ths[t].pc.item == x
  }

  ghost predicate Inv(s: State, g: Shape) {
    Linked(s, g.chain) && Ranked(s, g) && Threads(s, g) && Custody(s, g)
  }

  lemma InitInv(threads: nat)
    ensures Inv(Init(threads), Shape([], map[], {}))
  {
  }

  // ---------------------------------------------------------------- steps of one thread

  lemma SameHeap(s: State, s': State, g: Shape)
    requires Linked(s, g.chain) && Ranked(s, g) && s'.heap == s.heap && s'.head == s.head
    ensures Linked(s', g.chain) && Ranked(s', g)
  {
    forall x | x in g.rank ensures x in s'.heap && NextOk(s', g, x) { assert NextOk(s, g, x); }
  }

  lemma SamePc(s: State, s': State, g: Shape, pc: Pc)
    requires PcOk(s, g, pc) && s'.heap == s.heap
    ensures PcOk(s', g, pc)
  {
  }

  lemma ThreadsSame(s: State, s': State, g: Shape, t: nat)
    requires Threads(s, g) && t < |s.ths| && |s'.ths| == |s.ths| && s'.heap == s.heap
    requires forall r :: 0 <= r < |s.ths| && r != t ==> s'.ths[r] == s.ths[r]
    requires PcOk(s, g, s'.ths[t].pc)
    ensures Threads(s', g)
  {
    hide PcOk;
    forall r | 0 <= r < |s'.ths| ensures PcOk(s', g, s'.ths[r].pc) {
      if r != t { assert PcOk(s, g, s.ths[r].pc); }
      SamePc(s, s', g, s'.ths[r].pc);
    }
  }

  /** A step that leaves heap, head and log alone. */
  lemma GoFrame(s: State, g: Shape, t: nat, th: Thread)
    requires Inv(s, g) && t < |s.ths| && PcOk(s, g, th.pc)
    requires !Private(th.pc) && !Private(s.ths[t].pc) && !Removing(th.pc) && !Removing(s.ths[t].pc)
    ensures Inv(s.(ths := s.ths[t := th]), g)
  {
    var s' := s.(ths := s.ths[t := th]);
    assert forall x :: x in s.retired ==> x in s'.heap && s'.heap[x].next.ptr == x;
    hide PcOk, Linked, Ranked, Threads, Custody;
    SameHeap(s, s', g);
    ThreadsSame(s, s', g, t);
    CustodySame(s, s', g, t);
  }

  /** Custody when thread `t` neither has nor takes a node. */
  lemma CustodySame(s: State, s': State, g: Shape, t: nat)
    requires Custody(s, g) && t < |s.ths| && |s'.ths| == |s.ths|
    requires !Private(s.ths[t].pc) && !Removing(s.ths[t].pc) && !Private(s'.ths[t].pc) && !Removing(s'.ths[t].pc)
    requires forall r :: 0 <= r < |s.ths| && r != t ==> s'.ths[r] == s.ths[r]
    requires s'.retired == s.retired && s'.heap.Keys == s.heap.Keys
    requires forall x :: x in s.retired ==> x in s'.heap && s'.heap[x].next.ptr == x
    ensures Custody(s', g)
  {
    forall x | x in g.gone && x !in s.retired ensures Remover(s', x) {
      var r :| 0 <= r < |s.ths| && Removing(s.ths[r].pc) && s.ths[r].pc.curr == x;
      assert s'.ths[r] == s.ths[r];
    }
    forall x | x in s'.heap && x !in g.rank ensures Pusher(s', x) {
      assert Pusher(s, x);
      var r :| 0 <= r < |s.ths| && Private(s.ths[r].pc) && s.ths[r].pc.item == x;
      assert s'.ths[r] == s.ths[r];
    }
  }
}
