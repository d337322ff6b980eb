/** Runs of the lock-free list that its users should know about: one node erased twice, a guard that
    drops the mark of a null link, and a node handed to safe_delete while a shared cell names it. */
module ListRuns {
  import opened ListProtocol
  import opened ListInvariant
  import opened ListSafety

  // ---------------------------------------------------------------- two erases, one node

  lemma {:induction false} ExecSnoc(s: State, acts: seq<Action>, a: Action)
    requires Legal(s, acts) && Enabled(Exec(s, acts), a)
    ensures Legal(s, acts + [a]) && Exec(s, acts + [a]) == Apply(Exec(s, acts), a)
    decreases |acts|
  {
    hide Apply, Enabled;
    if acts == [] {
      assert [a][1..] == [];
    } else {
      ExecSnoc(Apply(s, acts[0]), acts[1..], a);
      assert (acts + [a])[1..] == acts[1..] + [a];
    }
  }

  lemma Then(s: State, a: Action, s': State)
    requires Reachable(s) && Enabled(s, a) && Apply(s, a) == s'
    ensures Reachable(s')
  {
    hide Apply, Enabled, Init;
    var n: nat, acts :| Legal(Init(n), acts) && s == Exec(Init(n), acts);
    ExecSnoc(Init(n), acts, a);
  }

  /** Two threads and one node at address 1, with thread 0 having pushed it. */
  function OneNode(v: Value, head: Addr, next: Link, pc: Pc, last: seq<Result>, pc': Pc, last': seq<Result>): State {
    State(head, map[1 := Node(v, next)], [Thread(pc, [Pushed] + last), Thread(pc', last')], [])
  }

  lemma NodePushed(v: Value)
    ensures Reachable(OneNode(v, 1, Link(NULL, false), Idle, [], Idle, []))
  {
    var s := Init(2);
    assert Legal(s, []) && Exec(s, []) == s;
    assert s == State(NULL, map[], [Thread(Idle, []), Thread(Idle, [])], []);
    var heap := map[1 := Node(v, Link(NULL, false))];
    var s1 := State(NULL, heap, [Thread(PushStore(1, NULL), []), Thread(Idle, [])], []);
    Then(s, CallPush(0, 1, v), s1);
    var s2 := State(NULL, heap, [Thread(PushCas(1, NULL), []), Thread(Idle, [])], []);
    assert heap[1 := Node(v, Link(NULL, false))] == heap;
    Then(s1, Run(0), s2);
    var none: seq<Result> := [];
    assert none + [Pushed] == [Pushed] + none;
    Then(s2, Run(0), OneNode(v, 1, Link(NULL, false), Idle, none, Idle, []));
  }

  /** Thread 1 arrives at the node. */
  lemma NodeReached(v: Value)
    ensures Reachable(OneNode(v, 1, Link(NULL, false), Idle, [], Walk(Erase(v), NULL, 1), []))
  {
    var free, e := Link(NULL, false), Erase(v);
    NodePushed(v);
    Then(OneNode(v, 1, free, Idle, [], Idle, []), CallErase(1, v), OneNode(v, 1, free, Idle, [], Begin(e), []));
    Then(OneNode(v, 1, free, Idle, [], Begin(e), []), Run(1), OneNode(v, 1, free, Idle, [], Enter(e), []));
    Then(OneNode(v, 1, free, Idle, [], Enter(e), []), Run(1), OneNode(v, 1, free, Idle, [], Walk(e, NULL, 1), []));
  }

  /** Thread 0 arrives as well. */
  lemma NodeReachedTwice(v: Value)
    ensures Reachable(OneNode(v, 1, Link(NULL, false), Walk(Erase(v), NULL, 1), [], Walk(Erase(v), NULL, 1), []))
  {
    var free, e := Link(NULL, false), Erase(v);
    var at := Walk(e, NULL, 1);
    NodeReached(v);
    Then(OneNode(v, 1, free, Idle, [], at, []), CallErase(0, v), OneNode(v, 1, free, Begin(e), [], at, []));
    Then(OneNode(v, 1, free, Begin(e), [], at, []), Run(0), OneNode(v, 1, free, Enter(e), [], at, []));
    Then(OneNode(v, 1, free, Enter(e), [], at, []), Run(0), OneNode(v, 1, free, at, [], at, []));
  }

  /** Thread 0 marks the node, returns 1 and calls size(). */
  lemma NodeMarked(v: Value)
    ensures Reachable(OneNode(v, 1, Link(NULL, true), Enter(Size(1)), [Erased(1)], Walk(Erase(v), NULL, 1), []))
  {
    var free, gone, at := Link(NULL, false), Link(NULL, true), Walk(Erase(v), NULL, 1);
    var mark := TryMark(Erase(v), NULL, 1, free);
    NodeReachedTwice(v);
    Then(OneNode(v, 1, free, at, [], at, []), Run(0), OneNode(v, 1, free, mark, [], at, []));
    var none: seq<Result> := [];
    assert ([Pushed] + none) + [Erased(1)] == [Pushed] + [Erased(1)];
    Then(OneNode(v, 1, free, mark, none, at, none), Run(0), OneNode(v, 1, gone, Idle, [Erased(1)], at, none));
    Then(OneNode(v, 1, gone, Idle, [Erased(1)], at, []), CallSize(0),
         OneNode(v, 1, gone, Enter(Size(1)), [Erased(1)], at, []));
  }

  /** Thread 0 unlinks the node. */
  lemma NodeUnlinked(v: Value)
    ensures Reachable(OneNode(v, NULL, Link(NULL, true), SelfLink(Size(1), NULL, 1, Link(NULL, true)), [Erased(1)],
                              Walk(Erase(v), NULL, 1), []))
  {
    var gone, z, at, one := Link(NULL, true), Size(1), Walk(Erase(v), NULL, 1), [Erased(1)];
    var out := Unlink(z, NULL, 1, gone);
    NodeMarked(v);
    Then(OneNode(v, 1, gone, Enter(z), one, at, []), Run(0), OneNode(v, 1, gone, Walk(z, NULL, 1), one, at, []));
    Then(OneNode(v, 1, gone, Walk(z, NULL, 1), one, at, []), Run(0), OneNode(v, 1, gone, out, one, at, []));
    Then(OneNode(v, 1, gone, out, one, at, []), Run(0),
         OneNode(v, NULL, gone, SelfLink(z, NULL, 1, gone), one, at, []));
  }

  /** Thread 0 self-links it; thread 1 marks the self-link. */
  lemma NodeMarkedAgain(v: Value)
    ensures exists pc :: Reachable(OneNode(v, NULL, Link(1, true), pc, [Erased(1)], Idle, [Erased(1)]))
  {
    var gone, self, e, one := Link(NULL, true), Link(1, false), Erase(v), [Erased(1)];
    var own, end := SelfLink(Size(1), NULL, 1, gone), Retire(Size(1), NULL, 1, gone);
    var mark := TryMark(e, NULL, 1, self);
    NodeUnlinked(v);
    Then(OneNode(v, NULL, gone, own, one, Walk(e, NULL, 1), []), Run(0),
         OneNode(v, NULL, self, end, one, Walk(e, NULL, 1), []));
    Then(OneNode(v, NULL, self, end, one, Walk(e, NULL, 1), []), Run(1), OneNode(v, NULL, self, end, one, mark, []));
    var none: seq<Result> := [];
    assert none + one == one;
    Then(OneNode(v, NULL, self, end, one, mark, none), Run(1), OneNode(v, NULL, Link(1, true), end, one, Idle, one));
  }

  /** One push, two erases of its value, and both return 1. So LinearizationPoints cannot promise
      that every returned 1 took a value out. */
  lemma OneNodeErasedTwice(v: Value) returns (s: State)
    ensures Reachable(s) && s.heap.Keys == {1} && |s.ths| == 2
    ensures s.ths[0].last == [Pushed, Erased(1)] && s.ths[1].last == [Erased(1)]
  {
    NodeMarkedAgain(v);
    var pc :| Reachable(OneNode(v, NULL, Link(1, true), pc, [Erased(1)], Idle, [Erased(1)]));
    s := OneNode(v, NULL, Link(1, true), pc, [Erased(1)], Idle, [Erased(1)]);
  }

  // ---------------------------------------------------------------- a guard that drops the mark

  /** One thread pushes a value and sets out to erase it. */
  lemma NodeFound(v: Value)
    ensures Reachable(OneNode(v, 1, Link(NULL, false), Walk(Erase(v), NULL, 1), [], Idle, []))
  {
    var free, e := Link(NULL, false), Erase(v);
    NodePushed(v);
    Then(OneNode(v, 1, free, Idle, [], Idle, []), CallErase(0, v), OneNode(v, 1, free, Begin(e), [], Idle, []));
    Then(OneNode(v, 1, free, Begin(e), [], Idle, []), Run(0), OneNode(v, 1, free, Enter(e), [], Idle, []));
    Then(OneNode(v, 1, free, Enter(e), [], Idle, []), Run(0), OneNode(v, 1, free, Walk(e, NULL, 1), [], Idle, []));
  }

  /** push(v); erase(v). */
  lemma NodeErased(v: Value)
    ensures Reachable(OneNode(v, 1, Link(NULL, true), Idle, [Erased(1)], Idle, []))
  {
    var free, mark, none: seq<Result> := Link(NULL, false), TryMark(Erase(v), NULL, 1, Link(NULL, false)), [];
    NodeFound(v);
    Then(OneNode(v, 1, free, Walk(Erase(v), NULL, 1), none, Idle, none), Run(0),
         OneNode(v, 1, free, mark, none, Idle, none));
    assert ([Pushed] + none) + [Erased(1)] == [Pushed] + [Erased(1)];
    Then(OneNode(v, 1, free, mark, none, Idle, none), Run(0),
         OneNode(v, 1, Link(NULL, true), Idle, [Erased(1)], Idle, none));
  }

  /** push(v); erase(v); and a second erase(v) that has come to the dead node. */
  lemma DeadNodeFound(v: Value)
    ensures Reachable(OneNode(v, 1, Link(NULL, true), Walk(Erase(v), NULL, 1), [Erased(1)], Idle, []))
  {
    var gone, e, one := Link(NULL, true), Erase(v), [Erased(1)];
    NodeErased(v);
    Then(OneNode(v, 1, gone, Idle, one, Idle, []), CallErase(0, v), OneNode(v, 1, gone, Begin(e), one, Idle, []));
    Then(OneNode(v, 1, gone, Begin(e), one, Idle, []), Run(0), OneNode(v, 1, gone, Enter(e), one, Idle, []));
    Then(OneNode(v, 1, gone, Enter(e), one, Idle, []), Run(0), OneNode(v, 1, gone, Walk(e, NULL, 1), one, Idle, []));
  }

  /** push(v); erase(v); size() may return 1 although nothing is live. */
  lemma SizeCountsDeadTail(v: Value) returns (s: State)
    ensures Reachable(s) && |s.ths| == 2 && s.ths[0].last == [Pushed, Erased(1), Counted(1)]
    ensures Linked(s, [1]) && Live(s.heap, [1]) == []
  {
    var gone, z, at, one := Link(NULL, true), Size(1), Walk(Erase(v), NULL, 1), [Erased(1)];
    NodeMarked(v);
    Then(OneNode(v, 1, gone, Enter(z), one, at, []), Run(0), OneNode(v, 1, gone, Walk(z, NULL, 1), one, at, []));
    s := OneNode(v, 1, gone, Idle, [Erased(1), Counted(1)], at, []);
    assert [Pushed] + one + [Counted(1)] == [Pushed] + [Erased(1), Counted(1)];
    Then(OneNode(v, 1, gone, Walk(z, NULL, 1), one, at, []), Drop(0), s);
  }

  // ---------------------------------------------------------------- retired, but still named

  /** Two threads and two nodes of value `v`, at address 1 (pushed first) and 2. */
  function TwoNodes(v: Value, head: Addr, next2: Link, next1: Link, pc: Pc, last: seq<Result>,
                    pc': Pc, last': seq<Result>): State
  {
    State(head, map[1 := Node(v, next1), 2 := Node(v, next2)], [Thread(pc, last), Thread(pc', last')], [])
  }

  lemma SecondPushed(v: Value)
    ensures Reachable(TwoNodes(v, 2, Link(1, false), Link(NULL, false), Idle, [Pushed, Pushed], Idle, []))
  {
    var free, none: seq<Result> := Link(NULL, false), [];
    NodePushed(v);
    var s := OneNode(v, 1, free, Idle, none, Idle, none);
    assert [Pushed] + none == [Pushed];
    var s1 := TwoNodes(v, 1, free, free, PushStore(2, 1), [Pushed], Idle, none);
    Then(s, CallPush(0, 2, v), s1);
    var s2 := TwoNodes(v, 1, Link(1, false), free, PushCas(2, 1), [Pushed], Idle, none);
    Then(s1, Run(0), s2);
    assert [Pushed] + [Pushed] == [Pushed, Pushed];
    Then(s2, Run(0), TwoNodes(v, 2, Link(1, false), free, Idle, [Pushed, Pushed], Idle, none));
  }

  /** Thread 0 walks to node 2 to erase it. */
  lemma SecondReached(v: Value)
    ensures Reachable(TwoNodes(v, 2, Link(1, false), Link(NULL, false), Walk(Erase(v), NULL, 2), [Pushed, Pushed], Idle, []))
  {
    var free, next, e, two := Link(NULL, false), Link(1, false), Erase(v), [Pushed, Pushed];
    SecondPushed(v);
    Then(TwoNodes(v, 2, next, free, Idle, two, Idle, []), CallErase(0, v),
         TwoNodes(v, 2, next, free, Begin(e), two, Idle, []));
    Then(TwoNodes(v, 2, next, free, Begin(e), two, Idle, []), Run(0),
         TwoNodes(v, 2, next, free, Enter(e), two, Idle, []));
    Then(TwoNodes(v, 2, next, free, Enter(e), two, Idle, []), Run(0),
         TwoNodes(v, 2, next, free, Walk(e, NULL, 2), two, Idle, []));
  }

  /** It marks node 2. */
  lemma SecondMarked(v: Value)
    ensures Reachable(TwoNodes(v, 2, Link(1, true), Link(NULL, false), Idle, [Pushed, Pushed, Erased(1)], Idle, []))
  {
    var free, next, e, two := Link(NULL, false), Link(1, false), Erase(v), [Pushed, Pushed];
    SecondReached(v);
    var mark := TryMark(e, NULL, 2, next);
    Then(TwoNodes(v, 2, next, free, Walk(e, NULL, 2), two, Idle, []), Run(0),
         TwoNodes(v, 2, next, free, mark, two, Idle, []));
    assert two + [Erased(1)] == [Pushed, Pushed, Erased(1)];
    Then(TwoNodes(v, 2, next, free, mark, two, Idle, []), Run(0),
         TwoNodes(v, 2, Link(1, true), free, Idle, [Pushed, Pushed, Erased(1)], Idle, []));
  }

  /** Thread 0 finds it marked in size(). */
  lemma SecondFound(v: Value)
    ensures Reachable(TwoNodes(v, 2, Link(1, true), Link(NULL, false), Unlink(Size(1), NULL, 2, Link(1, true)),
                               [Pushed, Pushed, Erased(1)], Idle, []))
  {
    var free, gone, z, three := Link(NULL, false), Link(1, true), Size(1), [Pushed, Pushed, Erased(1)];
    SecondMarked(v);
    Then(TwoNodes(v, 2, gone, free, Idle, three, Idle, []), CallSize(0),
         TwoNodes(v, 2, gone, free, Enter(z), three, Idle, []));
    Then(TwoNodes(v, 2, gone, free, Enter(z), three, Idle, []), Run(0),
         TwoNodes(v, 2, gone, free, Walk(z, NULL, 2), three, Idle, []));
    Then(TwoNodes(v, 2, gone, free, Walk(z, NULL, 2), three, Idle, []), Run(0),
         TwoNodes(v, 2, gone, free, Unlink(z, NULL, 2, gone), three, Idle, []));
  }

  /** What thread 0 has before it, once it has unlinked node 2 and stalls. */
  function Stalled(): Pc {
    SelfLink(Size(1), NULL, 2, Link(1, true))
  }

  /** Thread 0 unlinks node 2 and stalls; thread 1 sets out to erase node 1. */
  lemma FirstReached(v: Value)
    ensures Reachable(TwoNodes(v, 1, Link(1, true), Link(NULL, false), Stalled(),
                               [Pushed, Pushed, Erased(1)], Enter(Erase(v)), []))
  {
    var free, gone, e, three := Link(NULL, false), Link(1, true), Erase(v), [Pushed, Pushed, Erased(1)];
    SecondFound(v);
    Then(TwoNodes(v, 2, gone, free, Unlink(Size(1), NULL, 2, gone), three, Idle, []), Run(0),
         TwoNodes(v, 1, gone, free, Stalled(), three, Idle, []));
    Then(TwoNodes(v, 1, gone, free, Stalled(), three, Idle, []), CallErase(1, v),
         TwoNodes(v, 1, gone, free, Stalled(), three, Begin(e), []));
    Then(TwoNodes(v, 1, gone, free, Stalled(), three, Begin(e), []), Run(1),
         TwoNodes(v, 1, gone, free, Stalled(), three, Enter(e), []));
  }

  /** Thread 1 marks node 1. */
  lemma FirstMarked(v: Value)
    ensures Reachable(TwoNodes(v, 1, Link(1, true), Link(NULL, true), Stalled(),
                               [Pushed, Pushed, Erased(1)], Idle, [Erased(1)]))
  {
    var free, gone, e, three := Link(NULL, false), Link(1, true), Erase(v), [Pushed, Pushed, Erased(1)];
    FirstReached(v);
    var mark, none: seq<Result> := TryMark(e, NULL, 1, free), [];
    Then(TwoNodes(v, 1, gone, free, Stalled(), three, Enter(e), none), Run(1),
         TwoNodes(v, 1, gone, free, Stalled(), three, Walk(e, NULL, 1), none));
    Then(TwoNodes(v, 1, gone, free, Stalled(), three, Walk(e, NULL, 1), none), Run(1),
         TwoNodes(v, 1, gone, free, Stalled(), three, mark, none));
    assert none + [Erased(1)] == [Erased(1)];
    Then(TwoNodes(v, 1, gone, free, Stalled(), three, mark, none), Run(1),
         TwoNodes(v, 1, gone, Link(NULL, true), Stalled(), three, Idle, [Erased(1)]));
  }

  /** Thread 1 finds it marked in size(). */
  lemma FirstFound(v: Value)
    ensures Reachable(TwoNodes(v, 1, Link(1, true), Link(NULL, true), Stalled(), [Pushed, Pushed, Erased(1)],
                               Unlink(Size(1), NULL, 1, Link(NULL, true)), [Erased(1)]))
  {
    var out, gone, z, three, one := Link(NULL, true), Link(1, true), Size(1), [Pushed, Pushed, Erased(1)], [Erased(1)];
    FirstMarked(v);
    Then(TwoNodes(v, 1, gone, out, Stalled(), three, Idle, one), CallSize(1),
         TwoNodes(v, 1, gone, out, Stalled(), three, Enter(z), one));
    Then(TwoNodes(v, 1, gone, out, Stalled(), three, Enter(z), one), Run(1),
         TwoNodes(v, 1, gone, out, Stalled(), three, Walk(z, NULL, 1), one));
    Then(TwoNodes(v, 1, gone, out, Stalled(), three, Walk(z, NULL, 1), one), Run(1),
         TwoNodes(v, 1, gone, out, Stalled(), three, Unlink(z, NULL, 1, out), one));
  }

  /** Thread 1 is about to hand node 1 to safe_delete while node 2, unlinked by thread 0 but not
      yet self-linked, still names it: the state DisciplineExact describes does arise. */
  lemma RetiredWhileNamed(v: Value) returns (s: State)
    ensures Reachable(s) && |s.ths| == 2 && s.ths[1].pc.Retire? && Named(s, s.ths[1].pc.curr)
  {
    var out, gone, z, three, one := Link(NULL, true), Link(1, true), Size(1), [Pushed, Pushed, Erased(1)], [Erased(1)];
    FirstFound(v);
    Then(TwoNodes(v, 1, gone, out, Stalled(), three, Unlink(z, NULL, 1, out), one), Run(1),
         TwoNodes(v, NULL, gone, out, Stalled(), three, SelfLink(z, NULL, 1, out), one));
    s := TwoNodes(v, NULL, gone, Link(1, false), Stalled(), three, Retire(z, NULL, 1, out), one);
    Then(TwoNodes(v, NULL, gone, out, Stalled(), three, SelfLink(z, NULL, 1, out), one), Run(1), s);
    var g := Stalled();
    assert s.ths[0].pc == g && g.next.ptr == 1;
    DisciplineExact(s, 1);
  }
}
