/** Calls of erase and size that run alone, started in any state of the list, with guards that keep
    the mark of a null link or with guards that always drop it, as counting_manager's do. Other
    threads may be in the middle of something; they do not move. */
module ListDropping {
  import opened ListProtocol
  import opened ListInvariant
  import opened ListSteps
  import opened ListSafety
  import opened ListAlone
  import opened ListRuns

  /** What thread `t` does next. */
  function Next(s: State, t: nat, drops: bool): Action {
    if drops && Enabled(s, Drop(t)) then Drop(t) else Run(t)
  }

  function Steps(s: State, t: nat, drops: bool, k: nat): State
    decreases k
  {
    if k == 0 then s else Steps(Apply(s, Next(s, t, drops)), t, drops, k - 1)
  }

  ghost predicate Ends(s: State, t: nat, drops: bool) {
    exists k: nat :: Th(Steps(s, t, drops, k), t).pc.Idle?
  }

  /** The linked live values are `q`. */
  ghost predicate HasLive(s: State, q: seq<Value>) {
    exists chain :: Linked(s, chain) && Live(s.heap, chain) == q
  }

  /** Whenever the call has ended, `r` is what it returned and `q` what it left. */
  ghost predicate Gives(s: State, t: nat, drops: bool, r: Result, q: seq<Value>) {
    forall k: nat :: Th(Steps(s, t, drops, k), t).pc.Idle? ==>
      && Th(Steps(s, t, drops, k), t).last == Th(s, t).last + [r]
      && HasLive(Steps(s, t, drops, k), q)
  }

  /** What a guard of a link shows. */
  function Shown(l: Link, drops: bool): Link {
    if drops && l.ptr == NULL then Link(NULL, false) else l
  }

  /** The last node is marked and the guards do not show it. */
  predicate DeadTail(heap: map<Addr, Node>, chain: seq<Addr>, drops: bool)
    requires AllIn(heap, chain)
  {
    drops && chain != [] && heap[chain[|chain| - 1]].next.mark
  }

  /** erase(v) meets a dead last node of its value, and nothing before it that it could mark. */
  predicate Doomed(heap: map<Addr, Node>, chain: seq<Addr>, op: Op, drops: bool)
    requires AllIn(heap, chain)
  {
    op.Erase? && DeadTail(heap, chain, drops) && heap[chain[|chain| - 1]].value == op.v && op.v !in Live(heap, chain)
  }

  function Answer(heap: map<Addr, Node>, chain: seq<Addr>, op: Op, drops: bool): Result
    requires AllIn(heap, chain)
  {
    match op
    case Erase(v) => Erased(if v in Live(heap, chain) then 1 else 0)
    case Size(_) => Counted(|Live(heap, chain)| + if DeadTail(heap, chain, drops) then 1 else 0)
  }

  function Outcome(q: seq<Value>, op: Op): seq<Value> {
    match op
    case Erase(v) => RemoveFirst(q, v)
    case Size(_) => q
  }

  // ---------------------------------------------------------------- the two fates of a call

  /** About to guard the link of a dead last node of erase's own value. */
  predicate Spinning(s: State, t: nat) {
    && t < |s.ths| && s.ths[t].pc.Walk? && s.ths[t].pc.op.Erase? && s.ths[t].pc.curr in s.heap
    && s.heap[s.ths[t].pc.curr] == Node(s.ths[t].pc.op.v, Link(NULL, true))
  }

  /** Where the call of `op` that runs in `s` comes to. */
  ghost predicate Fate(s: State, chain: seq<Addr>, t: nat, op: Op, drops: bool, s': State, chain': seq<Addr>) {
    && Linked(s, chain) && t < |s.ths|
    && if Doomed(s.heap, chain, op, drops) then Spinning(s', t)
    else
      && t < |s'.ths| && s'.ths[t] == Thread(Idle, s.ths[t].last + [Answer(s.heap, chain, op, drops)])
      && Linked(s', chain') && Live(s'.heap, chain') == Outcome(Live(s.heap, chain), op)
  }

  /** Both chains end with the same node, as far as it matters to guards that drop. */
  ghost predicate SameEnd(heap: map<Addr, Node>, chain: seq<Addr>, heap1: map<Addr, Node>, chain1: seq<Addr>, drops: bool) {
    drops ==>
      if chain == [] then chain1 == []
      else chain1 != [] && Alike(heap, heap1, chain[|chain| - 1]) && chain1[|chain1| - 1] == chain[|chain| - 1]
  }

  /** Nothing that decides the fate of a call differs. */
  ghost predicate Like(s: State, chain: seq<Addr>, s1: State, chain1: seq<Addr>, t: nat, drops: bool) {
    && Linked(s, chain) && Linked(s1, chain1) && Live(s1.heap, chain1) == Live(s.heap, chain)
    && t < |s.ths| == |s1.ths| && s1.ths[t].last == s.ths[t].last
    && SameEnd(s.heap, chain, s1.heap, chain1, drops)
  }

  lemma FateBack(s: State, chain: seq<Addr>, s1: State, chain1: seq<Addr>, t: nat, op: Op, op1: Op, drops: bool,
                 s': State, chain': seq<Addr>)
    requires Like(s, chain, s1, chain1, t, drops) && (op == op1 || (op.Size? && op1.Size?))
    requires Fate(s1, chain1, t, op1, drops, s', chain')
    ensures Fate(s, chain, t, op, drops, s', chain')
  {
    hide Live, RemoveFirst;
  }

  lemma OneStep(s: State, t: nat, drops: bool, k: nat)
    ensures Steps(s, t, drops, k + 1) == Steps(Apply(s, Next(s, t, drops)), t, drops, k)
  {
  }

  lemma MoreSteps(s: State, t: nat, drops: bool, k: nat, m: nat)
    ensures Steps(Steps(s, t, drops, k), t, drops, m) == Steps(s, t, drops, k + m)
    decreases k
  {
    hide Apply, Enabled;
  }

  // ---------------------------------------------------------------- the end of a traversal

  ghost predicate Behind(heap: map<Addr, Node>, chain: seq<Addr>, k: nat, op: Op) {
    match op
    case Erase(v) => Passed(heap, chain, k, v)
    case Size(n) => n == k + 1 && k <= |chain| && forall j :: 0 <= j < k ==> chain[j] in heap && !heap[chain[j]].next.mark
  }

  /** The traversal of `op` has come to `chain[k]`. */
  ghost predicate On(s: State, chain: seq<Addr>, t: nat, op: Op, k: nat) {
    && Linked(s, chain) && t < |s.ths| && s.ths[t].pc.Walk? && s.ths[t].pc.op == op
    && StandsAt(s.heap, chain, s.ths[t].pc.prev, s.ths[t].pc.curr, k) && Behind(s.heap, chain, k, op)
  }

  /** The dead last node does not show among the live values. */
  lemma TailDead(s: State, chain: seq<Addr>)
    requires Linked(s, chain) && DeadTail(s.heap, chain, true)
    ensures var rest := chain[..|chain| - 1];
      AllIn(s.heap, rest) && Live(s.heap, chain) == Live(s.heap, rest)
  {
    LiveCut(s.heap, chain, |chain| - 1);
    assert Cut(chain, |chain| - 1) == chain[..|chain| - 1];
  }

  /** At a last node that shows neither a mark nor erase's value the call returns the answer. */
  lemma AnswerAtEnd(s: State, chain: seq<Addr>, op: Op, drops: bool)
    requires Linked(s, chain) && chain != [] && Behind(s.heap, chain, |chain| - 1, op)
    requires var last := s.heap[chain[|chain| - 1]];
      (last.next.mark ==> drops) && (op.Erase? ==> last.value != op.v)
    ensures !Doomed(s.heap, chain, op, drops) && Outcome(Live(s.heap, chain), op) == Live(s.heap, chain)
    ensures Answer(s.heap, chain, op, drops) == if op.Erase? then Erased(0) else Counted(op.n)
  {
    var q := if DeadTail(s.heap, chain, drops) then chain[..|chain| - 1] else chain;
    if DeadTail(s.heap, chain, drops) { TailDead(s, chain); }
    if op.Erase? { NoMatch(s.heap, q, op.v); } else { AllLive(s.heap, q); }
  }

  // ---------------------------------------------------------------- for the methods of the class

  /** An unmarked match is shown as it is, unless the call is doomed. */
  lemma NotHidden(s: State, chain: seq<Addr>, k: nat, v: Value, drops: bool)
    requires Linked(s, chain) && k < |chain| && Passed(s.heap, chain, k, v) && !Doomed(s.heap, chain, Erase(v), drops)
    requires s.heap[chain[k]].value == v && !Shown(s.heap[chain[k]].next, drops).mark
    ensures !s.heap[chain[k]].next.mark
  {
    NullAt(s, chain, k);
    if s.heap[chain[k]].next.mark {
      TailDead(s, chain);
      NoMatch(s.heap, chain[..k], v);
    }
  }

  lemma NullAt(s: State, chain: seq<Addr>, k: nat)
    requires Linked(s, chain) && k < |chain|
    ensures s.heap[chain[k]].next.ptr == NULL <==> k + 1 == |chain|
  {
    ChainAt(s, chain, k);
    if k + 1 < |chain| { assert chain[k + 1] != NULL; }
  }

  lemma StillAnswers(s: State, chain: seq<Addr>, s1: State, chain1: seq<Addr>, op: Op, drops: bool)
    requires Helped(s, chain, s1, chain1) && SameEnd(s.heap, chain, s1.heap, chain1, drops)
    ensures Doomed(s1.heap, chain1, op, drops) == Doomed(s.heap, chain, op, drops)
    ensures DeadTail(s1.heap, chain1, drops) == DeadTail(s.heap, chain, drops)
  {
  }

  lemma NoTail(heap: map<Addr, Node>, chain: seq<Addr>, drops: bool)
    requires chain == []
    ensures !DeadTail(heap, chain, drops) && Live(heap, chain) == []
  {
  }

  /** Thread `t` is at `pc` and nothing else differs. */
  predicate Moved(s: State, t: nat, pc: Pc, s1: State) {
    t < |s.ths| && s1 == s.(ths := s.ths[t := s.ths[t].(pc := pc)])
  }

  lemma MovedLike(s: State, chain: seq<Addr>, t: nat, pc: Pc, s1: State, drops: bool)
    requires Moved(s, t, pc, s1) && Linked(s, chain)
    ensures Like(s, chain, s1, chain, t, drops)
  {
  }

  lemma LastPlace(s: State, chain: seq<Addr>, t: nat, op: Op, k: nat)
    requires On(s, chain, t, op, k)
    ensures k < |chain| && s.ths[t].pc.curr == chain[k] && chain[k] in s.heap
    ensures s.heap[chain[k]].next.ptr == NULL <==> k + 1 == |chain|
  {
    NullAt(s, chain, k);
  }

  lemma NullStep(s: State, t: nat, op: Op, drops: bool)
    requires t < |s.ths| && s.ths[t].pc.Walk? && s.ths[t].pc.op == op && s.ths[t].pc.curr in s.heap
    requires s.heap[s.ths[t].pc.curr].next.ptr == NULL && (s.heap[s.ths[t].pc.curr].next.mark ==> drops)
    requires op.Erase? ==> s.heap[s.ths[t].pc.curr].value != op.v
    ensures Steps(s, t, drops, 1) == Return(s, t, if op.Erase? then Erased(0) else Counted(op.n))
  {
    OneStep(s, t, drops, 0);
  }

  lemma EndsAtNull(s: State, chain: seq<Addr>, t: nat, op: Op, k: nat, drops: bool)
    requires On(s, chain, t, op, k) && s.heap[s.ths[t].pc.curr].next.ptr == NULL
    requires s.heap[s.ths[t].pc.curr].next.mark ==> drops
    requires op.Erase? ==> s.heap[s.ths[t].pc.curr].value != op.v
    ensures Fate(s, chain, t, op, drops, Steps(s, t, drops, 1), chain)
  {
    LastPlace(s, chain, t, op, k);
    NullStep(s, t, op, drops);
    hide Steps;
    AnswerAtEnd(s, chain, op, drops);
    hide Live, RemoveFirst, StandsAt, Behind, Doomed, Answer;
  }

  lemma MatchSteps(s: State, t: nat, op: Op, drops: bool)
    requires t < |s.ths| && s.ths[t].pc.Walk? && s.ths[t].pc.op == op && s.ths[t].pc.curr in s.heap
    requires !s.heap[s.ths[t].pc.curr].next.mark && op.Erase? && s.heap[s.ths[t].pc.curr].value == op.v
    ensures Steps(s, t, drops, 2) == Return(Marked(s, s.ths[t].pc.curr), t, Erased(1))
  {
    var prev, curr := s.ths[t].pc.prev, s.ths[t].pc.curr;
    var s1 := s.(ths := s.ths[t := s.ths[t].(pc := TryMark(op, prev, curr, s.heap[curr].next))]);
    assert Apply(s, Next(s, t, drops)) == s1;
    assert Apply(s1, Next(s1, t, drops)) == Return(Marked(s, curr), t, Erased(1));
    hide Apply, Next;
    OneStep(s, t, drops, 1);
    OneStep(s1, t, drops, 0);
  }

  lemma EndsAtMatch(s: State, chain: seq<Addr>, t: nat, op: Op, k: nat, drops: bool)
    requires On(s, chain, t, op, k) && !s.heap[s.ths[t].pc.curr].next.mark
    requires op.Erase? && s.heap[s.ths[t].pc.curr].value == op.v
    ensures Fate(s, chain, t, op, drops, Steps(s, t, drops, 2), chain)
  {
    var prev, curr := s.ths[t].pc.prev, s.ths[t].pc.curr;
    MarkKeeps(s, chain, prev, curr, k);
    MatchSteps(s, t, op, drops);
    hide Live, RemoveFirst, StandsAt, Behind, Steps;
  }

  lemma SpinsAtMatch(s: State, chain: seq<Addr>, t: nat, op: Op, k: nat, drops: bool)
    requires On(s, chain, t, op, k) && drops && s.heap[s.ths[t].pc.curr].next == Link(NULL, true)
    requires op.Erase? && s.heap[s.ths[t].pc.curr].value == op.v
    ensures Fate(s, chain, t, op, drops, Steps(s, t, drops, 0), chain)
  {
    LastPlace(s, chain, t, op, k);
    TailDead(s, chain);
    NoMatch(s.heap, chain[..k], op.v);
    hide Live, RemoveFirst;
  }

  lemma WalkSteps(s: State, t: nat, op: Op, drops: bool)
    requires t < |s.ths| && s.ths[t].pc.Walk? && s.ths[t].pc.op == op && s.ths[t].pc.curr in s.heap
    requires var nd := s.heap[s.ths[t].pc.curr];
      if nd.next.mark then drops ==> nd.next.ptr != NULL
      else nd.next.ptr != NULL && nd.next.ptr != s.ths[t].pc.curr && (op.Erase? ==> nd.value != op.v)
    ensures var prev, curr := s.ths[t].pc.prev, s.ths[t].pc.curr;
      var next := s.heap[curr].next;
      Moved(s, t,
            if next.mark then Unlink(op, prev, curr, next)
            else Walk(if op.Erase? then op else Size(op.n + 1), curr, next.ptr),
            Steps(s, t, drops, 1))
  {
    OneStep(s, t, drops, 0);
  }

  lemma GoesOn(s: State, chain: seq<Addr>, t: nat, op: Op, k: nat, drops: bool) returns (op': Op)
    requires On(s, chain, t, op, k) && !s.heap[s.ths[t].pc.curr].next.mark && s.heap[s.ths[t].pc.curr].next.ptr != NULL
    requires op.Erase? ==> s.heap[s.ths[t].pc.curr].value != op.v
    ensures op' == op || (op'.Size? && op.Size?)
    ensures k + 1 < |chain| && On(Steps(s, t, drops, 1), chain, t, op', k + 1)
    ensures Like(s, chain, Steps(s, t, drops, 1), chain, t, drops)
  {
    var prev, curr := s.ths[t].pc.prev, s.ths[t].pc.curr;
    op' := if op.Erase? then op else Size(op.n + 1);
    NextFrom(s, chain, prev, curr, k);
    WalkSteps(s, t, op, drops);
    hide Steps, Like, Live;
    MovedLike(s, chain, t, Walk(op', curr, s.heap[curr].next.ptr), Steps(s, t, drops, 1), drops);
  }

  // ---------------------------------------------------------------- helping

  /** About to unlink the marked node at `chain[k]`, which is not the dead tail that drops hide. */
  ghost predicate Cuts(s: State, chain: seq<Addr>, t: nat, op: Op, k: nat, drops: bool) {
    && Linked(s, chain) && t < |s.ths| && s.ths[t].pc.Unlink? && s.ths[t].pc.op == op
    && StandsAt(s.heap, chain, s.ths[t].pc.prev, s.ths[t].pc.curr, k)
    && s.heap[s.ths[t].pc.curr].next == s.ths[t].pc.next && s.ths[t].pc.next.mark
    && (drops ==> s.ths[t].pc.next.ptr != NULL)
  }

  lemma Finds(s: State, chain: seq<Addr>, t: nat, op: Op, k: nat, drops: bool)
    requires On(s, chain, t, op, k) && s.heap[s.ths[t].pc.curr].next.mark
    requires drops ==> s.heap[s.ths[t].pc.curr].next.ptr != NULL
    ensures Cuts(Steps(s, t, drops, 1), chain, t, op, k, drops)
    ensures Like(s, chain, Steps(s, t, drops, 1), chain, t, drops)
  {
    var prev, curr := s.ths[t].pc.prev, s.ths[t].pc.curr;
    WalkSteps(s, t, op, drops);
    hide Steps, Like, Live;
    MovedLike(s, chain, t, Unlink(op, prev, curr, s.heap[curr].next), Steps(s, t, drops, 1), drops);
  }

  lemma UnlinkSteps(s: State, t: nat, op: Op, prev: Addr, curr: Addr, next: Link, drops: bool)
    requires t < |s.ths| && s.ths[t].pc == Unlink(op, prev, curr, next) && CellOf(s, prev) == Link(curr, false)
    ensures Steps(s, t, drops, 3) ==
      Go(Unlinked(s, prev, curr, next.ptr), t, if next.ptr == NULL then Restart(op) else ReNext(op, prev, next.ptr))
  {
    var s1 := Go(SetCell(s, prev, next.ptr), t, SelfLink(op, prev, curr, next));
    assert Apply(s, Next(s, t, drops)) == s1;
    AfterUnlink(s1, t, op, prev, curr, next, drops);
    hide Apply, Next;
    OneStep(s, t, drops, 2);
  }

  lemma AfterUnlink(s: State, t: nat, op: Op, prev: Addr, curr: Addr, next: Link, drops: bool)
    requires t < |s.ths| && s.ths[t].pc == SelfLink(op, prev, curr, next)
    ensures Steps(s, t, drops, 2) ==
      Go(SetNext(s, curr, Link(curr, false)).(retired := s.retired + [curr]), t,
         if next.ptr == NULL then Restart(op) else ReNext(op, prev, next.ptr))
  {
    var s1 := Go(SetNext(s, curr, Link(curr, false)), t, Retire(op, prev, curr, next));
    assert Apply(s, Next(s, t, drops)) == s1;
    OneStep(s, t, drops, 1);
    OneStep(s1, t, drops, 0);
  }

  /** The node at `chain[k]` is gone; at its place stands `chain'[k]`, if anything. */
  ghost predicate Cleared(s: State, chain: seq<Addr>, t: nat, op: Op, k: nat) {
    && Linked(s, chain) && t < |s.ths|
    && if k == |chain| then s.ths[t].pc == Restart(op)
       else s.ths[t].pc.ReNext? && s.ths[t].pc.op == op && StandsAt(s.heap, chain, s.ths[t].pc.prev, s.ths[t].pc.curr, k)
  }

  /** `m` nodes from place `k` on were cut, not the last one if guards drop marks. */
  lemma EndKept(s: State, chain: seq<Addr>, k: nat, m: nat, s1: State, chain1: seq<Addr>, drops: bool)
    requires k + m <= |chain| && chain1 == chain[..k] + chain[k + m..] && Helped(s, chain, s1, chain1)
    requires drops ==> k + m < |chain|
    ensures SameEnd(s.heap, chain, s1.heap, chain1, drops)
  {
    if drops { assert chain1[|chain1| - 1] in chain1; }
  }

  lemma HelpedLike(s: State, chain: seq<Addr>, k: nat, s1: State, t: nat, drops: bool)
    requires k < |chain| && Linked(s, chain) && Linked(s1, Cut(chain, k)) && Helped(s, chain, s1, Cut(chain, k))
    requires drops ==> k + 1 < |chain|
    requires t < |s.ths| == |s1.ths| && s1.ths[t].last == s.ths[t].last
    ensures Like(s, chain, s1, Cut(chain, k), t, drops)
  {
    EndKept(s, chain, k, 1, s1, Cut(chain, k), drops);
    hide Live, Alike, Cut, SameEnd;
  }

  lemma Frame(s: State, chain: seq<Addr>, s1: State, chain1: seq<Addr>, s2: State)
    requires s2 == s1.(ths := s2.ths) && Linked(s, chain) && Linked(s1, chain1) && Helped(s, chain, s1, chain1)
    ensures Linked(s2, chain1) && Helped(s, chain, s2, chain1)
  {
  }

  lemma CutsLike(s: State, chain: seq<Addr>, t: nat, op: Op, k: nat, drops: bool)
    requires Cuts(s, chain, t, op, k, drops)
    ensures k < |chain| && Like(s, chain, Steps(s, t, drops, 3), Cut(chain, k), t, drops)
    ensures Cleared(Steps(s, t, drops, 3), Cut(chain, k), t, op, k)
  {
    var prev, curr, next := s.ths[t].pc.prev, s.ths[t].pc.curr, s.ths[t].pc.next.ptr;
    UnlinkKeeps(s, chain, k, prev, curr, next);
    UnlinkSteps(s, t, op, prev, curr, s.ths[t].pc.next, drops);
    var s1, s2 := Unlinked(s, prev, curr, next), Steps(s, t, drops, 3);
    assert k < |chain| && (next != NULL ==> k + 1 < |chain|);
    assert s1.ths == s.ths;
    assert next == NULL ==> k == |Cut(chain, k)|;
    assert next != NULL ==> StandsAt(s1.heap, Cut(chain, k), prev, next, k);
    hide Steps, Live, Linked, Helped, Cut, StandsAt, Unlinked, Like;
    Frame(s, chain, s1, Cut(chain, k), s2);
    HelpedLike(s, chain, k, s2, t, drops);
    if next != NULL { StandsHere(s1.heap, Cut(chain, k), prev, next, k); }
  }

  // ---------------------------------------------------------------- a whole call

  /** `n` steps that decide nothing. */
  lemma Later(s: State, chain: seq<Addr>, chain1: seq<Addr>, t: nat, op: Op, op1: Op, drops: bool,
              n: nat, m: nat, chain': seq<Addr>)
    requires Like(s, chain, Steps(s, t, drops, n), chain1, t, drops) && (op == op1 || (op.Size? && op1.Size?))
    requires Fate(Steps(s, t, drops, n), chain1, t, op1, drops, Steps(Steps(s, t, drops, n), t, drops, m), chain')
    ensures Fate(s, chain, t, op, drops, Steps(s, t, drops, n + m), chain')
  {
    hide Steps, Fate;
    MoreSteps(s, t, drops, n, m);
    FateBack(s, chain, Steps(s, t, drops, n), chain1, t, op, op1, drops, Steps(s, t, drops, n + m), chain');
  }

  lemma CutShorter(chain: seq<Addr>, k: nat)
    requires k < |chain|
    ensures |Cut(chain, k)| == |chain| - 1
  {
  }

  lemma ClearedHere(s: State, chain: seq<Addr>, t: nat, op: Op, k: nat)
    requires Cleared(s, chain, t, op, k)
    ensures Linked(s, chain) && t < |s.ths| && k <= |chain| && (k == |chain| ==> s.ths[t].pc == Restart(op))
  {
  }

  lemma RestartSteps(s: State, t: nat, op: Op, drops: bool, h: Addr) returns (m: nat)
    requires t < |s.ths| && s.ths[t].pc == Restart(op) && s.head == h
    ensures m > 0
    ensures Steps(s, t, drops, m) ==
      if h == NULL then Return(s, t, if op.Erase? then Erased(0) else Counted(0))
      else Go(s, t, Walk(if op.Erase? then op else Size(1), NULL, h))
  {
    if op.Erase? && h != NULL {
      var s1 := Go(s, t, Enter(op));
      assert Apply(s, Next(s, t, drops)) == s1;
      m := 2;
      OneStep(s, t, drops, 1);
      OneStep(s1, t, drops, 0);
    } else {
      m := 1;
      OneStep(s, t, drops, 0);
    }
  }

  lemma {:induction false} FromRestart(s: State, chain: seq<Addr>, t: nat, op: Op, drops: bool)
    returns (m: nat, chain': seq<Addr>)
    requires Linked(s, chain) && t < |s.ths| && s.ths[t].pc == Restart(op)
    ensures Fate(s, chain, t, op, drops, Steps(s, t, drops, m), chain')
    decreases |chain|, 2, 0
  {
    m := RestartSteps(s, t, op, drops, s.head);
    chain' := chain;
    HeadAt(s, chain);
    if s.head != NULL {
      var op1 := if op.Erase? then op else Size(1);
      var pc := Walk(op1, NULL, s.head);
      var s1 := Steps(s, t, drops, m);
      MovedLike(s, chain, t, pc, s1, drops);
      var m';
      m', chain' := FromWalk(s1, chain, t, op1, 0, drops);
      Later(s, chain, chain, t, op, op1, drops, m, m', chain');
      m := m + m';
    }
  }

  lemma {:induction false} FromWalk(s: State, chain: seq<Addr>, t: nat, op: Op, k: nat, drops: bool)
    returns (m: nat, chain': seq<Addr>)
    requires On(s, chain, t, op, k)
    ensures Fate(s, chain, t, op, drops, Steps(s, t, drops, m), chain')
    decreases |chain|, 1, |chain| - k
  {
    hide Apply, Next, Steps, Fate, Like, Live, Cuts, StandsAt, Behind, Linked;
    LastPlace(s, chain, t, op, k);
    var nd := s.heap[chain[k]];
    var hit := op.Erase? && nd.value == op.v;
    chain' := chain;
    if nd.next.ptr == NULL && (nd.next.mark ==> drops) && !hit {
      m := 1;
      EndsAtNull(s, chain, t, op, k, drops);
    } else if !nd.next.mark && hit {
      m := 2;
      EndsAtMatch(s, chain, t, op, k, drops);
    } else if nd.next == Link(NULL, true) && drops {
      m := 0;
      SpinsAtMatch(s, chain, t, op, k, drops);
    } else {
      var s1, op1, m' := Steps(s, t, drops, 1), op, 0;
      if nd.next.mark {
        Finds(s, chain, t, op, k, drops);
        m', chain' := FromUnlink(s1, chain, t, op, k, drops);
      } else {
        op1 := GoesOn(s, chain, t, op, k, drops);
        m', chain' := FromWalk(s1, chain, t, op1, k + 1, drops);
      }
      Later(s, chain, chain, t, op, op1, drops, 1, m', chain');
      m := 1 + m';
    }
  }

  lemma {:induction false} FromUnlink(s: State, chain: seq<Addr>, t: nat, op: Op, k: nat, drops: bool)
    returns (m: nat, chain': seq<Addr>)
    requires Cuts(s, chain, t, op, k, drops)
    ensures Fate(s, chain, t, op, drops, Steps(s, t, drops, m), chain')
    decreases |chain|, 0, 0
  {
    hide Apply, Next, Steps, Fate, Like, Cleared, Live, Cuts, Linked, Cut;
    CutsLike(s, chain, t, op, k, drops);
    var s1, cut, m' := Steps(s, t, drops, 3), Cut(chain, k), 0;
    CutShorter(chain, k);
    m', chain' := FromCleared(s1, cut, t, op, k, drops);
    Later(s, chain, cut, t, op, op, drops, 3, m', chain');
    m := 3 + m';
  }

  lemma {:induction false} FromCleared(s: State, chain: seq<Addr>, t: nat, op: Op, k: nat, drops: bool)
    returns (m: nat, chain': seq<Addr>)
    requires Cleared(s, chain, t, op, k)
    ensures Fate(s, chain, t, op, drops, Steps(s, t, drops, m), chain')
    decreases |chain|, 3, 0
  {
    hide Apply, Next, Steps, Fate, Cleared, Live, Cuts;
    ClearedHere(s, chain, t, op, k);
    if k == |chain| {
      m, chain' := FromRestart(s, chain, t, op, drops);
    } else {
      var s1 := Steps(s, t, drops, 1);
      var next := Reads(s, chain, t, op, k, drops);
      if next.mark {
        m, chain' := FromUnlink(s1, chain, t, op, k, drops);
      } else {
        m, chain' := FromRestart(s1, chain, t, op, drops);
      }
      Later(s, chain, chain, t, op, op, drops, 1, m, chain');
      m := 1 + m;
    }
  }

  /** remove guards the link of the node after the one it has cut. */
  lemma Reads(s: State, chain: seq<Addr>, t: nat, op: Op, k: nat, drops: bool) returns (next: Link)
    requires Cleared(s, chain, t, op, k) && k < |chain|
    ensures Like(s, chain, Steps(s, t, drops, 1), chain, t, drops)
    ensures if next.mark then Cuts(Steps(s, t, drops, 1), chain, t, op, k, drops)
            else Steps(s, t, drops, 1).ths[t].pc == Restart(op)
  {
    var prev, curr := s.ths[t].pc.prev, s.ths[t].pc.curr;
    StandsHere(s.heap, chain, prev, curr, k);
    next := if drops && s.heap[curr].next == Link(NULL, true) then Link(NULL, false) else s.heap[curr].next;
    var pc := if next.mark then Unlink(op, prev, curr, next) else Restart(op);
    OneStep(s, t, drops, 0);
    assert Moved(s, t, pc, Steps(s, t, drops, 1));
    hide Steps, Like, Live;
    MovedLike(s, chain, t, pc, Steps(s, t, drops, 1), drops);
  }

  // ---------------------------------------------------------------- for ever

  /** An idle thread stays idle. */
  lemma {:induction false} StaysIdle(s: State, t: nat, drops: bool, k: nat)
    requires Th(s, t).pc.Idle?
    ensures Steps(s, t, drops, k) == s
    decreases k
  {
    if k > 0 { StaysIdle(s, t, drops, k - 1); }
  }

  /** A thread that spins tries to mark what it does not see, and is back. */
  lemma SpinTwice(s: State, t: nat)
    requires Spinning(s, t)
    ensures !Th(Steps(s, t, true, 1), t).pc.Idle? && Steps(s, t, true, 2) == s
  {
    var curr := s.ths[t].pc.curr;
    var s1 := Go(s, t, TryMark(s.ths[t].pc.op, s.ths[t].pc.prev, curr, Link(NULL, false)));
    assert Apply(s, Next(s, t, true)) == s1;
    assert Apply(s1, Next(s1, t, true)).ths == s.ths;
    OneStep(s, t, true, 0);
    OneStep(s, t, true, 1);
    OneStep(s1, t, true, 0);
  }

  lemma {:induction false} SpinsForever(s: State, t: nat, k: nat)
    requires Spinning(s, t)
    ensures !Th(Steps(s, t, true, k), t).pc.Idle?
    decreases k
  {
    hide Steps;
    SpinTwice(s, t);
    if k >= 2 {
      MoreSteps(s, t, true, 2, k - 2);
      SpinsForever(s, t, k - 2);
    } else if k == 0 {
      NoSteps(s, t, true);
    }
  }

  lemma NoSteps(s: State, t: nat, drops: bool)
    ensures Steps(s, t, drops, 0) == s
  {
  }

  /** The call of `op` that starts in `s` ends unless it is doomed, and does what it should. */
  lemma CallAlone(s: State, chain: seq<Addr>, t: nat, op: Op, drops: bool)
    requires Linked(s, chain) && t < |s.ths| && s.ths[t].pc == Restart(op)
    ensures Ends(s, t, drops) <==> !Doomed(s.heap, chain, op, drops)
    ensures Gives(s, t, drops, Answer(s.heap, chain, op, drops), Outcome(Live(s.heap, chain), op))
  {
    var m, chain' := FromRestart(s, chain, t, op, drops);
    hide Apply, Next, Steps, Live, RemoveFirst, Answer, Outcome, Linked;
    forall k: nat | Th(Steps(s, t, drops, k), t).pc.Idle?
      ensures !Doomed(s.heap, chain, op, drops) && Steps(s, t, drops, k) == Steps(s, t, drops, m)
    {
      EndsOnce(s, chain, t, op, drops, m, chain', k);
    }
  }

  lemma EndsOnce(s: State, chain: seq<Addr>, t: nat, op: Op, drops: bool, m: nat, chain': seq<Addr>, k: nat)
    requires Fate(s, chain, t, op, drops, Steps(s, t, drops, m), chain')
    requires Th(Steps(s, t, drops, k), t).pc.Idle?
    ensures !Doomed(s.heap, chain, op, drops) && Steps(s, t, drops, k) == Steps(s, t, drops, m)
  {
    hide Apply, Next, Steps, Live, RemoveFirst, Answer, Outcome, Linked;
    if k <= m {
      MoreSteps(s, t, drops, k, m - k);
      StaysIdle(Steps(s, t, drops, k), t, drops, m - k);
    } else {
      MoreSteps(s, t, drops, m, k - m);
      if Spinning(Steps(s, t, drops, m), t) && drops {
        SpinsForever(Steps(s, t, drops, m), t, k - m);
      } else {
        StaysIdle(Steps(s, t, drops, m), t, drops, k - m);
      }
    }
  }

  // ---------------------------------------------------------------- main results

  /** Main result: erase(v), run alone, ends if and only if its guards show marked null links or
      the last node is not a dead one of value `v`, or a live one of that value is left. When it
      ends it has taken the first live match out and says whether there was one. */
  lemma EraseAlone(s: State, chain: seq<Addr>, t: nat, v: Value, drops: bool)
    requires Linked(s, chain) && t < |s.ths| && s.ths[t].pc.Idle?
    ensures var call := Apply(s, CallErase(t, v));
      && (Ends(call, t, drops) <==>
            !drops || v in Live(s.heap, chain)
            || chain == [] || s.heap[chain[|chain| - 1]] != Node(v, Link(NULL, true)))
      && Gives(call, t, drops, Erased(if v in Live(s.heap, chain) then 1 else 0), RemoveFirst(Live(s.heap, chain), v))
  {
    var call := Apply(s, CallErase(t, v));
    if chain != [] { ChainAt(s, chain, |chain| - 1); }
    MovedLike(s, chain, t, Begin(Erase(v)), call, drops);
    CallAlone(call, chain, t, Erase(v), drops);
  }

  /** Main result: size(), run alone, ends, leaves the values alone and returns how many there are;
      one more if and only if its guards drop the mark of a null link and the last node is marked. */
  lemma SizeAlone(s: State, chain: seq<Addr>, t: nat, drops: bool)
    requires Linked(s, chain) && t < |s.ths| && s.ths[t].pc.Idle?
    ensures var call := Apply(s, CallSize(t));
      && Ends(call, t, drops)
      && Gives(call, t, drops,
               Counted(|Live(s.heap, chain)|
                       + if drops && chain != [] && s.heap[chain[|chain| - 1]].next.mark then 1 else 0),
               Live(s.heap, chain))
  {
    var call := Apply(s, CallSize(t));
    MovedLike(s, chain, t, Enter(Size(1)), call, drops);
    CallAlone(call, chain, t, Size(1), drops);
  }

  /** The states that such a call goes through are those of the list's protocol. */
  lemma {:induction false} StepsReachable(s: State, t: nat, drops: bool, k: nat)
    requires Reachable(s) && t < |s.ths|
    ensures Reachable(Steps(s, t, drops, k))
    decreases k
  {
    if k > 0 && !s.ths[t].pc.Idle? {
      Then(s, Next(s, t, drops), Apply(s, Next(s, t, drops)));
      StepsReachable(Apply(s, Next(s, t, drops)), t, drops, k - 1);
    } else if k > 0 {
      StaysIdle(s, t, drops, k);
    }
  }

  /** push(v); erase(v); erase(v) by one thread gets to a state from which the second erase never
      comes back while its guards drop the mark. */
  lemma SecondEraseSpins(v: Value) returns (s: State)
    ensures Reachable(s) && |s.ths| == 2 && s.ths[1] == Thread(Idle, [])
    ensures s.ths[0].pc.Walk? && s.ths[0].pc.op == Erase(v) && s.ths[0].last == [Pushed, Erased(1)]
    ensures forall k: nat :: !Th(Steps(s, 0, true, k), 0).pc.Idle?
  {
    DeadNodeFound(v);
    s := OneNode(v, 1, Link(NULL, true), Walk(Erase(v), NULL, 1), [Erased(1)], Idle, []);
    forall k: nat ensures !Th(Steps(s, 0, true, k), 0).pc.Idle? { SpinsForever(s, 0, k); }
  }
}
