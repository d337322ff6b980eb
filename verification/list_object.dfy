/** The list's operations on linked objects changed in place, as one thread runs them when nobody
    interferes. `drops` says that guards drop the mark of a null link, as counting_manager's do. A
    ghost copy of the memory ties the objects to the protocol. */
module ListObject {
  import opened ListProtocol
  import opened ListInvariant
  import opened ListSteps
  import opened ListSafety
  import opened ListAlone
  import opened ListDropping

  /** queue_item_type. */
  class Item {
    ghost const addr: Addr
    const value: Value
    var next: Item?
    var mark: bool    // the mark bit of `next`

    constructor (v: Value, ghost a: Addr)
      ensures addr == a && value == v && next == null && !mark
    {
      addr, value, next, mark := a, v, null, false;
    }
  }

  ghost function AddrOf(x: Item?): Addr {
    if x == null then NULL else x.addr
  }

  /** `x` is null or one of the list's nodes. */
  ghost predicate Among(items: map<Addr, Item>, x: Item?) {
    x == null || (x.addr in items && items[x.addr] == x)
  }

  lemma AmongValues(items: map<Addr, Item>, x: Item?)
    requires Among(items, x)
    ensures x == null || x in items.Values
  {
  }

  class List {
    const drops: bool
    var head: Item?
    ghost var memory: State           // the same memory with addresses; `retired` logs safe_delete
    ghost var items: map<Addr, Item>
    ghost var chain: seq<Addr>        // the addresses from head on
    ghost var top: Addr               // no address above it is in use

    constructor (d: bool)
      ensures Valid() && chain == [] && memory.retired == [] && items == map[] && drops == d
    {
      drops := d;
      head, memory, items, chain, top := null, State(NULL, map[], [], []), map[], [], NULL;
    }

    /** The objects show what the copy says. */
    ghost predicate Coupled()
      reads this, items.Values
    {
      && items.Keys == memory.heap.Keys && Among(items, head) && AddrOf(head) == memory.head
      && (forall a :: a in items ==> items[a].addr == a && a != NULL && a <= top)
      && (forall a :: a in items ==> Among(items, items[a].next))
      && (forall a :: a in items ==>
            memory.heap[a] == Node(items[a].value, Link(AddrOf(items[a].next), items[a].mark)))
    }

    /** The chain runs from head to null without a repetition; every other node was handed to
        safe_delete, once. */
    ghost predicate Valid()
      reads this, items.Values
    {
      Coupled() && Linked(memory, chain) && Placed(memory.heap, chain, memory.retired)
    }

    /** The abstract sequence. */
    ghost function Values(): seq<Value>
      requires Valid()
      reads this, items.Values
    {
      Live(memory.heap, chain)
    }

    /** The head, and an address that is free. */
    lemma HeadAndTop()
      requires Coupled()
      ensures Among(items, head) && AddrOf(head) == memory.head && top + 1 !in memory.heap && top + 1 !in items
    {
    }

    lemma NullOnly(x: Item?)
      requires Coupled() && Among(items, x)
      ensures x == null <==> AddrOf(x) == NULL
    {
    }

    /** What a guard of `x->next` shows. */
    method Load(x: Item) returns (next: Item?, mark: bool)
      requires Coupled() && Among(items, x)
      ensures Among(items, next) && x.addr in memory.heap && Link(AddrOf(next), mark) == Shown(memory.heap[x.addr].next, drops)
      ensures memory.heap[x.addr].value == x.value && (mark && drops ==> next != null)
    {
      next, mark := x.next, x.mark;
      if drops && next == null { mark := false; }
      NullOnly(next);
    }

    /** A store to `x->next`. */
    method Store(x: Item, next: Item?, mark: bool)
      requires Coupled() && Among(items, x) && Among(items, next)
      modifies this`memory, x
      ensures Coupled() && memory == SetNext(old(memory), x.addr, Link(AddrOf(next), mark))
    {
      x.next, x.mark := next, mark;
      memory := SetNext(memory, x.addr, Link(AddrOf(next), mark));
      forall a | a in items
        ensures Among(items, items[a].next)
        ensures memory.heap[a] == Node(items[a].value, Link(AddrOf(items[a].next), items[a].mark))
      {
        if a != x.addr { assert items[a] != x && items[a].addr == a; }
      }
    }

    /** compare_exchange_strong on `prev->next`, or on _head when there is no prev. */
    method CompareExchange(prev: Item?, expected: Item?, desired: Item?) returns (ok: bool)
      requires Coupled() && Among(items, prev) && Among(items, expected) && Among(items, desired)
      modifies this`head, this`memory, prev
      ensures Coupled() && (ok <==> CellOf(old(memory), AddrOf(prev)) == Link(AddrOf(expected), false))
      ensures memory == if ok then SetCell(old(memory), AddrOf(prev), AddrOf(desired)) else old(memory)
      ensures head == if ok && prev == null then desired else old(head)
    {
      if prev == null {
        ok := head == expected;
        if ok {
          head := desired;
          memory := SetCell(memory, NULL, AddrOf(desired));
        }
      } else {
        ok := prev.next == expected && !prev.mark;
        if ok { Store(prev, desired, false); }
      }
    }

    /** A new node, still private. */
    method Allocate(v: Value, next: Item?) returns (item: Item)
      requires Coupled() && Among(items, next)
      modifies this`memory, this`items, this`top
      ensures Coupled() && fresh(item) && Among(items, item) && Among(items, next) && item.addr == old(top) + 1 == top
      ensures items == old(items)[item.addr := item] && item.addr !in old(items)
      ensures memory == old(memory).(heap := old(memory).heap[item.addr := Node(v, Link(AddrOf(next), false))])
    {
      item := new Item(v, top + 1);
      item.next := next;
      top := top + 1;
      memory := memory.(heap := memory.heap[item.addr := Node(v, Link(AddrOf(next), false))]);
      ghost var was := items;
      items := items[item.addr := item];
      forall a | a in items
        ensures items[a].addr == a && a != NULL && a <= top && Among(items, items[a].next)
        ensures memory.heap[a] == Node(items[a].value, Link(AddrOf(items[a].next), items[a].mark))
      {
        if a != item.addr { assert items[a] == was[a] && items[a] != item; }
      }
    }

    /** Says which nodes are linked now, and which of them went to safe_delete. */
    ghost method Record(chain': seq<Addr>, gone: seq<Addr>)
      requires Coupled()
      modifies this`memory, this`chain
      ensures Coupled() && chain == chain' && memory == old(memory).(retired := old(memory).retired + gone)
    {
      memory := memory.(retired := memory.retired + gone);
      chain := chain';
    }

    /** push: the new value comes first. */
    method Push(v: Value)
      requires Valid()
      modifies this
      ensures Valid() && head != null && fresh(head) && chain == [head.addr] + old(chain)
      ensures memory.retired == old(memory).retired && Values() == [v] + old(Values())
    {
      hide Linked, Placed, Live, Coupled, Among;
      ghost var was := memory;
      HeadAndTop();
      PushAlone(was, chain, top + 1, v);
      var temp := head;
      var item := Allocate(v, temp);
      var ok := CompareExchange(null, temp, item);
      assert ok && head == item;
      Record([item.addr] + chain, []);
      assert memory == PushedAlone(was, item.addr, v);
    }

    /** One turn of remove's loop: the compare-exchange, the self-link and safe_delete. */
    method Unlink(prev: Item?, curr: Item, next: Item?, ghost k: nat)
      requires Valid() && Among(items, prev) && Among(items, curr) && Among(items, next)
      requires StandsAt(memory.heap, chain, AddrOf(prev), curr.addr, k)
      requires memory.heap[curr.addr].next == Link(AddrOf(next), true)
      modifies this`head, this`memory, this`chain, prev, curr
      ensures Valid() && Helped(old(memory), old(chain), memory, chain)
      ensures chain == Cut(old(chain), k) && memory.retired == old(memory).retired + [curr.addr]
      ensures AddrOf(next) == ChainNext(old(chain), k)
      ensures if next == null then k == |chain| else StandsAt(memory.heap, chain, AddrOf(prev), next.addr, k)
    {
      hide Linked, Placed, Helped, Live, Coupled, Among;
      NullOnly(next);
      ghost var was := memory;
      UnlinkAlone(was, chain, k, AddrOf(prev), curr.addr, AddrOf(next));
      assert k < |chain|;
      var ok := CompareExchange(prev, curr, next);
      assert ok;
      Store(curr, curr, false);
      Record(Cut(chain, k), [curr.addr]);
      assert memory == Unlinked(was, AddrOf(prev), curr.addr, AddrOf(next));
    }

    /** remove: takes out the marked nodes from `curr` on, up to the first unmarked one, and hands
        each of them to safe_delete. Called with an unmarked `next` it does nothing. */
    method Remove(prev: Item?, curr0: Item, next0: Item?, mark0: bool, ghost k: nat) returns (ghost m: nat)
      requires Valid() && Among(items, prev) && Among(items, curr0) && Among(items, next0)
      requires StandsAt(memory.heap, chain, AddrOf(prev), curr0.addr, k)
      requires mark0 ==> memory.heap[curr0.addr].next == Link(AddrOf(next0), true) && (drops ==> next0 != null)
      modifies this`head, this`memory, this`chain, items.Values
      ensures Valid() && Helped(old(memory), old(chain), memory, chain)
      ensures k + m <= |old(chain)| && chain == old(chain)[..k] + old(chain)[k + m..]
      ensures memory.retired == old(memory).retired + old(chain)[k..k + m]
      ensures if mark0 then m > 0 && (k < |chain| ==> !Shown(memory.heap[chain[k]].next, drops).mark)
              else m == 0 && memory == old(memory)
      ensures SameEnd(old(memory).heap, old(chain), memory.heap, chain, drops)
    {
      hide Linked, Placed, Coupled, Cut, Among, Live, StandsAt, SameEnd;
      StandsHere(memory.heap, chain, AddrOf(prev), curr0.addr, k);
      var curr: Item?, next, mark := curr0, next0, mark0;
      m := 0;
      HelpedNot(memory, chain);
      assert chain[..k] + chain[k..] == chain && memory.retired + chain[k..k] == memory.retired;
      hide Helped;
      while mark && curr != null
        invariant curr != null && Valid() && Helped(old(memory), old(chain), memory, chain)
        invariant Among(items, curr) && Among(items, next)
        invariant k + m <= |old(chain)| && chain == old(chain)[..k] + old(chain)[k + m..]
        invariant memory.retired == old(memory).retired + old(chain)[k..k + m]
        invariant StandsAt(memory.heap, chain, AddrOf(prev), curr.addr, k)
        invariant k < |chain| && chain[k] == curr.addr && curr.addr in memory.heap
        invariant if m == 0 then mark == mark0 && next == next0 && memory == old(memory)
                  else mark0 && Link(AddrOf(next), mark) == Shown(memory.heap[curr.addr].next, drops)
        invariant mark && drops ==> next != null
        decreases |chain|
      {
        ghost var s, was := memory, chain;
        CutMore(old(chain), old(memory).retired, k, m);
        AmongValues(items, prev);
        AmongValues(items, curr);
        Unlink(prev, curr, next, k);
        m := m + 1;
        HelpedAgain(old(memory), old(chain), s, was, memory, chain);
        curr := next;
        if next == null {
          EndKept(old(memory), old(chain), k, m, memory, chain, drops);
          return;
        }
        StandsHere(memory.heap, chain, AddrOf(prev), curr.addr, k);
        next, mark := Load(curr);
      }
      EndKept(old(memory), old(chain), k, m, memory, chain, drops);
    }

    /** atomic_mark on `curr->next`, alone: succeeds, and takes the value out if no earlier node
        has it. */
    method AtomicMark(prev: Item?, curr: Item, next: Item?, ghost k: nat) returns (ok: bool)
      requires Valid() && Among(items, prev) && Among(items, curr) && Among(items, next)
      requires StandsAt(memory.heap, chain, AddrOf(prev), curr.addr, k) && Passed(memory.heap, chain, k, curr.value)
      requires memory.heap[curr.addr].next == Link(AddrOf(next), false)
      modifies this`memory, curr
      ensures ok && Valid() && StandsAt(memory.heap, chain, AddrOf(prev), curr.addr, k)
      ensures memory.heap.Keys == old(memory).heap.Keys && memory.retired == old(memory).retired
      ensures curr.value in old(Values()) && Values() == RemoveFirst(old(Values()), curr.value)
    {
      hide Linked, Placed, Live, Coupled, RemoveFirst, Passed, Among;
      SameNext(curr, next);
      MarkAlone(memory, chain, AddrOf(prev), curr.addr, k);
      hide StandsAt;
      ok := curr.next == next && !curr.mark;
      if ok { Store(curr, next, true); }
    }

    lemma SameNext(x: Item, next: Item?)
      requires Coupled() && Among(items, x) && x.addr in memory.heap && Among(items, next)
      requires memory.heap[x.addr].next == Link(AddrOf(next), false)
      ensures x.next == next && !x.mark && memory.heap[x.addr].value == x.value
    {
    }

    /** erase: takes the first live match out and returns 1, or returns 0 if there is none. Its own
        call of remove has the unmarked `next` and unlinks nothing; marked nodes it passes go.
        ListDropping.EraseAlone shows that the loop ends only under this precondition. */
    method Erase(v: Value) returns (n: nat)
      requires Valid() && !Doomed(memory.heap, chain, ListProtocol.Erase(v), drops)
      modifies this`head, this`memory, this`chain, items.Values
      ensures Valid() && memory.heap.Keys == old(memory).heap.Keys && old(memory).retired <= memory.retired
      ensures Values() == RemoveFirst(old(Values()), v)
      ensures n == if v in old(Values()) then 1 else 0
    {
      hide Linked, Placed, Live, RemoveFirst, Coupled, SameEnd, Doomed, DeadTail, Alike;
      HelpedNot(memory, chain);
      while true
        invariant Valid() && Helped(old(memory), old(chain), memory, chain)
        invariant !Doomed(memory.heap, chain, ListProtocol.Erase(v), drops)
        decreases |chain|
      {
        HeadAt(memory, chain);
        HeadAndTop();
        NullOnly(head);
        if head == null {
          NoMatch(memory.heap, chain, v);
          return 0;
        }
        var prev: Item?, curr: Item := null, head;
        ghost var k, here := 0, chain;
        while true
          invariant chain == here && Among(items, prev) && Among(items, curr)
          invariant Valid() && Helped(old(memory), old(chain), memory, chain)
          invariant !Doomed(memory.heap, chain, ListProtocol.Erase(v), drops)
          invariant StandsAt(memory.heap, chain, AddrOf(prev), curr.addr, k) && Passed(memory.heap, chain, k, v)
          decreases |chain| - k
        {
          var next, mark := Load(curr);
          NullOnly(next);
          if !mark && curr.value == v {
            NotHidden(memory, chain, k, v, drops);
            var marked := AtomicMark(prev, curr, next, k);
            if !marked { continue; }
            var _ := Remove(prev, curr, next, mark, k);
            return 1;
          } else if next == null && !mark {
            NullAt(memory, chain, k);
            AnswerAtEnd(memory, chain, ListProtocol.Erase(v), drops);
            return 0;
          } else if mark {
            ghost var s, was := memory, chain;
            var _ := Remove(prev, curr, next, mark, k);
            HelpedAgain(old(memory), old(chain), s, was, memory, chain);
            StillAnswers(s, was, memory, chain, ListProtocol.Erase(v), drops);
            break;
          } else if next == curr {
            NextFrom(memory, chain, AddrOf(prev), curr.addr, k);    // alone nobody else has unlinked curr
            assert false;
            break;
          }
          NextFrom(memory, chain, AddrOf(prev), curr.addr, k);
          prev, curr, k := curr, next, k + 1;
        }
      }
    }

    /** size: counts the live values, and a last node whose mark the guards drop; leaves no other
        marked node linked. */
    method Size() returns (n: nat)
      requires Valid()
      modifies this`head, this`memory, this`chain, items.Values
      ensures Valid() && Helped(old(memory), old(chain), memory, chain)
      ensures n == |Values()| + (if DeadTail(memory.heap, chain, drops) then 1 else 0) == |chain|
      ensures DeadTail(memory.heap, chain, drops) == old(DeadTail(memory.heap, chain, drops))
      ensures forall i :: 0 <= i < |chain| - 1 ==> !memory.heap[chain[i]].next.mark
      ensures chain != [] && memory.heap[chain[|chain| - 1]].next.mark ==> drops
    {
      hide Linked, Placed, Live, RemoveFirst, Coupled, SameEnd, DeadTail, Doomed, Alike;
      HelpedNot(memory, chain);
      while true
        invariant Valid() && Helped(old(memory), old(chain), memory, chain)
        invariant DeadTail(memory.heap, chain, drops) == old(DeadTail(memory.heap, chain, drops))
        decreases |chain|
      {
        HeadAt(memory, chain);
        HeadAndTop();
        NullOnly(head);
        if head == null {
          NoTail(memory.heap, chain, drops);
          return 0;
        }
        var prev: Item?, curr: Item := null, head;
        var i := 1;
        ghost var here := chain;
        while true
          invariant chain == here && Among(items, prev) && Among(items, curr)
          invariant Valid() && Helped(old(memory), old(chain), memory, chain)
          invariant DeadTail(memory.heap, chain, drops) == old(DeadTail(memory.heap, chain, drops))
          invariant i > 0 && StandsAt(memory.heap, chain, AddrOf(prev), curr.addr, i - 1)
          invariant Behind(memory.heap, chain, i - 1, ListProtocol.Size(i))
          decreases |chain| - i
        {
          var next, mark := Load(curr);
          NullOnly(next);
          if next == null && !mark {
            NullAt(memory, chain, i - 1);
            AnswerAtEnd(memory, chain, ListProtocol.Size(i), drops);
            return i;
          } else if mark {
            ghost var s, was := memory, chain;
            var _ := Remove(prev, curr, next, mark, i - 1);
            HelpedAgain(old(memory), old(chain), s, was, memory, chain);
            StillAnswers(s, was, memory, chain, ListProtocol.Size(1), drops);
            break;
          } else if next == curr {
            NextFrom(memory, chain, AddrOf(prev), curr.addr, i - 1);
            assert false;
            break;
          }
          NextFrom(memory, chain, AddrOf(prev), curr.addr, i - 1);
          i := i + 1;
          prev, curr := curr, next;
        }
      }
    }
  }
}
