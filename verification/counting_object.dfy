/** Counted objects and the manager's freelist as one thread uses them when nobody interferes: the
    counter word is changed in place, erased memory goes to the freelist and comes back. */
module CountingObject {
  import opened CountingProtocol
  import opened CellReads

  class CountedObject {
    var counter: nat
    var constructed: bool    // a T lives in this memory

    constructor ()
      ensures counter == 0 && constructed
    {
      counter, constructed := 0, true;
    }

    ghost predicate Valid()
      reads this
    {
      counter < WORD
    }

    /** The low 31 bits: how often the object is held. */
    ghost function Held(): nat
      reads this
    {
      counter % DEL_FLAG
    }

    ghost predicate Flagged()
      reads this
    {
      counter >= DEL_FLAG
    }

    /** Retired and not held: whoever takes a hold on it is the one to erase it. */
    ghost predicate Due()
      reads this
    {
      Flagged() && Held() == 0
    }

    method IncrementCounter()
      requires Valid() && Held() + 1 < DEL_FLAG
      modifies this`counter
      ensures Valid() && Held() == old(Held()) + 1 && Flagged() == old(Flagged()) && counter == FetchAdd(old(counter))
    {
      counter := (counter + 1) % WORD;
    }

    /** Tells the one who takes a flagged counter down to no holds. */
    method DecrementCounter() returns (due: bool)
      requires Valid() && Held() > 0
      modifies this`counter
      ensures Valid() && Held() == old(Held()) - 1 && Flagged() == old(Flagged()) && counter == FetchSub(old(counter))
      ensures due <==> Flagged() && Held() == 0
    {
      var temp := counter;
      counter := (counter + WORD - 1) % WORD;
      due := temp == DEL_FLAG + 1;
    }

    /** Sets the flag; tells if nobody held the object and the flag was new. */
    method MarkDeletion() returns (due: bool)
      requires Valid()
      modifies this`counter
      ensures Valid() && Flagged() && Held() == old(Held()) && counter == FetchOr(old(counter))
      ensures due <==> !old(Flagged()) && Held() == 0
    {
      var temp := counter;
      counter := if counter >= DEL_FLAG then counter else counter + DEL_FLAG;
      due := temp == 0;
    }

    /** The compare-exchange from the bare flag to 0. */
    method Reset() returns (ok: bool)
      requires Valid()
      modifies this`counter
      ensures Valid() && (ok <==> old(Flagged() && Held() == 0))
      ensures if ok then !Flagged() && Held() == 0 else counter == old(counter)
    {
      ok := counter == DEL_FLAG;
      if ok { counter := 0; }
    }
  }

  ghost predicate Distinct(q: seq<CountedObject>) {
    forall i, j :: 0 <= i < j < |q| ==> q[i] != q[j]
  }

  class Manager {
    var freelist: seq<CountedObject>

    constructor ()
      ensures Valid() && freelist == []
    {
      freelist := [];
    }

    /** The freelist holds each piece of memory once, erased, unflagged and unheld. */
    ghost predicate Valid()
      reads this, freelist
    {
      && Distinct(freelist)
      && forall p :: p in freelist ==> !p.constructed && p.counter == 0
    }

    /** An object with a T in it. */
    ghost predicate Live(p: CountedObject)
      reads this, p
    {
      p.Valid() && p.constructed && p !in freelist
    }

    /** create_pointer: the first piece of memory on the freelist, or new memory. */
    method CreatePointer() returns (p: CountedObject)
      requires Valid()
      modifies this, freelist
      ensures Valid() && Live(p) && p.counter == 0
      ensures if old(freelist) == [] then fresh(p) && freelist == [] else old(freelist) == [p] + freelist
    {
      if freelist != [] {
        p := freelist[0];
        freelist := freelist[1..];
        p.constructed := true;
        return;
      }
      p := new CountedObject();
    }

    /** protect_raw. */
    method ProtectRaw(p: CountedObject)
      requires Valid() && Live(p) && p.Held() + 1 < DEL_FLAG
      modifies p`counter
      ensures Valid() && Live(p) && p.Held() == old(p.Held()) + 1 && p.Flagged() == old(p.Flagged())
    {
      p.IncrementCounter();
    }

    twostate predicate Same(p: CountedObject)
      reads this, p
    {
      Live(p) && p.Held() == old(p.Held()) && p.Flagged() == old(p.Flagged())
    }

    /** protect, while others change the cell: ends with a hold on the object that two reads in a row
        agree on, or with none if it meets null, and gives back the holds it took on the way. With no
        other operation under way nothing is due, as CountingSafety.SomebodyIsDue shows. */
    method Protect(seen: seq<CountedObject?>) returns (p: CountedObject?)
      requires Valid() && seen != []
      requires forall q :: q in seen ==> Live(q) && q.Held() + 1 < DEL_FLAG && !q.Due()
      modifies this, seen
      ensures Valid() && p == seen[Stop(seen, null)] && freelist == old(freelist)
      ensures p != null ==> Live(p) && p.Held() == old(p.Held()) + 1 && p.Flagged() == old(p.Flagged())
      ensures forall q :: q in seen && q != p ==> Same(q)
    {
      hide CountedObject.Held, CountedObject.Flagged, CountedObject.Valid, Distinct;
      var temp := seen[0];
      if temp == null { return null; }
      ProtectRaw(temp);
      var temp2 := Look(seen, 1);
      var k := 0;
      while temp != temp2
        invariant k < |seen| && temp == seen[k] && temp2 == Look(seen, k + 1) && temp != null
        invariant forall j :: 0 <= j <= k ==> seen[j] != null
        invariant forall j :: 0 <= j < k ==> seen[j + 1] != seen[j]
        invariant Valid() && Live(temp) && temp.Held() == old(temp.Held()) + 1 && temp.Flagged() == old(temp.Flagged())
        invariant forall q :: q in seen && q != temp ==> Same(q)
        invariant freelist == old(freelist)
        decreases |seen| - k
      {
        assert temp2 == seen[k + 1] && temp2 in seen;
        GiveBack(temp);
        k := k + 1;
        temp := temp2;
        if temp == null {
          StopHere(seen, null, k);
          return null;
        }
        ProtectRaw(temp);
        temp2 := Look(seen, k + 1);
      }
      StopHere(seen, null, k);
      p := temp;
    }

    /** internal_delete: whoever wins the reset erases the T and gives the memory to the freelist. */
    method InternalDelete(p: CountedObject)
      requires Valid() && Live(p)
      modifies this, p
      ensures Valid()
      ensures if old(p.Flagged() && p.Held() == 0) then !p.constructed && p.counter == 0 && freelist == old(freelist) + [p]
              else p.counter == old(p.counter) && p.constructed && freelist == old(freelist)
    {
      var won := p.Reset();
      if won {
        p.constructed := false;
        freelist := freelist + [p];
      }
    }

    /** Gives one hold back; the last hold of a retired object takes the T with it. */
    method GiveBack(p: CountedObject)
      requires Valid() && Live(p) && p.Held() > 0
      modifies this, p
      ensures Valid()
      ensures if old(p.Flagged() && p.Held() == 1) then !p.constructed && freelist == old(freelist) + [p]
              else Live(p) && p.Held() == old(p.Held()) - 1 && p.Flagged() == old(p.Flagged()) && freelist == old(freelist)
    {
      var due := p.DecrementCounter();
      if due { InternalDelete(p); }
    }

    /** unprotect. */
    method Unprotect(p: CountedObject)
      requires Valid() && Live(p) && p.Held() > 0
      modifies this, p
      ensures Valid()
      ensures if old(p.Flagged() && p.Held() == 1) then !p.constructed && freelist == old(freelist) + [p]
              else Live(p) && p.Held() == old(p.Held()) - 1 && p.Flagged() == old(p.Flagged()) && freelist == old(freelist)
    {
      GiveBack(p);
    }

    /** safe_delete: erases an object nobody holds at once, leaves a held one to its last hold. */
    method SafeDelete(p: CountedObject)
      requires Valid() && Live(p) && !p.Flagged()
      modifies this, p
      ensures Valid()
      ensures if old(p.Held()) == 0 then !p.constructed && freelist == old(freelist) + [p]
              else Live(p) && p.Flagged() && p.Held() == old(p.Held()) && freelist == old(freelist)
    {
      var due := p.MarkDeletion();
      if due { InternalDelete(p); }
    }
  }
}
