/** reclamation_guard: the client's side of protect and unprotect. */
module GuardObject {

  /** A pointer with its mark bits; address 0 is null. */
  datatype Ptr = Ptr(addr: nat, mark: nat)

  const NULL: Ptr := Ptr(0, 0)

  /** A reclamation handle, as far as its guards see it: how often it protects each address. */
  class Handle {
    var held: multiset<nat>

    constructor ()
      ensures held == multiset{}
    {
      held := multiset{};
    }

    /** protect of a cell whose validated content is `cell`; null is not protected. */
    method Protect(cell: Ptr) returns (p: Ptr)
      modifies this
      ensures p == cell && held == old(held) + One(cell.addr) && held[0] == old(held[0])
    {
      p := cell;
      if cell.addr != 0 { held := held + multiset{cell.addr}; }
    }

    /** protect_raw does not look whether the pointer is null. */
    method ProtectRaw(p: Ptr)
      modifies this
      ensures held == old(held) + multiset{p.addr} && held[0] == old(held[0]) + if p.addr == 0 then 1 else 0
    {
      held := held + multiset{p.addr};
    }

    method Unprotect(p: Ptr)
      modifies this
      ensures held == old(held) - multiset{p.addr} && (p.addr != 0 ==> held[0] == old(held[0]))
    {
      held := held - multiset{p.addr};
    }
  }

  /** Which handle and which address a guard stands for. */
  datatype Claim = Claim(rec: Handle, addr: nat)

  ghost function Claims(guards: set<Guard>): map<Guard, Claim>
    reads guards
  {
    map g | g in guards :: Claim(g.rec, g.ptr.addr)
  }

  /** The guards that stand for a protection of `a` by `h`. */
  ghost function Holding(claims: map<Guard, Claim>, h: Handle, a: nat): set<Guard> {
    set g | g in claims && claims[g] == Claim(h, a)
  }

  ghost predicate Fits(held: multiset<nat>, claims: map<Guard, Claim>, h: Handle) {
    forall a: nat :: a != 0 ==> held[a] == |Holding(claims, h, a)|
  }

  /** What each handle protects. */
  ghost function Helds(handles: set<Handle>): map<Handle, multiset<nat>>
    reads handles
  {
    map h | h in handles :: h.held
  }

  ghost predicate AllFit(helds: map<Handle, multiset<nat>>, claims: map<Guard, Claim>) {
    && (forall g :: g in claims ==> claims[g].rec in helds)
    && (forall h :: h in helds ==> Fits(helds[h], claims, h))
  }

  /** Each handle protects each address but null as often as living guards hold it. */
  ghost predicate Matched(handles: set<Handle>, guards: set<Guard>)
    reads handles, guards
  {
    AllFit(Helds(handles), Claims(guards))
  }

  function One(a: nat): multiset<nat> {
    if a == 0 then multiset{} else multiset{a}
  }

  /** A new guard of `a` needs one more protection, unless `a` is null. */
  lemma GuardJoins(held: multiset<nat>, claims: map<Guard, Claim>, h: Handle, g: Guard, c: Claim)
    requires Fits(held, claims, h) && g !in claims
    ensures Fits(if c.rec == h then held + One(c.addr) else held, claims[g := c], h)
  {
    var held' := if c.rec == h then held + One(c.addr) else held;
    forall a: nat | a != 0 ensures held'[a] == |Holding(claims[g := c], h, a)| {
      assert held[a] == |Holding(claims, h, a)|;
      assert Holding(claims[g := c], h, a) == Holding(claims, h, a) + if c == Claim(h, a) then {g} else {};
    }
  }

  lemma HoldingWithout(claims: map<Guard, Claim>, h: Handle, g: Guard, a: nat)
    requires g in claims
    ensures |Holding(claims, h, a)| == |Holding(claims - {g}, h, a)| + if claims[g] == Claim(h, a) then 1 else 0
  {
    assert Holding(claims, h, a) == Holding(claims - {g}, h, a) + if claims[g] == Claim(h, a) then {g} else {};
  }

  /** A guard that goes leaves one protection less. */
  lemma GuardLeaves(held: multiset<nat>, claims: map<Guard, Claim>, h: Handle, g: Guard)
    requires Fits(held, claims, h) && g in claims
    ensures Fits(if claims[g].rec == h then held - One(claims[g].addr) else held, claims - {g}, h)
  {
    var held' := if claims[g].rec == h then held - One(claims[g].addr) else held;
    forall a: nat | a != 0 ensures held'[a] == |Holding(claims - {g}, h, a)| {
      assert held[a] == |Holding(claims, h, a)|;
      HoldingWithout(claims, h, g, a);
    }
  }

  /** A guard whose claim changes gives one protection back and needs another. */
  lemma GuardChanges(held: multiset<nat>, claims: map<Guard, Claim>, h: Handle, g: Guard, c: Claim)
    requires Fits(held, claims, h) && g in claims
    ensures var left := if claims[g].rec == h then held - One(claims[g].addr) else held;
      Fits(if c.rec == h then left + One(c.addr) else left, claims[g := c], h)
  {
    var left := if claims[g].rec == h then held - One(claims[g].addr) else held;
    GuardLeaves(held, claims, h, g);
    GuardJoins(left, claims - {g}, h, g, c);
    assert (claims - {g})[g := c] == claims[g := c];
  }

  /** Moving a claim from one guard to another leaves the handles alone. */
  lemma ClaimMoves(held: multiset<nat>, claims: map<Guard, Claim>, h: Handle, from: Guard, to: Guard)
    requires Fits(held, claims, h) && from in claims && from != to
    requires to in claims ==> claims[to].addr == 0
    ensures Fits(held, claims[from := Claim(claims[from].rec, 0)][to := claims[from]], h)
  {
    var c, none := claims[from], Claim(claims[from].rec, 0);
    if to in claims {
      GuardChanges(held, claims, h, to, c);
    } else {
      GuardJoins(held, claims, h, to, c);
    }
    var both := claims[to := c];
    var held' := if c.rec == h then held + One(c.addr) else held;
    GuardChanges(held', both, h, from, none);
    assert held' - One(c.addr) == held || c.rec != h;
    assert both[from := none] == claims[from := none][to := c];
  }

  /** A guard of `c` is made; a protection of null does not count. */
  lemma Begins(helds: map<Handle, multiset<nat>>, claims: map<Guard, Claim>, g: Guard, c: Claim, added: multiset<nat>)
    requires AllFit(helds, claims) && g !in claims && c.rec in helds
    requires added == One(c.addr) || added == multiset{c.addr}
    ensures AllFit(helds[c.rec := helds[c.rec] + added], claims[g := c])
  {
    var helds' := helds[c.rec := helds[c.rec] + added];
    forall h | h in helds' ensures Fits(helds'[h], claims[g := c], h) { GuardJoins(helds[h], claims, h, g, c); }
  }

  /** Its protection is given back and the guard is empty. */
  lemma Ends(helds: map<Handle, multiset<nat>>, claims: map<Guard, Claim>, g: Guard)
    requires AllFit(helds, claims) && g in claims
    ensures var c := claims[g];
      c.rec in helds && AllFit(helds[c.rec := helds[c.rec] - One(c.addr)], claims[g := Claim(c.rec, 0)])
  {
    var c := claims[g];
    var helds' := helds[c.rec := helds[c.rec] - One(c.addr)];
    forall h | h in helds' ensures Fits(helds'[h], claims[g := Claim(c.rec, 0)], h) {
      GuardChanges(helds[h], claims, h, g, Claim(c.rec, 0));
    }
  }

  /** Its protection is given back and the guard is gone. */
  lemma Goes(helds: map<Handle, multiset<nat>>, claims: map<Guard, Claim>, g: Guard)
    requires AllFit(helds, claims) && g in claims
    ensures var c := claims[g];
      c.rec in helds && AllFit(helds[c.rec := helds[c.rec] - One(c.addr)], claims - {g})
  {
    var c := claims[g];
    var helds' := helds[c.rec := helds[c.rec] - One(c.addr)];
    forall h | h in helds' ensures Fits(helds'[h], claims - {g}, h) { GuardLeaves(helds[h], claims, h, g); }
  }

  lemma Moves(helds: map<Handle, multiset<nat>>, claims: map<Guard, Claim>, from: Guard, to: Guard)
    requires AllFit(helds, claims) && from in claims && from != to && (to in claims ==> claims[to].addr == 0)
    ensures AllFit(helds, claims[from := Claim(claims[from].rec, 0)][to := claims[from]])
  {
    var now := claims[from := Claim(claims[from].rec, 0)][to := claims[from]];
    forall h | h in helds ensures Fits(helds[h], now, h) { ClaimMoves(helds[h], claims, h, from, to); }
  }

  lemma HeldsAre(handles: set<Handle>, helds: map<Handle, multiset<nat>>)
    requires helds.Keys == handles && forall h :: h in handles ==> helds[h] == h.held
    ensures Helds(handles) == helds
  {
  }

  lemma ClaimsAre(guards: set<Guard>, claims: map<Guard, Claim>)
    requires claims.Keys == guards && forall g :: g in guards ==> claims[g] == Claim(g.rec, g.ptr.addr)
    ensures Claims(guards) == claims
  {
  }

  lemma ClaimsWith(guards: set<Guard>, g: Guard)
    requires g !in guards
    ensures Claims(guards + {g}) == Claims(guards)[g := Claim(g.rec, g.ptr.addr)]
  {
  }

  class Guard {
    var rec: Handle
    var ptr: Ptr

    /** A guard of nothing. */
    constructor Empty(rec: Handle, ghost handles: set<Handle>, ghost guards: set<Guard>)
      requires Matched(handles, guards) && rec in handles
      ensures Matched(handles, guards + {this}) && this.rec == rec && ptr == NULL
    {
      hide AllFit;
      this.rec, ptr := rec, NULL;
      new;
      Begins(old(Helds(handles)), old(Claims(guards)), this, Claim(rec, 0), multiset{});
      ClaimsWith(guards, this);
      assert rec.held + multiset{} == rec.held;
      assert Helds(handles) == old(Helds(handles))[rec := rec.held];
    }

    /** A guard of what a cell holds. */
    constructor FromCell(rec: Handle, cell: Ptr, ghost handles: set<Handle>, ghost guards: set<Guard>)
      requires Matched(handles, guards) && rec in handles
      modifies rec
      ensures Matched(handles, guards + {this}) && this.rec == rec && ptr == cell
      ensures forall h :: h in handles ==> h.held[0] == old(h.held[0])
    {
      hide AllFit;
      this.rec := rec;
      var p := rec.Protect(cell);
      ptr := p;
      new;
      Begins(old(Helds(handles)), old(Claims(guards)), this, Claim(rec, cell.addr), One(cell.addr));
      ClaimsWith(guards, this);
      assert Helds(handles) == old(Helds(handles))[rec := rec.held];
    }

    /** A guard of a pointer that is protected anyway. With a null pointer protect_raw protects null,
        which no operation of a guard gives back. */
    constructor FromPointer(rec: Handle, p: Ptr, ghost handles: set<Handle>, ghost guards: set<Guard>)
      requires Matched(handles, guards) && rec in handles
      modifies rec
      ensures Matched(handles, guards + {this}) && this.rec == rec && ptr == p
      ensures forall h :: h in handles ==> h.held[0] == old(h.held[0]) + if h == rec && p.addr == 0 then 1 else 0
    {
      hide AllFit;
      this.rec, ptr := rec, p;
      rec.ProtectRaw(p);
      new;
      Begins(old(Helds(handles)), old(Claims(guards)), this, Claim(rec, p.addr), multiset{p.addr});
      ClaimsWith(guards, this);
      assert Helds(handles) == old(Helds(handles))[rec := rec.held];
    }

    /** The moved-from guard is empty afterwards, the protection goes with the pointer. */
    constructor Moved(source: Guard, ghost handles: set<Handle>, ghost guards: set<Guard>)
      requires Matched(handles, guards) && source in guards
      modifies source
      ensures forall h :: h in handles ==> h.held[0] == old(h.held[0])
      ensures Matched(handles, guards + {this})
      ensures rec == old(source.rec) && ptr == old(source.ptr) && source.ptr == NULL && source.rec == rec
    {
      hide AllFit;
      rec, ptr := source.rec, source.ptr;
      new;
      Moves(old(Helds(handles)), old(Claims(guards)), source, this);
      source.ptr := NULL;
      assert Helds(handles) == old(Helds(handles));
      assert Claims(guards + {this}) == old(Claims(guards))[source := Claim(rec, 0)][this := Claim(rec, ptr.addr)];
    }

    /** operator=(reclamation_guard&&): the own protection is given back first. */
    method MoveAssign(source: Guard, ghost handles: set<Handle>, ghost guards: set<Guard>)
      requires Matched(handles, guards) && this in guards && source in guards
      modifies this, source, rec
      ensures forall h :: h in handles ==> h.held[0] == old(h.held[0])
      ensures Matched(handles, guards)
      ensures rec == old(source.rec) && ptr == old(source.ptr) && (source != this ==> source.ptr == NULL)
    {
      hide AllFit;
      if source == this { return; }
      var _ := Release(handles, guards);
      Moves(Helds(handles), Claims(guards), source, this);
      ghost var helds, claims: map<Guard, Claim> := Helds(handles), Claims(guards);
      rec, ptr := source.rec, source.ptr;
      source.ptr := NULL;
      HeldsAre(handles, helds);
      ClaimsAre(guards, claims[source := Claim(rec, 0)][this := Claim(rec, ptr.addr)]);
    }

    /** What release and the destructor do first. */
    method GiveBack()
      modifies rec
      ensures rec.held == old(rec.held) - One(ptr.addr) && rec.held[0] == old(rec.held[0])
    {
      if ptr.addr != 0 { rec.Unprotect(ptr); }
    }

    /** release: gives the protection back and hands out the bare pointer. */
    method Release(ghost handles: set<Handle>, ghost guards: set<Guard>) returns (temp: Ptr)
      requires Matched(handles, guards) && this in guards
      modifies this, rec
      ensures forall h :: h in handles ==> h.held[0] == old(h.held[0])
      ensures Matched(handles, guards) && temp == old(ptr) && ptr == NULL && rec == old(rec)
    {
      hide AllFit;
      Ends(Helds(handles), Claims(guards), this);
      ghost var helds, claims: map<Guard, Claim> := Helds(handles), Claims(guards);
      temp := ptr;
      GiveBack();
      ptr := NULL;
      hide One;
      HeldsAre(handles, helds[rec := rec.held]);
      ClaimsAre(guards, claims[this := Claim(rec, 0)]);
    }

    /** The destructor. */
    method Destroy(ghost handles: set<Handle>, ghost guards: set<Guard>)
      requires Matched(handles, guards) && this in guards
      modifies rec
      ensures forall h :: h in handles ==> h.held[0] == old(h.held[0])
      ensures Matched(handles, guards - {this})
    {
      hide AllFit;
      Goes(Helds(handles), Claims(guards), this);
      ghost var helds, claims: map<Guard, Claim> := Helds(handles), Claims(guards);
      GiveBack();
      hide One;
      HeldsAre(handles, helds[rec := rec.held]);
      ClaimsAre(guards - {this}, claims - {this});
    }

    /** unmark: clears the mark bits; the protection stays. */
    method Unmark(ghost handles: set<Handle>, ghost guards: set<Guard>) returns (wasMarked: bool)
      requires Matched(handles, guards) && this in guards
      modifies this
      ensures forall h :: h in handles ==> h.held[0] == old(h.held[0])
      ensures Matched(handles, guards) && wasMarked == (old(ptr.mark) != 0)
      ensures ptr == Ptr(old(ptr.addr), 0) && rec == old(rec)
    {
      hide AllFit;
      wasMarked := ptr != Ptr(ptr.addr, 0);
      ptr := Ptr(ptr.addr, 0);
      assert Claims(guards) == old(Claims(guards));
      assert Helds(handles) == old(Helds(handles));
    }
  }

  /** When all guards are gone a handle protects nothing but null, and null as often as guards were
      made from a raw null pointer: no operation of a guard lowers held[0]. */
  lemma NothingLeft(handles: set<Handle>, h: Handle)
    requires Matched(handles, {}) && h in handles
    ensures forall a: nat :: a != 0 ==> h.held[a] == 0
    ensures h.held == multiset{} <==> h.held[0] == 0
  {
    assert Fits(Helds(handles)[h], Claims({}), h);
    forall a: nat | a != 0 ensures h.held[a] == 0 { assert Holding(Claims({}), h, a) == {}; }
    if h.held[0] == 0 {
      forall a: nat ensures h.held[a] == 0 {}
    }
  }
}
