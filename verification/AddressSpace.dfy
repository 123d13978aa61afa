/** Whole address spaces: allocuvm, freevm, setupkvm and copyuvm of src/vm.c. A call that fails gives back what it took. */
module AddressSpace {
  import opened Common
  import opened Frames
  import opened Kalloc
  import opened PageTable

  // ---- allocuvm ----------------------------------------------------------------------------------------------

  function ZeroPage(): Frame { Page(seq(PGSIZE, i => 0)) }

  /** Page v of d is present, writable and the user's, in a frame that nobody had, and reads as zeros. */
  ghost predicate Fresh(m: Mem, o0: Owner, d: nat, v: nat)
  {
    var t := Lookup(m, d, v);
    t == Pte(t.frame, true, true, true, false, false) && t.frame !in o0 && t.frame < |m| && m[t.frame] == ZeroPage()
  }

  /** A frame taken aside and filled does not show. */
  lemma TookFrame(m: Mem, o: Owner, f: nat, x: Frame)
    requires Owned(m, o) && f !in o && f < |m|
    ensures Owned(m[f := x], o[f := Held]) && SameFlat(m, o, m[f := x], 0, 0, 0)
    ensures forall g :: g in o ==> SamePage(m, o, m[f := x], g)
  {
    hide Lookup;
    TakeOwned(m, o, f);
    StoreOwned(m, o[f := Held], f, x);
    var m' := m[f := x];
    forall d', v' | IsDir(o, d') && 0 <= v' < NPT * NPT ensures Lookup(m', d', v') == Lookup(m, d', v') {
      StoreFlat(m, o, f, x, d', v');
    }
    forall g | g in o ensures SamePage(m, o, m', g) {
      OwnedSize(m, o, g);
    }
  }

  /** A frame taken aside and then mapped as page v. */
  lemma TookPage(m: Mem, o: Owner, f: nat, x: Frame, m': Mem, o': Owner, d: nat, v: nat)
    requires Owned(m, o) && f !in o && f < |m|
    requires Grew(m[f := x], o[f := Held], m', o', d, v, v + 1, {f})
    ensures Grew(m, o, m', o', d, v, v + 1, {}) && f in o' && m'[f] == x
  {
    hide Lookup, Owned;
    TookFrame(m, o, f, x);
    var m1, o1 := m[f := x], o[f := Held];
    assert SamePage(m1, o1, m', f);
    forall g | g in o ensures g in o' && SamePage(m, o, m', g) && o'[g] == o[g] {
      assert SamePage(m, o, m1, g) && SamePage(m1, o1, m', g);
    }
  }

  /** What a failed allocuvm does: pages a to b, which were not mapped, are mapped in part and cleared again. */
  lemma Undone(m0: Mem, o0: Owner, m1: Mem, o1: Owner, m: Mem, o: Owner, d: nat, a: nat, v: nat, b: nat)
    requires Grew(m0, o0, m1, o1, d, a, v, {}) && Cleared(m1, o1, m, o, d, a, b) && v <= b && Owned(m0, o0) && IsDir(o0, d)
    requires forall v :: a <= v < b ==> Lookup(m0, d, v) == ZERO
    ensures Grew(m0, o0, m, o, d, 0, 0, {})
  {
    hide Lookup, PdeOk, PteOk;
    forall f | f in o0 ensures f in o && SamePage(m0, o0, m, f) && o[f] == o0[f] {
      assert f in o1 && o1[f] == o0[f] && SamePage(m0, o0, m1, f);
      assert OwnerOk(m0, o0, f);
      assert f in o;
      assert SamePage(m1, o1, m, f);
    }
    forall d', v' | IsDir(o0, d') && 0 <= v' < NPT * NPT ensures Lookup(m, d', v') == Lookup(m0, d', v') {
      assert IsDir(o1, d');
    }
  }

  /** A frame held aside while pages a to b are cleared, and given back after. */
  lemma HeldAside(m: Mem, o: Owner, f: nat, x: Frame, y: Frame, m': Mem, o': Owner, d: nat, a: nat, b: nat)
    requires Owned(m, o) && f !in o && f < |m| && Cleared(m[f := x], o[f := Held], m', o', d, a, b) && Owned(m', o')
             && IsDir(o', d)
    requires b <= NUSER
    ensures Cleared(m, o, m'[f := y], o' - {f}, d, a, b)
  {
    hide Lookup, Owned;
    TookFrame(m, o, f, x);
    var m1, o1 := m[f := x], o[f := Held];
    assert f in o' && o'[f] == Held && o' - {f} == Without(o, d, a, b);
    var m2 := m'[f := y];
    forall d', v' | IsDir(o, d') && 0 <= v' < NPT * NPT ensures Lookup(m2, d', v') == Lookup(m', d', v') {
      assert IsDir(o', d');
      StoreFlat(m', o', f, y, d', v');
    }
    forall g | g in o' - {f} ensures SamePage(m, o, m2, g) {
      assert SamePage(m, o, m1, g) && SamePage(m1, o1, m', g);
    }
    forall v | a <= v < b ensures Lookup(m2, d, v) == ZERO {
      StoreFlat(m', o', f, y, d, v);
      assert Lookup(m', d, v) == ZERO;
    }
  }

  lemma FreshMore(m0: Mem, o0: Owner, m1: Mem, o1: Owner, m: Mem, o: Owner, d: nat, a: nat, v: nat)
    requires Grew(m0, o0, m1, o1, d, a, v, {}) && Grew(m1, o1, m, o, d, v, v + 1, {}) && Owned(m1, o1) && IsDir(o1, d)
    requires a <= v < NUSER && Fresh(m, o0, d, v)
    requires forall w :: a <= w < v ==> Fresh(m1, o0, d, w)
    ensures forall w :: a <= w < v + 1 ==> Fresh(m, o0, d, w)
  {
    hide Lookup, Owned;
    forall w | a <= w < v + 1 ensures Fresh(m, o0, d, w) {
      if w < v {
        assert Fresh(m1, o0, d, w) && Lookup(m, d, w) == Lookup(m1, d, w);
        PageFrame(m1, o1, d, w);
        assert SamePage(m1, o1, m, Lookup(m1, d, w).frame);
      }
    }
  }

  /** A frame from kalloc, filled by the caller. */
  method NewFrame(k: Allocator, x: Frame) returns (f: nat)
    requires k.Valid()
    modifies k
    ensures k.Valid()
    ensures f == 0 <==> old(k.free) == []
    ensures f == 0 ==> unchanged(k)
    ensures f != 0 ==> f !in old(k.owner) && f < |old(k.mem)| && k.owner == old(k.owner)[f := Held] && k.mem == old(k.mem)[f := x]
    ensures f != 0 ==> |k.free| == |old(k.free)| - 1
  {
    hide Owned;
    f := k.Kalloc();
    if f != 0 {
      TookFrame(old(k.mem), old(k.owner), f, x);
      ChainStore(k.mem, k.freelist, k.free, f, x);
      k.mem := k.mem[f := x];
    }
  }

  const UW: Pte := Pte(0, false, true, true, false, false) // PTE_W | PTE_U

  ghost predicate AllFresh(m: Mem, o0: Owner, d: nat, a: nat, b: nat) { forall v :: a <= v < b ==> Fresh(m, o0, d, v) }

  ghost predicate NoneMapped(m: Mem, d: nat, a: nat, b: nat) { forall v :: a <= v < b ==> Lookup(m, d, v) == ZERO }

  /** 1 if the page table of page v is missing. */
  ghost function Lack(m: Mem, d: nat, v: nat): nat { if Pde(m, d, v / NPT).p then 0 else 1 }

  lemma OnePage(m: Mem, d: nat, v: nat, f: nat)
    requires v < NUSER && Lookup(m, d, v) == ZERO
    ensures FirstMapped(m, d, v, v + 1) == v + 1 && Tables(m, d, v, v + 1) == Lack(m, d, v) && TabsEnd(v, v + 1) == v / NPT + 1
    ensures Given(f, v, v + 1) == {f} && v * PGSIZE / PGSIZE == v && (v * PGSIZE + PGSIZE - 1) / PGSIZE == v
            && f * PGSIZE / PGSIZE == f
  {
    hide Lookup, Pde;
    assert Missing(m, d, v / NPT, v / NPT) == 0;
  }

  /** mappages of one user page: it fails exactly if a page table is missing and there is no frame for it. */
  method MapOne(k: Allocator, d: nat, v: nat, f: nat, perm: Pte) returns (r: Out)
    requires k.Valid() && IsDir(k.owner, d) && v < NUSER && Lookup(k.mem, d, v) == ZERO
    requires f in k.owner && k.owner[f] == Held && IsPage(k.mem, f)
    modifies k
    ensures k.Valid() && IsDir(k.owner, d) && r != Panic
    ensures r == Failed <==> |old(k.free)| < Lack(old(k.mem), d, v)
    ensures r == Failed ==> unchanged(k)
    ensures r == Done ==>
            Lookup(k.mem, d, v) == Entry(f, perm) && Grew(old(k.mem), old(k.owner), k.mem, k.owner, d, v, v + 1, {f})
    ensures r == Done ==> Tabled(old(k.mem), k.mem, d, v / NPT, v / NPT + 1) && |k.free| == |old(k.free)| - Lack(old(k.mem), d, v)
  {
    hide Allocator.Valid, Lookup, Grew, Lack, Tables, Tabled, TabsEnd, Given, FirstMapped, Pde;
    OnePage(k.mem, d, v, f);
    ghost var upto;
    r, upto := Mappages(k, d, v * PGSIZE, PGSIZE, f * PGSIZE, perm);
  }

  /** One page of allocuvm: it fails exactly when there is no frame for it and for the page table it lacks. */
  method GrowPage(k: Allocator, d: nat, v: nat) returns (r: Out, f: nat)
    requires k.Valid() && IsDir(k.owner, d) && v < NUSER && Lookup(k.mem, d, v) == ZERO
    modifies k
    ensures k.Valid() && IsDir(k.owner, d) && r != Panic
    ensures r == Failed <==> |old(k.free)| < 1 + Lack(old(k.mem), d, v)
    ensures r == Done ==> Grew(old(k.mem), old(k.owner), k.mem, k.owner, d, v, v + 1, {}) && Fresh(k.mem, old(k.owner), d, v)
    ensures r == Done ==>
            Tabled(old(k.mem), k.mem, d, v / NPT, v / NPT + 1) && |k.free| == |old(k.free)| - 1 - Lack(old(k.mem), d, v)
    ensures r == Failed && f == 0 ==> unchanged(k)
    ensures r == Failed && f != 0 ==> f !in old(k.owner) && f < |old(k.mem)| && k.owner == old(k.owner)[f := Held]
    ensures r == Failed && f != 0 ==> k.mem == old(k.mem)[f := ZeroPage()]
  {
    hide Owned, Lookup, Grew, Chain, ZeroPage, Tabled, Pde, Lack;
    assert IsPage([ZeroPage()], 0) by { ZeroIsPage(); }
    f := NewFrame(k, ZeroPage());
    if f == 0 {
      return Failed, 0;
    }
    TookFrame(old(k.mem), old(k.owner), f, ZeroPage());
    TookTables(old(k.mem), old(k.owner), f, ZeroPage(), d, v);
    assert Lookup(k.mem, d, v) == ZERO;
    ghost var m1 := k.mem;
    r := MapOne(k, d, v, f, UW);
    if r == Done {
      TookPage(old(k.mem), old(k.owner), f, ZeroPage(), k.mem, k.owner, d, v);
      OwnedSize(k.mem, k.owner, f);
      TabledSince(old(k.mem), m1, k.mem, d, v / NPT, v / NPT + 1);
    }
  }

  /** A frame taken aside is no page table. */
  lemma TookTables(m: Mem, o: Owner, f: nat, x: Frame, d: nat, v: nat)
    requires Owned(m, o) && f !in o && f < |m| && IsDir(o, d) && v < NPT * NPT
    ensures Tabled(m, m[f := x], d, 0, 0) && Lack(m[f := x], d, v) == Lack(m, d, v)
  {
    hide Lookup, Owned, Pde;
    forall i: nat | i < NPT ensures Pde(m[f := x], d, i) == Pde(m, d, i) {
      DirEntryFlat(m, o, f, x, d, i);
    }
  }

  lemma TabledSince(m0: Mem, m1: Mem, m: Mem, d: nat, i: nat, j: nat)
    requires Tabled(m0, m1, d, 0, 0) && Tabled(m1, m, d, i, j)
    ensures Tabled(m0, m, d, i, j)
  {
    hide Pde;
  }

  lemma ZeroIsPage()
    ensures IsPage([ZeroPage()], 0)
  {
  }

  /** Frames that growing an address space from page a to page b takes: the pages and the page tables it lacks. */
  ghost function GrowCost(m: Mem, d: nat, a: nat, b: nat): nat
    requires a <= b
  {
    (b - a) + Tables(m, d, a, b)
  }

  lemma UpGrows(a: nat, b: nat)
    requires a <= b
    ensures Up(a) <= Up(b)
  {
  }

  /** What the next page of allocuvm takes. */
  lemma NextPage(m0: Mem, m: Mem, d: nat, a: nat, v: nat, b: nat)
    requires a <= v < b && v < NPT * NPT && Tabled(m0, m, d, a / NPT, TabsEnd(a, v))
    ensures GrowCost(m0, d, a, v + 1) == GrowCost(m0, d, a, v) + 1 + Lack(m, d, v)
            && GrowCost(m0, d, a, v + 1) <= GrowCost(m0, d, a, b)
  {
    hide Tables, Tabled, TabsEnd, Pde;
    TablesStep(m0, m, d, a, v);
    TablesGrow(m0, d, a, v + 1, b);
  }

  /** allocuvm: the pages from oldsz up to newsz get fresh zeroed frames. It fails exactly when there are fewer free frames
      than pages and page tables lacking; then every user frame it took is back on the free list and every address space
      reads as before. Only empty page tables may stay behind. */
  method Allocuvm(k: Allocator, d: nat, oldsz: nat, newsz: nat) returns (r: nat)
    requires k.Valid() && IsDir(k.owner, d) && NoneMapped(k.mem, d, Up(oldsz), Min(Up(newsz), NUSER))
    modifies k
    ensures k.Valid() && IsDir(k.owner, d)
    ensures newsz >= KERNBASE ==> r == 0 && unchanged(k)
    ensures newsz < oldsz && newsz < KERNBASE ==> r == oldsz && unchanged(k)
    ensures oldsz <= newsz < KERNBASE ==> r == 0 || r == newsz
    ensures oldsz <= newsz < KERNBASE && newsz != 0 ==>
              && Up(oldsz) <= Up(newsz)
              && (r == 0 <==> |old(k.free)| < GrowCost(old(k.mem), d, Up(oldsz), Up(newsz)))
    ensures oldsz <= newsz < KERNBASE && r == newsz != 0 ==>
              && AllFresh(k.mem, old(k.owner), d, Up(oldsz), Up(newsz))
              && Grew(old(k.mem), old(k.owner), k.mem, k.owner, d, Up(oldsz), Up(newsz), {})
    ensures oldsz <= newsz < KERNBASE && r == newsz != 0 ==>
              forall v: nat :: oldsz <= v * PGSIZE < newsz ==> Fresh(k.mem, old(k.owner), d, v)
    ensures oldsz <= newsz < KERNBASE && r == 0 ==> Grew(old(k.mem), old(k.owner), k.mem, k.owner, d, 0, 0, {})
  {
    hide Owned, Lookup, Grew, Chain, Partition, Cleared, ZeroPage, Fresh, Tables, Tabled, TabsEnd, Lack, GrowCost;
    if newsz >= KERNBASE {
      return 0;
    }
    if newsz < oldsz {
      return oldsz;
    }
    ghost var m0, o0, free0 := k.mem, k.owner, |k.free|;
    var v := Up(oldsz);
    UpGrows(oldsz, newsz);
    GrewNothing(m0, o0, d, v);
    GrewNothing(m0, o0, d, 0);
    GrowNothing(m0, d, v);
    while v * PGSIZE < newsz
      invariant k.Valid() && IsDir(k.owner, d) && Up(oldsz) <= v <= Up(newsz)
      invariant Grew(m0, o0, k.mem, k.owner, d, Up(oldsz), v, {}) && AllFresh(k.mem, o0, d, Up(oldsz), v)
      invariant Tabled(m0, k.mem, d, Up(oldsz) / NPT, TabsEnd(Up(oldsz), v)) && |k.free| == free0 - GrowCost(m0, d, Up(oldsz), v)
    {
      ghost var m1, o1 := k.mem, k.owner;
      GrewKeeps(m0, o0, m1, o1, d, Up(oldsz), v, {}, v);
      NextPage(m0, m1, d, Up(oldsz), v, Up(newsz));
      var out, f := GrowPage(k, d, v);
      if out == Failed {
        FailedGrowth(k, d, oldsz, newsz, f, m0, o0, m1, o1, v);
        return 0;
      }
      FreshSince(m0, o0, m1, o1, k.mem, d, Up(oldsz), v);
      FreshMore(m0, o0, m1, o1, k.mem, k.owner, d, Up(oldsz), v);
      GrewNext(m0, o0, m1, o1, k.mem, k.owner, d, Up(oldsz), v, v + 1);
      TabledMore(m0, m1, k.mem, d, Up(oldsz), v);
      v := v + 1;
    }
    FreshBetween(k.mem, o0, d, oldsz, newsz);
    return newsz;
  }

  lemma FreshBetween(m: Mem, o0: Owner, d: nat, oldsz: nat, newsz: nat)
    requires AllFresh(m, o0, d, Up(oldsz), Up(newsz))
    ensures forall v: nat :: oldsz <= v * PGSIZE < newsz ==> Fresh(m, o0, d, v)
  {
    hide Fresh;
    forall v: nat | oldsz <= v * PGSIZE < newsz ensures Fresh(m, o0, d, v) {
      UpIs(oldsz, v);
      UpIs(newsz, v);
    }
  }

  lemma GrowNothing(m: Mem, d: nat, a: nat)
    ensures Tabled(m, m, d, a / NPT, TabsEnd(a, a)) && GrowCost(m, d, a, a) == 0
  {
    TabledNothing(m, d, a);
  }

  lemma GrewNext(m0: Mem, o0: Owner, m1: Mem, o1: Owner, m2: Mem, o2: Owner, d: nat, a: nat, b: nat, c: nat)
    requires Grew(m0, o0, m1, o1, d, a, b, {}) && Grew(m1, o1, m2, o2, d, b, c, {}) && a <= b <= c
    ensures Grew(m0, o0, m2, o2, d, a, c, {})
  {
    hide Grew;
    var none: set<nat> := {};
    GrewMore(m0, o0, m1, o1, m2, o2, d, a, b, c, none, none);
    assert none + none == none;
  }

  lemma FreshSince(m0: Mem, o0: Owner, m1: Mem, o1: Owner, m: Mem, d: nat, a: nat, v: nat)
    requires Grew(m0, o0, m1, o1, d, a, v, {}) && Fresh(m, o1, d, v)
    ensures Fresh(m, o0, d, v)
  {
    hide Lookup;
  }

  /** The way out of allocuvm when memory runs out: deallocuvm, and kfree of the frame that found no page table. */
  method FailedGrowth(k: Allocator, d: nat, oldsz: nat, newsz: nat, f: nat,
                      ghost m0: Mem, ghost o0: Owner, ghost m1: Mem, ghost o1: Owner, ghost v: nat)
    requires k.Valid() && IsDir(k.owner, d) && oldsz <= newsz < KERNBASE && Up(oldsz) <= v < Up(newsz) && Owned(m0, o0)
             && IsDir(o0, d)
    requires Owned(m1, o1) && Grew(m0, o0, m1, o1, d, Up(oldsz), v, {}) && NoneMapped(m0, d, Up(oldsz), Up(newsz))
    requires if f == 0 then k.mem == m1 && k.owner == o1
             else f !in o1 && f < |m1| && k.mem == m1[f := ZeroPage()] && k.owner == o1[f := Held]
    modifies k
    ensures k.Valid() && IsDir(k.owner, d) && Grew(m0, o0, k.mem, k.owner, d, 0, 0, {})
  {
    hide Owned, Lookup, Grew, Chain, Partition, ZeroPage;
    var size, ok := Deallocuvm(k, d, newsz, oldsz);
    if f != 0 {
      ghost var m2, o2 := k.mem, k.owner;
      assert f in o2 && o2[f] == Held;
      ok := k.Release(KERNBASE + f * PGSIZE);
      HeldAside(m1, o1, f, ZeroPage(), k.mem[f], m2, o2, d, Up(oldsz), Up(newsz));
      assert k.mem == m2[f := k.mem[f]];
    }
    Undone(m0, o0, m1, o1, k.mem, k.owner, d, Up(oldsz), v, Up(newsz));
  }

  // ---- freevm ------------------------------------------------------------------------------------------------

  /** The owners once the address space of d is gone: directory, page tables and user pages. */
  ghost function Gone(o: Owner, d: nat): Owner { map f | f in o && !PartOf(o[f], d, f) :: o[f] }

  /** The address space of d is gone and nobody else notices. */
  ghost predicate Freed(m0: Mem, o0: Owner, m: Mem, o: Owner, d: nat)
  {
    && |m| == |m0| && o == Gone(o0, d)
    && (forall f :: f in o ==> SamePage(m0, o0, m, f))
    && SameFlat(m0, o, m, 0, 0, 0)
  }

  ghost predicate Due(r: Role, d: nat, i: nat) { r.Tab? && r.dir == d && r.i < i }

  /** freevm's loop, with the page tables of entries below i given back. */
  ghost predicate Freeing(m0: Mem, o0: Owner, m: Mem, o: Owner, d: nat, i: nat)
  {
    && |m| == |m0| && d < |m| && m[d] == m0[d]
    && o == (map f | f in o0 && !Due(o0[f], d, i) :: if PartOf(o0[f], d, f) then Held else o0[f])
    && (forall f :: f in Gone(o0, d) ==> SamePage(m0, o0, m, f))
    && SameFlat(m0, Gone(o0, d), m, 0, 0, 0)
  }

  lemma FreeingBegins(m: Mem, o: Owner, d: nat)
    requires Owned(m, o) && IsDir(o, d)
    ensures Freeing(m, o, m, Loosened(o, d), d, 0)
  {
    hide Lookup;
    forall f | f in o ensures SamePage(m, o, m, f) {
      OwnedSize(m, o, f);
    }
    OwnedSize(m, o, d);
  }

  /** An entry that names no page table. */
  lemma FreeingSkips(m0: Mem, o0: Owner, m: Mem, o: Owner, d: nat, i: nat)
    requires Freeing(m0, o0, m, o, d, i) && Owned(m0, o0) && IsDir(o0, d) && i < NPT && Pde(m0, d, i) == ZERO
    ensures Freeing(m0, o0, m, o, d, i + 1)
  {
    hide Lookup, PteOk, Pde;
    forall f | f in o0 && o0[f].Tab? && o0[f].dir == d ensures o0[f].i != i {
      assert OwnerOk(m0, o0, f);
    }
  }

  /** An entry that names a page table: its frame is given back. */
  lemma FreeingFrees(m0: Mem, o0: Owner, m: Mem, o: Owner, d: nat, i: nat, x: Frame)
    requires Freeing(m0, o0, m, o, d, i) && Owned(m0, o0) && Owned(m, o) && IsDir(o0, d) && i < NPT && Pde(m0, d, i).p
    ensures var f := Pde(m0, d, i).frame;
            f in o && o[f] == Held && f < |m| && Freeing(m0, o0, m[f := x], o - {f}, d, i + 1)
  {
    hide Lookup, PteOk, Pde;
    assert PdeOk(m0, o0, d, i);
    var f := Pde(m0, d, i).frame;
    forall g | g in o0 && o0[g].Tab? && o0[g].dir == d && o0[g].i == i ensures g == f {
      assert OwnerOk(m0, o0, g);
    }
    assert o - {f} == map g | g in o0 && !Due(o0[g], d, i + 1) :: if PartOf(o0[g], d, g) then Held else o0[g];
    FreeingStores(m0, o0, m, o, d, i, f, x);
  }

  lemma FreeingStores(m0: Mem, o0: Owner, m: Mem, o: Owner, d: nat, i: nat, f: nat, x: Frame)
    requires Freeing(m0, o0, m, o, d, i) && Owned(m, o) && f in o0 && f in o && o[f] == Held && PartOf(o0[f], d, f)
    ensures f < |m| && (forall g :: g in Gone(o0, d) ==> SamePage(m0, o0, m[f := x], g))
    ensures SameFlat(m0, Gone(o0, d), m[f := x], 0, 0, 0)
  {
    hide Lookup, Owned;
    OwnedSize(m, o, f);
    var m' := m[f := x];
    forall d', v' | IsDir(Gone(o0, d), d') && 0 <= v' < NPT * NPT ensures Lookup(m', d', v') == Lookup(m0, d', v') {
      assert IsDir(o, d');
      StoreFlat(m, o, f, x, d', v');
    }
    forall g | g in Gone(o0, d) ensures SamePage(m0, o0, m', g) {
      assert SamePage(m0, o0, m, g);
    }
  }

  /** After the loop only the directory is left. */
  lemma FreeingEnds(m0: Mem, o0: Owner, m: Mem, o: Owner, d: nat, x: Frame)
    requires Freeing(m0, o0, m, o, d, NPT) && Owned(m0, o0) && Owned(m, o) && IsDir(o0, d) && NoneMapped(m0, d, 0, NUSER)
    ensures d in o && o[d] == Held && d < |m| && Freed(m0, o0, m[d := x], o - {d}, d)
  {
    hide Lookup, PteOk, PdeOk;
    forall f | f in o0 ensures !(o0[f].User? && o0[f].dir == d) && (o0[f].Tab? && o0[f].dir == d ==> Due(o0[f], d, NPT)) {
      assert OwnerOk(m0, o0, f);
    }
    assert o - {d} == Gone(o0, d);
    FreeingStores(m0, o0, m, o, d, NPT, d, x);
  }

  lemma ClearedThenFreed(m0: Mem, o0: Owner, m1: Mem, o1: Owner, m: Mem, o: Owner, d: nat)
    requires Cleared(m0, o0, m1, o1, d, 0, NUSER) && Freed(m1, o1, m, o, d) && Owned(m0, o0)
    ensures Freed(m0, o0, m, o, d)
  {
    hide Lookup, PteOk, PdeOk;
    forall f | f in o0 && o0[f].User? ensures o0[f].v < NUSER {
      assert OwnerOk(m0, o0, f);
    }
    assert Gone(o1, d) == Gone(o0, d);
    forall f | f in o ensures SamePage(m0, o0, m, f) {
      assert SamePage(m0, o0, m1, f) && SamePage(m1, o1, m, f);
    }
    forall d', v' | IsDir(o, d') && 0 <= v' < NPT * NPT ensures Lookup(m, d', v') == Lookup(m0, d', v') {
      assert IsDir(o0, d') && d' != d;
    }
  }

  /** freevm: every user page, every page table and the directory go back to the free list, each once, and every other
      address space is as before. It panics on a null directory only. */
  method Freevm(k: Allocator, d: nat) returns (ok: bool)
    requires k.Valid() && (d != 0 ==> IsDir(k.owner, d))
    modifies k
    ensures k.Valid() && (ok <==> d != 0)
    ensures d == 0 ==> unchanged(k)
    ensures d != 0 ==> Freed(old(k.mem), old(k.owner), k.mem, k.owner, d)
  {
    hide Owned, Lookup, Chain, Partition, Cleared, Freeing, Freed;
    if d == 0 {
      return false;
    }
    var size;
    size, ok := Deallocuvm(k, d, KERNBASE, 0);
    ghost var m1, o1 := k.mem, k.owner;
    NothingLeft(old(k.mem), old(k.owner), m1, o1, d);
    LoosenedParts(k.owner, k.free, k.lo, k.hi, d);
    Dismantle(k.mem, k.owner, d);
    FreeingBegins(k.mem, k.owner, d);
    k.owner := Loosened(k.owner, d);
    var i := 0;
    while i < NPT
      invariant 0 <= i <= NPT && ok && k.Valid() && Freeing(m1, o1, k.mem, k.owner, d, i)
    {
      DirFacts(m1, o1, d, i);
      FreeingDir(m1, o1, k.mem, k.owner, d, i);
      var pde := k.mem[d].entries[i];
      if pde.Mapped() {
        FreeingFrees(m1, o1, k.mem, k.owner, d, i, Run(k.freelist));
        ok := k.Release(KERNBASE + pde.frame * PGSIZE);
      } else {
        FreeingSkips(m1, o1, k.mem, k.owner, d, i);
      }
      i := i + 1;
    }
    FreeingEnds(m1, o1, k.mem, k.owner, d, Run(k.freelist));
    ok := k.Release(KERNBASE + d * PGSIZE);
    ClearedThenFreed(old(k.mem), old(k.owner), m1, o1, k.mem, k.owner, d);
  }

  lemma NothingLeft(m0: Mem, o0: Owner, m: Mem, o: Owner, d: nat)
    requires Cleared(m0, o0, m, o, d, Up(0), Up(KERNBASE))
    ensures NoneMapped(m, d, 0, NUSER) && Cleared(m0, o0, m, o, d, 0, NUSER)
  {
    hide Lookup;
  }

  lemma LoosenedParts(o: Owner, free: seq<nat>, lo: nat, hi: nat, d: nat)
    requires Partition(o, free, lo, hi)
    ensures Partition(Loosened(o, d), free, lo, hi)
  {
  }

  lemma FreeingDir(m0: Mem, o0: Owner, m: Mem, o: Owner, d: nat, i: nat)
    requires Freeing(m0, o0, m, o, d, i) && IsTable(m0, d)
    ensures IsTable(m, d) && m[d] == m0[d]
  {
  }

  // ---- setupkvm ----------------------------------------------------------------------------------------------

  const EXTMEM: nat := 0x100000
  const DEVSPACE: nat := 0xFE000000
  const KERNLINK: nat := KERNBASE + EXTMEM

  /** A row of kmap: `size` bytes at `virt`, mapped to the physical addresses from `start` on. */
  datatype Range = Range(virt: nat, start: nat, size: nat, perm: Pte) {
    function First(): nat { virt / PGSIZE }
    function Past(): nat { if size == 0 then virt / PGSIZE else (virt + size - 1) / PGSIZE + 1 }
  }

  /** Where the kernel's data begins: `data` of the linker script. */
  predicate DataOk(data: nat) { KERNLINK < data < KERNBASE + PHYSTOP && data % PGSIZE == 0 }

  function Kmap(data: nat): seq<Range>
    requires DataOk(data)
  {
    var w := Pte(0, false, true, false, false, false);
    [Range(KERNBASE, 0, EXTMEM, w), Range(KERNLINK, EXTMEM, data - KERNLINK, ZERO),
     Range(data, data - KERNBASE, PHYSTOP - (data - KERNBASE), w), Range(DEVSPACE, DEVSPACE, 0x1_0000_0000 - DEVSPACE, w)]
  }

  lemma KmapFacts(data: nat, j: nat)
    requires DataOk(data) && j < |Kmap(data)|
    ensures var r := Kmap(data)[j]; r.size > 0 && NUSER <= r.First() < r.Past() <= NPT * NPT && r.virt + r.size <= 0x1_0000_0000
    ensures forall i :: 0 <= i < j ==> Kmap(data)[i].Past() <= Kmap(data)[j].First()
  {
  }

  /** The first j rows of kmap are mapped in d. */
  ghost predicate KernelMaps(m: Mem, d: nat, data: nat, j: nat)
    requires DataOk(data) && j <= |Kmap(data)|
  {
    forall i :: 0 <= i < j ==> var r := Kmap(data)[i]; Maps(m, d, r.First(), r.Past(), r.start / PGSIZE, r.perm)
  }

  /** Page v of the kernel's half: memory is mapped at its address plus KERNBASE and the devices at their own, all but the
      kernel's instructions can be written, no page is the user's, and nothing lies between. */
  ghost predicate KernelPage(m: Mem, d: nat, data: nat, v: nat)
  {
    var e, va := Lookup(m, d, v), v * PGSIZE;
    && (va < KERNBASE + PHYSTOP ==> e.p && e.frame * PGSIZE + KERNBASE == va && (e.w <==> !(KERNLINK <= va < data)))
    && (KERNBASE + PHYSTOP <= va < DEVSPACE ==> e == ZERO)
    && (DEVSPACE <= va ==> e.p && e.frame * PGSIZE == va && e.w)
    && !e.u && !e.a && !e.e
  }

  ghost predicate KernelHalf(m: Mem, d: nat, data: nat) { forall v :: NUSER <= v < NPT * NPT ==> KernelPage(m, d, data, v) }

  /** The pages between memory and the devices. */
  const HOLE: nat := (KERNBASE + PHYSTOP) / PGSIZE
  const DEVICES: nat := DEVSPACE / PGSIZE

  /** The rows of kmap make up that half. */
  lemma KernelHalfMapped(m: Mem, d: nat, data: nat)
    requires DataOk(data) && KernelMaps(m, d, data, |Kmap(data)|) && NoneMapped(m, d, HOLE, DEVICES)
    ensures KernelHalf(m, d, data)
  {
    hide Lookup;
    forall v | NUSER <= v < NPT * NPT ensures KernelPage(m, d, data, v) {
      var va := v * PGSIZE;
      var i := if va < KERNLINK then 0 else if va < data then 1 else if va < KERNBASE + PHYSTOP then 2 else 3;
      var r := Kmap(data)[i];
      assert Maps(m, d, r.First(), r.Past(), r.start / PGSIZE, r.perm);
    }
  }

  /** Each row lies on one side of the hole. */
  lemma RowBesideHole(data: nat, j: nat)
    requires DataOk(data) && j < |Kmap(data)|
    ensures Kmap(data)[j].Past() <= HOLE || DEVICES <= Kmap(data)[j].First()
  {
  }

  /** Nothing is left of what a call did. */
  ghost predicate Restored(m0: Mem, o0: Owner, m: Mem, o: Owner)
  {
    |m| == |m0| && o == o0 && (forall f :: f in o0 ==> SamePage(m0, o0, m, f)) && SameFlat(m0, o0, m, 0, 0, 0)
  }

  /** A new address space d, grown and then freed. */
  lemma Reverted(m0: Mem, o0: Owner, d: nat, x: Frame, m1: Mem, o1: Owner, m: Mem, o: Owner, a: nat, b: nat)
    requires Owned(m0, o0) && d !in o0 && d < |m0| && Grew(m0[d := x], o0[d := Dir], m1, o1, d, a, b, {})
             && Freed(m1, o1, m, o, d)
    ensures Restored(m0, o0, m, o)
  {
    hide Lookup, PdeOk, PteOk;
    var m0', o0' := m0[d := x], o0[d := Dir];
    forall f | f in o0 ensures !PartOf(o0[f], d, f) {
      assert OwnerOk(m0, o0, f);
    }
    assert o == o0;
    forall f | f in o0 ensures SamePage(m0, o0, m, f) {
      OwnedSize(m0, o0, f);
      assert SamePage(m0', o0', m1, f) && SamePage(m1, o1, m, f);
    }
    forall d', v' | IsDir(o0, d') && 0 <= v' < NPT * NPT ensures Lookup(m, d', v') == Lookup(m0, d', v') {
      StoreFlat(m0, o0, d, x, d', v');
      assert IsDir(o0', d') && IsDir(o, d') && d' != d;
    }
  }

  lemma GrewBoth(m0: Mem, o0: Owner, m1: Mem, o1: Owner, m2: Mem, o2: Owner, d: nat, a: nat, b: nat, a': nat, b': nat)
    requires Grew(m0, o0, m1, o1, d, a, b, {}) && Grew(m1, o1, m2, o2, d, a', b', {}) && a <= a' && b' <= b
    ensures Grew(m0, o0, m2, o2, d, a, b, {})
  {
    hide Lookup;
    forall f | f in o0 ensures f in o2 && SamePage(m0, o0, m2, f) && o2[f] == o0[f] {
      assert f in o1 && o1[f] == o0[f] && SamePage(m0, o0, m1, f) && SamePage(m1, o1, m2, f);
    }
  }

  /** Mapping one row of kmap leaves the rows before it and the pages after it. */
  lemma KernelMapsMore(m0: Mem, o0: Owner, m: Mem, o: Owner, d: nat, data: nat, j: nat)
    requires DataOk(data) && j < |Kmap(data)| && KernelMaps(m0, d, data, j) && IsDir(o0, d)
    requires var r := Kmap(data)[j];
             Maps(m, d, r.First(), r.Past(), r.start / PGSIZE, r.perm) && Grew(m0, o0, m, o, d, r.First(), r.Past(), {})
    ensures KernelMaps(m, d, data, j + 1)
  {
    hide Lookup, Kmap;
    KmapFacts(data, j);
    forall i | 0 <= i < j ensures var r := Kmap(data)[i]; Maps(m, d, r.First(), r.Past(), r.start / PGSIZE, r.perm) {
      var r := Kmap(data)[i];
      assert Maps(m0, d, r.First(), r.Past(), r.start / PGSIZE, r.perm);
      assert r.Past() <= Kmap(data)[j].First();
    }
  }

  lemma UnmappedKept(m0: Mem, o0: Owner, m: Mem, o: Owner, d: nat, a: nat, b: nat, x: nat, y: nat)
    requires Grew(m0, o0, m, o, d, a, b, {}) && IsDir(o0, d) && NoneMapped(m0, d, x, y) && y <= NPT * NPT && (y <= a || b <= x)
    ensures NoneMapped(m, d, x, y)
  {
    hide Lookup;
  }

  /** The first row not yet mapped begins above all that is. */
  function Frontier(data: nat, j: nat): nat
    requires DataOk(data)
  {
    if j < |Kmap(data)| then Kmap(data)[j].First() else NPT * NPT
  }

  lemma FrontierMoves(data: nat, j: nat)
    requires DataOk(data) && j < |Kmap(data)|
    ensures Kmap(data)[j].Past() <= Frontier(data, j + 1) <= NPT * NPT
  {
    KmapFacts(data, j);
    if j + 1 < |Kmap(data)| {
      KmapFacts(data, j + 1);
    }
  }

  /** Page tables that the first j rows of kmap need. */
  function RowTables(data: nat, j: nat): nat
  {
    match j
    case 0 => 0
    case 1 => 1
    case 2 => if data < KERNLINK then 0 else (data / PGSIZE - 1) / NPT + 1 - NUSER / NPT
    case 3 => PHYSTOP / PGSIZE / NPT
    case _ => KERNELTABLES
  }

  /** Page tables of the kernel's half: 224 MB of memory and 32 MB of devices, 4 MB each. */
  const KERNELTABLES: nat := 64

  /** The directory has exactly the page tables of the first j rows of kmap. */
  ghost predicate HasRows(m: Mem, d: nat, data: nat, j: nat)
  {
    forall x: nat :: x < NPT ==>
        (Pde(m, d, x).p <==> NUSER / NPT <= x < NUSER / NPT + RowTables(data, Min(j, 3)) || (j >= 4 && x >= NPT - 8))
  }

  /** A table below p is there, the others are missing. */
  lemma {:induction false} MissingAbove(m: Mem, d: nat, i: nat, j: nat, p: nat)
    requires i <= j && forall x: nat :: i <= x < j ==> (Pde(m, d, x).p <==> x < p)
    ensures Missing(m, d, i, j) == if j <= p then 0 else if i <= p then j - p else j - i
    decreases j
  {
    hide Pde;
    if i < j {
      MissingAbove(m, d, i, j - 1, p);
    }
  }

  lemma RowEnds(data: nat, j: nat)
    requires DataOk(data) && j < 4
    ensures |Kmap(data)| == 4 && RowTables(data, j) <= RowTables(data, j + 1) <= KERNELTABLES
    ensures var r := Kmap(data)[j];
            var i, e, p := r.First() / NPT, TabsEnd(r.First(), r.Past()), NUSER / NPT + RowTables(data, j);
            && i <= e <= NPT && NUSER / NPT <= i
            && if j < 3 then i <= p <= e == NUSER / NPT + RowTables(data, j + 1) && (i == p || i + 1 == p)
               else i == NPT - 8 && e == NPT && p + 8 <= i
  {
  }

  /** Mapping row j takes the page tables it lacks. */
  lemma RowCost(m: Mem, d: nat, data: nat, j: nat)
    requires DataOk(data) && j < 4 && HasRows(m, d, data, j)
    ensures |Kmap(data)| == 4 && RowTables(data, j) <= RowTables(data, j + 1) <= KERNELTABLES
    ensures Tables(m, d, Kmap(data)[j].First(), Kmap(data)[j].Past()) == RowTables(data, j + 1) - RowTables(data, j)
  {
    RowEnds(data, j);
    hide Pde, Kmap, RowTables, TabsEnd;
    var r := Kmap(data)[j];
    MissingAbove(m, d, r.First() / NPT, TabsEnd(r.First(), r.Past()), NUSER / NPT + RowTables(data, j));
  }

  lemma RowMapped(m: Mem, m': Mem, d: nat, data: nat, j: nat)
    requires DataOk(data) && j < 4 && HasRows(m, d, data, j) && |Kmap(data)| == 4
    requires var r := Kmap(data)[j]; Tabled(m, m', d, r.First() / NPT, TabsEnd(r.First(), r.Past()))
    ensures HasRows(m', d, data, j + 1)
  {
    RowEnds(data, j);
    hide Pde, Kmap, RowTables, TabsEnd;
  }

  /** setupkvm: a new directory with the kernel's mappings and no user page, made from the directory and its 64 page tables;
      if there are not so many free frames, nothing is left of it. The panic "remapping page" is not met. */
  method Setupkvm(k: Allocator, data: nat) returns (d: nat)
    requires k.Valid() && DataOk(data)
    modifies k
    ensures k.Valid()
    ensures d == 0 <==> |old(k.free)| < 1 + KERNELTABLES
    ensures d == 0 ==> Restored(old(k.mem), old(k.owner), k.mem, k.owner)
    ensures d != 0 ==>
              && d !in old(k.owner) && d < |old(k.mem)| && IsDir(k.owner, d)
              && NoneMapped(k.mem, d, 0, NUSER) && KernelHalf(k.mem, d, data)
              && Grew(old(k.mem)[d := Blank()], old(k.owner)[d := Dir], k.mem, k.owner, d, 0, NPT * NPT, {})
              && HasRows(k.mem, d, data, 4) && |k.free| == |old(k.free)| - 1 - KERNELTABLES
  {
    hide Owned, Lookup, Chain, Partition, Grew, Freed, Restored, Kmap, NoneMapped, KernelMaps, KernelHalf, Blank, Tables, Tabled,
         TabsEnd, Given,
      Provided, HasRows, RowTables, FirstMapped, Pde;
    d := NewFrame(k, Blank());
    if d == 0 {
      RestoredNow(k.mem, k.owner);
      return;
    }
    ghost var m0, o0, m1, o1, free0 := old(k.mem), old(k.owner), old(k.mem)[d := Blank()], old(k.owner)[d := Dir], |old(k.free)|;
    NewDir(k.mem, k.owner, k.free, k.lo, k.hi, d, data);
    NewRows(k.mem, d, data);
    k.owner := k.owner[d := Dir];
    assert k.owner == o1;
    var j := 0;
    while j < |Kmap(data)|
      invariant 0 <= j <= |Kmap(data)| == 4 && k.Valid() && IsDir(k.owner, d) && Grew(m1, o1, k.mem, k.owner, d, 0, NPT * NPT, {})
      invariant NoneMapped(k.mem, d, 0, NUSER) && NoneMapped(k.mem, d, Frontier(data, j), NPT * NPT)
                && KernelMaps(k.mem, d, data, j) && NoneMapped(k.mem, d, HOLE, DEVICES)
      invariant HasRows(k.mem, d, data, j) && |k.free| == free0 - 1 - RowTables(data, j)
    {
      var r := Kmap(data)[j];
      KmapFacts(data, j);
      FrontierMoves(data, j);
      ghost var m2, o2 := k.mem, k.owner;
      RowCost(m2, d, data, j);
      KernelRow(m2, o2, d, r);
      var out, upto := Mappages(k, d, r.virt, r.size, r.start, r.perm);
      GivenNone(r.start / PGSIZE, r.First(), upto);
      GrewBoth(m1, o1, m2, o2, k.mem, k.owner, d, 0, NPT * NPT, r.First(), upto);
      if out != Done {
        ghost var m3, o3 := k.mem, k.owner;
        var ok := Freevm(k, d);
        Reverted(m0, o0, d, Blank(), m3, o3, k.mem, k.owner, 0, NPT * NPT);
        return 0;
      }
      RowMapped(m2, k.mem, d, data, j);
      KernelMapsMore(m2, o2, k.mem, k.owner, d, data, j);
      UnmappedKept(m2, o2, k.mem, k.owner, d, r.First(), r.Past(), 0, NUSER);
      RowBesideHole(data, j);
      UnmappedKept(m2, o2, k.mem, k.owner, d, r.First(), r.Past(), HOLE, DEVICES);
      NoneMappedPart(m2, d, Frontier(data, j), Frontier(data, j + 1), NPT * NPT);
      UnmappedKept(m2, o2, k.mem, k.owner, d, r.First(), r.Past(), Frontier(data, j + 1), NPT * NPT);
      j := j + 1;
    }
    AllRows(data);
    KernelHalfMapped(k.mem, d, data);
  }

  lemma AllRows(data: nat)
    ensures RowTables(data, 4) == KERNELTABLES
  {
  }

  lemma NewRows(m: Mem, d: nat, data: nat)
    requires d < |m| && m[d] == Blank() && DataOk(data)
    ensures HasRows(m, d, data, 0) && RowTables(data, 0) == 0 && |Kmap(data)| == 4
  {
  }

  lemma GivenNone(f: nat, a: nat, b: nat)
    requires NUSER <= a
    ensures Given(f, a, b) == {}
  {
  }

  /** No page of the row is mapped yet, and none is a user page. */
  lemma KernelRow(m: Mem, o: Owner, d: nat, r: Range)
    requires r.size > 0 && NUSER <= r.First() && r.Past() <= NPT * NPT && NoneMapped(m, d, r.First(), NPT * NPT)
    ensures FirstMapped(m, d, r.First(), r.Past()) == r.Past()
    ensures Provided(m, o, r.start / PGSIZE, r.First(), r.First(), r.Past())
  {
    hide Lookup;
  }

  lemma NoneMappedPart(m: Mem, d: nat, a: nat, a': nat, b: nat)
    requires NoneMapped(m, d, a, b) && a <= a'
    ensures NoneMapped(m, d, a', b)
  {
  }

  lemma RestoredNow(m: Mem, o: Owner)
    requires Owned(m, o)
    ensures Restored(m, o, m, o)
  {
    hide Lookup;
    forall f | f in o ensures SamePage(m, o, m, f) {
      OwnedSize(m, o, f);
    }
  }

  lemma NewDir(m: Mem, o: Owner, free: seq<nat>, lo: nat, hi: nat, d: nat, data: nat)
    requires Owned(m, o) && d in o && o[d] == Held && d < |m| && m[d] == Blank() && DataOk(data) && Partition(o, free, lo, hi)
    ensures Owned(m, o[d := Dir]) && Grew(m, o[d := Dir], m, o[d := Dir], d, 0, NPT * NPT, {})
            && Partition(o[d := Dir], free, lo, hi)
    ensures NoneMapped(m, d, 0, NUSER) && NoneMapped(m, d, Frontier(data, 0), NPT * NPT) && KernelMaps(m, d, data, 0)
            && NoneMapped(m, d, HOLE, DEVICES)
  {
    hide Lookup, Blank;
    DirOwned(m, o, d);
    GrewNothing(m, o[d := Dir], d, 0);
    GrewWider(m, o[d := Dir], m, o[d := Dir], d, 0, 0, NPT * NPT);
  }

  // ---- copyuvm -----------------------------------------------------------------------------------------------

  /** Page v of c has the flags and the bytes that page v of d had, in a frame of its own. */
  ghost predicate Copied(m0: Mem, m: Mem, d: nat, c: nat, v: nat)
  {
    var s, t := Lookup(m0, d, v), Lookup(m, c, v);
    && s.Mapped() && t == s.(frame := t.frame) && t.frame != s.frame
    && s.frame < |m0| && t.frame < |m| && m[t.frame] == m0[s.frame]
  }

  ghost predicate AllCopied(m0: Mem, m: Mem, d: nat, c: nat, b: nat) { forall v: nat :: v < b ==> Copied(m0, m, d, c, v) }

  /** The copy so far: m0, o0 before copyuvm, c the new directory, pages below v copied. */
  ghost predicate Copying(m0: Mem, o0: Owner, m: Mem, o: Owner, d: nat, c: nat, v: nat, data: nat)
    requires DataOk(data)
  {
    && Owned(m0, o0) && IsDir(o0, d) && c !in o0 && c < |m0| && IsDir(o, c)
    && Grew(m0[c := Blank()], o0[c := Dir], m, o, c, 0, NPT * NPT, {})
    && AllCopied(m0, m, d, c, v) && NoneMapped(m, c, v, NUSER) && KernelHalf(m, c, data)
  }

  lemma CopyBegins(m0: Mem, o0: Owner, m: Mem, o: Owner, d: nat, c: nat, data: nat)
    requires DataOk(data) && Owned(m0, o0) && IsDir(o0, d) && c !in o0 && c < |m0| && IsDir(o, c)
    requires Grew(m0[c := Blank()], o0[c := Dir], m, o, c, 0, NPT * NPT, {})
    requires NoneMapped(m, c, 0, NUSER) && KernelHalf(m, c, data)
    ensures Copying(m0, o0, m, o, d, c, 0, data)
  {
  }

  /** The original is as it was while the copy is made. */
  lemma OriginalKept(m0: Mem, o0: Owner, m: Mem, o: Owner, d: nat, c: nat, v: nat, data: nat, w: nat)
    requires DataOk(data) && Copying(m0, o0, m, o, d, c, v, data) && w < NUSER
    ensures IsDir(o, d) && d != c && Lookup(m, d, w) == Lookup(m0, d, w) && (v <= w ==> Lookup(m, c, w) == ZERO)
    ensures Lookup(m0, d, w).Mapped() ==>
              var f := Lookup(m0, d, w).frame;
                  f in o0 && f in o && f < |m0| && f < |m| && m[f] == m0[f] && m[f].Page? && IsPage(m, f)
  {
    hide Lookup, Owned, KernelHalf, AllCopied, Blank;
    var m1, o1 := m0[c := Blank()], o0[c := Dir];
    assert IsDir(o1, d);
    StoreFlat(m0, o0, c, Blank(), d, w);
    if Lookup(m0, d, w).Mapped() {
      PageFrame(m0, o0, d, w);
      assert SamePage(m1, o1, m, Lookup(m0, d, w).frame);
    }
  }

  /** One more page copied: f, with the bytes of page v of d, was taken and mapped as page v of c. */
  lemma CopyMore(m0: Mem, o0: Owner, m1: Mem, o1: Owner, m: Mem, o: Owner, d: nat, c: nat, v: nat, data: nat, f: nat)
    requires DataOk(data) && Copying(m0, o0, m1, o1, d, c, v, data) && v < NUSER && Lookup(m0, d, v).Mapped() && Owned(m1, o1)
    requires Grew(m1, o1, m, o, c, v, v + 1, {}) && f !in o1 && f < |m| && IsDir(o, c)
    requires Lookup(m0, d, v).frame < |m0| && Lookup(m, c, v) == Entry(f, Lookup(m0, d, v)) && m[f] == m0[Lookup(m0, d, v).frame]
    ensures Copying(m0, o0, m, o, d, c, v + 1, data)
  {
    hide Lookup, Owned, KernelHalf, Blank, NoneMapped;
    OriginalKept(m0, o0, m1, o1, d, c, v, data, v);
    assert Copied(m0, m, d, c, v);
    forall w: nat | w < v + 1 ensures Copied(m0, m, d, c, w) {
      if w < v {
        assert Copied(m0, m1, d, c, w);
        PageFrame(m1, o1, c, w);
        assert Lookup(m, c, w) == Lookup(m1, c, w) && SamePage(m1, o1, m, Lookup(m1, c, w).frame);
      }
    }
    CopyGrew(m0, o0, m1, o1, m, o, c, v, data);
  }

  lemma CopyGrew(m0: Mem, o0: Owner, m1: Mem, o1: Owner, m: Mem, o: Owner, c: nat, v: nat, data: nat)
    requires DataOk(data) && c < |m0| && Grew(m0[c := Blank()], o0[c := Dir], m1, o1, c, 0, NPT * NPT, {}) && v < NUSER
             && IsDir(o1, c)
    requires Grew(m1, o1, m, o, c, v, v + 1, {}) && NoneMapped(m1, c, v, NUSER) && KernelHalf(m1, c, data)
    ensures Grew(m0[c := Blank()], o0[c := Dir], m, o, c, 0, NPT * NPT, {})
    ensures NoneMapped(m, c, v + 1, NUSER) && KernelHalf(m, c, data)
  {
    hide Lookup, Blank, Grew, NoneMapped;
    GrewBoth(m0[c := Blank()], o0[c := Dir], m1, o1, m, o, c, 0, NPT * NPT, v, v + 1);
    NoneMappedPart(m1, c, v, v + 1, NUSER);
    UnmappedKept(m1, o1, m, o, c, v, v + 1, v + 1, NUSER);
    forall w | NUSER <= w < NPT * NPT ensures KernelPage(m, c, data, w) {
      assert KernelPage(m1, c, data, w);
      GrewKeeps(m1, o1, m, o, c, v, v + 1, {}, w);
    }
  }

  /** A frame nobody has may hold anything. */
  lemma GrewAside(m0: Mem, o0: Owner, m: Mem, o: Owner, d: nat, a: nat, b: nat, f: nat, x: Frame)
    requires Grew(m0, o0, m, o, d, a, b, {}) && Owned(m, o) && f !in o && f < |m|
    ensures Grew(m0, o0, m[f := x], o, d, a, b, {})
  {
    hide Lookup, Owned;
    TookFrame(m, o, f, x);
    var m' := m[f := x];
    forall g | g in o0 ensures SamePage(m0, o0, m', g) {
      assert SamePage(m0, o0, m, g) && SamePage(m, o, m', g);
    }
  }

  /** One page of copyuvm: it fails exactly when there is no frame for it and for the page table it lacks. */
  method CopyPage(k: Allocator, d: nat, c: nat, v: nat, pte: Pte, ghost m0: Mem, ghost o0: Owner, data: nat) returns (ok: bool)
    requires k.Valid() && DataOk(data) && Copying(m0, o0, k.mem, k.owner, d, c, v, data) && v < NUSER
    requires pte == Lookup(k.mem, d, v) && pte.Mapped()
    modifies k
    ensures k.Valid()
    ensures ok <==> 1 + Lack(old(k.mem), c, v) <= |old(k.free)|
    ensures ok ==> Copying(m0, o0, k.mem, k.owner, d, c, v + 1, data)
    ensures ok ==> Tabled(old(k.mem), k.mem, c, v / NPT, v / NPT + 1) && |k.free| == |old(k.free)| - 1 - Lack(old(k.mem), c, v)
    ensures !ok ==> IsDir(k.owner, c) && c !in o0 && c < |m0|
                    && Grew(m0[c := Blank()], o0[c := Dir], k.mem, k.owner, c, 0, NPT * NPT, {})
  {
    hide Owned, Lookup, Chain, Grew, NoneMapped, KernelHalf, Blank, Tabled, Lack, Pde;
    ghost var m1, o1 := k.mem, k.owner;
    OriginalKept(m0, o0, m1, o1, d, c, v, data, v);
    ghost var x := k.mem[pte.frame];
    var f := NewFrame(k, k.mem[pte.frame]);
    if f == 0 {
      return false;
    }
    TookFrame(m1, o1, f, x);
    TookTables(m1, o1, f, x, c, v);
    CopyTarget(m1, o1, c, f, x, v);
    ghost var m2 := k.mem;
    var out := MapOne(k, c, v, f, pte);
    if out != Done {
      ghost var y := Run(k.freelist);
      ok := k.Release(KERNBASE + f * PGSIZE);
      assert k.owner == o1 && k.mem == m1[f := y];
      GrewAside(m0[c := Blank()], o0[c := Dir], m1, o1, c, 0, NPT * NPT, f, y);
      return false;
    }
    TabledSince(m1, m2, k.mem, c, v / NPT, v / NPT + 1);
    TookPage(m1, o1, f, x, k.mem, k.owner, c, v);
    OwnedSize(k.mem, k.owner, f);
    CopyMore(m0, o0, m1, o1, k.mem, k.owner, d, c, v, data, f);
    return true;
  }

  lemma CopyTarget(m: Mem, o: Owner, c: nat, f: nat, x: Frame, v: nat)
    requires Owned(m, o) && IsDir(o, c) && f !in o && f < |m| && v < NUSER && Lookup(m, c, v) == ZERO
    ensures Lookup(m[f := x], c, v) == ZERO
  {
    hide Lookup, Owned;
    StoreFlat(m, o, f, x, c, v);
  }

  /** Frames that a copy of v pages takes: directory, kernel tables, pages and their tables. */
  function CopyCost(v: nat): nat { 1 + KERNELTABLES + v + TabsEnd(0, v) }

  /** The user half of the directory has exactly the tables of the first v pages. */
  ghost predicate HasUser(m: Mem, c: nat, v: nat)
  {
    forall x: nat :: x < NUSER / NPT ==> (Pde(m, c, x).p <==> x < TabsEnd(0, v))
  }

  lemma NoUserTables(m: Mem, c: nat, data: nat)
    requires HasRows(m, c, data, 4)
    ensures HasUser(m, c, 0) && CopyCost(0) == 1 + KERNELTABLES
  {
    hide Pde, RowTables;
  }

  lemma CopyNext(m: Mem, c: nat, v: nat)
    requires HasUser(m, c, v) && v < NUSER
    ensures CopyCost(v + 1) == CopyCost(v) + 1 + Lack(m, c, v)
  {
    hide Pde;
    TabsEndStep(0, v);
    hide TabsEnd;
    assert v / NPT < NUSER / NPT && (Pde(m, c, v / NPT).p <==> v / NPT < TabsEnd(0, v));
  }

  lemma CopyTables(m: Mem, m': Mem, c: nat, v: nat)
    requires HasUser(m, c, v) && v < NUSER && Tabled(m, m', c, v / NPT, v / NPT + 1)
    ensures HasUser(m', c, v + 1)
  {
    hide Pde;
    TabsEndStep(0, v);
    hide TabsEnd;
  }

  lemma CopyCostGrows(v: nat, w: nat)
    requires v <= w
    ensures CopyCost(v) <= CopyCost(w)
  {
  }

  /** The first page from a to b that is not mapped, or b. */
  ghost function FirstGap(m: Mem, d: nat, a: nat, b: nat): (r: nat)
    requires a <= b
    ensures a <= r <= b && (forall v :: a <= v < r ==> Lookup(m, d, v).Mapped()) && (r < b ==> !Lookup(m, d, r).Mapped())
    decreases b - a
  {
    if a == b || !Lookup(m, d, a).Mapped() then a else FirstGap(m, d, a + 1, b)
  }

  lemma GapIs(m0: Mem, m: Mem, d: nat, c: nat, v: nat, b: nat)
    requires AllCopied(m0, m, d, c, v) && v <= b
    ensures v <= FirstGap(m0, d, 0, b) && (v < b && !Lookup(m0, d, v).Mapped() ==> FirstGap(m0, d, 0, b) == v)
    ensures v < b && Lookup(m0, d, v).Mapped() ==> v + 1 <= FirstGap(m0, d, 0, b)
  {
    hide Lookup, FirstGap;
    forall w: nat | w < v ensures Lookup(m0, d, w).Mapped() {
      assert Copied(m0, m, d, c, w);
    }
  }

  lemma CopyingCopied(m0: Mem, o0: Owner, m: Mem, o: Owner, d: nat, c: nat, v: nat, data: nat)
    requires DataOk(data) && Copying(m0, o0, m, o, d, c, v, data)
    ensures AllCopied(m0, m, d, c, v)
  {
    hide AllCopied, Grew, NoneMapped, KernelHalf, Owned;
  }

  /** copyuvm: a new address space with the same flags and the same bytes on every page below `sz`. With `gap` the first
      page below `sz` that is not mapped, it runs out of memory exactly when there are fewer free frames than a copy of the
      pages before it takes, and then nothing is left of it; it panics exactly when it does not and there is such a page.
      In every case the original is untouched. */
  method Copyuvm(k: Allocator, d: nat, sz: nat, data: nat) returns (r: Out, c: nat)
    requires k.Valid() && IsDir(k.owner, d) && DataOk(data) && sz <= KERNBASE
    modifies k
    ensures k.Valid()
    ensures var gap := FirstGap(old(k.mem), d, 0, Up(sz));
            && (r == Failed <==> |old(k.free)| < CopyCost(gap))
            && (r == Panic <==> gap < Up(sz) && CopyCost(gap) <= |old(k.free)|)
    ensures r == Failed ==> Restored(old(k.mem), old(k.owner), k.mem, k.owner)
    ensures r == Done ==> Copying(old(k.mem), old(k.owner), k.mem, k.owner, d, c, Up(sz), data)
    ensures r == Done ==> forall v: nat :: v * PGSIZE < sz ==> Copied(old(k.mem), k.mem, d, c, v)
  {
    hide Owned, Lookup, Chain, Partition, Grew, Freed, Restored, NoneMapped, KernelHalf, Blank, Copying, CopyCost,
         HasUser, HasRows,
      FirstGap, AllCopied, Tabled, Lack, Pde;
    ghost var m0, o0, free0, past, gap := k.mem, k.owner, |k.free|, Up(sz), FirstGap(k.mem, d, 0, Up(sz));
    CopyCostGrows(0, gap);
    c := Setupkvm(k, data);
    if c == 0 {
      CopyCostNone();
      return Failed, 0;
    }
    NoUserTables(k.mem, c, data);
    CopyBegins(m0, o0, k.mem, k.owner, d, c, data);
    var v := 0;
    while v * PGSIZE < sz
      invariant 0 <= v <= past && k.Valid() && Copying(m0, o0, k.mem, k.owner, d, c, v, data)
      invariant HasUser(k.mem, c, v) && |k.free| == free0 - CopyCost(v)
    {
      OriginalKept(m0, o0, k.mem, k.owner, d, c, v, data, v);
      CopyingCopied(m0, o0, k.mem, k.owner, d, c, v, data);
      GapIs(m0, k.mem, d, c, v, past);
      var t := Walkpgdir(k, d, v, false);
      if t == 0 {
        NoTable(k.mem, d, v);
        return Panic, 0;
      }
      EntryIs(k.mem, d, v);
      var pte := k.mem[t].entries[v % NPT];
      if !pte.Mapped() {
        return Panic, 0;
      }
      CopyNext(k.mem, c, v);
      CopyCostGrows(v + 1, gap);
      ghost var m1 := k.mem;
      var ok := CopyPage(k, d, c, v, pte, m0, o0, data);
      if !ok {
        ghost var m3, o3 := k.mem, k.owner;
        assert c != 0;
        ok := Freevm(k, c);
        Reverted(m0, o0, c, Blank(), m3, o3, k.mem, k.owner, 0, NPT * NPT);
        return Failed, 0;
      }
      CopyTables(m1, k.mem, c, v);
      v := v + 1;
    }
    CopyingCopied(m0, o0, k.mem, k.owner, d, c, v, data);
    GapIs(m0, k.mem, d, c, v, past);
    CopiedBelow(m0, k.mem, d, c, sz);
    return Done, c;
  }

  lemma CopiedBelow(m0: Mem, m: Mem, d: nat, c: nat, sz: nat)
    requires AllCopied(m0, m, d, c, Up(sz))
    ensures forall v: nat :: v * PGSIZE < sz ==> Copied(m0, m, d, c, v)
  {
    hide Copied;
    forall v: nat | v * PGSIZE < sz ensures Copied(m0, m, d, c, v) {
      UpIs(sz, v);
    }
  }

  lemma CopyCostNone()
    ensures CopyCost(0) == 1 + KERNELTABLES
  {
  }
}
