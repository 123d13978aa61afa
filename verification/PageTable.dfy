/** Two-level page tables over the frame allocator: walkpgdir, mappages and deallocuvm of src/vm.c. No frame is shared, and
    every frame that a call takes or gives back is accounted for. */
module PageTable {
  import opened Common
  import opened Frames
  import opened Kalloc

  // ---- What a call may change --------------------------------------------------------------------------------

  /** Every entry of every address space is as before, except those of pages a to b of d. */
  ghost predicate SameFlat(m0: Mem, o0: Owner, m: Mem, d: nat, a: nat, b: nat)
  {
    forall d', v' :: IsDir(o0, d') && 0 <= v' < NPT * NPT && !(d' == d && a <= v' < b) ==> Lookup(m, d', v') == Lookup(m0, d', v')
  }

  ghost predicate SamePage(m0: Mem, o0: Owner, m: Mem, f: nat)
    requires f in o0
  {
    o0[f].Held? || o0[f].User? ==> f < |m0| && f < |m| && m[f] == m0[f]
  }

  ghost predicate NewRole(r: Role, d: nat, a: nat, b: nat)
  {
    (r.Tab? || (r.User? && a <= r.v < b)) && r.dir == d
  }

  /** Nobody lost a frame; page tables of d and pages a to b of d are new, where the held frames in `fs` may have gone. */
  ghost predicate Grew(m0: Mem, o0: Owner, m: Mem, o: Owner, d: nat, a: nat, b: nat, fs: set<nat>)
  {
    && |m| == |m0|
    && (forall f :: f in o0 ==> f in o && SamePage(m0, o0, m, f) && (f !in fs ==> o[f] == o0[f]))
    && (forall f :: f in fs ==> f in o0 && o0[f] == Held && f in o && o[f].User?)
    && (forall f :: f in o && (f !in o0 || f in fs) ==> NewRole(o[f], d, a, b))
    && SameFlat(m0, o0, m, d, a, b)
  }

  lemma GrewNothing(m: Mem, o: Owner, d: nat, a: nat)
    requires Owned(m, o)
    ensures Grew(m, o, m, o, d, a, a, {})
  {
    hide Lookup, PdeOk, PteOk;
    forall f | f in o ensures SamePage(m, o, m, f) {
      OwnedSize(m, o, f);
    }
  }

  lemma OwnedSize(m: Mem, o: Owner, f: nat)
    requires Owned(m, o) && f in o
    ensures f < |m|
  {
    hide Lookup;
    assert OwnerOk(m, o, f);
    match o[f] {
      case Tab(d, i) => TabFrame(m, o, f);
      case User(d, v) => PageFrame(m, o, d, v);
      case Dir =>
      case Held =>
    }
  }

  lemma GrewMore(m0: Mem, o0: Owner, m1: Mem, o1: Owner, m2: Mem, o2: Owner, d: nat, a: nat, b: nat, c: nat, fs: set<nat>,
                 fs': set<nat>)
    requires Grew(m0, o0, m1, o1, d, a, b, fs) && Grew(m1, o1, m2, o2, d, b, c, fs')
    requires a <= b <= c && forall f :: f in fs' ==> f in o0
    ensures Grew(m0, o0, m2, o2, d, a, c, fs + fs')
  {
    hide Lookup;
    forall f | f in o0 ensures f in o2 && SamePage(m0, o0, m2, f) && (f !in fs + fs' ==> o2[f] == o0[f]) {
      assert f in o1 && SamePage(m0, o0, m1, f) && SamePage(m1, o1, m2, f);
    }
    forall f | f in fs + fs' ensures f in o0 && o0[f] == Held && f in o2 && o2[f].User? {
      assert f in fs ==> o1[f].User?;
    }
  }

  // ---- The page tables a call needs ----------------------------------------------------------------------------

  /** The directory has got the tables i to j, if it did not have them. */
  ghost predicate Tabled(m0: Mem, m: Mem, d: nat, i: nat, j: nat)
  {
    forall x: nat :: x < NPT ==> (Pde(m, d, x).p <==> Pde(m0, d, x).p || i <= x < j)
  }

  /** How many of the tables i to j the directory lacks. */
  ghost function Missing(m: Mem, d: nat, i: nat, j: nat): nat
  {
    if j <= i then 0 else Missing(m, d, i, j - 1) + if Pde(m, d, j - 1).p then 0 else 1
  }

  function TabsEnd(a: nat, b: nat): nat { if a < b then (b - 1) / NPT + 1 else a / NPT }

  /** How many page tables are lacking to map pages a to b. */
  ghost function Tables(m: Mem, d: nat, a: nat, b: nat): nat { Missing(m, d, a / NPT, TabsEnd(a, b)) }

  lemma {:induction false} MissingGrows(m: Mem, d: nat, i: nat, j: nat, k: nat)
    requires j <= k
    ensures Missing(m, d, i, j) <= Missing(m, d, i, k)
    decreases k
  {
    hide Pde;
    if j < k {
      MissingGrows(m, d, i, j, k - 1);
    }
  }

  lemma TablesGrow(m: Mem, d: nat, a: nat, b: nat, c: nat)
    requires a <= b <= c
    ensures Tables(m, d, a, b) <= Tables(m, d, a, c)
  {
    hide Missing;
    MissingGrows(m, d, a / NPT, TabsEnd(a, b), TabsEnd(a, c));
  }

  /** Pages first to a have their tables: page a needs one more exactly if its table is not there yet. */
  lemma TablesStep(m0: Mem, m: Mem, d: nat, first: nat, a: nat)
    requires first <= a < NPT * NPT && Tabled(m0, m, d, first / NPT, TabsEnd(first, a))
    ensures Tables(m0, d, first, a + 1) == Tables(m0, d, first, a) + if Pde(m, d, a / NPT).p then 0 else 1
  {
    hide Pde;
    TabsEndStep(first, a);
    hide TabsEnd;
    assert a / NPT < NPT && (Pde(m, d, a / NPT).p <==> Pde(m0, d, a / NPT).p || first / NPT <= a / NPT < TabsEnd(first, a));
  }

  lemma TabsEndStep(first: nat, a: nat)
    requires first <= a
    ensures first / NPT <= a / NPT && TabsEnd(first, a + 1) == a / NPT + 1 && TabsEnd(first, a) in {a / NPT, a / NPT + 1}
  {
  }

  lemma TabledMore(m0: Mem, m: Mem, m': Mem, d: nat, first: nat, a: nat)
    requires first <= a && Tabled(m0, m, d, first / NPT, TabsEnd(first, a)) && Tabled(m, m', d, a / NPT, a / NPT + 1)
    ensures Tabled(m0, m', d, first / NPT, TabsEnd(first, a + 1))
  {
    hide Pde;
    TabsEndStep(first, a);
    hide TabsEnd;
  }

  lemma TabledNothing(m: Mem, d: nat, first: nat)
    ensures Tabled(m, m, d, first / NPT, TabsEnd(first, first)) && Tables(m, d, first, first) == 0
  {
    hide Pde;
  }

  /** The first page from a to b that is mapped, or b. */
  ghost function FirstMapped(m: Mem, d: nat, a: nat, b: nat): (r: nat)
    requires a <= b
    ensures a <= r <= b && (forall v :: a <= v < r ==> !Lookup(m, d, v).Mapped()) && (r < b ==> Lookup(m, d, r).Mapped())
    decreases b - a
  {
    if a == b || Lookup(m, d, a).Mapped() then a else FirstMapped(m, d, a + 1, b)
  }

  // ---- walkpgdir ---------------------------------------------------------------------------------------------

  /** A fresh frame becomes the page table for entry i of d. */
  lemma NewTable(m: Mem, o: Owner, d: nat, i: nat, t: nat)
    requires Owned(m, o) && IsDir(o, d) && i < NPT && Pde(m, d, i) == ZERO && t !in o && t < |m|
    ensures IsTable(m[t := Blank()], d)
    ensures var m' := SetPde(m[t := Blank()], d, i, PdeFor(t));
            Owned(m', o[t := Tab(d, i)]) && Grew(m, o, m', o[t := Tab(d, i)], d, 0, 0, {}) && Tabled(m, m', d, i, i + 1)
  {
    var o1, m1 := o[t := Held], m[t := Blank()];
    TakeOwned(m, o, t);
    StoreOwned(m, o1, t, Blank());
    DirEntryFlat(m, o, t, Blank(), d, i);
    TableOwned(m1, o1, d, i, t);
    var m', o' := SetPde(m1, d, i, PdeFor(t)), o[t := Tab(d, i)];
    assert o1[t := Tab(d, i)] == o';
    forall d', v' | IsDir(o, d') && 0 <= v' < NPT * NPT ensures Lookup(m', d', v') == Lookup(m, d', v') {
      StoreFlat(m, o, t, Blank(), d', v');
      TableFlat(m1, o1, d, i, t, d', v');
    }
    forall f | f in o ensures SamePage(m, o, m', f) {
      OwnedSize(m, o, f);
    }
  }

  /** walkpgdir: the page table with the entry of page v, or 0. Without `alloc` nothing changes; with it, 0 means that the
      table is missing and there is no free frame, and a table that had to be made shows in no address space. */
  method Walkpgdir(k: Allocator, d: nat, v: nat, alloc: bool) returns (t: nat)
    requires k.Valid() && IsDir(k.owner, d) && v < NPT * NPT
    modifies k
    ensures k.Valid() && IsDir(k.owner, d)
    ensures !alloc ==> unchanged(k) && (t == 0 <==> !Pde(k.mem, d, v / NPT).p)
    ensures alloc ==> (t == 0 <==> !Pde(old(k.mem), d, v / NPT).p && old(k.free) == [])
    ensures t == 0 ==> unchanged(k)
    ensures t != 0 ==> Tabled(old(k.mem), k.mem, d, v / NPT, v / NPT + 1)
    ensures t != 0 ==> |k.free| == |old(k.free)| - if Pde(old(k.mem), d, v / NPT).p then 0 else 1
    ensures t != 0 ==> IsTable(k.mem, t) && Pde(k.mem, d, v / NPT).p && Pde(k.mem, d, v / NPT).frame == t
    ensures Grew(old(k.mem), old(k.owner), k.mem, k.owner, d, 0, 0, {})
  {
    hide Owned, Lookup, Chain, Grew, Tabled;
    DirFacts(k.mem, k.owner, d, v / NPT);
    GrewNothing(k.mem, k.owner, d, 0);
    TabledAlready(k.mem, d, v / NPT);
    var pde := k.mem[d].entries[v / NPT];
    if pde.p {
      t := pde.frame;
    } else {
      if !alloc {
        return 0;
      }
      t := k.Kalloc();
      if t == 0 {
        return;
      }
      NewTable(old(k.mem), old(k.owner), d, v / NPT, t);
      ChainStore(k.mem, k.freelist, k.free, t, Blank());
      k.mem := k.mem[t := Blank()];
      ChainStore(k.mem, k.freelist, k.free, d, Table(k.mem[d].entries[v / NPT := PdeFor(t)]));
      k.mem := SetPde(k.mem, d, v / NPT, PdeFor(t));
      k.owner := old(k.owner)[t := Tab(d, v / NPT)];
    }
  }

  lemma TabledAlready(m: Mem, d: nat, i: nat)
    requires i < NPT
    ensures Pde(m, d, i).p ==> Tabled(m, m, d, i, i + 1)
  {
    hide Pde;
  }

  lemma DirFacts(m: Mem, o: Owner, d: nat, i: nat)
    requires Owned(m, o) && IsDir(o, d) && i < NPT
    ensures IsTable(m, d) && PdeOk(m, o, d, i) && Pde(m, d, i) == m[d].entries[i]
  {
    hide Lookup, PteOk;
    assert OwnerOk(m, o, d);
  }

  // ---- mappages -----------------------------------------------------------------------------------------------

  datatype Out = Done | Failed | Panic

  /** The entry mappages stores: encrypted if the flags say so, present otherwise. */
  function Entry(f: nat, perm: Pte): Pte
  {
    if perm.e then Pte(f, perm.p, perm.w, perm.u, perm.a, true) else Pte(f, true, perm.w, perm.u, perm.a, false)
  }

  lemma EntryGrew(m: Mem, o: Owner, d: nat, v: nat, e: Pte, o': Owner, fs: set<nat>)
    requires Owned(m, o) && IsDir(o, d) && v < NPT * NPT && Pde(m, d, v / NPT).p
    requires if v < NUSER then e.frame in o && o[e.frame] == Held && o' == o[e.frame := User(d, v)] && fs == {e.frame}
             else o' == o && fs == {}
    ensures IsTable(m, Pde(m, d, v / NPT).frame)
    ensures Grew(m, o, SetEntry(m, d, v, e), o', d, v, v + 1, fs) && Lookup(SetEntry(m, d, v, e), d, v) == e
  {
    hide Lookup, Pde, PteOk, PdeOk, SetEntry, IsTable;
    EntryStored(m, o, d, v, e, d);
    var m' := SetEntry(m, d, v, e);
    SetEntrySize(m, d, v, e);
    SetEntryFlat(m, o, d, v, e, d, v);
    forall d', v' | IsDir(o, d') && 0 <= v' < NPT * NPT && !(d' == d && v <= v' < v + 1)
      ensures Lookup(m', d', v') == Lookup(m, d', v')
    {
      SetEntryFlat(m, o, d, v, e, d', v');
    }
    forall f | f in o ensures SamePage(m, o, m', f) {
      EntryElsewhere(m, o, d, v, e, f);
    }
  }

  lemma EntryElsewhere(m: Mem, o: Owner, d: nat, v: nat, e: Pte, f: nat)
    requires Owned(m, o) && IsDir(o, d) && v < NPT * NPT && Pde(m, d, v / NPT).p && f in o
    ensures IsTable(m, Pde(m, d, v / NPT).frame) && SamePage(m, o, SetEntry(m, d, v, e), f)
  {
    hide Lookup, PteOk;
    OwnedSize(m, o, f);
    assert PdeOk(m, o, d, v / NPT);
  }

  /** Storing an entry touches no free frame. */
  lemma EntryChain(m: Mem, head: nat, free: seq<nat>, o: Owner, d: nat, v: nat, e: Pte)
    requires Owned(m, o) && IsDir(o, d) && v < NPT * NPT && Pde(m, d, v / NPT).p && Chain(m, head, free)
    requires forall f :: f in o ==> f !in free
    ensures IsTable(m, Pde(m, d, v / NPT).frame) && Chain(SetEntry(m, d, v, e), head, free)
  {
    hide Lookup, PteOk, Chain;
    assert PdeOk(m, o, d, v / NPT);
    var t := Pde(m, d, v / NPT).frame;
    ChainStore(m, head, free, t, Table(m[t].entries[v % NPT := e]));
  }

  lemma EntryTabled(m0: Mem, m: Mem, o: Owner, d: nat, v: nat, e: Pte)
    requires Owned(m, o) && IsDir(o, d) && v < NPT * NPT && Pde(m, d, v / NPT).p && Tabled(m0, m, d, v / NPT, v / NPT + 1)
    ensures IsTable(m, Pde(m, d, v / NPT).frame) && Tabled(m0, SetEntry(m, d, v, e), d, v / NPT, v / NPT + 1)
  {
    hide Lookup, Owned, Pde, SetEntry;
    EntryStored(m, o, d, v, e, d);
  }

  lemma EntryIs(m: Mem, d: nat, v: nat)
    requires Pde(m, d, v / NPT).p && IsTable(m, Pde(m, d, v / NPT).frame)
    ensures Lookup(m, d, v) == m[Pde(m, d, v / NPT).frame].entries[v % NPT]
  {
  }

  lemma NoTable(m: Mem, d: nat, v: nat)
    requires !Pde(m, d, v / NPT).p
    ensures Lookup(m, d, v) == ZERO
  {
  }

  /** One turn of mappages' loop. */
  method MapPage(k: Allocator, d: nat, v: nat, f: nat, perm: Pte) returns (r: Out)
    requires k.Valid() && IsDir(k.owner, d) && v < NPT * NPT
    requires v < NUSER ==> f in k.owner && k.owner[f] == Held && IsPage(k.mem, f)
    modifies k
    ensures k.Valid() && IsDir(k.owner, d)
    ensures r == Panic <==> Lookup(old(k.mem), d, v).Mapped()
    ensures r == Failed <==> !Pde(old(k.mem), d, v / NPT).p && old(k.free) == []
    ensures r == Failed ==> unchanged(k)
    ensures r == Panic ==> Grew(old(k.mem), old(k.owner), k.mem, k.owner, d, v, v, {})
    ensures r == Done ==> && Tabled(old(k.mem), k.mem, d, v / NPT, v / NPT + 1)
                          && |k.free| == |old(k.free)| - if Pde(old(k.mem), d, v / NPT).p then 0 else 1
    ensures r == Done ==> Lookup(k.mem, d, v) == Entry(f, perm)
    ensures r == Done ==> Grew(old(k.mem), old(k.owner), k.mem, k.owner, d, v, v + 1, if v < NUSER then {f} else {})
    ensures r == Done && v < NUSER ==> k.owner[f] == User(d, v)
  {
    hide Owned, Lookup, Pde, Chain, Grew, Tabled;
    var t := Walkpgdir(k, d, v, true);
    if t == 0 {
      NoTable(k.mem, d, v);
      return Failed;
    }
    GrewLookup(old(k.mem), old(k.owner), k.mem, k.owner, d, v);
    EntryIs(k.mem, d, v);
    GrewEmpty(old(k.mem), old(k.owner), k.mem, k.owner, d, v);
    if k.mem[t].entries[v % NPT].Mapped() {
      return Panic;
    }
    ghost var m1, o1, e := k.mem, k.owner, Entry(f, perm);
    if v < NUSER {
      UnmappedIsZero(m1, o1, d, v);
      HeldStays(old(k.mem), old(k.owner), m1, o1, d, f);
      MapOwned(m1, o1, d, v, e);
      k.owner := k.owner[f := User(d, v)];
    } else {
      KernelMapOwned(m1, o1, d, v, e);
    }
    ghost var fs: set<nat> := if v < NUSER then {f} else {};
    EntryGrew(m1, o1, d, v, e, k.owner, fs);
    EntryChain(m1, k.freelist, k.free, o1, d, v, e);
    SetEntrySize(m1, d, v, e);
    EntryTabled(old(k.mem), m1, o1, d, v, e);
    GrewMore(old(k.mem), old(k.owner), m1, o1, SetEntry(m1, d, v, e), k.owner, d, v, v, v + 1, {}, fs);
    assert {} + fs == fs;
    k.mem := k.mem[t := Table(k.mem[t].entries[v % NPT := Entry(f, perm)])];
    assert k.mem == SetEntry(m1, d, v, e);
    return Done;
  }

  lemma GrewLookup(m0: Mem, o0: Owner, m: Mem, o: Owner, d: nat, v: nat)
    requires Grew(m0, o0, m, o, d, 0, 0, {}) && IsDir(o0, d) && v < NPT * NPT
    ensures Lookup(m, d, v) == Lookup(m0, d, v)
  {
    hide Lookup;
  }

  lemma GrewEmpty(m0: Mem, o0: Owner, m: Mem, o: Owner, d: nat, v: nat)
    requires Grew(m0, o0, m, o, d, 0, 0, {})
    ensures Grew(m0, o0, m, o, d, v, v, {})
  {
    hide Lookup;
  }

  lemma HeldStays(m0: Mem, o0: Owner, m: Mem, o: Owner, d: nat, f: nat)
    requires Grew(m0, o0, m, o, d, 0, 0, {}) && f in o0 && o0[f] == Held
    ensures f in o && o[f] == Held && f < |m0| && f < |m| && m[f] == m0[f]
  {
    hide Lookup;
    assert SamePage(m0, o0, m, f);
  }

  lemma UnmappedIsZero(m: Mem, o: Owner, d: nat, v: nat)
    requires Owned(m, o) && IsDir(o, d) && v < NUSER && !Lookup(m, d, v).Mapped()
    ensures Lookup(m, d, v) == ZERO
  {
    hide Lookup, PdeOk, OwnerOk;
    assert PteOk(m, o, d, v);
  }

  /** Pages `first` to `past` of d are mapped to the frames from f on. */
  ghost predicate Maps(m: Mem, d: nat, first: nat, past: nat, f: nat, perm: Pte)
  {
    forall v :: first <= v < past ==> Lookup(m, d, v) == Entry(f + (v - first), perm)
  }

  lemma MapsMore(m0: Mem, o0: Owner, m: Mem, o: Owner, d: nat, first: nat, a: nat, f: nat, perm: Pte, fs: set<nat>)
    requires Maps(m0, d, first, a, f, perm) && Grew(m0, o0, m, o, d, a, a + 1, fs) && IsDir(o0, d)
    requires first <= a < NPT * NPT && Lookup(m, d, a) == Entry(f + (a - first), perm)
    ensures Maps(m, d, first, a + 1, f, perm)
  {
    hide Lookup;
  }

  lemma GrewKeeps(m0: Mem, o0: Owner, m: Mem, o: Owner, d: nat, a: nat, b: nat, fs: set<nat>, v: nat)
    requires Grew(m0, o0, m, o, d, a, b, fs) && IsDir(o0, d) && v < NPT * NPT && !(a <= v < b)
    ensures Lookup(m, d, v) == Lookup(m0, d, v)
  {
    hide Lookup;
  }

  function Min(a: nat, b: nat): nat { if a < b then a else b }

  /** How many of pages a to b are user pages. */
  function Users(a: nat, b: nat): nat { if a < b && a < NUSER then Min(b, NUSER) - a else 0 }

  /** The frames given to user pages when pages a to b are mapped to the frames from f on. */
  ghost function Given(f: nat, a: nat, b: nat): set<nat> { Numbers(f, f + Users(a, b)) }

  lemma GivenMore(f: nat, a: nat, b: nat)
    requires a <= b
    ensures Given(f, a, b + 1) == Given(f, a, b) + (if b < NUSER then {f + (b - a)} else {})
  {
  }

  /** The caller holds a page for every user page from b to c of those mapped from a on. */
  ghost predicate Provided(m: Mem, o: Owner, f: nat, a: nat, b: nat, c: nat)
    requires a <= b
  {
    forall g: nat :: f + (b - a) <= g < f + Users(a, c) ==> g in o && o[g] == Held && IsPage(m, g)
  }

  /** Mapping the pages before b leaves the frames for the rest alone. */
  lemma StillProvided(m0: Mem, o0: Owner, m: Mem, o: Owner, d: nat, f: nat, a: nat, b: nat, c: nat)
    requires Provided(m0, o0, f, a, a, c) && a <= b && Grew(m0, o0, m, o, d, a, b, Given(f, a, b))
    ensures Provided(m, o, f, a, b, c) && forall g :: g in Given(f, a, c) ==> g in o0
  {
    hide Lookup;
    forall g: nat | f + (b - a) <= g < f + Users(a, c) ensures g in o && o[g] == Held && IsPage(m, g) {
      assert g in o0 && g !in Given(f, a, b) && SamePage(m0, o0, m, g);
    }
  }

  /** mappages: maps the pages of the range to consecutive frames, up to the first that cannot be. It runs out of memory
      exactly if there are fewer free frames than page tables lacking, and panics exactly if it does not and a page of the
      range is mapped already. A user page takes over the frame, which the caller must hold. */
  method Mappages(k: Allocator, d: nat, va: nat, size: nat, pa: nat, perm: Pte) returns (r: Out, ghost upto: nat)
    requires k.Valid() && IsDir(k.owner, d) && 1 <= size && va + size <= 0x1_0000_0000
    requires Provided(k.mem, k.owner, pa / PGSIZE, va / PGSIZE, va / PGSIZE, (va + size - 1) / PGSIZE + 1)
    modifies k
    ensures k.Valid() && IsDir(k.owner, d) && va / PGSIZE <= upto <= (va + size - 1) / PGSIZE + 1
    ensures Maps(k.mem, d, va / PGSIZE, upto, pa / PGSIZE, perm)
    ensures Grew(old(k.mem), old(k.owner), k.mem, k.owner, d, va / PGSIZE, upto, Given(pa / PGSIZE, va / PGSIZE, upto))
    ensures r == Done <==> upto == (va + size - 1) / PGSIZE + 1
    ensures var past := (va + size - 1) / PGSIZE + 1;
            var stop := FirstMapped(old(k.mem), d, va / PGSIZE, past);
            && (r == Failed <==> |old(k.free)| < Tables(old(k.mem), d, va / PGSIZE, stop))
            && (r == Panic <==> stop < past && Tables(old(k.mem), d, va / PGSIZE, stop) <= |old(k.free)|)
            && (r == Panic ==> upto == stop)
    ensures r == Failed ==> k.free == [] && (upto == va / PGSIZE ==> unchanged(k))
    ensures r == Done ==> && Tabled(old(k.mem), k.mem, d, va / PGSIZE / NPT, TabsEnd(va / PGSIZE, upto))
                          && |k.free| == |old(k.free)| - Tables(old(k.mem), d, va / PGSIZE, upto)
  {
    hide Allocator.Valid, Lookup, Grew, Maps, Tables, Tabled, TabsEnd, Provided, Given, Pde, FirstMapped;
    var a, last, f := va / PGSIZE, (va + size - 1) / PGSIZE, pa / PGSIZE;
    ghost var m0, o0, free0, first, f0 := k.mem, k.owner, k.free, a, f;
    MapBegins(k, d, a, f, perm);
    upto := a;
    while true
      invariant first <= a == upto <= last && f == f0 + (a - first) && k.Valid() && IsDir(k.owner, d)
      invariant Grew(m0, o0, k.mem, k.owner, d, first, a, Given(f0, first, a)) && Maps(k.mem, d, first, a, f0, perm)
      invariant Tabled(m0, k.mem, d, first / NPT, TabsEnd(first, a)) && |k.free| == |free0| - Tables(m0, d, first, a)
      invariant forall v :: first <= v < a ==> !Lookup(m0, d, v).Mapped()
      invariant a == first ==> unchanged(k)
      decreases last - a
    {
      ghost var m1, o1, free1 := k.mem, k.owner, k.free;
      GrewKeeps(m0, o0, m1, o1, d, first, a, Given(f0, first, a), a);
      StillProvided(m0, o0, m1, o1, d, f0, first, a, last + 1);
      NextProvided(m1, o1, f0, first, a, last + 1);
      TablesStep(m0, m1, d, first, a);
      r := MapPage(k, d, a, f, perm);
      if r != Done {
        MapStops(m0, d, first, a, last + 1, |free0|, r);
        if r == Panic {
          GrewMore(m0, o0, m1, o1, k.mem, k.owner, d, first, a, a, Given(f0, first, a), {});
          assert Given(f0, first, a) + {} == Given(f0, first, a);
          MapsSame(m1, o1, k.mem, k.owner, d, first, a, f0, perm);
        }
        return;
      }
      ghost var fs: set<nat> := if a < NUSER then {f} else {};
      GivenMore(f0, first, a);
      GrewMore(m0, o0, m1, o1, k.mem, k.owner, d, first, a, a + 1, Given(f0, first, a), fs);
      MapsMore(m1, o1, k.mem, k.owner, d, first, a, f0, perm, fs);
      TabledMore(m0, m1, k.mem, d, first, a);
      upto := a + 1;
      if a == last {
        MapStops(m0, d, first, upto, last + 1, |free0|, r);
        break;
      }
      a, f := a + 1, f + 1;
    }
  }

  lemma MapBegins(k: Allocator, d: nat, a: nat, f: nat, perm: Pte)
    requires k.Valid()
    ensures Given(f, a, a) == {} && Grew(k.mem, k.owner, k.mem, k.owner, d, a, a, Given(f, a, a)) && Maps(k.mem, d, a, a, f, perm)
    ensures Tabled(k.mem, k.mem, d, a / NPT, TabsEnd(a, a)) && Tables(k.mem, d, a, a) == 0
  {
    hide Owned;
    GrewNothing(k.mem, k.owner, d, a);
    TabledNothing(k.mem, d, a);
    assert Given(f, a, a) == {};
  }

  lemma NextProvided(m: Mem, o: Owner, f: nat, a: nat, b: nat, c: nat)
    requires a <= b < c && Provided(m, o, f, a, b, c)
    ensures b < NUSER ==> f + (b - a) in o && o[f + (b - a)] == Held && IsPage(m, f + (b - a))
    ensures b < NUSER ==> f + (b - a) in Given(f, a, c)
  {
  }

  /** Where the loop stops, with every page before a mapped by it. */
  lemma MapStops(m0: Mem, d: nat, first: nat, a: nat, past: nat, free: nat, r: Out)
    requires first <= a <= past && (forall v :: first <= v < a ==> !Lookup(m0, d, v).Mapped())
    requires r == Done ==> a == past && Tables(m0, d, first, a) <= free
    requires r == Panic ==> a < past && Lookup(m0, d, a).Mapped() && Tables(m0, d, first, a) <= free
    requires r == Failed ==> a < past && !Lookup(m0, d, a).Mapped() && free < Tables(m0, d, first, a + 1)
    ensures var stop := FirstMapped(m0, d, first, past);
            && (r == Failed <==> free < Tables(m0, d, first, stop))
            && (r == Panic <==> stop < past && Tables(m0, d, first, stop) <= free) && (r == Panic ==> a == stop)
  {
    hide Lookup, Tables, FirstMapped;
    var stop := FirstMapped(m0, d, first, past);
    if r == Failed {
      assert stop >= a + 1;
      TablesGrow(m0, d, first, a + 1, stop);
    }
  }

  lemma MapsSame(m0: Mem, o0: Owner, m: Mem, o: Owner, d: nat, first: nat, a: nat, f: nat, perm: Pte)
    requires Maps(m0, d, first, a, f, perm) && Grew(m0, o0, m, o, d, a, a, {}) && IsDir(o0, d) && a <= NPT * NPT
    ensures Maps(m, d, first, a, f, perm)
  {
    hide Lookup;
  }

  lemma GrewWider(m0: Mem, o0: Owner, m: Mem, o: Owner, d: nat, a: nat, b: nat, c: nat)
    requires Grew(m0, o0, m, o, d, a, b, {}) && b <= c
    ensures Grew(m0, o0, m, o, d, a, c, {})
  {
    hide Lookup;
  }

  // ---- deallocuvm -----------------------------------------------------------------------------------------------

  /** PGROUNDUP, as a page number */
  function Up(size: nat): nat { (size + PGSIZE - 1) / PGSIZE }

  /** The pages below it are those that begin below `size`. */
  lemma UpIs(size: nat, v: nat)
    ensures v < Up(size) <==> v * PGSIZE < size
  {
  }

  /** The owners without pages a to b of d. */
  ghost function Without(o: Owner, d: nat, a: nat, b: nat): Owner
  {
    map f | f in o && !(o[f].User? && o[f].dir == d && a <= o[f].v < b) :: o[f]
  }

  /** Pages a to b of d are gone: their frames are nobody's, their entries are zero, and nothing else has changed. */
  ghost predicate Cleared(m0: Mem, o0: Owner, m: Mem, o: Owner, d: nat, a: nat, b: nat)
  {
    && |m| == |m0| && o == Without(o0, d, a, b)
    && (forall f :: f in o ==> SamePage(m0, o0, m, f))
    && (forall v :: a <= v < b ==> Lookup(m, d, v) == ZERO)
    && SameFlat(m0, o0, m, d, a, b)
  }

  lemma ClearedNone(m: Mem, o: Owner, d: nat, a: nat)
    requires Owned(m, o)
    ensures Cleared(m, o, m, o, d, a, a)
  {
    hide Lookup;
    forall f | f in o ensures SamePage(m, o, m, f) {
      OwnedSize(m, o, f);
    }
  }

  /** Pages that were not mapped have no frame to give back. */
  lemma ClearedEmpty(m0: Mem, o0: Owner, m: Mem, o: Owner, d: nat, a: nat, b: nat, c: nat)
    requires Cleared(m0, o0, m, o, d, a, b) && Owned(m0, o0) && Owned(m, o) && IsDir(o0, d) && a <= b <= c <= NUSER
    requires forall v :: b <= v < c ==> Lookup(m, d, v) == ZERO
    ensures Cleared(m0, o0, m, o, d, a, c)
  {
    hide Lookup, PdeOk, PteOk;
    forall f | f in o0 && o0[f].User? && o0[f].dir == d ensures !(b <= o0[f].v < c) {
      assert OwnerOk(m0, o0, f);
    }
    assert Without(o0, d, a, c) == Without(o0, d, a, b);
  }

  /** The frame x of page b is given back and the entry cleared. */
  lemma ClearedPage(m0: Mem, o0: Owner, m: Mem, o: Owner, d: nat, a: nat, b: nat, x: Frame)
    requires Cleared(m0, o0, m, o, d, a, b) && Owned(m, o) && IsDir(o, d) && a <= b < NUSER && Lookup(m, d, b).Mapped()
    ensures Lookup(m, d, b).frame < |m| && Pde(m[Lookup(m, d, b).frame := x], d, b / NPT) == Pde(m, d, b / NPT)
    ensures Pde(m, d, b / NPT).p && IsTable(m[Lookup(m, d, b).frame := x], Pde(m, d, b / NPT).frame)
    ensures var f := Lookup(m, d, b).frame;
            && Owned(SetEntry(m[f := x], d, b, ZERO), o - {f})
            && Cleared(m0, o0, SetEntry(m[f := x], d, b, ZERO), o - {f}, d, a, b + 1)
  {
    var f := Lookup(m, d, b).frame;
    PageFrame(m, o, d, b);
    UnmapOwned(m, o, d, b);
    assert PdeOk(m, o, d, b / NPT);
    StoreFlat(m, o, f, x, d, b);
    var m1, o1 := SetEntry(m, d, b, ZERO), o[f := Held];
    StoreOwned(m1, o1, f, x);
    DropOwned(m1[f := x], o1, f);
    assert o1 - {f} == o - {f};
    assert SetEntry(m[f := x], d, b, ZERO) == m1[f := x];
    ClearedStores(m0, o0, m, o, d, a, b, x);
  }

  lemma ClearedStores(m0: Mem, o0: Owner, m: Mem, o: Owner, d: nat, a: nat, b: nat, x: Frame)
    requires Cleared(m0, o0, m, o, d, a, b) && Owned(m, o) && IsDir(o, d) && a <= b < NUSER && Lookup(m, d, b).Mapped()
    requires Pde(m, d, b / NPT).p && IsTable(m, Pde(m, d, b / NPT).frame) && Lookup(m, d, b).frame < |m|
    ensures var f := Lookup(m, d, b).frame; Cleared(m0, o0, SetEntry(m, d, b, ZERO)[f := x], o - {f}, d, a, b + 1)
  {
    hide Lookup, Pde, PdeOk, PteOk, SetEntry, IsTable;
    var f := Lookup(m, d, b).frame;
    PageFrame(m, o, d, b);
    UnmapOwned(m, o, d, b);
    var m1, o1 := SetEntry(m, d, b, ZERO), o[f := Held];
    SetEntrySize(m, d, b, ZERO);
    var m2 := m1[f := x];
    forall d', v' | IsDir(o0, d') && 0 <= v' < NPT * NPT
      ensures Lookup(m2, d', v') == if d' == d && v' == b then ZERO else Lookup(m, d', v')
    {
      SetEntryFlat(m, o, d, b, ZERO, d', v');
      StoreFlat(m1, o1, f, x, d', v');
    }
    forall g | g in o - {f} ensures SamePage(m0, o0, m2, g) {
      EntryElsewhere(m, o, d, b, ZERO, g);
      assert SamePage(m0, o0, m, g) && SamePage(m, o, m1, g);
    }
    assert o - {f} == Without(o0, d, a, b + 1) by {
      forall g | g in o && o[g].User? && o[g].dir == d && o[g].v == b ensures g == f {
        assert OwnerOk(m, o, g);
      }
    }
  }

  /** One page of deallocuvm: kfree of its frame, then a zero entry. */
  method ClearPage(k: Allocator, d: nat, v: nat, t: nat, ghost m0: Mem, ghost o0: Owner, ghost a: nat) returns (ok: bool)
    requires k.Valid() && IsDir(k.owner, d) && a <= v < NUSER && Cleared(m0, o0, k.mem, k.owner, d, a, v)
    requires IsTable(k.mem, t) && Pde(k.mem, d, v / NPT).p && Pde(k.mem, d, v / NPT).frame == t
    requires k.mem[t].entries[v % NPT].Mapped()
    modifies k
    ensures ok && k.Valid() && IsDir(k.owner, d) && Cleared(m0, o0, k.mem, k.owner, d, a, v + 1)
  {
    hide Owned, Lookup, Cleared, Chain, Grew;
    EntryIs(k.mem, d, v);
    PageFrame(k.mem, k.owner, d, v);
    ghost var m1, o1, h1 := k.mem, k.owner, k.freelist;
    var f := k.mem[t].entries[v % NPT].frame;
    ClearedPage(m0, o0, m1, o1, d, a, v, Run(h1));
    ok := k.Kfree(KERNBASE + f * PGSIZE);
    GiveParts(o1, old(k.free), k.lo, k.hi, f);
    ghost var m2 := k.mem;
    k.mem := k.mem[t := Table(k.mem[t].entries[v % NPT := ZERO])];
    assert k.mem == SetEntry(m2, d, v, ZERO);
    TableNotFree(m1, o1, d, v);
    ChainStore(m2, k.freelist, k.free, t, k.mem[t]);
    k.owner := k.owner - {f};
    assert k.mem == m2[t := k.mem[t]];
  }

  lemma TableNotFree(m: Mem, o: Owner, d: nat, v: nat)
    requires Owned(m, o) && IsDir(o, d) && v < NPT * NPT && Pde(m, d, v / NPT).p
    ensures Pde(m, d, v / NPT).frame in o && Pde(m, d, v / NPT).frame != d
    ensures o[Pde(m, d, v / NPT).frame] == Tab(d, v / NPT)
  {
    hide Lookup, PteOk, OwnerOk;
    assert PdeOk(m, o, d, v / NPT);
  }

  /** deallocuvm: gives back the frames of exactly the mapped pages from newsz up to oldsz, each once, and clears their
      entries. A page table that is missing is skipped over as a whole. No panic is met. */
  method Deallocuvm(k: Allocator, d: nat, oldsz: nat, newsz: nat) returns (size: nat, ok: bool)
    requires k.Valid() && IsDir(k.owner, d) && oldsz <= KERNBASE
    modifies k
    ensures ok && k.Valid() && IsDir(k.owner, d) && size == if newsz >= oldsz then oldsz else newsz
    ensures newsz >= oldsz ==> unchanged(k)
    ensures newsz < oldsz ==> Cleared(old(k.mem), old(k.owner), k.mem, k.owner, d, Up(newsz), Up(oldsz))
    ensures newsz < oldsz ==> forall v: nat :: newsz <= v * PGSIZE < oldsz ==> Lookup(k.mem, d, v) == ZERO
  {
    hide Owned, Lookup, Cleared, Chain, Grew;
    if newsz >= oldsz {
      return oldsz, true;
    }
    var v := Up(newsz);
    ok := true;
    ghost var m0, o0 := k.mem, k.owner;
    ClearedNone(m0, o0, d, v);
    while v * PGSIZE < oldsz
      invariant ok && k.Valid() && IsDir(k.owner, d) && Up(newsz) <= v <= NUSER
      invariant Cleared(m0, o0, k.mem, k.owner, d, Up(newsz), Min(v, Up(oldsz)))
    {
      var next := v + 1;
      var t := Walkpgdir(k, d, v, false);
      if t == 0 {
        next := (v / NPT + 1) * NPT;
        forall v' | v <= v' < next ensures Lookup(k.mem, d, v') == ZERO {
          NoTable(k.mem, d, v');
        }
        ClearedEmpty(m0, o0, k.mem, k.owner, d, Up(newsz), v, Min(next, Up(oldsz)));
      } else {
        EntryIs(k.mem, d, v);
        var pte := k.mem[t].entries[v % NPT];
        if pte.Mapped() {
          PageFrame(k.mem, k.owner, d, v);
          ok := pte.frame != 0; // else the panic "kfree"
          if ok {
            ok := ClearPage(k, d, v, t, m0, o0, Up(newsz));
          }
        } else {
          UnmappedIsZero(k.mem, k.owner, d, v);
          ClearedEmpty(m0, o0, k.mem, k.owner, d, Up(newsz), v, next);
        }
      }
      v := next;
    }
    ClearedBetween(m0, o0, k.mem, k.owner, d, oldsz, newsz);
    return newsz, true;
  }

  lemma ClearedBetween(m0: Mem, o0: Owner, m: Mem, o: Owner, d: nat, oldsz: nat, newsz: nat)
    requires Cleared(m0, o0, m, o, d, Up(newsz), Up(oldsz))
    ensures forall v: nat :: newsz <= v * PGSIZE < oldsz ==> Lookup(m, d, v) == ZERO
  {
    hide Lookup;
    forall v: nat | newsz <= v * PGSIZE < oldsz ensures Lookup(m, d, v) == ZERO {
      UpIs(oldsz, v);
      UpIs(newsz, v);
    }
  }
}
