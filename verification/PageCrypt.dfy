/** mencrypt, mdecrypt and growproc on real page tables (src/vm.c, src/proc.c), proved to do what the clock's model says on the
    flat view of the process's address space, and to leave every other address space alone. */
module PageCrypt {
  import opened Frames
  import opened Kalloc
  import opened PageTable
  import opened AddressSpace
  import opened Clock

  function SlotAt(m: Mem, d: nat, v: nat): Slot
  {
    var t := Lookup(m, d, v);
    Slot(t, if t.Mapped() && IsPage(m, t.frame) then m[t.frame].bytes else [])
  }

  /** The user part of the address space of d. */
  function View(m: Mem, d: nat): Space { seq(NUSER, v requires 0 <= v < NUSER => SlotAt(m, d, v)) }

  /** The last page of the address space, which is what (char*)-1 names, and its accessed bit. */
  const LAST: nat := NPT * NPT - 1

  function Top(m: Mem, d: nat): bool { Lookup(m, d, LAST).a }

  ghost predicate HasTable(m: Mem, d: nat, v: nat) { Pde(m, d, v / NPT).p }

  /** Nothing has changed but the user pages of d and the accessed bit of its last page. */
  ghost predicate Only(m0: Mem, o: Owner, m: Mem, d: nat)
  {
    && |m| == |m0| && Lookup(m, d, LAST).(a := false) == Lookup(m0, d, LAST).(a := false)
    && (forall i :: 0 <= i < NPT ==> Pde(m, d, i) == Pde(m0, d, i))
    && (forall f :: f in o && o[f] == Held && f < |m| ==> m[f] == m0[f])
    && forall d', v' :: IsDir(o, d') && d' != d && 0 <= v' < NUSER ==> SlotAt(m, d', v') == SlotAt(m0, d', v')
  }

  lemma OnlyMore(m0: Mem, o: Owner, m1: Mem, m2: Mem, d: nat)
    requires Only(m0, o, m1, d) && Only(m1, o, m2, d)
    ensures Only(m0, o, m2, d)
  {
    hide SlotAt, Pde, Lookup;
  }

  // ---- Flags and bytes of one page --------------------------------------------------------------------------------

  lemma FlagsSlot(m: Mem, o: Owner, d: nat, v: nat, t: Pte, d': nat, v': nat)
    requires Owned(m, o) && IsDir(o, d) && v < NUSER && Lookup(m, d, v).Mapped() && t.Mapped() && t.frame == Lookup(m, d, v).frame
    requires IsDir(o, d') && v' < NUSER
    ensures HasTable(m, d, v) && IsTable(m, Pde(m, d, v / NPT).frame)
    ensures SlotAt(SetEntry(m, d, v, t), d', v') == if d' == d && v' == v then Slot(t, SlotAt(m, d, v).bytes)
            else SlotAt(m, d', v')
  {
    ReflagOwned(m, o, d, v, t);
    hide SetEntry, Lookup, Pde, IsTable, IsPage, Owned;
    SetEntryFlat(m, o, d, v, t, d', v');
    var t' := Lookup(m, d', v');
    if t'.Mapped() {
      PageFrame(m, o, d', v');
      EntryStored(m, o, d, v, t, t'.frame);
    }
  }

  /** Changing the flags of one page. */
  lemma FlagsView(m: Mem, o: Owner, d: nat, v: nat, t: Pte)
    requires Owned(m, o) && IsDir(o, d) && v < NUSER && Lookup(m, d, v).Mapped() && t.Mapped() && t.frame == Lookup(m, d, v).frame
    ensures HasTable(m, d, v) && IsTable(m, Pde(m, d, v / NPT).frame) && Owned(SetEntry(m, d, v, t), o)
    ensures View(SetEntry(m, d, v, t), d) == View(m, d)[v := Slot(t, View(m, d)[v].bytes)] && Only(m, o, SetEntry(m, d, v, t), d)
    ensures Top(SetEntry(m, d, v, t), d) == Top(m, d)
  {
    hide SetEntry, Lookup, Pde, IsTable, Owned, SlotAt;
    ReflagOwned(m, o, d, v, t);
    SetEntrySize(m, d, v, t);
    EntryStored(m, o, d, v, t, d);
    SetEntryFlat(m, o, d, v, t, d, LAST);
    var m' := SetEntry(m, d, v, t);
    forall d', v' | IsDir(o, d') && 0 <= v' < NUSER
      ensures SlotAt(m', d', v') == if d' == d && v' == v then Slot(t, SlotAt(m, d, v).bytes) else SlotAt(m, d', v')
    {
      FlagsSlot(m, o, d, v, t, d', v');
    }
    forall f | f in o && o[f] == Held && f < |m| ensures m'[f] == m[f] {
      EntryElsewhere(m, o, d, v, t, f);
    }
  }

  lemma BytesSlot(m: Mem, o: Owner, d: nat, v: nat, b: seq<Byte>, d': nat, v': nat)
    requires Owned(m, o) && IsDir(o, d) && v < NUSER && Lookup(m, d, v).Mapped() && |b| == PGSIZE && IsDir(o, d') && v' < NUSER
    ensures Lookup(m, d, v).frame < |m|
    ensures SlotAt(m[Lookup(m, d, v).frame := Page(b)], d', v') == if d' == d && v' == v then Slot(Lookup(m, d, v), b)
            else SlotAt(m, d', v')
  {
    hide Lookup, Owned;
    var f := Lookup(m, d, v).frame;
    PageFrame(m, o, d, v);
    StoreFlat(m, o, f, Page(b), d', v');
    if Lookup(m, d', v').Mapped() {
      PageFrame(m, o, d', v');
    }
  }

  /** Changing the bytes of one page. */
  lemma BytesView(m: Mem, o: Owner, d: nat, v: nat, b: seq<Byte>)
    requires Owned(m, o) && IsDir(o, d) && v < NUSER && Lookup(m, d, v).Mapped() && |b| == PGSIZE
    ensures var f := Lookup(m, d, v).frame;
            && f in o && o[f] == User(d, v) && f < |m| && Owned(m[f := Page(b)], o)
            && View(m[f := Page(b)], d) == View(m, d)[v := Slot(View(m, d)[v].pte, b)] && Only(m, o, m[f := Page(b)], d)
            && Top(m[f := Page(b)], d) == Top(m, d)
  {
    hide Lookup, Owned, Pde;
    var f := Lookup(m, d, v).frame;
    PageFrame(m, o, d, v);
    StoreOwned(m, o, f, Page(b));
    StoreFlat(m, o, f, Page(b), d, LAST);
    var m' := m[f := Page(b)];
    assert View(m, d)[v].pte == Lookup(m, d, v);
    hide SlotAt;
    forall d', v' | IsDir(o, d') && 0 <= v' < NUSER
      ensures SlotAt(m', d', v') == if d' == d && v' == v then Slot(Lookup(m, d, v), b) else SlotAt(m, d', v')
    {
      BytesSlot(m, o, d, v, b, d', v');
    }
    forall i | 0 <= i < NPT ensures Pde(m', d, i) == Pde(m, d, i) {
      DirEntryFlat(m, o, f, Page(b), d, i);
    }
  }

  /** The entry that walkpgdir finds. Where there is no page table the code dereferences null. */
  method GetPte(k: Allocator, d: nat, v: nat) returns (t: Pte)
    requires k.Valid() && IsDir(k.owner, d) && v < NPT * NPT && HasTable(k.mem, d, v)
    modifies k
    ensures unchanged(k) && t == Lookup(k.mem, d, v) && (v < NUSER ==> t == View(k.mem, d)[v].pte)
  {
    hide Owned, Lookup, Grew, Chain;
    var tab := Walkpgdir(k, d, v, false);
    EntryIs(k.mem, d, v);
    t := k.mem[tab].entries[v % NPT];
  }

  /** A store of flags into the entry that walkpgdir finds. */
  method SetPte(k: Allocator, d: nat, v: nat, t: Pte)
    requires k.Valid() && IsDir(k.owner, d) && v < NUSER && Lookup(k.mem, d, v).Mapped() && t.Mapped()
             && t.frame == Lookup(k.mem, d, v).frame
    modifies k
    ensures k.Valid() && k.owner == old(k.owner) && k.freelist == old(k.freelist) && k.free == old(k.free)
    ensures Only(old(k.mem), k.owner, k.mem, d) && HasTable(k.mem, d, v) && Top(k.mem, d) == old(Top(k.mem, d))
    ensures View(k.mem, d) == old(View(k.mem, d))[v := Slot(t, old(View(k.mem, d))[v].bytes)] && Lookup(k.mem, d, v) == t
  {
    hide Owned, Grew, Chain, View, Only, Top;
    FlagsView(k.mem, k.owner, d, v, t);
    EntryChain(k.mem, k.freelist, k.free, k.owner, d, v, t);
    SetEntrySize(k.mem, d, v, t);
    SetEntryFlat(k.mem, k.owner, d, v, t, d, v);
    hide Lookup;
    var tab := Walkpgdir(k, d, v, false);
    k.mem := k.mem[tab := Table(k.mem[tab].entries[v % NPT := t])];
    assert k.mem == SetEntry(old(k.mem), d, v, t);
  }

  function Half(b: seq<Byte>, n: nat): seq<Byte> { seq(|b|, i requires 0 <= i < |b| => if i < n then b[i] ^ 0xFF else b[i]) }

  /** The byte loop. */
  method XorBytes(k: Allocator, f: nat)
    requires IsPage(k.mem, f)
    modifies k`mem
    ensures k.mem == old(k.mem)[f := Page(Flip(old(k.mem)[f].bytes))]
  {
    ghost var m1, b := k.mem, k.mem[f].bytes;
    HalfNone(b);
    assert m1 == m1[f := Page(b)];
    var i := 0;
    while i < PGSIZE
      invariant 0 <= i <= PGSIZE && k.mem == m1[f := Page(Half(b, i))]
    {
      HalfMore(b, i);
      k.mem := k.mem[f := Page(k.mem[f].bytes[i := k.mem[f].bytes[i] ^ 0xFF])];
      i := i + 1;
    }
    HalfAll(b);
  }

  /** The byte loop through the page's own address: every byte is flipped, and the processor sets the accessed bit. */
  method XorPage(k: Allocator, d: nat, v: nat)
    requires k.Valid() && IsDir(k.owner, d) && v < NUSER && Lookup(k.mem, d, v).p
    modifies k
    ensures k.Valid() && k.owner == old(k.owner) && Only(old(k.mem), k.owner, k.mem, d) && Top(k.mem, d) == old(Top(k.mem, d))
    ensures var s := old(View(k.mem, d))[v];
            && View(k.mem, d) == old(View(k.mem, d))[v := Slot(s.pte.(a := true), Flip(s.bytes))]
            && Lookup(k.mem, d, v) == s.pte.(a := true)
  {
    assert View(k.mem, d)[v].pte == Lookup(k.mem, d, v);
    hide Owned, Chain, View, Only, Lookup, Allocator.Valid, Top;
    ViewSize(k.mem, d);
    MappedHasTable(k.mem, d, v);
    var t := GetPte(k, d, v);
    SetPte(k, d, v, t.(a := true)); // the first access
    ghost var m1 := k.mem;
    XorStored(k, d, v, t.frame);
    OnlyMore(old(k.mem), k.owner, m1, k.mem, d);
  }

  /** The bytes alone. */
  method XorStored(k: Allocator, d: nat, v: nat, f: nat)
    requires k.Valid() && IsDir(k.owner, d) && v < NUSER && Lookup(k.mem, d, v).Mapped() && Lookup(k.mem, d, v).frame == f
    modifies k
    ensures k.Valid() && k.owner == old(k.owner) && Only(old(k.mem), k.owner, k.mem, d) && Top(k.mem, d) == old(Top(k.mem, d))
    ensures var s := old(View(k.mem, d))[v]; View(k.mem, d) == old(View(k.mem, d))[v := Slot(s.pte, Flip(s.bytes))]
    ensures Lookup(k.mem, d, v) == old(Lookup(k.mem, d, v))
  {
    hide Owned, Chain, View, Only, Lookup, Partition, Top;
    PageFrame(k.mem, k.owner, d, v);
    ViewBytes(k.mem, k.owner, d, v);
    ghost var m1, b := k.mem, Flip(k.mem[f].bytes);
    XorBytes(k, f);
    BytesView(m1, k.owner, d, v, b);
    NotFree(k.owner, k.free, k.lo, k.hi, f);
    ChainStore(m1, k.freelist, k.free, f, Page(b));
    StoreFlat(m1, k.owner, f, Page(b), d, v);
  }

  // ---- uva2ka, translate_and_set and mencrypt ----------------------------------------------------------------------

  /** uva2ka: the frame of a mapped user page, else 0. */
  method Uva2ka(k: Allocator, d: nat, v: nat) returns (f: nat)
    requires k.Valid() && IsDir(k.owner, d) && v < NUSER && HasTable(k.mem, d, v)
    modifies k
    ensures unchanged(k) && (f == 0 <==> !(Lookup(k.mem, d, v).Mapped() && Lookup(k.mem, d, v).u))
    ensures f != 0 ==> IsPage(k.mem, f) && Lookup(k.mem, d, v).frame == f && View(k.mem, d)[v].bytes == k.mem[f].bytes
  {
    hide Owned, Chain, View, Lookup;
    var pte := GetPte(k, d, v);
    if !pte.Mapped() || !pte.u {
      return 0;
    }
    PageFrame(k.mem, k.owner, d, v);
    ViewBytes(k.mem, k.owner, d, v);
    return pte.frame;
  }

  /** translate_and_set: marks a present, unencrypted user page as encrypted and not present; 0 for every other page. */
  method TranslateAndSet(k: Allocator, d: nat, v: nat) returns (f: nat)
    requires k.Valid() && IsDir(k.owner, d) && v < NUSER && HasTable(k.mem, d, v)
    modifies k
    ensures k.Valid() && k.owner == old(k.owner) && Only(old(k.mem), k.owner, k.mem, d) && Top(k.mem, d) == old(Top(k.mem, d))
    ensures var s := old(View(k.mem, d))[v];
            && (f != 0 <==> s.pte.p && !s.pte.e && s.pte.u)
            && View(k.mem, d) == if f == 0 then old(View(k.mem, d))
               else old(View(k.mem, d))[v := Slot(s.pte.(e := true, p := false), s.bytes)]
  {
    hide Owned, Chain, View, Lookup;
    var pte := GetPte(k, d, v);
    OnlyNothing(k.mem, k.owner, d);
    if !pte.p && !pte.e {
      return 0;
    }
    if pte.e {
      return 0;
    }
    if !pte.u {
      return 0;
    }
    PageFrame(k.mem, k.owner, d, v);
    SetPte(k, d, v, pte.(e := true, p := false));
    return pte.frame;
  }

  lemma OnlyNothing(m: Mem, o: Owner, d: nat)
    ensures Only(m, o, m, d)
  {
  }

  lemma OnlyTables(m0: Mem, o: Owner, m: Mem, d: nat, v: nat)
    requires Only(m0, o, m, d) && HasTable(m0, d, v) && v < NPT * NPT
    ensures HasTable(m, d, v)
  {
    hide Pde, SlotAt, Lookup;
  }

  /** mencrypt on one user page in its second pass. */
  method EncryptPage(k: Allocator, d: nat, v: nat, pte: Pte) returns (ok: bool)
    requires k.Valid() && IsDir(k.owner, d) && v < NUSER && HasTable(k.mem, d, v)
    requires pte == View(k.mem, d)[v].pte == Lookup(k.mem, d, v) && pte.u && pte.Mapped()
    modifies k
    ensures ok && k.Valid() && k.owner == old(k.owner)
    ensures Only(old(k.mem), k.owner, k.mem, d) && Top(k.mem, d) == old(Top(k.mem, d))
    ensures View(k.mem, d) == old(View(k.mem, d))[v := Enc(old(View(k.mem, d))[v])]
  {
    hide Owned, Chain, View, Lookup, Allocator.Valid, Only, Flip, Top;
    ghost var m0, sp := k.mem, View(k.mem, d);
    ViewSize(m0, d);
    OnlyNothing(m0, k.owner, d);
    ok := true;
    if pte.e {
      return;
    }
    XorPage(k, d, v);
    ghost var m1 := k.mem;
    SetPte(k, d, v, pte.(a := false));
    ghost var m2 := k.mem;
    OnlyMore(m0, k.owner, m1, m2, d);
    var f := TranslateAndSet(k, d, v);
    OnlyMore(m0, k.owner, m2, k.mem, d);
    ok := f != 0;
  }

  lemma ViewSize(m: Mem, d: nat)
    ensures |View(m, d)| == NUSER
  {
  }

  /** The pages that mencrypt is called for: a range of the user part, or the last page of all, which is the kernel's. */
  ghost predicate MayEncrypt(m: Mem, d: nat, v: nat, len: int)
  {
    && (v + len <= NUSER || (v == LAST && len == 1 && !Lookup(m, d, LAST).u))
    && forall w :: v <= w < v + len ==> HasTable(m, d, w)
  }

  /** mencrypt: -1 and no change if some user page of the range is neither present nor encrypted; otherwise 0, and every user
      page of the range is encrypted. translate_and_set does not fail once the check has passed. */
  method Mencrypt(k: Allocator, d: nat, va: nat, len: int) returns (r: int)
    requires k.Valid() && IsDir(k.owner, d) && MayEncrypt(k.mem, d, va / PGSIZE, len)
    modifies k
    ensures k.Valid() && k.owner == old(k.owner) && Only(old(k.mem), k.owner, k.mem, d) && Top(k.mem, d) == old(Top(k.mem, d))
    ensures var n := if len < 0 then 0 else len;
            && r == (if Checked(old(View(k.mem, d)), va / PGSIZE, n) then 0 else -1)
            && View(k.mem, d) == Mencrypted(old(View(k.mem, d)), va / PGSIZE, n)
  {
    hide Owned, Chain, View, Lookup, Allocator.Valid, Only, Enc, Pde, Top;
    var v := va / PGSIZE;
    ghost var m0, sp, n := k.mem, View(k.mem, d), if len < 0 then 0 else len;
    ViewSize(m0, d);
    OnlyNothing(m0, k.owner, d);
    var i := 0;
    while i < len
      invariant 0 <= i <= n && unchanged(k) && Checked(sp, v, i)
    {
      var pte := GetPte(k, d, v + i);
      if pte.u {
        var kvp := Uva2ka(k, d, v + i);
        if kvp == 0 {
          assert !Checked(sp, v, n);
          return -1;
        }
      }
      i := i + 1;
    }
    i, r := 0, 0;
    EncNone(sp, v);
    while i < len && r == 0
      invariant 0 <= i <= n && r == 0 && k.Valid() && k.owner == old(k.owner) && Only(m0, k.owner, k.mem, d)
                && Top(k.mem, d) == old(Top(k.mem, d)) && View(k.mem, d) == EncRange(sp, v, i)
    {
      r := EncryptTurn(k, d, v, i, m0, sp);
      i := i + 1;
    }
  }

  /** A turn of mencrypt's second loop. */
  method EncryptTurn(k: Allocator, d: nat, v: nat, i: nat, ghost m0: Mem, ghost sp: Space) returns (r: int)
    requires k.Valid() && IsDir(k.owner, d) && Only(m0, k.owner, k.mem, d) && View(k.mem, d) == EncRange(sp, v, i)
    requires v + i < NPT * NPT && HasTable(m0, d, v + i) && |sp| == NUSER && Checked(sp, v, i + 1)
    requires v + i >= NUSER ==> v + i == LAST && !Lookup(m0, d, LAST).u
    modifies k
    ensures r == 0 && k.Valid() && k.owner == old(k.owner) && Only(m0, k.owner, k.mem, d) && Top(k.mem, d) == old(Top(k.mem, d))
    ensures View(k.mem, d) == EncRange(sp, v, i + 1)
  {
    hide Owned, Chain, View, Lookup, Allocator.Valid, Enc, Pde, Top, SlotAt;
    ghost var m1 := k.mem;
    OnlyTables(m0, k.owner, m1, d, v + i);
    var pte := GetPte(k, d, v + i);
    EncMore(sp, v, i);
    hide Only;
    r := 0;
    if pte.u {
      var ok := EncryptPage(k, d, v + i, pte);
      OnlyMore(m0, k.owner, m1, k.mem, d);
      r := if ok then 0 else -1;
    }
  }

  lemma EncNone(sp: Space, v: nat)
    ensures EncRange(sp, v, 0) == sp
  {
  }

  lemma EncMore(sp: Space, v: nat, n: nat)
    ensures v + n < |sp| ==> EncRange(sp, v, n)[v + n] == sp[v + n]
    ensures EncRange(sp, v, n + 1) == if v + n < |sp| && sp[v + n].pte.u then EncRange(sp, v, n)[v + n := Enc(sp[v + n])]
                                      else EncRange(sp, v, n)
  {
  }

  lemma MappedHasTable(m: Mem, d: nat, v: nat)
    requires Lookup(m, d, v).Mapped()
    ensures HasTable(m, d, v)
  {
  }

  lemma ViewBytes(m: Mem, o: Owner, d: nat, v: nat)
    requires Owned(m, o) && IsDir(o, d) && v < NUSER && Lookup(m, d, v).Mapped()
    ensures var f := Lookup(m, d, v).frame; IsPage(m, f) && View(m, d)[v] == Slot(Lookup(m, d, v), m[f].bytes)
  {
    hide Owned, Lookup;
    PageFrame(m, o, d, v);
  }

  lemma NotFree(o: Owner, free: seq<nat>, lo: nat, hi: nat, f: nat)
    requires Partition(o, free, lo, hi) && f in o
    ensures f !in free && lo <= f < hi
  {
  }

  lemma HalfNone(b: seq<Byte>)
    ensures Half(b, 0) == b
  {
  }

  lemma HalfMore(b: seq<Byte>, n: nat)
    requires n < |b|
    ensures |Half(b, n)| == |b| && Half(b, n + 1) == Half(b, n)[n := Half(b, n)[n] ^ 0xFF]
  {
  }

  lemma HalfAll(b: seq<Byte>)
    ensures Half(b, |b|) == Flip(b) && |Flip(b)| == |b|
  {
  }

  /** The last page, which is the kernel's. */
  lemma TopView(m: Mem, o: Owner, d: nat, t: Pte)
    requires Owned(m, o) && IsDir(o, d) && HasTable(m, d, LAST) && t.(a := false) == Lookup(m, d, LAST).(a := false)
    ensures IsTable(m, Pde(m, d, LAST / NPT).frame) && Owned(SetEntry(m, d, LAST, t), o)
    ensures Lookup(SetEntry(m, d, LAST, t), d, LAST) == t
    ensures View(SetEntry(m, d, LAST, t), d) == View(m, d) && Only(m, o, SetEntry(m, d, LAST, t), d)
  {
    hide SetEntry, Lookup, Pde, IsTable, Owned, SlotAt;
    KernelMapOwned(m, o, d, LAST, t);
    SetEntrySize(m, d, LAST, t);
    EntryStored(m, o, d, LAST, t, d);
    SetEntryFlat(m, o, d, LAST, t, d, LAST);
    var m' := SetEntry(m, d, LAST, t);
    forall d', v' | IsDir(o, d') && 0 <= v' < NUSER ensures SlotAt(m', d', v') == SlotAt(m, d', v') {
      TopSlot(m, o, d, t, d', v');
    }
    forall f | f in o && o[f] == Held && f < |m| ensures m'[f] == m[f] {
      EntryElsewhere(m, o, d, LAST, t, f);
    }
  }

  lemma TopSlot(m: Mem, o: Owner, d: nat, t: Pte, d': nat, v': nat)
    requires Owned(m, o) && IsDir(o, d) && HasTable(m, d, LAST) && IsDir(o, d') && v' < NUSER
    ensures IsTable(m, Pde(m, d, LAST / NPT).frame) && SlotAt(SetEntry(m, d, LAST, t), d', v') == SlotAt(m, d', v')
  {
    hide SetEntry, Lookup, Pde, IsTable, IsPage, Owned;
    SetEntryFlat(m, o, d, LAST, t, d', v');
    if Lookup(m, d', v').Mapped() {
      PageFrame(m, o, d', v');
      EntryStored(m, o, d, LAST, t, Lookup(m, d', v').frame);
    }
  }

  /** A store of the accessed bit into the entry of the last page. */
  method SetTop(k: Allocator, d: nat, t: Pte)
    requires k.Valid() && IsDir(k.owner, d) && HasTable(k.mem, d, LAST) && t.(a := false) == Lookup(k.mem, d, LAST).(a := false)
    modifies k
    ensures k.Valid() && k.owner == old(k.owner) && Only(old(k.mem), k.owner, k.mem, d)
    ensures View(k.mem, d) == old(View(k.mem, d)) && Top(k.mem, d) == t.a
  {
    hide Owned, Grew, Chain, View, Only;
    TopView(k.mem, k.owner, d, t);
    EntryChain(k.mem, k.freelist, k.free, k.owner, d, LAST, t);
    SetEntrySize(k.mem, d, LAST, t);
    hide Lookup;
    var tab := Walkpgdir(k, d, LAST, false);
    k.mem := k.mem[tab := Table(k.mem[tab].entries[LAST % NPT := t])];
    assert k.mem == SetEntry(old(k.mem), d, LAST, t);
  }

  // ---- mdecrypt --------------------------------------------------------------------------------------------------------

  lemma PassedIs(sp: Space, ck: Ck, i: nat)
    requires |ck.nodes| == CLOCKSIZE && i <= CLOCKSIZE
    requires (forall j: nat :: j < i ==> Used(sp, ck, j)) && (i < CLOCKSIZE ==> !Used(sp, ck, i))
    ensures Passed(sp, ck, 0) == i
  {
    hide Used, Passed;
  }

  /** The second sweep finds the first slot's bit clear. */
  lemma SecondSweep(sp: Space, ck: Ck)
    requires |ck.nodes| == CLOCKSIZE
    ensures !Bit(Swept(sp, ck, CLOCKSIZE).0, Swept(sp, ck, CLOCKSIZE).1, At(ck, 0))
  {
    hide Swept, At;
    assert Same(sp, At(ck, 0), At(ck, 0));
    if 0 <= At(ck, 0) < |sp| {
      SweptAt(sp, ck, CLOCKSIZE, At(ck, 0));
    } else {
      SweptTop(sp, ck, CLOCKSIZE, At(ck, 0));
    }
  }

  lemma SweptMore(sp: Space, ck: Ck, i: nat)
    requires |ck.nodes| == CLOCKSIZE
    ensures var x, r := At(ck, i), Swept(sp, ck, i);
            Swept(sp, ck, i + 1) == if 0 <= x < |sp| then (r.0[x := Unaccessed(r.0[x])], r.1) else (r.0, false)
  {
  }

  lemma VictimFrom(sp: Space, ck: Ck, second: bool, i: nat)
    requires |ck.nodes| == CLOCKSIZE && (second ==> i == 0)
    requires Passed(sp, ck, 0) == if second then CLOCKSIZE else i
    ensures Victim(sp, ck) == Ring(ck.currInd, i)
    ensures var x, r := At(ck, i), Swept(sp, ck, if second then CLOCKSIZE else i);
            Evicted(sp, ck) == (if x < 0 then r.0 else Mencrypted(r.0, x, 1)) && TopSwept(sp, ck) == r.1
  {
    hide Mencrypted, Swept, Passed;
    RingWraps(ck.currInd);
  }

  lemma ImageView(m: Mem, d: nat, size: nat)
    requires NoneMapped(m, d, size, NUSER) && (forall v :: 0 <= v < size ==> Lookup(m, d, v).Mapped()) && size <= NUSER
    ensures |View(m, d)| == NUSER && forall w :: 0 <= w < size ==> HasTable(m, d, w)
    ensures forall w :: 0 <= w < NUSER ==> if w < size then View(m, d)[w].pte.Mapped() else View(m, d)[w].pte == ZERO
  {
    hide Lookup, Pde;
    forall w | 0 <= w < size ensures HasTable(m, d, w) {
      MappedHasTable(m, d, w);
    }
    assert forall w :: 0 <= w < NUSER ==> View(m, d)[w].pte == Lookup(m, d, w);
  }

  lemma SweptNone(sp: Space, ck: Ck)
    requires |ck.nodes| == CLOCKSIZE
    ensures Swept(sp, ck, 0) == (sp, ck.top)
  {
  }

  /** mencrypt of a page behind the user part. */
  lemma EncBeyond(sp: Space, v: nat, n: nat)
    requires v >= |sp|
    ensures Mencrypted(sp, v, n) == sp
  {
  }

  /** The page that a slot names, and the address in it as an unsigned number. */
  function PageOf(x: int): nat { if x < 0 then LAST else x }

  function Addr(x: int): nat { if x < 0 then 0xFFFF_FFFF else x * PGSIZE }

  lemma AddrIs(x: int)
    ensures Addr(x) / PGSIZE == PageOf(x)
  {
  }

  /** A slot whose page walkpgdir finds. Where there is no page table the code dereferences null. */
  ghost predicate SlotOk(m: Mem, d: nat, x: int) { x == -1 || (0 <= x < NUSER && HasTable(m, d, x)) }

  ghost function PagesWithTable(m: Mem, d: nat): set<int> { set v | 0 <= v < NUSER && HasTable(m, d, v) }

  /** The last page is the kernel's. */
  ghost predicate KernelTop(m: Mem, d: nat) { Lookup(m, d, LAST).p && !Lookup(m, d, LAST).u }

  lemma SlotTable(m: Mem, d: nat, x: int)
    requires SlotOk(m, d, x) && KernelTop(m, d)
    ensures HasTable(m, d, PageOf(x)) && PageOf(x) < NPT * NPT
  {
    hide Lookup, Pde;
    MappedHasTable(m, d, LAST);
  }

  lemma SlotRange(m: Mem, d: nat, x: int)
    requires SlotOk(m, d, x)
    ensures -1 <= x < NUSER
  {
  }

  lemma OnlyKeeps(m0: Mem, o: Owner, m: Mem, d: nat)
    requires Only(m0, o, m, d)
    ensures PagesWithTable(m, d) == PagesWithTable(m0, d) && (KernelTop(m0, d) ==> KernelTop(m, d))
    ensures forall x :: SlotOk(m0, d, x) ==> SlotOk(m, d, x)
  {
    hide Pde, SlotAt, Lookup;
  }

  /** setupkvm's directory is such a one, and nobody has accessed its last page. */
  lemma KernelHasTop(m: Mem, d: nat, data: nat)
    requires DataOk(data) && KernelHalf(m, d, data)
    ensures KernelTop(m, d) && !Top(m, d)
  {
    hide Lookup;
    assert KernelPage(m, d, data, LAST);
  }

  /** The part of a process that paging works on. */
  class Proc {
    const k: Allocator
    var pgdir: nat
    var sz: nat
    const nodes: array<int>
    var inClock: nat
    var currInd: nat

    function Clk(): Ck
      reads this, nodes, k
    {
      Ck(nodes[..], inClock, currInd, Top(k.mem, pgdir))
    }

    function Sp(): Space
      reads this, k
    {
      View(k.mem, pgdir)
    }

    function Now(): State
      reads this, nodes, k
    {
      State(Sp(), Clk(), Up(sz))
    }

    /** What every call keeps, whether or not the clock is exact. */
    ghost predicate Running()
      reads this, nodes, k
    {
      && k.Valid() && IsDir(k.owner, pgdir) && sz <= KERNBASE && KernelTop(k.mem, pgdir)
      && Sound(Now()) && Listed(Clk(), PagesWithTable(k.mem, pgdir))
    }

    /** The end of exec: the new image is encrypted as a whole and the clock is empty. `slots` is what nodes[] held before. */
    constructor (k: Allocator, pgdir: nat, sz: nat, slots: seq<int>)
      requires k.Valid() && IsDir(k.owner, pgdir) && sz <= KERNBASE && Paged(View(k.mem, pgdir)) && KernelTop(k.mem, pgdir)
      requires NoneMapped(k.mem, pgdir, Up(sz), NUSER) && forall v :: 0 <= v < Up(sz) ==> Lookup(k.mem, pgdir, v).Mapped()
      requires |slots| == CLOCKSIZE
      modifies k
      ensures this.k == k && this.pgdir == pgdir && this.sz == sz && fresh(nodes) && k.Valid() && k.owner == old(k.owner)
      ensures Only(old(k.mem), k.owner, k.mem, pgdir) && Sp() == Mencrypted(old(View(k.mem, pgdir)), 0, Up(sz))
      ensures Inv(Now()) && Running()
    {
      hide Owned, Chain, View, Lookup, Only, Allocator.Valid, Mencrypted, Pde, Paged, Inv, NoneMapped, Top, Sound, KernelTop;
      ghost var m0, sp := k.mem, View(k.mem, pgdir);
      ImageView(k.mem, pgdir, Up(sz));
      var r := Mencrypt(k, pgdir, 0, if sz % PGSIZE == 0 then sz / PGSIZE else sz / PGSIZE + 1);
      this.k, this.pgdir, this.sz := k, pgdir, sz;
      inClock, currInd := 0, 0;
      nodes := new int[CLOCKSIZE](i requires 0 <= i < CLOCKSIZE => slots[i]);
      new;
      ExecBegins(sp, Up(sz), nodes[..], Top(k.mem, pgdir));
      InvSound(Now());
      OnlyKeeps(m0, k.owner, k.mem, pgdir);
    }

    /** What the sweeps need: every slot names a page that walkpgdir finds. */
    ghost predicate Ready()
      reads this, k, nodes
    {
      && k.Valid() && IsDir(k.owner, pgdir) && KernelTop(k.mem, pgdir) && nodes.Length == CLOCKSIZE
      && forall i :: 0 <= i < CLOCKSIZE ==> SlotOk(k.mem, pgdir, nodes[i])
    }

    /** The sweep clears the accessed bit of the page that slot x names. */
    method ClearAccessed(x: int, pte: Pte, ghost m0: Mem)
      requires k.Valid() && IsDir(k.owner, pgdir) && SlotOk(k.mem, pgdir, x) && KernelTop(k.mem, pgdir)
      requires pte == Lookup(k.mem, pgdir, PageOf(x)) && pte.a && Only(m0, k.owner, k.mem, pgdir)
      modifies k
      ensures k.Valid() && k.owner == old(k.owner) && Only(m0, k.owner, k.mem, pgdir)
      ensures Sp() == (if x < 0 then old(Sp()) else old(Sp())[x := Unaccessed(old(Sp())[x])])
      ensures Top(k.mem, pgdir) == (x >= 0 && old(Top(k.mem, pgdir)))
    {
      assert x >= 0 ==> View(k.mem, pgdir)[x].pte == pte;
      MappedHasTable(k.mem, pgdir, LAST);
      hide Owned, Chain, View, Lookup, Only, Pde;
      if x < 0 {
        SetTop(k, pgdir, pte.(a := false));
      } else {
        if !pte.Mapped() {
          UnmappedIsZero(k.mem, k.owner, pgdir, x);
          assert false;
        }
        SetPte(k, pgdir, x, pte.(a := false));
      }
      OnlyMore(m0, k.owner, old(k.mem), k.mem, pgdir);
    }

    method EvictSlot(realInd: nat, v: nat, ghost m0: Mem)
      requires k.Valid() && IsDir(k.owner, pgdir) && KernelTop(k.mem, pgdir) && Only(m0, k.owner, k.mem, pgdir)
      requires nodes.Length == CLOCKSIZE && realInd < CLOCKSIZE && SlotOk(k.mem, pgdir, nodes[realInd])
      modifies this`currInd, nodes, k
      ensures k.Valid() && k.owner == old(k.owner) && Only(m0, k.owner, k.mem, pgdir)
      ensures var x := old(nodes[realInd]); Sp() == if x < 0 then old(Sp()) else Mencrypted(old(Sp()), x, 1)
      ensures Clk() == Ck(old(Clk()).nodes[realInd := v], inClock, (realInd + 1) % CLOCKSIZE, old(Clk()).top)
    {
      SlotTable(k.mem, pgdir, nodes[realInd]);
      hide Owned, Chain, View, Lookup, Only, Allocator.Valid, Mencrypted, Pde, Top;
      ViewSize(k.mem, pgdir);
      EncBeyond(Sp(), LAST, 1);
      AddrIs(nodes[realInd]);
      var r := Mencrypt(k, pgdir, Addr(nodes[realInd]), 1);
      OnlyMore(m0, k.owner, old(k.mem), k.mem, pgdir);
      nodes[realInd] := v;
      currInd := (realInd + 1) % CLOCKSIZE;
    }

    /** The two sweeps of a full clock, for the page v. Exactly one slot is evicted. */
    method Evict(v: nat) returns (evicted: bool)
      requires Ready() && inClock == CLOCKSIZE
      modifies this, nodes, k
      ensures evicted && k.Valid() && k.owner == old(k.owner) && pgdir == old(pgdir) && sz == old(sz)
      ensures Only(old(k.mem), k.owner, k.mem, pgdir) && Sp() == Evicted(old(Sp()), old(Clk()))
      ensures var r := Victim(old(Sp()), old(Clk()));
              Clk() == Ck(old(Clk()).nodes[r := v], CLOCKSIZE, (r + 1) % CLOCKSIZE, TopSwept(old(Sp()), old(Clk())))
    {
      hide Owned, Chain, View, Lookup, Allocator.Valid, Only, Pde, Swept, Victim, Passed, Evicted, Mencrypted, Used, Top,
           TopSwept, KernelTop, SlotOk;
      ghost var m0, sp, ck := k.mem, Sp(), Clk();
      ViewSize(m0, pgdir);
      OnlyNothing(m0, k.owner, pgdir);
      SweptNone(sp, ck);
      evicted := false;
      var j := 0;
      while j < 2 && !evicted
        invariant 0 <= j <= 2 && k.Valid() && k.owner == old(k.owner) && pgdir == old(pgdir) && sz == old(sz)
                  && inClock == CLOCKSIZE
        invariant Only(m0, k.owner, k.mem, pgdir)
        invariant !evicted ==> && nodes[..] == ck.nodes && currInd == ck.currInd && j < 2
                               && (Sp(), Top(k.mem, pgdir)) == Swept(sp, ck, if j == 0 then 0 else CLOCKSIZE)
        invariant !evicted && j == 1 ==> forall x: nat :: x < CLOCKSIZE ==> Used(sp, ck, x)
        invariant evicted ==> Sp() == Evicted(sp, ck)
        invariant evicted ==> var r := Victim(sp, ck);
                              Clk() == Ck(ck.nodes[r := v], CLOCKSIZE, (r + 1) % CLOCKSIZE, TopSwept(sp, ck))
      {
        var i := 0;
        while i < CLOCKSIZE && !evicted
          invariant 0 <= i <= CLOCKSIZE && k.Valid() && k.owner == old(k.owner) && pgdir == old(pgdir) && sz == old(sz)
                    && inClock == CLOCKSIZE
          invariant Only(m0, k.owner, k.mem, pgdir) && (j == 1 && !evicted ==> i == 0)
          invariant !evicted ==> && nodes[..] == ck.nodes && currInd == ck.currInd
                                 && (Sp(), Top(k.mem, pgdir)) == Swept(sp, ck, if j == 0 then i else CLOCKSIZE)
          invariant !evicted ==> forall x: nat :: x < (if j == 0 then i else CLOCKSIZE) ==> Used(sp, ck, x)
          invariant evicted ==> Sp() == Evicted(sp, ck)
          invariant evicted ==> var r := Victim(sp, ck);
                                Clk() == Ck(ck.nodes[r := v], CLOCKSIZE, (r + 1) % CLOCKSIZE, TopSwept(sp, ck))
          decreases CLOCKSIZE - i, !evicted
        {
          evicted := SweepTurn(j == 1, i, v, m0, sp, ck);
          if !evicted {
            i := i + 1;
          }
        }
        j := j + 1;
      }
    }

    /** A turn of the sweeps. */
    method SweepTurn(second: bool, i: nat, v: nat, ghost m0: Mem, ghost sp: Space, ghost ck: Ck) returns (evicted: bool)
      requires k.Valid() && IsDir(k.owner, pgdir) && Only(m0, k.owner, k.mem, pgdir) && nodes.Length == CLOCKSIZE == inClock
      requires KernelTop(m0, pgdir) && forall x :: 0 <= x < CLOCKSIZE ==> SlotOk(m0, pgdir, nodes[x])
      requires |sp| == NUSER && i < CLOCKSIZE && (second ==> i == 0) && nodes[..] == ck.nodes && currInd == ck.currInd
      requires (Sp(), Top(k.mem, pgdir)) == Swept(sp, ck, if second then CLOCKSIZE else i)
      requires forall x: nat :: x < (if second then CLOCKSIZE else i) ==> Used(sp, ck, x)
      modifies this`currInd, nodes, k
      ensures k.Valid() && k.owner == old(k.owner) && Only(m0, k.owner, k.mem, pgdir)
      ensures !evicted ==> && !second && Used(sp, ck, i) && nodes[..] == ck.nodes && currInd == ck.currInd
                           && (Sp(), Top(k.mem, pgdir)) == Swept(sp, ck, i + 1)
      ensures evicted ==> Sp() == Evicted(sp, ck)
      ensures evicted ==> var r := Victim(sp, ck);
                          Clk() == Ck(ck.nodes[r := v], CLOCKSIZE, (r + 1) % CLOCKSIZE, TopSwept(sp, ck))
    {
      hide Owned, Chain, View, Lookup, Allocator.Valid, Only, Pde, Swept, Victim, Passed, Evicted, Mencrypted, TopSwept, Ring,
           Bit, Top, SlotOk, HasTable, KernelTop, Same;
      var realInd := Ring(currInd, i);
      var x := nodes[realInd];
      assert x == At(ck, i);
      hide At;
      OnlyKeeps(m0, k.owner, k.mem, pgdir);
      SecondSweep(sp, ck);
      var pte := SlotPte(x);
      evicted := false;
      if pte.a {
        SweptMore(sp, ck, i);
        SlotRange(m0, pgdir, x);
        ClearAccessed(x, pte, m0);
      } else {
        PassedIs(sp, ck, if second then CLOCKSIZE else i);
        VictimFrom(sp, ck, second, i);
        EvictSlot(realInd, v, m0);
        evicted := true;
      }
    }

    /** The entry of the page that slot x names. */
    method SlotPte(x: int) returns (pte: Pte)
      requires k.Valid() && IsDir(k.owner, pgdir) && KernelTop(k.mem, pgdir) && SlotOk(k.mem, pgdir, x)
      modifies k
      ensures unchanged(k) && pte == Lookup(k.mem, pgdir, PageOf(x)) && (pte.a <==> Bit(Sp(), Top(k.mem, pgdir), x))
    {
      SlotTable(k.mem, pgdir, x);
      hide Owned, Chain, View, Lookup, Allocator.Valid, Pde;
      ViewSize(k.mem, pgdir);
      pte := GetPte(k, pgdir, PageOf(x));
    }

    /** mdecrypt: 0 for an encrypted user page, which is decoded and enters the clock, perhaps in place of a victim. -1 for any
        other page, and nothing changes; and -1, with the flags flipped, if the first stored byte is 0. */
    method Mdecrypt(va: nat) returns (r: int)
      requires Running() && Safe(Clk()) && va / PGSIZE < NUSER && HasTable(k.mem, pgdir, va / PGSIZE)
      modifies this, nodes, k
      ensures Running() && k.owner == old(k.owner) && pgdir == old(pgdir) && sz == old(sz)
              && Only(old(k.mem), k.owner, k.mem, pgdir)
      ensures r == if Handled(old(Sp())[va / PGSIZE]) then 0 else -1
      ensures var s := old(Sp())[va / PGSIZE]; r == 0 <==> s.pte.e && s.pte.u && !(|s.bytes| > 0 && s.bytes[0] == 0)
      ensures Sp() == AfterFault(old(Sp()), old(Clk()), va / PGSIZE) && Clk() == ClockAfter(old(Sp()), old(Clk()), va / PGSIZE)
      ensures r == 0 ==> && inClock == (if old(inClock) < CLOCKSIZE then old(inClock) + 1 else CLOCKSIZE)
                         && nodes.Length == CLOCKSIZE && nodes[Behind(currInd)] == va / PGSIZE
                         && forall i :: 0 <= i < CLOCKSIZE && i != Behind(currInd) ==> nodes[i] == old(nodes[i])
    {
      hide Owned, Chain, View, Lookup, Allocator.Valid, Only, Pde, Sound, Listed, KernelTop, AfterFault, ClockAfter, Top, Flip,
           Up, PagesWithTable;
      ghost var m0, sp, ck := k.mem, Sp(), Clk();
      ghost var pages := PagesWithTable(m0, pgdir);
      ViewSize(m0, pgdir);
      FaultKeepsSound(Now(), va / PGSIZE);
      HasTableIn(m0, pgdir, va / PGSIZE);
      FaultKeepsListed(sp, ck, va / PGSIZE, pages);
      r := Decrypt(va);
      if r == 0 {
        NewestIsBehindHand(sp, ck, va / PGSIZE);
      }
      OnlyKeeps(m0, k.owner, k.mem, pgdir);
    }

    /** Its body. */
    method Decrypt(va: nat) returns (r: int)
      requires Running() && Safe(Clk()) && va / PGSIZE < NUSER && HasTable(k.mem, pgdir, va / PGSIZE)
      modifies this, nodes, k
      ensures k.Valid() && k.owner == old(k.owner) && pgdir == old(pgdir) && sz == old(sz)
              && Only(old(k.mem), k.owner, k.mem, pgdir)
      ensures r == if Handled(old(Sp())[va / PGSIZE]) then 0 else -1
      ensures Sp() == AfterFault(old(Sp()), old(Clk()), va / PGSIZE) && Clk() == ClockAfter(old(Sp()), old(Clk()), va / PGSIZE)
    {
      hide Owned, Chain, View, Lookup, Allocator.Valid, Only, Pde, Evicted, Flip, Sound, Listed, KernelTop, Top, Entered,
           PagesWithTable, SlotOk;
      var v := va / PGSIZE;
      ghost var m0, sp, ck := k.mem, Sp(), Clk();
      ViewSize(m0, pgdir);
      OnlyNothing(m0, k.owner, pgdir);
      var pte := GetPte(k, pgdir, v);
      if !pte.e {
        return -1;
      }
      if !pte.u {
        return -1;
      }
      SetPte(k, pgdir, v, pte.(e := false, p := true));
      var kvp := Uva2ka(k, pgdir, v);
      if kvp == 0 || k.mem[kvp].bytes[0] == 0 {
        return -1;
      }
      ghost var m1 := k.mem;
      XorPage(k, pgdir, v);
      OnlyMore(m0, k.owner, m1, k.mem, pgdir);
      assert Sp() == sp[v := Decoded(sp[v])];
      ghost var m2 := k.mem;
      OnlyKeeps(m0, k.owner, m2, pgdir);
      if inClock == CLOCKSIZE {
        ListedReady(m0, pgdir, ck);
      }
      Enter(v);
      OnlyMore(m0, k.owner, m2, k.mem, pgdir);
      return 0;
    }

    /** Its clock part. */
    method Enter(v: nat)
      requires k.Valid() && IsDir(k.owner, pgdir) && Safe(Clk()) && (inClock == CLOCKSIZE ==> Ready())
      modifies this, nodes, k
      ensures k.Valid() && k.owner == old(k.owner) && pgdir == old(pgdir) && sz == old(sz)
              && Only(old(k.mem), k.owner, k.mem, pgdir)
      ensures Sp() == (if old(inClock) < CLOCKSIZE then old(Sp()) else Evicted(old(Sp()), old(Clk())))
      ensures Clk() == Entered(old(Sp()), old(Clk()), v)
    {
      hide Allocator.Valid, View, Only, Evicted, Victim, Top, TopSwept, Ready;
      OnlyNothing(k.mem, k.owner, pgdir);
      if inClock == 0 {
        nodes[0] := v;
        inClock := 1;
        currInd := 1;
      } else if inClock < CLOCKSIZE {
        nodes[currInd] := v;
        currInd := currInd + 1;
        inClock := inClock + 1;
      } else {
        var evicted := Evict(v);
      }
    }

    // ---- growproc -----------------------------------------------------------------------------------------------------

    /** growproc's inner loop takes slot i out. */
    method RemoveSlot(i: nat)
      requires nodes.Length == CLOCKSIZE && i < inClock <= CLOCKSIZE
      modifies this`inClock, this`currInd, nodes
      ensures Clk() == Dropped(old(Clk()), i)
    {
      hide Removed;
      if i < inClock - 1 {
        var j := i;
        while j < inClock
          invariant i <= j <= inClock == old(inClock)
          invariant forall x :: 0 <= x < i ==> nodes[x] == old(nodes[x])
          invariant forall x :: i <= x < j && x < inClock - 1 ==> nodes[x] == old(nodes[x + 1])
          invariant forall x :: j <= x < CLOCKSIZE ==> nodes[x] == if x == inClock - 1 && j == inClock then -1 else old(nodes[x])
          invariant j == inClock ==> nodes[inClock - 1] == -1 && currInd == inClock - 1
        {
          if j == inClock - 1 {
            nodes[j] := -1;
            currInd := inClock - 1;
          } else {
            nodes[j] := nodes[j + 1];
          }
          j := j + 1;
        }
      } else {
        nodes[i] := -1;
      }
      inClock := inClock - 1;
      ghost var c := old(nodes[..inClock]);
      RemovedSize(c, i);
      forall x | 0 <= x < inClock ensures nodes[x] == Removed(c, i)[x] {
        RemovedAt(c, i, x);
        assert if x < i then nodes[x] == c[x] else nodes[x] == c[x + 1];
      }
      assert nodes[..] == Removed(c, i) + [-1] + old(nodes[..])[old(inClock)..];
    }

    /** growproc's loop over the clock when the process shrinks: the slots of pages below the new size stay, in order, and
        the hand ends up where Shrunk says. The comparison is one of unsigned numbers, so a slot of -1 goes. */
    method Compact(limit: nat)
      requires nodes.Length == CLOCKSIZE && inClock <= CLOCKSIZE && limit < 0x1_0000_0000
      modifies this`inClock, this`currInd, nodes
      ensures Clk() == Shrunk(old(Clk()), Up(limit))
    {
      hide Below, Rest, Dropped, Shrunk, Up;
      var i := 0;
      ghost var n, ck := Up(limit), Clk();
      RestBegins(ck, n);
      while i < inClock
        invariant 0 <= i <= inClock <= CLOCKSIZE && Rest(Clk(), i, n) == Shrunk(ck, n)
        decreases inClock - i
      {
        PageBelow(nodes[i], limit);
        assert Kept(Clk())[i] == nodes[i];
        if Addr(nodes[i]) >= limit {
          RestDrops(Clk(), i, n);
          DroppedSize(Clk(), i);
          RemoveSlot(i);
        } else {
          RestKeeps(Clk(), i, n);
          i := i + 1;
        }
      }
      RestEnds(Clk(), n);
    }

    /** allocuvm, seen on the flat view. */
    method AllocPages(newsz: nat) returns (r: nat, ghost frames: seq<nat>)
      requires k.Valid() && IsDir(k.owner, pgdir) && NoneMapped(k.mem, pgdir, Up(sz), NUSER) && sz < newsz
      modifies k
      ensures k.Valid() && IsDir(k.owner, pgdir) && OthersSame(old(k.mem), old(k.owner), k.mem, pgdir)
              && DirsStay(old(k.owner), k.owner) && TablesStay(old(k.mem), k.mem, pgdir)
      ensures r == 0 <==> newsz >= KERNBASE || |old(k.free)| < GrowCost(old(k.mem), pgdir, Up(sz), Up(newsz))
      ensures r == 0 ==> Sp() == old(Sp())
      ensures r != 0 ==> && r == newsz < KERNBASE && |frames| == Up(newsz) - Up(sz) && Sp() == Extended(old(Sp()), Up(sz), frames)
                         && forall v :: Up(sz) <= v < Up(newsz) ==> HasTable(k.mem, pgdir, v)
    {
      hide Owned, Chain, View, Lookup, Only, Pde, Extended, Grew, AllFresh, OthersSame, NoneMapped, Partition, GrowCost,
           TablesStay;
      ghost var m0, o0 := k.mem, k.owner;
      NoneMappedLess(m0, pgdir, Up(sz), Min(Up(newsz), NUSER));
      OthersSameNow(m0, o0, pgdir);
      TablesStayNow(m0, pgdir);
      r := Allocuvm(k, pgdir, sz, newsz);
      frames := [];
      if r == 0 {
        if newsz < KERNBASE {
          FailedView(m0, o0, k.mem, k.owner, pgdir);
          GrownTables(m0, o0, k.mem, k.owner, pgdir, 0, 0);
        }
      } else {
        GrownView(m0, o0, k.mem, k.owner, pgdir, Up(sz), Up(newsz));
        GrownTables(m0, o0, k.mem, k.owner, pgdir, Up(sz), Up(newsz));
        FreshTables(k.mem, o0, pgdir, Up(sz), Up(newsz));
        frames := FramesOf(k.mem, pgdir, Up(sz), Up(newsz));
      }
    }

    /** growproc for n > 0: fresh pages, of which n / PGSIZE are encrypted. This is the growth step of the clock's model; it
        encrypts all the pages it makes exactly if there are n / PGSIZE of them. -1 exactly if it would reach the kernel or
        there are too few free frames, and then nothing shows. */
    method Grow(n: nat) returns (r: int, ghost frames: seq<nat>)
      requires Running() && 0 < n < KERNBASE
      modifies this`sz, k
      ensures Running() && OthersSame(old(k.mem), old(k.owner), k.mem, pgdir) && (r == 0 || r == -1)
      ensures r == -1 <==> old(sz) + n >= KERNBASE || |old(k.free)| < GrowCost(old(k.mem), pgdir, Up(old(sz)), Up(old(sz) + n))
      ensures r == -1 ==> Now() == old(Now()) && sz == old(sz)
      ensures r == 0 ==> && sz == old(sz) + n < KERNBASE && |frames| == Up(sz) - Up(old(sz))
                         && Enabled(old(Now()), Label.Grow(frames, n / PGSIZE))
                         && Now() == Next(old(Now()), Label.Grow(frames, n / PGSIZE))
      ensures r == 0 && Inv(old(Now())) ==> (Inv(Now()) <==> Up(old(sz) + n) - Up(old(sz)) == n / PGSIZE)
    {
      hide Owned, Chain, View, Lookup, Only, Pde, Mencrypted, Extended, OthersSame, Up, NoneMapped, DirsStay, GrowCost, Sound,
           Listed, KernelTop, Top, TablesStay, PagesWithTable;
      GrowSizes(sz, n);
      ViewSize(k.mem, pgdir);
      SoundNone(k.mem, pgdir, Now());
      ghost var m0, o0 := k.mem, k.owner;
      var newsz;
      newsz, frames := AllocPages(sz + n);
      ghost var m1 := k.mem;
      StayKeeps(m0, m1, pgdir, Clk());
      if newsz == 0 {
        return -1, [];
      }
      var start := if sz % PGSIZE == 0 then sz else Up(sz) * PGSIZE;
      r := Mencrypt(k, pgdir, start, n / PGSIZE);
      OthersSameMore(m0, o0, m1, k.owner, k.mem, pgdir);
      OnlyKeeps(m1, k.owner, k.mem, pgdir);
      ghost var before := old(Now());
      GrowKeepsSound(before, frames, n / PGSIZE);
      if Inv(before) {
        GrowKeepsClockIff(before, frames, n / PGSIZE);
      }
      sz := newsz;
      return 0, frames;
    }

    /** sys_mencrypt: -1 for a length that is not positive or an address outside the process; otherwise the step of the
        clock's model in which the user encrypts pages. */
    method SysMencrypt(va: nat, len: int) returns (r: int)
      requires Running() && va / PGSIZE + len <= NUSER
      requires forall w :: va / PGSIZE <= w < va / PGSIZE + len ==> HasTable(k.mem, pgdir, w)
      modifies k
      ensures Running() && k.owner == old(k.owner) && Only(old(k.mem), k.owner, k.mem, pgdir)
      ensures r == if len > 0 && va < sz && Checked(old(Sp()), va / PGSIZE, len) then 0 else -1
      ensures len <= 0 || va >= sz ==> k.mem == old(k.mem)
      ensures len > 0 && va < sz ==>
                && Enabled(old(Now()), Encrypt(va / PGSIZE, len)) && Now() == Next(old(Now()), Encrypt(va / PGSIZE, len))
    {
      hide Owned, Chain, View, Lookup, Only, Pde, Mencrypted, Checked, Allocator.Valid, Sound, Listed, KernelTop, Top, Up,
           PagesWithTable;
      ViewSize(k.mem, pgdir);
      OnlyNothing(k.mem, k.owner, pgdir);
      if len <= 0 {
        return -1;
      }
      if va >= sz {
        return -1;
      }
      EncryptKeepsSound(Now(), va / PGSIZE, len);
      r := Mencrypt(k, pgdir, va, len);
      OnlyKeeps(old(k.mem), k.owner, k.mem, pgdir);
    }

    /** A slot of the process table for a child, with whatever its nodes[] held. */
    constructor Child(k: Allocator, pgdir: nat, sz: nat, inClock: nat, currInd: nat, slots: seq<int>)
      requires |slots| == CLOCKSIZE
      ensures this.k == k && this.pgdir == pgdir && this.sz == sz && fresh(nodes)
      ensures Clk() == Ck(slots, inClock, currInd, Top(k.mem, pgdir))
    {
      this.k, this.pgdir, this.sz, this.inClock, this.currInd := k, pgdir, sz, inClock, currInd;
      nodes := new int[CLOCKSIZE](i requires 0 <= i < CLOCKSIZE => slots[i]);
    }

    /** fork, as far as paging goes: the child has a copy of every page and of the clock, with the hand three slots on. It
        fails and panics exactly when copyuvm does, and the parent is as before. `slots` is what the child's nodes[] held
        before; the child may run if those of them that the hand has jumped over name pages that it has tables for. */
    method Fork(data: nat, slots: seq<int>) returns (r: Out, child: Proc?)
      requires Running() && DataOk(data) && |slots| == CLOCKSIZE && forall i :: 0 <= i < inClock ==> Covered(nodes[i], Up(sz))
      modifies k
      ensures k.Valid()
      ensures var gap := FirstGap(old(k.mem), pgdir, 0, Up(sz));
              && (r == Failed <==> |old(k.free)| < CopyCost(gap))
              && (r == Panic <==> gap < Up(sz) && CopyCost(gap) <= |old(k.free)|)
      ensures r != Panic ==> Running() && Now() == old(Now())
      ensures r == Done ==> && child != null && fresh(child) && child.k == k && child.sz == sz && child.pgdir != pgdir
                            && IsDir(k.owner, child.pgdir) && Copies(Sp(), child.Sp())
                            && child.Clk() == Forked(Clk(), slots[inClock..])
      ensures r == Done ==> (child.Running() <==> Listed(child.Clk(), PagesWithTable(k.mem, child.pgdir)))
    {
      hide Owned, Chain, View, Lookup, Pde, Copying, Restored, FirstGap, CopyCost, Allocator.Valid, NoneMapped, Up, Copies, Sound,
           Listed, KernelTop, Top, TablesStay, PagesWithTable, Covered;
      ghost var m0, o0 := k.mem, k.owner;
      ValidOwned(k);
      SoundNone(m0, pgdir, Now());
      child := null;
      var c;
      r, c := Copyuvm(k, pgdir, sz, data);
      if r == Failed {
        ValidOwned(k);
        RestoredView(m0, o0, k.mem, k.owner, pgdir);
        RestoredTables(m0, o0, k.mem, k.owner, pgdir);
        StayKeeps(m0, k.mem, pgdir, Clk());
      }
      if r != Done {
        return;
      }
      UpUser(sz);
      ValidOwned(k);
      CopyViews(m0, o0, k.mem, k.owner, pgdir, c, Up(sz), data);
      CopyKeepsTables(m0, o0, k.mem, k.owner, pgdir, c, Up(sz), data);
      StayKeeps(m0, k.mem, pgdir, Clk());
      child := new Proc.Child(k, c, sz, inClock, currInd + 3, slots);
      CopyNodes(child, slots, m0, o0, data);
      ViewSize(k.mem, c);
      CopySound(Now(), child.Now());
    }

    /** fork's loop over the clock. It finds no page present in the child that is not present in the parent. */
    method CopyNodes(child: Proc, slots: seq<int>, ghost m0: Mem, ghost o0: Owner, data: nat)
      requires k.Valid() && IsDir(k.owner, pgdir) && IsDir(k.owner, child.pgdir) && nodes.Length == CLOCKSIZE
               && inClock <= CLOCKSIZE && KernelTop(k.mem, pgdir) && KernelTop(k.mem, child.pgdir) && !Top(k.mem, child.pgdir)
      requires DataOk(data) && Up(sz) <= NUSER && Copying(m0, o0, k.mem, k.owner, pgdir, child.pgdir, Up(sz), data)
      requires NoneMapped(m0, pgdir, Up(sz), NUSER) && forall i :: 0 <= i < inClock ==> Covered(nodes[i], Up(sz))
      requires child.nodes != nodes && child.k == k && |slots| == CLOCKSIZE
      requires child.Clk() == Ck(slots, inClock, currInd + 3, false)
      modifies child.nodes, k
      ensures unchanged(k) && child.Clk() == Forked(Clk(), slots[inClock..])
    {
      hide Owned, Chain, View, Lookup, Pde, Copying, Allocator.Valid, Up, HasTable, KernelTop, Top, Covered, NoneMapped;
      var i := 0;
      while i < inClock
        invariant 0 <= i <= inClock && unchanged(k)
        invariant forall j :: 0 <= j < CLOCKSIZE ==> child.nodes[j] == if j < i then nodes[j] else slots[j]
      {
        CopiedSlot(m0, o0, k.mem, k.owner, pgdir, child.pgdir, Up(sz), data, nodes[i]);
        var p := GetPte(k, pgdir, PageOf(nodes[i]));
        child.nodes[i] := nodes[i];
        var q := GetPte(k, child.pgdir, PageOf(child.nodes[i]));
        if !p.p {
          if q.p {
            assert false;
          }
        }
        i := i + 1;
      }
    }

    /** growproc for n < 0, as unsigned arithmetic has it: the clock keeps the pages below the new size, the pages from there on
        are freed. -1 if nothing is left; the old size then stays. This is the shrink step of the clock's model, whether or not
        the hand survives. */
    method Shrink(n: int) returns (r: int)
      requires Running() && -0x8000_0000 <= n < 0
      modifies this, nodes, k
      ensures Running() && pgdir == old(pgdir)
      ensures var newsz := if old(sz) + n < 0 then old(sz) + n + 0x1_0000_0000 else old(sz) + n;
              && r == (if newsz == 0 || old(sz) == 0 then -1 else 0)
              && sz == (if r == -1 || newsz >= old(sz) then old(sz) else newsz)
              && Enabled(old(Now()), Label.Shrink(Up(newsz))) && Now() == Next(old(Now()), Label.Shrink(Up(newsz)))
              && (newsz >= old(sz) ==> k.mem == old(k.mem) && k.owner == old(k.owner))
              && (newsz < old(sz) ==> Cleared(old(k.mem), old(k.owner), k.mem, k.owner, pgdir, Up(newsz), Up(old(sz))))
    {
      hide Owned, Chain, View, Lookup, Allocator.Valid, Pde, Cleared, Shrunk, NoneMapped, Cut, Up, Sound, Listed, KernelTop, Top,
           TablesStay, PagesWithTable;
      ghost var m0, o0, before := k.mem, k.owner, Now();
      ValidOwned(k);
      SoundNone(m0, pgdir, before);
      var newsz := if sz + n < 0 then sz + n + 0x1_0000_0000 else sz + n;
      UpOrder(newsz, sz);
      SoundSlots(before);
      ShrinkKeepsSound(before, Up(newsz));
      ShrinkKeepsListed(before.ck, Up(newsz), PagesWithTable(m0, pgdir));
      Compact(newsz);
      var size, ok := Deallocuvm(k, pgdir, sz, newsz);
      if newsz < sz {
        ValidOwned(k);
        CutView(k, m0, o0, pgdir, newsz, sz);
        UpUser(sz);
        ClearedTables(m0, o0, k.mem, k.owner, pgdir, Up(newsz), Up(sz));
        StayKeeps(m0, k.mem, pgdir, Clk());
      }
      if size == 0 {
        return -1;
      }
      sz := size;
      return 0;
    }
  }

  lemma ValidOwned(k: Allocator)
    requires k.Valid()
    ensures Owned(k.mem, k.owner)
  {
    hide Owned;
  }

  lemma UpUser(size: nat)
    requires size <= KERNBASE
    ensures Up(size) <= NUSER
  {
  }

  /** A size that has wrapped around is more than a page larger. */
  lemma UpOrder(newsz: nat, sz: nat)
    requires newsz < sz || newsz >= sz + PGSIZE
    ensures (Up(newsz) == 0 <==> newsz == 0) && (Up(newsz) > Up(sz) <==> newsz > sz)
  {
  }

  lemma InvSound(s: State)
    requires Inv(s)
    ensures Sound(s)
  {
  }

  lemma SoundSlots(s: State)
    requires Sound(s)
    ensures |s.ck.nodes| == CLOCKSIZE && s.ck.inClock <= CLOCKSIZE
  {
    hide Paged;
  }

  lemma SoundNone(m: Mem, d: nat, s: State)
    requires Sound(s) && s.sp == View(m, d)
    ensures NoneMapped(m, d, s.size, NUSER) && s.size <= NUSER && |s.ck.nodes| == CLOCKSIZE && s.ck.inClock <= CLOCKSIZE
  {
    hide Lookup, Paged;
    forall v | s.size <= v < NUSER ensures Lookup(m, d, v) == ZERO {
      assert s.sp[v].pte == Lookup(m, d, v);
    }
  }

  lemma HasTableIn(m: Mem, d: nat, v: nat)
    requires v < NUSER && HasTable(m, d, v)
    ensures v in PagesWithTable(m, d)
  {
  }

  /** A full clock with its slots listed is ready for the sweeps. */
  lemma ListedReady(m: Mem, d: nat, ck: Ck)
    requires Listed(ck, PagesWithTable(m, d)) && ck.inClock == CLOCKSIZE == |ck.nodes|
    ensures forall i :: 0 <= i < CLOCKSIZE ==> SlotOk(m, d, ck.nodes[i])
  {
    hide HasTable;
    forall i | 0 <= i < CLOCKSIZE ensures SlotOk(m, d, ck.nodes[i]) {
      assert Reaches(ck, i);
    }
  }

  /** Page tables stay, and so does the entry of the last page. */
  ghost predicate TablesStay(m0: Mem, m: Mem, d: nat)
  {
    Lookup(m, d, LAST) == Lookup(m0, d, LAST) && forall v :: 0 <= v < NUSER && HasTable(m0, d, v) ==> HasTable(m, d, v)
  }

  lemma TablesStayNow(m: Mem, d: nat)
    ensures TablesStay(m, m, d)
  {
  }

  lemma StayKeeps(m0: Mem, m: Mem, d: nat, ck: Ck)
    requires TablesStay(m0, m, d)
    ensures Top(m, d) == Top(m0, d) && (KernelTop(m0, d) ==> KernelTop(m, d))
    ensures PagesWithTable(m0, d) <= PagesWithTable(m, d)
    ensures Listed(ck, PagesWithTable(m0, d)) ==> Listed(ck, PagesWithTable(m, d))
  {
    hide Lookup, HasTable;
  }

  /** Whoever keeps a page table in its place keeps the directory's entry for it. */
  lemma TableStays(m0: Mem, o0: Owner, m: Mem, o: Owner, d: nat, v: nat)
    requires Owned(m0, o0) && Owned(m, o) && IsDir(o0, d) && v < NPT * NPT && HasTable(m0, d, v)
    requires forall f :: f in o0 && o0[f].Tab? ==> f in o && o[f] == o0[f]
    ensures HasTable(m, d, v)
  {
    hide Lookup, PteOk;
    assert PdeOk(m0, o0, d, v / NPT);
    assert OwnerOk(m, o, Pde(m0, d, v / NPT).frame);
  }

  lemma GrownTables(m0: Mem, o0: Owner, m: Mem, o: Owner, d: nat, a: nat, b: nat)
    requires Owned(m0, o0) && Owned(m, o) && IsDir(o0, d) && Grew(m0, o0, m, o, d, a, b, {}) && b <= NUSER
    ensures TablesStay(m0, m, d)
  {
    hide Lookup, Owned, HasTable;
    forall v | 0 <= v < NUSER && HasTable(m0, d, v) ensures HasTable(m, d, v) {
      TableStays(m0, o0, m, o, d, v);
    }
  }

  lemma ClearedTables(m0: Mem, o0: Owner, m: Mem, o: Owner, d: nat, a: nat, b: nat)
    requires Owned(m0, o0) && Owned(m, o) && IsDir(o0, d) && Cleared(m0, o0, m, o, d, a, b) && b <= NUSER
    ensures TablesStay(m0, m, d)
  {
    hide Lookup, Owned, HasTable;
    forall v | 0 <= v < NUSER && HasTable(m0, d, v) ensures HasTable(m, d, v) {
      TableStays(m0, o0, m, o, d, v);
    }
  }

  /** Freeing the pages from newsz on cuts the view. */
  lemma CutView(k: Allocator, m0: Mem, o0: Owner, d: nat, newsz: nat, oldsz: nat)
    requires k.Valid() && Owned(m0, o0) && IsDir(o0, d) && newsz < oldsz <= KERNBASE
    requires Cleared(m0, o0, k.mem, k.owner, d, Up(newsz), Up(oldsz)) && NoneMapped(m0, d, Up(oldsz), NUSER)
    ensures View(k.mem, d) == Cut(View(m0, d), Up(newsz))
  {
    hide Lookup, Owned, SlotAt, Cleared;
    forall w: nat | w < NUSER ensures SlotAt(k.mem, d, w) == if w < Up(newsz) then SlotAt(m0, d, w) else Slot(ZERO, []) {
      CutSlot(m0, o0, k.mem, k.owner, d, Up(newsz), Up(oldsz), w);
    }
  }

  lemma CutSlot(m0: Mem, o0: Owner, m: Mem, o: Owner, d: nat, a: nat, b: nat, w: nat)
    requires Owned(m0, o0) && IsDir(o0, d) && a <= b && w < NUSER && Cleared(m0, o0, m, o, d, a, b) && NoneMapped(m0, d, b, NUSER)
    ensures SlotAt(m, d, w) == if w < a then SlotAt(m0, d, w) else Slot(ZERO, [])
  {
    hide Lookup, Owned;
    if w < a && Lookup(m0, d, w).Mapped() {
      PageFrame(m0, o0, d, w);
      assert SamePage(m0, o0, m, Lookup(m0, d, w).frame);
    }
  }

  /** Every address space but that of d reads as before. */
  ghost predicate OthersSame(m0: Mem, o0: Owner, m: Mem, d: nat)
  {
    forall d', v' :: IsDir(o0, d') && d' != d && 0 <= v' < NUSER ==> SlotAt(m, d', v') == SlotAt(m0, d', v')
  }

  ghost predicate DirsStay(o0: Owner, o: Owner) { forall d :: IsDir(o0, d) ==> IsDir(o, d) }

  lemma OthersSameNow(m: Mem, o: Owner, d: nat)
    ensures OthersSame(m, o, m, d) && DirsStay(o, o)
  {
  }

  lemma OthersSameMore(m0: Mem, o0: Owner, m1: Mem, o1: Owner, m: Mem, d: nat)
    requires OthersSame(m0, o0, m1, d) && Only(m1, o1, m, d) && DirsStay(o0, o1)
    ensures OthersSame(m0, o0, m, d)
  {
    hide SlotAt, Pde;
  }

  ghost function FramesOf(m: Mem, d: nat, a: nat, b: nat): seq<nat>
    requires a <= b
  {
    seq<nat>(b - a, i requires 0 <= i < b - a => Lookup(m, d, a + i).frame)
  }

  lemma GrowSizes(sz: nat, n: nat)
    ensures Up(sz) <= Up(sz) + n / PGSIZE <= Up(sz + n) && (sz + n < KERNBASE ==> Up(sz + n) <= NUSER)
    ensures (if sz % PGSIZE == 0 then sz else Up(sz) * PGSIZE) / PGSIZE == Up(sz)
    ensures sz % PGSIZE == 0 && n % PGSIZE == 0 ==> Up(sz + n) == Up(sz) + n / PGSIZE
  {
  }

  /** One byte more at a page boundary makes a page that is not encrypted; other growths by part of a page encrypt all they
      make. */
  lemma PartPageGrowth()
    ensures Up(4096 + 1) - Up(4096) != 1 / PGSIZE
    ensures Up(100 + 50) - Up(100) == 50 / PGSIZE && Up(100 + 8000) - Up(100) == 8000 / PGSIZE
  {
  }

  lemma NoneMappedLess(m: Mem, d: nat, a: nat, b: nat)
    requires NoneMapped(m, d, a, NUSER) && b <= NUSER
    ensures NoneMapped(m, d, a, b)
  {
  }

  lemma FreshTables(m: Mem, o0: Owner, d: nat, a: nat, b: nat)
    requires AllFresh(m, o0, d, a, b)
    ensures forall v :: a <= v < b ==> HasTable(m, d, v)
  {
    hide Lookup, Pde;
    forall v | a <= v < b ensures HasTable(m, d, v) {
      assert Fresh(m, o0, d, v);
      MappedHasTable(m, d, v);
    }
  }

  /** A page outside the new ones. */
  lemma SlotKept(m0: Mem, o0: Owner, m: Mem, o: Owner, d: nat, a: nat, b: nat, d': nat, v': nat)
    requires Owned(m0, o0) && Grew(m0, o0, m, o, d, a, b, {}) && IsDir(o0, d') && v' < NUSER && !(d' == d && a <= v' < b)
    ensures SlotAt(m, d', v') == SlotAt(m0, d', v')
  {
    hide Lookup, Owned;
    assert Lookup(m, d', v') == Lookup(m0, d', v');
    if Lookup(m0, d', v').Mapped() {
      PageFrame(m0, o0, d', v');
      assert SamePage(m0, o0, m, Lookup(m0, d', v').frame);
    }
  }

  lemma GrownView(m0: Mem, o0: Owner, m: Mem, o: Owner, d: nat, a: nat, b: nat)
    requires Owned(m0, o0) && IsDir(o0, d) && Grew(m0, o0, m, o, d, a, b, {}) && AllFresh(m, o0, d, a, b) && a <= b <= NUSER
    ensures View(m, d) == Extended(View(m0, d), a, FramesOf(m, d, a, b)) && OthersSame(m0, o0, m, d)
    ensures DirsStay(o0, o)
  {
    hide Lookup, Owned, SlotAt;
    forall d', v' | IsDir(o0, d') && 0 <= v' < NUSER && !(d' == d && a <= v' < b)
      ensures SlotAt(m, d', v') == SlotAt(m0, d', v')
    {
      SlotKept(m0, o0, m, o, d, a, b, d', v');
    }
    var fs := FramesOf(m, d, a, b);
    forall v | 0 <= v < NUSER ensures View(m, d)[v] == Extended(View(m0, d), a, fs)[v] {
      if a <= v < b {
        assert Fresh(m, o0, d, v);
        FreshSlot(m, o0, d, v);
        assert fs[v - a] == Lookup(m, d, a + (v - a)).frame;
      }
    }
  }

  lemma FreshSlot(m: Mem, o0: Owner, d: nat, v: nat)
    requires Fresh(m, o0, d, v)
    ensures SlotAt(m, d, v) == NewPage(Lookup(m, d, v).frame)
  {
    hide Lookup;
  }

  lemma FailedView(m0: Mem, o0: Owner, m: Mem, o: Owner, d: nat)
    requires Owned(m0, o0) && IsDir(o0, d) && Grew(m0, o0, m, o, d, 0, 0, {})
    ensures View(m, d) == View(m0, d) && OthersSame(m0, o0, m, d) && DirsStay(o0, o)
  {
    hide Lookup, Owned, SlotAt;
    forall d', v' | IsDir(o0, d') && 0 <= v' < NUSER ensures SlotAt(m, d', v') == SlotAt(m0, d', v') {
      SlotKept(m0, o0, m, o, d, 0, 0, d', v');
    }
  }

  function Removed(c: seq<int>, i: nat): seq<int>
    requires i < |c|
  {
    c[..i] + c[i + 1..]
  }

  lemma RemovedAt(c: seq<int>, i: nat, x: nat)
    requires i < |c| && x < |c| - 1
    ensures Removed(c, i)[x] == if x < i then c[x] else c[x + 1]
  {
  }

  lemma RemovedSize(c: seq<int>, i: nat)
    requires i < |c|
    ensures |Removed(c, i)| == |c| - 1
  {
  }

  /** Slot i taken out: the slots after it move down, -1 fills up, and the hand moves unless it was the last slot. */
  function Dropped(ck: Ck, i: nat): Ck
    requires i < ck.inClock <= |ck.nodes|
  {
    var last := ck.inClock - 1;
    Ck(Removed(Kept(ck), i) + [-1] + ck.nodes[ck.inClock..], last, if i < last then last else ck.currInd, ck.top)
  }

  lemma DroppedSize(ck: Ck, i: nat)
    requires i < ck.inClock <= |ck.nodes|
    ensures Dropped(ck, i).inClock == ck.inClock - 1
  {
  }

  lemma PageBelow(x: int, limit: nat)
    requires limit < 0x1_0000_0000
    ensures Addr(x) >= limit <==> !Stays(x, Up(limit))
  {
  }

  function Blanks(r: nat): seq<int> { seq(r, j => -1) }

  lemma OneMoreBlank(r: nat)
    ensures Blanks(r) + [-1] == Blanks(r + 1)
  {
  }

  /** Hand, with the first i slots left alone. */
  function HandFrom(s: seq<int>, i: nat, n: nat, hand: nat): nat
    requires i <= |s|
  {
    var kept := i + |Below(s[i..], n)|;
    if kept == |s| then hand else if Stays(s[|s| - 1], n) then kept else if kept + 1 == |s| then hand else kept + 1
  }

  /** The clock in the end, if the first i slots stay and the others have still to be looked at. */
  function Rest(ck: Ck, i: nat, n: nat): Ck
    requires i <= ck.inClock <= |ck.nodes|
  {
    var s := Kept(ck);
    var kept := s[..i] + Below(s[i..], n);
    Ck(kept + Blanks(|s| - |kept|) + ck.nodes[ck.inClock..], |kept|, HandFrom(s, i, n, ck.currInd), ck.top)
  }

  lemma RestBegins(ck: Ck, n: nat)
    requires ck.inClock <= |ck.nodes|
    ensures Rest(ck, 0, n) == Shrunk(ck, n)
  {
    assert Kept(ck)[0..] == Kept(ck) && Kept(ck)[..0] == [];
  }

  lemma RestEnds(ck: Ck, n: nat)
    requires ck.inClock <= |ck.nodes|
    ensures Rest(ck, ck.inClock, n) == ck
  {
    var s := Kept(ck);
    assert s[|s|..] == [] && s[..|s|] == s && Blanks(0) == [];
    assert ck.nodes == s + ck.nodes[ck.inClock..];
  }

  /** A slot below n stays. */
  lemma RestKeeps(ck: Ck, i: nat, n: nat)
    requires i < ck.inClock <= |ck.nodes| && Stays(Kept(ck)[i], n)
    ensures Rest(ck, i + 1, n) == Rest(ck, i, n)
  {
    var s := Kept(ck);
    assert s[i..][1..] == s[i + 1..];
    assert s[..i] + ([s[i]] + Below(s[i + 1..], n)) == s[..i + 1] + Below(s[i + 1..], n);
  }

  lemma DroppedParts(ck: Ck, i: nat)
    requires i < ck.inClock <= |ck.nodes|
    ensures var ck' := Dropped(ck, i);
            && ck'.inClock <= |ck'.nodes| && Kept(ck') == Removed(Kept(ck), i)
            && ck'.nodes[ck'.inClock..] == [-1] + ck.nodes[ck.inClock..]
  {
    hide Removed;
    RemovedSize(Kept(ck), i);
    var r := Removed(Kept(ck), i);
    assert Dropped(ck, i).nodes == r + ([-1] + ck.nodes[ck.inClock..]);
  }

  /** Any other is taken out. */
  lemma RestDrops(ck: Ck, i: nat, n: nat)
    requires i < ck.inClock <= |ck.nodes| && !Stays(Kept(ck)[i], n)
    ensures Dropped(ck, i).inClock <= |Dropped(ck, i).nodes| && Rest(Dropped(ck, i), i, n) == Rest(ck, i, n)
  {
    hide HandFrom;
    DroppedParts(ck, i);
    var s, ck' := Kept(ck), Dropped(ck, i);
    var s' := Removed(s, i);
    assert s[i..][1..] == s[i + 1..] && s'[i..] == s[i + 1..] && s'[..i] == s[..i];
    var kept := s[..i] + Below(s[i + 1..], n);
    OneMoreBlank(|s'| - |kept|);
    assert kept + Blanks(|s'| - |kept|) + ([-1] + ck.nodes[ck.inClock..]) ==
        kept + (Blanks(|s'| - |kept|) + [-1]) + ck.nodes[ck.inClock..];
    HandDrops(s, i, n, ck.currInd);
  }

  lemma HandDrops(s: seq<int>, i: nat, n: nat, hand: nat)
    requires i < |s| && !Stays(s[i], n)
    ensures HandFrom(Removed(s, i), i, n, if i < |s| - 1 then |s| - 1 else hand) == HandFrom(s, i, n, hand)
  {
    var s' := Removed(s, i);
    assert s[i..][1..] == s[i + 1..] && s'[i..] == s[i + 1..];
    var t := s[i + 1..];
    if t != [] {
      assert s'[|s'| - 1] == s[|s| - 1] == t[|t| - 1];
      if !Stays(t[|t| - 1], n) {
        BelowLast(t, n);
      }
    }
  }

  lemma {:induction false} BelowLast(t: seq<int>, n: nat)
    requires t != [] && !Stays(t[|t| - 1], n)
    ensures |Below(t, n)| < |t|
  {
    if |t| > 1 {
      BelowLast(t[1..], n);
    }
  }

  /** In every state that a run after exec reaches, mdecrypt may be called as far as the slots go: page tables stay, so that
      every page that has been mapped at some moment of the run still has one. */
  lemma RunsAreReady(p: Proc, s: State, labels: seq<Label>)
    requires p.k.Valid() && IsDir(p.k.owner, p.pgdir) && p.sz <= KERNBASE && KernelTop(p.k.mem, p.pgdir)
    requires Sound(s) && s.ck.inClock == 0 && Runs(s, labels) && p.Now() == After(s, labels)
    requires EverMapped(s, labels) <= PagesWithTable(p.k.mem, p.pgdir)
    ensures p.Running()
  {
    hide Owned, Chain, Partition, Lookup, Flip, View, Sound, Runs, After, EverMapped, PagesWithTable;
    RunKeepsListed(s, labels, PagesWithTable(p.k.mem, p.pgdir));
  }

  /** A slot of -1, or a page of a page table that has pages of the process. */
  predicate Covered(x: int, n: nat) { x == -1 || (0 <= x < NUSER && x / NPT * NPT < n) }

  lemma SameTable(x: nat)
    requires x < NUSER
    ensures (x / NPT * NPT) / NPT == x / NPT && x / NPT * NPT <= x
  {
  }

  /** A page of the copy has a page table, like the original. */
  lemma CopiedPage(m0: Mem, o0: Owner, m: Mem, o: Owner, d: nat, c: nat, n: nat, data: nat, v: nat)
    requires DataOk(data) && Copying(m0, o0, m, o, d, c, n, data) && v < n <= NUSER
    ensures HasTable(m, d, v) && HasTable(m, c, v)
  {
    hide Lookup, Owned, KernelHalf, Blank, NoneMapped, Grew, Pde;
    OriginalKept(m0, o0, m, o, d, c, n, data, v);
    assert Copied(m0, m, d, c, v);
    MappedHasTable(m, d, v);
    MappedHasTable(m, c, v);
  }

  /** Such a slot has its page table in the copy as in the original, and the same presence. */
  lemma CopiedSlot(m0: Mem, o0: Owner, m: Mem, o: Owner, d: nat, c: nat, n: nat, data: nat, x: int)
    requires DataOk(data) && Copying(m0, o0, m, o, d, c, n, data) && n <= NUSER && Covered(x, n) && NoneMapped(m0, d, n, NUSER)
    requires KernelTop(m, d) && KernelTop(m, c)
    ensures HasTable(m, d, PageOf(x)) && HasTable(m, c, PageOf(x)) && PageOf(x) < NPT * NPT
    ensures Lookup(m, c, PageOf(x)).p == Lookup(m, d, PageOf(x)).p
  {
    hide Lookup, Owned, KernelHalf, Blank, Grew, Pde;
    if x < 0 {
      MappedHasTable(m, d, LAST);
      MappedHasTable(m, c, LAST);
    } else {
      CopiedPage(m0, o0, m, o, d, c, n, data, x / NPT * NPT);
      SameTable(x);
      OriginalKept(m0, o0, m, o, d, c, n, data, x);
      assert x < n ==> Copied(m0, m, d, c, x);
    }
  }

  /** The two views after a copy. */
  lemma CopyViews(m0: Mem, o0: Owner, m: Mem, o: Owner, d: nat, c: nat, n: nat, data: nat)
    requires DataOk(data) && Copying(m0, o0, m, o, d, c, n, data) && n <= NUSER && NoneMapped(m0, d, n, NUSER)
    ensures View(m, d) == View(m0, d) && Copies(View(m0, d), View(m, c)) && IsDir(o, d) && IsDir(o, c) && d != c
    ensures forall w :: n <= w < NUSER ==> View(m, c)[w].pte == ZERO
  {
    hide Lookup, Copying, SlotAt, NoneMapped;
    CopyDirs(m0, o0, m, o, d, c, n, data);
    forall w: nat | w < NUSER
      ensures SlotAt(m, d, w) == SlotAt(m0, d, w)
      ensures SlotAt(m, c, w) == Slot(SlotAt(m0, d, w).pte.(frame := SlotAt(m, c, w).pte.frame), SlotAt(m0, d, w).bytes)
      ensures n <= w ==> SlotAt(m, c, w).pte == ZERO
    {
      CopySlot(m0, o0, m, o, d, c, n, data, w);
    }
  }

  lemma CopyDirs(m0: Mem, o0: Owner, m: Mem, o: Owner, d: nat, c: nat, n: nat, data: nat)
    requires DataOk(data) && Copying(m0, o0, m, o, d, c, n, data)
    ensures IsDir(o, d) && IsDir(o, c) && d != c
  {
    OriginalKept(m0, o0, m, o, d, c, n, data, 0);
    hide Lookup, Owned, KernelHalf, NoneMapped, AllCopied, Grew;
  }

  lemma CopySlot(m0: Mem, o0: Owner, m: Mem, o: Owner, d: nat, c: nat, n: nat, data: nat, w: nat)
    requires DataOk(data) && Copying(m0, o0, m, o, d, c, n, data) && n <= NUSER && NoneMapped(m0, d, n, NUSER) && w < NUSER
    ensures SlotAt(m, d, w) == SlotAt(m0, d, w)
    ensures SlotAt(m, c, w) == Slot(SlotAt(m0, d, w).pte.(frame := SlotAt(m, c, w).pte.frame), SlotAt(m0, d, w).bytes)
    ensures n <= w ==> SlotAt(m, c, w).pte == ZERO
  {
    OriginalKept(m0, o0, m, o, d, c, n, data, w);
    hide Lookup, Owned, KernelHalf, Blank, Grew;
    if w < n {
      assert Copied(m0, m, d, c, w);
      PageFrame(m0, o0, d, w);
    } else {
      assert Lookup(m0, d, w) == ZERO;
    }
  }

  /** copyuvm leaves the parent's tables alone, and the copy's last page is a fresh one of the kernel. */
  lemma CopyKeepsTables(m0: Mem, o0: Owner, m: Mem, o: Owner, d: nat, c: nat, n: nat, data: nat)
    requires DataOk(data) && Copying(m0, o0, m, o, d, c, n, data) && Owned(m, o)
    ensures TablesStay(m0, m, d) && KernelTop(m, c) && !Top(m, c)
  {
    KernelHasTop(m, c, data);
    hide Lookup, Owned, KernelHalf, NoneMapped, AllCopied, HasTable, Blank, Top, KernelTop;
    assert IsDir(o0[c := Dir], d);
    StoreFlat(m0, o0, c, Blank(), d, LAST);
    forall v | 0 <= v < NUSER && HasTable(m0, d, v) ensures HasTable(m, d, v) {
      TableStays(m0, o0, m, o, d, v);
    }
  }

  lemma RestoredTables(m0: Mem, o0: Owner, m: Mem, o: Owner, d: nat)
    requires Owned(m0, o0) && Owned(m, o) && IsDir(o0, d) && Restored(m0, o0, m, o)
    ensures TablesStay(m0, m, d)
  {
    hide Lookup, Owned, HasTable;
    forall v | 0 <= v < NUSER && HasTable(m0, d, v) ensures HasTable(m, d, v) {
      TableStays(m0, o0, m, o, d, v);
    }
  }

  lemma CopySound(s: State, t: State)
    requires Sound(s) && Copies(s.sp, t.sp) && t.size == s.size && |t.ck.nodes| == CLOCKSIZE && t.ck.inClock <= CLOCKSIZE
    requires forall w :: s.size <= w < |t.sp| ==> t.sp[w].pte == ZERO
    ensures Sound(t)
  {
  }

  lemma RestoredView(m0: Mem, o0: Owner, m: Mem, o: Owner, d: nat)
    requires Owned(m0, o0) && IsDir(o0, d) && Restored(m0, o0, m, o)
    ensures View(m, d) == View(m0, d) && IsDir(o, d)
  {
    hide Lookup, Owned, SlotAt;
    forall w: nat | w < NUSER ensures SlotAt(m, d, w) == SlotAt(m0, d, w) {
      RestoredSlot(m0, o0, m, o, d, w);
    }
  }

  lemma RestoredSlot(m0: Mem, o0: Owner, m: Mem, o: Owner, d: nat, w: nat)
    requires Owned(m0, o0) && IsDir(o0, d) && Restored(m0, o0, m, o) && w < NUSER
    ensures SlotAt(m, d, w) == SlotAt(m0, d, w)
  {
    hide Lookup, Owned;
    if Lookup(m0, d, w).Mapped() {
      PageFrame(m0, o0, d, w);
      assert SamePage(m0, o0, m, Lookup(m0, d, w).frame);
    }
  }

  /** copyuvm keeps plaintext: every page of the copy reads as the original did, and the original still does. */
  lemma CopyKeepsPlain(m0: Mem, o0: Owner, m: Mem, o: Owner, d: nat, c: nat, n: nat, data: nat, v: nat)
    requires DataOk(data) && Copying(m0, o0, m, o, d, c, n, data) && v < n <= NUSER
    ensures Plain(SlotAt(m, c, v)) == Plain(SlotAt(m0, d, v)) && SlotAt(m, d, v) == SlotAt(m0, d, v)
  {
    OriginalKept(m0, o0, m, o, d, c, n, data, v);
    hide Lookup, Owned, KernelHalf, Blank, NoneMapped, Flip, Grew;
    assert Copied(m0, m, d, c, v);
    PageFrame(m0, o0, d, v);
  }
}
