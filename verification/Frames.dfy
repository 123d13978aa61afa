/** Physical memory under src/vm.c and src/kalloc.c: frames of 4096 bytes, two-level page tables kept in frames, and who
    owns which frame. Pages and frames are named by their numbers (address / PGSIZE). */
module Frames {
  const PGSIZE: nat := 4096
  const NPT: nat := 1024          // NPDENTRIES, and entries per page table
  const NUSER: nat := 524288      // pages below KERNBASE
  const KERNBASE: nat := 0x80000000
  const CLOCKSIZE: nat := 8

  type Byte = bv8

  /** A page table entry: frame number and the flags PTE_P, PTE_W, PTE_U, PTE_A and PTE_E. */
  datatype Pte = Pte(frame: nat, p: bool, w: bool, u: bool, a: bool, e: bool) {
    predicate Mapped() { p || e }
  }

  const ZERO: Pte := Pte(0, false, false, false, false, false)

  /** What a frame holds: a link of the free list, a page table or page directory, or the bytes of a page. */
  datatype Frame = Run(next: nat) | Table(entries: seq<Pte>) | Page(bytes: seq<Byte>)

  type Mem = seq<Frame>

  predicate IsTable(m: Mem, f: nat) { f < |m| && m[f].Table? && |m[f].entries| == NPT }

  predicate IsPage(m: Mem, f: nat) { f < |m| && m[f].Page? && |m[f].bytes| == PGSIZE }

  /** Entry i of the page directory d. */
  function Pde(m: Mem, d: nat, i: nat): Pte { if IsTable(m, d) && i < NPT then m[d].entries[i] else ZERO }

  /** The flat view: the entry of page v in the address space of directory d, zero if it has no page table. */
  function Lookup(m: Mem, d: nat, v: nat): Pte
  {
    var t := Pde(m, d, v / NPT);
    if t.p && IsTable(m, t.frame) then m[t.frame].entries[v % NPT] else ZERO
  }

  /** Who has a frame. `Held` is a frame handed out by kalloc that no table names (yet). */
  datatype Role = Dir | Tab(dir: nat, i: nat) | User(dir: nat, v: nat) | Held

  type Owner = map<nat, Role>

  ghost predicate IsDir(owner: Owner, d: nat) { d in owner && owner[d] == Dir }

  /** A directory entry is zero or names a page table that this entry owns. */
  ghost predicate PdeOk(m: Mem, owner: Owner, d: nat, i: nat)
  {
    var t := Pde(m, d, i);
    t == ZERO || (t.p && !t.e && t.frame in owner && owner[t.frame] == Tab(d, i) && IsTable(m, t.frame))
  }

  /** The entry of a user page is zero or names a page that this entry owns. */
  ghost predicate PteOk(m: Mem, owner: Owner, d: nat, v: nat)
  {
    var t := Lookup(m, d, v);
    t == ZERO || (t.Mapped() && t.frame in owner && owner[t.frame] == User(d, v) && IsPage(m, t.frame))
  }

  /** Whoever owns a frame is there and names it. */
  ghost predicate OwnerOk(m: Mem, owner: Owner, f: nat)
    requires f in owner
  {
    match owner[f]
    case Dir => IsTable(m, f)
    case Tab(d, i) => IsDir(owner, d) && i < NPT && Pde(m, d, i).p && Pde(m, d, i).frame == f
    case User(d, v) => IsDir(owner, d) && v < NUSER && Lookup(m, d, v).Mapped() && Lookup(m, d, v).frame == f
    case Held => f < |m|
  }

  /** No frame is shared: every table and every user page has exactly one owner. */
  ghost predicate Owned(m: Mem, owner: Owner)
  {
    && (forall f :: f in owner ==> OwnerOk(m, owner, f))
    && (forall d, i :: IsDir(owner, d) && 0 <= i < NPT ==> PdeOk(m, owner, d, i))
    && forall d, v :: IsDir(owner, d) && 0 <= v < NUSER ==> PteOk(m, owner, d, v)
  }

  /** Storing into the entry that walkpgdir finds. */
  function SetEntry(m: Mem, d: nat, v: nat, e: Pte): Mem
    requires Pde(m, d, v / NPT).p && IsTable(m, Pde(m, d, v / NPT).frame)
  {
    var t := Pde(m, d, v / NPT).frame;
    m[t := Table(m[t].entries[v % NPT := e])]
  }

  // ---- The flat view under each kind of store ----------------------------------------------------------

  /** walkpgdir refines the flat view: a store through it changes the entry of page v of d and nothing else. */
  lemma SetEntryFlat(m: Mem, owner: Owner, d: nat, v: nat, e: Pte, d': nat, v': nat)
    requires Owned(m, owner) && IsDir(owner, d) && IsDir(owner, d') && v < NPT * NPT && v' < NPT * NPT
    requires Pde(m, d, v / NPT).p
    ensures PdeOk(m, owner, d, v / NPT) && IsTable(m, Pde(m, d, v / NPT).frame)
    ensures Lookup(SetEntry(m, d, v, e), d', v') == if d' == d && v' == v then e else Lookup(m, d', v')
    ensures Pde(SetEntry(m, d, v, e), d', v' / NPT) == Pde(m, d', v' / NPT)
  {
    hide PteOk;
    assert PdeOk(m, owner, d, v / NPT) && PdeOk(m, owner, d', v' / NPT);
    assert OwnerOk(m, owner, d) && OwnerOk(m, owner, d');
  }

  /** A store into a frame that is neither a directory nor a page table does not show in the flat view. */
  lemma StoreFlat(m: Mem, owner: Owner, f: nat, x: Frame, d: nat, v: nat)
    requires Owned(m, owner) && f < |m| && (f in owner ==> owner[f].Held? || owner[f].User?)
    requires IsDir(owner, d) && v < NPT * NPT
    ensures Lookup(m[f := x], d, v) == Lookup(m, d, v) && Pde(m[f := x], d, v / NPT) == Pde(m, d, v / NPT)
  {
    hide PteOk;
    assert PdeOk(m, owner, d, v / NPT);
    assert OwnerOk(m, owner, d);
  }

  lemma DirEntryFlat(m: Mem, owner: Owner, f: nat, x: Frame, d: nat, i: nat)
    requires Owned(m, owner) && f < |m| && (f in owner ==> owner[f].Held? || owner[f].User?)
    requires IsDir(owner, d) && i < NPT
    ensures Pde(m[f := x], d, i) == Pde(m, d, i)
  {
    hide PteOk, PdeOk;
    assert OwnerOk(m, owner, d);
  }

  // ---- Ownership under each kind of store -----------------------------------------------------------------

  /** Whatever follows a store that keeps the directories: the three parts of `Owned`, entry by entry. */
  lemma EntryStored(m: Mem, owner: Owner, d: nat, v: nat, e: Pte, f: nat)
    requires Owned(m, owner) && IsDir(owner, d) && v < NPT * NPT && Pde(m, d, v / NPT).p
    ensures IsTable(m, Pde(m, d, v / NPT).frame)
    ensures IsTable(m, f) ==> IsTable(SetEntry(m, d, v, e), f)
    ensures IsPage(m, f) ==> IsPage(SetEntry(m, d, v, e), f) && SetEntry(m, d, v, e)[f] == m[f]
    ensures forall i :: 0 <= i < NPT && IsDir(owner, f) ==> Pde(SetEntry(m, d, v, e), f, i) == Pde(m, f, i)
  {
    hide PteOk;
    assert PdeOk(m, owner, d, v / NPT);
  }

  /** Mapping a user page: a held page becomes the page of v in d. */
  lemma MapOwned(m: Mem, owner: Owner, d: nat, v: nat, e: Pte)
    requires Owned(m, owner) && IsDir(owner, d) && v < NUSER && Pde(m, d, v / NPT).p && Lookup(m, d, v) == ZERO
    requires e.Mapped() && e.frame in owner && owner[e.frame] == Held && IsPage(m, e.frame)
    ensures IsTable(m, Pde(m, d, v / NPT).frame) && Owned(SetEntry(m, d, v, e), owner[e.frame := User(d, v)])
  {
    hide SetEntry, Lookup, Pde, IsTable, IsPage;
    EntryStored(m, owner, d, v, e, d);
    var m', owner' := SetEntry(m, d, v, e), owner[e.frame := User(d, v)];
    forall d', i | IsDir(owner', d') && 0 <= i < NPT ensures PdeOk(m', owner', d', i) {
      EntryStored(m, owner, d, v, e, d');
      assert PdeOk(m, owner, d', i);
      EntryStored(m, owner, d, v, e, Pde(m, d', i).frame);
    }
    forall d', v' | IsDir(owner', d') && 0 <= v' < NUSER ensures PteOk(m', owner', d', v') {
      SetEntryFlat(m, owner, d, v, e, d', v');
      assert PteOk(m, owner, d', v');
      EntryStored(m, owner, d, v, e, Lookup(m', d', v').frame);
    }
    forall f | f in owner' ensures OwnerOk(m', owner', f) {
      MapOwnerOk(m, owner, d, v, e, f);
    }
  }

  lemma MapOwnerOk(m: Mem, owner: Owner, d: nat, v: nat, e: Pte, f: nat)
    requires Owned(m, owner) && IsDir(owner, d) && v < NPT * NPT && Pde(m, d, v / NPT).p && f in owner
    requires v < NUSER ==> Lookup(m, d, v) == ZERO && e.Mapped() && e.frame in owner && owner[e.frame] == Held
    ensures IsTable(m, Pde(m, d, v / NPT).frame)
    ensures var owner' := if v < NUSER then owner[e.frame := User(d, v)] else owner; OwnerOk(SetEntry(m, d, v, e), owner', f)
  {
    hide SetEntry, Lookup, Pde, PteOk, PdeOk, IsTable, IsPage;
    EntryStored(m, owner, d, v, e, f);
    assert OwnerOk(m, owner, f);
    SetEntryFlat(m, owner, d, v, e, d, v);
    match owner[f] {
      case Tab(d', i) => EntryStored(m, owner, d, v, e, d');
      case User(d', v') => SetEntryFlat(m, owner, d, v, e, d', v');
      case Dir =>
      case Held => assert |SetEntry(m, d, v, e)| == |m| by { SetEntrySize(m, d, v, e); }
    }
  }

  lemma SetEntrySize(m: Mem, d: nat, v: nat, e: Pte)
    requires Pde(m, d, v / NPT).p && IsTable(m, Pde(m, d, v / NPT).frame)
    ensures |SetEntry(m, d, v, e)| == |m|
  {
  }

  /** Mapping a kernel page takes no frame. */
  lemma KernelMapOwned(m: Mem, owner: Owner, d: nat, v: nat, e: Pte)
    requires Owned(m, owner) && IsDir(owner, d) && NUSER <= v < NPT * NPT && Pde(m, d, v / NPT).p
    ensures IsTable(m, Pde(m, d, v / NPT).frame) && Owned(SetEntry(m, d, v, e), owner)
  {
    hide SetEntry, Lookup, Pde, IsTable, IsPage;
    EntryStored(m, owner, d, v, e, d);
    var m' := SetEntry(m, d, v, e);
    forall d', i | IsDir(owner, d') && 0 <= i < NPT ensures PdeOk(m', owner, d', i) {
      EntryStored(m, owner, d, v, e, d');
      assert PdeOk(m, owner, d', i);
      EntryStored(m, owner, d, v, e, Pde(m, d', i).frame);
    }
    forall d', v' | IsDir(owner, d') && 0 <= v' < NUSER ensures PteOk(m', owner, d', v') {
      SetEntryFlat(m, owner, d, v, e, d', v');
      assert PteOk(m, owner, d', v');
      EntryStored(m, owner, d, v, e, Lookup(m', d', v').frame);
    }
    forall f | f in owner ensures OwnerOk(m', owner, f) {
      MapOwnerOk(m, owner, d, v, e, f);
    }
  }

  /** Changing the flags of a mapped user page. */
  lemma ReflagOwned(m: Mem, owner: Owner, d: nat, v: nat, e: Pte)
    requires Owned(m, owner) && IsDir(owner, d) && v < NUSER && Lookup(m, d, v).Mapped()
    requires e.Mapped() && e.frame == Lookup(m, d, v).frame
    ensures Pde(m, d, v / NPT).p && IsTable(m, Pde(m, d, v / NPT).frame) && Owned(SetEntry(m, d, v, e), owner)
  {
    assert Pde(m, d, v / NPT).p;
    hide SetEntry, Lookup, Pde, IsTable, IsPage;
    EntryStored(m, owner, d, v, e, d);
    var m' := SetEntry(m, d, v, e);
    forall d', i | IsDir(owner, d') && 0 <= i < NPT ensures PdeOk(m', owner, d', i) {
      EntryStored(m, owner, d, v, e, d');
      assert PdeOk(m, owner, d', i);
      EntryStored(m, owner, d, v, e, Pde(m, d', i).frame);
    }
    forall d', v' | IsDir(owner, d') && 0 <= v' < NUSER ensures PteOk(m', owner, d', v') {
      SetEntryFlat(m, owner, d, v, e, d', v');
      assert PteOk(m, owner, d', v');
      EntryStored(m, owner, d, v, e, Lookup(m', d', v').frame);
    }
    forall f | f in owner ensures OwnerOk(m', owner, f) {
      EntryStored(m, owner, d, v, e, f);
      assert OwnerOk(m, owner, f);
      SetEntrySize(m, d, v, e);
      match owner[f] {
        case Tab(d', i) => EntryStored(m, owner, d, v, e, d');
        case User(d', v') => SetEntryFlat(m, owner, d, v, e, d', v');
        case Dir =>
        case Held =>
      }
    }
  }

  /** Whatever is stored in a frame nobody has or somebody holds, and whatever bytes go into a page, ownership stays. */
  lemma StoreOwned(m: Mem, owner: Owner, f: nat, x: Frame)
    requires Owned(m, owner) && f < |m|
    requires f in owner ==> owner[f].Held? || (owner[f].User? && IsPage(m, f) && IsPage(m[f := x], f))
    ensures Owned(m[f := x], owner)
  {
    var m' := m[f := x];
    hide Lookup, Pde;
    forall d', i | IsDir(owner, d') && 0 <= i < NPT ensures PdeOk(m', owner, d', i) {
      DirEntryFlat(m, owner, f, x, d', i);
      assert PdeOk(m, owner, d', i);
    }
    forall d', v' | IsDir(owner, d') && 0 <= v' < NUSER ensures PteOk(m', owner, d', v') {
      StoreFlat(m, owner, f, x, d', v');
      assert PteOk(m, owner, d', v');
    }
    forall g | g in owner ensures OwnerOk(m', owner, g) {
      assert OwnerOk(m, owner, g);
      match owner[g] {
        case Tab(d', i) => DirEntryFlat(m, owner, f, x, d', i);
        case User(d', v') => StoreFlat(m, owner, f, x, d', v');
        case Dir =>
        case Held =>
      }
    }
  }

  /** A held frame may be given back. */
  lemma DropOwned(m: Mem, owner: Owner, f: nat)
    requires Owned(m, owner) && (f in owner ==> owner[f] == Held)
    ensures Owned(m, owner - {f})
  {
    hide Lookup, Pde;
    var owner' := owner - {f};
    forall d', i | IsDir(owner', d') && 0 <= i < NPT ensures PdeOk(m, owner', d', i) {
      assert PdeOk(m, owner, d', i);
    }
    forall d', v' | IsDir(owner', d') && 0 <= v' < NUSER ensures PteOk(m, owner', d', v') {
      assert PteOk(m, owner, d', v');
    }
    forall g | g in owner' ensures OwnerOk(m, owner', g) {
      assert OwnerOk(m, owner, g);
    }
  }

  /** A frame nobody has may be held. */
  lemma TakeOwned(m: Mem, owner: Owner, f: nat)
    requires Owned(m, owner) && f !in owner && f < |m|
    ensures Owned(m, owner[f := Held])
  {
    hide Lookup, Pde;
    var owner' := owner[f := Held];
    forall d', i | IsDir(owner', d') && 0 <= i < NPT ensures PdeOk(m, owner', d', i) {
      assert PdeOk(m, owner, d', i);
    }
    forall d', v' | IsDir(owner', d') && 0 <= v' < NUSER ensures PteOk(m, owner', d', v') {
      assert PteOk(m, owner, d', v');
    }
    forall g | g in owner' ensures OwnerOk(m, owner', g) {
      assert g in owner ==> OwnerOk(m, owner, g);
    }
  }

  /** Clearing the entry of a user page leaves its frame held. */
  lemma UnmapOwned(m: Mem, owner: Owner, d: nat, v: nat)
    requires Owned(m, owner) && IsDir(owner, d) && v < NUSER && Lookup(m, d, v).Mapped()
    ensures Pde(m, d, v / NPT).p && IsTable(m, Pde(m, d, v / NPT).frame)
    ensures Owned(SetEntry(m, d, v, ZERO), owner[Lookup(m, d, v).frame := Held])
  {
    assert Pde(m, d, v / NPT).p;
    hide SetEntry, Lookup, Pde, IsTable, IsPage;
    EntryStored(m, owner, d, v, ZERO, d);
    var m', owner' := SetEntry(m, d, v, ZERO), owner[Lookup(m, d, v).frame := Held];
    assert PteOk(m, owner, d, v);
    forall d', i | IsDir(owner', d') && 0 <= i < NPT ensures PdeOk(m', owner', d', i) {
      EntryStored(m, owner, d, v, ZERO, d');
      assert PdeOk(m, owner, d', i);
      EntryStored(m, owner, d, v, ZERO, Pde(m, d', i).frame);
    }
    forall d', v' | IsDir(owner', d') && 0 <= v' < NUSER ensures PteOk(m', owner', d', v') {
      SetEntryFlat(m, owner, d, v, ZERO, d', v');
      assert PteOk(m, owner, d', v');
      EntryStored(m, owner, d, v, ZERO, Lookup(m', d', v').frame);
    }
    forall f | f in owner' ensures OwnerOk(m', owner', f) {
      UnmapOwnerOk(m, owner, d, v, f);
    }
  }

  lemma UnmapOwnerOk(m: Mem, owner: Owner, d: nat, v: nat, f: nat)
    requires Owned(m, owner) && IsDir(owner, d) && v < NUSER && Lookup(m, d, v).Mapped() && Pde(m, d, v / NPT).p && f in owner
    ensures IsTable(m, Pde(m, d, v / NPT).frame)
    ensures OwnerOk(SetEntry(m, d, v, ZERO), owner[Lookup(m, d, v).frame := Held], f)
  {
    hide SetEntry, Lookup, Pde, IsTable, IsPage;
    EntryStored(m, owner, d, v, ZERO, f);
    SetEntrySize(m, d, v, ZERO);
    assert PteOk(m, owner, d, v);
    assert OwnerOk(m, owner, f);
    match owner[f] {
      case Tab(d', i) => EntryStored(m, owner, d, v, ZERO, d');
      case User(d', v') =>
        SetEntryFlat(m, owner, d, v, ZERO, d', v');
        assert d' == d && v' == v ==> f < |m| by { PageFrame(m, owner, d, v); }
      case Dir =>
      case Held =>
    }
  }

  lemma PageFrame(m: Mem, owner: Owner, d: nat, v: nat)
    requires Owned(m, owner) && IsDir(owner, d) && v < NUSER && Lookup(m, d, v).Mapped()
    ensures IsPage(m, Lookup(m, d, v).frame) && Lookup(m, d, v).frame < |m|
    ensures Lookup(m, d, v).frame in owner && owner[Lookup(m, d, v).frame] == User(d, v)
  {
    hide Lookup, OwnerOk, PdeOk;
    assert PteOk(m, owner, d, v);
  }

  // ---- Page tables and directories come and go ----------------------------------------------------------------

  function Blank(): Frame { Table(seq(NPT, i => ZERO)) }

  function PdeFor(t: nat): Pte { Pte(t, true, true, true, false, false) }

  function SetPde(m: Mem, d: nat, i: nat, e: Pte): Mem
    requires IsTable(m, d) && i < NPT
  {
    m[d := Table(m[d].entries[i := e])]
  }

  /** A new page table shows in no flat view. */
  lemma TableFlat(m: Mem, owner: Owner, d: nat, i: nat, t: nat, d': nat, v': nat)
    requires Owned(m, owner) && IsDir(owner, d) && i < NPT && Pde(m, d, i) == ZERO
    requires t in owner && owner[t] == Held && t < |m| && m[t] == Blank()
    requires IsDir(owner, d') && v' < NPT * NPT
    ensures IsTable(m, d) && Lookup(SetPde(m, d, i, PdeFor(t)), d', v') == Lookup(m, d', v')
    ensures Pde(SetPde(m, d, i, PdeFor(t)), d', v' / NPT) == if d' == d && v' / NPT == i then PdeFor(t) else Pde(m, d', v' / NPT)
  {
    hide PteOk;
    assert OwnerOk(m, owner, d) && OwnerOk(m, owner, d');
    assert PdeOk(m, owner, d', v' / NPT);
  }

  lemma TableOwned(m: Mem, owner: Owner, d: nat, i: nat, t: nat)
    requires Owned(m, owner) && IsDir(owner, d) && i < NPT && Pde(m, d, i) == ZERO
    requires t in owner && owner[t] == Held && t < |m| && m[t] == Blank()
    ensures IsTable(m, d) && Owned(SetPde(m, d, i, PdeFor(t)), owner[t := Tab(d, i)])
  {
    hide Lookup;
    assert OwnerOk(m, owner, d);
    var m', owner' := SetPde(m, d, i, PdeFor(t)), owner[t := Tab(d, i)];
    forall d', i' | IsDir(owner', d') && 0 <= i' < NPT ensures PdeOk(m', owner', d', i') {
      assert PdeOk(m, owner, d', i');
    }
    forall d', v' | IsDir(owner', d') && 0 <= v' < NUSER ensures PteOk(m', owner', d', v') {
      TableFlat(m, owner, d, i, t, d', v');
      assert PteOk(m, owner, d', v');
    }
    forall f | f in owner' ensures OwnerOk(m', owner', f) {
      TableOwnerOk(m, owner, d, i, t, f);
    }
  }

  lemma TableOwnerOk(m: Mem, owner: Owner, d: nat, i: nat, t: nat, f: nat)
    requires Owned(m, owner) && IsDir(owner, d) && i < NPT && Pde(m, d, i) == ZERO && IsTable(m, d)
    requires t in owner && owner[t] == Held && t < |m| && m[t] == Blank() && f in owner
    ensures OwnerOk(SetPde(m, d, i, PdeFor(t)), owner[t := Tab(d, i)], f)
  {
    hide Lookup, PteOk;
    assert OwnerOk(m, owner, f);
    if owner[f].User? {
      TableFlat(m, owner, d, i, t, owner[f].dir, owner[f].v);
    }
  }

  /** A held blank frame may become a directory; its address space is empty. */
  lemma DirOwned(m: Mem, owner: Owner, d: nat)
    requires Owned(m, owner) && d in owner && owner[d] == Held && d < |m| && m[d] == Blank()
    ensures Owned(m, owner[d := Dir]) && forall v :: 0 <= v < NPT * NPT ==> Lookup(m, d, v) == ZERO
  {
    var owner' := owner[d := Dir];
    forall d', i | IsDir(owner', d') && 0 <= i < NPT ensures PdeOk(m, owner', d', i) {
      assert d' != d ==> PdeOk(m, owner, d', i);
    }
    forall d', v' | IsDir(owner', d') && 0 <= v' < NUSER ensures PteOk(m, owner', d', v') {
      assert d' != d ==> PteOk(m, owner, d', v');
    }
    forall g | g in owner' ensures OwnerOk(m, owner', g) {
      assert OwnerOk(m, owner, g);
    }
  }

  ghost predicate PartOf(r: Role, d: nat, f: nat) { f == d || (r.Tab? && r.dir == d) || (r.User? && r.dir == d) }

  /** The owners once the address space of d is given up: what it had is held. */
  ghost function Loosened(owner: Owner, d: nat): Owner { map f | f in owner :: if PartOf(owner[f], d, f) then Held else owner[f] }

  /** An address space without user pages may be given up. */
  lemma Dismantle(m: Mem, owner: Owner, d: nat)
    requires Owned(m, owner) && IsDir(owner, d) && forall v :: 0 <= v < NUSER ==> Lookup(m, d, v) == ZERO
    ensures Owned(m, Loosened(owner, d))
  {
    hide Lookup;
    var owner' := Loosened(owner, d);
    forall d', i | IsDir(owner', d') && 0 <= i < NPT ensures PdeOk(m, owner', d', i) {
      assert PdeOk(m, owner, d', i);
    }
    forall d', v' | IsDir(owner', d') && 0 <= v' < NUSER ensures PteOk(m, owner', d', v') {
      assert PteOk(m, owner, d', v');
    }
    forall g | g in owner' ensures OwnerOk(m, owner', g) {
      assert OwnerOk(m, owner, g);
      TabFrame(m, owner, g);
    }
  }

  lemma TabFrame(m: Mem, owner: Owner, f: nat)
    requires Owned(m, owner) && f in owner
    ensures owner[f].Tab? ==> IsTable(m, f) && f < |m|
  {
    hide PteOk, Lookup;
    assert OwnerOk(m, owner, f);
    if owner[f].Tab? {
      assert PdeOk(m, owner, owner[f].dir, owner[f].i);
    }
  }
}
