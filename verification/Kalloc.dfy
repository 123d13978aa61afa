/** The frame allocator of src/kalloc.c: a free list threaded through the free frames themselves. */
module Kalloc {
  import opened Common
  import opened Frames

  const PHYSTOP: nat := 0xE000000

  /** The list from `head` runs through exactly the frames in `free`, in order, each once. */
  ghost predicate Chain(m: Mem, head: nat, free: seq<nat>)
    decreases |free|
  {
    if free == [] then head == 0
    else head == free[0] && 0 < head < |m| && head !in free[1..] && m[head].Run? && Chain(m, m[head].next, free[1..])
  }

  /** A store outside the list does not disturb it. */
  lemma {:induction false} ChainStore(m: Mem, head: nat, free: seq<nat>, f: nat, x: Frame)
    requires Chain(m, head, free) && f < |m| && f !in free
    ensures Chain(m[f := x], head, free)
    decreases |free|
  {
    if free != [] {
      ChainStore(m, m[head].next, free[1..], f, x);
    }
  }

  /** No frame is on the list twice, and every frame on it holds a link. */
  lemma {:induction false} ChainDistinct(m: Mem, head: nat, free: seq<nat>, i: nat, j: nat)
    requires Chain(m, head, free) && i < |free| && j < |free|
    ensures 0 < free[i] < |m| && m[free[i]].Run? && (free[i] == free[j] ==> i == j)
    decreases |free|
  {
    if i > 0 && j > 0 {
      ChainDistinct(m, m[head].next, free[1..], i - 1, j - 1);
    } else if i > 0 {
      ChainDistinct(m, m[head].next, free[1..], i - 1, i - 1);
      assert free[1..][i - 1] == free[i];
    } else if j > 0 {
      assert free[1..][j - 1] == free[j];
    }
  }

  /** Every frame from `lo` to `hi` is on the free list or has an owner, and never both. */
  ghost predicate Partition(owner: Owner, free: seq<nat>, lo: nat, hi: nat)
  {
    && (forall f :: f in owner ==> lo <= f < hi && f !in free)
    && (forall f :: f in free ==> lo <= f < hi)
    && forall f: nat :: lo <= f < hi && f !in owner ==> f in free
  }

  lemma TakeParts(owner: Owner, free: seq<nat>, lo: nat, hi: nat, r: Role)
    requires Partition(owner, free, lo, hi) && free != [] && free[0] !in free[1..]
    ensures Partition(owner[free[0] := r], free[1..], lo, hi)
  {
    assert free == [free[0]] + free[1..] && free[0] in free;
    assert forall f :: f in free[1..] ==> f in free;
  }

  lemma GiveParts(owner: Owner, free: seq<nat>, lo: nat, hi: nat, f: nat)
    requires Partition(owner, free, lo, hi) && f in owner
    ensures Partition(owner - {f}, [f] + free, lo, hi)
  {
  }

  lemma {:induction false} ChainSet(m: Mem, head: nat, free: seq<nat>) returns (s: set<nat>)
    requires Chain(m, head, free)
    ensures |s| == |free| && forall f :: f in s <==> f in free
    decreases |free|
  {
    s := {};
    if free != [] {
      s := ChainSet(m, m[head].next, free[1..]);
      assert free == [head] + free[1..];
      s := s + {head};
    }
  }

  /** Frames are conserved: the free ones and those with an owner always add up to all of them. */
  lemma FramesAreConserved(m: Mem, head: nat, free: seq<nat>, owner: Owner, lo: nat, hi: nat)
    requires Chain(m, head, free) && Partition(owner, free, lo, hi) && lo <= hi
    ensures |free| + |owner| == hi - lo
  {
    hide Chain;
    var s := ChainSet(m, head, free);
    assert s + owner.Keys == Numbers(lo, hi);
    assert s * owner.Keys == {};
    assert |owner.Keys| == |owner|;
  }

  /** The first frame at or above a kernel address, and the one past the last that ends at or below it. */
  function First(v: nat): nat
    requires v >= KERNBASE
  {
    (v - KERNBASE + PGSIZE - 1) / PGSIZE
  }

  function Past(v: nat): nat { if v < KERNBASE then 0 else (v - KERNBASE) / PGSIZE }

  /** The frames that freerange puts on the list, last one first. */
  function Down(first: nat, past: nat): seq<nat> { if past <= first then [] else [past - 1] + Down(first, past - 1) }

  lemma DownMore(first: nat, past: nat, rest: seq<nat>)
    requires first <= past
    ensures [past] + (Down(first, past) + rest) == Down(first, past + 1) + rest
  {
  }

  lemma DownIs(first: nat, past: nat, f: nat)
    ensures f in Down(first, past) <==> first <= f < past
  {
  }

  /** The frames from First to Past are those that lie wholly between the two addresses. */
  lemma WholeFrame(vstart: nat, vend: nat, f: nat)
    requires vstart >= KERNBASE
    ensures First(vstart) <= f < Past(vend) <==> vstart <= KERNBASE + f * PGSIZE && KERNBASE + (f + 1) * PGSIZE <= vend
  {
  }

  lemma FreedFrames(vstart: nat, vend: nat)
    requires vstart >= KERNBASE
    ensures forall f: nat :: f in Down(First(vstart), Past(vend)) <==>
              vstart <= KERNBASE + f * PGSIZE && KERNBASE + (f + 1) * PGSIZE <= vend
  {
    forall f: nat ensures f in Down(First(vstart), Past(vend)) <==>
        vstart <= KERNBASE + f * PGSIZE && KERNBASE + (f + 1) * PGSIZE <= vend
    {
      DownIs(First(vstart), Past(vend), f);
      WholeFrame(vstart, vend, f);
    }
  }

  class Allocator {
    const end: nat // physical address of the first byte after the kernel
    const lo: nat := (end + PGSIZE - 1) / PGSIZE
    const hi: nat := PHYSTOP / PGSIZE
    var mem: Mem
    var freelist: nat
    ghost var free: seq<nat>
    ghost var owner: Owner

    ghost predicate ListOk()
      reads this
    {
      |mem| == hi && 0 < lo && Chain(mem, freelist, free)
    }

    ghost predicate Valid()
      reads this
    {
      ListOk() && Partition(owner, free, lo, hi) && Owned(mem, owner)
    }

    /** kfree: panics on an address that is not the start of a frame the allocator may have; otherwise the frame goes to
        the front of the list. The caller must not free a free frame. */
    method Kfree(v: nat) returns (ok: bool)
      requires ListOk() && (v >= KERNBASE ==> (v - KERNBASE) / PGSIZE !in free)
      modifies `mem, `freelist, `free
      ensures ok <==> v % PGSIZE == 0 && v >= KERNBASE && lo <= (v - KERNBASE) / PGSIZE < hi
      ensures !ok ==> unchanged(this)
      ensures ok ==>
                var f := (v - KERNBASE) / PGSIZE; ListOk() && free == [f] + old(free) && mem == old(mem)[f := Run(old(freelist))]
    {
      if v % PGSIZE != 0 || v < KERNBASE + end || v - KERNBASE >= PHYSTOP {
        return false;
      }
      var r := (v - KERNBASE) / PGSIZE;
      ChainStore(mem, freelist, free, r, Run(freelist));
      mem := mem[r := Run(freelist)];
      freelist := r;
      free := [r] + free;
      assert free[1..] == old(free);
      return true;
    }

    /** kalloc: the first frame of the list, held by the caller from now on; 0 exactly when none is free. */
    method Kalloc() returns (r: nat)
      requires Valid()
      modifies `freelist, `free, `owner
      ensures Valid()
      ensures r == 0 <==> old(free) == []
      ensures r == 0 ==> unchanged(this)
      ensures r != 0 ==> old(free) != [] && r == old(free)[0] && r !in old(owner) && lo <= r < hi
      ensures r != 0 ==> free == old(free)[1..] && owner == old(owner)[r := Held]
    {
      r := freelist;
      if r != 0 {
        hide Owned;
        assert r == free[0] && r in free;
        TakeParts(owner, free, lo, hi, Held);
        TakeOwned(mem, owner, r);
        freelist := mem[r].next;
        free := free[1..];
        owner := owner[r := Held];
      }
    }

    /** kfree of a frame the caller holds. */
    method Release(v: nat) returns (ok: bool)
      requires Valid() && v >= KERNBASE && v % PGSIZE == 0
      requires (v - KERNBASE) / PGSIZE in owner && owner[(v - KERNBASE) / PGSIZE] == Held
      modifies `mem, `freelist, `free, `owner
      ensures ok && Valid()
      ensures var f := (v - KERNBASE) / PGSIZE;
              f < |old(mem)| && owner == old(owner) - {f} && free == [f] + old(free) && mem == old(mem)[f := Run(old(freelist))]
    {
      hide Owned;
      ghost var f := (v - KERNBASE) / PGSIZE;
      ok := Kfree(v);
      StoreOwned(old(mem), owner, f, Run(old(freelist)));
      DropOwned(mem, owner, f);
      GiveParts(owner, old(free), lo, hi, f);
      owner := owner - {f};
    }

    /** freerange: every whole frame between the two kernel addresses goes on the list, once. */
    method Freerange(vstart: nat, vend: nat) returns (ok: bool)
      requires Valid() && KERNBASE <= vstart
      requires forall f: nat :: First(vstart) <= f < Past(vend) ==> f in owner && owner[f] == Held
      modifies `mem, `freelist, `free, `owner
      ensures ok && Valid() && free == Down(First(vstart), Past(vend)) + old(free)
      ensures owner == map f | f in old(owner) && !(First(vstart) <= f < Past(vend)) :: old(owner)[f]
      ensures forall f: nat :: f in free <==>
                f in old(free) || (vstart <= KERNBASE + f * PGSIZE && KERNBASE + (f + 1) * PGSIZE <= vend)
    {
      hide Allocator.Valid;
      var p := (vstart + PGSIZE - 1) / PGSIZE * PGSIZE;
      ghost var k := First(vstart);
      ok := true;
      assert Down(First(vstart), k) + free == free;
      while p + PGSIZE <= vend
        invariant ok && Valid() && First(vstart) <= k && p == KERNBASE + k * PGSIZE && (k == First(vstart) || k <= Past(vend))
        invariant free == Down(First(vstart), k) + old(free)
        invariant owner == map f | f in old(owner) && !(First(vstart) <= f < k) :: old(owner)[f]
      {
        ok := Release(p);
        DownMore(First(vstart), k, old(free));
        p, k := p + PGSIZE, k + 1;
      }
      assert Past(vend) <= k;
      FreedFrames(vstart, vend);
    }

    /** At boot the list is empty and all of memory is the kernel's. */
    constructor (end: nat, pages: Mem)
      requires 0 < end <= PHYSTOP && |pages| == PHYSTOP / PGSIZE
      ensures Valid() && this.end == end && free == [] && forall f :: f in owner ==> owner[f] == Held
    {
      this.end := end;
      mem, freelist, free := pages, 0, [];
      ghost var all := Numbers((end + PGSIZE - 1) / PGSIZE, PHYSTOP / PGSIZE);
      owner := map f | f in all :: Held;
    }
  }
}
