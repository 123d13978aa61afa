/** The user-level allocator of src/umalloc.c (Kernighan and Ritchie, section 8.7).

    Addresses count units of sizeof(Header) = 8 bytes. The two fields of every
    header, `s.ptr` and `s.size`, are maps from addresses, updated in place. */
module UMalloc {

  import opened Common

  const HEADER: nat := 8   // sizeof(Header)
  const MINUNITS: nat := 4096

  /** A block: the address of its header and its size in units, header included. */
  datatype Blk = Blk(addr: nat, size: nat) {
    function End(): nat { addr + size }
  }

  predicate Apart(a: Blk, b: Blk) { a.End() <= b.addr || b.End() <= a.addr }

  // ---- The free list as a sequence, lowest address first ------------------------------------------

  /** Ascending, and no two neighbours touch: the list is fully coalesced. */
  ghost predicate Sorted(free: seq<Blk>)
  {
    forall i, j :: 0 <= i < j < |free| ==> free[i].End() < free[j].addr
  }

  ghost predicate ListOk(base: nat, free: seq<Blk>)
  {
    && |free| > 0 && free[0] == Blk(base, 0) && Sorted(free)
    && forall i :: 1 <= i < |free| ==> free[i].size > 0
  }

  function Next(free: seq<Blk>, i: nat): nat
    requires i < |free|
  {
    if i + 1 < |free| then free[i + 1].addr else free[0].addr
  }

  /** The header of block `b` as memory has it. */
  ghost predicate Node(ptr: map<nat, nat>, size: map<nat, nat>, b: Blk, next: nat)
  {
    b.addr in ptr && b.addr in size && ptr[b.addr] == next && size[b.addr] == b.size
  }

  /** The headers in memory form a ring through exactly these blocks. */
  ghost predicate Linked(ptr: map<nat, nat>, size: map<nat, nat>, free: seq<Blk>)
  {
    forall i :: 0 <= i < |free| ==> Node(ptr, size, free[i], Next(free, i))
  }

  /** The place of an address: the last block that starts below it. */
  function Place(free: seq<Blk>, a: nat): (k: nat)
    requires |free| > 0
    ensures k < |free|
  {
    if |free| == 1 || free[|free| - 1].addr < a then |free| - 1 else Place(free[..|free| - 1], a)
  }

  lemma {:induction false} PlaceSplits(free: seq<Blk>, a: nat)
    requires |free| > 0 && Sorted(free) && free[0].addr < a
    ensures forall i :: 0 <= i <= Place(free, a) ==> free[i].addr < a
    ensures forall i :: Place(free, a) < i < |free| ==> a <= free[i].addr
  {
    if |free| > 1 && a <= free[|free| - 1].addr {
      PlaceSplits(free[..|free| - 1], a);
    }
  }

  /** Blocks k+1 up to r are replaced by `mid`, and block k by `left`. */
  function Splice(free: seq<Blk>, k: nat, r: nat, mid: seq<Blk>): seq<Blk>
    requires k < r <= |free|
  {
    free[..k] + mid + free[r..]
  }

  /** How far a freed block reaches into the list: it joins the block that starts at its end. */
  function InsertEnd(free: seq<Blk>, b: Blk): nat
    requires |free| > 0
  {
    var k := Place(free, b.addr);
    if k + 1 < |free| && b.End() == free[k + 1].addr then k + 2 else k + 1
  }

  /** The freed block, joined with its neighbours. */
  function InsertMid(free: seq<Blk>, b: Blk): seq<Blk>
    requires |free| > 0
  {
    var k := Place(free, b.addr);
    var m := if InsertEnd(free, b) == k + 2 then Blk(b.addr, b.size + free[k + 1].size) else b;
    if free[k].End() == b.addr then [Blk(free[k].addr, free[k].size + m.size)] else [free[k], m]
  }

  /** The list after `b` is freed: `b` joins the block that starts at its end and the block that ends at its start. */
  function Insert(free: seq<Blk>, b: Blk): seq<Blk>
    requires |free| > 0
  {
    Splice(free, Place(free, b.addr), InsertEnd(free, b), InsertMid(free, b))
  }

  /** The list after `n` units are cut from the end of block k, which disappears when nothing is left. */
  function Carve(free: seq<Blk>, k: nat, n: nat): seq<Blk>
    requires 0 < k < |free| && n <= free[k].size
  {
    if free[k].size == n then Splice(free, k - 1, k + 1, [free[k - 1]])
    else Splice(free, k, k + 1, [Blk(free[k].addr, free[k].size - n)])
  }

  /** The units cut off. */
  function Cut(free: seq<Blk>, k: nat, n: nat): Blk
    requires k < |free| && n <= free[k].size
  {
    Blk(free[k].End() - n, n)
  }

  function Sum(blocks: seq<Blk>): nat
  {
    if blocks == [] then 0 else blocks[0].size + Sum(blocks[1..])
  }

  lemma {:induction false} SumSplit(a: seq<Blk>, b: seq<Blk>)
    ensures Sum(a + b) == Sum(a) + Sum(b)
  {
    if a == [] {
      assert a + b == b;
    } else {
      assert (a + b)[1..] == a[1..] + b;
      SumSplit(a[1..], b);
    }
  }

  lemma SumSplice(free: seq<Blk>, k: nat, r: nat, mid: seq<Blk>)
    requires k < r <= |free|
    ensures Sum(Splice(free, k, r, mid)) == Sum(free) - Sum(free[k..r]) + Sum(mid)
  {
    assert free == free[..k] + (free[k..r] + free[r..]);
    SumSplit(free[..k], free[k..r] + free[r..]);
    SumSplit(free[k..r], free[r..]);
    assert Splice(free, k, r, mid) == free[..k] + (mid + free[r..]);
    SumSplit(free[..k], mid + free[r..]);
    SumSplit(mid, free[r..]);
  }

  lemma Sum2(a: Blk, b: Blk)
    ensures Sum([a, b]) == a.size + b.size && Sum([a]) == a.size
  {
    assert [b][1..] == [] && [a][1..] == [];
    assert Sum([b]) == b.size;
    assert [a, b][1..] == [b];
  }

  // ---- Freeing: the list stays sorted, coalesced and linked ---------------------------------------

  /** What may stand in for blocks k to r-1: it starts where block k starts and ends before block r. */
  ghost predicate Fits(base: nat, free: seq<Blk>, k: nat, r: nat, mid: seq<Blk>)
  {
    && k < r <= |free| && 1 <= |mid| <= 2
    && mid[0].addr == free[k].addr && (if k == 0 then mid[0] == Blk(base, 0) else mid[0].size > 0)
    && (|mid| == 2 ==> mid[0].End() < mid[1].addr && mid[1].size > 0)
    && (r < |free| ==> mid[|mid| - 1].End() < free[r].addr)
  }

  lemma SpliceAt(free: seq<Blk>, k: nat, r: nat, mid: seq<Blk>, i: nat)
    requires k < r <= |free| && i < |Splice(free, k, r, mid)|
    ensures |Splice(free, k, r, mid)| == k + |mid| + |free| - r
    ensures Splice(free, k, r, mid)[i] ==
            if i < k then free[i] else if i < k + |mid| then mid[i - k] else free[i - k - |mid| + r]
  {
  }

  lemma SpliceOk(base: nat, free: seq<Blk>, k: nat, r: nat, mid: seq<Blk>)
    requires ListOk(base, free) && Fits(base, free, k, r, mid)
    ensures ListOk(base, Splice(free, k, r, mid))
  {
    var s := Splice(free, k, r, mid);
    hide Splice;
    SpliceAt(free, k, r, mid, 0);
    forall i, j | 0 <= i < j < |s| ensures s[i].End() < s[j].addr {
      SpliceAt(free, k, r, mid, i);
      SpliceAt(free, k, r, mid, j);
      SpliceOrdered(base, free, k, r, mid, i, j);
    }
    forall i | 1 <= i < |s| ensures s[i].size > 0 {
      SpliceAt(free, k, r, mid, i);
    }
  }

  lemma SpliceOrdered(base: nat, free: seq<Blk>, k: nat, r: nat, mid: seq<Blk>, i: nat, j: nat)
    requires ListOk(base, free) && Fits(base, free, k, r, mid)
    requires i < j < k + |mid| + |free| - r
    ensures (if i < k then free[i] else if i < k + |mid| then mid[i - k] else free[i - k - |mid| + r]).End()
          < (if j < k then free[j] else if j < k + |mid| then mid[j - k] else free[j - k - |mid| + r]).addr
  {
    assert i < k ==> free[i].End() < free[k].addr;
    if k + |mid| <= j {
      var j' := j - k - |mid| + r;
      assert i < k ==> free[i].End() < free[j'].addr;
      assert r < j' ==> free[r].End() < free[j'].addr;
      assert k + |mid| <= i ==> free[i - k - |mid| + r].End() < free[j'].addr;
    }
  }

  /** The successor of `mid` in the spliced list. */
  function After(free: seq<Blk>, r: nat): nat
    requires 0 < r <= |free|
  {
    if r < |free| then free[r].addr else free[0].addr
  }

  /** The memory links the new part of a spliced list. */
  ghost predicate MidLinked(ptr: map<nat, nat>, size: map<nat, nat>, free: seq<Blk>, r: nat, mid: seq<Blk>)
    requires 0 < r <= |free| && 1 <= |mid| <= 2
  {
    if |mid| == 1 then Node(ptr, size, mid[0], After(free, r))
    else Node(ptr, size, mid[0], mid[1].addr) && Node(ptr, size, mid[1], After(free, r))
  }

  lemma SpliceNext(base: nat, free: seq<Blk>, k: nat, r: nat, mid: seq<Blk>, i: nat)
    requires Fits(base, free, k, r, mid) && i < |Splice(free, k, r, mid)|
    ensures Next(Splice(free, k, r, mid), i) ==
            if i < k then Next(free, i)
            else if i < k + |mid| then (if i == k && |mid| == 2 then mid[1].addr else After(free, r))
            else Next(free, i - k - |mid| + r)
  {
    hide Splice;
    SpliceAt(free, k, r, mid, 0);
    if i + 1 < |Splice(free, k, r, mid)| {
      SpliceAt(free, k, r, mid, i + 1);
    }
  }

  /** Given that memory links the new part and is unchanged at the other blocks, it links the spliced list. */
  lemma SpliceLinked(ptr: map<nat, nat>, size: map<nat, nat>, base: nat, free: seq<Blk>, k: nat, r: nat, mid: seq<Blk>)
    requires Fits(base, free, k, r, mid) && MidLinked(ptr, size, free, r, mid)
    requires forall i :: 0 <= i < |free| && !(k <= i < r) ==> Node(ptr, size, free[i], Next(free, i))
    ensures Linked(ptr, size, Splice(free, k, r, mid))
  {
    var s := Splice(free, k, r, mid);
    hide Splice, Next, Node, After;
    forall i | 0 <= i < |s| ensures Node(ptr, size, s[i], Next(s, i)) {
      SpliceAt(free, k, r, mid, i);
      SpliceNext(base, free, k, r, mid, i);
    }
  }

  /** A block that may be freed: above the base header and clear of every free block. */
  ghost predicate Freeable(base: nat, free: seq<Blk>, b: Blk)
  {
    b.size > 0 && base < b.addr && forall i :: 0 <= i < |free| ==> Apart(free[i], b)
  }

  lemma InsertFits(base: nat, free: seq<Blk>, b: Blk)
    requires ListOk(base, free) && Freeable(base, free, b)
    ensures Fits(base, free, Place(free, b.addr), InsertEnd(free, b), InsertMid(free, b))
    ensures Sum(InsertMid(free, b)) == Sum(free[Place(free, b.addr)..InsertEnd(free, b)]) + b.size
  {
    PlaceSplits(free, b.addr);
    var k, r := Place(free, b.addr), InsertEnd(free, b);
    assert Apart(free[k], b);
    if k + 1 < |free| {
      assert Apart(free[k + 1], b);
      Sum2(free[k], free[k + 1]);
    }
    assert free[k..r] == if r == k + 2 then [free[k], free[k + 1]] else [free[k]];
    Sum2(free[k], b);
    Sum2(InsertMid(free, b)[0], b);
    if |InsertMid(free, b)| == 2 {
      Sum2(free[k], InsertMid(free, b)[1]);
    }
  }

  lemma InsertOk(base: nat, free: seq<Blk>, b: Blk)
    requires ListOk(base, free) && Freeable(base, free, b)
    ensures ListOk(base, Insert(free, b)) && Sum(Insert(free, b)) == Sum(free) + b.size
  {
    InsertFits(base, free, b);
    SpliceOk(base, free, Place(free, b.addr), InsertEnd(free, b), InsertMid(free, b));
    SumSplice(free, Place(free, b.addr), InsertEnd(free, b), InsertMid(free, b));
  }

  // ---- free's two updates of memory ----------------------------------------------------------------

  datatype Mem = Mem(ptr: map<nat, nat>, size: map<nat, nat>)

  ghost predicate Readable(m: Mem, p: nat, bp: nat)
  {
    p in m.ptr && p in m.size && m.ptr[p] in m.ptr && m.ptr[p] in m.size && bp in m.size && p != bp && m.ptr[p] != bp
  }

  /** bp takes over the block that starts at its end, or points to it. */
  ghost function JoinNext(m: Mem, p: nat, bp: nat): Mem
    requires Readable(m, p, bp)
  {
    if bp + m.size[bp] == m.ptr[p]
    then Mem(m.ptr[bp := m.ptr[m.ptr[p]]], m.size[bp := m.size[bp] + m.size[m.ptr[p]]])
    else Mem(m.ptr[bp := m.ptr[p]], m.size)
  }

  /** p takes over bp when bp starts at its end, or points to it. */
  ghost function JoinPrev(m: Mem, p: nat, bp: nat): Mem
    requires p in m.size && bp in m.ptr && bp in m.size
  {
    if p + m.size[p] == bp
    then Mem(m.ptr[p := m.ptr[bp]], m.size[p := m.size[p] + m.size[bp]])
    else Mem(m.ptr[p := bp], m.size)
  }

  ghost function Freed(m: Mem, p: nat, bp: nat): Mem
    requires Readable(m, p, bp)
  {
    JoinPrev(JoinNext(m, p, bp), p, bp)
  }

  lemma FreedElsewhere(m: Mem, p: nat, bp: nat, b: Blk, next: nat)
    requires Readable(m, p, bp) && b.addr != p && b.addr != bp && Node(m.ptr, m.size, b, next)
    ensures Node(Freed(m, p, bp).ptr, Freed(m, p, bp).size, b, next)
  {
  }

  lemma FreedHere(m: Mem, p: nat, bp: nat)
    requires Readable(m, p, bp)
    ensures var m', q := Freed(m, p, bp), m.ptr[p];
            var joined := bp + m.size[bp] == q;
            var units := if joined then m.size[bp] + m.size[q] else m.size[bp];
            var after := if joined then m.ptr[q] else q;
            if p + m.size[p] == bp then Node(m'.ptr, m'.size, Blk(p, m.size[p] + units), after)
            else Node(m'.ptr, m'.size, Blk(p, m.size[p]), bp) && Node(m'.ptr, m'.size, Blk(bp, units), after)
  {
  }

  lemma AddrsDiffer(base: nat, free: seq<Blk>, i: nat, j: nat)
    requires ListOk(base, free) && i < |free| && j < |free| && i != j
    ensures free[i].addr != free[j].addr
  {
    if i < j {
      assert free[i].End() < free[j].addr;
    } else {
      assert free[j].End() < free[i].addr;
    }
  }

  lemma FreedAddrDiffers(base: nat, free: seq<Blk>, b: Blk, i: nat)
    requires ListOk(base, free) && Freeable(base, free, b) && i < |free|
    ensures free[i].addr != b.addr
  {
    assert Apart(free[i], b);
  }

  lemma FreeReadable(m: Mem, base: nat, free: seq<Blk>, b: Blk)
    requires ListOk(base, free) && Linked(m.ptr, m.size, free) && Freeable(base, free, b) && b.addr in m.size
    ensures var k := Place(free, b.addr);
            && Readable(m, free[k].addr, b.addr)
            && m.ptr[free[k].addr] == Next(free, k) && m.size[free[k].addr] == free[k].size
            && (k + 1 < |free| ==> m.ptr[free[k + 1].addr] == Next(free, k + 1) && m.size[free[k + 1].addr] == free[k + 1].size)
  {
    var k := Place(free, b.addr);
    var n := if k + 1 < |free| then k + 1 else 0;
    assert Node(m.ptr, m.size, free[k], Next(free, k)) && Node(m.ptr, m.size, free[n], Next(free, n));
    FreedAddrDiffers(base, free, b, k);
    FreedAddrDiffers(base, free, b, n);
  }

  lemma FreeMidLinked(m: Mem, base: nat, free: seq<Blk>, b: Blk)
    requires ListOk(base, free) && Linked(m.ptr, m.size, free) && Freeable(base, free, b)
    requires b.addr in m.size && m.size[b.addr] == b.size && Readable(m, free[Place(free, b.addr)].addr, b.addr)
    ensures var m' := Freed(m, free[Place(free, b.addr)].addr, b.addr);
            MidLinked(m'.ptr, m'.size, free, InsertEnd(free, b), InsertMid(free, b))
  {
    hide Freed, Node, Linked, Sorted, Place;
    FreeReadable(m, base, free, b);
    FreedHere(m, free[Place(free, b.addr)].addr, b.addr);
  }

  /** After free's updates memory links the list with the freed block inserted. */
  lemma FreeLinks(m: Mem, base: nat, free: seq<Blk>, b: Blk)
    requires ListOk(base, free) && Linked(m.ptr, m.size, free) && Freeable(base, free, b)
    requires b.addr in m.size && m.size[b.addr] == b.size
    ensures var p := free[Place(free, b.addr)].addr;
            && Readable(m, p, b.addr)
            && Linked(Freed(m, p, b.addr).ptr, Freed(m, p, b.addr).size, Insert(free, b))
  {
    hide Freed, Readable, Node, Freeable, Next, Place, InsertEnd, InsertMid, MidLinked, Fits, Sorted;
    FreeReadable(m, base, free, b);
    FreeMidLinked(m, base, free, b);
    InsertFits(base, free, b);
    var k, r := Place(free, b.addr), InsertEnd(free, b);
    var m' := Freed(m, free[k].addr, b.addr);
    forall i | 0 <= i < |free| && !(k <= i < r) ensures Node(m'.ptr, m'.size, free[i], Next(free, i)) {
      AddrsDiffer(base, free, i, k);
      FreedAddrDiffers(base, free, b, i);
      FreedElsewhere(m, free[k].addr, b.addr, free[i], Next(free, i));
    }
    SpliceLinked(m'.ptr, m'.size, base, free, k, r, InsertMid(free, b));
  }

  /** free's scan stops at block k exactly when k is the place of the freed block. */
  lemma ScanStops(base: nat, free: seq<Blk>, b: Blk, k: nat)
    requires ListOk(base, free) && Freeable(base, free, b) && k < |free|
    ensures var p, next := free[k].addr, Next(free, k);
            k == Place(free, b.addr) <==> (p < b.addr < next || (p >= next && (b.addr > p || b.addr < next)))
  {
    PlaceSplits(free, b.addr);
    FreedAddrDiffers(base, free, b, k);
    if k + 1 < |free| {
      assert free[k].End() < free[k + 1].addr;
      FreedAddrDiffers(base, free, b, k + 1);
    }
    assert 0 < k ==> free[0].End() < free[k].addr;
  }

  // ---- The whole heap --------------------------------------------------------------------------------

  ghost predicate Within(b: Blk, arena: set<nat>)
  {
    forall u :: b.addr <= u < b.End() ==> u in arena
  }

  /** Blocks handed out: their headers hold their sizes, and they overlap neither each other nor the free list. */
  ghost predicate UsedOk(size: map<nat, nat>, base: nat, free: seq<Blk>, used: seq<Blk>)
  {
    && (forall j :: 0 <= j < |used| ==>
          used[j].size > 0 && base < used[j].addr && used[j].addr in size && size[used[j].addr] == used[j].size)
    && (forall i, j :: 0 <= i < j < |used| ==> Apart(used[i], used[j]))
    && (forall i, j :: 0 <= i < |free| && 0 <= j < |used| ==> Apart(free[i], used[j]))
  }

  ghost predicate AllWithin(blocks: seq<Blk>, arena: set<nat>)
  {
    forall i :: 0 <= i < |blocks| ==> Within(blocks[i], arena)
  }

  /** Every block lies in memory obtained from sbrk, and free plus used units add up to all of it. */
  ghost predicate HeapOk(m: Mem, base: nat, free: seq<Blk>, used: seq<Blk>, arena: set<nat>)
  {
    && ListOk(base, free) && Linked(m.ptr, m.size, free) && UsedOk(m.size, base, free, used)
    && AllWithin(free, arena) && AllWithin(used, arena) && (forall u :: u in arena ==> base < u)
    && Sum(free) + Sum(used) == |arena|
  }

  function Without(used: seq<Blk>, j: nat): seq<Blk>
    requires j < |used|
  {
    used[..j] + used[j + 1..]
  }

  /** What is clear of the free list and of the freed block is clear of the new list. */
  lemma InsertApart(base: nat, free: seq<Blk>, b: Blk, x: Blk)
    requires ListOk(base, free) && Freeable(base, free, b) && x.size > 0 && Apart(b, x)
    requires forall i :: 0 <= i < |free| ==> Apart(free[i], x)
    ensures forall i :: 0 <= i < |Insert(free, b)| ==> Apart(Insert(free, b)[i], x)
  {
    var k, r, mid := Place(free, b.addr), InsertEnd(free, b), InsertMid(free, b);
    InsertFits(base, free, b);
    assert forall i :: 0 <= i < |mid| ==> Apart(mid[i], x) by {
      assert Apart(free[k], x);
      assert k + 1 < |free| ==> Apart(free[k + 1], x);
    }
    hide Splice, Place, InsertEnd, InsertMid, Apart;
    forall i | 0 <= i < |Insert(free, b)| ensures Apart(Insert(free, b)[i], x) {
      SpliceAt(free, k, r, mid, i);
    }
  }

  lemma InsertWithin(base: nat, free: seq<Blk>, b: Blk, arena: set<nat>)
    requires ListOk(base, free) && Freeable(base, free, b) && AllWithin(free, arena) && Within(b, arena)
    ensures AllWithin(Insert(free, b), arena)
  {
    var k, r, mid := Place(free, b.addr), InsertEnd(free, b), InsertMid(free, b);
    InsertFits(base, free, b);
    assert forall i :: 0 <= i < |mid| ==> Within(mid[i], arena) by {
      assert Within(free[k], arena);
      assert k + 1 < |free| ==> Within(free[k + 1], arena);
    }
    hide Splice, Place, InsertEnd, InsertMid, Within;
    forall i | 0 <= i < |Insert(free, b)| ensures Within(Insert(free, b)[i], arena) {
      SpliceAt(free, k, r, mid, i);
    }
  }

  lemma CarveFits(base: nat, free: seq<Blk>, k: nat, n: nat)
    requires ListOk(base, free) && 0 < k < |free| && 0 < n <= free[k].size
    ensures free[k].size == n ==> Fits(base, free, k - 1, k + 1, [free[k - 1]])
    ensures free[k].size != n ==> Fits(base, free, k, k + 1, [Blk(free[k].addr, free[k].size - n)])
  {
    if k + 1 < |free| {
      assert free[k - 1].End() < free[k + 1].addr && free[k].End() < free[k + 1].addr;
    }
  }

  lemma CarveOk(base: nat, free: seq<Blk>, k: nat, n: nat)
    requires ListOk(base, free) && 0 < k < |free| && 0 < n <= free[k].size
    ensures ListOk(base, Carve(free, k, n))
  {
    hide Splice, ListOk, Fits;
    CarveFits(base, free, k, n);
    if free[k].size == n {
      SpliceOk(base, free, k - 1, k + 1, [free[k - 1]]);
    } else {
      SpliceOk(base, free, k, k + 1, [Blk(free[k].addr, free[k].size - n)]);
    }
  }

  lemma CarveSum(free: seq<Blk>, k: nat, n: nat)
    requires 0 < k < |free| && 0 < n <= free[k].size
    ensures Sum(Carve(free, k, n)) == Sum(free) - n
  {
    hide Splice, Sum;
    if free[k].size == n {
      SumSplice(free, k - 1, k + 1, [free[k - 1]]);
      assert free[k - 1..k + 1] == [free[k - 1], free[k]];
      Sum2(free[k - 1], free[k]);
    } else {
      SumSplice(free, k, k + 1, [Blk(free[k].addr, free[k].size - n)]);
      assert free[k..k + 1] == [free[k]];
      Sum2(free[k], free[k]);
      Sum2(Blk(free[k].addr, free[k].size - n), free[k]);
    }
  }

  /** Carving splits off: the new list's blocks are clear of the cut, and are parts of old blocks. */
  lemma CarveParts(base: nat, free: seq<Blk>, k: nat, n: nat, i: nat)
    requires ListOk(base, free) && 0 < k < |free| && 0 < n <= free[k].size && i < |Carve(free, k, n)|
    ensures var c := Carve(free, k, n)[i];
            && Apart(c, Cut(free, k, n))
            && exists h :: 0 <= h < |free| && free[h].addr <= c.addr && c.End() <= free[h].End()
  {
    hide Splice;
    CarveFits(base, free, k, n);
    var h: nat;
    if free[k].size == n {
      SpliceAt(free, k - 1, k + 1, [free[k - 1]], i);
      h := if i < k then i else i + 1;
    } else {
      SpliceAt(free, k, k + 1, [Blk(free[k].addr, free[k].size - n)], i);
      h := i;
    }
    assert h < k ==> free[h].End() < free[k].addr;
    assert k < h ==> free[k].End() < free[h].addr;
    assert free[h].addr <= Carve(free, k, n)[i].addr && Carve(free, k, n)[i].End() <= free[h].End();
  }

  lemma CarveApart(base: nat, free: seq<Blk>, k: nat, n: nat, x: Blk)
    requires ListOk(base, free) && 0 < k < |free| && 0 < n <= free[k].size
    requires forall i :: 0 <= i < |free| ==> Apart(free[i], x)
    ensures forall i :: 0 <= i < |Carve(free, k, n)| ==> Apart(Carve(free, k, n)[i], x)
    ensures Apart(Cut(free, k, n), x)
  {
    hide Carve, ListOk;
    forall i | 0 <= i < |Carve(free, k, n)| ensures Apart(Carve(free, k, n)[i], x) {
      CarveParts(base, free, k, n, i);
    }
    assert Apart(free[k], x);
  }

  lemma CarveWithin(base: nat, free: seq<Blk>, k: nat, n: nat, arena: set<nat>)
    requires ListOk(base, free) && 0 < k < |free| && 0 < n <= free[k].size && AllWithin(free, arena)
    ensures AllWithin(Carve(free, k, n), arena) && Within(Cut(free, k, n), arena)
  {
    hide Carve, ListOk;
    forall i | 0 <= i < |Carve(free, k, n)| ensures Within(Carve(free, k, n)[i], arena) {
      CarveParts(base, free, k, n, i);
      var h :| 0 <= h < |free| && free[h].addr <= Carve(free, k, n)[i].addr && Carve(free, k, n)[i].End() <= free[h].End();
      assert Within(free[h], arena);
    }
    assert Within(free[k], arena);
  }

  /** Freeing block `b`, which no list owns any more, keeps the heap in order. */
  lemma InsertKeepsHeap(m: Mem, base: nat, free: seq<Blk>, used: seq<Blk>, arena: set<nat>, b: Blk)
    requires ListOk(base, free) && Linked(m.ptr, m.size, free) && UsedOk(m.size, base, free, used)
    requires AllWithin(free, arena) && AllWithin(used, arena) && (forall u :: u in arena ==> base < u)
    requires Freeable(base, free, b) && b.addr in m.size && m.size[b.addr] == b.size && Within(b, arena)
    requires forall j :: 0 <= j < |used| ==> Apart(b, used[j])
    requires Sum(free) + b.size + Sum(used) == |arena|
    ensures Readable(m, free[Place(free, b.addr)].addr, b.addr)
    ensures HeapOk(Freed(m, free[Place(free, b.addr)].addr, b.addr), base, Insert(free, b), used, arena)
  {
    FreeLinks(m, base, free, b);
    InsertOk(base, free, b);
    InsertWithin(base, free, b, arena);
    InsertUsed(m, base, free, used, b);
    hide Insert, ListOk, Linked, AllWithin, Place, Freeable, UsedOk, Readable, Freed, Sum;
  }

  lemma InsertUsed(m: Mem, base: nat, free: seq<Blk>, used: seq<Blk>, b: Blk)
    requires ListOk(base, free) && UsedOk(m.size, base, free, used) && Freeable(base, free, b)
    requires forall j :: 0 <= j < |used| ==> Apart(b, used[j])
    requires Readable(m, free[Place(free, b.addr)].addr, b.addr)
    ensures UsedOk(Freed(m, free[Place(free, b.addr)].addr, b.addr).size, base, Insert(free, b), used)
  {
    hide Insert, ListOk, Place;
    var k := Place(free, b.addr);
    var m' := Freed(m, free[k].addr, b.addr);
    forall j | 0 <= j < |used|
      ensures used[j].addr in m'.size && m'.size[used[j].addr] == used[j].size
      ensures forall i :: 0 <= i < |Insert(free, b)| ==> Apart(Insert(free, b)[i], used[j])
    {
      UsedAddrDiffers(base, free, used, k, j);
      InsertApart(base, free, b, used[j]);
    }
  }

  lemma UsedAddrDiffers(base: nat, free: seq<Blk>, used: seq<Blk>, i: nat, j: nat)
    requires ListOk(base, free) && i < |free| && j < |used|
    requires used[j].size > 0 && base < used[j].addr && Apart(free[i], used[j])
    ensures free[i].addr != used[j].addr
  {
  }

  /** Memory after malloc has cut `n` units from block k, whose predecessor is block k-1. */
  ghost function Carved(m: Mem, free: seq<Blk>, k: nat, n: nat): Mem
    requires 0 < k < |free| && 0 < n <= free[k].size && free[k].addr in m.ptr
  {
    if free[k].size == n then Mem(m.ptr[free[k - 1].addr := m.ptr[free[k].addr]], m.size)
    else Mem(m.ptr, m.size[free[k].addr := free[k].size - n][free[k].End() - n := n])
  }

  lemma CarveLinked(m: Mem, base: nat, free: seq<Blk>, k: nat, n: nat)
    requires ListOk(base, free) && Linked(m.ptr, m.size, free) && 0 < k < |free| && 0 < n <= free[k].size
    ensures Node(m.ptr, m.size, free[k], Next(free, k))
    ensures Linked(Carved(m, free, k, n).ptr, Carved(m, free, k, n).size, Carve(free, k, n))
  {
    CarveMid(m, base, free, k, n);
    CarveFits(base, free, k, n);
    hide Splice, Fits, ListOk, Linked, Node, Next, MidLinked;
    var m' := Carved(m, free, k, n);
    if free[k].size == n {
      UnlinkElsewhere(m, base, free, k);
      SpliceLinked(m'.ptr, m'.size, base, free, k - 1, k + 1, [free[k - 1]]);
    } else {
      CarveElsewhere(m, base, free, k, n);
      SpliceLinked(m'.ptr, m'.size, base, free, k, k + 1, [Blk(free[k].addr, free[k].size - n)]);
    }
  }

  lemma CarveMid(m: Mem, base: nat, free: seq<Blk>, k: nat, n: nat)
    requires ListOk(base, free) && Linked(m.ptr, m.size, free) && 0 < k < |free| && 0 < n <= free[k].size
    ensures Node(m.ptr, m.size, free[k], Next(free, k))
    ensures var m' := Carved(m, free, k, n);
            if free[k].size == n then MidLinked(m'.ptr, m'.size, free, k + 1, [free[k - 1]])
            else MidLinked(m'.ptr, m'.size, free, k + 1, [Blk(free[k].addr, free[k].size - n)])
  {
    assert Node(m.ptr, m.size, free[k], Next(free, k)) && Node(m.ptr, m.size, free[k - 1], Next(free, k - 1));
  }

  lemma UnlinkElsewhere(m: Mem, base: nat, free: seq<Blk>, k: nat)
    requires ListOk(base, free) && Linked(m.ptr, m.size, free) && 0 < k < |free| && free[k].addr in m.ptr
    ensures forall i :: 0 <= i < |free| && i != k - 1 ==>
              Node(m.ptr[free[k - 1].addr := m.ptr[free[k].addr]], m.size, free[i], Next(free, i))
  {
    forall i | 0 <= i < |free| && i != k - 1
      ensures Node(m.ptr[free[k - 1].addr := m.ptr[free[k].addr]], m.size, free[i], Next(free, i))
    {
      assert Node(m.ptr, m.size, free[i], Next(free, i));
      AddrsDiffer(base, free, i, k - 1);
    }
  }

  lemma CarveElsewhere(m: Mem, base: nat, free: seq<Blk>, k: nat, n: nat)
    requires ListOk(base, free) && Linked(m.ptr, m.size, free) && 0 < k < |free| && 0 < n < free[k].size
    requires free[k].addr in m.ptr
    ensures forall i :: 0 <= i < |free| && i != k ==>
            Node(Carved(m, free, k, n).ptr, Carved(m, free, k, n).size, free[i], Next(free, i))
  {
    var m' := Carved(m, free, k, n);
    forall i | 0 <= i < |free| && i != k ensures Node(m'.ptr, m'.size, free[i], Next(free, i)) {
      assert Node(m.ptr, m.size, free[i], Next(free, i));
      assert if i < k then free[i].End() < free[k].addr else free[k].End() < free[i].addr;
    }
  }

  /** Handing out the cut keeps the heap in order. */
  lemma CarveKeepsHeap(m: Mem, base: nat, free: seq<Blk>, used: seq<Blk>, arena: set<nat>, k: nat, n: nat)
    requires HeapOk(m, base, free, used, arena) && 0 < k < |free| && 0 < n <= free[k].size
    ensures Node(m.ptr, m.size, free[k], Next(free, k))
    ensures HeapOk(Carved(m, free, k, n), base, Carve(free, k, n), used + [Cut(free, k, n)], arena)
  {
    CarveLinked(m, base, free, k, n);
    CarveOk(base, free, k, n);
    CarveSum(free, k, n);
    CarveWithin(base, free, k, n, arena);
    SumSplit(used, [Cut(free, k, n)]);
    Sum2(Cut(free, k, n), Cut(free, k, n));
    CarveUsed(m, base, free, used, k, n);
  }

  lemma CarveUsed(m: Mem, base: nat, free: seq<Blk>, used: seq<Blk>, k: nat, n: nat)
    requires ListOk(base, free) && UsedOk(m.size, base, free, used) && 0 < k < |free| && 0 < n <= free[k].size
    requires Node(m.ptr, m.size, free[k], Next(free, k))
    ensures UsedOk(Carved(m, free, k, n).size, base, Carve(free, k, n), used + [Cut(free, k, n)])
  {
    var m', cut := Carved(m, free, k, n), Cut(free, k, n);
    assert free[0].End() < free[k].addr;
    forall j | 0 <= j < |used|
      ensures used[j].addr in m'.size && m'.size[used[j].addr] == used[j].size && Apart(used[j], cut)
      ensures forall i :: 0 <= i < |Carve(free, k, n)| ==> Apart(Carve(free, k, n)[i], used[j])
    {
      CarveApart(base, free, k, n, used[j]);
      UsedAddrDiffers(base, free, used, k, j);
    }
    forall i | 0 <= i < |Carve(free, k, n)| ensures Apart(Carve(free, k, n)[i], cut) {
      CarveParts(base, free, k, n, i);
    }
  }

  lemma {:induction false} SumWithout(used: seq<Blk>, j: nat)
    requires j < |used|
    ensures Sum(Without(used, j)) == Sum(used) - used[j].size
  {
    assert used == used[..j] + ([used[j]] + used[j + 1..]);
    SumSplit(used[..j], [used[j]] + used[j + 1..]);
    SumSplit([used[j]], used[j + 1..]);
    Sum2(used[j], used[j]);
    SumSplit(used[..j], used[j + 1..]);
  }

  lemma WithoutAt(used: seq<Blk>, j: nat, i: nat)
    requires j < |used| && i < |used| - 1
    ensures |Without(used, j)| == |used| - 1 && Without(used, j)[i] == used[if i < j then i else i + 1]
  {
  }

  lemma UsedWithout(size: map<nat, nat>, base: nat, free: seq<Blk>, used: seq<Blk>, j: nat)
    requires UsedOk(size, base, free, used) && j < |used|
    ensures UsedOk(size, base, free, Without(used, j))
    ensures forall i :: 0 <= i < |Without(used, j)| ==> Apart(used[j], Without(used, j)[i])
  {
    var rest := Without(used, j);
    assert |rest| == |used| - 1;
    hide Without, Apart;
    forall i | 0 <= i < |rest| ensures rest[i] == used[if i < j then i else i + 1] {
      WithoutAt(used, j, i);
    }
    forall i | 0 <= i < |rest| ensures Apart(used[j], rest[i]) {
      ApartSym(used[i], used[j]);
    }
  }

  lemma ApartSym(a: Blk, b: Blk)
    ensures Apart(a, b) == Apart(b, a)
  {
  }

  /** A used block that is taken off the books may be freed. */
  lemma TakeOff(m: Mem, base: nat, free: seq<Blk>, used: seq<Blk>, arena: set<nat>, j: nat)
    requires HeapOk(m, base, free, used, arena) && j < |used|
    ensures var b, rest := used[j], Without(used, j);
            && UsedOk(m.size, base, free, rest) && AllWithin(rest, arena) && Freeable(base, free, b)
            && b.addr in m.size && m.size[b.addr] == b.size && Within(b, arena)
            && (forall i :: 0 <= i < |rest| ==> Apart(b, rest[i]))
            && Sum(free) + b.size + Sum(rest) == |arena|
  {
    SumWithout(used, j);
    UsedWithout(m.size, base, free, used, j);
    assert Freeable(base, free, used[j]);
    var rest := Without(used, j);
    assert |rest| == |used| - 1;
    hide Without, ListOk, Linked, Within, Sum, UsedOk, Freeable, Apart;
    forall i | 0 <= i < |rest| ensures Within(rest[i], arena) {
      WithoutAt(used, j, i);
    }
  }

  function Span(a: nat, n: nat): (r: set<nat>)
    ensures forall u :: u in r <==> a <= u < a + n
    ensures |r| == n
  {
    if n == 0 then {} else Span(a, n - 1) + {a + n - 1}
  }

  /** Memory that sbrk just handed out: above the program's data and never handed out before. */
  ghost predicate NewMemory(base: nat, arena: set<nat>, a: nat, n: nat)
  {
    base < a && forall u :: a <= u < a + n ==> u !in arena
  }

  lemma NewBlockApart(b: Blk, x: Blk, base: nat, arena: set<nat>)
    requires NewMemory(base, arena, b.addr, b.size) && Within(x, arena) && b.size > 0 && x.size > 0
    ensures Apart(b, x) && Apart(x, b)
  {
    var u := if b.addr <= x.addr then x.addr else b.addr;
    assert x.addr <= u < x.End() ==> u in arena;
    assert b.addr <= u < b.End() ==> u !in arena;
  }

  lemma NewBlockFreeable(m: Mem, base: nat, free: seq<Blk>, used: seq<Blk>, arena: set<nat>, b: Blk)
    requires HeapOk(m, base, free, used, arena) && NewMemory(base, arena, b.addr, b.size) && b.size > 0
    ensures Freeable(base, free, b) && forall j :: 0 <= j < |used| ==> Apart(b, used[j])
    ensures var arena' := arena + Span(b.addr, b.size);
            && AllWithin(free, arena') && AllWithin(used, arena') && Within(b, arena')
            && (forall u :: u in arena' ==> base < u) && |arena'| == |arena| + b.size
  {
    assert arena !! Span(b.addr, b.size);
    forall i | 0 <= i < |free| ensures Apart(free[i], b) {
      if i > 0 {
        NewBlockApart(b, free[i], base, arena);
      }
    }
    forall j | 0 <= j < |used| ensures Apart(b, used[j]) {
      NewBlockApart(b, used[j], base, arena);
    }
  }

  /** Writing a new block's header touches nobody else's. */
  lemma NewHeader(m: Mem, base: nat, free: seq<Blk>, used: seq<Blk>, b: Blk)
    requires ListOk(base, free) && Linked(m.ptr, m.size, free) && UsedOk(m.size, base, free, used)
    requires Freeable(base, free, b) && forall j :: 0 <= j < |used| ==> Apart(b, used[j])
    ensures Linked(m.ptr, m.size[b.addr := b.size], free) && UsedOk(m.size[b.addr := b.size], base, free, used)
  {
    forall i | 0 <= i < |free| ensures Node(m.ptr, m.size[b.addr := b.size], free[i], Next(free, i)) {
      assert Node(m.ptr, m.size, free[i], Next(free, i));
      FreedAddrDiffers(base, free, b, i);
    }
  }

  // ---- malloc's scan ---------------------------------------------------------------------------------

  /** nunits: room for the bytes asked for, and one unit for the header */
  function UnitsFor(nbytes: nat): (n: nat)
    ensures n > 0 && (n - 1) * HEADER >= nbytes && (n - 1) * HEADER < nbytes + HEADER
  {
    (nbytes + HEADER - 1) / HEADER + 1
  }

  /** What morecore asks of sbrk. */
  function CoreUnits(nunits: nat): (n: nat)
    ensures n >= 4096 && n >= nunits && (n == 4096 || n == nunits)
  {
    if nunits < MINUNITS then MINUNITS else nunits
  }

  /** The index d places further round a ring of n. */
  function Ahead(f: nat, d: nat, n: nat): nat { if f + d < n then f + d else f + d - n }

  ghost predicate TooSmall(free: seq<Blk>, f: nat, d: nat, n: nat)
    requires f < |free|
  {
    forall e :: 1 <= e < d && e <= |free| ==> free[Ahead(f, e, |free|)].size < n
  }

  /** Block k is the first one, going round from block f, that has n units. */
  ghost predicate NextFit(free: seq<Blk>, f: nat, k: nat, n: nat)
  {
    && f < |free| && k < |free| && free[k].size >= n
    && exists d :: 1 <= d <= |free| && k == Ahead(f, d, |free|) && TooSmall(free, f, d, n)
  }

  ghost predicate NoFit(free: seq<Blk>, n: nat)
  {
    forall i :: 0 <= i < |free| ==> free[i].size < n
  }

  /** A whole turn that finds nothing has seen every block. */
  lemma WholeTurn(free: seq<Blk>, f: nat, n: nat)
    requires f < |free| && TooSmall(free, f, |free| + 1, n)
    ensures NoFit(free, n)
  {
    forall i | 0 <= i < |free| ensures free[i].size < n {
      var e := if f < i then i - f else |free| - f + i;
      assert i == Ahead(f, e, |free|);
    }
  }

  /** The block that holds a freed block is at least as large. */
  lemma InsertHasRoom(base: nat, free: seq<Blk>, b: Blk)
    requires ListOk(base, free) && Freeable(base, free, b)
    ensures !NoFit(Insert(free, b), b.size)
    ensures |Insert(free, b)| > Place(free, b.addr) && Insert(free, b)[Place(free, b.addr)].addr == free[Place(free, b.addr)].addr
  {
    InsertFits(base, free, b);
    var k, r, mid := Place(free, b.addr), InsertEnd(free, b), InsertMid(free, b);
    assert mid[|mid| - 1].size >= b.size;
    assert |Splice(free, k, r, mid)| >= k + |mid|;
    SpliceAt(free, k, r, mid, k);
    SpliceAt(free, k, r, mid, k + |mid| - 1);
  }

  class Heap {
    const base: nat // &base, below everything sbrk hands out
    var freep: nat  // 0 until the first malloc
    var ptr: map<nat, nat>
    var size: map<nat, nat>

    ghost var free: seq<Blk>    // the free list, lowest address first, starting with base
    ghost var used: seq<Blk>    // what malloc has handed out and free has not taken back
    ghost var arena: set<nat>   // every unit obtained from sbrk

    ghost predicate Valid()
      reads this
    {
      && base > 0
      && if freep == 0 then free == [] && used == [] && arena == {}
         else HeapOk(Mem(ptr, size), base, free, used, arena) && OnList(freep)
    }

    ghost predicate OnList(a: nat)
      reads this
    {
      exists k :: 0 <= k < |free| && free[k].addr == a
    }

    constructor (base: nat)
      requires base > 0
      ensures Valid() && this.base == base && used == [] && arena == {} && freep == 0
    {
      this.base := base;
      freep := 0;
      ptr, size := map[], map[];
      free, used, arena := [], [], {};
    }

    /** free's scan: it ends, and ends at the last free block below `bp`. */
    method FindPlace(bp: nat, ghost b: Blk) returns (p: nat)
      requires OnList(freep) && bp == b.addr && Freeable(base, free, b)
      requires ListOk(base, free) && Linked(ptr, size, free)
      ensures p == free[Place(free, b.addr)].addr
    {
      hide Place, Freeable, Next, ListOk;
      p := freep;
      ghost var k :| 0 <= k < |free| && free[k].addr == p;
      ghost var t, n := Place(free, b.addr), |free|;
      while true
        invariant 0 <= k < n && p == free[k].addr && t < n
        decreases if k <= t then t - k else n - k + t
      {
        assert Node(ptr, size, free[k], Next(free, k));
        ScanStops(base, free, b, k);
        if bp > p && bp < ptr[p] {
          break;
        }
        if p >= ptr[p] && (bp > p || bp < ptr[p]) {
          break;
        }
        NextIs(free, k);
        k := if k + 1 < n then k + 1 else 0;
        p := ptr[p];
      }
    }

    /** free, from the header `bp` of a block that nobody uses any more: both joins are made, and the list is
        sorted, coalesced and circular again. */
    method FreeHeader(bp: nat, ghost b: Blk)
      requires freep != 0 && OnList(freep) && bp == b.addr && Freeable(base, free, b)
      requires ListOk(base, free) && Linked(ptr, size, free) && bp in size && size[bp] == b.size
      modifies this`freep, this`ptr, this`size, this`free
      ensures free == Insert(old(free), b) && freep == old(free)[Place(old(free), b.addr)].addr
      ensures Readable(Mem(old(ptr), old(size)), freep, bp)
      ensures Mem(ptr, size) == Freed(Mem(old(ptr), old(size)), freep, bp)
    {
      hide Place, Freeable, Next, ListOk, Linked, Insert;
      FreeLinks(Mem(ptr, size), base, free, b);
      var p := FindPlace(bp, b);
      if bp + size[bp] == ptr[p] {
        size := size[bp := size[bp] + size[ptr[p]]];
        ptr := ptr[bp := ptr[ptr[p]]];
      } else {
        ptr := ptr[bp := ptr[p]];
      }
      if p + size[p] == bp {
        size := size[p := size[p] + size[bp]];
        ptr := ptr[p := ptr[bp]];
      } else {
        ptr := ptr[p := bp];
      }
      freep := p;
      free := Insert(free, b);
    }

    /** free(ap): the block goes back to the free list, and nothing else changes hands. */
    method Free(ap: nat)
      requires Valid() && exists j :: 0 <= j < |used| && used[j].addr + 1 == ap
      modifies this
      ensures Valid() && freep != 0 && arena == old(arena)
      ensures exists j :: 0 <= j < |old(used)| && old(used)[j].addr + 1 == ap
                && used == Without(old(used), j) && free == Insert(old(free), old(used)[j])
      ensures LastBelow(old(free), ap - 1, freep)
    {
      hide ListOk, Linked, UsedOk, AllWithin, Within, Sum, Freeable, Apart, Freed, Insert, Place, Without, Readable;
      ghost var j :| 0 <= j < |used| && used[j].addr + 1 == ap;
      ghost var b := used[j];
      TakeOff(Mem(ptr, size), base, free, used, arena, j);
      used := Without(used, j);
      InsertKeepsHeap(Mem(ptr, size), base, free, used, arena, b);
      InsertHasRoom(base, free, b);
      PlaceIsLastBelow(base, free, b);
      FreeHeader(ap - 1, b);
      assert OnList(freep);
      AddrPositive(base, free, freep);
    }

    /** morecore: asks for `nu` units or 4096, whichever is more. `brk` is sbrk's answer, None for -1. */
    method MoreCore(nunits: nat, brk: Option<nat>) returns (p: nat)
      requires Valid() && freep != 0 && nunits > 0
      requires brk.Some? ==> NewMemory(base, arena, brk.value, CoreUnits(nunits))
      modifies this
      ensures Valid() && freep != 0 && used == old(used)
      ensures p == 0 <==> brk == None
      ensures brk == None ==> free == old(free) && arena == old(arena) && freep == old(freep)
      ensures brk.Some? ==> && p == freep && free == Insert(old(free), Blk(brk.value, CoreUnits(nunits)))
                            && arena == old(arena) + Span(brk.value, CoreUnits(nunits))
                            && freep == old(free)[Place(old(free), brk.value)].addr && !NoFit(free, nunits)
    {
      hide ListOk, Linked, UsedOk, AllWithin, Within, Sum, Freeable, Apart, Freed, Insert, Place, Readable, NewMemory, Span;
      var nu := if nunits < 4096 then 4096 else nunits;
      if brk == None {
        return 0;
      }
      var hp := brk.value;
      ghost var b := Blk(hp, nu);
      NewBlockFreeable(Mem(ptr, size), base, free, used, arena, b);
      NewHeader(Mem(ptr, size), base, free, used, b);
      arena := arena + Span(hp, nu);
      size := size[hp := nu];
      InsertKeepsHeap(Mem(ptr, size), base, free, used, arena, b);
      InsertHasRoom(base, free, b);
      FreeHeader(hp, b);
      assert OnList(freep);
      AddrPositive(base, free, freep);
      p := freep;
    }

    /** The program may write what it likes behind the header of a block it was given. */
    method UserWrites(u: nat, p: nat, n: nat)
      requires Valid() && exists j :: 0 <= j < |used| && used[j].addr < u < used[j].End()
      modifies this`ptr, this`size
      ensures Valid()
    {
      ghost var j :| 0 <= j < |used| && used[j].addr < u < used[j].End();
      PayloadIsQuiet(Mem(ptr, size), base, free, used, j, u, p, n);
      hide HeapOk;
      ptr := ptr[u := p];
      size := size[u := n];
    }

    /** malloc's last step: unlink block k, or cut its tail off, and remember its predecessor. */
    method Take(prevp: nat, p: nat, nunits: nat, ghost k: nat) returns (ap: nat)
      requires Valid() && freep != 0 && 0 < k < |free| && nunits > 0
      requires p == free[k].addr && prevp == free[k - 1].addr && free[k].size >= nunits
      modifies this
      ensures Valid() && freep == prevp && arena == old(arena)
      ensures free == Carve(old(free), k, nunits) && ap == Cut(old(free), k, nunits).addr + 1
      ensures used == old(used) + [Blk(ap - 1, nunits)]
    {
      hide ListOk, Linked, UsedOk, AllWithin, Within, Sum, Carve, Next;
      CarveKeepsHeap(Mem(ptr, size), base, free, used, arena, k, nunits);
      CarveKeepsPrev(free, k, nunits);
      AddrPositive(base, free, prevp);
      var q := p;
      if size[q] == nunits {
        ptr := ptr[prevp := ptr[q]];
      } else {
        size := size[q := size[q] - nunits];
        q := q + size[q];
        size := size[q := nunits];
      }
      freep := prevp;
      used := used + [Cut(free, k, nunits)];
      free := Carve(free, k, nunits);
      assert free[k - 1].addr == freep;
      return q + 1;
    }

    lemma NodeAt(k: nat)
      requires Valid() && freep != 0 && k < |free|
      ensures Node(ptr, size, free[k], Next(free, k)) && ListOk(base, free)
    {
    }

    /** malloc's first step: before anything else the ring is the empty base block alone. */
    method Start()
      requires Valid()
      modifies this
      ensures Valid() && used == old(used) && arena == old(arena)
      ensures freep == StartAddr(base, old(freep)) && free == StartList(base, old(freep), old(free)) && freep != 0
    {
      if freep == 0 {
        ptr := ptr[base := base];
        freep := base;
        size := size[base := 0];
        free := [Blk(base, 0)];
        EmptyHeap(Mem(ptr, size), base);
        assert free[0].addr == freep;
      }
    }

    /** malloc's scan from freep once round the ring: the first block that is large enough, and its predecessor. */
    method Turn(nunits: nat) returns (fits: bool, prevp: nat, p: nat, ghost f: nat, ghost k: nat)
      requires Valid() && freep != 0 && nunits > 0
      ensures f < |free| && free[f].addr == freep
      ensures fits ==> 0 < k && NextFit(free, f, k, nunits) && p == free[k].addr && prevp == free[k - 1].addr
      ensures fits <==> !NoFit(free, nunits)
    {
      hide HeapOk, ListOk, Next, Ahead, TooSmall, NoFit;
      f :| 0 <= f < |free| && free[f].addr == freep;
      k := f;
      ghost var d := 0;
      TurnBegins(free, f, nunits);
      prevp := freep;
      NodeAt(f);
      NextAhead(free, f, 0);
      p := ptr[prevp];
      d := 1;
      while true
        invariant 1 <= d <= |free| && Ahead(f, d, |free|) < |free| && Ahead(f, d - 1, |free|) < |free|
        invariant p == free[Ahead(f, d, |free|)].addr && prevp == free[Ahead(f, d - 1, |free|)].addr
        invariant TooSmall(free, f, d, nunits)
        decreases |free| - d
      {
        NodeAt(Ahead(f, d, |free|));
        if size[p] >= nunits {
          FitIsNotBase(base, free, f, d, nunits);
          k := Ahead(f, d, |free|);
          HasFit(free, k, nunits);
          return true, prevp, p, f, k;
        }
        TurnGoesOn(free, f, d, nunits);
        if p == freep {
          AheadOnce(base, free, f, d);
          WholeTurn(free, f, nunits);
          return false, prevp, p, f, k;
        }
        NotBackYet(free, f, d);
        NextAhead(free, f, d);
        prevp := p;
        p := ptr[p];
        d := d + 1;
      }
    }

    /** malloc(nbytes): NULL only if no free block is large enough and sbrk refuses; otherwise a block with
        room for nbytes, taken from the first free block, going round from freep, that is large enough.
        sbrk is asked at most once, and only when nothing fits. */
    method Malloc(nbytes: nat, brk: Option<nat>) returns (ap: nat, calls: nat)
      requires Valid()
      requires brk.Some? ==> NewMemory(base, arena, brk.value, CoreUnits(UnitsFor(nbytes)))
      modifies this
      ensures Valid() && calls <= 1
      ensures calls == 1 <==> NoFit(StartList(base, old(freep), old(free)), UnitsFor(nbytes))
      ensures ap == 0 <==> calls == 1 && brk == None
      ensures ap == 0 ==> && free == StartList(base, old(freep), old(free)) && used == old(used) && arena == old(arena)
                          && freep == StartAddr(base, old(freep))
      ensures ap != 0 ==> used == old(used) + [Blk(ap - 1, UnitsFor(nbytes))]
      ensures calls == 0 ==> arena == old(arena)
      ensures calls == 0 ==>
                Took(StartList(base, old(freep), old(free)), StartAddr(base, old(freep)), UnitsFor(nbytes), free, ap, freep)
      ensures calls == 1 && ap != 0 ==>
                var before, b := StartList(base, old(freep), old(free)), Blk(brk.value, CoreUnits(UnitsFor(nbytes)));
                && arena == old(arena) + Span(b.addr, b.size)
                && Took(Insert(before, b), before[Place(before, b.addr)].addr, UnitsFor(nbytes), free, ap, freep)
    {
      hide HeapOk, ListOk, Insert, Place, NewMemory, Span, NoFit, Took, StartList;
      var nunits := (nbytes + HEADER - 1) / HEADER + 1;
      calls := 0;
      Start();
      ghost var before := free;
      while true
        invariant Valid() && freep != 0 && used == old(used) && calls <= 1
        invariant calls == 0 ==> free == before && arena == old(arena) && freep == StartAddr(base, old(freep))
        invariant calls == 1 ==> && NoFit(before, nunits) && brk.Some? && !NoFit(free, nunits)
                                 && free == Insert(before, Blk(brk.value, CoreUnits(nunits)))
                                 && freep == before[Place(before, brk.value)].addr
                                 && arena == old(arena) + Span(brk.value, CoreUnits(nunits))
        decreases 1 - calls
      {
        var fits, prevp, p, f, k := Turn(nunits);
        if fits {
          ghost var list, start := free, freep;
          ap := Take(prevp, p, nunits, k);
          TookIt(list, start, nunits, free, ap, freep, f, k);
          return;
        }
        calls := calls + 1;
        p := MoreCore(nunits, brk);
        if p == 0 {
          ap := 0;
          return;
        }
      }
    }
  }

  /** The free list and freep as malloc first looks at them. */
  function StartList(base: nat, freep: nat, free: seq<Blk>): (r: seq<Blk>)
    ensures freep != 0 ==> r == free
  {
    if freep == 0 then [Blk(base, 0)] else free
  }

  function StartAddr(base: nat, freep: nat): nat { if freep == 0 then base else freep }

  /** `ap` and `free` come from `list` by cutting n units off the end of the next fit after the block at address `start`, and
      `freep` is the block before that one. */
  ghost predicate Took(list: seq<Blk>, start: nat, n: nat, free: seq<Blk>, ap: nat, freep: nat)
  {
    exists f: nat, k: nat :: TookAt(list, start, n, free, ap, freep, f, k)
  }

  ghost predicate TookAt(list: seq<Blk>, start: nat, n: nat, free: seq<Blk>, ap: nat, freep: nat, f: nat, k: nat)
  {
    && f < |list| && list[f].addr == start && 0 < k < |list| && n <= list[k].size && NextFit(list, f, k, n)
    && free == Carve(list, k, n) && ap == list[k].End() - n + 1 && freep == list[k - 1].addr
  }

  lemma TookIt(list: seq<Blk>, start: nat, n: nat, free: seq<Blk>, ap: nat, freep: nat, f: nat, k: nat)
    requires f < |list| && list[f].addr == start && 0 < k && NextFit(list, f, k, n)
    requires free == Carve(list, k, n) && ap == Cut(list, k, n).addr + 1 && freep == list[k - 1].addr
    ensures Took(list, start, n, free, ap, freep)
  {
    assert TookAt(list, start, n, free, ap, freep, f, k);
  }

  /** The block that was cut keeps its address and loses n units; it goes if it has no more. No other block changes. */
  lemma CarveIs(free: seq<Blk>, k: nat, n: nat)
    requires 0 < k < |free| && n <= free[k].size
    ensures Carve(free, k, n) ==
            if free[k].size == n then free[..k] + free[k + 1..] else free[k := Blk(free[k].addr, free[k].size - n)]
  {
    assert free[..k] == free[..k - 1] + [free[k - 1]];
  }

  /** Two calls of malloc in a row, for n and n2 units: the second scan begins at the block behind the freep of the first. So
      if the block that was cut has room for both, the second piece lies just below the first. */
  lemma SecondScan(base: nat, list: seq<Blk>, start: nat, n: nat, free: seq<Blk>, ap: nat, freep: nat, n2: nat, free2: seq<Blk>,
                   ap2: nat, freep2: nat)
    requires ListOk(base, free) && n > 0 && n2 > 0
    requires Took(list, start, n, free, ap, freep) && Took(free, freep, n2, free2, ap2, freep2)
    ensures exists k: nat, k2: nat :: Follows(list, n, free, ap, freep, n2, ap2, freep2, k, k2)
  {
    hide TookAt, ListOk, Follows;
    var f: nat, k: nat :| TookAt(list, start, n, free, ap, freep, f, k);
    var f2: nat, k2: nat :| TookAt(free, freep, n2, free2, ap2, freep2, f2, k2);
    SecondScanAt(base, list, start, n, free, ap, freep, n2, free2, ap2, freep2, f, k, f2, k2);
  }

  /** The first call cut block k. The second went round from the block before it to block k2. */
  ghost predicate Follows(list: seq<Blk>, n: nat, free: seq<Blk>, ap: nat, freep: nat, n2: nat, ap2: nat, freep2: nat, k: nat,
                          k2: nat)
  {
    && 0 < k < |list| && ap == list[k].End() - n + 1 && k - 1 < |free| && free[k - 1] == list[k - 1]
    && NextFit(free, k - 1, k2, n2) && ap2 == free[k2].End() - n2 + 1
    && (list[k].size >= n + n2 ==> ap2 + n2 == ap && freep2 == freep)
  }

  lemma SecondScanAt(base: nat, list: seq<Blk>, start: nat, n: nat, free: seq<Blk>, ap: nat, freep: nat, n2: nat,
                     free2: seq<Blk>, ap2: nat, freep2: nat, f: nat, k: nat, f2: nat, k2: nat)
    requires ListOk(base, free) && n > 0 && n2 > 0
    requires TookAt(list, start, n, free, ap, freep, f, k) && TookAt(free, freep, n2, free2, ap2, freep2, f2, k2)
    ensures Follows(list, n, free, ap, freep, n2, ap2, freep2, k, k2)
  {
    hide Carve, NextFit, ListOk;
    CarveIs(list, k, n);
    CarveKeepsPrev(list, k, n);
    SameBlock(base, free, f2, k - 1);
    if list[k].size >= n + n2 {
      NextFitFirst(free, k - 1, k2, n2);
    }
  }

  lemma SameBlock(base: nat, free: seq<Blk>, i: nat, j: nat)
    requires ListOk(base, free) && i < |free| && j < |free| && free[i].addr == free[j].addr
    ensures i == j
  {
  }

  lemma NextFitFirst(free: seq<Blk>, f: nat, k: nat, n: nat)
    requires NextFit(free, f, k, n) && f + 1 < |free| && free[f + 1].size >= n
    ensures k == f + 1
  {
    assert Ahead(f, 1, |free|) == f + 1;
  }

  /** p is the address of the last free block below a. */
  ghost predicate LastBelow(free: seq<Blk>, a: nat, p: nat)
  {
    exists i :: 0 <= i < |free| && p == free[i].addr < a && forall j :: i < j < |free| ==> a <= free[j].addr
  }

  lemma PlaceIsLastBelow(base: nat, free: seq<Blk>, b: Blk)
    requires ListOk(base, free) && Freeable(base, free, b)
    ensures LastBelow(free, b.addr, free[Place(free, b.addr)].addr)
  {
    hide Place;
    PlaceSplits(free, b.addr);
  }

  lemma HasFit(free: seq<Blk>, k: nat, n: nat)
    requires k < |free| && free[k].size >= n
    ensures !NoFit(free, n)
  {
  }

  lemma TurnBegins(free: seq<Blk>, f: nat, n: nat)
    requires f < |free|
    ensures TooSmall(free, f, 1, n) && Ahead(f, 0, |free|) == f
  {
  }

  lemma TurnGoesOn(free: seq<Blk>, f: nat, d: nat, n: nat)
    requires f < |free| && 1 <= d <= |free| && TooSmall(free, f, d, n)
    requires Ahead(f, d, |free|) < |free| && free[Ahead(f, d, |free|)].size < n
    ensures TooSmall(free, f, d + 1, n)
  {
  }

  lemma NotBackYet(free: seq<Blk>, f: nat, d: nat)
    requires f < |free| && 1 <= d <= |free| && Ahead(f, d, |free|) < |free|
    requires free[Ahead(f, d, |free|)].addr != free[f].addr
    ensures d < |free|
  {
  }

  lemma EmptyHeap(m: Mem, base: nat)
    requires base in m.ptr && base in m.size && m.ptr[base] == base && m.size[base] == 0
    ensures HeapOk(m, base, [Blk(base, 0)], [], {})
  {
  }

  lemma CarveKeepsPrev(free: seq<Blk>, k: nat, n: nat)
    requires 0 < k < |free| && 0 < n <= free[k].size
    ensures |Carve(free, k, n)| > k - 1 && Carve(free, k, n)[k - 1] == free[k - 1]
  {
  }

  lemma NextAhead(free: seq<Blk>, f: nat, d: nat)
    requires f < |free| && d < |free|
    ensures Ahead(f, d, |free|) < |free| && Ahead(f, d + 1, |free|) < |free|
    ensures Next(free, Ahead(f, d, |free|)) == free[Ahead(f, d + 1, |free|)].addr
  {
  }

  /** A block with room is not the empty base block, so its predecessor in the ring precedes it in the list. */
  lemma FitIsNotBase(base: nat, free: seq<Blk>, f: nat, d: nat, n: nat)
    requires ListOk(base, free) && f < |free| && 1 <= d <= |free| && 0 < n <= free[Ahead(f, d, |free|)].size
    ensures 0 < Ahead(f, d, |free|) && Ahead(f, d - 1, |free|) == Ahead(f, d, |free|) - 1
  {
  }

  /** The scan is back at freep only after a whole turn. */
  lemma AheadOnce(base: nat, free: seq<Blk>, f: nat, d: nat)
    requires ListOk(base, free) && f < |free| && 1 <= d <= |free| && free[Ahead(f, d, |free|)].addr == free[f].addr
    ensures d == |free|
  {
    if Ahead(f, d, |free|) != f {
      AddrsDiffer(base, free, Ahead(f, d, |free|), f);
    }
  }

  lemma PayloadIsQuiet(m: Mem, base: nat, free: seq<Blk>, used: seq<Blk>, j: nat, u: nat, p: nat, n: nat)
    requires ListOk(base, free) && Linked(m.ptr, m.size, free) && UsedOk(m.size, base, free, used)
    requires j < |used| && used[j].addr < u < used[j].End()
    ensures Linked(m.ptr[u := p], m.size[u := n], free) && UsedOk(m.size[u := n], base, free, used)
  {
    forall i | 0 <= i < |free| ensures Node(m.ptr[u := p], m.size[u := n], free[i], Next(free, i)) {
      assert Node(m.ptr, m.size, free[i], Next(free, i));
      assert Apart(free[i], used[j]);
    }
    forall i | 0 <= i < |used| ensures used[i].addr != u {
      assert i < j ==> Apart(used[i], used[j]);
      assert j < i ==> Apart(used[j], used[i]);
    }
  }

  // ---- Free and used blocks tile the memory obtained from sbrk ------------------------------------------

  ghost function Cover(blocks: seq<Blk>): set<nat>
  {
    if blocks == [] then {} else Span(blocks[0].addr, blocks[0].size) + Cover(blocks[1..])
  }

  ghost predicate AllApart(blocks: seq<Blk>)
  {
    forall i, j :: 0 <= i < j < |blocks| ==> Apart(blocks[i], blocks[j])
  }

  lemma {:induction false} CoverHas(blocks: seq<Blk>, u: nat)
    ensures u in Cover(blocks) <==> exists i :: 0 <= i < |blocks| && blocks[i].addr <= u < blocks[i].End()
  {
    if blocks != [] {
      CoverHas(blocks[1..], u);
      if i :| 0 <= i < |blocks[1..]| && blocks[1..][i].addr <= u < blocks[1..][i].End() {
        assert blocks[i + 1].addr <= u < blocks[i + 1].End();
      }
      if i :| 0 <= i < |blocks| && blocks[i].addr <= u < blocks[i].End() {
        assert i > 0 ==> blocks[1..][i - 1].addr <= u < blocks[1..][i - 1].End();
      }
    }
  }

  /** Blocks that do not overlap cover as many units as their sizes add up to. */
  lemma {:induction false} CoverSize(blocks: seq<Blk>)
    requires AllApart(blocks)
    ensures |Cover(blocks)| == Sum(blocks)
  {
    if blocks != [] {
      var rest := blocks[1..];
      forall i, j | 0 <= i < j < |rest| ensures Apart(rest[i], rest[j]) {
        assert Apart(blocks[i + 1], blocks[j + 1]);
      }
      CoverSize(rest);
      forall u | u in Cover(rest) ensures u !in Span(blocks[0].addr, blocks[0].size) {
        CoverHas(rest, u);
        var i :| 0 <= i < |rest| && rest[i].addr <= u < rest[i].End();
        assert Apart(blocks[0], blocks[i + 1]);
      }
    }
  }

  lemma CoverWithin(blocks: seq<Blk>, arena: set<nat>)
    requires AllWithin(blocks, arena)
    ensures Cover(blocks) <= arena
  {
    forall u | u in Cover(blocks) ensures u in arena {
      CoverHas(blocks, u);
      var i :| 0 <= i < |blocks| && blocks[i].addr <= u < blocks[i].End();
      assert Within(blocks[i], arena);
    }
  }

  /** In a heap in order, every unit obtained from sbrk is in a free block or in a used one, and never in both. */
  lemma BlocksTileArena(m: Mem, base: nat, free: seq<Blk>, used: seq<Blk>, arena: set<nat>)
    requires HeapOk(m, base, free, used, arena)
    ensures Cover(free) !! Cover(used) && Cover(free) + Cover(used) == arena
  {
    SortedApart(base, free);
    assert AllApart(used);
    CoverSize(free);
    CoverSize(used);
    CoverWithin(free, arena);
    CoverWithin(used, arena);
    CoversApart(free, used);
    hide Cover, Sum, HeapOk;
    assert |Cover(free) + Cover(used)| == |Cover(free)| + |Cover(used)|;
    SubsetOfSameSize(Cover(free) + Cover(used), arena);
  }

  lemma SortedApart(base: nat, free: seq<Blk>)
    requires ListOk(base, free)
    ensures AllApart(free)
  {
  }

  lemma CoversApart(a: seq<Blk>, b: seq<Blk>)
    requires forall i, j :: 0 <= i < |a| && 0 <= j < |b| ==> Apart(a[i], b[j])
    ensures Cover(a) !! Cover(b)
  {
    forall u | u in Cover(a) ensures u !in Cover(b) {
      CoverHas(a, u);
      CoverHas(b, u);
    }
  }

  /** No block has address 0. */
  lemma AddrPositive(base: nat, free: seq<Blk>, a: nat)
    requires ListOk(base, free) && base > 0 && exists k :: 0 <= k < |free| && free[k].addr == a
    ensures a > 0
  {
    var k :| 0 <= k < |free| && free[k].addr == a;
    assert 0 < k ==> free[0].End() < free[k].addr;
  }

  lemma NextIs(free: seq<Blk>, k: nat)
    requires k < |free|
    ensures Next(free, k) == free[if k + 1 < |free| then k + 1 else 0].addr
  {
  }
}
