/** The file system as a value (src/fs.c, src/fs.h): blocks, inodes, and who owns
    which block. The lemmas say what each primitive update does to ownership and
    to the slots through which inodes reach their blocks. */
module FsImage {

  import opened Common
  import opened FsBlock

  const NDIRECT: nat := 12
  const MAXFILE: nat := 140     // NDIRECT + NINDIRECT
  const NSLOTS: nat := 141      // direct blocks, the indirect block, its entries
  const IPB: nat := 8           // inodes per block

  /** The superblock. Blocks below `dataStart` hold metadata. */
  datatype Super = Super(size: nat, ninodes: nat, inodestart: nat, bmapstart: nat, dataStart: nat) {

    predicate Valid() {
      && inodestart + ninodes / IPB < bmapstart
      && bmapstart + size / BPB < dataStart <= size < UINT
    }

    /** BBLOCK: the bitmap block with the bit of block b */
    function BBlock(b: nat): nat { b / BPB + bmapstart }

    /** IBLOCK: the block with inode i */
    function IBlock(i: nat): nat { i / IPB + inodestart }

    predicate Data(b: nat) { dataStart <= b < size }
  }

  /** struct inode and struct dinode; kind 0 is a free inode. */
  datatype Inode = Inode(kind: nat, major: nat, minor: nat, nlink: nat, size: nat, addrs: seq<nat>)

  /** A file of the given kind without blocks. */
  function NewInode(kind: nat): Inode { Inode(kind, 0, 0, 0, 0, seq(NDIRECT + 1, k => 0)) }

  datatype Image = Image(blocks: seq<Block>, inodes: seq<Inode>)

  ghost predicate Shaped(sb: Super, g: Image)
  {
    && sb.Valid() && |g.blocks| == sb.size && |g.inodes| == sb.ninodes
    && forall i :: 0 <= i < |g.inodes| ==> |g.inodes[i].addrs| == NDIRECT + 1 && g.inodes[i].addrs[NDIRECT] < sb.size
  }

  /** The block number in slot k of an inode: 0 to 11 direct, 12 the indirect block, 13 on its entries. */
  function Slot(g: Image, i: nat, k: nat): nat
    requires i < |g.inodes| && |g.inodes[i].addrs| == NDIRECT + 1 && g.inodes[i].addrs[NDIRECT] < |g.blocks| && k < NSLOTS
  {
    var addrs := g.inodes[i].addrs;
    if k <= NDIRECT then addrs[k] else if addrs[NDIRECT] == 0 then 0 else Word(g.blocks[addrs[NDIRECT]], k - NDIRECT - 1)
  }

  predicate Used(sb: Super, blocks: seq<Block>, b: nat)
    requires sb.Valid() && |blocks| == sb.size && b < sb.size
  {
    Bit(blocks[sb.BBlock(b)], b % BPB)
  }

  type Owner = map<nat, (nat, nat)>

  /** Whatever a slot names is owned by that slot. */
  ghost predicate SlotsOwn(sb: Super, g: Image, owner: Owner)
    requires Shaped(sb, g)
  {
    forall i, k :: 0 <= i < |g.inodes| && 0 <= k < NSLOTS && Slot(g, i, k) != 0 ==>
      Slot(g, i, k) in owner && owner[Slot(g, i, k)] == (i, k)
  }

  /** Whatever is owned is a data block named by the owning slot. */
  ghost predicate OwnersHave(sb: Super, g: Image, owner: Owner)
    requires Shaped(sb, g)
  {
    forall a :: a in owner ==>
      sb.Data(a) && owner[a].0 < |g.inodes| && owner[a].1 < NSLOTS && Slot(g, owner[a].0, owner[a].1) == a
  }

  /** A bit is set iff the block is metadata, or owned, or in `loose`: allocated and not linked yet. */
  ghost predicate BitsTell(sb: Super, g: Image, owner: Owner, loose: set<nat>)
    requires Shaped(sb, g)
  {
    && (forall b: nat :: b < sb.size ==> (Used(sb, g.blocks, b) <==> b < sb.dataStart || b in owner || b in loose))
    && forall b :: b in loose ==> sb.Data(b) && b !in owner
  }

  ghost predicate Owned(sb: Super, g: Image, owner: Owner, loose: set<nat>)
  {
    Shaped(sb, g) && SlotsOwn(sb, g, owner) && OwnersHave(sb, g, owner) && BitsTell(sb, g, owner, loose)
  }

  // ---- Primitive updates ----------------------------------------------------------------------------

  /** A block that no inode uses as its indirect block. */
  ghost predicate Plain(sb: Super, owner: Owner, loose: set<nat>, a: nat)
  {
    a < sb.dataStart || a in loose || (a in owner && owner[a].1 != NDIRECT)
  }

  /** Writing a plain block leaves every slot alone. */
  lemma PlainWriteSlot(sb: Super, g: Image, owner: Owner, loose: set<nat>, a: nat, x: Block, i: nat, k: nat)
    requires Owned(sb, g, owner, loose) && a < sb.size && Plain(sb, owner, loose, a) && i < |g.inodes| && k < NSLOTS
    ensures Slot(Image(g.blocks[a := x], g.inodes), i, k) == Slot(g, i, k)
  {
    hide Word;
    assert Slot(g, i, NDIRECT) != 0 ==> Slot(g, i, NDIRECT) in owner && owner[Slot(g, i, NDIRECT)] == (i, NDIRECT);
  }

  /** Writing a plain data block changes no ownership. */
  lemma StoreKeepsOwned(sb: Super, g: Image, owner: Owner, loose: set<nat>, a: nat, x: Block)
    requires Owned(sb, g, owner, loose) && sb.Data(a) && Plain(sb, owner, loose, a)
    ensures Owned(sb, Image(g.blocks[a := x], g.inodes), owner, loose)
    ensures var g' := Image(g.blocks[a := x], g.inodes);
            forall i, k :: 0 <= i < |g.inodes| && 0 <= k < NSLOTS ==> Slot(g', i, k) == Slot(g, i, k)
  {
    hide Bit, Slot;
    var g' := Image(g.blocks[a := x], g.inodes);
    forall i, k | 0 <= i < |g.inodes| && 0 <= k < NSLOTS ensures Slot(g', i, k) == Slot(g, i, k) {
      PlainWriteSlot(sb, g, owner, loose, a, x, i, k);
    }
    forall b: nat | b < sb.size ensures Used(sb, g'.blocks, b) == Used(sb, g.blocks, b) {
      assert sb.BBlock(b) < sb.dataStart;
    }
  }

  function Marked(sb: Super, blocks: seq<Block>, b: nat): (r: seq<Block>)
    requires sb.Valid() && |blocks| == sb.size && b < sb.size
    ensures |r| == |blocks|
  {
    blocks[sb.BBlock(b) := SetBit(blocks[sb.BBlock(b)], b % BPB)]
  }

  function Unmarked(sb: Super, blocks: seq<Block>, b: nat): (r: seq<Block>)
    requires sb.Valid() && |blocks| == sb.size && b < sb.size
    ensures |r| == |blocks|
  {
    blocks[sb.BBlock(b) := ClearBit(blocks[sb.BBlock(b)], b % BPB)]
  }

  lemma SameBit(a: nat, b: nat)
    requires a / BPB == b / BPB && a % BPB == b % BPB
    ensures a == b
  {
  }

  /** Every block that differs has been handed to log_write. */
  ghost predicate AllLogged(before: seq<Block>, after: seq<Block>, log: set<nat>)
  {
    |after| == |before| && forall b: nat :: b < |before| && b !in log ==> after[b] == before[b]
  }

  lemma NothingLogged(blocks: seq<Block>, log: set<nat>)
    ensures AllLogged(blocks, blocks, log)
  {
  }

  lemma LoggedBlock(a: seq<Block>, b: seq<Block>, log: set<nat>, k: nat, x: Block)
    requires AllLogged(a, b, log) && k < |b|
    ensures AllLogged(a, b[k := x], log + {k})
  {
  }

  lemma LoggedMore(a: seq<Block>, b: seq<Block>, c: seq<Block>, log: set<nat>, log': set<nat>)
    requires AllLogged(a, b, log) && AllLogged(b, c, log') && log <= log'
    ensures AllLogged(a, c, log')
  {
  }

  /** Setting or clearing one bit of the map changes that block's bit and no other. */
  lemma MarkedUse(sb: Super, blocks: seq<Block>, b: nat, c: nat)
    requires sb.Valid() && |blocks| == sb.size && b < sb.size && c < sb.size
    ensures Used(sb, Marked(sb, blocks, b), c) <==> c == b || Used(sb, blocks, c)
    ensures Used(sb, Unmarked(sb, blocks, b), c) <==> c != b && Used(sb, blocks, c)
  {
    hide Bit, SetBit, ClearBit;
    BitAfter(blocks[sb.BBlock(b)], b % BPB, c % BPB);
    if b / BPB == c / BPB && b % BPB == c % BPB {
      SameBit(b, c);
    }
  }

  /** balloc: the block found free becomes loose, and is zeroed. */
  lemma AllocKeepsOwned(sb: Super, g: Image, owner: Owner, loose: set<nat>, b: nat)
    requires Owned(sb, g, owner, loose) && b < sb.size && !Used(sb, g.blocks, b)
    ensures sb.Data(b) && b !in owner && b !in loose
    ensures var g' := Image(Marked(sb, g.blocks, b)[b := Zeros()], g.inodes);
            && Owned(sb, g', owner, loose + {b})
            && forall i, k :: 0 <= i < |g.inodes| && 0 <= k < NSLOTS ==> Slot(g', i, k) == Slot(g, i, k)
  {
    hide Slot, Bit;
    var bb := sb.BBlock(b);
    var g1 := Image(Marked(sb, g.blocks, b), g.inodes);
    assert Plain(sb, owner, loose, bb);
    forall i, k | 0 <= i < |g.inodes| && 0 <= k < NSLOTS ensures Slot(g1, i, k) == Slot(g, i, k) {
      PlainWriteSlot(sb, g, owner, loose, bb, g1.blocks[bb], i, k);
    }
    MarkKeepsOwned(sb, g, g1, owner, loose, b);
    StoreKeepsOwned(sb, g1, owner, loose + {b}, b, Zeros());
  }

  lemma MarkKeepsOwned(sb: Super, g: Image, g1: Image, owner: Owner, loose: set<nat>, b: nat)
    requires Owned(sb, g, owner, loose) && sb.Data(b) && b !in owner && g1 == Image(Marked(sb, g.blocks, b), g.inodes)
    requires forall i, k :: 0 <= i < |g.inodes| && 0 <= k < NSLOTS ==> Slot(g1, i, k) == Slot(g, i, k)
    ensures Owned(sb, g1, owner, loose + {b})
  {
    hide Slot, Bit, Marked, Used;
    forall c: nat | c < sb.size ensures Used(sb, g1.blocks, c) <==> c == b || Used(sb, g.blocks, c) {
      MarkedUse(sb, g.blocks, b, c);
    }
  }

  function WithAddr(g: Image, i: nat, k: nat, a: nat): Image
    requires i < |g.inodes| && k < |g.inodes[i].addrs|
  {
    g.(inodes := g.inodes[i := g.inodes[i].(addrs := g.inodes[i].addrs[k := a])])
  }

  /** Storing a loose block's number in a free direct slot, or a zeroed one's in the indirect slot, changes that slot only. */
  lemma AddrSlot(sb: Super, g: Image, owner: Owner, loose: set<nat>, i: nat, k: nat, a: nat, j: nat, l: nat)
    requires Owned(sb, g, owner, loose) && a in loose && i < |g.inodes| && k <= NDIRECT && Slot(g, i, k) == 0
    requires k == NDIRECT ==> g.blocks[a] == Zeros()
    requires j < |g.inodes| && l < NSLOTS
    ensures Shaped(sb, WithAddr(g, i, k, a))
    ensures Slot(WithAddr(g, i, k, a), j, l) == if j == i && l == k then a else Slot(g, j, l)
  {
    hide Word;
    if k == NDIRECT && l > NDIRECT {
      ZeroWords(l - NDIRECT - 1);
    }
  }

  lemma LinkAddr(sb: Super, g: Image, owner: Owner, loose: set<nat>, i: nat, k: nat, a: nat)
    requires Owned(sb, g, owner, loose) && a in loose && i < |g.inodes| && k <= NDIRECT && Slot(g, i, k) == 0
    requires k == NDIRECT ==> g.blocks[a] == Zeros()
    ensures Owned(sb, WithAddr(g, i, k, a), owner[a := (i, k)], loose - {a})
    ensures forall j, l :: 0 <= j < |g.inodes| && 0 <= l < NSLOTS ==>
              Slot(WithAddr(g, i, k, a), j, l) == if j == i && l == k then a else Slot(g, j, l)
  {
    hide Slot, Used;
    var g' := WithAddr(g, i, k, a);
    AddrSlot(sb, g, owner, loose, i, k, a, i, k);
    forall j, l | 0 <= j < |g.inodes| && 0 <= l < NSLOTS
      ensures Slot(g', j, l) == if j == i && l == k then a else Slot(g, j, l)
    {
      AddrSlot(sb, g, owner, loose, i, k, a, j, l);
    }
    LinkKeepsOwned(sb, g, g', owner, loose, i, k, a);
  }

  /** A loose block named by one slot, and by no other, is owned by that slot. */
  lemma LinkKeepsOwned(sb: Super, g: Image, g': Image, owner: Owner, loose: set<nat>, i: nat, k: nat, a: nat)
    requires Owned(sb, g, owner, loose) && a in loose && i < |g.inodes| && k < NSLOTS && Slot(g, i, k) == 0
    requires Shaped(sb, g') && forall b: nat :: b < sb.size ==> Used(sb, g'.blocks, b) == Used(sb, g.blocks, b)
    requires forall j, l :: 0 <= j < |g.inodes| && 0 <= l < NSLOTS ==>
               Slot(g', j, l) == if j == i && l == k then a else Slot(g, j, l)
    ensures Owned(sb, g', owner[a := (i, k)], loose - {a})
  {
    hide Slot, Used;
    var owner' := owner[a := (i, k)];
    forall j, l | 0 <= j < |g'.inodes| && 0 <= l < NSLOTS && Slot(g', j, l) != 0
      ensures Slot(g', j, l) in owner' && owner'[Slot(g', j, l)] == (j, l)
    {
      assert Slot(g, j, l) != 0 ==> Slot(g, j, l) in owner && owner[Slot(g, j, l)] == (j, l);
    }
    forall c | c in owner'
      ensures sb.Data(c) && owner'[c].0 < |g'.inodes| && owner'[c].1 < NSLOTS && Slot(g', owner'[c].0, owner'[c].1) == c
    {
      if c != a {
        assert sb.Data(c) && Slot(g, owner[c].0, owner[c].1) == c;
      }
    }
  }

  function WithEntry(g: Image, i: nat, e: nat, a: nat): Image
    requires i < |g.inodes| && |g.inodes[i].addrs| == NDIRECT + 1 && g.inodes[i].addrs[NDIRECT] < |g.blocks|
    requires e < NINDIRECT && a < UINT
  {
    var ind := g.inodes[i].addrs[NDIRECT];
    g.(blocks := g.blocks[ind := SetWord(g.blocks[ind], e, a)])
  }

  lemma EntrySlot(sb: Super, g: Image, owner: Owner, loose: set<nat>, i: nat, e: nat, a: nat, j: nat, l: nat)
    requires Owned(sb, g, owner, loose) && a < sb.size && i < |g.inodes| && e < NINDIRECT && Slot(g, i, NDIRECT) != 0
    requires j < |g.inodes| && l < NSLOTS
    ensures Shaped(sb, WithEntry(g, i, e, a))
    ensures Slot(WithEntry(g, i, e, a), j, l) == if j == i && l == NDIRECT + 1 + e then a else Slot(g, j, l)
  {
    hide Word, SetWord;
    var ind := g.inodes[i].addrs[NDIRECT];
    if l > NDIRECT {
      WordAfter(g.blocks[ind], e, a, l - NDIRECT - 1);
      assert Slot(g, j, NDIRECT) != 0 ==> owner[Slot(g, j, NDIRECT)] == (j, NDIRECT);
      assert owner[Slot(g, i, NDIRECT)] == (i, NDIRECT);
    }
  }

  /** Storing a loose block's number in a free entry of the indirect block changes that slot only. */
  lemma LinkEntry(sb: Super, g: Image, owner: Owner, loose: set<nat>, i: nat, e: nat, a: nat)
    requires Owned(sb, g, owner, loose) && a in loose && i < |g.inodes| && e < NINDIRECT
    requires Slot(g, i, NDIRECT) != 0 && Slot(g, i, NDIRECT + 1 + e) == 0
    ensures Owned(sb, WithEntry(g, i, e, a), owner[a := (i, NDIRECT + 1 + e)], loose - {a})
    ensures forall j, l :: 0 <= j < |g.inodes| && 0 <= l < NSLOTS ==>
              Slot(WithEntry(g, i, e, a), j, l) == if j == i && l == NDIRECT + 1 + e then a else Slot(g, j, l)
  {
    var g', ind := WithEntry(g, i, e, a), g.inodes[i].addrs[NDIRECT];
    assert sb.Data(ind) by {
      assert Slot(g, i, NDIRECT) == ind && ind in owner;
    }
    hide Slot, SetWord, Bit;
    EntrySlot(sb, g, owner, loose, i, e, a, i, NDIRECT);
    forall j, l | 0 <= j < |g.inodes| && 0 <= l < NSLOTS
      ensures Slot(g', j, l) == if j == i && l == NDIRECT + 1 + e then a else Slot(g, j, l)
    {
      EntrySlot(sb, g, owner, loose, i, e, a, j, l);
    }
    forall b: nat | b < sb.size ensures Used(sb, g'.blocks, b) == Used(sb, g.blocks, b) {
      assert sb.BBlock(b) < sb.dataStart;
    }
    LinkKeepsOwned(sb, g, g', owner, loose, i, NDIRECT + 1 + e, a);
  }

  // ---- Files as byte sequences --------------------------------------------------------------------------

  /** The slot of block bn of a file. */
  function FileSlot(bn: nat): nat { if bn < NDIRECT then bn else bn + 1 }

  ghost predicate At(sb: Super, g: Image, i: nat) { Shaped(sb, g) && i < |g.inodes| }

  ghost function FileBlock(sb: Super, g: Image, i: nat, bn: nat): nat
    requires At(sb, g, i) && bn < MAXFILE
  {
    Slot(g, i, FileSlot(bn))
  }

  ghost function FileByte(sb: Super, g: Image, i: nat, p: nat): Byte
    requires At(sb, g, i) && p < MAXFILE * BSIZE
  {
    var a := FileBlock(sb, g, i, p / BSIZE);
    if a < |g.blocks| then g.blocks[a][p % BSIZE] else 0
  }

  /** No holes: exactly the blocks that hold some of the first n bytes are allocated, and the indirect block exactly
      when one of its entries is. */
  ghost predicate Dense(sb: Super, g: Image, i: nat, n: nat)
    requires At(sb, g, i)
  {
    && (forall bn: nat :: bn < MAXFILE ==> (FileBlock(sb, g, i, bn) != 0 <==> bn * BSIZE < n))
    && (Slot(g, i, NDIRECT) != 0 <==> n > NDIRECT * BSIZE)
  }

  /** What a file holds. */
  ghost function Content(sb: Super, g: Image, i: nat): (c: seq<Byte>)
    requires At(sb, g, i) && g.inodes[i].size <= MAXFILE * BSIZE
    ensures |c| == g.inodes[i].size
  {
    seq(g.inodes[i].size, p requires 0 <= p < g.inodes[i].size => FileByte(sb, g, i, p))
  }

  ghost predicate FileOk(sb: Super, g: Image, i: nat)
    requires At(sb, g, i)
  {
    g.inodes[i].size <= MAXFILE * BSIZE && Dense(sb, g, i, g.inodes[i].size)
  }

  /** Every block has at most one owner, the bitmap tells which are free, and no file has holes. */
  ghost predicate FsOk(sb: Super, g: Image, owner: Owner)
  {
    Owned(sb, g, owner, {}) && forall i :: 0 <= i < |g.inodes| ==> FileOk(sb, g, i)
  }

  ghost predicate NamedBy(sb: Super, g: Image, b: nat, i: nat, k: nat)
    requires Shaped(sb, g)
  {
    i < |g.inodes| && k < NSLOTS && Slot(g, i, k) == b
  }

  /** The bitmap is exact: a bit is set iff its block is metadata or some slot of some inode names it, no metadata block is
      named, and no block is named twice. */
  lemma BitmapIsExact(sb: Super, g: Image, owner: Owner, b: nat)
    requires FsOk(sb, g, owner) && 0 < b < sb.size
    ensures Used(sb, g.blocks, b) <==> b < sb.dataStart || exists i, k :: NamedBy(sb, g, b, i, k)
    ensures forall i, k :: NamedBy(sb, g, b, i, k) ==> b >= sb.dataStart
    ensures forall i, k, j, l :: NamedBy(sb, g, b, i, k) && NamedBy(sb, g, b, j, l) ==> i == j && k == l
  {
    hide Slot, Dense, Used;
    if b in owner {
      assert NamedBy(sb, g, b, owner[b].0, owner[b].1);
    }
    forall i: nat, k: nat | NamedBy(sb, g, b, i, k) ensures b in owner && owner[b] == (i, k) && b >= sb.dataStart {
      assert Slot(g, i, k) == b;
    }
  }

  /** Two file blocks are the same disk block only if they are the same block of the same file. */
  lemma FileBlocksDiffer(sb: Super, g: Image, owner: Owner, loose: set<nat>, i: nat, bn: nat, j: nat, cn: nat)
    requires Owned(sb, g, owner, loose) && i < |g.inodes| && j < |g.inodes| && bn < MAXFILE && cn < MAXFILE
    requires FileBlock(sb, g, i, bn) != 0 && FileBlock(sb, g, j, cn) == FileBlock(sb, g, i, bn)
    ensures i == j && bn == cn
  {
    hide Slot;
    assert owner[Slot(g, i, FileSlot(bn))] == (i, FileSlot(bn));
    assert owner[Slot(g, j, FileSlot(cn))] == (j, FileSlot(cn));
  }

  lemma FileBlockIsPlain(sb: Super, g: Image, owner: Owner, loose: set<nat>, i: nat, bn: nat)
    requires Owned(sb, g, owner, loose) && i < |g.inodes| && bn < MAXFILE && FileBlock(sb, g, i, bn) != 0
    ensures var a := FileBlock(sb, g, i, bn);
            a in owner && owner[a] == (i, FileSlot(bn)) && sb.Data(a) && Plain(sb, owner, loose, a)
  {
    hide Slot;
  }

  /** Storing a file's block changes the bytes of that block of that file and nothing else. */
  lemma StoreBytes(sb: Super, g: Image, owner: Owner, i: nat, bn: nat, x: Block, j: nat, p: nat)
    requires Owned(sb, g, owner, {}) && i < |g.inodes| && bn < MAXFILE && FileBlock(sb, g, i, bn) != 0
    requires j < |g.inodes| && p < MAXFILE * BSIZE && FileBlock(sb, g, j, p / BSIZE) != 0
    ensures var a := FileBlock(sb, g, i, bn);
            && sb.Data(a) && var g' := Image(g.blocks[a := x], g.inodes);
            && Owned(sb, g', owner, {}) && FileBlock(sb, g', j, p / BSIZE) == FileBlock(sb, g, j, p / BSIZE)
            && FileByte(sb, g', j, p) == if j == i && p / BSIZE == bn then x[p % BSIZE] else FileByte(sb, g, j, p)
  {
    hide Slot;
    FileBlockIsPlain(sb, g, owner, {}, i, bn);
    FileBlockIsPlain(sb, g, owner, {}, j, p / BSIZE);
    StoreKeepsOwned(sb, g, owner, {}, FileBlock(sb, g, i, bn), x);
    if FileBlock(sb, g, j, p / BSIZE) == FileBlock(sb, g, i, bn) {
      FileBlocksDiffer(sb, g, owner, {}, i, bn, j, p / BSIZE);
    }
  }

  /** What bmap may do: fill empty slots of inode i, and leave every data block that was in use alone. */
  ghost predicate Grows(sb: Super, g: Image, owner: Owner, g': Image, i: nat)
  {
    && Shaped(sb, g) && Shaped(sb, g') && i < |g.inodes|
    && (forall j, l :: 0 <= j < |g.inodes| && 0 <= l < NSLOTS && Slot(g, j, l) != 0 ==> Slot(g', j, l) == Slot(g, j, l))
    && (forall j, l :: 0 <= j < |g.inodes| && 0 <= l < NSLOTS && j != i ==> Slot(g', j, l) == Slot(g, j, l))
    && (forall j :: 0 <= j < |g.inodes| && j != i ==> g'.inodes[j] == g.inodes[j])
    && g'.inodes[i] == g.inodes[i].(addrs := g'.inodes[i].addrs)
    && (forall a :: a in owner && a < sb.size && owner[a].1 != NDIRECT ==> g'.blocks[a] == g.blocks[a])
    && LowSame(sb, g.blocks, g'.blocks)
  }

  /** The blocks before the bitmap, among them those with the inodes, are as before. */
  ghost predicate LowSame(sb: Super, blocks: seq<Block>, blocks': seq<Block>)
  {
    sb.bmapstart <= |blocks| == |blocks'| && forall b: nat :: b < sb.bmapstart ==> blocks'[b] == blocks[b]
  }

  /** Growing keeps every byte that is there. */
  lemma GrowsBytes(sb: Super, g: Image, owner: Owner, g': Image, i: nat, j: nat, p: nat)
    requires Owned(sb, g, owner, {}) && Grows(sb, g, owner, g', i) && j < |g.inodes|
    requires p < MAXFILE * BSIZE && FileBlock(sb, g, j, p / BSIZE) != 0
    ensures FileBlock(sb, g', j, p / BSIZE) == FileBlock(sb, g, j, p / BSIZE) && FileByte(sb, g', j, p) == FileByte(sb, g, j, p)
  {
    hide Slot;
    FileBlockIsPlain(sb, g, owner, {}, j, p / BSIZE);
  }

  function Allocated(sb: Super, g: Image, a: nat): Image
    requires sb.Valid() && |g.blocks| == sb.size && a < sb.size
  {
    Image(Marked(sb, g.blocks, a)[a := Zeros()], g.inodes)
  }

  /** Only slot (i, k) is new, and it names block a. */
  ghost predicate OneNewSlot(sb: Super, g: Image, g': Image, i: nat, k: nat, a: nat)
  {
    && Shaped(sb, g) && Shaped(sb, g') && i < |g.inodes| && k < NSLOTS && Slot(g, i, k) == 0
    && forall j, l :: 0 <= j < |g.inodes| && 0 <= l < NSLOTS ==> Slot(g', j, l) == if j == i && l == k then a else Slot(g, j, l)
  }

  /** Allocating a block and storing its number in an inode's own address array. */
  lemma AllocToAddr(sb: Super, g: Image, owner: Owner, i: nat, k: nat, a: nat)
    requires Owned(sb, g, owner, {}) && a < sb.size && !Used(sb, g.blocks, a) && i < |g.inodes| && k <= NDIRECT
             && Slot(g, i, k) == 0
    ensures var g' := WithAddr(Allocated(sb, g, a), i, k, a);
            && a != 0 && Owned(sb, g', owner[a := (i, k)], {}) && OneNewSlot(sb, g, g', i, k, a) && Grows(sb, g, owner, g', i)
  {
    hide Slot, Used, Marked;
    AllocKeepsOwned(sb, g, owner, {}, a);
    var g1 := Allocated(sb, g, a);
    assert {} + {a} == {a} && {a} - {a} == {};
    LinkAddr(sb, g1, owner, {a}, i, k, a);
    var g' := WithAddr(g1, i, k, a);
    AllocLow(sb, g, a);
    forall c | c in owner && c < sb.size ensures g'.blocks[c] == g.blocks[c] {
      AllocElsewhere(sb, g, owner, a, c);
    }
  }

  lemma AllocLow(sb: Super, g: Image, a: nat)
    requires sb.Valid() && |g.blocks| == sb.size && sb.Data(a)
    ensures LowSame(sb, g.blocks, Allocated(sb, g, a).blocks)
  {
    hide SetBit;
  }

  lemma AllocElsewhere(sb: Super, g: Image, owner: Owner, a: nat, c: nat)
    requires Owned(sb, g, owner, {}) && a < sb.size && a !in owner && c in owner && c < sb.size
    ensures Allocated(sb, g, a).blocks[c] == g.blocks[c]
  {
    hide Slot, Used, SetBit;
    assert sb.Data(c) && sb.BBlock(a) < sb.dataStart;
  }

  /** Allocating a block and storing its number in the inode's indirect block. */
  lemma AllocToEntry(sb: Super, g: Image, owner: Owner, i: nat, e: nat, a: nat)
    requires Owned(sb, g, owner, {}) && a < sb.size && !Used(sb, g.blocks, a) && i < |g.inodes| && e < NINDIRECT
    requires Slot(g, i, NDIRECT) != 0 && Slot(g, i, NDIRECT + 1 + e) == 0
    ensures var g' := WithEntry(Allocated(sb, g, a), i, e, a);
            && a != 0 && Owned(sb, g', owner[a := (i, NDIRECT + 1 + e)], {})
            && OneNewSlot(sb, g, g', i, NDIRECT + 1 + e, a) && Grows(sb, g, owner, g', i)
  {
    hide Slot, Used, Allocated, WithEntry;
    AllocKeepsOwned(sb, g, owner, {}, a);
    var g1 := Allocated(sb, g, a);
    AllocatedIs(sb, g, a);
    assert {} + {a} == {a} && {a} - {a} == {};
    LinkEntry(sb, g1, owner, {a}, i, e, a);
    var g' := WithEntry(g1, i, e, a);
    forall c | c in owner && c < sb.size && owner[c].1 != NDIRECT ensures g'.blocks[c] == g.blocks[c] && g'.inodes == g.inodes {
      EntryElsewhere(sb, g, owner, i, e, a, c);
    }
    EntryInodes(g1, i, e, a);
    EntryLow(sb, g, owner, i, e, a);
  }

  lemma EntryLow(sb: Super, g: Image, owner: Owner, i: nat, e: nat, a: nat)
    requires Owned(sb, g, owner, {}) && sb.Data(a) && i < |g.inodes| && e < NINDIRECT && Slot(g, i, NDIRECT) != 0
    ensures LowSame(sb, g.blocks, WithEntry(Allocated(sb, g, a), i, e, a).blocks)
  {
    AllocLow(sb, g, a);
    assert Slot(g, i, NDIRECT) == g.inodes[i].addrs[NDIRECT];
    hide Slot, Used, SetWord, Marked, SlotsOwn;
    assert sb.Data(Slot(g, i, NDIRECT)) by {
      SlotIsData(sb, g, owner, {}, i, NDIRECT);
    }
  }

  lemma SlotIsData(sb: Super, g: Image, owner: Owner, loose: set<nat>, i: nat, k: nat)
    requires Owned(sb, g, owner, loose) && i < |g.inodes| && k < NSLOTS && Slot(g, i, k) != 0
    ensures sb.Data(Slot(g, i, k))
  {
    hide Slot;
  }

  lemma AllocatedIs(sb: Super, g: Image, a: nat)
    requires sb.Valid() && |g.blocks| == sb.size && a < sb.size
    ensures Allocated(sb, g, a) == Image(Marked(sb, g.blocks, a)[a := Zeros()], g.inodes)
  {
  }

  lemma EntryInodes(g: Image, i: nat, e: nat, a: nat)
    requires i < |g.inodes| && |g.inodes[i].addrs| == NDIRECT + 1 && g.inodes[i].addrs[NDIRECT] < |g.blocks|
    requires e < NINDIRECT && a < UINT
    ensures WithEntry(g, i, e, a).inodes == g.inodes
  {
  }

  lemma EntryElsewhere(sb: Super, g: Image, owner: Owner, i: nat, e: nat, a: nat, c: nat)
    requires Owned(sb, g, owner, {}) && a < sb.size && a !in owner && i < |g.inodes| && e < NINDIRECT
    requires Slot(g, i, NDIRECT) != 0 && c in owner && c < sb.size && owner[c].1 != NDIRECT
    ensures var g' := WithEntry(Allocated(sb, g, a), i, e, a); g'.blocks[c] == g.blocks[c] && g'.inodes == g.inodes
  {
    assert Slot(g, i, NDIRECT) == g.inodes[i].addrs[NDIRECT];
    hide Slot, Used, SetWord, Marked;
    AllocElsewhere(sb, g, owner, a, c);
    assert owner[Slot(g, i, NDIRECT)] == (i, NDIRECT);
  }

  lemma GrowsTwice(sb: Super, g: Image, owner: Owner, g1: Image, owner1: Owner, g2: Image, i: nat)
    requires Owned(sb, g, owner, {}) && Grows(sb, g, owner, g1, i) && Grows(sb, g1, owner1, g2, i)
    requires forall a :: a in owner ==> a in owner1 && owner1[a] == owner[a]
    ensures Grows(sb, g, owner, g2, i)
  {
    hide Slot, Used;
  }

  /** What bmap promises: block bn of inode i is block a, allocated now if it was not there, and nothing else changes. */
  ghost predicate Mapped(sb: Super, g: Image, owner: Owner, g': Image, owner': Owner, i: nat, bn: nat, a: nat)
  {
    && Owned(sb, g', owner', {}) && Grows(sb, g, owner, g', i) && bn < MAXFILE && |g'.inodes| == |g.inodes|
    && a != 0 && FileBlock(sb, g', i, bn) == a
    && (forall cn: nat :: cn < MAXFILE && cn != bn ==> FileBlock(sb, g', i, cn) == FileBlock(sb, g, i, cn))
    && (Slot(g', i, NDIRECT) != 0 <==> Slot(g, i, NDIRECT) != 0 || bn >= NDIRECT)
    && (FileBlock(sb, g, i, bn) != 0 ==> g' == g && owner' == owner)
  }

  lemma MappedAlready(sb: Super, g: Image, owner: Owner, i: nat, bn: nat)
    requires Owned(sb, g, owner, {}) && i < |g.inodes| && bn < MAXFILE && FileBlock(sb, g, i, bn) != 0
    ensures Mapped(sb, g, owner, g, owner, i, bn, FileBlock(sb, g, i, bn))
    ensures bn >= NDIRECT ==> g.inodes[i].addrs[NDIRECT] != 0
  {
    hide Used;
  }

  lemma MappedDirect(sb: Super, g: Image, owner: Owner, i: nat, bn: nat, a: nat)
    requires Owned(sb, g, owner, {}) && a < sb.size && !Used(sb, g.blocks, a) && i < |g.inodes| && bn < NDIRECT
    requires FileBlock(sb, g, i, bn) == 0
    ensures Mapped(sb, g, owner, WithAddr(Allocated(sb, g, a), i, bn, a), owner[a := (i, bn)], i, bn, a)
  {
    hide Slot, Used, Allocated, WithAddr;
    AllocToAddr(sb, g, owner, i, bn, a);
  }

  lemma MappedEntry(sb: Super, g: Image, owner: Owner, i: nat, bn: nat, a: nat)
    requires Owned(sb, g, owner, {}) && a < sb.size && !Used(sb, g.blocks, a) && i < |g.inodes| && NDIRECT <= bn < MAXFILE
    requires Slot(g, i, NDIRECT) != 0 && FileBlock(sb, g, i, bn) == 0
    ensures Mapped(sb, g, owner, WithEntry(Allocated(sb, g, a), i, bn - NDIRECT, a), owner[a := (i, bn + 1)], i, bn, a)
  {
    hide Slot, Used, Allocated, WithEntry;
    AllocToEntry(sb, g, owner, i, bn - NDIRECT, a);
  }

  /** First the indirect block, then the data block. */
  lemma MappedTwice(sb: Super, g: Image, owner: Owner, i: nat, bn: nat, ind: nat, g2: Image, owner2: Owner, a: nat)
    requires Owned(sb, g, owner, {}) && ind < sb.size && !Used(sb, g.blocks, ind) && i < |g.inodes| && NDIRECT <= bn < MAXFILE
    requires Slot(g, i, NDIRECT) == 0 && FileBlock(sb, g, i, bn) == 0
    requires Mapped(sb, WithAddr(Allocated(sb, g, ind), i, NDIRECT, ind), owner[ind := (i, NDIRECT)], g2, owner2, i, bn, a)
    ensures Mapped(sb, g, owner, g2, owner2, i, bn, a)
  {
    hide Slot, Used, Allocated, WithAddr;
    AllocKeepsOwned(sb, g, owner, {}, ind);
    AllocToAddr(sb, g, owner, i, NDIRECT, ind);
    AllocatedIs(sb, g, ind);
    GrowsTwice(sb, g, owner, WithAddr(Allocated(sb, g, ind), i, NDIRECT, ind), owner[ind := (i, NDIRECT)], g2, i);
  }
}
