/** How much a chunk of filewrite and a truncation can log at worst, shown on file systems that make them. */
module FsWorst {

  import opened Common
  import opened FsBlock
  import opened FsImage
  import opened FsInode
  import opened FsWrite
  import opened FsCost
  import opened FsTrunc
  import opened FsFormat
  import opened Fs

  // ---- Truncation -----------------------------------------------------------------------------------------------

  /** Bitmap blocks that have the bit of some data block. */
  function Groups(sb: Super): nat
    requires sb.Valid()
  {
    if sb.dataStart == sb.size then 0 else (sb.size - 1) / BPB - sb.dataStart / BPB + 1
  }

  /** itrunc logs one block more than it changes bitmap blocks, and it changes at most all of them. */
  lemma TruncLogsSize(sb: Super, g: Image, own: Owner, i: nat)
    requires FsOk(sb, g, own) && i < sb.ninodes
    ensures |TruncLogs(sb, own, i)| == |BitBlocks(sb, Others(own, i), own)| + 1 <= Groups(sb) + 1
  {
    hide Used, SlotsOwn, BitsTell, Slot, Dense;
    var bits := BitBlocks(sb, Others(own, i), own);
    assert forall a :: a in own ==> sb.Data(a);
    BitBlocksRange(sb, Others(own, i), own);
    assert sb.IBlock(i) < sb.bmapstart;
    if sb.dataStart == sb.size {
      assert bits == {};
    } else {
      var all := Numbers(sb.BBlock(sb.dataStart), sb.BBlock(sb.size - 1) + 1);
      assert bits <= all;
      SubsetSize(bits, all);
    }
  }

  /** Every truncation of a file of a file system that can be mounted stays within MAXOPBLOCKS. */
  ghost predicate TruncFits(sb: Super)
  {
    forall g, own, i :: Mountable(sb, g, own) && 1 <= i < sb.ninodes ==> |TruncLogs(sb, own, i)| <= 10
  }

  /** It does exactly if at most nine bitmap blocks have bits of data blocks, or there is no inode to truncate. */
  lemma TruncFitsIff(sb: Super)
    requires sb.Valid()
    ensures TruncFits(sb) <==> Groups(sb) <= 9 || sb.ninodes <= 1
  {
    hide FsOk, TruncLogs, WrittenThrough;
    if Groups(sb) <= 9 || sb.ninodes <= 1 {
      forall g, own, i | Mountable(sb, g, own) && 1 <= i < sb.ninodes ensures |TruncLogs(sb, own, i)| <= 10 {
        TruncLogsSize(sb, g, own, i);
      }
    } else {
      SpreadLogs(sb);
    }
  }

  /** The first data block of the k-th bitmap block that has any. */
  function Spread(sb: Super, k: nat): nat
  {
    if k == 0 then sb.dataStart else (sb.dataStart / BPB + k) * BPB
  }

  lemma SpreadApart(sb: Super, k: nat)
    requires sb.Valid() && k < Groups(sb)
    ensures sb.Data(Spread(sb, k)) && Spread(sb, k) / BPB == sb.dataStart / BPB + k && Spread(sb, k) != 0
  {
  }

  /** Ten blocks, each in another bitmap block. */
  function SpreadOwner(sb: Super): Owner
    requires sb.Valid() && Groups(sb) >= 10
  {
    var blocks := set k: nat | k < 10 :: Spread(sb, k);
    map a | a in blocks :: (1, if a / BPB >= sb.dataStart / BPB then a / BPB - sb.dataStart / BPB else 0)
  }

  lemma SpreadOwned(sb: Super, a: nat)
    requires sb.Valid() && Groups(sb) >= 10
    ensures a in SpreadOwner(sb) <==> exists k: nat :: k < 10 && Spread(sb, k) == a
    ensures a in SpreadOwner(sb) ==> var k := SpreadOwner(sb)[a].1;
            SpreadOwner(sb)[a].0 == 1 && k < 10 && Spread(sb, k) == a && sb.Data(a)
  {
    hide Spread, Groups;
    forall k: nat | k < 10 ensures sb.Data(Spread(sb, k)) && Spread(sb, k) / BPB == sb.dataStart / BPB + k {
      SpreadApart(sb, k);
    }
  }

  function SpreadInode(sb: Super): Inode
  {
    Inode(1, 0, 0, 1, 10 * BSIZE, seq(NDIRECT + 1, k requires k >= 0 => if k < 10 then Spread(sb, k) else 0))
  }

  function SpreadInodes(sb: Super): (r: seq<Inode>)
    requires sb.Valid() && Groups(sb) >= 10
    ensures |r| == sb.ninodes
            && forall i :: 0 <= i < |r| ==> Fits(r[i]) && r[i] == if i == 1 then SpreadInode(sb) else NewInode(0)
  {
    SpreadFits(sb);
    seq(sb.ninodes, i => if i == 1 then SpreadInode(sb) else NewInode(0))
  }

  lemma SpreadFits(sb: Super)
    requires sb.Valid() && Groups(sb) >= 10
    ensures Fits(SpreadInode(sb)) && Fits(NewInode(0))
  {
    hide Spread, Groups;
    forall k: nat | k < 10 ensures Spread(sb, k) < UINT {
      SpreadApart(sb, k);
    }
  }

  /** The bitmap of it. */
  function SpreadBitmap(sb: Super): (r: seq<Block>)
    requires sb.Valid() && Groups(sb) >= 10
    ensures |r| == sb.size
  {
    var own := SpreadOwner(sb);
    Bitmap(sb, b => b < sb.dataStart || b in own, sb.size)
  }

  /** Those are the blocks of file 1. */
  function SpreadFile(sb: Super): Image
    requires sb.Valid() && Groups(sb) >= 10
  {
    Image(Inscribed(sb, SpreadBitmap(sb), SpreadInodes(sb), sb.ninodes), SpreadInodes(sb))
  }

  lemma SpreadUse(sb: Super, b: nat)
    requires sb.Valid() && Groups(sb) >= 10 && b < sb.size
    ensures |SpreadFile(sb).blocks| == sb.size
            && (Used(sb, SpreadFile(sb).blocks, b) <==> b < sb.dataStart || b in SpreadOwner(sb))
  {
    hide Bitmap, Inscribed, Fits, SpreadInodes, Used, Groups, SpreadOwner;
    var own := SpreadOwner(sb);
    BitmapUse(sb, b => b < sb.dataStart || b in own, sb.size, b);
    InscribedUse(sb, SpreadBitmap(sb), SpreadInodes(sb), sb.ninodes, b);
  }

  lemma SpreadThrough(sb: Super)
    requires sb.Valid() && Groups(sb) >= 10 && Shaped(sb, SpreadFile(sb))
    ensures WrittenThrough(sb, SpreadFile(sb))
  {
    hide SpreadBitmap, Inscribed, Fits, SpreadInodes, Groups, DiskInode, Shaped;
    forall i: nat | i < sb.ninodes ensures DiskInode(sb, SpreadFile(sb).blocks, i) == SpreadInodes(sb)[i] {
      InscribedInode(sb, SpreadBitmap(sb), SpreadInodes(sb), sb.ninodes, i);
    }
  }

  lemma SpreadFileOk(sb: Super)
    requires sb.Valid() && sb.ninodes > 1 && Groups(sb) >= 10
    ensures Mountable(sb, SpreadFile(sb), SpreadOwner(sb))
  {
    hide FsOk, Spread, Groups, SpreadOwner, Used, Inscribed, SpreadBitmap, WrittenThrough, SpreadInodes, Fits;
    var own, g := SpreadOwner(sb), SpreadFile(sb);
    forall b: nat | b < sb.size ensures Used(sb, g.blocks, b) <==> b < sb.dataStart || b in own {
      SpreadUse(sb, b);
    }
    forall k: nat | k < 10
      ensures sb.Data(Spread(sb, k)) && Spread(sb, k) != 0 && Spread(sb, k) in own && own[Spread(sb, k)] == (1, k)
    {
      SpreadApart(sb, k);
      SpreadOwned(sb, Spread(sb, k));
      var l := own[Spread(sb, k)].1;
      SpreadApart(sb, l);
    }
    forall a | a in own ensures sb.Data(a) && own[a].0 == 1 && own[a].1 < 10 && Spread(sb, own[a].1) == a {
      SpreadOwned(sb, a);
    }
    DirectFilesOk(sb, g, own);
    SpreadThrough(sb);
  }

  lemma SpreadLogs(sb: Super)
    requires sb.Valid() && sb.ninodes > 1 && Groups(sb) >= 10
    ensures Mountable(sb, SpreadFile(sb), SpreadOwner(sb)) && |TruncLogs(sb, SpreadOwner(sb), 1)| == 11
  {
    hide FsOk, WrittenThrough, SpreadOwner, SpreadFile, TruncLogs, BitBlocks, Groups;
    SpreadFileOk(sb);
    TruncLogsSize(sb, SpreadFile(sb), SpreadOwner(sb), 1);
    SpreadBits(sb);
  }

  /** Truncating that file logs one block more than MAXOPBLOCKS. */
  method WorstTrunc(sb: Super) returns (fs: FileSystem, ok: bool)
    requires sb.Valid() && sb.ninodes > 1 && Groups(sb) >= 10
    ensures ok && fs.sb == sb && |fs.logged| == 11
  {
    hide FsOk, WrittenThrough, SpreadOwner, TruncLogs, Groups, Inscribed, SpreadBitmap, Fits, FileSystem.Valid, Content;
    SpreadLogs(sb);
    fs := new FileSystem.Mount(sb, SpreadFile(sb), SpreadOwner(sb));
    ok := fs.Itrunc(1);
    assert fs.logged == TruncLogs(sb, SpreadOwner(sb), 1);
  }

  lemma SpreadBits(sb: Super)
    requires sb.Valid() && Groups(sb) >= 10
    ensures |BitBlocks(sb, Others(SpreadOwner(sb), 1), SpreadOwner(sb))| == 10
  {
    var bits, first := BitBlocks(sb, Others(SpreadOwner(sb), 1), SpreadOwner(sb)), sb.BBlock(sb.dataStart);
    hide BitBlocks, SpreadOwner, Groups, Numbers;
    forall x: nat ensures x in bits <==> first <= x < first + 10 {
      SpreadBit(sb, x);
    }
    assert bits == Numbers(first, first + 10);
  }

  lemma SpreadBit(sb: Super, x: nat)
    requires sb.Valid() && Groups(sb) >= 10
    ensures x in BitBlocks(sb, Others(SpreadOwner(sb), 1), SpreadOwner(sb)) <==>
            sb.BBlock(sb.dataStart) <= x < sb.BBlock(sb.dataStart) + 10
  {
    hide Spread, Groups, SpreadOwner;
    var own, first := SpreadOwner(sb), sb.BBlock(sb.dataStart);
    if first <= x < first + 10 {
      var k := x - first;
      SpreadApart(sb, k);
      SpreadOwned(sb, Spread(sb, k));
      assert Spread(sb, k) !in Others(own, 1);
    }
    if x in BitBlocks(sb, Others(own, 1), own) {
      var a :| a in own && sb.BBlock(a) == x;
      SpreadOwned(sb, a);
      SpreadApart(sb, own[a].1);
    }
  }

  // ---- A chunk of filewrite ----------------------------------------------------------------------------------------

  /** A disk with four bitmap blocks in use and 683 files. */
  function WideDisk(): Super { Super(12289, 684, 2, 90, 4089) }

  /** One free block for each bitmap block. */
  function Gaps(): set<nat> { {4095, 4096, 12287, 12288} }

  /** The n-th data block that is not free, and its inverse. */
  function Taken(n: nat): nat { if n < 6 then 4089 + n else 4091 + n }

  function Place(a: nat): nat
    requires a >= 4089
  {
    if a < 4095 then a - 4089 else a - 4091
  }

  /** Every file has the next twelve of them, the first ends with one byte in its last block. */
  function WideAddr(i: nat, k: nat): nat { if i > 0 && k < NDIRECT then Taken(12 * (i - 1) + k) else 0 }

  function WideSize(i: nat): nat { if i == 0 then 0 else if i == 1 then 11 * BSIZE + 1 else 12 * BSIZE }

  function WideInode(i: nat): Inode
  {
    Inode(if i == 0 then 0 else 1, 0, 0, 1, WideSize(i), seq(NDIRECT + 1, k requires k >= 0 => WideAddr(i, k)))
  }

  function WideInodes(): (r: seq<Inode>)
    ensures forall i :: 0 <= i < |r| ==> Fits(r[i])
  {
    seq(684, i requires 0 <= i < 684 => WideFits(i); WideInode(i))
  }

  lemma WideFits(i: nat)
    requires i < 684
    ensures Fits(WideInode(i))
  {
  }

  function WideImage(): Image
  {
    Image(Inscribed(WideDisk(), Bitmap(WideDisk(), b => b !in Gaps(), 12289), WideInodes(), 684), WideInodes())
  }

  ghost function WideOwner(): Owner
  {
    map a: nat | 4089 <= a < 12289 && a !in Gaps() :: (1 + Place(a) / 12, Place(a) % 12)
  }

  lemma WideImageOk()
    ensures FsOk(WideDisk(), WideImage(), WideOwner())
    ensures Free(WideDisk(), WideImage().blocks) == Gaps() && Scattered(Gaps()) && WrittenThrough(WideDisk(), WideImage())
  {
    hide FsOk, Used, WideOwner, WideAddr, DiskInode, WideImage;
    var sb, g, own := WideDisk(), WideImage(), WideOwner();
    WideIs();
    forall b: nat | b < sb.size ensures Used(sb, g.blocks, b) <==> b !in Gaps() {
      WideUse(b);
    }
    forall i: nat | i < 684 ensures DiskInode(sb, g.blocks, i) == g.inodes[i] {
      WideThrough(i);
    }
    forall b: nat ensures b in own <==> sb.Data(b) && b !in Gaps() {
      WideOwned(b);
    }
    forall i: nat, k: nat | i < 684 && k < NDIRECT
      ensures var a := WideAddr(i, k); (a != 0 ==> a in own && own[a] == (i, k)) && (a != 0 <==> k * BSIZE < WideSize(i))
    {
      AddrIsOwned(i, k);
    }
    forall a | a in own ensures own[a].0 < 684 && own[a].1 < NDIRECT && WideAddr(own[a].0, own[a].1) == a {
      OwnedIsAddr(a);
    }
    forall i: nat | i < 684 ensures WideAddr(i, NDIRECT) == 0 {
      NoIndirect(i);
    }
    DirectFilesOk(sb, g, own);
  }

  lemma WideIs()
    ensures WideDisk().Valid() && |WideImage().blocks| == 12289 && |WideImage().inodes| == 684
    ensures forall i: nat :: i < 684 ==> WideImage().inodes[i] == WideInode(i)
  {
    hide Bitmap, Inscribed, Fits, WideInode;
  }

  lemma WideUse(b: nat)
    requires b < 12289
    ensures |WideImage().blocks| == 12289 && (Used(WideDisk(), WideImage().blocks, b) <==> b !in Gaps())
  {
    hide Bitmap, Inscribed, Fits, WideInode, Used;
    var disk := Bitmap(WideDisk(), b => b !in Gaps(), 12289);
    BitmapUse(WideDisk(), b => b !in Gaps(), 12289, b);
    InscribedUse(WideDisk(), disk, WideInodes(), 684, b);
  }

  lemma WideThrough(i: nat)
    requires i < 684
    ensures |WideImage().blocks| == 12289 && |WideImage().inodes| == 684
            && DiskInode(WideDisk(), WideImage().blocks, i) == WideImage().inodes[i]
  {
    hide Bitmap, Inscribed, Fits, WideInode, DiskInode;
    InscribedInode(WideDisk(), Bitmap(WideDisk(), b => b !in Gaps(), 12289), WideInodes(), 684, i);
  }

  lemma WideOwned(b: nat)
    ensures b in WideOwner() <==> WideDisk().Data(b) && b !in Gaps()
  {
  }

  lemma NoIndirect(i: nat)
    ensures WideAddr(i, NDIRECT) == 0
  {
  }

  lemma AddrIsOwned(i: nat, k: nat)
    requires i < 684 && k < NDIRECT
    ensures var a := WideAddr(i, k);
            (a != 0 ==> a in WideOwner() && WideOwner()[a] == (i, k)) && (a != 0 <==> k * BSIZE < WideSize(i))
  {
    if i > 0 {
      var n := 12 * (i - 1) + k;
      assert n / 12 == i - 1 && n % 12 == k;
      assert Place(Taken(n)) == n;
    }
  }

  lemma OwnedIsAddr(a: nat)
    requires a in WideOwner()
    ensures WideOwner()[a].0 < 684 && WideOwner()[a].1 < NDIRECT && WideAddr(WideOwner()[a].0, WideOwner()[a].1) == a
  {
    assert Taken(Place(a)) == a;
  }

  lemma WideKinds()
    ensures forall i :: 0 <= i < |WideImage().inodes| && WideImage().inodes[i].kind == 0 ==> WideImage().inodes[i].size == 0
  {
    hide Bitmap, Inscribed, Fits;
  }

  /** A chunk that logs MAXOPBLOCKS blocks: 3 * BSIZE bytes at the end of the first file take the four free blocks. */
  method WorstChunk() returns (fs: FileSystem, r: Res<int>)
    ensures r == Ok(3 * BSIZE) && |fs.logged| == 10
  {
    hide FsOk, Bitmap, Used, Scattered, Free, FileSystem.Valid, WrittenThrough, Inscribed, Fits;
    WideImageOk();
    WideKinds();
    ChunkFits(0, 0, 0);
    fs := new FileSystem.Mount(WideDisk(), WideImage(), WideOwner());
    r := fs.WriteChunk(1, seq(3 * BSIZE, k => 0), 11 * BSIZE + 1);
  }
}
