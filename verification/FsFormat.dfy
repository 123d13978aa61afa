/** Disks as mkfs lays them out (src/mkfs.c): the bitmap it writes, the empty file system, and file systems without
    indirect blocks. The last show that what writei and itrunc may log is logged by some of them. */
module FsFormat {

  import opened Common
  import opened FsBlock
  import opened FsImage
  import opened FsInode
  import opened FsWrite
  import opened FsCost
  import opened FsTrunc

  lemma {:induction false} ZeroBits(i: nat)
    ensures !Has(0, i)
  {
    if i > 0 {
      ZeroBits(i - 1);
    }
  }

  /** A disk of zeros with the bits of those blocks below n set that are in use. */
  function Bitmap(sb: Super, used: nat -> bool, n: nat): (r: seq<Block>)
    requires sb.Valid() && n <= sb.size
    ensures |r| == sb.size
  {
    if n == 0 then seq(sb.size, b => Zeros())
    else if used(n - 1) then Marked(sb, Bitmap(sb, used, n - 1), n - 1) else Bitmap(sb, used, n - 1)
  }

  lemma {:induction false} BitmapUse(sb: Super, used: nat -> bool, n: nat, c: nat)
    requires sb.Valid() && n <= sb.size && c < sb.size
    ensures Used(sb, Bitmap(sb, used, n), c) <==> c < n && used(c)
    decreases n
  {
    hide Bit, Marked;
    if n == 0 {
      assert Bitmap(sb, used, 0)[sb.BBlock(c)] == Zeros();
      EmptyBit(c % BPB);
    } else {
      BitmapUse(sb, used, n - 1, c);
      if used(n - 1) {
        MarkedUse(sb, Bitmap(sb, used, n - 1), n - 1, c);
      }
    }
  }

  lemma EmptyBit(i: nat)
    requires i < BPB
    ensures !Bit(Zeros(), i)
  {
    ZeroBits(i % 8);
  }

  /** Files of direct blocks: every address that is set is owned by its place, and the other way round; a file has the
      blocks its size asks for; the bitmap has the metadata and what is owned. */
  ghost predicate DirectFiles(sb: Super, g: Image, own: Owner)
  {
    && Shaped(sb, g)
    && (forall i :: 0 <= i < |g.inodes| ==> g.inodes[i].addrs[NDIRECT] == 0 && g.inodes[i].size <= NDIRECT * BSIZE)
    && (forall i, k :: 0 <= i < |g.inodes| && 0 <= k < NDIRECT ==> var a := g.inodes[i].addrs[k];
          (a != 0 ==> a in own && own[a] == (i, k)) && (a != 0 <==> k * BSIZE < g.inodes[i].size))
    && (forall a :: a in own ==>
       sb.Data(a) && own[a].0 < |g.inodes| && own[a].1 < NDIRECT && g.inodes[own[a].0].addrs[own[a].1] == a)
    && (forall b: nat :: b < sb.size ==> (Used(sb, g.blocks, b) <==> b < sb.dataStart || b in own))
  }

  lemma DirectFilesOk(sb: Super, g: Image, own: Owner)
    requires DirectFiles(sb, g, own)
    ensures FsOk(sb, g, own)
  {
    hide Used, Word;
    forall i, k | 0 <= i < |g.inodes| && 0 <= k < NSLOTS
      ensures Slot(g, i, k) == if k < NDIRECT then g.inodes[i].addrs[k] else 0
    {
    }
    hide Slot;
    forall i | 0 <= i < |g.inodes| ensures FileOk(sb, g, i) {
      forall bn: nat | bn < MAXFILE ensures FileBlock(sb, g, i, bn) != 0 <==> bn * BSIZE < g.inodes[i].size {
        assert FileBlock(sb, g, i, bn) == if bn < NDIRECT then g.inodes[i].addrs[bn] else 0;
      }
    }
  }

  // ---- An empty file system -------------------------------------------------------------------------------------

  /** What mkfs writes, before it copies any file: the bits of the metadata set, all others clear, every inode free. */
  function Formatted(sb: Super): Image
    requires sb.Valid()
  {
    Image(Bitmap(sb, b => b < sb.dataStart, sb.dataStart), seq(sb.ninodes, i => NewInode(0)))
  }

  lemma FormattedOk(sb: Super)
    requires sb.Valid()
    ensures FsOk(sb, Formatted(sb), map[]) && Free(sb, Formatted(sb).blocks) == Numbers(sb.dataStart, sb.size)
  {
    hide Used, Bitmap, FsOk;
    var g := Formatted(sb);
    forall b: nat | b < sb.size ensures Used(sb, g.blocks, b) <==> b < sb.dataStart {
      BitmapUse(sb, b => b < sb.dataStart, sb.dataStart, b);
    }
    DirectFilesOk(sb, g, map[]);
  }

  lemma {:induction false} BitmapLow(sb: Super, used: nat -> bool, n: nat, b: nat)
    requires sb.Valid() && n <= sb.size && b < sb.bmapstart
    ensures Bitmap(sb, used, n)[b] == Zeros()
    decreases n
  {
    hide SetBit;
    if n > 0 {
      BitmapLow(sb, used, n - 1, b);
    }
  }

  lemma ZeroInode(k: nat)
    requires k < IPB
    ensures LoadedInode(Zeros(), k) == NewInode(0)
  {
    hide Word;
    forall j: nat | j < WORDS ensures SlotWord(Zeros(), k, j) == 0 {
      ZeroWords(WORDS * k + j);
    }
    hide SlotWord;
  }

  lemma FormattedThrough(sb: Super)
    requires sb.Valid()
    ensures Shaped(sb, Formatted(sb)) && WrittenThrough(sb, Formatted(sb))
  {
    hide Bitmap, LoadedInode;
    var g := Formatted(sb);
    forall i: nat | i < |g.inodes| ensures DiskInode(sb, g.blocks, i) == g.inodes[i] {
      BitmapLow(sb, b => b < sb.dataStart, sb.dataStart, sb.IBlock(i));
      ZeroInode(i % IPB);
    }
  }

  /** The first n inodes written to the disk. */
  function Inscribed(sb: Super, blocks: seq<Block>, inodes: seq<Inode>, n: nat): (r: seq<Block>)
    requires sb.Valid() && |blocks| == sb.size && n <= |inodes| == sb.ninodes && forall i :: 0 <= i < |inodes| ==> Fits(inodes[i])
    ensures |r| == sb.size
  {
    if n == 0 then blocks else Updated(sb, Inscribed(sb, blocks, inodes, n - 1), n - 1, inodes[n - 1])
  }

  lemma {:induction false} InscribedInode(sb: Super, blocks: seq<Block>, inodes: seq<Inode>, n: nat, i: nat)
    requires sb.Valid() && |blocks| == sb.size && n <= |inodes| == sb.ninodes && forall i :: 0 <= i < |inodes| ==> Fits(inodes[i])
    requires i < n
    ensures DiskInode(sb, Inscribed(sb, blocks, inodes, n), i) == inodes[i]
    decreases n
  {
    hide DiskInode, Updated, Fits;
    UpdatedInode(sb, Inscribed(sb, blocks, inodes, n - 1), n - 1, inodes[n - 1], i);
    if i < n - 1 {
      InscribedInode(sb, blocks, inodes, n - 1, i);
    }
  }

  lemma {:induction false} InscribedElsewhere(sb: Super, blocks: seq<Block>, inodes: seq<Inode>, n: nat, b: nat)
    requires sb.Valid() && |blocks| == sb.size && n <= |inodes| == sb.ninodes && forall i :: 0 <= i < |inodes| ==> Fits(inodes[i])
    requires sb.bmapstart <= b < sb.size
    ensures Inscribed(sb, blocks, inodes, n)[b] == blocks[b]
    decreases n
  {
    hide StoredInode, Fits;
    if n > 0 {
      InscribedElsewhere(sb, blocks, inodes, n - 1, b);
    }
  }

  lemma InscribedUse(sb: Super, blocks: seq<Block>, inodes: seq<Inode>, n: nat, b: nat)
    requires sb.Valid() && |blocks| == sb.size && n <= |inodes| == sb.ninodes && forall i :: 0 <= i < |inodes| ==> Fits(inodes[i])
    requires b < sb.size
    ensures Used(sb, Inscribed(sb, blocks, inodes, n), b) == Used(sb, blocks, b)
  {
    hide Bit, Fits, Inscribed;
    InscribedElsewhere(sb, blocks, inodes, n, sb.BBlock(b));
  }

  /** A file system that the kernel can start from: the invariant holds, the inodes on disk are those in memory, and free
      inodes have no bytes. */
  ghost predicate Mountable(sb: Super, g: Image, own: Owner)
  {
    && FsOk(sb, g, own) && WrittenThrough(sb, g)
    && forall i :: 0 <= i < |g.inodes| && g.inodes[i].kind == 0 ==> g.inodes[i].size == 0
  }
}
