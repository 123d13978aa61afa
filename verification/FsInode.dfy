/** Inodes on disk (src/fs.h, src/fs.c): eight to a block, sixteen words each. */
module FsInode {

  import opened Common
  import opened FsBlock
  import opened FsImage

  const WORDS: nat := 16        // words of a struct dinode
  const SHORT: nat := 0x1_0000

  /** The values that a struct dinode can hold. */
  predicate Fits(x: Inode)
  {
    && x.kind < SHORT && x.major < SHORT && x.minor < SHORT && x.nlink < SHORT && x.size < UINT
    && |x.addrs| == NDIRECT + 1 && forall k :: 0 <= k < |x.addrs| ==> x.addrs[k] < UINT
  }

  /** Word j of a struct dinode: two pairs of shorts, the size, and the addresses. */
  function InodeWord(x: Inode, j: nat): (w: nat)
    requires Fits(x) && j < WORDS
    ensures w < UINT
  {
    match j
    case 0 => x.kind + SHORT * x.major
    case 1 => x.minor + SHORT * x.nlink
    case 2 => x.size
    case _ => x.addrs[j - 3]
  }

  /** The first n words of inode x stored in slot k. */
  function StoredWords(b: Block, k: nat, x: Inode, n: nat): Block
    requires k < IPB && Fits(x) && n <= WORDS
  {
    if n == 0 then b else SetWord(StoredWords(b, k, x, n - 1), WORDS * k + n - 1, InodeWord(x, n - 1))
  }

  /** iupdate's stores. */
  function StoredInode(b: Block, k: nat, x: Inode): Block
    requires k < IPB && Fits(x)
  {
    StoredWords(b, k, x, WORDS)
  }

  /** Word j of the inode in slot k. */
  function SlotWord(b: Block, k: nat, j: nat): (w: nat)
    requires k < IPB && j < WORDS
    ensures w < UINT
  {
    Word(b, WORDS * k + j)
  }

  function Low(w: nat): nat { w % SHORT }

  function High(w: nat): nat { w / SHORT }

  lemma Halves(lo: nat, hi: nat)
    requires lo < SHORT && hi < SHORT
    ensures Low(lo + SHORT * hi) == lo && High(lo + SHORT * hi) == hi
  {
  }

  /** ilock's loads. */
  function LoadedInode(b: Block, k: nat): Inode
    requires k < IPB
  {
    var w0, w1 := SlotWord(b, k, 0), SlotWord(b, k, 1);
    Inode(Low(w0), High(w0), Low(w1), High(w1), SlotWord(b, k, 2),
        seq<nat>(NDIRECT + 1, j requires 0 <= j <= NDIRECT => SlotWord(b, k, 3 + j)))
  }

  lemma LoadedFits(b: Block, k: nat)
    requires k < IPB
    ensures Fits(LoadedInode(b, k))
  {
    hide SlotWord;
  }

  lemma {:induction false} StoredWord(b: Block, k: nat, x: Inode, n: nat, j: nat)
    requires k < IPB && Fits(x) && n <= WORDS && j < NINDIRECT
    ensures Word(StoredWords(b, k, x, n), j) == if WORDS * k <= j < WORDS * k + n then InodeWord(x, j - WORDS * k) else Word(b, j)
    decreases n
  {
    hide Word, SetWord, InodeWord;
    if n > 0 {
      StoredWord(b, k, x, n - 1, j);
      WordAfter(StoredWords(b, k, x, n - 1), WORDS * k + n - 1, InodeWord(x, n - 1), j);
    }
  }

  /** What iupdate stores is what ilock loads, and the other seven inodes of the block are as they were. */
  lemma InodeRoundTrip(b: Block, k: nat, x: Inode, l: nat)
    requires k < IPB && Fits(x) && l < IPB
    ensures LoadedInode(StoredInode(b, k, x), l) == if l == k then x else LoadedInode(b, l)
  {
    var b' := StoredInode(b, k, x);
    hide SlotWord, StoredInode, Low, High;
    forall j: nat | j < WORDS ensures SlotWord(b', l, j) == if l == k then InodeWord(x, j) else SlotWord(b, l, j) {
      SlotStored(b, k, x, l, j);
    }
    Halves(x.kind, x.major);
    Halves(x.minor, x.nlink);
    var y, z := LoadedInode(b', l), LoadedInode(b, l);
    assert y.addrs == if l == k then x.addrs else z.addrs by {
      forall j | 0 <= j <= NDIRECT ensures y.addrs[j] == if l == k then x.addrs[j] else z.addrs[j] {
        assert y.addrs[j] == SlotWord(b', l, 3 + j) && z.addrs[j] == SlotWord(b, l, 3 + j);
      }
    }
  }

  lemma SlotStored(b: Block, k: nat, x: Inode, l: nat, j: nat)
    requires k < IPB && Fits(x) && l < IPB && j < WORDS
    ensures SlotWord(StoredInode(b, k, x), l, j) == if l == k then InodeWord(x, j) else SlotWord(b, l, j)
  {
    hide Word, StoredWords, InodeWord;
    StoredWord(b, k, x, WORDS, WORDS * l + j);
  }

  // ---- On the whole disk ----------------------------------------------------------------------------------------

  /** Inode i as it is on disk. */
  function DiskInode(sb: Super, blocks: seq<Block>, i: nat): Inode
    requires sb.Valid() && |blocks| == sb.size && i < sb.ninodes
  {
    LoadedInode(blocks[sb.IBlock(i)], i % IPB)
  }

  /** Every inode on disk is the one in memory. */
  ghost predicate WrittenThrough(sb: Super, g: Image)
    requires Shaped(sb, g)
  {
    forall i: nat :: i < |g.inodes| ==> DiskInode(sb, g.blocks, i) == g.inodes[i]
  }

  /** The disk after iupdate of inode i. */
  function Updated(sb: Super, blocks: seq<Block>, i: nat, x: Inode): seq<Block>
    requires sb.Valid() && |blocks| == sb.size && i < sb.ninodes && Fits(x)
  {
    blocks[sb.IBlock(i) := StoredInode(blocks[sb.IBlock(i)], i % IPB, x)]
  }

  lemma UpdatedInode(sb: Super, blocks: seq<Block>, i: nat, x: Inode, j: nat)
    requires sb.Valid() && |blocks| == sb.size && i < sb.ninodes && Fits(x) && j < sb.ninodes
    ensures DiskInode(sb, Updated(sb, blocks, i, x), j) == if j == i then x else DiskInode(sb, blocks, j)
  {
    hide LoadedInode, StoredInode;
    InodeRoundTrip(blocks[sb.IBlock(i)], i % IPB, x, j % IPB);
  }

  /** The inode area decides what the inodes on disk are. */
  lemma LowSameInodes(sb: Super, blocks: seq<Block>, blocks': seq<Block>, i: nat)
    requires sb.Valid() && |blocks| == sb.size && LowSame(sb, blocks, blocks') && i < sb.ninodes
    ensures DiskInode(sb, blocks', i) == DiskInode(sb, blocks, i)
  {
    hide LoadedInode;
    assert sb.IBlock(i) < sb.bmapstart;
  }
}
