/** The file system in the bytes of the disk (src/fs.h, src/fs.c): where each field
    of each inode, each bit of the free map and each byte of each file lies. */
module FsLayout {

  import opened Common
  import opened FsBlock
  import opened FsImage
  import opened FsInode
  import opened FsFormat

  /** Byte p of a disk. */
  function Raw(d: seq<Block>, p: nat): Byte { if p / BSIZE < |d| then d[p / BSIZE][p % BSIZE] else 0 }

  /** The number in the n bytes from p on, least significant byte first. */
  function Field(d: seq<Block>, p: nat, n: nat): nat
    decreases n
  {
    if n == 0 then 0 else Raw(d, p) + 0x100 * Field(d, p + 1, n - 1)
  }

  /** Where the struct dinode of inode i begins: 64 bytes each. */
  function Dinode(sb: Super, i: nat): nat { 512 * sb.inodestart + 64 * i }

  /** The number of block bn of file i: in its inode, or behind the twelfth in its indirect block. */
  function RawAddr(sb: Super, d: seq<Block>, i: nat, bn: nat): nat
  {
    if bn < 12 then Field(d, Dinode(sb, i) + 12 + 4 * bn, 4)
    else Field(d, 512 * Field(d, Dinode(sb, i) + 60, 4) + 4 * (bn - 12), 4)
  }

  function RawByte(sb: Super, d: seq<Block>, i: nat, p: nat): Byte { Raw(d, 512 * RawAddr(sb, d, i, p / 512) + p % 512) }

  /** File i as it is read off the disk without the kernel. */
  function RawFile(sb: Super, d: seq<Block>, i: nat): seq<Byte>
  {
    seq(Field(d, Dinode(sb, i) + 8, 4), p requires p >= 0 => RawByte(sb, d, i, p))
  }

  // ---- Words and shorts ------------------------------------------------------------------------

  lemma RawAt(d: seq<Block>, a: nat, o: nat)
    requires a < |d| && o < BSIZE
    ensures Raw(d, BSIZE * a + o) == d[a][o]
  {
  }

  lemma FieldStep(d: seq<Block>, p: nat, n: nat)
    requires n > 0
    ensures Field(d, p, n) == Raw(d, p) + 0x100 * Field(d, p + 1, n - 1)
  {
  }

  lemma Field2(d: seq<Block>, p: nat)
    ensures Field(d, p, 2) == Raw(d, p) + 0x100 * Raw(d, p + 1)
  {
    hide Raw, Field;
    FieldStep(d, p, 2);
    FieldStep(d, p + 1, 1);
    FieldNone(d, p + 2);
  }

  lemma FieldNone(d: seq<Block>, p: nat)
    ensures Field(d, p, 0) == 0
  {
  }

  lemma Field4(d: seq<Block>, p: nat)
    ensures Field(d, p, 4) == Field(d, p, 2) + 0x1_0000 * Field(d, p + 2, 2)
  {
    hide Raw, Field;
    FieldStep(d, p, 4);
    FieldStep(d, p + 1, 3);
    Field2(d, p);
  }

  lemma WordAt(d: seq<Block>, a: nat, k: nat)
    requires a < |d| && k < NINDIRECT
    ensures Word(d[a], k) == Field(d, BSIZE * a + 4 * k, 4)
  {
    hide Raw, Field;
    var p := BSIZE * a + 4 * k;
    Field4(d, p);
    Field2(d, p);
    Field2(d, p + 2);
    RawAt(d, a, 4 * k);
    RawAt(d, a, 4 * k + 1);
    RawAt(d, a, 4 * k + 2);
    RawAt(d, a, 4 * k + 3);
  }

  lemma ShortFits(d: seq<Block>, p: nat)
    ensures Field(d, p, 2) < SHORT
  {
    Field2(d, p);
  }

  lemma HalvesAt(d: seq<Block>, p: nat)
    ensures Low(Field(d, p, 4)) == Field(d, p, 2) && High(Field(d, p, 4)) == Field(d, p + 2, 2)
  {
    hide Raw, Field;
    Field4(d, p);
    ShortFits(d, p);
    ShortFits(d, p + 2);
    FsInode.Halves(Field(d, p, 2), Field(d, p + 2, 2));
  }

  // ---- Inodes ------------------------------------------------------------------------------------

  lemma SlotWordAt(sb: Super, d: seq<Block>, i: nat, j: nat)
    requires sb.Valid() && |d| == sb.size && i < sb.ninodes && j < WORDS
    ensures sb.IBlock(i) < |d| && SlotWord(d[sb.IBlock(i)], i % IPB, j) == Field(d, Dinode(sb, i) + 4 * j, 4)
  {
    hide Field, Word;
    assert sb.IBlock(i) < sb.bmapstart;
    WordAt(d, sb.IBlock(i), WORDS * (i % IPB) + j);
    assert BSIZE * sb.IBlock(i) + 4 * (WORDS * (i % IPB) + j) == Dinode(sb, i) + 4 * j;
  }

  /** struct dinode: four shorts, the size, and thirteen block numbers. */
  lemma InodeAt(sb: Super, d: seq<Block>, i: nat)
    requires sb.Valid() && |d| == sb.size && i < sb.ninodes
    ensures var x, p := DiskInode(sb, d, i), Dinode(sb, i);
            && x.kind == Field(d, p, 2) && x.major == Field(d, p + 2, 2) && x.minor == Field(d, p + 4, 2)
            && x.nlink == Field(d, p + 6, 2) && x.size == Field(d, p + 8, 4)
            && |x.addrs| == 13 && forall k :: 0 <= k < 13 ==> x.addrs[k] == Field(d, p + 12 + 4 * k, 4)
  {
    hide Field, SlotWord, Low, High;
    var p := Dinode(sb, i);
    forall j: nat | j < WORDS ensures SlotWord(d[sb.IBlock(i)], i % IPB, j) == Field(d, p + 4 * j, 4) {
      SlotWordAt(sb, d, i, j);
    }
    HalvesAt(d, p);
    HalvesAt(d, p + 4);
    forall k | 0 <= k < 13 ensures DiskInode(sb, d, i).addrs[k] == Field(d, p + 12 + 4 * k, 4) {
      assert SlotWord(d[sb.IBlock(i)], i % IPB, 3 + k) == Field(d, p + 4 * (3 + k), 4);
    }
  }

  // ---- The free map ----------------------------------------------------------------------------------

  lemma {:induction false} HasIs(x: nat, i: nat)
    ensures Has(x, i) <==> x / Pow2(i) % 2 == 1
    decreases i
  {
    if i > 0 {
      HasIs(x / 2, i - 1);
      Twice(x, Pow2(i - 1));
    }
  }

  lemma Twice(x: nat, n: nat)
    requires n > 0
    ensures x / 2 / n == x / (2 * n)
  {
    var q, r := x / 2 / n, x / 2 % n;
    Quotient(n, x / 2);
    var r2 := 2 * r + x % 2;
    assert x == 2 * (x / 2) + x % 2;
    Product(n, q);
    QuotientIs(2 * n, x, q, r2);
  }

  lemma Product(n: nat, q: nat)
    ensures (2 * n) * q == 2 * (n * q)
  {
  }

  lemma Quotient(n: nat, x: nat)
    requires n > 0
    ensures x == n * (x / n) + x % n && 0 <= x % n < n
  {
  }

  /** Division with remainder has one result. */
  lemma QuotientIs(d: nat, x: nat, q: nat, r: nat)
    requires r < d && x == d * q + r
    ensures x / d == q
  {
    var s := x / d;
    Quotient(d, x);
    if s > q {
      Apart(d, q, s - q);
    } else if s < q {
      Apart(d, s, q - s);
    }
  }

  lemma Apart(d: nat, q: nat, k: nat)
    requires k > 0
    ensures d * q + d <= d * (q + k)
  {
    Multiple(d, k);
    assert d * (q + k) == d * q + d * k;
  }

  lemma Multiple(n: nat, k: nat)
    requires k > 0
    ensures n * k >= n
  {
  }

  /** Block b is in use iff bit b % 8 of byte b / 8 of the free map is 1. */
  lemma UsedAt(sb: Super, d: seq<Block>, b: nat)
    requires sb.Valid() && |d| == sb.size && b < sb.size
    ensures Used(sb, d, b) <==> Raw(d, 512 * sb.bmapstart + b / 8) / Pow2(b % 8) % 2 == 1
  {
    hide Has, Raw, Pow2;
    var i := b % BPB;
    assert b / 8 == 512 * (b / BPB) + i / 8 && b % 8 == i % 8;
    RawAt(d, sb.BBlock(b), i / 8);
    HasIs(d[sb.BBlock(b)][i / 8], i % 8);
  }

  // ---- Files ---------------------------------------------------------------------------------------------

  /** The file system's notion of what a file holds is what the bytes of the disk say. */
  lemma FileOnDisk(sb: Super, g: Image, own: Owner, i: nat)
    requires Mountable(sb, g, own) && i < |g.inodes|
    ensures At(sb, g, i) && g.inodes[i].size <= MAXFILE * BSIZE && RawFile(sb, g.blocks, i) == Content(sb, g, i)
  {
    hide Field, Raw, RawByte, SlotsOwn, OwnersHave, BitsTell, Dense, FileByte, DiskInode;
    assert FileOk(sb, g, i) && DiskInode(sb, g.blocks, i) == g.inodes[i];
    InodeAt(sb, g.blocks, i);
    var f, c := RawFile(sb, g.blocks, i), Content(sb, g, i);
    forall p | 0 <= p < |c| ensures f[p] == c[p] {
      ByteOnDisk(sb, g, own, i, p);
    }
  }

  lemma ByteOnDisk(sb: Super, g: Image, own: Owner, i: nat, p: nat)
    requires Mountable(sb, g, own) && i < |g.inodes| && p < g.inodes[i].size <= MAXFILE * BSIZE
    ensures At(sb, g, i) && FileByte(sb, g, i, p) == RawByte(sb, g.blocks, i, p)
  {
    hide Field, Raw, RawAddr, SlotsOwn, OwnersHave, BitsTell, FileBlock, FsOk, WrittenThrough;
    AddrOnDisk(sb, g, own, i, p / 512);
    RawAt(g.blocks, FileBlock(sb, g, i, p / 512), p % 512);
  }

  lemma SlotOnDisk(sb: Super, g: Image, i: nat, bn: nat)
    requires At(sb, g, i) && bn < MAXFILE && (bn >= 12 ==> g.inodes[i].addrs[12] != 0)
    requires forall k :: 0 <= k < 13 ==> g.inodes[i].addrs[k] == Field(g.blocks, Dinode(sb, i) + 12 + 4 * k, 4)
    ensures FileBlock(sb, g, i, bn) == RawAddr(sb, g.blocks, i, bn)
  {
    hide Field, Word, Dinode;
    if bn >= 12 {
      WordAt(g.blocks, g.inodes[i].addrs[12], bn - 12);
    }
  }

  lemma AddrOnDisk(sb: Super, g: Image, own: Owner, i: nat, bn: nat)
    requires Mountable(sb, g, own) && i < |g.inodes| && bn * BSIZE < g.inodes[i].size <= MAXFILE * BSIZE
    ensures At(sb, g, i) && FileBlock(sb, g, i, bn) == RawAddr(sb, g.blocks, i, bn) < sb.size
  {
    hide Field, Raw, DiskInode, Word, BitsTell;
    assert FileOk(sb, g, i) && DiskInode(sb, g.blocks, i) == g.inodes[i];
    InodeAt(sb, g.blocks, i);
    SlotOnDisk(sb, g, i, bn);
    hide Slot, Dinode;
    assert Slot(g, i, FileSlot(bn)) != 0;
  }
}
