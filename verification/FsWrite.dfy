/** One turn of writei's loop, and of readi's, on the file system as a value. */
module FsWrite {

  import opened Common
  import opened FsBlock
  import opened FsImage

  function Max(a: nat, b: nat): nat { if a < b then b else a }

  /** Bytes `data` written over `block` from position `at`. */
  function Patched(block: Block, at: nat, data: seq<Byte>): Block
    requires at + |data| <= BSIZE
  {
    block[..at] + data + block[at + |data|..]
  }

  /** A file nobody is writing: its inode and its bytes are as they were. */
  ghost predicate Untouched(sb: Super, g0: Image, g: Image, j: nat)
    requires Shaped(sb, g0) && Shaped(sb, g) && |g.inodes| == |g0.inodes| && j < |g.inodes|
  {
    && g.inodes[j] == g0.inodes[j] && FileOk(sb, g, j)
    && forall p: nat :: p < g0.inodes[j].size ==> FileByte(sb, g, j, p) == FileByte(sb, g0, j, p)
  }

  /** The middle of writei: bytes off0 to off of file i have been written, its size is still the old one. */
  ghost predicate Writing(sb: Super, g0: Image, g: Image, owner: Owner, i: nat, off0: nat, off: nat, src: seq<Byte>)
  {
    && Shaped(sb, g0) && Owned(sb, g, owner, {}) && |g.inodes| == |g0.inodes| && i < |g.inodes|
    && off0 <= g0.inodes[i].size <= MAXFILE * BSIZE && off0 <= off <= off0 + |src| <= MAXFILE * BSIZE
    && g.inodes[i] == g0.inodes[i].(addrs := g.inodes[i].addrs)
    && (off <= g0.inodes[i].size ==> g.inodes[i] == g0.inodes[i])
    && Dense(sb, g, i, Max(g0.inodes[i].size, off))
    && (forall p: nat :: p < Max(g0.inodes[i].size, off) ==>
          FileByte(sb, g, i, p) == if off0 <= p < off then src[p - off0] else FileByte(sb, g0, i, p))
    && (forall j :: 0 <= j < |g.inodes| && j != i ==> Untouched(sb, g0, g, j))
    && LowSame(sb, g0.blocks, g.blocks)
  }

  /** How far one turn gets: to the end of the block, or of the data. */
  function Piece(off: nat, left: nat): (m: nat)
    ensures m <= left && m <= BSIZE - off % BSIZE && (left > 0 ==> m > 0)
  {
    if left < BSIZE - off % BSIZE then left else BSIZE - off % BSIZE
  }

  lemma PieceBlock(off: nat, m: nat)
    requires m <= BSIZE - off % BSIZE
    ensures off / BSIZE * BSIZE <= off && off + m <= (off / BSIZE + 1) * BSIZE
    ensures forall p: nat :: off <= p < off + m ==> p / BSIZE == off / BSIZE && p % BSIZE == off % BSIZE + (p - off)
  {
  }

  /** The block under the write is allocated, and with it exactly the blocks that the longer prefix needs. */
  lemma StepDense(sb: Super, g: Image, owner: Owner, g1: Image, owner1: Owner, i: nat, off: nat, m: nat, n: nat, a: nat)
    requires Owned(sb, g, owner, {}) && i < |g.inodes| && off <= n && 0 < m <= BSIZE - off % BSIZE && off + m <= MAXFILE * BSIZE
    requires Dense(sb, g, i, n) && Mapped(sb, g, owner, g1, owner1, i, off / BSIZE, a)
    ensures Dense(sb, g1, i, Max(n, off + m))
  {
    hide Slot, SlotsOwn, OwnersHave, BitsTell, Grows;
    PieceBlock(off, m);
    forall cn: nat | cn < MAXFILE ensures FileBlock(sb, g1, i, cn) != 0 <==> cn * BSIZE < Max(n, off + m) {
    }
  }

  /** Whether a file is dense depends on its slots only. */
  lemma DenseBySlots(sb: Super, g: Image, g': Image, j: nat, n: nat)
    requires At(sb, g, j) && At(sb, g', j) && Dense(sb, g, j, n)
    requires forall k :: 0 <= k < NSLOTS ==> Slot(g', j, k) == Slot(g, j, k)
    ensures Dense(sb, g', j, n)
  {
    hide Slot;
    forall bn: nat | bn < MAXFILE ensures FileBlock(sb, g', j, bn) == FileBlock(sb, g, j, bn) {
    }
  }

  /** Storing into file blocks moves no block. */
  lemma StoreDense(sb: Super, g: Image, owner: Owner, i: nat, bn: nat, x: Block, j: nat, n: nat)
    requires Owned(sb, g, owner, {}) && i < |g.inodes| && bn < MAXFILE && FileBlock(sb, g, i, bn) != 0
    requires j < |g.inodes| && Dense(sb, g, j, n)
    ensures var a := FileBlock(sb, g, i, bn);
            && sb.Data(a) && var g' := Image(g.blocks[a := x], g.inodes);
            && Owned(sb, g', owner, {}) && Dense(sb, g', j, n)
  {
    hide Slot, Dense, SlotsOwn, OwnersHave, BitsTell, Plain;
    FileBlockIsPlain(sb, g, owner, {}, i, bn);
    var a := FileBlock(sb, g, i, bn);
    StoreKeepsOwned(sb, g, owner, {}, a, x);
    DenseBySlots(sb, g, Image(g.blocks[a := x], g.inodes), j, n);
  }

  /** Growing one file keeps the others dense. */
  lemma GrowsDense(sb: Super, g: Image, owner: Owner, g1: Image, i: nat, j: nat, n: nat)
    requires Owned(sb, g, owner, {}) && Grows(sb, g, owner, g1, i) && |g1.inodes| == |g.inodes|
    requires j < |g.inodes| && j != i && Dense(sb, g, j, n)
    ensures Dense(sb, g1, j, n)
  {
    hide Slot, Dense, SlotsOwn, OwnersHave, BitsTell;
    DenseBySlots(sb, g, g1, j, n);
  }

  /** The image after one turn: the block under the write, mapped, with the piece patched in. */
  function Stepped(g1: Image, a: nat, off: nat, data: seq<Byte>): Image
    requires a < |g1.blocks| && off % BSIZE + |data| <= BSIZE
  {
    Image(g1.blocks[a := Patched(g1.blocks[a], off % BSIZE, data)], g1.inodes)
  }

  /** A byte of any file after one turn, where a byte was before. */
  lemma StepByte(sb: Super, g: Image, owner: Owner, g1: Image, owner1: Owner, i: nat, off: nat, data: seq<Byte>, a: nat,
                 j: nat, p: nat)
    requires Owned(sb, g, owner, {}) && i < |g.inodes| && off % BSIZE + |data| <= BSIZE
    requires Mapped(sb, g, owner, g1, owner1, i, off / BSIZE, a) && a < sb.size
    requires j < |g.inodes| && p < MAXFILE * BSIZE && FileBlock(sb, g, j, p / BSIZE) != 0
    ensures var g2 := Stepped(g1, a, off, data);
            && At(sb, g2, j)
            && FileByte(sb, g2, j, p) == if j == i && off <= p < off + |data| then data[p - off] else FileByte(sb, g, j, p)
  {
    hide Slot, SlotsOwn, OwnersHave, BitsTell, FileBlock, FileByte;
    PieceBlock(off, |data|);
    GrowsBytes(sb, g, owner, g1, i, j, p);
    var x := Patched(g1.blocks[a], off % BSIZE, data);
    StoreBytes(sb, g1, owner1, i, off / BSIZE, x, j, p);
    PatchedAt(g1.blocks[a], off % BSIZE, data, p % BSIZE);
    if j == i && p / BSIZE == off / BSIZE {
      ByteIs(sb, g1, j, p);
      InPiece(off, |data|, p);
    }
  }

  lemma ByteIs(sb: Super, g: Image, j: nat, p: nat)
    requires At(sb, g, j) && p < MAXFILE * BSIZE && FileBlock(sb, g, j, p / BSIZE) < |g.blocks|
    ensures FileByte(sb, g, j, p) == g.blocks[FileBlock(sb, g, j, p / BSIZE)][p % BSIZE]
  {
  }

  lemma InPiece(off: nat, m: nat, p: nat)
    requires m <= BSIZE - off % BSIZE && p / BSIZE == off / BSIZE
    ensures off <= p < off + m <==> off % BSIZE <= p % BSIZE < off % BSIZE + m
    ensures off <= p < off + m ==> p - off == p % BSIZE - off % BSIZE
  {
  }

  lemma PatchedAt(block: Block, at: nat, data: seq<Byte>, k: nat)
    requires at + |data| <= BSIZE && k < BSIZE
    ensures Patched(block, at, data)[k] == if at <= k < at + |data| then data[k - at] else block[k]
  {
  }

  /** A byte of the written file after one turn, in the block under the write, whether or not it was there before. */
  lemma StepNewByte(sb: Super, g: Image, owner: Owner, g1: Image, owner1: Owner, i: nat, off: nat, data: seq<Byte>, a: nat,
                    p: nat)
    requires Owned(sb, g, owner, {}) && i < |g.inodes| && off % BSIZE + |data| <= BSIZE
    requires Mapped(sb, g, owner, g1, owner1, i, off / BSIZE, a) && a < sb.size
    requires off <= p < off + |data| && p < MAXFILE * BSIZE
    ensures var g2 := Stepped(g1, a, off, data); At(sb, g2, i) && FileByte(sb, g2, i, p) == data[p - off]
  {
    hide Slot, SlotsOwn, OwnersHave, BitsTell, FileBlock, FileByte;
    PieceBlock(off, |data|);
    var x := Patched(g1.blocks[a], off % BSIZE, data);
    StoreBytes(sb, g1, owner1, i, off / BSIZE, x, i, p);
    PatchedAt(g1.blocks[a], off % BSIZE, data, p % BSIZE);
  }

  /** One turn of writei's loop keeps the other files as they are. */
  lemma StepUntouched(sb: Super, g0: Image, g: Image, owner: Owner, g1: Image, owner1: Owner, i: nat, off: nat,
                      data: seq<Byte>, a: nat, j: nat)
    requires Shaped(sb, g0) && Owned(sb, g, owner, {}) && |g.inodes| == |g0.inodes| && i < |g.inodes|
             && off % BSIZE + |data| <= BSIZE
    requires Mapped(sb, g, owner, g1, owner1, i, off / BSIZE, a) && a < sb.size && |g1.inodes| == |g.inodes|
    requires j < |g.inodes| && j != i && Untouched(sb, g0, g, j)
    requires Owned(sb, Stepped(g1, a, off, data), owner1, {})
    ensures Untouched(sb, g0, Stepped(g1, a, off, data), j)
  {
    hide Slot, SlotsOwn, OwnersHave, BitsTell, FileByte, Patched;
    var g2, n := Stepped(g1, a, off, data), g0.inodes[j].size;
    GrowsDense(sb, g, owner, g1, i, j, n);
    StoreDense(sb, g1, owner1, i, off / BSIZE, g2.blocks[a], j, n);
    forall p: nat | p < n ensures FileByte(sb, g2, j, p) == FileByte(sb, g0, j, p) {
      DenseHas(sb, g, j, n, p);
      StepByte(sb, g, owner, g1, owner1, i, off, data, a, j, p);
    }
  }

  lemma DenseHas(sb: Super, g: Image, j: nat, n: nat, p: nat)
    requires At(sb, g, j) && Dense(sb, g, j, n) && p < n <= MAXFILE * BSIZE
    ensures p / BSIZE < MAXFILE && FileBlock(sb, g, j, p / BSIZE) != 0
  {
  }

  lemma MappedBelow(sb: Super, g: Image, owner: Owner, g1: Image, owner1: Owner, i: nat, bn: nat, a: nat)
    requires Mapped(sb, g, owner, g1, owner1, i, bn, a) && i < |g.inodes| && |g1.inodes| == |g.inodes|
    ensures a < sb.size && sb.Data(a) && |g1.blocks| == sb.size
  {
    hide Slot;
    FileBlockIsPlain(sb, g1, owner1, {}, i, bn);
  }

  /** The bytes of the written file after one turn. */
  lemma StepOwnBytes(sb: Super, g0: Image, g: Image, owner: Owner, g1: Image, owner1: Owner, i: nat, off0: nat, off: nat,
                     src: seq<Byte>, m: nat, a: nat, p: nat)
    requires Writing(sb, g0, g, owner, i, off0, off, src) && m == Piece(off, |src| - (off - off0)) && m > 0
    requires Mapped(sb, g, owner, g1, owner1, i, off / BSIZE, a) && a < sb.size
    requires p < Max(g0.inodes[i].size, off + m)
    ensures var g2 := Stepped(g1, a, off, src[off - off0..off - off0 + m]);
            At(sb, g2, i) && FileByte(sb, g2, i, p) == if off0 <= p < off + m then src[p - off0] else FileByte(sb, g0, i, p)
  {
    hide Slot, SlotsOwn, OwnersHave, BitsTell, FileByte, Mapped, Untouched, Dense;
    var data := src[off - off0..off - off0 + m];
    if off <= p < off + m {
      StepNewByte(sb, g, owner, g1, owner1, i, off, data, a, p);
    } else {
      DenseHas(sb, g, i, Max(g0.inodes[i].size, off), p);
      StepByte(sb, g, owner, g1, owner1, i, off, data, a, i, p);
    }
  }

  /** One turn of writei's loop. */
  lemma WritingStep(sb: Super, g0: Image, g: Image, owner: Owner, g1: Image, owner1: Owner, i: nat, off0: nat, off: nat,
                    src: seq<Byte>, m: nat, a: nat)
    requires Writing(sb, g0, g, owner, i, off0, off, src) && m == Piece(off, |src| - (off - off0)) && m > 0
    requires Mapped(sb, g, owner, g1, owner1, i, off / BSIZE, a)
    ensures a < |g1.blocks|
            && Writing(sb, g0, Stepped(g1, a, off, src[off - off0..off - off0 + m]), owner1, i, off0, off + m, src)
  {
    hide Slot, SlotsOwn, OwnersHave, BitsTell, FileByte, Dense, Patched, Untouched, FileBlock;
    var n, data := Max(g0.inodes[i].size, off), src[off - off0..off - off0 + m];
    MappedBelow(sb, g, owner, g1, owner1, i, off / BSIZE, a);
    StepDense(sb, g, owner, g1, owner1, i, off, m, n, a);
    var g2 := Stepped(g1, a, off, data);
    StoreDense(sb, g1, owner1, i, off / BSIZE, g2.blocks[a], i, Max(n, off + m));
    forall p: nat | p < Max(g0.inodes[i].size, off + m)
      ensures FileByte(sb, g2, i, p) == if off0 <= p < off + m then src[p - off0] else FileByte(sb, g0, i, p)
    {
      StepOwnBytes(sb, g0, g, owner, g1, owner1, i, off0, off, src, m, a, p);
    }
    forall j | 0 <= j < |g2.inodes| && j != i ensures Untouched(sb, g0, g2, j) {
      StepUntouched(sb, g0, g, owner, g1, owner1, i, off, data, a, j);
    }
    if off + m <= g0.inodes[i].size {
      StepInside(sb, g, owner, g1, owner1, i, off, n, a);
    }
  }

  /** Writing inside the file allocates nothing. */
  lemma StepInside(sb: Super, g: Image, owner: Owner, g1: Image, owner1: Owner, i: nat, off: nat, n: nat, a: nat)
    requires Mapped(sb, g, owner, g1, owner1, i, off / BSIZE, a) && At(sb, g, i) && Dense(sb, g, i, n)
             && off < n <= MAXFILE * BSIZE
    ensures g1 == g && owner1 == owner
  {
    DenseHas(sb, g, i, n, off);
  }

  /** What writei makes of a byte sequence. */
  function Spliced(c: seq<Byte>, off: nat, src: seq<Byte>): seq<Byte>
    requires off <= |c|
  {
    c[..off] + src + if off + |src| < |c| then c[off + |src|..] else []
  }

  lemma WritingBegins(sb: Super, g: Image, owner: Owner, i: nat, off: nat, src: seq<Byte>)
    requires FsOk(sb, g, owner) && i < |g.inodes| && off <= g.inodes[i].size && off + |src| <= MAXFILE * BSIZE
    ensures Writing(sb, g, g, owner, i, off, off, src)
  {
    hide Slot, SlotsOwn, OwnersHave, BitsTell, FileByte, Dense;
    assert FileOk(sb, g, i);
    forall j | 0 <= j < |g.inodes| && j != i ensures Untouched(sb, g, g, j) {
      assert FileOk(sb, g, j);
    }
  }

  function Resized(g: Image, i: nat, n: nat): Image
    requires i < |g.inodes|
  {
    g.(inodes := g.inodes[i := g.inodes[i].(size := n)])
  }

  /** A file's size has nothing to do with where its blocks are. */
  lemma ResizedSlot(sb: Super, g: Image, i: nat, n: nat, j: nat, k: nat)
    requires Shaped(sb, g) && i < |g.inodes| && j < |g.inodes| && k < NSLOTS
    ensures Shaped(sb, Resized(g, i, n)) && Slot(Resized(g, i, n), j, k) == Slot(g, j, k)
  {
  }

  lemma ResizedOwned(sb: Super, g: Image, owner: Owner, i: nat, n: nat)
    requires Owned(sb, g, owner, {}) && i < |g.inodes|
    ensures Owned(sb, Resized(g, i, n), owner, {})
    ensures forall j, k :: 0 <= j < |g.inodes| && 0 <= k < NSLOTS ==> Slot(Resized(g, i, n), j, k) == Slot(g, j, k)
  {
    hide Slot, Used;
    ResizedSlot(sb, g, i, n, i, 0);
    forall j, k | 0 <= j < |g.inodes| && 0 <= k < NSLOTS ensures Slot(Resized(g, i, n), j, k) == Slot(g, j, k) {
      ResizedSlot(sb, g, i, n, j, k);
    }
  }

  lemma ResizedByte(sb: Super, g: Image, owner: Owner, i: nat, n: nat, j: nat, p: nat)
    requires Owned(sb, g, owner, {}) && i < |g.inodes| && j < |g.inodes| && p < MAXFILE * BSIZE
    ensures At(sb, Resized(g, i, n), j) && FileByte(sb, Resized(g, i, n), j, p) == FileByte(sb, g, j, p)
  {
    hide Slot;
    ResizedSlot(sb, g, i, n, j, FileSlot(p / BSIZE));
  }

  /** The image after writei has set the size, if the file grew. */
  function Finished(g: Image, i: nat, off: nat): Image
    requires i < |g.inodes|
  {
    if off > g.inodes[i].size then Resized(g, i, off) else g
  }

  lemma FinishedOk(sb: Super, g0: Image, g: Image, owner: Owner, i: nat, off0: nat, src: seq<Byte>)
    requires Writing(sb, g0, g, owner, i, off0, off0 + |src|, src)
    ensures FsOk(sb, Finished(g, i, off0 + |src|), owner)
    ensures Finished(g, i, off0 + |src|).inodes[i].size == Max(g0.inodes[i].size, off0 + |src|)
  {
    hide Slot, SlotsOwn, OwnersHave, BitsTell, FileByte, Dense;
    var off := off0 + |src|;
    var g' := Finished(g, i, off);
    ResizedOwned(sb, g, owner, i, off);
    forall j | 0 <= j < |g'.inodes| ensures FileOk(sb, g', j) {
      assert j != i ==> Untouched(sb, g0, g, j);
      DenseBySlots(sb, g, g', j, g'.inodes[j].size);
    }
  }

  lemma ContentAt(sb: Super, g: Image, i: nat, p: nat)
    requires At(sb, g, i) && p < g.inodes[i].size <= MAXFILE * BSIZE
    ensures |Content(sb, g, i)| == g.inodes[i].size && Content(sb, g, i)[p] == FileByte(sb, g, i, p)
  {
  }

  lemma FinishedByte(sb: Super, g0: Image, g: Image, owner: Owner, i: nat, off0: nat, src: seq<Byte>, p: nat)
    requires Writing(sb, g0, g, owner, i, off0, off0 + |src|, src) && p < Max(g0.inodes[i].size, off0 + |src|)
    ensures var g' := Finished(g, i, off0 + |src|);
            && At(sb, g', i) && g'.inodes[i].size == Max(g0.inodes[i].size, off0 + |src|)
            && FileByte(sb, g', i, p) == if off0 <= p < off0 + |src| then src[p - off0] else FileByte(sb, g0, i, p)
  {
    hide Slot, SlotsOwn, OwnersHave, BitsTell, FileByte, Dense, Untouched;
    ResizedByte(sb, g, owner, i, off0 + |src|, i, p);
  }

  /** writei splices the bytes into the file. */
  lemma FinishedContent(sb: Super, g0: Image, g: Image, owner: Owner, i: nat, off0: nat, src: seq<Byte>)
    requires Writing(sb, g0, g, owner, i, off0, off0 + |src|, src)
    ensures var g' := Finished(g, i, off0 + |src|);
            && At(sb, g', i) && g'.inodes[i].size == Max(g0.inodes[i].size, off0 + |src|)
            && Content(sb, g', i) == Spliced(Content(sb, g0, i), off0, src)
  {
    FinishedOk(sb, g0, g, owner, i, off0, src);
    WritingStart(sb, g0, g, owner, i, off0, src);
    hide Slot, Owned, FileByte, Writing, FsOk, Finished, Content, Spliced;
    var off := off0 + |src|;
    var g', before := Finished(g, i, off), Content(sb, g0, i);
    var c := Spliced(before, off0, src);
    SplicedSize(before, off0, src);
    forall p: nat | p < |c| ensures Content(sb, g', i)[p] == c[p] {
      FinishedByte(sb, g0, g, owner, i, off0, src, p);
      ContentAt(sb, g', i, p);
      SplicedAt(before, off0, src, p);
      if p < g0.inodes[i].size {
        ContentAt(sb, g0, i, p);
      }
    }
  }

  lemma WritingStart(sb: Super, g0: Image, g: Image, owner: Owner, i: nat, off0: nat, src: seq<Byte>)
    requires Writing(sb, g0, g, owner, i, off0, off0 + |src|, src)
    ensures At(sb, g0, i) && off0 <= g0.inodes[i].size <= MAXFILE * BSIZE && off0 + |src| <= MAXFILE * BSIZE
  {
    hide Slot, SlotsOwn, OwnersHave, BitsTell, FileByte, Dense, Untouched;
  }

  lemma SplicedSize(c: seq<Byte>, off: nat, a: seq<Byte>)
    requires off <= |c|
    ensures |Spliced(c, off, a)| == Max(|c|, off + |a|)
  {
  }

  lemma SplicedAt(c: seq<Byte>, off: nat, a: seq<Byte>, p: nat)
    requires off <= |c| && p < Max(|c|, off + |a|)
    ensures |Spliced(c, off, a)| == Max(|c|, off + |a|)
    ensures Spliced(c, off, a)[p] == if off <= p < off + |a| then a[p - off] else c[p]
  {
  }

  /** writei leaves every other file alone. */
  lemma FinishedOthers(sb: Super, g0: Image, g: Image, owner: Owner, i: nat, off0: nat, src: seq<Byte>, j: nat)
    requires Writing(sb, g0, g, owner, i, off0, off0 + |src|, src) && j < |g0.inodes| && j != i
    ensures var g' := Finished(g, i, off0 + |src|);
            && At(sb, g', j) && g'.inodes[j] == g0.inodes[j] && g0.inodes[j].size <= MAXFILE * BSIZE
            && Content(sb, g', j) == Content(sb, g0, j)
  {
    hide Slot, SlotsOwn, OwnersHave, BitsTell, FileByte, Dense;
    var g' := Finished(g, i, off0 + |src|);
    assert Untouched(sb, g0, g, j);
    ResizedOwned(sb, g, owner, i, off0 + |src|);
    forall p: nat | p < g0.inodes[j].size ensures FileByte(sb, g', j, p) == FileByte(sb, g0, j, p) {
      ResizedByte(sb, g, owner, i, off0 + |src|, j, p);
    }
  }

  /** One turn of readi's loop finds a piece of the content. */
  lemma ReadPiece(sb: Super, g: Image, owner: Owner, i: nat, off: nat, m: nat)
    requires FsOk(sb, g, owner) && i < |g.inodes| && 0 < m <= BSIZE - off % BSIZE
             && off + m <= g.inodes[i].size <= MAXFILE * BSIZE
    ensures off / BSIZE < MAXFILE && var a := FileBlock(sb, g, i, off / BSIZE);
            && a != 0 && a < |g.blocks| && |Content(sb, g, i)| == g.inodes[i].size
            && g.blocks[a][off % BSIZE..off % BSIZE + m] == Content(sb, g, i)[off..off + m]
  {
    hide Slot, SlotsOwn, OwnersHave, BitsTell, FileByte, Dense, Content;
    var n := g.inodes[i].size;
    assert FileOk(sb, g, i);
    DenseHas(sb, g, i, n, off);
    FileBlockIsPlain(sb, g, owner, {}, i, off / BSIZE);
    PieceBlock(off, m);
    ContentAt(sb, g, i, off);
    var a := FileBlock(sb, g, i, off / BSIZE);
    forall p | off <= p < off + m ensures g.blocks[a][off % BSIZE + (p - off)] == Content(sb, g, i)[p] {
      ContentAt(sb, g, i, p);
      ByteIs(sb, g, i, p);
    }
    SliceEq(g.blocks[a], off % BSIZE, Content(sb, g, i), off, m);
  }

  lemma SliceEq(x: seq<Byte>, at: nat, c: seq<Byte>, off: nat, m: nat)
    requires at + m <= |x| && off + m <= |c| && forall p :: off <= p < off + m ==> x[at + (p - off)] == c[p]
    ensures x[at..at + m] == c[off..off + m]
  {
    forall k {:trigger x[at..at + m][k]} | 0 <= k < m ensures x[at..at + m][k] == c[off..off + m][k] {
      assert x[at + (off + k - off)] == c[off + k];
    }
  }
}
