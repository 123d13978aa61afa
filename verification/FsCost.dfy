/** What a write costs: exactly the blocks it logs, how many they are, and the free blocks it needs. */
module FsCost {

  import opened Common
  import opened FsBlock
  import opened FsImage
  import opened FsWrite

  // ---- Counting blocks ----------------------------------------------------------------------------------------

  /** Blocks of a file of n bytes. */
  function Blocks(n: nat): nat { (n + BSIZE - 1) / BSIZE }

  /** The file block after the last one that the bytes from off0 to off lie in. */
  function Until(off0: nat, off: nat): (n: nat)
    requires off0 <= off
    ensures off0 / BSIZE <= n && (off <= MAXFILE * BSIZE ==> n <= MAXFILE)
  {
    if off == off0 then off0 / BSIZE else Blocks(off)
  }

  /** Blocks that a file of `size` bytes lacks for `end` bytes, the indirect block included. */
  function Need(size: nat, end: nat): nat
  {
    Blocks(Max(size, end)) - Blocks(size) + if size <= NDIRECT * BSIZE < end then 1 else 0
  }

  /** Whether growing a file from `size` to `end` bytes fills an entry of the indirect block. */
  predicate NewEntry(size: nat, end: nat) { Blocks(end) > Max(Blocks(size), NDIRECT) }

  /** Blocks a write may log: the data blocks it touches, a bitmap block for each block it allocates, the indirect block
      if it gets an entry, and the inode's block if the file grows. */
  function LogCost(size: nat, off0: nat, off: nat): nat
    requires off0 <= off
  {
    Until(off0, off) - off0 / BSIZE + Need(size, off) + (if NewEntry(size, off) then 1 else 0) + if off > size then 1 else 0
  }

  /** A chunk of filewrite, 3 * BSIZE bytes at any offset within the file, costs at most MAXOPBLOCKS = 10 blocks, and 10
      where it begins in the last direct block and needs the indirect one: 4 data blocks, 4 bitmap blocks, the indirect
      block and the inode. */
  lemma ChunkFits(size: nat, off: nat, n: nat)
    requires off <= size && n <= 3 * BSIZE
    ensures LogCost(size, off, off + n) <= 10
    ensures LogCost(11 * BSIZE + 1, 11 * BSIZE + 1, 14 * BSIZE + 1) == 10
  {
  }

  lemma TurnUntil(off0: nat, off: nat, left: nat)
    requires off0 <= off && left > 0 && (off == off0 || off % BSIZE == 0)
    ensures Until(off0, off) == off / BSIZE && Until(off0, off + Piece(off, left)) == off / BSIZE + 1
    ensures Piece(off, left) == left || (off + Piece(off, left)) % BSIZE == 0
  {
  }

  lemma TurnAllocates(size: nat, off: nat, m: nat)
    requires 0 < m <= BSIZE - off % BSIZE
    ensures Blocks(Max(size, off + m)) == Blocks(Max(size, off)) + if off / BSIZE * BSIZE >= Max(size, off) then 1 else 0
    ensures off / BSIZE >= NDIRECT <==> off + m > NDIRECT * BSIZE
  {
  }

  // ---- The blocks a write logs ----------------------------------------------------------------------------------

  /** The disk blocks of the file blocks that the bytes from off0 to off lie in. */
  ghost function DataBlocks(sb: Super, g: Image, i: nat, from: nat, until: nat): set<nat>
    requires At(sb, g, i) && until <= MAXFILE
  {
    set bn: nat | from <= bn < until :: FileBlock(sb, g, i, bn)
  }

  /** The bitmap blocks of the blocks with an owner in `own` and none in `own0`. */
  ghost function BitBlocks(sb: Super, own0: Owner, own: Owner): set<nat>
  {
    set a | a in own && a !in own0 :: sb.BBlock(a)
  }

  /** What writei's loop hands to log_write for file i, of `size` bytes, from off0 to off. */
  ghost function Logs(sb: Super, size: nat, own0: Owner, g: Image, own: Owner, i: nat, off0: nat, off: nat): set<nat>
    requires At(sb, g, i) && off0 <= off <= MAXFILE * BSIZE
  {
    DataBlocks(sb, g, i, off0 / BSIZE, Until(off0, off)) + BitBlocks(sb, own0, own) + IndIf(sb, g, i, NewEntry(size, off))
  }

  /** What a write hands to log_write: the inode's block too, if the file grows. */
  ghost function Written(sb: Super, size: nat, own0: Owner, g: Image, own: Owner, i: nat, off0: nat, off: nat): set<nat>
    requires At(sb, g, i) && off0 <= off <= MAXFILE * BSIZE
  {
    Logs(sb, size, own0, g, own, i, off0, off) + if off > size then {sb.IBlock(i)} else {}
  }

  /** The indirect block, if c holds. */
  ghost function IndIf(sb: Super, g: Image, i: nat, c: bool): set<nat>
    requires At(sb, g, i)
  {
    if c then {Slot(g, i, NDIRECT)} else {}
  }

  /** Blocks that bmap allocates for block bn. */
  ghost function NewIn(sb: Super, g: Image, i: nat, bn: nat): nat
    requires At(sb, g, i) && bn < MAXFILE
  {
    (if FileBlock(sb, g, i, bn) == 0 then 1 else 0) + (if bn >= NDIRECT && Slot(g, i, NDIRECT) == 0 then 1 else 0)
  }

  /** What bmap takes from the free blocks and logs for block bn, which it finds in or puts into block a. */
  ghost predicate Took(sb: Super, g: Image, own: Owner, log: set<nat>, g': Image, own': Owner, log': set<nat>, i: nat,
                       bn: nat, a: nat)
    requires At(sb, g, i) && At(sb, g', i) && bn < MAXFILE
  {
    && own.Keys <= own'.Keys && |own'| == |own| + NewIn(sb, g, i, bn)
    && log' == log + BitBlocks(sb, own, own') + if FileBlock(sb, g, i, bn) != 0 then {} else {a} + IndIf(sb, g', i, bn >= NDIRECT)
  }

  lemma TookNothing(sb: Super, g: Image, own: Owner, log: set<nat>, i: nat, bn: nat)
    requires At(sb, g, i) && bn < MAXFILE && FileBlock(sb, g, i, bn) != 0 && (bn >= NDIRECT ==> Slot(g, i, NDIRECT) != 0)
    ensures Took(sb, g, own, log, g, own, log, i, bn, FileBlock(sb, g, i, bn))
  {
    hide Slot, FileBlock;
  }

  lemma TookSame(sb: Super, g: Image, own: Owner, log: set<nat>, log': set<nat>, i: nat, bn: nat, a: nat)
    requires At(sb, g, i) && bn < MAXFILE && FileBlock(sb, g, i, bn) != 0 && Took(sb, g, own, log, g, own, log', i, bn, a)
    ensures log' == log
  {
    hide Slot, FileBlock, NewIn;
  }

  /** For a block that is there bmap takes nothing. */
  lemma NothingNew(sb: Super, g: Image, own: Owner, i: nat, bn: nat)
    requires Owned(sb, g, own, {}) && At(sb, g, i) && bn < MAXFILE && FileBlock(sb, g, i, bn) != 0
    ensures NewIn(sb, g, i, bn) == 0 && |own| <= Room(sb) && BitBlocks(sb, own, own) == {}
  {
    hide SlotsOwn, OwnersHave, BitsTell, Word;
    FreeOrOwned(sb, g, own);
  }

  /** A block taken for one slot. */
  lemma TookOne(sb: Super, g: Image, own: Owner, log: set<nat>, g': Image, log': set<nat>, i: nat, bn: nat, a: nat,
                at: (nat, nat))
    requires At(sb, g, i) && At(sb, g', i) && bn < MAXFILE && FileBlock(sb, g, i, bn) == 0 && a !in own
    requires if bn < NDIRECT then log' == log + {sb.BBlock(a), a}
             else Slot(g, i, NDIRECT) != 0 && log' == log + {sb.BBlock(a), a} + {Slot(g', i, NDIRECT)}
    ensures Took(sb, g, own, log, g', own[a := at], log', i, bn, a)
  {
    hide Slot, FileBlock, BitBlocks;
    OneBitBlock(sb, own, a, at);
  }

  /** A block taken for the indirect block, and one for an entry of it. */
  lemma TookTwo(sb: Super, g: Image, own: Owner, log: set<nat>, g1: Image, ind: nat, at: (nat, nat),
                g': Image, own': Owner, log': set<nat>, i: nat, bn: nat, a: nat)
    requires At(sb, g, i) && At(sb, g1, i) && At(sb, g', i) && NDIRECT <= bn < MAXFILE && ind !in own
    requires FileBlock(sb, g, i, bn) == FileBlock(sb, g1, i, bn) == 0
    requires Slot(g, i, NDIRECT) == 0 && Slot(g1, i, NDIRECT) == Slot(g', i, NDIRECT) == ind != 0
    requires Took(sb, g1, own[ind := at], log + {sb.BBlock(ind), ind}, g', own', log', i, bn, a)
    ensures Took(sb, g, own, log, g', own', log', i, bn, a)
  {
    hide Slot, FileBlock, BitBlocks;
    BitBlocksAdd(sb, own, own[ind := at], own');
    OneBitBlock(sb, own, ind, at);
  }

  lemma OneBitBlock(sb: Super, own: Owner, a: nat, at: (nat, nat))
    requires a !in own
    ensures BitBlocks(sb, own, own[a := at]) == {sb.BBlock(a)}
  {
    assert a in own[a := at];
  }

  lemma BitBlocksAdd(sb: Super, own0: Owner, own: Owner, own1: Owner)
    requires own0.Keys <= own.Keys <= own1.Keys
    ensures BitBlocks(sb, own0, own1) == BitBlocks(sb, own0, own) + BitBlocks(sb, own, own1)
  {
  }

  /** One turn of writei's loop: block bn of the file is block a, the others are where they were. */
  ghost predicate TurnMaps(sb: Super, g: Image, g2: Image, i: nat, bn: nat, a: nat)
  {
    && At(sb, g, i) && At(sb, g2, i) && bn < MAXFILE && FileBlock(sb, g2, i, bn) == a
    && (forall cn: nat :: cn < MAXFILE && cn != bn ==> FileBlock(sb, g2, i, cn) == FileBlock(sb, g, i, cn))
    && (Slot(g, i, NDIRECT) != 0 ==> Slot(g2, i, NDIRECT) == Slot(g, i, NDIRECT))
  }

  lemma TurnBlocks(sb: Super, g: Image, own: Owner, g1: Image, own1: Owner, i: nat, bn: nat, a: nat, x: Block)
    requires Mapped(sb, g, own, g1, own1, i, bn, a) && i < |g.inodes|
    ensures a < |g1.blocks| && TurnMaps(sb, g, Image(g1.blocks[a := x], g1.inodes), i, bn, a)
    ensures Slot(Image(g1.blocks[a := x], g1.inodes), i, NDIRECT) == Slot(g1, i, NDIRECT)
  {
    hide Slot, SlotsOwn, OwnersHave, BitsTell, Plain;
    FileBlockIsPlain(sb, g1, own1, {}, i, bn);
    StoreKeepsOwned(sb, g1, own1, {}, a, x);
  }

  /** One turn logs the block it writes, the bitmap blocks of what it takes, and the indirect block if that gets an entry. */
  lemma TurnLogs(sb: Super, g: Image, own: Owner, log: set<nat>, g1: Image, own1: Owner, log1: set<nat>, g2: Image, i: nat,
                 bn: nat, a: nat)
    requires At(sb, g, i) && At(sb, g1, i) && At(sb, g2, i) && bn < MAXFILE && Took(sb, g, own, log, g1, own1, log1, i, bn, a)
    requires Slot(g2, i, NDIRECT) == Slot(g1, i, NDIRECT)
    ensures own.Keys <= own1.Keys && |own1| == |own| + NewIn(sb, g, i, bn)
    ensures log1 + {a} == log + {a} + BitBlocks(sb, own, own1) + IndIf(sb, g2, i, bn >= NDIRECT && FileBlock(sb, g, i, bn) == 0)
  {
    hide Slot, FileBlock, BitBlocks, NewIn;
  }

  /** What has been logged by the time writei has come to `off`, and the blocks it has taken. */
  ghost predicate Account(sb: Super, size: nat, own0: Owner, log0: set<nat>, g: Image, own: Owner, log: set<nat>, i: nat,
                          off0: nat, off: nat)
  {
    && At(sb, g, i) && off0 <= off <= MAXFILE * BSIZE && own0.Keys <= own.Keys && |own| == |own0| + Need(size, off)
    && log == log0 + Logs(sb, size, own0, g, own, i, off0, off)
  }

  lemma AccountBegins(sb: Super, size: nat, g: Image, own: Owner, log: set<nat>, i: nat, off0: nat)
    requires At(sb, g, i) && off0 <= size && off0 <= MAXFILE * BSIZE
    ensures Account(sb, size, own, log, g, own, log, i, off0, off0)
  {
    hide Slot, FileBlock;
    assert Blocks(off0) <= Blocks(size);
    assert BitBlocks(sb, own, own) == {} && DataBlocks(sb, g, i, off0 / BSIZE, off0 / BSIZE) == {};
  }

  /** The disk blocks touched, one more. */
  lemma DataBlocksStep(sb: Super, g: Image, g2: Image, i: nat, from: nat, bn: nat, a: nat)
    requires TurnMaps(sb, g, g2, i, bn, a) && from <= bn
    ensures DataBlocks(sb, g2, i, from, bn + 1) == DataBlocks(sb, g, i, from, bn) + {a}
  {
    hide Slot, FileBlock;
    var s, s2 := DataBlocks(sb, g, i, from, bn), DataBlocks(sb, g2, i, from, bn + 1);
    forall x | x in s2 ensures x in s + {a} {
      var cn: nat :| from <= cn < bn + 1 && FileBlock(sb, g2, i, cn) == x;
      assert cn == bn || FileBlock(sb, g, i, cn) == x;
    }
    forall x | x in s + {a} ensures x in s2 {
      if x in s {
        var cn: nat :| from <= cn < bn && FileBlock(sb, g, i, cn) == x;
        assert FileBlock(sb, g2, i, cn) == x;
      } else {
        assert FileBlock(sb, g2, i, bn) == x;
      }
    }
  }

  /** The arithmetic of one turn: what it allocates, and whether it fills an entry of the indirect block. */
  lemma NeedStep(sb: Super, g: Image, i: nat, size: nat, off: nat, m: nat)
    requires At(sb, g, i) && Dense(sb, g, i, Max(size, off)) && 0 < m <= BSIZE - off % BSIZE && off / BSIZE < MAXFILE
    ensures Need(size, off + m) == Need(size, off) + NewIn(sb, g, i, off / BSIZE)
    ensures NewEntry(size, off + m) <==> NewEntry(size, off) || (off / BSIZE >= NDIRECT && FileBlock(sb, g, i, off / BSIZE) == 0)
    ensures NewEntry(size, off) ==> Slot(g, i, NDIRECT) != 0
  {
    var bn := off / BSIZE;
    assert FileBlock(sb, g, i, bn) != 0 <==> bn * BSIZE < Max(size, off);
    assert Slot(g, i, NDIRECT) != 0 <==> Max(size, off) > NDIRECT * BSIZE;
    hide FileBlock, Slot, Dense;
    TurnAllocates(size, off, m);
  }

  lemma AccountStep(sb: Super, size: nat, own0: Owner, log0: set<nat>, g: Image, own: Owner, log: set<nat>,
                    g2: Image, own1: Owner, log2: set<nat>, i: nat, off0: nat, off: nat, left: nat, a: nat)
    requires Account(sb, size, own0, log0, g, own, log, i, off0, off) && left > 0 && off + left <= MAXFILE * BSIZE
    requires Dense(sb, g, i, Max(size, off)) && off / BSIZE < MAXFILE && (off == off0 || off % BSIZE == 0)
    requires TurnMaps(sb, g, g2, i, off / BSIZE, a) && own.Keys <= own1.Keys && |own1| == |own| + NewIn(sb, g, i, off / BSIZE)
    requires log2 == log + {a} + BitBlocks(sb, own, own1)
                     + IndIf(sb, g2, i, off / BSIZE >= NDIRECT && FileBlock(sb, g, i, off / BSIZE) == 0)
    ensures Account(sb, size, own0, log0, g2, own1, log2, i, off0, off + Piece(off, left))
  {
    hide FileBlock, Slot, Dense, Need, NewEntry, Until, TurnMaps, Logs, IndIf, BitBlocks, Piece, NewIn, Shaped;
    var m := Piece(off, left);
    assert At(sb, g2, i) by {
      TurnAt(sb, g, g2, i, off / BSIZE, a);
    }
    NeedStep(sb, g, i, size, off, m);
    TurnUntil(off0, off, left);
    LogsStep(sb, size, own0, g, own, g2, own1, i, off0, off, m, a);
    var b, now := BitBlocks(sb, own, own1), IndIf(sb, g2, i, off / BSIZE >= NDIRECT && FileBlock(sb, g, i, off / BSIZE) == 0);
    assert log2 == log0 + (Logs(sb, size, own0, g, own, i, off0, off) + {a} + b + now);
  }

  lemma TurnAt(sb: Super, g: Image, g2: Image, i: nat, bn: nat, a: nat)
    requires TurnMaps(sb, g, g2, i, bn, a)
    ensures At(sb, g2, i)
  {
  }

  lemma LogsStep(sb: Super, size: nat, own0: Owner, g: Image, own: Owner, g2: Image, own1: Owner, i: nat, off0: nat,
                 off: nat, m: nat, a: nat)
    requires At(sb, g, i) && off0 <= off && off + m <= MAXFILE * BSIZE && TurnMaps(sb, g, g2, i, off / BSIZE, a)
             && own0.Keys <= own.Keys <= own1.Keys
    requires Until(off0, off) == off / BSIZE && Until(off0, off + m) == off / BSIZE + 1
    requires NewEntry(size, off + m) <==> NewEntry(size, off) || (off / BSIZE >= NDIRECT && FileBlock(sb, g, i, off / BSIZE) == 0)
    requires NewEntry(size, off) ==> Slot(g, i, NDIRECT) != 0
    ensures Logs(sb, size, own0, g2, own1, i, off0, off + m) ==
            Logs(sb, size, own0, g, own, i, off0, off) + {a} + BitBlocks(sb, own, own1)
              + IndIf(sb, g2, i, off / BSIZE >= NDIRECT && FileBlock(sb, g, i, off / BSIZE) == 0)
  {
    hide FileBlock, Slot, NewEntry, Until, BitBlocks, DataBlocks;
    DataBlocksStep(sb, g, g2, i, off0 / BSIZE, off / BSIZE, a);
    BitBlocksAdd(sb, own0, own, own1);
    var was := IndIf(sb, g, i, NewEntry(size, off));
    var now := IndIf(sb, g2, i, off / BSIZE >= NDIRECT && FileBlock(sb, g, i, off / BSIZE) == 0);
    assert was + now == IndIf(sb, g2, i, NewEntry(size, off + m));
    hide TurnMaps, IndIf;
    SetsAdd(DataBlocks(sb, g, i, off0 / BSIZE, off / BSIZE), BitBlocks(sb, own0, own), was, {a}, BitBlocks(sb, own, own1), now);
  }

  lemma SetsAdd(d: set<nat>, b: set<nat>, i: set<nat>, d': set<nat>, b': set<nat>, i': set<nat>)
    ensures d + b + i + d' + b' + i' == (d + d') + (b + b') + (i + i')
  {
  }

  // ---- How many they are ---------------------------------------------------------------------------------------------

  /** The blocks of a file are different blocks. */
  lemma {:induction false} DataBlocksSize(sb: Super, g: Image, own: Owner, i: nat, from: nat, until: nat)
    requires Owned(sb, g, own, {}) && At(sb, g, i) && from <= until <= MAXFILE
    requires forall bn: nat :: from <= bn < until ==> FileBlock(sb, g, i, bn) != 0
    ensures |DataBlocks(sb, g, i, from, until)| == until - from
    ensures forall a :: a in DataBlocks(sb, g, i, from, until) ==> sb.Data(a) && a != Slot(g, i, NDIRECT)
    decreases until
  {
    hide Slot, FileBlock, SlotsOwn, OwnersHave, BitsTell;
    if from < until {
      var bn := until - 1;
      DataBlocksSize(sb, g, own, i, from, bn);
      DataBlocksStep(sb, g, g, i, from, bn, FileBlock(sb, g, i, bn));
      DataBlockIsNew(sb, g, own, i, from, bn);
      DataIsNotIndirect(sb, g, own, i, bn);
      hide DataBlocks;
    } else {
      assert DataBlocks(sb, g, i, from, until) == {};
    }
  }

  lemma DataBlockIsNew(sb: Super, g: Image, own: Owner, i: nat, from: nat, bn: nat)
    requires Owned(sb, g, own, {}) && At(sb, g, i) && bn < MAXFILE && FileBlock(sb, g, i, bn) != 0
    ensures FileBlock(sb, g, i, bn) !in DataBlocks(sb, g, i, from, bn)
  {
    hide Slot, FileBlock, SlotsOwn, OwnersHave, BitsTell;
    forall cn: nat | cn < bn ensures FileBlock(sb, g, i, cn) != FileBlock(sb, g, i, bn) {
      if FileBlock(sb, g, i, cn) == FileBlock(sb, g, i, bn) {
        FileBlocksDiffer(sb, g, own, {}, i, bn, i, cn);
      }
    }
  }

  lemma DataIsNotIndirect(sb: Super, g: Image, own: Owner, i: nat, bn: nat)
    requires Owned(sb, g, own, {}) && At(sb, g, i) && bn < MAXFILE && FileBlock(sb, g, i, bn) != 0
    ensures sb.Data(FileBlock(sb, g, i, bn)) && FileBlock(sb, g, i, bn) != Slot(g, i, NDIRECT)
  {
    hide Slot;
    FileBlockIsPlain(sb, g, own, {}, i, bn);
  }

  /** Free blocks. */
  ghost function Free(sb: Super, blocks: seq<Block>): set<nat>
    requires sb.Valid() && |blocks| == sb.size
  {
    set b: nat | b < sb.size && !Used(sb, blocks, b)
  }

  /** No two blocks of the set have their bits in the same bitmap block. */
  ghost predicate Scattered(s: set<nat>)
  {
    forall a, b :: a in s && b in s && a / BPB == b / BPB ==> a == b
  }

  /** At most as many bitmap blocks as blocks, and just as many if the blocks are scattered. */
  lemma {:induction false} GroupsSize(sb: Super, s: set<nat>)
    ensures var bits := set a | a in s :: sb.BBlock(a); |bits| <= |s| && (Scattered(s) ==> |bits| == |s|)
  {
    var bits := set a | a in s :: sb.BBlock(a);
    if s == {} {
      assert bits == {};
    } else {
      var x :| x in s;
      var s' := s - {x};
      var bits' := set a | a in s' :: sb.BBlock(a);
      GroupsSize(sb, s');
      assert bits == bits' + {sb.BBlock(x)};
      assert Scattered(s) ==> sb.BBlock(x) !in bits';
    }
  }

  /** A write takes free blocks: it logs as many bitmap blocks as blocks it takes if the free blocks are scattered, and
      never more. */
  lemma BitBlocksSize(sb: Super, g0: Image, own0: Owner, own: Owner)
    requires Shaped(sb, g0) && Owned(sb, g0, own0, {}) && own0.Keys <= own.Keys && forall a :: a in own ==> sb.Data(a)
    ensures |BitBlocks(sb, own0, own)| <= |own| - |own0|
    ensures Scattered(Free(sb, g0.blocks)) ==> |BitBlocks(sb, own0, own)| == |own| - |own0|
    ensures forall c :: c in BitBlocks(sb, own0, own) ==> sb.bmapstart <= c < sb.dataStart
  {
    hide Owned, Free, BitBlocks, Scattered;
    var s := own.Keys - own0.Keys;
    TakenIs(sb, own0, own);
    TakenWasFree(sb, g0, own0, own);
    GroupsSize(sb, s);
    if Scattered(Free(sb, g0.blocks)) {
      ScatteredPart(s, Free(sb, g0.blocks));
    }
    BitBlocksRange(sb, own0, own);
  }

  lemma TakenIs(sb: Super, own0: Owner, own: Owner)
    requires own0.Keys <= own.Keys
    ensures var s := own.Keys - own0.Keys; |s| == |own| - |own0| && BitBlocks(sb, own0, own) == set a | a in s :: sb.BBlock(a)
  {
    var s := own.Keys - own0.Keys;
    assert BitBlocks(sb, own0, own) == set a | a in s :: sb.BBlock(a);
    DisjointSize(own0.Keys, s);
    assert own.Keys == own0.Keys + s;
    assert |own| == |own.Keys| && |own0| == |own0.Keys|;
  }

  lemma TakenWasFree(sb: Super, g0: Image, own0: Owner, own: Owner)
    requires Owned(sb, g0, own0, {}) && forall a :: a in own ==> sb.Data(a)
    ensures own.Keys - own0.Keys <= Free(sb, g0.blocks)
  {
    OwnedIff(sb, g0, own0, 0);
    hide Owned, Used;
    forall a | a in own.Keys - own0.Keys ensures a in Free(sb, g0.blocks) {
      OwnedIff(sb, g0, own0, a);
    }
  }

  lemma ScatteredPart(s: set<nat>, t: set<nat>)
    requires s <= t && Scattered(t)
    ensures Scattered(s)
  {
  }

  lemma BitBlocksRange(sb: Super, own0: Owner, own: Owner)
    requires sb.Valid() && forall a :: a in own ==> sb.Data(a)
    ensures forall c :: c in BitBlocks(sb, own0, own) ==> sb.bmapstart <= c < sb.dataStart
  {
  }

  /** What a write logs, counted: the blocks it touches, the bitmap blocks of what it takes, and one each for the indirect
      block and the inode's if they change. That is at most LogCost, and LogCost if the free blocks are scattered. */
  lemma LogsSize(sb: Super, g0: Image, own0: Owner, g: Image, own: Owner, i: nat, size: nat, off0: nat, off: nat)
    requires Owned(sb, g0, own0, {}) && Owned(sb, g, own, {}) && At(sb, g, i) && own0.Keys <= own.Keys
             && |own| == |own0| + Need(size, off)
    requires off0 <= off <= MAXFILE * BSIZE && off0 <= size && Dense(sb, g, i, Max(size, off))
    ensures var all := Written(sb, size, own0, g, own, i, off0, off);
            && |all| == Until(off0, off) - off0 / BSIZE + |BitBlocks(sb, own0, own)|
                        + (if NewEntry(size, off) then 1 else 0) + (if off > size then 1 else 0)
            && |all| <= LogCost(size, off0, off) && (Scattered(Free(sb, g0.blocks)) ==> |all| == LogCost(size, off0, off))
  {
    hide Slot, FileBlock, Need, NewEntry, Until, BitBlocks, DataBlocks, SlotsOwn, OwnersHave, BitsTell, Dense, Scattered, Free;
    LogsApart(sb, g, own, i, size, off0, off);
    BitBlocksSize(sb, g0, own0, own);
    var data, bits := DataBlocks(sb, g, i, off0 / BSIZE, Until(off0, off)), BitBlocks(sb, own0, own);
    var ind, ino: set<nat> := IndIf(sb, g, i, NewEntry(size, off)), if off > size then {sb.IBlock(i)} else {};
    PartsSize(sb, data, bits, ind, ino);
  }

  /** Data blocks, bitmap blocks and inode blocks lie apart. */
  lemma PartsSize(sb: Super, data: set<nat>, bits: set<nat>, ind: set<nat>, ino: set<nat>)
    requires sb.Valid() && data !! ind && (forall a :: a in data ==> sb.dataStart <= a)
             && forall a :: a in ind ==> sb.dataStart <= a
    requires (forall a :: a in bits ==> sb.bmapstart <= a < sb.dataStart) && forall a :: a in ino ==> a < sb.bmapstart
    ensures |data + bits + ind + ino| == |data| + |bits| + |ind| + |ino|
  {
    DisjointSize(data, bits);
    DisjointSize(data + bits, ind);
    DisjointSize(data + bits + ind, ino);
  }

  lemma DisjointSize(a: set<nat>, b: set<nat>)
    requires a !! b
    ensures |a + b| == |a| + |b|
  {
  }

  lemma LogsApart(sb: Super, g: Image, own: Owner, i: nat, size: nat, off0: nat, off: nat)
    requires Owned(sb, g, own, {}) && At(sb, g, i) && off0 <= off <= MAXFILE * BSIZE && off0 <= size
             && Dense(sb, g, i, Max(size, off))
    ensures |DataBlocks(sb, g, i, off0 / BSIZE, Until(off0, off))| == Until(off0, off) - off0 / BSIZE
    ensures forall a :: a in DataBlocks(sb, g, i, off0 / BSIZE, Until(off0, off)) ==> sb.Data(a) && a != Slot(g, i, NDIRECT)
    ensures NewEntry(size, off) ==> sb.Data(Slot(g, i, NDIRECT))
    ensures i / IPB <= sb.ninodes / IPB && forall a :: a in own ==> sb.Data(a)
  {
    hide Slot, BitsTell;
    forall bn: nat | off0 / BSIZE <= bn < Until(off0, off) ensures FileBlock(sb, g, i, bn) != 0 {
      assert bn * BSIZE < off;
    }
    DataBlocksSize(sb, g, own, i, off0 / BSIZE, Until(off0, off));
    assert NewEntry(size, off) ==> off > NDIRECT * BSIZE;
  }

  // ---- The free blocks a write needs -------------------------------------------------------------------------------

  /** Data blocks on the disk. */
  function Room(sb: Super): nat
    requires sb.Valid()
  {
    sb.size - sb.dataStart
  }

  /** Every data block is free or owned, never both. */
  lemma FreeOrOwned(sb: Super, g: Image, own: Owner)
    requires Owned(sb, g, own, {})
    ensures |Free(sb, g.blocks)| + |own| == Room(sb)
    ensures |own| == Room(sb) <==> forall b: nat :: b < sb.size ==> Used(sb, g.blocks, b)
  {
    hide Shaped, SlotsOwn, OwnersHave, BitsTell, Used, Free, Numbers;
    OwnedIff(sb, g, own, 0);
    var free, all := Free(sb, g.blocks), Numbers(sb.dataStart, sb.size);
    OwnersAre(sb, g, own, all);
    DisjointSize(free, all - free);
    assert free + (all - free) == all;
    assert |own| == |own.Keys|;
    NoneFree(sb, g.blocks);
  }

  lemma OwnersAre(sb: Super, g: Image, own: Owner, all: set<nat>)
    requires Owned(sb, g, own, {}) && forall f :: f in all <==> sb.dataStart <= f < sb.size
    ensures Free(sb, g.blocks) <= all && own.Keys == all - Free(sb, g.blocks)
  {
    OwnedIff(sb, g, own, 0);
    hide Owned, Used;
    forall a: nat ensures a in own.Keys <==> a in all && a !in Free(sb, g.blocks) {
      OwnedIff(sb, g, own, a);
    }
    forall a: nat | a in Free(sb, g.blocks) ensures a in all {
      OwnedIff(sb, g, own, a);
    }
  }

  lemma NoneFree(sb: Super, blocks: seq<Block>)
    requires sb.Valid() && |blocks| == sb.size
    ensures |Free(sb, blocks)| == 0 <==> forall b: nat :: b < sb.size ==> Used(sb, blocks, b)
  {
    hide Used;
    if b: nat :| b < sb.size && !Used(sb, blocks, b) {
      assert b in Free(sb, blocks);
    } else {
      assert Free(sb, blocks) == {};
    }
  }

  lemma OwnedIff(sb: Super, g: Image, own: Owner, a: nat)
    requires Owned(sb, g, own, {})
    ensures a in own <==> sb.Data(a) && Used(sb, g.blocks, a)
    ensures sb.Valid() && |g.blocks| == sb.size && (a < sb.dataStart ==> Used(sb, g.blocks, a))
  {
    hide Slot, Used, SlotsOwn;
  }

  lemma FreeIsUnowned(sb: Super, g: Image, own: Owner, a: nat)
    requires Owned(sb, g, own, {}) && a < sb.size && !Used(sb, g.blocks, a)
    ensures a !in own && a != 0
  {
    hide Slot, Used;
  }

  lemma NeedGrows(size: nat, off: nat, end: nat)
    requires off <= end
    ensures Need(size, off) <= Need(size, end)
  {
  }

  lemma NeedNothing(size: nat, off: nat)
    requires off <= size
    ensures Need(size, off) == 0
  {
  }

  /** What a longer file needs, needed in two steps. */
  lemma NeedAdds(size: nat, off: nat, end: nat)
    requires off <= end
    ensures Need(size, off) + Need(Max(size, off), end) == Need(size, end)
  {
  }

  /** What a write logs depends on where the blocks of the file are. */
  lemma LogsBySlots(sb: Super, size: nat, own0: Owner, g: Image, g': Image, own: Owner, i: nat, off0: nat, off: nat)
    requires At(sb, g, i) && At(sb, g', i) && off0 <= off <= MAXFILE * BSIZE
             && forall l :: 0 <= l < NSLOTS ==> Slot(g', i, l) == Slot(g, i, l)
    ensures Logs(sb, size, own0, g', own, i, off0, off) == Logs(sb, size, own0, g, own, i, off0, off)
  {
    hide Slot;
    assert forall bn: nat :: bn < MAXFILE ==> FileBlock(sb, g', i, bn) == FileBlock(sb, g, i, bn);
    assert DataBlocks(sb, g', i, off0 / BSIZE, Until(off0, off)) == DataBlocks(sb, g, i, off0 / BSIZE, Until(off0, off));
  }
}
