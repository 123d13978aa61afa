/** The inode layer of src/fs.c: block allocation, bmap, readi, writei, itrunc and
    ialloc, and the chunked writes of src/file.c. One method per C function. */
module Fs {

  import opened Common
  import opened FsBlock
  import opened FsImage
  import opened FsInode
  import opened FsWrite
  import opened FsCost
  import opened FsTrunc
  import opened FsFormat
  import opened FsLayout

  /** A C function's result, or the kernel's panic. */
  datatype Res<T> = Ok(value: T) | Panic

  class FileSystem {
    const sb: Super
    var blocks: seq<Block>     // the disk, through the buffer cache and the log
    var inode: seq<Inode>      // in-memory inodes
    var logged: set<nat>       // blocks handed to log_write since begin_op

    ghost var owner: Owner

    ghost function Img(): Image
      reads this`blocks, this`inode
    {
      Image(blocks, inode)
    }

    /** The invariant between operations; the inode cache is write-through. */
    ghost predicate Valid()
      reads this`blocks, this`inode, this`owner
    {
      Mountable(sb, Img(), owner)
    }

    /** What mkfs makes of an empty disk: the bits of the metadata set by the loop of its balloc, every inode free. */
    constructor (sb: Super)
      requires sb.Valid()
      ensures this.sb == sb && Valid() && Img() == Formatted(sb) && logged == {} && owner == map[]
      ensures Free(sb, blocks) == Numbers(sb.dataStart, sb.size)
    {
      hide Marked, FsOk, Free;
      var disk, b := seq(sb.size, k => Zeros()), 0;
      while b < sb.dataStart
        invariant 0 <= b <= sb.dataStart && disk == Bitmap(sb, c => c < sb.dataStart, b)
      {
        disk := Marked(sb, disk, b);
        b := b + 1;
      }
      FormattedOk(sb);
      FormattedThrough(sb);
      this.sb := sb;
      blocks, inode := disk, seq(sb.ninodes, k => NewInode(0));
      logged, owner := {}, map[];
    }

    /** The file system found on a disk. */
    constructor Mount(sb: Super, g: Image, ghost own: Owner)
      requires Mountable(sb, g, own)
      ensures this.sb == sb && Valid() && Img() == g && logged == {} && owner == own
    {
      this.sb := sb;
      blocks, inode, logged, owner := g.blocks, g.inodes, {}, own;
    }

    /** Every data block is free or owned. */
    lemma RoomIs()
      requires Valid()
      ensures FsOk(sb, Img(), owner) && Shaped(sb, Img()) && sb.Valid() && |Free(sb, blocks)| + |owner| == Room(sb)
      ensures forall j :: 0 <= j < |inode| ==> inode[j].size <= MAXFILE * BSIZE
    {
      hide FsOk, Free;
      FileSizes(sb, Img(), owner);
      assert Owned(sb, Img(), owner, {}) by {
        FsIsOwned(sb, Img(), owner);
      }
      hide Owned;
      FreeOrOwned(sb, Img(), owner);
    }

    /** bzero */
    method Bzero(b: nat)
      requires b < |blocks|
      modifies this`blocks, this`logged
      ensures blocks == old(blocks)[b := Zeros()] && logged == old(logged) + {b}
    {
      blocks := blocks[b := Zeros()];
      logged := logged + {b};
    }

    /** balloc: the first free block, marked and zeroed; None is the panic "out of blocks", met only when there is none. */
    method Balloc() returns (r: Option<nat>)
      requires sb.Valid() && |blocks| == sb.size
      modifies this`blocks, this`logged
      ensures r == None <==> forall b: nat :: b < sb.size ==> Used(sb, old(blocks), b)
      ensures r == None ==> blocks == old(blocks) && logged == old(logged)
      ensures r.Some? ==> && r.value < sb.size && !Used(sb, old(blocks), r.value)
                          && (forall c: nat :: c < r.value ==> Used(sb, old(blocks), c))
                          && blocks == Marked(sb, old(blocks), r.value)[r.value := Zeros()]
                          && logged == old(logged) + {sb.BBlock(r.value), r.value}
      ensures old(logged) <= logged && AllLogged(old(blocks), blocks, logged)
    {
      hide Bit, SetBit;
      var b := 0;
      while b < sb.size
        invariant 0 <= b && b % BPB == 0 && blocks == old(blocks) && logged == old(logged)
        invariant forall c: nat :: c < b && c < sb.size ==> Used(sb, blocks, c)
      {
        var bp := blocks[sb.BBlock(b)];
        var bi := 0;
        while bi < BPB && b + bi < sb.size
          invariant 0 <= bi <= BPB && blocks == old(blocks) && logged == old(logged)
          invariant forall c: nat :: c < b + bi && c < sb.size ==> Used(sb, blocks, c)
        {
          BitPlace(b, bi);
          if !Bit(bp, bi) {
            assert !Used(sb, blocks, b + bi);
            blocks := blocks[sb.BBlock(b) := SetBit(bp, bi)];
            logged := logged + {sb.BBlock(b)};
            Bzero(b + bi);
            return Some(b + bi);
          }
          bi := bi + 1;
        }
        b := b + BPB;
      }
      return None;
    }

    /** bfree; false is the panic "freeing free block". */
    method Bfree(b: nat) returns (ok: bool)
      requires sb.Valid() && |blocks| == sb.size && b < sb.size
      modifies this`blocks, this`logged
      ensures ok <==> Used(sb, old(blocks), b)
      ensures !ok ==> blocks == old(blocks) && logged == old(logged)
      ensures ok ==> blocks == Unmarked(sb, old(blocks), b) && logged == old(logged) + {sb.BBlock(b)}
      ensures old(logged) <= logged && AllLogged(old(blocks), blocks, logged)
    {
      hide Bit, ClearBit;
      var bp, bi := blocks[sb.BBlock(b)], b % BPB;
      if !Bit(bp, bi) {
        return false;
      }
      blocks := blocks[sb.BBlock(b) := ClearBit(bp, bi)];
      logged := logged + {sb.BBlock(b)};
      return true;
    }

    /** bmap: the disk block of block bn of inode i, allocated if need be, with exactly what it logs. It panics exactly
        when bn is out of range or there are fewer free blocks than it needs. */
    method Bmap(i: nat, bn: nat) returns (r: Res<nat>)
      requires Owned(sb, Img(), owner, {}) && i < |inode|
      modifies this`blocks, this`inode, this`logged, this`owner
      ensures r.Panic? <==> bn >= MAXFILE || |old(owner)| + NewIn(sb, old(Img()), i, bn) > Room(sb)
      ensures r.Ok? ==> Mapped(sb, old(Img()), old(owner), Img(), owner, i, bn, r.value)
      ensures r.Ok? ==> Took(sb, old(Img()), old(owner), old(logged), Img(), owner, logged, i, bn, r.value)
      ensures old(logged) <= logged && AllLogged(old(blocks), blocks, logged)
    {
      hide Used, Bit, Marked, SlotsOwn, OwnersHave, BitsTell, Free, Took, BitBlocks, AllLogged;
      ghost var g, own, log := Img(), owner, logged;
      NothingLogged(blocks, logged);
      FreeOrOwned(sb, g, own);
      if bn < NDIRECT {
        var addr := inode[i].addrs[bn];
        if addr == 0 {
          var a := Balloc();
          if a == None {
            return Panic;
          }
          FreeIsUnowned(sb, g, own, a.value);
          MappedDirect(sb, g, own, i, bn, a.value);
          inode := inode[i := inode[i].(addrs := inode[i].addrs[bn := a.value])];
          owner := owner[a.value := (i, bn)];
          TookOne(sb, g, own, log, Img(), logged, i, bn, a.value, (i, bn));
          return Ok(a.value);
        }
        MappedAlready(sb, g, own, i, bn);
        TookNothing(sb, g, own, log, i, bn);
        return Ok(addr);
      }
      if bn < MAXFILE {
        if inode[i].addrs[NDIRECT] == 0 {
          var ind := Balloc();
          if ind == None {
            return Panic;
          }
          FreeIsUnowned(sb, g, own, ind.value);
          AllocToAddr(sb, g, own, i, NDIRECT, ind.value);
          inode := inode[i := inode[i].(addrs := inode[i].addrs[NDIRECT := ind.value])];
          owner := owner[ind.value := (i, NDIRECT)];
          ghost var g1 := Img();
          ghost var log1 := logged;
          r := BmapEntry(i, bn);
          LoggedMore(g.blocks, g1.blocks, blocks, log1, logged);
          if r.Ok? {
            MappedTwice(sb, g, own, i, bn, ind.value, Img(), owner, r.value);
            TookTwo(sb, g, own, log, g1, ind.value, (i, NDIRECT), Img(), owner, logged, i, bn, r.value);
          }
          return;
        }
        r := BmapEntry(i, bn);
        return;
      }
      return Panic;
    }

    /** The part of bmap that looks into the indirect block. */
    method BmapEntry(i: nat, bn: nat) returns (r: Res<nat>)
      requires Owned(sb, Img(), owner, {}) && i < |inode| && NDIRECT <= bn < MAXFILE && inode[i].addrs[NDIRECT] != 0
      modifies this`blocks, this`inode, this`logged, this`owner
      ensures r.Panic? <==> |old(owner)| + NewIn(sb, old(Img()), i, bn) > Room(sb)
      ensures r.Ok? ==> Mapped(sb, old(Img()), old(owner), Img(), owner, i, bn, r.value) && inode == old(inode)
      ensures r.Ok? ==> Took(sb, old(Img()), old(owner), old(logged), Img(), owner, logged, i, bn, r.value)
      ensures old(logged) <= logged && AllLogged(old(blocks), blocks, logged)
    {
      hide Used, Bit, Marked, Word, SetWord, SlotsOwn, OwnersHave, BitsTell, Mapped, Free, Took, AllLogged;
      ghost var g, own, log := Img(), owner, logged;
      NothingLogged(blocks, logged);
      FreeOrOwned(sb, g, own);
      var ind := inode[i].addrs[NDIRECT];
      var addr := Word(blocks[ind], bn - NDIRECT);
      if addr == 0 {
        var a := Balloc();
        if a == None {
          return Panic;
        }
        FreeIsUnowned(sb, g, own, a.value);
        MappedEntry(sb, g, own, i, bn, a.value);
        LoggedBlock(g.blocks, blocks, logged, ind, SetWord(blocks[ind], bn - NDIRECT, a.value));
        blocks := blocks[ind := SetWord(blocks[ind], bn - NDIRECT, a.value)];
        logged := logged + {ind};
        owner := owner[a.value := (i, bn + 1)];
        MappedAt(sb, g, own, Img(), owner, i, bn, a.value);
        TookOne(sb, g, own, log, Img(), logged, i, bn, a.value, (i, bn + 1));
        return Ok(a.value);
      }
      MappedAlready(sb, g, own, i, bn);
      TookNothing(sb, g, own, log, i, bn);
      return Ok(addr);
    }

    /** iupdate: inode i goes to disk; the other inodes of its block are as they were, and so is every file. */
    method Iupdate(i: nat)
      requires FsOk(sb, Img(), owner) && i < |inode| && Fits(inode[i])
      modifies this`blocks, this`logged
      ensures FsOk(sb, Img(), owner) && SameFiles(sb, old(Img()), Img()) && logged == old(logged) + {sb.IBlock(i)}
      ensures forall j: nat :: j < |inode| ==>
              DiskInode(sb, blocks, j) == if j == i then inode[i] else DiskInode(sb, old(blocks), j)
      ensures old(logged) <= logged && AllLogged(old(blocks), blocks, logged)
    {
      hide SlotsOwn, OwnersHave, BitsTell, FileOk, Fits, StoredInode, DiskInode, SameFiles;
      assert sb.IBlock(i) < sb.bmapstart;
      LowStoreOk(sb, Img(), owner, sb.IBlock(i), StoredInode(blocks[sb.IBlock(i)], i % IPB, inode[i]));
      blocks := blocks[sb.IBlock(i) := StoredInode(blocks[sb.IBlock(i)], i % IPB, inode[i])];
      logged := logged + {sb.IBlock(i)};
      forall j: nat | j < |inode|
        ensures DiskInode(sb, blocks, j) == if j == i then inode[i] else DiskInode(sb, old(blocks), j)
      {
        UpdatedInode(sb, old(blocks), i, inode[i], j);
      }
    }

    /** readi for files and directories: the part of the content that lies within the file, or None for -1. It changes
        nothing, so bmap never allocates for it, and neither panic of bmap is met. */
    method Readi(i: nat, off0: nat, n0: nat) returns (r: Option<seq<Byte>>)
      requires Valid() && i < |inode| && off0 < UINT && n0 < UINT
      modifies this
      ensures unchanged(this)
      ensures r == None <==> off0 > inode[i].size || off0 + n0 >= UINT
      ensures inode[i].size <= MAXFILE * BSIZE
      ensures r.Some? ==> var end := if off0 + n0 > inode[i].size then inode[i].size else off0 + n0;
                          r.value == Content(sb, Img(), i)[off0..end]
      ensures Content(sb, Img(), i) == RawFile(sb, blocks, i)
    {
      hide SlotsOwn, OwnersHave, BitsTell, FileBlock, Content, Mapped, Dense, Slot, Took, NewIn, BitBlocks, RawFile;
      assert FileOk(sb, Img(), i);
      FileOnDisk(sb, Img(), owner, i);
      if off0 > inode[i].size || off0 + n0 >= UINT {
        return None;
      }
      var n := n0;
      if off0 + n > inode[i].size {
        n := inode[i].size - off0;
      }
      ghost var g, own := Img(), owner;
      var tot, off, dst := 0, off0, [];
      while tot < n
        invariant 0 <= tot <= n && off == off0 + tot && unchanged(this)
        invariant |Content(sb, g, i)| == inode[i].size && dst == Content(sb, g, i)[off0..off]
      {
        var m := Piece(off, n - tot);
        ReadPiece(sb, g, own, i, off, m);
        NothingNew(sb, g, own, i, off / BSIZE);
        var a := Bmap(i, off / BSIZE);
        MappedSame(sb, g, own, Img(), owner, i, off / BSIZE, a.value);
        TookSame(sb, g, own, old(logged), logged, i, off / BSIZE, a.value);
        var bp := blocks[a.value];
        dst := dst + bp[off % BSIZE..off % BSIZE + m];
        tot, off := tot + m, off + m;
      }
      return Some(dst);
    }

    /** writei for files and directories: -1 if it would start past the end or exceed the largest file; otherwise the
        bytes are spliced into the content, every other file is as it was, and the inodes on disk are those in memory
        again. It panics exactly when there are fewer free blocks than it needs. Exactly these blocks are logged: the data
        blocks it touches, the bitmap blocks of the blocks it takes, the indirect block if that gets an entry, and the
        inode's block if the file grows. */
    method Writei(i: nat, src: seq<Byte>, off0: nat) returns (r: Res<int>)
      requires Valid() && i < |inode| && inode[i].kind != 0 && off0 < UINT && |src| < UINT
      modifies this
      ensures old(inode)[i].size <= MAXFILE * BSIZE
      ensures r == Ok(-1) <==> off0 > old(inode)[i].size || off0 + |src| > MAXFILE * BSIZE
      ensures r == Ok(-1) ==> unchanged(this)
      ensures r.Panic? <==> && off0 <= old(inode)[i].size && off0 + |src| <= MAXFILE * BSIZE
                            && |Free(sb, old(blocks))| < Need(old(inode)[i].size, off0 + |src|)
      ensures r.Ok? ==> r.value == -1 || r.value == |src|
      ensures r == Ok(|src|) ==> && Valid() && |inode| == |old(inode)|
                                 && inode[i] == old(inode)[i].(size := Max(old(inode)[i].size, off0 + |src|),
                                                               addrs := inode[i].addrs)
                                 && Content(sb, Img(), i) == Spliced(Content(sb, old(Img()), i), off0, src)
      ensures r == Ok(|src|) ==> Content(sb, Img(), i) == RawFile(sb, blocks, i)
      ensures r == Ok(|src|) ==> forall j :: 0 <= j < |inode| && j != i ==>
                && inode[j] == old(inode)[j] && inode[j].size <= MAXFILE * BSIZE
                && Content(sb, Img(), j) == Content(sb, old(Img()), j)
      ensures r == Ok(|src|) ==>
              && old(owner).Keys <= owner.Keys && |owner| == |old(owner)| + Need(old(inode)[i].size, off0 + |src|)
                                 && logged == old(logged) + Written(sb, old(inode)[i].size, old(owner), Img(), owner, i,
                                    off0, off0 + |src|)
      ensures old(logged) <= logged && AllLogged(old(blocks), blocks, logged)
    {
      hide SlotsOwn, OwnersHave, BitsTell, FileBlock, Content, Dense, Slot, FileByte, Used, Writing, Logs, Need, Free,
           DiskInode, Fits, LowSame, RawFile, AllLogged;
      NothingLogged(blocks, logged);
      assert FileOk(sb, Img(), i);
      FreeOrOwned(sb, Img(), owner);
      ThroughFits(sb, Img(), i);
      if off0 > inode[i].size || off0 + |src| >= UINT {
        return Ok(-1);
      }
      if off0 + |src| > MAXFILE * BSIZE {
        return Ok(-1);
      }
      ghost var g0 := Img();
      var ok := WriteBlocks(i, src, off0);
      if !ok {
        return Panic;
      }
      var off := off0 + |src|;
      ghost var g := Img();
      WritingInode(sb, g0, g, owner, i, off0, src);
      FinishedOk(sb, g0, g, owner, i, off0, src);
      FinishedContent(sb, g0, g, owner, i, off0, src);
      forall j | 0 <= j < |inode| && j != i
        ensures g0.inodes[j].size <= MAXFILE * BSIZE && Finished(g, i, off).inodes[j] == g0.inodes[j]
        ensures Content(sb, Finished(g, i, off), j) == Content(sb, g0, j)
      {
        FinishedOthers(sb, g0, g, owner, i, off0, src, j);
      }
      ThroughKept(sb, g0, g, i);
      FinishedSlots(sb, g, owner, i, off);
      LogsBySlots(sb, g0.inodes[i].size, old(owner), g, Finished(g, i, off), owner, i, off0, off);
      if |src| > 0 && off > inode[i].size {
        FileFits(sb, g0, g, owner, i, off);
        inode := inode[i := inode[i].(size := off)];
        ghost var log := logged;
        Iupdate(i);
        LoggedMore(g0.blocks, g.blocks, blocks, log, logged);
        LogsBySlots(sb, g0.inodes[i].size, old(owner), Finished(g, i, off), Img(), owner, i, off0, off);
      }
      FileOnDisk(sb, Img(), owner, i);
      return Ok(|src|);
    }

    /** writei's loop. */
    method WriteBlocks(i: nat, src: seq<Byte>, off0: nat) returns (ok: bool)
      requires Valid() && i < |inode| && off0 <= inode[i].size && off0 + |src| <= MAXFILE * BSIZE
      modifies this`blocks, this`inode, this`logged, this`owner
      ensures ok <==> |old(owner)| + Need(old(inode)[i].size, off0 + |src|) <= Room(sb)
      ensures ok ==> Writing(sb, old(Img()), Img(), owner, i, off0, off0 + |src|, src)
      ensures ok ==> Account(sb, old(inode)[i].size, old(owner), old(logged), Img(), owner, logged, i, off0, off0 + |src|)
      ensures old(logged) <= logged && AllLogged(old(blocks), blocks, logged)
    {
      hide SlotsOwn, OwnersHave, BitsTell, FileBlock, Dense, Slot, Untouched, FileByte, Used, Stepped, FsOk, Mapped, Logs,
        Writing, Need, NewIn, Blocks, Piece, Shaped, TurnMaps, BitBlocks, IndIf, Free, AllLogged;
      ghost var g0, n0, own0, log0 := Img(), inode[i].size, owner, logged;
      WritingBegins(sb, g0, owner, i, off0, src);
      WritingFacts(sb, g0, g0, owner, i, off0, off0, src);
      AccountBegins(sb, n0, g0, owner, logged, i, off0);
      NothingLogged(blocks, logged);
      var tot := 0;
      while tot < |src|
        invariant 0 <= tot <= |src|
        invariant Writing(sb, g0, Img(), owner, i, off0, off0 + tot, src)
        invariant tot == 0 || (off0 + tot) % BSIZE == 0 || tot == |src|
        invariant Account(sb, n0, own0, log0, Img(), owner, logged, i, off0, off0 + tot)
        invariant log0 <= logged && AllLogged(g0.blocks, blocks, logged)
      {
        ghost var before, log := blocks, logged;
        var m := WriteTurn(i, src, off0, tot, g0, n0, own0, log0);
        LoggedMore(g0.blocks, before, blocks, log, logged);
        if m == 0 {
          return false;
        }
        tot := tot + m;
      }
      WritingFacts(sb, g0, Img(), owner, i, off0, off0 + |src|, src);
      FreeOrOwned(sb, Img(), owner);
      ok := true;
    }

    /** A turn of that loop writes m bytes more; there are none if it runs out of blocks. */
    method WriteTurn(i: nat, src: seq<Byte>, off0: nat, tot: nat, ghost g0: Image, ghost n0: nat, ghost own0: Owner,
                     ghost log0: set<nat>)
      returns (m: nat)
      requires tot < |src| && off0 <= n0 && off0 + |src| <= MAXFILE * BSIZE && (tot == 0 || (off0 + tot) % BSIZE == 0)
      requires At(sb, g0, i) && g0.inodes[i].size == n0 && Writing(sb, g0, Img(), owner, i, off0, off0 + tot, src)
      requires Account(sb, n0, own0, log0, Img(), owner, logged, i, off0, off0 + tot)
      modifies this`blocks, this`inode, this`logged, this`owner
      ensures m == 0 ==> |own0| + Need(n0, off0 + |src|) > Room(sb)
      ensures m > 0 ==> && tot + m <= |src| && ((off0 + tot + m) % BSIZE == 0 || tot + m == |src|)
                        && Writing(sb, g0, Img(), owner, i, off0, off0 + tot + m, src)
                        && Account(sb, n0, own0, log0, Img(), owner, logged, i, off0, off0 + tot + m)
      ensures old(logged) <= logged && AllLogged(old(blocks), blocks, logged)
    {
      hide SlotsOwn, OwnersHave, BitsTell, FileBlock, Dense, Slot, Untouched, FileByte, Used, Stepped, FsOk, Mapped, Logs,
           Writing, Need, NewIn, Blocks, Piece, Shaped, TurnMaps, BitBlocks, IndIf, Free, AllLogged;
      var off := off0 + tot;
      m := Piece(off, |src| - tot);
      ghost var g, own, log := Img(), owner, logged;
      WritingFacts(sb, g0, g, owner, i, off0, off, src);
      InRange(off, |src| - tot, off0 + |src|);
      NeedStep(sb, g, i, n0, off, m);
      NeedGrows(n0, off + m, off0 + |src|);
      var a, g1 := WritePiece(i, off, src[tot..tot + m]);
      if a.Panic? {
        return 0;
      }
      WritingStep(sb, g0, g, own, g1, owner, i, off0, off, src, m, a.value);
      TurnUntil(off0, off, |src| - tot);
      AccountStep(sb, n0, own0, log0, g, own, log, Img(), owner, logged, i, off0, off, |src| - tot, a.value);
    }

    /** The body of writei's loop: the block under `off` is mapped, patched and logged. */
    method WritePiece(i: nat, off: nat, piece: seq<Byte>) returns (a: Res<nat>, ghost g1: Image)
      requires Owned(sb, Img(), owner, {}) && i < |inode| && off % BSIZE + |piece| <= BSIZE && off / BSIZE < MAXFILE
      modifies this`blocks, this`inode, this`logged, this`owner
      ensures a.Panic? <==> |old(owner)| + NewIn(sb, old(Img()), i, off / BSIZE) > Room(sb)
      ensures a.Ok? ==> && Mapped(sb, old(Img()), old(owner), g1, owner, i, off / BSIZE, a.value) && a.value < |g1.blocks|
                        && Img() == Stepped(g1, a.value, off, piece)
      ensures a.Ok? ==> && TurnMaps(sb, old(Img()), Img(), i, off / BSIZE, a.value)
                        && old(owner).Keys <= owner.Keys && |owner| == |old(owner)| + NewIn(sb, old(Img()), i, off / BSIZE)
                        && logged == old(logged) + {a.value} + BitBlocks(sb, old(owner), owner)
                                   + IndIf(sb, Img(), i, off / BSIZE >= NDIRECT && FileBlock(sb, old(Img()), i, off / BSIZE) == 0)
      ensures old(logged) <= logged && AllLogged(old(blocks), blocks, logged)
    {
      hide SlotsOwn, OwnersHave, BitsTell, FileBlock, Slot, Used, Patched, NewIn, BitBlocks, Mapped, Took, TurnMaps, IndIf,
           AllLogged;
      a := Bmap(i, off / BSIZE);
      g1 := Img();
      if a.Ok? {
        MappedAt(sb, old(Img()), old(owner), g1, owner, i, off / BSIZE, a.value);
        MappedBelow(sb, old(Img()), old(owner), g1, owner, i, off / BSIZE, a.value);
        TurnBlocks(sb, old(Img()), old(owner), g1, owner, i, off / BSIZE, a.value, Patched(blocks[a.value], off % BSIZE, piece));
        TurnLogs(sb, old(Img()), old(owner), old(logged), g1, owner, logged, Stepped(g1, a.value, off, piece), i,
            off / BSIZE, a.value);
        LoggedBlock(old(blocks), blocks, logged, a.value, Patched(blocks[a.value], off % BSIZE, piece));
        blocks := blocks[a.value := Patched(blocks[a.value], off % BSIZE, piece)];
        logged := logged + {a.value};
      }
    }

    /** bfree of slot number t of itrunc's order, if it names a block. */
    method FreeSlot(a: nat, i: nat, t: nat, ghost g0: Image, ghost log0: set<nat>) returns (ok: bool)
      requires Freeing(sb, g0, owner, i, blocks, t) && t < NSLOTS && At(sb, g0, i) && a == Slot(g0, i, SlotAt(t))
      requires logged == log0 + FreedBits(sb, g0, i, t)
      modifies this`blocks, this`logged
      ensures ok && Freeing(sb, g0, owner, i, blocks, t + 1) && logged == log0 + FreedBits(sb, g0, i, t + 1)
      ensures old(logged) <= logged && AllLogged(old(blocks), blocks, logged)
    {
      hide Slot, Freeing, Used, Owned, Unmarked, FreedBits, AllLogged;
      NothingLogged(blocks, logged);
      FreeingShape(sb, g0, owner, i, blocks, t);
      FreedBitsStep(sb, g0, i, t);
      if a != 0 {
        NextIsUsed(sb, g0, owner, i, blocks, t);
        FreeNext(sb, g0, owner, i, blocks, t);
        ok := Bfree(a);
      } else {
        FreeNothing(sb, g0, owner, i, blocks, t);
        ok := true;
      }
    }

    /** itrunc: the panic "freeing free block" is not met; exactly the inode's own blocks lose their bits; the file is
        empty, the other files are as they were, and the inode on disk is the one in memory. Exactly the bitmap blocks of
        what it frees and the inode's block are logged. */
    method Itrunc(i: nat) returns (ok: bool)
      requires Valid() && i < |inode|
      modifies this
      ensures ok && Valid() && |inode| == |old(inode)|
      ensures owner == Others(old(owner), i)
      ensures inode == old(inode)[i := old(inode)[i].(size := 0, addrs := seq(NDIRECT + 1, k => 0))]
      ensures Content(sb, Img(), i) == []
      ensures forall j :: 0 <= j < |inode| && j != i ==>
                inode[j].size <= MAXFILE * BSIZE && Content(sb, Img(), j) == Content(sb, old(Img()), j)
      ensures logged == old(logged) + TruncLogs(sb, old(owner), i)
      ensures old(logged) <= logged && AllLogged(old(blocks), blocks, logged)
    {
      hide FsOk, SlotsOwn, OwnersHave, BitsTell, Freeing, Content, Slot, FreedBits, BitBlocks, Cleared, DiskInode, LowSame,
           AllLogged;
      ghost var g0 := Img();
      FsIsOwned(sb, g0, owner);
      ThroughFits(sb, g0, i);
      AllCleared(g0.inodes[i].addrs);
      ok := TruncDirect(i);
      ghost var b1, log1 := blocks, logged;
      ok := TruncIndirect(i, g0, old(logged));
      ghost var b2, log2 := blocks, logged;
      LoggedMore(g0.blocks, b1, b2, log1, log2);
      TruncatedFiles(sb, g0, owner, i, blocks);
      FreedBitsAre(sb, g0, owner, i);
      inode := inode[i := inode[i].(size := 0)];
      owner := Others(owner, i);
      assert Img() == Truncated(g0, i, blocks);
      TruncatedLow(sb, g0, old(owner), i, blocks);
      ThroughKept(sb, g0, Img(), i);
      Iupdate(i);
      LoggedMore(g0.blocks, b2, blocks, log2, logged);
    }

    /** itrunc's first loop. */
    method TruncDirect(i: nat) returns (ok: bool)
      requires Owned(sb, Img(), owner, {}) && i < |inode|
      modifies this`blocks, this`logged, this`inode
      ensures ok && Freeing(sb, old(Img()), owner, i, blocks, NDIRECT) && |old(inode)[i].addrs| == NDIRECT + 1
      ensures inode == old(inode)[i := old(inode)[i].(addrs := Cleared(old(inode)[i].addrs, NDIRECT))]
      ensures logged == old(logged) + FreedBits(sb, old(Img()), i, NDIRECT)
      ensures old(logged) <= logged && AllLogged(old(blocks), blocks, logged)
    {
      hide SlotsOwn, OwnersHave, BitsTell, Freeing, Used, Slot, SlotAt, FreedBits, Cleared, AllLogged;
      ghost var g0 := Img();
      NothingLogged(blocks, logged);
      FreeingBegins(sb, g0, owner, i);
      NoneFreed(sb, g0, i);
      ok := true;
      var k := 0;
      ghost var addrs := inode[i].addrs;
      NoneCleared(addrs);
      while k < NDIRECT
        invariant 0 <= k <= NDIRECT && ok
        invariant Freeing(sb, g0, owner, i, blocks, k) && logged == old(logged) + FreedBits(sb, g0, i, k)
        invariant inode == old(inode)[i := old(inode)[i].(addrs := Cleared(addrs, k))]
        invariant old(logged) <= logged && AllLogged(g0.blocks, blocks, logged)
      {
        ghost var before, log := blocks, logged;
        ClearedStep(addrs, k);
        DirectSlot(sb, g0, i, k);
        var addr := inode[i].addrs[k];
        ok := FreeSlot(addr, i, k, g0, old(logged));
        LoggedMore(g0.blocks, before, blocks, log, logged);
        if addr != 0 {
          inode := inode[i := inode[i].(addrs := inode[i].addrs[k := 0])];
        }
        k := k + 1;
      }
    }

    /** itrunc's treatment of the indirect block. */
    method TruncIndirect(i: nat, ghost g0: Image, ghost log0: set<nat>) returns (ok: bool)
      requires Freeing(sb, g0, owner, i, blocks, NDIRECT) && i < |inode| == |g0.inodes| && |inode[i].addrs| == NDIRECT + 1
      requires At(sb, g0, i) && inode[i].addrs[NDIRECT] == g0.inodes[i].addrs[NDIRECT]
               && logged == log0 + FreedBits(sb, g0, i, NDIRECT)
      modifies this`blocks, this`logged, this`inode
      ensures ok && Freeing(sb, g0, owner, i, blocks, NSLOTS) && logged == log0 + FreedBits(sb, g0, i, NSLOTS)
      ensures inode == old(inode)[i := old(inode)[i].(addrs := old(inode)[i].addrs[NDIRECT := 0])]
      ensures old(logged) <= logged && AllLogged(old(blocks), blocks, logged)
    {
      hide Freeing, Used, Word, FreedBits, AllLogged;
      NothingLogged(blocks, logged);
      ok := true;
      var ind := inode[i].addrs[NDIRECT];
      if ind != 0 {
        FreeingIndirect(sb, g0, owner, i, blocks, NDIRECT);
        var a := blocks[ind];
        var j := 0;
        while j < NINDIRECT
          invariant 0 <= j <= NINDIRECT && ok && inode == old(inode) && Freeing(sb, g0, owner, i, blocks, NDIRECT + j)
          invariant logged == log0 + FreedBits(sb, g0, i, NDIRECT + j)
          invariant old(logged) <= logged && AllLogged(old(blocks), blocks, logged)
        {
          ghost var before, log := blocks, logged;
          ok := FreeSlot(Word(a, j), i, NDIRECT + j, g0, log0);
          LoggedMore(old(blocks), before, blocks, log, logged);
          j := j + 1;
        }
        ghost var before, log := blocks, logged;
        ok := FreeSlot(ind, i, NSLOTS - 1, g0, log0);
        LoggedMore(old(blocks), before, blocks, log, logged);
        inode := inode[i := inode[i].(addrs := inode[i].addrs[NDIRECT := 0])];
      } else {
        FreeNoEntries(sb, g0, owner, i, blocks, NDIRECT);
        FreedBitsStay(sb, g0, i);
        assert inode[i].addrs[NDIRECT := 0] == inode[i].addrs;
      }
    }

    /** ialloc: the first inode that is free on disk becomes an empty file of the given kind; None is the panic "no inodes". */
    method Ialloc(kind: nat) returns (r: Option<nat>)
      requires Valid() && 0 < kind < SHORT
      modifies this`inode, this`blocks, this`logged
      ensures Valid()
      ensures r == None ==> unchanged(this) && forall i :: 1 <= i < sb.ninodes ==> inode[i].kind != 0
      ensures r.Some? ==> && 1 <= r.value < sb.ninodes == |old(inode)| && old(inode)[r.value].kind == 0
                          && (forall i :: 1 <= i < r.value ==> old(inode)[i].kind != 0)
                          && inode == old(inode)[r.value := NewInode(kind)] && logged == old(logged) + {sb.IBlock(r.value)}
                          && inode[r.value].kind == kind && inode[r.value].nlink == 0 && inode[r.value].size == 0
                          && inode[r.value].major == 0 && inode[r.value].minor == 0
                          && |inode[r.value].addrs| == NDIRECT + 1
                          && (forall k :: 0 <= k <= NDIRECT ==> inode[r.value].addrs[k] == 0)
                          && forall j :: 0 <= j < |inode| ==>
                             inode[j].size <= MAXFILE * BSIZE && Content(sb, Img(), j) == Content(sb, old(Img()), j)
      ensures old(logged) <= logged && AllLogged(old(blocks), blocks, logged)
    {
      hide SlotsOwn, OwnersHave, BitsTell, Dense, Slot, DiskInode, Fits, Content, AllLogged;
      NothingLogged(blocks, logged);
      var inum := 1;
      while inum < sb.ninodes
        invariant 1 <= inum && unchanged(this) && forall i :: 1 <= i < inum && i < sb.ninodes ==> inode[i].kind != 0
      {
        if DiskInode(sb, blocks, inum).kind == 0 {
          ghost var g := Img();
          EmptyInodeOk(sb, g, owner, inum, kind);
          hide FsOk;
          inode := inode[inum := NewInode(kind)]; // what ilock will read
          NewFits(kind);
          Iupdate(inum);
          return Some(inum);
        }
        inum := inum + 1;
      }
      return None;
    }

    /** What iput does for the last reference to a file without links. */
    method Ifree(i: nat) returns (ok: bool)
      requires Valid() && i < |inode|
      modifies this
      ensures ok && Valid() && |inode| == |old(inode)| && inode[i].kind == 0 && owner == Others(old(owner), i)
      ensures forall j :: 0 <= j < |inode| && j != i ==>
                inode[j] == old(inode)[j] && inode[j].size <= MAXFILE * BSIZE
                    && Content(sb, Img(), j) == Content(sb, old(Img()), j)
      ensures logged == old(logged) + TruncLogs(sb, old(owner), i)
      ensures old(logged) <= logged && AllLogged(old(blocks), blocks, logged)
    {
      hide FileSystem.Valid, Content, BitBlocks, Others, AllLogged;
      ok := Itrunc(i);
      ghost var before, log := blocks, logged;
      ClearKind(i);
      LoggedMore(old(blocks), before, blocks, log, logged);
    }

    /** The inode of an empty file becomes free, in memory and on disk. */
    method ClearKind(i: nat)
      requires Valid() && i < |inode| && inode[i].size == 0
      modifies this`inode, this`blocks, this`logged
      ensures Valid() && inode == old(inode)[i := old(inode)[i].(kind := 0)] && logged == old(logged) + {sb.IBlock(i)}
      ensures forall j :: 0 <= j < |inode| ==>
              inode[j].size <= MAXFILE * BSIZE && Content(sb, Img(), j) == Content(sb, old(Img()), j)
      ensures old(logged) <= logged && AllLogged(old(blocks), blocks, logged)
    {
      hide FsOk, Content, DiskInode, AllLogged;
      FileSizes(sb, Img(), owner);
      RekindOk(sb, Img(), owner, i);
      ThroughFits(sb, Img(), i);
      inode := inode[i := inode[i].(kind := 0)];
      Iupdate(i);
    }

    /** One turn of filewrite's loop: begin_op, writei of at most 3 blocks, end_op. It logs at most MAXOPBLOCKS blocks; if
        no two free blocks share a bitmap block it logs exactly LogCost of them, which ChunkFits shows to reach 10. */
    method WriteChunk(i: nat, src: seq<Byte>, off: nat) returns (r: Res<int>)
      requires Valid() && i < |inode| && inode[i].kind != 0 && off < UINT && 0 < |src| <= 3 * BSIZE
      modifies this
      ensures r == Ok(-1) <==> off > old(inode)[i].size || off + |src| > MAXFILE * BSIZE
      ensures r == Ok(-1) ==> inode == old(inode) && blocks == old(blocks) && owner == old(owner) && Valid()
      ensures r.Panic? <==> && off <= old(inode)[i].size && off + |src| <= MAXFILE * BSIZE
                            && |Free(sb, old(blocks))| < Need(old(inode)[i].size, off + |src|)
      ensures r.Ok? ==> r.value == -1 || r.value == |src|
      ensures r == Ok(|src|) ==> |logged| <= 10 && Valid() && Wrote(sb, old(Img()), Img(), i, off, src)
      ensures r == Ok(|src|) && Scattered(Free(sb, old(blocks))) ==> |logged| == LogCost(old(inode)[i].size, off, off + |src|)
      ensures r == Ok(|src|) ==>
              && old(owner).Keys <= owner.Keys && |owner| == |old(owner)| + Need(old(inode)[i].size, off + |src|)
      ensures r == Ok(|src|) ==> AllLogged(old(blocks), blocks, logged)
    {
      hide FileSystem.Valid, FsOk, Content, Used, Spliced, LogCost, Scattered, Written, Free, Need, Wrote, AllLogged;
      RoomIs();
      logged := {};
      r := Writei(i, src, off);
      if r == Ok(|src|) {
        RoomIs();
        WroteIs(sb, old(Img()), Img(), i, off, src);
        ChunkFits(old(inode)[i].size, off, |src|);
        WrittenSize(sb, old(Img()), old(owner), Img(), owner, i, old(inode)[i].size, off, off + |src|);
        assert logged == Written(sb, old(inode)[i].size, old(owner), Img(), owner, i, off, off + |src|);
      }
    }

    /** filewrite's loop for an inode file: chunks of at most 3 * BSIZE bytes, each in a transaction of its own. `done` bytes get
        written and the offset moves past them: all, if the range fits the file and the largest file, and otherwise the
        whole chunks that do. It panics exactly when there are fewer free blocks than those need. No chunk logs more than
        MAXOPBLOCKS blocks: `worst` is the largest number any of them logs. The panic "short filewrite" is not met. */
    method WriteAll(i: nat, addr: seq<Byte>, off0: nat) returns (r: Res<int>, off: nat, ghost done: nat, ghost worst: nat)
      requires Valid() && i < |inode| && inode[i].kind != 0 && off0 < UINT && |addr| < 0x8000_0000
      modifies this
      ensures worst <= 10
      ensures r.Panic? <==> && off0 <= old(inode)[i].size
                            && |Free(sb, old(blocks))| < Need(old(inode)[i].size, off0 + Reach(old(inode)[i].size, off0, |addr|))
      ensures r.Ok? ==> && Valid() && done == Reach(old(inode)[i].size, off0, |addr|) && off == off0 + done
                        && r.value == if done == |addr| then |addr| else -1
      ensures r.Ok? ==> if done == 0 then inode == old(inode) && blocks == old(blocks)
              else Wrote(sb, old(Img()), Img(), i, off0, addr[..done])
    {
      hide FileSystem.Valid, FsOk, Shaped, Wrote, Free, Need, Filled, Reach, Room;
      var max := (10 - 1 - 1 - 2) / 2 * 512;
      var k := 0;
      ghost var g0, own0 := Img(), owner;
      RoomIs();
      FilledBegins(sb, g0, own0, i, off0, addr);
      off, done, worst := off0, 0, 0;
      while k < |addr|
        invariant Valid() && i < |inode| == |g0.inodes| && inode[i].kind != 0
        invariant 0 <= k == done <= |addr| && off == off0 + k < UINT && worst <= 10 && (k % (3 * BSIZE) == 0 || k == |addr|)
        invariant Filled(sb, g0, own0, Img(), owner, i, off0, addr, k)
      {
        var n1 := |addr| - k;
        if n1 > max {
          n1 := max;
        }
        r := NextWrite(i, addr, off0, k, n1, g0, own0);
        if r.Panic? {
          return;
        }
        if r.value < 0 {
          break;
        }
        worst := if |logged| > worst then |logged| else worst;
        off, k, done := off + n1, k + n1, done + n1;
      }
      RoomIs();
      FilledEnds(sb, g0, own0, Img(), owner, i, off0, addr, k);
      r := Ok(if k == |addr| then |addr| else -1);
    }

    /** filewrite for an inode file: the first n bytes of addr. A negative n returns -1 and writes nothing. */
    method Filewrite(i: nat, addr: seq<Byte>, n: int, off0: nat)
      returns (r: Res<int>, off: nat, ghost done: nat, ghost worst: nat)
      requires Valid() && i < |inode| && inode[i].kind != 0 && off0 < UINT && n <= |addr| < 0x8000_0000
      modifies this
      ensures n < 0 ==> r == Ok(-1) && unchanged(this) && off == off0 && done == 0
      ensures worst <= 10
      ensures n >= 0 ==> (r.Panic? <==> && off0 <= old(inode)[i].size
                                        && |Free(sb, old(blocks))|
                                           < Need(old(inode)[i].size, off0 + Reach(old(inode)[i].size, off0, n)))
      ensures n >= 0 && r.Ok? ==> && Valid() && done == Reach(old(inode)[i].size, off0, n) && off == off0 + done
                                  && r.value == if done == n then n else -1
      ensures n >= 0 && r.Ok? ==>
                if done == 0 then inode == old(inode) && blocks == old(blocks)
                    else Wrote(sb, old(Img()), Img(), i, off0, addr[..done])
    {
      if n < 0 {
        return Ok(-1), off0, 0, 0; // the loop does not run, and what it wrote is not n
      }
      hide FileSystem.Valid, Wrote, Free, Need, Reach;
      r, off, done, worst := WriteAll(i, addr[..n], off0);
      assert done <= n ==> addr[..n][..done] == addr[..done];
    }

    /** One turn of filewrite's loop, seen from its beginning. */
    method NextWrite(i: nat, addr: seq<Byte>, off0: nat, k: nat, n1: nat, ghost g0: Image, ghost own0: Owner)
      returns (r: Res<int>)
      requires Valid() && i < |inode| && inode[i].kind != 0 && off0 + k < UINT && k < |addr| && k % (3 * BSIZE) == 0
      requires n1 == if |addr| - k > 3 * BSIZE then 3 * BSIZE else |addr| - k
      requires Filled(sb, g0, own0, Img(), owner, i, off0, addr, k) && sb.Valid()
      modifies this
      ensures i < |g0.inodes| && (r.Ok? ==> Valid() && |inode| == |g0.inodes| && inode[i].kind != 0)
      ensures r.Panic? ==> var size := g0.inodes[i].size;
                           off0 <= size && |own0| + Need(size, off0 + Reach(size, off0, |addr|)) > Room(sb)
      ensures r.Ok? && r.value < 0 ==>
              Reach(g0.inodes[i].size, off0, |addr|) == k && Filled(sb, g0, own0, Img(), owner, i, off0, addr, k)
      ensures r.Ok? && r.value >= 0 ==> && |logged| <= 10 && off0 + k + n1 < UINT
                                        && Filled(sb, g0, own0, Img(), owner, i, off0, addr, k + n1)
    {
      hide FileSystem.Valid, FsOk, Shaped, Content, Wrote, Free, Need, Filled, Reach, Max, Scattered, LogCost, Room;
      FilledShape(sb, g0, own0, Img(), owner, i, off0, addr, k);
      ghost var g, own := Img(), owner;
      RoomIs();
      NextChunk(sb, g0, own0, g, own, i, off0, addr, k, n1);
      r := WriteChunk(i, addr[k..k + n1], off0 + k);
      if r.Ok? && r.value >= 0 {
        FilledMore(sb, g0, own0, g, own, Img(), owner, i, off0, addr, k, n1);
      }
    }
  }

  /** Where filewrite is after k bytes. */
  ghost predicate Filled(sb: Super, g0: Image, own0: Owner, g: Image, own: Owner, i: nat, off0: nat, addr: seq<Byte>, k: nat)
  {
    && i < |g0.inodes| == |g.inodes| && k <= |addr| && g0.inodes[i].size <= MAXFILE * BSIZE
    && if k == 0 then g == g0 && own == own0
       else && Wrote(sb, g0, g, i, off0, addr[..k]) && off0 <= g0.inodes[i].size && off0 + k <= MAXFILE * BSIZE
            && g.inodes[i].size == Max(g0.inodes[i].size, off0 + k) && |own| == |own0| + Need(g0.inodes[i].size, off0 + k)
  }

  lemma FilledBegins(sb: Super, g: Image, own: Owner, i: nat, off0: nat, addr: seq<Byte>)
    requires i < |g.inodes| && g.inodes[i].size <= MAXFILE * BSIZE
    ensures Filled(sb, g, own, g, own, i, off0, addr, 0)
  {
  }

  lemma FilledShape(sb: Super, g0: Image, own0: Owner, g: Image, own: Owner, i: nat, off0: nat, addr: seq<Byte>, k: nat)
    requires Filled(sb, g0, own0, g, own, i, off0, addr, k)
    ensures i < |g0.inodes| == |g.inodes|
  {
    hide Wrote, Need;
  }

  /** The next chunk is refused exactly if it is out of reach, and otherwise needs what the longer file still lacks. */
  lemma NextChunk(sb: Super, g0: Image, own0: Owner, g: Image, own: Owner, i: nat, off0: nat, addr: seq<Byte>, k: nat, n1: nat)
    requires Filled(sb, g0, own0, g, own, i, off0, addr, k) && k < |addr| && k % (3 * BSIZE) == 0
    requires n1 == if |addr| - k > 3 * BSIZE then 3 * BSIZE else |addr| - k
    ensures var size, reach := g0.inodes[i].size, Reach(g0.inodes[i].size, off0, |addr|);
            && (off0 + k > g.inodes[i].size || off0 + k + n1 > MAXFILE * BSIZE <==> reach == k)
            && (reach != k ==> off0 <= size && |own| + Need(g.inodes[i].size, off0 + k + n1) == |own0| + Need(size, off0 + k + n1)
                               && Need(size, off0 + k + n1) <= Need(size, off0 + reach))
  {
    hide Wrote, Need, Reach;
    var size, reach := g0.inodes[i].size, Reach(g0.inodes[i].size, off0, |addr|);
    ReachStep(size, off0, |addr|, k, n1);
    NeedAdds(size, off0 + k, off0 + k + n1);
    if reach != k {
      NeedGrows(size, off0 + k + n1, off0 + reach);
      if k == 0 {
        NeedNothing(size, off0);
      }
    }
  }

  lemma FilledMore(sb: Super, g0: Image, own0: Owner, g: Image, own: Owner, g': Image, own': Owner,
                   i: nat, off0: nat, addr: seq<Byte>, k: nat, n1: nat)
    requires Filled(sb, g0, own0, g, own, i, off0, addr, k) && 0 < n1 && k + n1 <= |addr|
             && Wrote(sb, g, g', i, off0 + k, addr[k..k + n1])
    requires off0 + k + n1 <= MAXFILE * BSIZE && |own'| == |own| + Need(g.inodes[i].size, off0 + k + n1)
    ensures Filled(sb, g0, own0, g', own', i, off0, addr, k + n1) && i < |g'.inodes| == |g0.inodes|
            && g'.inodes[i].kind == g.inodes[i].kind
  {
    hide Wrote, Need;
    WroteMore(sb, g0, g, g', i, off0, addr, k, k + n1);
    NeedAdds(g0.inodes[i].size, off0 + k, off0 + k + n1);
    if k == 0 {
      NeedNothing(g0.inodes[i].size, off0);
    } else {
      WroteKind(sb, g0, g, i, off0, addr[..k]);
    }
  }

  lemma WroteKind(sb: Super, g0: Image, g: Image, i: nat, off: nat, src: seq<Byte>)
    requires Wrote(sb, g0, g, i, off, src)
    ensures i < |g.inodes| == |g0.inodes| && g.inodes[i].kind == g0.inodes[i].kind
  {
    hide Content, Spliced;
  }

  lemma FilledEnds(sb: Super, g0: Image, own0: Owner, g: Image, own: Owner, i: nat, off0: nat, addr: seq<Byte>, k: nat)
    requires Filled(sb, g0, own0, g, own, i, off0, addr, k)
    requires k == |addr| || k == Reach(g0.inodes[i].size, off0, |addr|)
    ensures k == Reach(g0.inodes[i].size, off0, |addr|)
            && (off0 <= g0.inodes[i].size ==> |own| == |own0| + Need(g0.inodes[i].size, off0 + k))
    ensures if k == 0 then g == g0 else Wrote(sb, g0, g, i, off0, addr[..k])
  {
    hide Wrote, Need;
    if k == 0 && off0 <= g0.inodes[i].size {
      NeedNothing(g0.inodes[i].size, off0);
    }
  }

  /** How many of n bytes at `off` filewrite writes to a file of `size` bytes: all of them if they fit, otherwise the whole
      chunks that do. */
  function Reach(size: nat, off: nat, n: nat): (r: nat)
    ensures r < n && off <= size <= 71680 ==> r % 1536 == 0 && off + r <= 71680 < off + r + 1536
    ensures off > size ==> r == 0
    ensures r <= n && (size <= MAXFILE * BSIZE ==> (r == n <==> n == 0 || (off <= size && off + n <= MAXFILE * BSIZE)))
  {
    if off > size then 0
    else if off + n <= MAXFILE * BSIZE then n
    else if off > MAXFILE * BSIZE then 0
    else (MAXFILE * BSIZE - off) / (3 * BSIZE) * (3 * BSIZE)
  }

  /** Having written k bytes, the next n1 can be written exactly if they are within reach. */
  lemma ReachStep(size: nat, off: nat, n: nat, k: nat, n1: nat)
    requires size <= MAXFILE * BSIZE && k < n && k % (3 * BSIZE) == 0 && n1 == (if n - k > 3 * BSIZE then 3 * BSIZE else n - k)
    requires k > 0 ==> off <= size && off + k <= MAXFILE * BSIZE
    ensures (k == 0 && off > size) || off + k + n1 > MAXFILE * BSIZE <==> Reach(size, off, n) == k
    ensures k == Reach(size, off, n) || k + n1 <= Reach(size, off, n)
  {
  }

  /** What a successful write makes of the file system: `src` spliced into file i at `off`, every other file as it was. */
  ghost predicate Wrote(sb: Super, g0: Image, g: Image, i: nat, off: nat, src: seq<Byte>)
  {
    && Shaped(sb, g0) && Shaped(sb, g) && i < |g.inodes| && g.inodes[i].kind == g0.inodes[i].kind
    && off <= g0.inodes[i].size <= MAXFILE * BSIZE && g.inodes[i].size == Max(g0.inodes[i].size, off + |src|) <= MAXFILE * BSIZE
    && Content(sb, g, i) == Spliced(Content(sb, g0, i), off, src)
    && forall j :: 0 <= j < |g.inodes| && j != i ==>
         g.inodes[j] == g0.inodes[j] && g.inodes[j].size <= MAXFILE * BSIZE && Content(sb, g, j) == Content(sb, g0, j)
  }

  lemma WroteIs(sb: Super, g0: Image, g: Image, i: nat, off: nat, src: seq<Byte>)
    requires Shaped(sb, g0) && Shaped(sb, g) && i < |g.inodes| && g.inodes[i].kind == g0.inodes[i].kind
    requires off <= g0.inodes[i].size <= MAXFILE * BSIZE
             && g.inodes[i].size == Max(g0.inodes[i].size, off + |src|) <= MAXFILE * BSIZE
    requires Content(sb, g, i) == Spliced(Content(sb, g0, i), off, src)
    requires forall j :: 0 <= j < |g.inodes| && j != i ==>
               g.inodes[j] == g0.inodes[j] && g.inodes[j].size <= MAXFILE * BSIZE && Content(sb, g, j) == Content(sb, g0, j)
    ensures Wrote(sb, g0, g, i, off, src)
  {
    hide Content, Spliced;
  }

  /** Writing addr[..k] and then addr[k..n] after it is writing addr[..n]. */
  lemma WroteMore(sb: Super, g0: Image, g: Image, g': Image, i: nat, off: nat, addr: seq<Byte>, k: nat, n: nat)
    requires k <= n <= |addr|
    requires if k == 0 then g == g0 else Wrote(sb, g0, g, i, off, addr[..k])
    requires Wrote(sb, g, g', i, off + k, addr[k..n])
    ensures Wrote(sb, g0, g', i, off, addr[..n])
    ensures i < |g'.inodes| == |g0.inodes| && g'.inodes[i].kind == g0.inodes[i].kind
    ensures off <= g0.inodes[i].size && g'.inodes[i].size == Max(g0.inodes[i].size, off + n) <= MAXFILE * BSIZE
  {
    hide Content, Spliced;
    if k == 0 {
      assert addr[k..n] == addr[..n];
    } else {
      SplicedTwice(Content(sb, g0, i), off, addr[..k], addr[k..n]);
      assert addr[..k] + addr[k..n] == addr[..n];
    }
  }

  lemma WrittenSize(sb: Super, g0: Image, own0: Owner, g: Image, own: Owner, i: nat, size: nat, off0: nat, off: nat)
    requires FsOk(sb, g0, own0) && FsOk(sb, g, own) && i < |g.inodes| && own0.Keys <= own.Keys
             && |own| == |own0| + Need(size, off)
    requires off0 <= off <= MAXFILE * BSIZE && off0 <= size && g.inodes[i].size == Max(size, off)
    ensures var all := Written(sb, size, own0, g, own, i, off0, off);
            |all| <= LogCost(size, off0, off) && (Scattered(Free(sb, g0.blocks)) ==> |all| == LogCost(size, off0, off))
  {
    hide SlotsOwn, OwnersHave, BitsTell, Dense, Written, LogCost, Scattered, Free, Need, NewEntry, Until, BitBlocks;
    assert FileOk(sb, g, i);
    LogsSize(sb, g0, own0, g, own, i, size, off0, off);
  }

  lemma FsIsOwned(sb: Super, g: Image, owner: Owner)
    requires FsOk(sb, g, owner)
    ensures Owned(sb, g, owner, {})
  {
    hide SlotsOwn, OwnersHave, BitsTell, Dense;
  }

  lemma FileSizes(sb: Super, g: Image, owner: Owner)
    requires FsOk(sb, g, owner)
    ensures Shaped(sb, g) && forall j :: 0 <= j < |g.inodes| ==> g.inodes[j].size <= MAXFILE * BSIZE
  {
    hide SlotsOwn, OwnersHave, BitsTell, Dense;
    forall j | 0 <= j < |g.inodes| ensures g.inodes[j].size <= MAXFILE * BSIZE {
      assert FileOk(sb, g, j);
    }
  }

  lemma SplicedTwice(c: seq<Byte>, off: nat, a: seq<Byte>, b: seq<Byte>)
    requires off <= |c|
    ensures |Spliced(c, off, a)| >= off + |a| && Spliced(Spliced(c, off, a), off + |a|, b) == Spliced(c, off, a + b)
  {
  }

  /** An inode without blocks may be replaced by a fresh one. */
  lemma EmptyInodeOk(sb: Super, g: Image, owner: Owner, i: nat, kind: nat)
    requires FsOk(sb, g, owner) && i < |g.inodes| && g.inodes[i].size == 0
    ensures var g' := Image(g.blocks, g.inodes[i := NewInode(kind)]);
            && FsOk(sb, g', owner)
            && forall j :: 0 <= j < |g.inodes| ==> g.inodes[j].size <= MAXFILE * BSIZE && Content(sb, g', j) == Content(sb, g, j)
  {
    hide Used, BitsTell, SlotsOwn, OwnersHave, Content;
    var g' := Image(g.blocks, g.inodes[i := NewInode(kind)]);
    assert FileOk(sb, g, i);
    EmptySlots(sb, g, i);
    SameSlotsOk(sb, g, owner, g');
    forall j | 0 <= j < |g.inodes| ensures g.inodes[j].size <= MAXFILE * BSIZE && Content(sb, g', j) == Content(sb, g, j) {
      assert FileOk(sb, g, j);
      SameBytes(sb, g, g', j);
    }
  }

  lemma SameBytes(sb: Super, g: Image, g': Image, j: nat)
    requires At(sb, g, j) && At(sb, g', j) && g'.blocks == g.blocks && g'.inodes[j].size == g.inodes[j].size <= MAXFILE * BSIZE
    requires forall l :: 0 <= l < NSLOTS ==> Slot(g', j, l) == Slot(g, j, l)
    ensures Content(sb, g', j) == Content(sb, g, j)
  {
    hide Slot;
  }

  lemma NewFits(kind: nat)
    requires kind < SHORT
    ensures Fits(NewInode(kind))
  {
  }

  lemma EmptySlots(sb: Super, g: Image, i: nat)
    requires At(sb, g, i) && Dense(sb, g, i, 0)
    ensures forall l :: 0 <= l < NSLOTS ==> Slot(g, i, l) == 0
  {
    hide Slot;
    forall l | 0 <= l < NSLOTS ensures Slot(g, i, l) == 0 {
      if l != NDIRECT {
        assert FileBlock(sb, g, i, if l < NDIRECT then l else l - 1) == 0;
      }
    }
  }

  /** Ownership and density depend on the slots, the sizes and the bitmap only. */
  lemma SameSlotsOk(sb: Super, g: Image, owner: Owner, g': Image)
    requires FsOk(sb, g, owner) && Shaped(sb, g') && g'.blocks == g.blocks && |g'.inodes| == |g.inodes|
    requires forall j, l :: 0 <= j < |g.inodes| && 0 <= l < NSLOTS ==> Slot(g', j, l) == Slot(g, j, l)
    requires forall j :: 0 <= j < |g.inodes| ==> g'.inodes[j].size == g.inodes[j].size
    ensures FsOk(sb, g', owner)
  {
    hide Slot, Dense, Used;
    forall j | 0 <= j < |g.inodes| ensures FileOk(sb, g', j) {
      assert FileOk(sb, g, j);
      DenseBySlots(sb, g, g', j, g.inodes[j].size);
    }
  }

  /** The kind of an inode has nothing to do with where its blocks are. */
  lemma RekindOk(sb: Super, g: Image, owner: Owner, i: nat)
    requires FsOk(sb, g, owner) && i < |g.inodes|
    ensures var g' := Image(g.blocks, g.inodes[i := g.inodes[i].(kind := 0)]);
            && FsOk(sb, g', owner)
            && forall j :: 0 <= j < |g.inodes| && g.inodes[j].size <= MAXFILE * BSIZE ==> Content(sb, g', j) == Content(sb, g, j)
  {
    hide Slot, SlotsOwn, OwnersHave, BitsTell, Dense, Content;
    var g' := Image(g.blocks, g.inodes[i := g.inodes[i].(kind := 0)]);
    forall j, l | 0 <= j < |g.inodes| && 0 <= l < NSLOTS ensures Slot(g', j, l) == Slot(g, j, l) {
      RekindSlot(sb, g, i, j, l);
    }
    SameSlotsOk(sb, g, owner, g');
    forall j | 0 <= j < |g.inodes| && g.inodes[j].size <= MAXFILE * BSIZE ensures Content(sb, g', j) == Content(sb, g, j) {
      SameBytes(sb, g, g', j);
    }
  }

  lemma RekindSlot(sb: Super, g: Image, i: nat, j: nat, l: nat)
    requires Shaped(sb, g) && i < |g.inodes| && j < |g.inodes| && l < NSLOTS
    ensures Slot(Image(g.blocks, g.inodes[i := g.inodes[i].(kind := 0)]), j, l) == Slot(g, j, l)
  {
    hide Word;
  }

  lemma FreeingShape(sb: Super, g0: Image, owner: Owner, i: nat, blocks: seq<Block>, t: nat)
    requires Freeing(sb, g0, owner, i, blocks, t)
    ensures sb.Valid() && |blocks| == sb.size
  {
    hide SlotsOwn, OwnersHave, BitsTell, Used;
  }

  lemma TruncatedLow(sb: Super, g0: Image, owner: Owner, i: nat, blocks: seq<Block>)
    requires Freeing(sb, g0, owner, i, blocks, NSLOTS)
    ensures LowSame(sb, g0.blocks, blocks) && Shaped(sb, Truncated(g0, i, blocks))
  {
    hide SlotsOwn, OwnersHave, BitsTell, Used, Slot;
    TruncatedSlot(sb, g0, owner, i, blocks, i, 0);
  }

  /** While blocks are being freed the indirect block still has its entries. */
  lemma FreeingIndirect(sb: Super, g0: Image, owner: Owner, i: nat, blocks: seq<Block>, t: nat)
    requires Freeing(sb, g0, owner, i, blocks, t) && Shaped(sb, g0) && g0.inodes[i].addrs[NDIRECT] != 0
    ensures var ind := g0.inodes[i].addrs[NDIRECT]; ind < |blocks| && |g0.blocks| == |blocks| && blocks[ind] == g0.blocks[ind]
  {
    hide BitsTell, Used, Word;
    assert Slot(g0, i, NDIRECT) in owner;
  }

  lemma WritingFacts(sb: Super, g0: Image, g: Image, owner: Owner, i: nat, off0: nat, off: nat, src: seq<Byte>)
    requires Writing(sb, g0, g, owner, i, off0, off, src)
    ensures Owned(sb, g, owner, {}) && At(sb, g, i) && At(sb, g0, i) && Dense(sb, g, i, Max(g0.inodes[i].size, off))
    ensures off <= off0 + |src| <= MAXFILE * BSIZE
  {
    hide SlotsOwn, OwnersHave, BitsTell, Dense, FileByte, Untouched;
  }

  /** The write only ever changes the file's addresses, and those only when it grows. */
  lemma WritingInode(sb: Super, g0: Image, g: Image, owner: Owner, i: nat, off0: nat, src: seq<Byte>)
    requires Writing(sb, g0, g, owner, i, off0, off0 + |src|, src)
    ensures g.inodes[i] == g0.inodes[i].(addrs := g.inodes[i].addrs) && |g.inodes| == |g0.inodes|
    ensures off0 + |src| <= g0.inodes[i].size ==> g.inodes == g0.inodes
    ensures LowSame(sb, g0.blocks, g.blocks) && Owned(sb, g, owner, {}) && At(sb, g0, i)
    ensures forall j :: 0 <= j < |g.inodes| && j != i ==> g.inodes[j] == g0.inodes[j]
  {
    hide SlotsOwn, OwnersHave, BitsTell, Dense, FileByte;
    forall j | 0 <= j < |g.inodes| && j != i ensures g.inodes[j] == g0.inodes[j] {
      assert Untouched(sb, g0, g, j);
    }
  }

  /** What is on disk fits there. */
  lemma ThroughFits(sb: Super, g: Image, i: nat)
    requires Shaped(sb, g) && WrittenThrough(sb, g) && i < |g.inodes|
    ensures Fits(g.inodes[i])
  {
    hide LoadedInode, Fits;
    assert DiskInode(sb, g.blocks, i) == g.inodes[i];
    LoadedFits(g.blocks[sb.IBlock(i)], i % IPB);
  }

  /** The inodes on disk while a file is being written: those of before. */
  lemma ThroughKept(sb: Super, g0: Image, g: Image, i: nat)
    requires Shaped(sb, g0) && Shaped(sb, g) && WrittenThrough(sb, g0) && |g.inodes| == |g0.inodes|
             && LowSame(sb, g0.blocks, g.blocks)
    ensures forall j: nat :: j < |g.inodes| ==> DiskInode(sb, g.blocks, j) == g0.inodes[j]
  {
    hide DiskInode, LowSame;
    forall j: nat | j < |g.inodes| ensures DiskInode(sb, g.blocks, j) == g0.inodes[j] {
      LowSameInodes(sb, g0.blocks, g.blocks, j);
    }
  }

  /** A written inode fits on disk. */
  lemma FileFits(sb: Super, g0: Image, g: Image, owner: Owner, i: nat, off: nat)
    requires Owned(sb, g, owner, {}) && i < |g.inodes| == |g0.inodes| && Fits(g0.inodes[i]) && off <= MAXFILE * BSIZE
    requires g.inodes[i] == g0.inodes[i].(addrs := g.inodes[i].addrs)
    ensures Fits(g.inodes[i].(size := off))
  {
    hide SlotsOwn, OwnersHave, BitsTell;
    var addrs := g.inodes[i].addrs;
    forall k | 0 <= k < |addrs| ensures addrs[k] < UINT {
      assert Slot(g, i, k) == addrs[k];
      if addrs[k] != 0 {
        SlotIsData(sb, g, owner, {}, i, k);
      }
    }
  }

  lemma FinishedSlots(sb: Super, g: Image, owner: Owner, i: nat, off: nat)
    requires Owned(sb, g, owner, {}) && i < |g.inodes|
    ensures At(sb, Finished(g, i, off), i) && forall l :: 0 <= l < NSLOTS ==> Slot(Finished(g, i, off), i, l) == Slot(g, i, l)
  {
    hide SlotsOwn, OwnersHave, BitsTell, Slot;
    ResizedOwned(sb, g, owner, i, off);
  }

  lemma InRange(off: nat, left: nat, end: nat)
    requires left > 0 && off + left == end && end <= MAXFILE * BSIZE
    ensures off / BSIZE < MAXFILE
  {
  }

  lemma MappedAt(sb: Super, g: Image, owner: Owner, g': Image, owner': Owner, i: nat, bn: nat, a: nat)
    requires Mapped(sb, g, owner, g', owner', i, bn, a) && i < |g.inodes|
    ensures At(sb, g', i)
  {
    hide SlotsOwn, OwnersHave, BitsTell, Slot;
  }

  lemma MappedSame(sb: Super, g: Image, owner: Owner, g': Image, owner': Owner, i: nat, bn: nat, a: nat)
    requires Mapped(sb, g, owner, g', owner', i, bn, a) && i < |g.inodes| && FileBlock(sb, g, i, bn) != 0
    ensures g' == g && owner' == owner && a == FileBlock(sb, g, i, bn)
  {
  }

  lemma BitPlace(b: nat, bi: nat)
    requires b % BPB == 0 && bi < BPB
    ensures (b + bi) / BPB == b / BPB && (b + bi) % BPB == bi
  {
  }
}
