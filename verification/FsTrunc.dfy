/** itrunc on the file system as a value: an inode's blocks are freed one slot at a
    time, direct blocks first, then the entries of the indirect block, then the
    indirect block itself. */
module FsTrunc {

  import opened FsBlock
  import opened FsImage
  import opened FsWrite
  import opened FsCost

  /** When itrunc frees slot l. */
  function Turn(l: nat): nat { if l < NDIRECT then l else if l == NDIRECT then NSLOTS - 1 else l - 1 }

  /** The slot freed at turn t. */
  function SlotAt(t: nat): nat { if t < NDIRECT then t else if t == NSLOTS - 1 then NDIRECT else t + 1 }

  lemma SlotOfTurn(l: nat)
    requires l < NSLOTS
    ensures SlotAt(Turn(l)) == l
  {
  }

  /** After t turns: exactly the blocks in the first t slots of inode i have lost their bit, and no data block changed. */
  ghost predicate Freeing(sb: Super, g0: Image, owner: Owner, i: nat, blocks: seq<Block>, t: nat)
  {
    && Owned(sb, g0, owner, {}) && i < |g0.inodes| && t <= NSLOTS && |blocks| == sb.size
    && (forall b: nat :: sb.dataStart <= b < sb.size ==> blocks[b] == g0.blocks[b]) && LowSame(sb, g0.blocks, blocks)
    && (forall b: nat :: b < sb.size ==>
          (Used(sb, blocks, b) <==> Used(sb, g0.blocks, b) && !(b in owner && owner[b].0 == i && Turn(owner[b].1) < t)))
  }

  lemma FreeingBegins(sb: Super, g0: Image, owner: Owner, i: nat)
    requires Owned(sb, g0, owner, {}) && i < |g0.inodes|
    ensures Freeing(sb, g0, owner, i, g0.blocks, 0)
  {
  }

  /** The slot freed next: if it names a block, that block's bit is set, so bfree does not panic. */
  lemma NextIsUsed(sb: Super, g0: Image, owner: Owner, i: nat, blocks: seq<Block>, t: nat)
    requires Freeing(sb, g0, owner, i, blocks, t) && t < NSLOTS && Slot(g0, i, SlotAt(t)) != 0
    ensures var a := Slot(g0, i, SlotAt(t)); a < sb.size && Used(sb, blocks, a)
  {
    hide Slot, Used;
    var a := Slot(g0, i, SlotAt(t));
    assert a in owner && owner[a] == (i, SlotAt(t)) && sb.Data(a);
  }

  lemma FreeNext(sb: Super, g0: Image, owner: Owner, i: nat, blocks: seq<Block>, t: nat)
    requires Freeing(sb, g0, owner, i, blocks, t) && t < NSLOTS && Slot(g0, i, SlotAt(t)) != 0
    ensures Slot(g0, i, SlotAt(t)) < sb.size && Freeing(sb, g0, owner, i, Unmarked(sb, blocks, Slot(g0, i, SlotAt(t))), t + 1)
  {
    hide Slot, Used, ClearBit, SlotsOwn, OwnersHave, BitsTell;
    NextIsUsed(sb, g0, owner, i, blocks, t);
    var a := Slot(g0, i, SlotAt(t));
    assert sb.Data(a) by {
      SlotIsData(sb, g0, owner, {}, i, SlotAt(t));
    }
    forall b: nat | b < sb.size
      ensures Used(sb, Unmarked(sb, blocks, a), b)
         <==> Used(sb, g0.blocks, b) && !(b in owner && owner[b].0 == i && Turn(owner[b].1) < t + 1)
    {
      MarkedUse(sb, blocks, a, b);
      OneTurn(sb, g0, owner, i, t, b);
    }
  }

  /** The block freed at turn t is the one that owner and slot agree on. */
  lemma OneTurn(sb: Super, g0: Image, owner: Owner, i: nat, t: nat, b: nat)
    requires Owned(sb, g0, owner, {}) && i < |g0.inodes| && t < NSLOTS && Slot(g0, i, SlotAt(t)) != 0
    ensures b == Slot(g0, i, SlotAt(t)) <==> b in owner && owner[b].0 == i && Turn(owner[b].1) == t
  {
    hide Slot, BitsTell;
    var a := Slot(g0, i, SlotAt(t));
    assert a in owner && owner[a] == (i, SlotAt(t));
    if b in owner {
      assert Slot(g0, owner[b].0, owner[b].1) == b;
    }
  }

  lemma FreeNothing(sb: Super, g0: Image, owner: Owner, i: nat, blocks: seq<Block>, t: nat)
    requires Freeing(sb, g0, owner, i, blocks, t) && t < NSLOTS && Slot(g0, i, SlotAt(t)) == 0
    ensures Freeing(sb, g0, owner, i, blocks, t + 1)
  {
    hide Slot, Used;
    forall b: nat | b < sb.size && b in owner && owner[b].0 == i ensures Turn(owner[b].1) != t {
      assert sb.Data(b) && Slot(g0, i, owner[b].1) == b;
      SlotOfTurn(owner[b].1);
    }
  }

  /** Without an indirect block its entries are nothing to free. */
  lemma {:induction false} FreeNoEntries(sb: Super, g0: Image, owner: Owner, i: nat, blocks: seq<Block>, t: nat)
    requires Freeing(sb, g0, owner, i, blocks, t) && NDIRECT <= t && Slot(g0, i, NDIRECT) == 0
    ensures Freeing(sb, g0, owner, i, blocks, NSLOTS)
    decreases NSLOTS - t
  {
    if t < NSLOTS {
      assert Slot(g0, i, SlotAt(t)) == 0;
      FreeNothing(sb, g0, owner, i, blocks, t);
      FreeNoEntries(sb, g0, owner, i, blocks, t + 1);
    }
  }

  /** The address array with its first k entries cleared. */
  function Cleared(addrs: seq<nat>, k: nat): (r: seq<nat>)
    requires k <= |addrs|
    ensures |r| == |addrs|
  {
    seq(k, l => 0) + addrs[k..]
  }

  lemma NoneCleared(addrs: seq<nat>)
    ensures Cleared(addrs, 0) == addrs
  {
  }

  lemma ClearedStep(addrs: seq<nat>, k: nat)
    requires k < |addrs|
    ensures Cleared(addrs, k)[k] == addrs[k] && Cleared(addrs, k)[k := 0] == Cleared(addrs, k + 1)
    ensures addrs[k] == 0 ==> Cleared(addrs, k) == Cleared(addrs, k + 1)
  {
    assert addrs[k..] == [addrs[k]] + addrs[k + 1..];
    assert seq(k + 1, l => 0) == seq(k, l => 0) + [0];
  }

  lemma AllCleared(addrs: seq<nat>)
    requires |addrs| == NDIRECT + 1
    ensures Cleared(addrs, NDIRECT)[NDIRECT] == addrs[NDIRECT]
            && Cleared(addrs, NDIRECT)[NDIRECT := 0] == seq(NDIRECT + 1, l => 0)
  {
    ClearedStep(addrs, NDIRECT);
    assert addrs[NDIRECT + 1..] == [];
  }

  /** The bitmap blocks of what the first t turns free. */
  ghost function FreedBits(sb: Super, g0: Image, i: nat, t: nat): set<nat>
    requires At(sb, g0, i) && t <= NSLOTS
  {
    set u: nat | u < t && Slot(g0, i, SlotAt(u)) != 0 :: sb.BBlock(Slot(g0, i, SlotAt(u)))
  }

  lemma NoneFreed(sb: Super, g0: Image, i: nat)
    requires At(sb, g0, i)
    ensures FreedBits(sb, g0, i, 0) == {}
  {
  }

  lemma DirectSlot(sb: Super, g0: Image, i: nat, k: nat)
    requires At(sb, g0, i) && k < NDIRECT
    ensures Slot(g0, i, SlotAt(k)) == g0.inodes[i].addrs[k]
  {
  }

  lemma FreedBitsStep(sb: Super, g0: Image, i: nat, t: nat)
    requires At(sb, g0, i) && t < NSLOTS
    ensures var a := Slot(g0, i, SlotAt(t));
            FreedBits(sb, g0, i, t + 1) == FreedBits(sb, g0, i, t) + if a != 0 then {sb.BBlock(a)} else {}
  {
    hide Slot;
    var a, s, s' := Slot(g0, i, SlotAt(t)), FreedBits(sb, g0, i, t), FreedBits(sb, g0, i, t + 1);
    if a != 0 {
      assert sb.BBlock(a) in s';
    }
    forall x | x in s ensures x in s' {
      var u: nat :| u < t && Slot(g0, i, SlotAt(u)) != 0 && sb.BBlock(Slot(g0, i, SlotAt(u))) == x;
    }
  }

  /** Without an indirect block nothing more is freed. */
  lemma FreedBitsStay(sb: Super, g0: Image, i: nat)
    requires At(sb, g0, i) && Slot(g0, i, NDIRECT) == 0
    ensures FreedBits(sb, g0, i, NSLOTS) == FreedBits(sb, g0, i, NDIRECT)
  {
    forall u: nat | NDIRECT <= u < NSLOTS ensures Slot(g0, i, SlotAt(u)) == 0 {
    }
    hide Slot;
  }

  /** In the end the bitmap blocks of exactly the blocks that lost their owner. */
  lemma FreedBitsAre(sb: Super, g0: Image, owner: Owner, i: nat)
    requires Owned(sb, g0, owner, {}) && i < |g0.inodes|
    ensures FreedBits(sb, g0, i, NSLOTS) == BitBlocks(sb, Others(owner, i), owner)
  {
    hide Slot, BitsTell;
    var s, t := FreedBits(sb, g0, i, NSLOTS), BitBlocks(sb, Others(owner, i), owner);
    forall x | x in s ensures x in t {
      var u: nat :| u < NSLOTS && Slot(g0, i, SlotAt(u)) != 0 && sb.BBlock(Slot(g0, i, SlotAt(u))) == x;
      var a := Slot(g0, i, SlotAt(u));
      assert a in owner && owner[a].0 == i && a !in Others(owner, i);
    }
    forall x | x in t ensures x in s {
      var a :| a in owner && a !in Others(owner, i) && sb.BBlock(a) == x;
      SlotOfTurn(owner[a].1);
      assert sb.Data(a) && Slot(g0, i, SlotAt(Turn(owner[a].1))) == a;
    }
  }

  /** The image after itrunc. */
  ghost function Truncated(g0: Image, i: nat, blocks: seq<Block>): Image
    requires i < |g0.inodes|
  {
    Image(blocks, g0.inodes[i := g0.inodes[i].(size := 0, addrs := seq(NDIRECT + 1, k => 0))])
  }

  /** The owners that remain. */
  ghost function Others(owner: Owner, i: nat): Owner
  {
    map a | a in owner && owner[a].0 != i :: owner[a]
  }

  /** What itrunc hands to log_write. */
  ghost function TruncLogs(sb: Super, owner: Owner, i: nat): set<nat>
  {
    BitBlocks(sb, Others(owner, i), owner) + {sb.IBlock(i)}
  }

  lemma TruncatedSlot(sb: Super, g0: Image, owner: Owner, i: nat, blocks: seq<Block>, j: nat, l: nat)
    requires Freeing(sb, g0, owner, i, blocks, NSLOTS) && j < |g0.inodes| && l < NSLOTS
    ensures Shaped(sb, Truncated(g0, i, blocks))
    ensures Slot(Truncated(g0, i, blocks), j, l) == if j == i then 0 else Slot(g0, j, l)
  {
    hide Used, Word;
    assert Slot(g0, j, NDIRECT) != 0 ==> sb.Data(Slot(g0, j, NDIRECT));
  }

  /** itrunc frees exactly what the inode owned: what remains owned is what the others own, and the bitmap says so. */
  lemma TruncatedOwned(sb: Super, g0: Image, owner: Owner, i: nat, blocks: seq<Block>)
    requires Freeing(sb, g0, owner, i, blocks, NSLOTS)
    ensures Owned(sb, Truncated(g0, i, blocks), Others(owner, i), {})
    ensures forall j, l :: 0 <= j < |g0.inodes| && 0 <= l < NSLOTS ==>
              Slot(Truncated(g0, i, blocks), j, l) == if j == i then 0 else Slot(g0, j, l)
  {
    hide Slot, Used, Truncated;
    var g' := Truncated(g0, i, blocks);
    TruncatedSlot(sb, g0, owner, i, blocks, i, 0);
    TruncatedIs(g0, i, blocks);
    forall j, l | 0 <= j < |g0.inodes| && 0 <= l < NSLOTS ensures Slot(g', j, l) == if j == i then 0 else Slot(g0, j, l) {
      TruncatedSlot(sb, g0, owner, i, blocks, j, l);
    }
    forall a | a in Others(owner, i)
      ensures sb.Data(a) && owner[a].0 < |g'.inodes| && owner[a].1 < NSLOTS && Slot(g', owner[a].0, owner[a].1) == a
    {
      assert Slot(g0, owner[a].0, owner[a].1) == a;
    }
    forall b: nat | b < sb.size ensures Used(sb, g'.blocks, b) <==> b < sb.dataStart || b in Others(owner, i) {
      assert b in owner ==> sb.Data(b) && owner[b].1 < NSLOTS;
    }
  }

  lemma TruncatedIs(g0: Image, i: nat, blocks: seq<Block>)
    requires i < |g0.inodes|
    ensures Truncated(g0, i, blocks).blocks == blocks && |Truncated(g0, i, blocks).inodes| == |g0.inodes|
  {
  }

  /** After itrunc the file is empty, and no other file has changed. */
  lemma TruncatedFiles(sb: Super, g0: Image, owner: Owner, i: nat, blocks: seq<Block>)
    requires Freeing(sb, g0, owner, i, blocks, NSLOTS) && FsOk(sb, g0, owner)
    ensures FsOk(sb, Truncated(g0, i, blocks), Others(owner, i))
    ensures forall j :: 0 <= j < |g0.inodes| && j != i ==>
              g0.inodes[j].size <= MAXFILE * BSIZE && Content(sb, Truncated(g0, i, blocks), j) == Content(sb, g0, j)
  {
    hide Slot, SlotsOwn, OwnersHave, BitsTell, FileByte, Dense, Content, Used;
    TruncatedOwned(sb, g0, owner, i, blocks);
    var g' := Truncated(g0, i, blocks);
    forall j | 0 <= j < |g0.inodes| ensures FileOk(sb, g', j) {
      assert FileOk(sb, g0, j);
      if j == i {
        NoBlocks(sb, g', i);
      } else {
        DenseBySlots(sb, g0, g', j, g0.inodes[j].size);
      }
    }
    forall j | 0 <= j < |g0.inodes| && j != i
      ensures g0.inodes[j].size <= MAXFILE * BSIZE && Content(sb, g', j) == Content(sb, g0, j)
    {
      assert FileOk(sb, g0, j);
      SameContent(sb, g0, owner, g', j);
    }
  }

  lemma NoBlocks(sb: Super, g: Image, i: nat)
    requires At(sb, g, i) && forall l :: 0 <= l < NSLOTS ==> Slot(g, i, l) == 0
    ensures Dense(sb, g, i, 0)
  {
    hide Slot;
  }

  /** A file whose slots and data blocks are the same has the same content. */
  lemma SameContent(sb: Super, g: Image, owner: Owner, g': Image, j: nat)
    requires FsOk(sb, g, owner) && At(sb, g', j) && j < |g.inodes| && g'.inodes[j] == g.inodes[j]
             && g.inodes[j].size <= MAXFILE * BSIZE
    requires forall l :: 0 <= l < NSLOTS ==> Slot(g', j, l) == Slot(g, j, l)
    requires forall b: nat :: sb.Data(b) ==> g'.blocks[b] == g.blocks[b]
    ensures Content(sb, g', j) == Content(sb, g, j)
  {
    hide Slot, SlotsOwn, OwnersHave, BitsTell, Dense;
    assert FileOk(sb, g, j);
    forall p: nat | p < g.inodes[j].size ensures FileByte(sb, g', j, p) == FileByte(sb, g, j, p) {
      DenseHas(sb, g, j, g.inodes[j].size, p);
      FileBlockIsPlain(sb, g, owner, {}, j, p / BSIZE);
    }
  }

  /** Files with the same slots and the same content. */
  ghost predicate SameFiles(sb: Super, g: Image, g': Image)
  {
    && Shaped(sb, g) && Shaped(sb, g') && g'.inodes == g.inodes
    && (forall j, l :: 0 <= j < |g.inodes| && 0 <= l < NSLOTS ==> Slot(g', j, l) == Slot(g, j, l))
    && forall j :: 0 <= j < |g.inodes| ==> g.inodes[j].size <= MAXFILE * BSIZE && Content(sb, g', j) == Content(sb, g, j)
  }

  lemma LowStoreOwned(sb: Super, g: Image, owner: Owner, a: nat, x: Block)
    requires Owned(sb, g, owner, {}) && a < sb.bmapstart
    ensures var g' := Image(g.blocks[a := x], g.inodes);
            && Owned(sb, g', owner, {})
            && forall j, l :: 0 <= j < |g.inodes| && 0 <= l < NSLOTS ==> Slot(g', j, l) == Slot(g, j, l)
  {
    hide Slot, Bit;
    var g' := Image(g.blocks[a := x], g.inodes);
    forall b: nat | b < sb.size ensures Used(sb, g'.blocks, b) == Used(sb, g.blocks, b) {
      assert sb.BBlock(b) != a;
    }
    hide Used;
    forall j, l | 0 <= j < |g.inodes| && 0 <= l < NSLOTS ensures Slot(g', j, l) == Slot(g, j, l) {
      PlainWriteSlot(sb, g, owner, {}, a, x, j, l);
    }
  }

  /** A store before the bitmap touches no file. */
  lemma LowStoreOk(sb: Super, g: Image, owner: Owner, a: nat, x: Block)
    requires FsOk(sb, g, owner) && a < sb.bmapstart
    ensures var g' := Image(g.blocks[a := x], g.inodes); FsOk(sb, g', owner) && SameFiles(sb, g, g')
  {
    hide Slot, SlotsOwn, OwnersHave, BitsTell, FileByte, Dense, Content;
    var g' := Image(g.blocks[a := x], g.inodes);
    LowStoreOwned(sb, g, owner, a, x);
    forall j | 0 <= j < |g.inodes|
      ensures FileOk(sb, g', j) && g.inodes[j].size <= MAXFILE * BSIZE && Content(sb, g', j) == Content(sb, g, j)
    {
      assert FileOk(sb, g, j);
      DenseBySlots(sb, g, g', j, g.inodes[j].size);
      SameContent(sb, g, owner, g', j);
    }
  }
}
