/** The contents of a disk block as the file system reads them (src/fs.c): raw
    bytes, the bits of the free map, and the 32-bit words of an indirect block. */
module FsBlock {

  import opened Common

  const BSIZE: nat := 512
  const BPB: nat := 4096        // bitmap bits per block
  const NINDIRECT: nat := 128   // block numbers per indirect block

  type Byte = x: int | 0 <= x < 256

  type Block = b: seq<Byte> | |b| == BSIZE witness seq(BSIZE, i => 0)

  function Zeros(): (z: Block)
    ensures forall i :: 0 <= i < BSIZE ==> z[i] == 0
  {
    seq(BSIZE, i => 0)
  }

  // ---- Bits ----------------------------------------------------------------------------------

  /** x & (1 << i), as a truth value */
  predicate Has(x: nat, i: nat)
  {
    if i == 0 then x % 2 == 1 else Has(x / 2, i - 1)
  }

  /** x | (1 << i) */
  function With(x: nat, i: nat): nat
    decreases i
  {
    if i == 0 then x / 2 * 2 + 1 else With(x / 2, i - 1) * 2 + x % 2
  }

  /** x & ~(1 << i) */
  function Less(x: nat, i: nat): nat
    decreases i
  {
    if i == 0 then x / 2 * 2 else Less(x / 2, i - 1) * 2 + x % 2
  }

  lemma Halves(x: nat, i: nat)
    requires i > 0
    ensures With(x, i) / 2 == With(x / 2, i - 1) && With(x, i) % 2 == x % 2
    ensures Less(x, i) / 2 == Less(x / 2, i - 1) && Less(x, i) % 2 == x % 2
  {
    var w, l, r := With(x / 2, i - 1), Less(x / 2, i - 1), x % 2;
    assert With(x, i) == w * 2 + r && Less(x, i) == l * 2 + r;
    hide With, Less;
  }

  lemma LastBit(x: nat)
    ensures With(x, 0) / 2 == x / 2 && With(x, 0) % 2 == 1 && Less(x, 0) / 2 == x / 2 && Less(x, 0) % 2 == 0
  {
  }

  lemma HasHalf(x: nat, i: nat)
    ensures Has(x, i) <==> if i == 0 then x % 2 == 1 else Has(x / 2, i - 1)
  {
  }

  lemma {:induction false} BitOps(x: nat, i: nat, j: nat)
    ensures Has(With(x, i), j) <==> i == j || Has(x, j)
    ensures Has(Less(x, i), j) <==> i != j && Has(x, j)
    decreases i
  {
    hide With, Less, Has;
    HasHalf(x, j);
    HasHalf(With(x, i), j);
    HasHalf(Less(x, i), j);
    if i == 0 {
      LastBit(x);
    } else {
      Halves(x, i);
      if j > 0 {
        BitOps(x / 2, i - 1, j - 1);
      }
    }
  }

  function Pow2(n: nat): (r: nat)
    ensures r > 0
  {
    if n == 0 then 1 else 2 * Pow2(n - 1)
  }

  lemma HalfBelow(x: nat, p: nat)
    ensures x < 2 * p <==> x / 2 < p
  {
  }

  lemma {:induction false} BitOpsFit(x: nat, i: nat, n: nat)
    requires i < n && x < Pow2(n)
    ensures With(x, i) < Pow2(n) && Less(x, i) < Pow2(n)
    decreases n
  {
    var p := Pow2(n - 1);
    assert Pow2(n) == 2 * p;
    hide With, Less, Pow2;
    HalfBelow(x, p);
    HalfBelow(With(x, i), p);
    HalfBelow(Less(x, i), p);
    if i == 0 {
      LastBit(x);
    } else {
      Halves(x, i);
      BitOpsFit(x / 2, i - 1, n - 1);
    }
  }

  lemma BitOpsAreBytes(x: Byte, i: nat)
    requires i < 8
    ensures With(x, i) < 256 && Less(x, i) < 256
  {
    assert Pow2(8) == 256;
    BitOpsFit(x, i, 8);
  }

  predicate Bit(b: Block, i: nat)
    requires i < BPB
  {
    Has(b[i / 8], i % 8)
  }

  function SetBit(b: Block, i: nat): Block
    requires i < BPB
  {
    BitOpsAreBytes(b[i / 8], i % 8);
    b[i / 8 := With(b[i / 8], i % 8)]
  }

  function ClearBit(b: Block, i: nat): Block
    requires i < BPB
  {
    BitOpsAreBytes(b[i / 8], i % 8);
    b[i / 8 := Less(b[i / 8], i % 8)]
  }

  lemma BitAfter(b: Block, i: nat, j: nat)
    requires i < BPB && j < BPB
    ensures Bit(SetBit(b, i), j) <==> i == j || Bit(b, j)
    ensures Bit(ClearBit(b, i), j) <==> i != j && Bit(b, j)
  {
    hide Has, With, Less;
    BitOps(b[i / 8], i % 8, j % 8);
    assert i == j <==> i / 8 == j / 8 && i % 8 == j % 8;
  }

  // ---- Words, least significant byte first ----------------------------------------------------------

  function Word(b: Block, k: nat): (w: nat)
    requires k < NINDIRECT
    ensures w < UINT
  {
    var b0: int, b1: int, b2: int, b3: int := b[4 * k], b[4 * k + 1], b[4 * k + 2], b[4 * k + 3];
    b0 + 0x100 * b1 + 0x1_0000 * b2 + 0x100_0000 * b3
  }

  function SetWord(b: Block, k: nat, w: nat): Block
    requires k < NINDIRECT && w < UINT
  {
    b[4 * k := w % 0x100][4 * k + 1 := w / 0x100 % 0x100][4 * k + 2 := w / 0x1_0000 % 0x100][4 * k + 3 := w / 0x100_0000]
  }

  lemma Digits(w: nat)
    requires w < UINT
    ensures w == w % 0x100 + 0x100 * (w / 0x100 % 0x100) + 0x1_0000 * (w / 0x1_0000 % 0x100) + 0x100_0000 * (w / 0x100_0000)
  {
  }

  lemma WordAfter(b: Block, k: nat, w: nat, j: nat)
    requires k < NINDIRECT && w < UINT && j < NINDIRECT
    ensures Word(SetWord(b, k, w), j) == if j == k then w else Word(b, j)
  {
    Digits(w);
  }

  lemma ZeroWords(j: nat)
    requires j < NINDIRECT
    ensures Word(Zeros(), j) == 0
  {
  }
}
