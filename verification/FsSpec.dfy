/** Blocks, bitmap and inodes of kernel/fs.c as values: what each block holds, which
    blocks are in use, and which inode position owns which block. */
module FsSpec {
  import opened Basics

  const BSIZE: nat := 1024
  const NDIRECT: nat := 12
  const NINDIRECT: nat := 256
  const MAXFILE: nat := 268
  const BPB: nat := 8192
  const UINT: nat := 0x1_0000_0000

  type Block = b: seq<Byte> | |b| == BSIZE witness seq(BSIZE, _ => 0)

  function Zeros(): Block {
    seq(BSIZE, _ => 0)
  }

  // ---- Bits of a byte ------------------------------------------------------------------

  predicate Bit(x: nat, k: nat) {
    if k == 0 then x % 2 == 1 else Bit(x / 2, k - 1)
  }

  /** x | (1 << k). */
  function OrBit(x: nat, k: nat): (r: nat) {
    if Bit(x, k) then x else x + Pow2(k)
  }

  /** x & ~(1 << k). */
  function ClearBit(x: nat, k: nat): (r: nat) {
    if Bit(x, k) && x >= Pow2(k) then x - Pow2(k) else x
  }

  lemma {:induction false} BitNeedsPow2(x: nat, k: nat)
    requires Bit(x, k)
    ensures x >= Pow2(k)
  {
    if k > 0 {
      BitNeedsPow2(x / 2, k - 1);
    }
  }

  lemma {:induction false} OrBitBits(x: nat, k: nat, j: nat)
    ensures Bit(OrBit(x, k), j) <==> j == k || Bit(x, j)
  {
    if !Bit(x, k) {
      AddBit(x, k, j);
    }
  }

  lemma {:induction false} AddBit(x: nat, k: nat, j: nat)
    requires !Bit(x, k)
    ensures Bit(x + Pow2(k), j) <==> j == k || Bit(x, j)
  {
    if k > 0 {
      assert (x + Pow2(k)) / 2 == x / 2 + Pow2(k - 1);
      assert (x + Pow2(k)) % 2 == x % 2;
      if j > 0 {
        AddBit(x / 2, k - 1, j - 1);
      }
    } else if j > 0 {
      assert (x + 1) / 2 == x / 2;
    }
  }

  lemma {:induction false} ClearBitBits(x: nat, k: nat, j: nat)
    ensures Bit(ClearBit(x, k), j) <==> j != k && Bit(x, j)
  {
    if Bit(x, k) {
      BitNeedsPow2(x, k);
      SubBit(x, k, k);
      AddBit(x - Pow2(k), k, j);
      SubBit(x, k, j);
    }
  }

  lemma {:induction false} SubBit(x: nat, k: nat, j: nat)
    requires Bit(x, k) && x >= Pow2(k)
    ensures !Bit(x - Pow2(k), k)
  {
    if k > 0 {
      assert (x - Pow2(k)) / 2 == x / 2 - Pow2(k - 1);
      BitNeedsPow2(x / 2, k - 1);
      SubBit(x / 2, k - 1, 0);
    }
  }

  /** A byte stays a byte. */
  lemma {:induction false} BitBound(x: nat, k: nat, n: nat)
    requires k < n && x < Pow2(n)
    ensures OrBit(x, k) < Pow2(n)
    ensures ClearBit(x, k) < Pow2(n)
  {
    if !Bit(x, k) {
      RoomForBit(x, k, n);
    }
  }

  lemma {:induction false} RoomForBit(x: nat, k: nat, n: nat)
    requires k < n && x < Pow2(n) && !Bit(x, k)
    ensures x + Pow2(k) < Pow2(n)
  {
    hide Pow2;
    Pow2Doubles(n);
    if k == 0 {
      Pow2Of0();
    } else {
      Pow2Doubles(k);
      RoomForBit(x / 2, k - 1, n - 1);
    }
  }

  lemma Pow2Of8()
    ensures Pow2(8) == 256
  {
    assert Pow2(4) == 16;
  }

  // ---- Words of a block -----------------------------------------------------------------

  /** The uint at index j, least significant byte first. */
  function Word(b: Block, j: nat): (w: nat)
    requires j < NINDIRECT
    ensures w < UINT
  {
    var b0: int, b1: int, b2: int, b3: int := b[4 * j], b[4 * j + 1], b[4 * j + 2], b[4 * j + 3];
    b0 + 256 * b1 + 65536 * b2 + 16777216 * b3
  }

  function SetWord(b: Block, j: nat, w: nat): (r: Block)
    requires j < NINDIRECT && w < UINT
  {
    b[4 * j := w % 256][4 * j + 1 := w / 256 % 256][4 * j + 2 := w / 65536 % 256][4 * j + 3 := w / 16777216]
  }

  lemma {:induction false} SetWordWords(b: Block, j: nat, w: nat, i: nat)
    requires j < NINDIRECT && i < NINDIRECT && w < UINT
    ensures Word(SetWord(b, j, w), i) == if i == j then w else Word(b, i)
  {
    if i == j {
      BytesOfWord(w);
    }
  }

  lemma {:induction false} BytesOfWord(w: nat)
    ensures w == w % 256 + 256 * (w / 256 % 256) + 65536 * (w / 65536 % 256) + 16777216 * (w / 16777216)
  {
    var a := w / 256;
    var b := a / 256;
    assert w == w % 256 + 256 * a;
    assert a == a % 256 + 256 * b;
    assert w / 65536 == b;
    assert b / 256 == w / 16777216;
  }

  lemma ZeroWords(j: nat)
    requires j < NINDIRECT
    ensures Word(Zeros(), j) == 0
  {
  }

  // ---- The file system ------------------------------------------------------------------

  /** The parts of the superblock that matter here; data blocks start at `data`. */
  datatype Super = Super(size: nat, bmapstart: nat, data: nat)

  datatype Inode = Inode(size: nat, addrs: seq<nat>)

  /** blocks is what bread returns; inodes the in-memory inodes; dinodes their disk copies. */
  datatype Fs = Fs(blocks: seq<Block>, inodes: map<nat, Inode>, dinodes: map<nat, Inode>)

  ghost predicate Geometry(sb: Super) {
    && 0 < sb.data <= sb.size < UINT
    && sb.bmapstart + (sb.size + BPB - 1) / BPB <= sb.data
  }

  function BBlock(sb: Super, b: nat): nat {
    b / BPB + sb.bmapstart
  }

  /** Is block b marked as in use? */
  predicate Used(sb: Super, blocks: seq<Block>, b: nat)
    requires BBlock(sb, b) < |blocks|
  {
    Bit(blocks[BBlock(sb, b)][b % BPB / 8], b % 8)
  }

  const INDIRECT: nat := NDIRECT
  const POSITIONS: nat := NDIRECT + 1 + NINDIRECT

  /** What inode i points to at position p: 0..11 the direct blocks, 12 the indirect
      block, 13.. its entries. 0 is no block. */
  function Ptr(s: Fs, i: nat, p: nat): (b: nat) {
    if i !in s.inodes || |s.inodes[i].addrs| != NDIRECT + 1 || p >= POSITIONS then 0
    else
      var a := s.inodes[i].addrs;
      if p <= INDIRECT then a[p]
      else if a[INDIRECT] == 0 || a[INDIRECT] >= |s.blocks| then 0
      else Word(s.blocks[a[INDIRECT]], p - INDIRECT - 1)
  }

  /** The position of the nth block of a file's content. */
  function PosOf(bn: nat): nat {
    if bn < NDIRECT then bn else bn + 1
  }

  ghost predicate Shape(sb: Super, s: Fs) {
    && Geometry(sb) && |s.blocks| == sb.size
    && forall i :: i in s.inodes ==> |s.inodes[i].addrs| == NDIRECT + 1
  }

  ghost predicate PtrsInRange(sb: Super, s: Fs) {
    forall i, p :: Ptr(s, i, p) != 0 ==> sb.data <= Ptr(s, i, p) < sb.size
  }

  /** No block is owned by two positions. */
  ghost predicate OneOwner(s: Fs) {
    forall i, p, j, q :: Ptr(s, i, p) != 0 && Ptr(s, i, p) == Ptr(s, j, q) ==> i == j && p == q
  }

  ghost predicate Owned(s: Fs, b: nat) {
    exists i, p :: Ptr(s, i, p) == b
  }

  /** A bit is set exactly for metadata, for owned blocks, and for the blocks in `loose`,
      which an operation in progress holds and no inode owns. */
  ghost predicate BitsExact(sb: Super, s: Fs, loose: set<nat>)
    requires Shape(sb, s)
  {
    forall b: nat :: b < sb.size ==> (Used(sb, s.blocks, b) <==> b < sb.data || Owned(s, b) || b in loose)
  }

  ghost predicate InvBut(sb: Super, s: Fs, loose: set<nat>) {
    && Shape(sb, s) && PtrsInRange(sb, s) && OneOwner(s) && BitsExact(sb, s, loose)
    && forall b :: b in loose ==> sb.data <= b < sb.size && !Owned(s, b)
  }

  ghost predicate Inv(sb: Super, s: Fs) {
    InvBut(sb, s, {})
  }

  lemma {:induction false} BitmapInMeta(sb: Super, b: nat)
    requires Geometry(sb) && b < sb.size
    ensures BBlock(sb, b) < sb.data <= sb.size
  {
    assert b / BPB < (sb.size + BPB - 1) / BPB;
  }

  // ---- The bitmap -------------------------------------------------------------------------

  function MarkUsed(sb: Super, blocks: seq<Block>, b: nat): (r: seq<Block>)
    requires BBlock(sb, b) < |blocks|
    ensures |r| == |blocks|
  {
    var x := BBlock(sb, b);
    var k := b % BPB / 8;
    BitBound(blocks[x][k], b % 8, 8);
    Pow2Of8();
    blocks[x := blocks[x][k := OrBit(blocks[x][k], b % 8)]]
  }

  function MarkFree(sb: Super, blocks: seq<Block>, b: nat): (r: seq<Block>)
    requires BBlock(sb, b) < |blocks|
    ensures |r| == |blocks|
  {
    var x := BBlock(sb, b);
    var k := b % BPB / 8;
    BitBound(blocks[x][k], b % 8, 8);
    Pow2Of8();
    blocks[x := blocks[x][k := ClearBit(blocks[x][k], b % 8)]]
  }

  /** Two block numbers with the same bitmap block, byte and bit are the same. */
  lemma {:induction false} SameBit(b: nat, c: nat)
    requires b / BPB == c / BPB && b % BPB / 8 == c % BPB / 8 && b % 8 == c % 8
    ensures b == c
  {
    BitParts(b);
    BitParts(c);
  }

  lemma BitParts(b: nat)
    ensures b == BPB * (b / BPB) + 8 * (b % BPB / 8) + b % 8
  {
    var q, r := b / BPB, b % BPB;
    assert b == 8 * (1024 * q + r / 8) + r % 8;
  }

  lemma {:induction false} MarkUsedBits(sb: Super, blocks: seq<Block>, b: nat, c: nat)
    requires BBlock(sb, b) < |blocks| && BBlock(sb, c) < |blocks|
    ensures Used(sb, MarkUsed(sb, blocks, b), c) <==> c == b || Used(sb, blocks, c)
  {
    hide Bit, OrBit, Pow2;
    OrBitBits(blocks[BBlock(sb, b)][b % BPB / 8], b % 8, c % 8);
    if b / BPB == c / BPB && b % BPB / 8 == c % BPB / 8 && b % 8 == c % 8 {
      SameBit(b, c);
    }
  }

  lemma {:induction false} MarkFreeBits(sb: Super, blocks: seq<Block>, b: nat, c: nat)
    requires BBlock(sb, b) < |blocks| && BBlock(sb, c) < |blocks|
    ensures Used(sb, MarkFree(sb, blocks, b), c) <==> c != b && Used(sb, blocks, c)
  {
    hide Bit, ClearBit, Pow2;
    ClearBitBits(blocks[BBlock(sb, b)][b % BPB / 8], b % 8, c % 8);
    if b / BPB == c / BPB && b % BPB / 8 == c % BPB / 8 && b % 8 == c % 8 {
      SameBit(b, c);
    }
  }

  // ---- Frames -----------------------------------------------------------------------------

  ghost predicate SamePtrs(s: Fs, t: Fs) {
    forall i, p :: Ptr(t, i, p) == Ptr(s, i, p)
  }

  lemma {:induction false} SamePtrsOwned(s: Fs, t: Fs)
    requires SamePtrs(s, t)
    ensures forall b :: Owned(t, b) <==> Owned(s, b)
    ensures OneOwner(s) ==> OneOwner(t)
  {
    forall b ensures Owned(t, b) <==> Owned(s, b) {
      if Owned(t, b) {
        var i, p :| Ptr(t, i, p) == b;
        assert Ptr(s, i, p) == b;
      }
      if Owned(s, b) {
        var i, p :| Ptr(s, i, p) == b;
        assert Ptr(t, i, p) == b;
      }
    }
  }

  /** Blocks other than indirect blocks can change without moving a pointer. */
  lemma {:induction false} BlocksKeepPtrs(s: Fs, t: Fs)
    requires t.inodes == s.inodes && |t.blocks| == |s.blocks|
    requires forall i :: Ptr(s, i, INDIRECT) != 0 && Ptr(s, i, INDIRECT) < |s.blocks| ==>
               t.blocks[Ptr(s, i, INDIRECT)] == s.blocks[Ptr(s, i, INDIRECT)]
    ensures SamePtrs(s, t)
  {
    hide Word;
    forall i, p ensures Ptr(t, i, p) == Ptr(s, i, p) {
      assert Ptr(t, i, INDIRECT) == Ptr(s, i, INDIRECT);
    }
  }

  lemma {:induction false} UsedFrame(sb: Super, bs: seq<Block>, cs: seq<Block>, b: nat)
    requires Geometry(sb) && |bs| == |cs| == sb.size && b < sb.size
    requires forall x :: 0 <= x < sb.data ==> bs[x] == cs[x]
    ensures BBlock(sb, b) < sb.size && (Used(sb, bs, b) <==> Used(sb, cs, b))
  {
    BitmapInMeta(sb, b);
  }

  // ---- Taking and giving back a block -------------------------------------------------------

  /** balloc once it has found block b: mark it and zero it. */
  function Take(sb: Super, s: Fs, b: nat): Fs
    requires b < |s.blocks| && BBlock(sb, b) < |s.blocks|
  {
    s.(blocks := MarkUsed(sb, s.blocks, b)[b := Zeros()])
  }

  lemma {:induction false} TakeFrame(sb: Super, s: Fs, b: nat)
    requires Shape(sb, s) && PtrsInRange(sb, s) && sb.data <= b < sb.size && !Owned(s, b)
    ensures BBlock(sb, b) < sb.data && SamePtrs(s, Take(sb, s, b))
    ensures forall x :: sb.data <= x < sb.size && x != b ==> Take(sb, s, b).blocks[x] == s.blocks[x]
    ensures forall c: nat :: c < sb.size ==>
              BBlock(sb, c) < |s.blocks| && (Used(sb, Take(sb, s, b).blocks, c) <==> c == b || Used(sb, s.blocks, c))
  {
    hide Zeros, OrBit, Bit, Word;
    BitmapInMeta(sb, b);
    var t := Take(sb, s, b);
    forall i | Ptr(s, i, INDIRECT) != 0 && Ptr(s, i, INDIRECT) < |s.blocks|
      ensures t.blocks[Ptr(s, i, INDIRECT)] == s.blocks[Ptr(s, i, INDIRECT)]
    {
      assert Owned(s, Ptr(s, i, INDIRECT));
    }
    BlocksKeepPtrs(s, t);
    forall c: nat | c < sb.size
      ensures BBlock(sb, c) < |s.blocks|
              && (Used(sb, t.blocks, c) <==> c == b || Used(sb, s.blocks, c))
    {
      BitmapInMeta(sb, c);
      MarkUsedBits(sb, s.blocks, b, c);
    }
  }

  lemma {:induction false} TakeInv(sb: Super, s: Fs, b: nat, loose: set<nat>)
    requires InvBut(sb, s, loose) && b < sb.size && BBlock(sb, b) < |s.blocks| && !Used(sb, s.blocks, b)
    ensures sb.data <= b && !Owned(s, b) && b !in loose
    ensures InvBut(sb, Take(sb, s, b), loose + {b})
  {
    hide Ptr, Used, Take;
    TakeFrame(sb, s, b);
    SamePtrsOwned(s, Take(sb, s, b));
    TakeShape(sb, s, b);
    PtrsInRangeFrame(sb, s, Take(sb, s, b));
  }

  lemma TakeShape(sb: Super, s: Fs, b: nat)
    requires Shape(sb, s) && b < sb.size && BBlock(sb, b) < |s.blocks|
    ensures Shape(sb, Take(sb, s, b))
  {
  }

  lemma PtrsInRangeFrame(sb: Super, s: Fs, t: Fs)
    requires PtrsInRange(sb, s) && SamePtrs(s, t)
    ensures PtrsInRange(sb, t)
  {
  }

  /** bfree. */
  function GiveBack(sb: Super, s: Fs, b: nat): Fs
    requires BBlock(sb, b) < |s.blocks|
  {
    s.(blocks := MarkFree(sb, s.blocks, b))
  }

  lemma {:induction false} GiveBackFrame(sb: Super, s: Fs, b: nat)
    requires Shape(sb, s) && PtrsInRange(sb, s) && b < sb.size
    ensures BBlock(sb, b) < sb.data && SamePtrs(s, GiveBack(sb, s, b))
    ensures forall x :: sb.data <= x < sb.size ==> GiveBack(sb, s, b).blocks[x] == s.blocks[x]
    ensures forall c: nat :: c < sb.size ==>
              BBlock(sb, c) < |s.blocks|
              && (Used(sb, GiveBack(sb, s, b).blocks, c) <==> c != b && Used(sb, s.blocks, c))
  {
    hide ClearBit, Bit, Word;
    BitmapInMeta(sb, b);
    var t := GiveBack(sb, s, b);
    BlocksKeepPtrs(s, t);
    forall c: nat | c < sb.size
      ensures BBlock(sb, c) < |s.blocks|
              && (Used(sb, t.blocks, c) <==> c != b && Used(sb, s.blocks, c))
    {
      BitmapInMeta(sb, c);
      MarkFreeBits(sb, s.blocks, b, c);
    }
  }

  /** Freeing a loose block: its bit is set, so the "freeing free block" panic is out
      of reach, and afterwards it belongs to nobody. */
  lemma {:induction false} GiveBackInv(sb: Super, s: Fs, b: nat, loose: set<nat>)
    requires InvBut(sb, s, loose) && b in loose
    ensures BBlock(sb, b) < |s.blocks| && Used(sb, s.blocks, b)
    ensures InvBut(sb, GiveBack(sb, s, b), loose - {b})
  {
    hide Ptr, Used, GiveBack;
    GiveBackFrame(sb, s, b);
    var t := GiveBack(sb, s, b);
    SamePtrsOwned(s, t);
    GiveBackShape(sb, s, b);
    PtrsInRangeFrame(sb, s, t);
    assert Used(sb, s.blocks, b);
  }

  lemma GiveBackShape(sb: Super, s: Fs, b: nat)
    requires Shape(sb, s) && BBlock(sb, b) < |s.blocks|
    ensures Shape(sb, GiveBack(sb, s, b))
  {
  }
}
