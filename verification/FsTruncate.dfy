/** How much itrunc logs in one transaction, and on which disks that fits. */
module FsTruncate {
  import opened FsSpec
  import opened FsFiles
  import opened FileSystem

  /** The number of bitmap blocks in which the bits of the data blocks lie. */
  function DataBitmaps(sb: Super): nat {
    if sb.data < sb.size then (sb.size - 1) / BPB + 1 - sb.data / BPB else 0
  }

  /** Truncating inode i, whose own block is iblock, fits into one transaction. */
  ghost predicate TruncateFits(sb: Super, s: Fs, i: nat, iblock: nat) {
    |BitmapOf(sb, s, i, 0, POSITIONS) + {iblock}| <= MAXOPBLOCKS
  }

  // ---- The bound -------------------------------------------------------------------------------

  ghost function Between(a: nat, b: nat): (r: set<nat>)
    requires a <= b
    ensures |r| == b - a && forall x: nat :: x in r <==> a <= x < b
    decreases b
  {
    if a == b then {} else Between(a, b - 1) + {b - 1}
  }

  lemma DivMonotone(a: nat, b: nat)
    requires a <= b
    ensures a / BPB <= b / BPB
  {
  }

  /** itrunc logs at most one block for each bitmap block of the data area, and the inode's. */
  lemma {:induction false} TruncateBound(sb: Super, s: Fs, i: nat, iblock: nat)
    requires Inv(sb, s)
    ensures |BitmapOf(sb, s, i, 0, POSITIONS) + {iblock}| <= DataBitmaps(sb) + 1
  {
    hide Ptr, Used;
    var bits := BitmapOf(sb, s, i, 0, POSITIONS);
    if sb.data < sb.size {
      var lo, hi := BBlock(sb, sb.data), BBlock(sb, sb.size - 1) + 1;
      DivMonotone(sb.data, sb.size - 1);
      forall x | x in bits ensures x in Between(lo, hi) {
        var q: nat :| q < POSITIONS && Ptr(s, i, q) != 0 && x == BBlock(sb, Ptr(s, i, q));
        assert sb.data <= Ptr(s, i, q) < sb.size;
        DivMonotone(sb.data, Ptr(s, i, q));
        DivMonotone(Ptr(s, i, q), sb.size - 1);
      }
      SubsetSize(bits, Between(lo, hi));
    } else {
      assert bits == {};
    }
    UnionSize(bits, {iblock});
  }

  // ---- A file that spreads over the bitmap ---------------------------------------------------------

  /** A data block whose bit is in the k-th bitmap block of the data area. */
  function Nth(sb: Super, k: nat): nat {
    if k == 0 then sb.data else (sb.data / BPB + k) * BPB
  }

  lemma {:induction false} NthIs(sb: Super, k: nat)
    requires Geometry(sb) && k < DataBitmaps(sb)
    ensures sb.data <= Nth(sb, k) < sb.size && BBlock(sb, Nth(sb, k)) == BBlock(sb, sb.data) + k
  {
    var q := sb.data / BPB + k;
    assert q <= (sb.size - 1) / BPB;
    assert q * BPB / BPB == q;
  }

  /** An empty disk on which the first n blocks are marked. */
  ghost function Marked(sb: Super, n: nat): (r: seq<Block>)
    requires Geometry(sb) && n <= sb.data
    ensures |r| == sb.size
  {
    if n == 0 then seq(sb.size, _ => Zeros())
    else
      BitmapInMeta(sb, n - 1);
      MarkUsed(sb, Marked(sb, n - 1), n - 1)
  }

  lemma {:induction false} NoBit(k: nat)
    ensures !Bit(0, k)
  {
    if k > 0 {
      NoBit(k - 1);
    }
  }

  lemma {:induction false} MarkedBits(sb: Super, n: nat, c: nat)
    requires Geometry(sb) && n <= sb.data && c < sb.size
    ensures BBlock(sb, c) < sb.size && (Used(sb, Marked(sb, n), c) <==> c < n)
  {
    hide MarkUsed;
    BitmapInMeta(sb, c);
    if n == 0 {
      NoBit(c % 8);
    } else {
      BitmapInMeta(sb, n - 1);
      MarkedBits(sb, n - 1, c);
      MarkUsedBits(sb, Marked(sb, n - 1), n - 1, c);
    }
  }

  /** The addresses of a file that has the first k of those blocks. */
  function Spread(sb: Super, k: nat): seq<nat> {
    seq(NDIRECT + 1, (p: nat) => if p < k then Nth(sb, p) else 0)
  }

  ghost predicate IsSpread(sb: Super, s: Fs, k: nat) {
    && Inv(sb, s) && s.inodes == map[0 := Inode(0, Spread(sb, k))]
  }

  lemma {:induction false} SpreadPtrs(sb: Super, s: Fs, k: nat, i: nat, p: nat)
    requires s.inodes == map[0 := Inode(0, Spread(sb, k))] && k <= NDIRECT
    ensures Ptr(s, i, p) == if i == 0 && p < k then Nth(sb, p) else 0
  {
  }

  lemma {:induction false} SpreadStart(sb: Super) returns (s: Fs)
    requires Geometry(sb)
    ensures IsSpread(sb, s, 0)
  {
    hide Ptr, Used;
    s := Fs(Marked(sb, sb.data), map[0 := Inode(0, Spread(sb, 0))], map[]);
    forall i: nat, p: nat ensures Ptr(s, i, p) == 0 {
      SpreadPtrs(sb, s, 0, i, p);
    }
    forall b: nat | b < sb.size ensures Used(sb, s.blocks, b) <==> b < sb.data || Owned(s, b) {
      MarkedBits(sb, sb.data, b);
    }
  }

  lemma {:induction false} SpreadIsFree(sb: Super, s: Fs, k: nat)
    requires IsSpread(sb, s, k) && k < DataBitmaps(sb) && k <= NDIRECT
    ensures Nth(sb, k) < sb.size == |s.blocks| && BBlock(sb, Nth(sb, k)) < sb.size && !Used(sb, s.blocks, Nth(sb, k))
  {
    hide Ptr, Used, Nth;
    NthIs(sb, k);
    var b := Nth(sb, k);
    BitmapInMeta(sb, b);
    forall i: nat, p: nat ensures Ptr(s, i, p) != b {
      SpreadPtrs(sb, s, k, i, p);
      if i == 0 && p < k {
        NthIs(sb, p);
      }
    }
  }

  lemma {:induction false} SpreadNext(sb: Super, s: Fs, k: nat) returns (t: Fs)
    requires IsSpread(sb, s, k) && k < DataBitmaps(sb) && k < NDIRECT
    ensures IsSpread(sb, t, k + 1)
  {
    hide Ptr, Used, InvBut, Nth;
    SpreadIsFree(sb, s, k);
    SpreadPtrs(sb, s, k, 0, k);
    var b := Nth(sb, k);
    MapDirect(sb, s, 0, k, b);
    t := SetAddr(Take(sb, s, b), 0, k, b);
    assert Spread(sb, k)[k := b] == Spread(sb, k + 1);
    assert t.inodes == map[0 := Inode(0, Spread(sb, k + 1))];
  }

  lemma {:induction false} SpreadExists(sb: Super, k: nat) returns (s: Fs)
    requires Geometry(sb) && k <= DataBitmaps(sb) && k <= NDIRECT
    ensures IsSpread(sb, s, k)
  {
    hide IsSpread;
    if k == 0 {
      s := SpreadStart(sb);
    } else {
      s := SpreadExists(sb, k - 1);
      s := SpreadNext(sb, s, k - 1);
    }
  }

  lemma {:induction false} SpreadIsLarge(sb: Super, s: Fs, k: nat, iblock: nat)
    requires Geometry(sb) && IsSpread(sb, s, k) && k <= DataBitmaps(sb) && k <= NDIRECT && iblock < sb.bmapstart
    ensures |BitmapOf(sb, s, 0, 0, POSITIONS) + {iblock}| >= k + 1
  {
    hide Ptr, Used, InvBut, Nth;
    var bits, lo := BitmapOf(sb, s, 0, 0, POSITIONS), BBlock(sb, sb.data);
    forall x | x in Between(lo, lo + k) ensures x in bits {
      var p: nat := x - lo;
      NthIs(sb, p);
      SpreadPtrs(sb, s, k, 0, p);
    }
    SubsetSize(Between(lo, lo + k) + {iblock}, bits + {iblock});
    assert iblock !in Between(lo, lo + k);
  }

  /** The same file with the size that its blocks allow. */
  lemma {:induction false} SpreadFile(sb: Super, k: nat, iblock: nat) returns (t: Fs)
    requires Geometry(sb) && k <= DataBitmaps(sb) && k <= NDIRECT && iblock < sb.bmapstart
    ensures Inv(sb, t) && NoHoles(t) && 0 in t.inodes
    ensures |BitmapOf(sb, t, 0, 0, POSITIONS) + {iblock}| >= k + 1
  {
    hide Ptr, Used, InvBut, Nth;
    var s := SpreadExists(sb, k);
    SpreadIsLarge(sb, s, k, iblock);
    SetSizeKeeps(sb, s, 0, k * BSIZE);
    t := SetSize(s, 0, k * BSIZE);
    assert BitmapOf(sb, t, 0, 0, POSITIONS) == BitmapOf(sb, s, 0, 0, POSITIONS);
    forall bn: nat | bn * BSIZE < k * BSIZE ensures Ptr(t, 0, PosOf(bn)) != 0 {
      SpreadPtrs(sb, s, k, 0, bn);
      NthIs(sb, bn);
      assert Ptr(t, 0, bn) == Ptr(s, 0, bn);
    }
  }

  // ---- The exact condition ----------------------------------------------------------------------------

  /** Truncating any inode of any file system on this disk fits into a transaction, if and
      only if the bits of the data area lie in fewer than MAXOPBLOCKS bitmap blocks. */
  lemma {:induction false} TruncateFitsIff(sb: Super)
    requires Geometry(sb) && sb.bmapstart > 0
    ensures (forall s, i, iblock: nat :: Inv(sb, s) && NoHoles(s) && i in s.inodes && iblock < sb.bmapstart ==>
               TruncateFits(sb, s, i, iblock)) <==> DataBitmaps(sb) < MAXOPBLOCKS
  {
    hide InvBut, BitmapOf, NoHoles;
    forall s, i, iblock: nat | Inv(sb, s) && i in s.inodes && DataBitmaps(sb) < MAXOPBLOCKS
      ensures TruncateFits(sb, s, i, iblock)
    {
      TruncateBound(sb, s, i, iblock);
    }
    if DataBitmaps(sb) >= MAXOPBLOCKS {
      var s := SpreadFile(sb, MAXOPBLOCKS, 0);
      assert !TruncateFits(sb, s, 0, 0);
    }
  }
}
