/** The block allocator and the inode layer of kernel/fs.c as they run, and the chunked
    writes of kernel/file.c on top of them. */
module FileSystem {
  import opened Basics
  import opened FsSpec
  import opened FsFiles

  const DINODE: nat := 64  // bytes of an inode on disk
  const IPB: nat := BSIZE / DINODE
  const MAXOPBLOCKS: nat := 10

  function Min(a: nat, b: nat): nat {
    if a < b then a else b
  }

  ghost predicate DiskFull(sb: Super, blocks: seq<Block>) {
    forall c: nat :: c < sb.size ==> BBlock(sb, c) < |blocks| && Used(sb, blocks, c)
  }

  /** The blocks an operation that takes s0 to s may log for position q of inode i: the
      block there and, if the operation has allocated it, its bitmap block. */
  ghost function Touched(sb: Super, s0: Fs, s: Fs, i: nat, q: nat): set<nat> {
    var b := Ptr(s, i, q);
    if b == 0 then {} else if Ptr(s0, i, q) == 0 then {b, BBlock(sb, b)} else {b}
  }

  /** What an operation that wrote blocks lo..hi of inode i has logged: those blocks, the
      indirect block, the bitmap blocks of those it allocated, and the inode's block. */
  ghost predicate LoggedFor(sb: Super, s0: Fs, s: Fs, i: nat, iblock: nat, lo: nat, hi: nat, more: set<nat>) {
    forall x :: x in more ==>
      || x == iblock || x in Touched(sb, s0, s, i, INDIRECT)
      || exists bn: nat :: lo <= bn < hi && x in Touched(sb, s0, s, i, PosOf(bn))
  }

  /** Every block that differs between a and b has been given to log_write. */
  ghost predicate Logs(a: seq<Block>, b: seq<Block>, l: set<nat>) {
    |a| == |b| && forall x: nat :: x < |a| && b[x] != a[x] ==> x in l
  }

  /** One transaction: the state before and after it, and what it has logged. */
  datatype Tx = Tx(before: Fs, logged: set<nat>, after: Fs)

  /** The transactions lead from s to t, one after the other. */
  ghost predicate Lead(txs: seq<Tx>, s: Fs, t: Fs) {
    if txs == [] then s == t
    else txs[0].before == s && Lead(txs[1..], txs[0].after, t)
  }

  /** Each logs all it changes, the inode's block included, and fits into the log. */
  ghost predicate Sound(txs: seq<Tx>, iblock: nat) {
    forall k :: 0 <= k < |txs| ==>
      && Logs(txs[k].before.blocks, txs[k].after.blocks, txs[k].logged)
      && iblock in txs[k].logged && |txs[k].logged| <= MAXOPBLOCKS
  }

  class FileSys {
    const sb: Super
    const inodestart: nat
    var blocks: seq<Block>
    var inodes: map<nat, Inode>
    var dinodes: map<nat, Inode>

    ghost var logged: set<nat>  // the blocks given to log_write in this operation

    ghost function St(): Fs
      reads this
    {
      Fs(blocks, inodes, dinodes)
    }

    /** The block that holds inode i. */
    /** The block that holds inode i on disk: inodes lie one after the other, and none
        across two blocks. */
    function IBlock(i: nat): (b: nat)
      ensures inodestart <= b
      ensures BSIZE * (b - inodestart) <= DINODE * i && DINODE * i + DINODE <= BSIZE * (b - inodestart) + BSIZE
    {
      i / IPB + inodestart
    }

    // ---- Blocks -------------------------------------------------------------------------------

    /** balloc: the lowest free block, marked and zeroed; None is the panic when every
        block is in use. */
    method Balloc() returns (r: Option<nat>)
      requires Geometry(sb) && |blocks| == sb.size
      modifies this`blocks, this`logged
      ensures r.None? ==> blocks == old(blocks) && logged == old(logged) && DiskFull(sb, blocks)
      ensures r.Some? ==>
                var b := r.value;
                && b < sb.size && BBlock(sb, b) < |old(blocks)| && !Used(sb, old(blocks), b)
                && (forall c: nat :: c < b ==> BBlock(sb, c) < |old(blocks)| && Used(sb, old(blocks), c))
                && St() == Take(sb, old(St()), b)
                && logged == old(logged) + {BBlock(sb, b), b}
    {
      hide Used, Bit, OrBit, Zeros;
      var b := 0;
      while b < sb.size
        invariant b % BPB == 0 && blocks == old(blocks) && logged == old(logged)
        invariant forall c: nat :: c < b && c < sb.size ==> BBlock(sb, c) < |blocks| && Used(sb, blocks, c)
      {
        BitmapInMeta(sb, b);
        var x := BBlock(sb, b);
        var bi := 0;
        while bi < BPB && b + bi < sb.size
          invariant bi <= BPB && b % BPB == 0 && blocks == old(blocks) && logged == old(logged)
          invariant forall c: nat :: c < b + bi && c < sb.size ==> BBlock(sb, c) < |blocks| && Used(sb, blocks, c)
        {
          SameBlockBits(sb, b, bi);
          BitmapInMeta(sb, b + bi);
          UsedIsBit(sb, blocks, b + bi);
          if !Bit(blocks[x][bi / 8], bi % 8) {
            ByteStays(blocks[x][bi / 8], bi % 8);
            blocks := blocks[x := blocks[x][bi / 8 := OrBit(blocks[x][bi / 8], bi % 8)]];
            blocks := blocks[b + bi := Zeros()];
            logged := logged + {x, b + bi};
            return Some(b + bi);
          }
          bi := bi + 1;
        }
        b := b + BPB;
      }
      return None;
    }

    /** bfree; false is the panic "freeing free block". */
    method Bfree(b: nat) returns (ok: bool)
      requires BBlock(sb, b) < |blocks|
      modifies this`blocks, this`logged
      ensures ok <==> Used(sb, old(blocks), b)
      ensures ok ==> St() == GiveBack(sb, old(St()), b)
      ensures !ok ==> blocks == old(blocks)
      ensures logged == if ok then old(logged) + {BBlock(sb, b)} else old(logged)
      ensures Logs(old(blocks), blocks, logged)
    {
      hide Bit, ClearBit;
      var x := BBlock(sb, b);
      var bi := b % BPB;
      FreeBits(b);
      UsedIsBit(sb, blocks, b);
      if !Bit(blocks[x][bi / 8], bi % 8) {
        return false;
      }
      ByteStays(blocks[x][bi / 8], bi % 8);
      blocks := blocks[x := blocks[x][bi / 8 := ClearBit(blocks[x][bi / 8], bi % 8)]];
      logged := logged + {x};
      ok := true;
    }

    // ---- bmap ---------------------------------------------------------------------------------

    /** The address of block bn of inode i, allocating it, and the indirect block before
        it, if they are missing. None is balloc's panic or bmap's own "out of range". */
    method Bmap(i: nat, bn: nat) returns (r: Option<nat>)
      requires Inv(sb, St()) && i in inodes
      modifies this`blocks, this`inodes, this`logged
      ensures bn >= MAXFILE ==> r.None?
      ensures r.None? && bn < MAXFILE ==> DiskFull(sb, blocks)
      ensures Ptr(old(St()), i, PosOf(bn)) != 0 && bn < MAXFILE ==>
                r.Some? && St() == old(St()) && logged == old(logged)
      ensures r.Some? ==>
                && Inv(sb, St()) && Extends(old(St()), St(), i)
                && r.value == Ptr(St(), i, PosOf(bn)) && r.value != 0
                && LoggedFor(sb, old(St()), St(), i, IBlock(i), bn, bn + 1, logged - old(logged))
      ensures old(logged) <= logged && Logs(old(blocks), blocks, logged)
    {
      hide Ptr, Used, Take, InvBut, DiskFull, Logs;
      LogsNone(blocks, logged);
      ghost var s := St();
      InvParts(sb, s);
      ExtendsSelf(s, i);
      if bn < NDIRECT {
        DirectPtr(s, i, bn);
        if inodes[i].addrs[bn] == 0 {
          r := Balloc();
          if r.None? { return; }
          MapDirect(sb, s, i, bn, r.value);
          LogsTake(sb, s, r.value, logged);
          inodes := inodes[i := inodes[i].(addrs := inodes[i].addrs[bn := r.value])];
          assert St() == SetAddr(Take(sb, s, r.value), i, bn, r.value);
        } else {
          r := Some(inodes[i].addrs[bn]);
        }
        return;
      }
      if bn - NDIRECT < NINDIRECT {
        DirectPtr(s, i, INDIRECT);
        if inodes[i].addrs[INDIRECT] == 0 {
          NoIndirectNoEntry(s, i, bn + 1);
          r := Balloc();
          if r.None? { return; }
          MapDirect(sb, s, i, INDIRECT, r.value);
          LogsTake(sb, s, r.value, logged);
          inodes := inodes[i := inodes[i].(addrs := inodes[i].addrs[INDIRECT := r.value])];
          assert St() == SetAddr(Take(sb, s, r.value), i, INDIRECT, r.value);
        }
        ghost var l, mid := logged, blocks;
        r := MapThroughIndirect(i, bn - NDIRECT, s);
        LogsBoth(old(blocks), mid, blocks, l, logged);
        if r.Some? {
          LoggedThrough(sb, s, St(), i, IBlock(i), bn, old(logged), l, logged);
        }
        return;
      }
      r := None;
    }

    /** The second half of bmap: entry e of an indirect block that exists. */
    method MapThroughIndirect(i: nat, e: nat, ghost s: Fs) returns (r: Option<nat>)
      requires Inv(sb, St()) && i in inodes && e < NINDIRECT && Ptr(St(), i, INDIRECT) != 0 && Extends(s, St(), i)
      modifies this`blocks, this`logged
      ensures Ptr(old(St()), i, INDIRECT + 1 + e) != 0 ==> r.Some? && St() == old(St()) && logged == old(logged)
      ensures r.None? ==> DiskFull(sb, blocks)
      ensures old(logged) <= logged && Logs(old(blocks), blocks, logged)
      ensures r.Some? ==>
                && Inv(sb, St()) && Extends(s, St(), i) && Ptr(St(), i, INDIRECT) == Ptr(old(St()), i, INDIRECT)
                && r.value == Ptr(St(), i, INDIRECT + 1 + e) && r.value != 0
                && logged - old(logged) <= Touched(sb, s, St(), i, INDIRECT) + Touched(sb, s, St(), i, INDIRECT + 1 + e)
    {
      hide Used, InvBut, Word, SetWord, Extends, MarkUsed, Zeros, DiskFull, Logs;
      LogsNone(blocks, logged);
      ghost var t := St();
      InvParts(sb, t);
      var x := inodes[i].addrs[INDIRECT];
      assert x == Ptr(t, i, INDIRECT);
      var addr := Word(blocks[x], e);
      if addr == 0 {
        r := Balloc();
        if r.None? { return; }
        MapEntry(sb, t, i, e, r.value);
        BlockNumbersFit(sb, t, r.value);
        LogsTake(sb, t, r.value, logged);
        LogsStore(t.blocks, blocks, x, SetWord(blocks[x], e, r.value), logged);
        blocks := blocks[x := SetWord(blocks[x], e, r.value)];
        logged := logged + {x};
        assert St() == SetEntry(Take(sb, t, r.value), i, e, r.value);
        ExtendsIndirect(t, St(), i);
        ExtendsTrans(s, t, St(), i);
        TouchedNew(sb, s, t, St(), i, INDIRECT + 1 + e, r.value);
        assert x in Touched(sb, s, St(), i, INDIRECT);
      } else {
        r := Some(addr);
      }
    }

    // ---- Contents -----------------------------------------------------------------------------

    /** readi: exactly the stored bytes, clipped at the end of the file; nothing for an
        offset past the end or a length that wraps around. It never allocates. */
    method Readi(i: nat, off: nat, n: nat) returns (dst: seq<Byte>)
      requires Inv(sb, St()) && i in inodes && HoleFree(St(), i) && off < UINT && n < UINT
      modifies this`blocks, this`inodes, this`logged
      ensures St() == old(St()) && logged == old(logged)
      ensures dst == if off > inodes[i].size || off + n >= UINT then []
                     else Content(St(), i)[off..Min(off + n, inodes[i].size)]
    {
      hide Ptr, InvBut, HoleFree, ByteAt, Extends;
      ghost var s, off0 := St(), off;
      ghost var c := Content(s, i);
      dst := [];
      if off > inodes[i].size || off + n >= UINT {
        return;
      }
      var n := if off + n > inodes[i].size then inodes[i].size - off else n;
      var off := off;
      var tot := 0;
      while tot < n
        invariant tot <= n && off == off0 + tot && off0 + n <= |c| && St() == s && logged == old(logged)
        invariant dst == c[off0..off]
      {
        BlockOfByte(s, i, off);
        var b := Bmap(i, off / BSIZE);
        var m := Min(n - tot, BSIZE - off % BSIZE);
        BlockHolds(sb, s, i, off, m);
        dst := dst + blocks[b.value][off % BSIZE..off % BSIZE + m];
        assert c[off0..off] + c[off..off + m] == c[off0..off + m];
        tot := tot + m;
        off := off + m;
      }
    }

    /** One turn of writei's loop: the bytes of data from tot to the end of a block. */
    method WriteChunk(i: nat, off: nat, data: seq<Byte>, tot: nat, ghost s0: Fs) returns (m: Option<nat>)
      requires Written(sb, s0, St(), i, off, data, tot) && tot < |data| && off + |data| <= MAXFILE * BSIZE
      requires s0.inodes[i].size <= MAXFILE * BSIZE
      modifies this`blocks, this`inodes, this`logged
      ensures m.None? ==> DiskFull(sb, blocks)
      ensures m.Some? ==>
                && m.value == Min(|data| - tot, BSIZE - (off + tot) % BSIZE)
                && Written(sb, s0, St(), i, off, data, tot + m.value)
                && LoggedFor(sb, old(St()), St(), i, IBlock(i), (off + tot) / BSIZE, (off + tot) / BSIZE + 1,
                      logged - old(logged))
                && (forall q: nat :: Ptr(old(St()), i, q) != 0 ==> Ptr(St(), i, q) == Ptr(old(St()), i, q))
      ensures old(logged) <= logged && Logs(old(blocks), blocks, logged)
    {
      hide Ptr, InvBut, HoleFree, ByteAt, Content, DiskFull, LoggedFor, Logs;
      ghost var s := St();
      WrittenInv(sb, s0, s, i, off, data, tot);
      var bn, o := (off + tot) / BSIZE, (off + tot) % BSIZE;
      var b := Bmap(i, bn);
      if b.None? { return None; }
      ghost var t := St();
      WrittenBmap(sb, s0, s, t, i, off, data, tot);
      var k := Min(|data| - tot, BSIZE - o);
      WrittenPut(sb, s0, t, i, off, data, tot, k);
      PutDataKeeps(sb, t, i, PosOf(bn), o, data[tot..tot + k]);
      var stored := blocks[b.value][..o] + data[tot..tot + k] + blocks[b.value][o + k..];
      LogsStore(s.blocks, blocks, b.value, stored, logged);
      blocks := blocks[b.value := stored];
      assert St() == PutData(t, b.value, o, data[tot..tot + k]);
      LoggedMore(sb, s, t, St(), i, IBlock(i), bn, b.value, logged, old(logged));
      logged := logged + {b.value};
      m := Some(k);
    }

    /** writei. -1 for an offset past the end, a length that wraps around or a file that
        would be too large, with no effect; otherwise all of data, in place of the bytes
        that were there, and the inode on disk as in memory. None is balloc's panic. */
    method Writei(i: nat, off: nat, data: seq<Byte>) returns (r: Option<int>)
      requires Inv(sb, St()) && NoHoles(St()) && i in inodes && off < UINT && |data| < UINT
      modifies this`blocks, this`inodes, this`dinodes, this`logged
      ensures r == Some(-1) <==> off > old(inodes)[i].size || off + |data| >= UINT || off + |data| > MAXFILE * BSIZE
      ensures r == Some(-1) ==> St() == old(St()) && logged == old(logged)
      ensures r.None? ==> DiskFull(sb, blocks)
      ensures r.Some? && r != Some(-1) ==>
                && r.value == |data| && WriteDone(sb, old(St()), St(), i, off, data)
                && LoggedFor(sb, old(St()), St(), i, IBlock(i), off / BSIZE, (off + |data| + BSIZE - 1) / BSIZE,
                      logged - old(logged))
      ensures Logs(old(blocks), blocks, logged) && (dinodes != old(dinodes) ==> IBlock(i) in logged)
      ensures r.Some? && r != Some(-1) ==> IBlock(i) in logged
    {
      hide Ptr, InvBut, HoleFree, ByteAt, Content, DiskFull, LoggedFor, Written, WriteDone, Logs;
      LogsNone(blocks, logged);
      ghost var s0 := St();
      if off > inodes[i].size || off + |data| >= UINT { return Some(-1); }
      if off + |data| > MAXFILE * BSIZE { return Some(-1); }
      SizeFits(s0, i);
      WrittenStart(sb, s0, i, off, data);
      LoggedNothing(sb, s0, s0, i, IBlock(i), off / BSIZE, logged - old(logged));
      var tot := 0;
      ghost var hi: nat := off / BSIZE;
      while tot < |data|
        invariant tot <= |data| && Written(sb, s0, St(), i, off, data, tot)
        invariant forall q: nat :: Ptr(s0, i, q) != 0 ==> Ptr(St(), i, q) == Ptr(s0, i, q)
        invariant dinodes == s0.dinodes && Logs(s0.blocks, blocks, logged)
        invariant LoggedFor(sb, s0, St(), i, IBlock(i), off / BSIZE, hi, logged - old(logged))
        invariant hi <= (off + |data| + BSIZE - 1) / BSIZE && (tot < |data| ==> hi <= (off + tot) / BSIZE)
      {
        ghost var s, l := St(), logged;
        var m := WriteChunk(i, off, data, tot, s0);
        LogsBoth(s0.blocks, s.blocks, blocks, l, logged);
        if m.None? { return None; }
        ChunkBlocks(off, tot, m.value, |data|);
        LoggedJoin(sb, s0, s, St(), i, IBlock(i), off / BSIZE, hi, (off + tot) / BSIZE, l - old(logged), logged - l,
              logged - old(logged));
        hi := (off + tot) / BSIZE + 1;
        tot := tot + m.value;
      }
      ghost var s := St();
      WrittenDone(sb, s0, s, i, off, data);
      WrittenInv(sb, s0, s, i, off, data, tot);
      if off + tot > inodes[i].size {
        inodes := inodes[i := inodes[i].(size := off + tot)];
      }
      dinodes := dinodes[i := inodes[i]];  // iupdate
      ghost var size := s0.inodes[i].size;
      assert St() == SetSize(s, i, if off + |data| > size then off + |data| else size);
      SetSizeKeeps(sb, s, i, if off + |data| > size then off + |data| else size);
      LoggedEnd(sb, s0, s, St(), i, IBlock(i), off / BSIZE, hi, (off + |data| + BSIZE - 1) / BSIZE, logged,
            old(logged));
      LogsMore(s0.blocks, blocks, logged, logged + {IBlock(i)});
      logged := logged + {IBlock(i)};
      r := Some(tot);
    }

    /** itrunc; false is the panic of a bfree, which does not happen. It logs the bitmap
        block of each block that it frees, and the inode's block. */
    method Itrunc(i: nat) returns (ok: bool)
      requires Inv(sb, St()) && i in inodes
      modifies this`blocks, this`inodes, this`dinodes, this`logged
      ensures ok && Truncated(sb, old(St()), St(), i)
      ensures logged == old(logged) + BitmapOf(sb, old(St()), i, 0, POSITIONS) + {IBlock(i)}
      ensures Logs(old(blocks), blocks, logged)
    {
      hide Ptr, InvBut, Used, DirectGone, EntriesGone, Truncated, MarkFree, BitmapOf, Logs;
      LogsNone(blocks, logged);
      ghost var s0, l0 := St(), logged;
      DirectGoneStart(sb, s0, i);
      BitmapNone(sb, s0, i, 0);
      ok := true;
      var p := 0;
      while p < NDIRECT
        invariant p <= NDIRECT && i in inodes && DirectGone(sb, s0, St(), i, p)
        invariant ok && logged == l0 + BitmapOf(sb, s0, i, 0, p) && Logs(s0.blocks, blocks, logged)
      {
        FreeNext(sb, s0, St(), i, p);
        BitmapNext(sb, s0, i, 0, p);
        var addr := inodes[i].addrs[p];
        if addr != 0 {
          ghost var s := St();
          ghost var l := logged;
          var done := Bfree(addr);
          LogsBoth(s0.blocks, s.blocks, blocks, l, logged);
          ok := ok && done;
          inodes := inodes[i := inodes[i].(addrs := inodes[i].addrs[p := 0])];
          assert St() == SetAddr(GiveBack(sb, s, addr), i, p, 0);
        }
        p := p + 1;
      }
      ghost var s1, l1 := St(), logged;
      FreeIndirectStart(sb, s0, s1, i);
      BitmapParts(sb, s0, i);
      ghost var s := s1;
      if inodes[i].addrs[INDIRECT] != 0 {
        var x := inodes[i].addrs[INDIRECT];
        var e := 0;
        BitmapNone(sb, s0, i, INDIRECT + 1);
        while e < NINDIRECT
          invariant e <= NINDIRECT && i in inodes && EntriesGone(sb, s1, St(), i, e)
          invariant ok && logged == l1 + BitmapOf(sb, s0, i, INDIRECT + 1, INDIRECT + 1 + e)
          invariant Logs(s0.blocks, blocks, logged)
        {
          FreeNextEntry(sb, s1, St(), i, e);
          BitmapNext(sb, s0, i, INDIRECT + 1, INDIRECT + 1 + e);
          var addr := Word(blocks[x], e);
          if addr != 0 {
            ghost var l, was := logged, blocks;
            var done := Bfree(addr);
            LogsBoth(s0.blocks, was, blocks, l, logged);
            ok := ok && done;
          }
          e := e + 1;
        }
        FreeLast(sb, s0, s1, St(), i);
        s := St();
        EntriesGoneFacts(sb, s1, s, i);
        ghost var l := logged;
        var done := Bfree(x);
        LogsBoth(s0.blocks, s.blocks, blocks, l, logged);
        ok := ok && done;
        inodes := inodes[i := inodes[i].(addrs := inodes[i].addrs[INDIRECT := 0])];
        s := SetAddr(GiveBack(sb, s, x), i, INDIRECT, 0);
        assert St() == s;
      }
      inodes := inodes[i := inodes[i].(size := 0)];
      dinodes := dinodes[i := inodes[i]];  // iupdate
      assert St() == SetSize(s, i, 0);
      LogsMore(s0.blocks, blocks, logged, logged + {IBlock(i)});
      logged := logged + {IBlock(i)};
    }

    /** filewrite and kfilewrite on an inode: chunks of at most three blocks, one
        transaction each. The result is n when all of data has been written at off, and
        -1 exactly if the file would be too large or off lies past its end; then the
        chunks that did fit have been written. `peak` is the largest number of distinct
        blocks logged in one transaction. */
    method FileWrite(i: nat, off: nat, data: seq<Byte>)
      returns (ret: Option<int>, newOff: nat, ghost peak: nat, ghost txs: seq<Tx>)
      requires Inv(sb, St()) && NoHoles(St()) && i in inodes && off < UINT && |data| < UINT
      modifies this`blocks, this`inodes, this`dinodes, this`logged
      ensures ret.None? ==> DiskFull(sb, blocks)
      ensures ret.Some? ==> off <= newOff <= off + |data| && Appended(sb, old(St()), St(), i, off, data[..newOff - off])
      ensures ret.Some? ==> ret.value == if newOff == off + |data| then |data| else -1
      ensures ret == Some(-1) <==>
                ret.Some? && data != [] && (off > old(inodes)[i].size || off + |data| > MAXFILE * BSIZE)
      ensures peak <= MAXOPBLOCKS
      ensures Sound(txs, IBlock(i)) && (ret.Some? ==> Lead(txs, old(St()), St()))
    {
      hide Inv, NoHoles, Appended, WriteDone, DiskFull, LoggedFor, Logs, Lead, Sound;
      ghost var s0 := St();
      AppendedStart(sb, s0, i, off);
      var max := (MAXOPBLOCKS - 1 - 1 - 2) / 2 * BSIZE;
      var k := 0;
      newOff := off;
      peak, txs := 0, [];
      NoTx(s0, IBlock(i));
      assert data[..0] == [];
      while k < |data|
        invariant k <= |data| && newOff == off + k && i in inodes
        invariant Appended(sb, s0, St(), i, off, data[..k])
        invariant k > 0 ==> off <= s0.inodes[i].size && newOff <= MAXFILE * BSIZE
        invariant peak <= MAXOPBLOCKS && Sound(txs, IBlock(i)) && Lead(txs, s0, St())
      {
        AppendedFacts(sb, s0, St(), i, off, data[..k]);
        var n1 := |data| - k;
        if n1 > max {
          n1 := max;
        }
        logged := {};  // begin_op
        ghost var s := St();
        var r := Writei(i, newOff, data[k..k + n1]);
        if r.None? {
          ret := None;
          return;
        }
        if r.value != n1 {
          break;
        }
        assert logged - {} == logged;
        ChunkFits(sb, s, St(), i, IBlock(i), newOff, n1, logged);
        OneMoreTx(txs, s0, s, St(), logged, IBlock(i));
        txs := txs + [Tx(s, logged, St())];
        if |logged| > peak {
          peak := |logged|;
        }
        assert data[..k] + data[k..k + n1] == data[..k + n1];
        AppendedMore(sb, s0, s, St(), i, off, data[..k], data[k..k + n1]);
        AppendedFacts(sb, s0, St(), i, off, data[..k + n1]);
        newOff := newOff + n1;
        k := k + n1;
      }
      ret := Some(if k == |data| then |data| else -1);
    }
  }

  // ---- What is logged --------------------------------------------------------------------------------

  lemma LogsNone(a: seq<Block>, l: set<nat>)
    ensures Logs(a, a, l)
  {
  }

  lemma LogsMore(a: seq<Block>, b: seq<Block>, l: set<nat>, m: set<nat>)
    requires Logs(a, b, l) && l <= m
    ensures Logs(a, b, m)
  {
  }

  lemma LogsBoth(a: seq<Block>, b: seq<Block>, c: seq<Block>, l: set<nat>, m: set<nat>)
    requires Logs(a, b, l) && Logs(b, c, m) && l <= m
    ensures Logs(a, c, m)
  {
  }

  lemma LogsStore(a: seq<Block>, b: seq<Block>, x: nat, data: Block, l: set<nat>)
    requires Logs(a, b, l) && x < |b|
    ensures Logs(a, b[x := data], l + {x})
  {
  }

  lemma {:induction false} LogsTake(sb: Super, s: Fs, b: nat, l: set<nat>)
    requires b < |s.blocks| && BBlock(sb, b) < |s.blocks| && b in l && BBlock(sb, b) in l
    ensures Logs(s.blocks, Take(sb, s, b).blocks, l)
  {
    hide OrBit, Zeros;
  }

  lemma NoTx(s: Fs, iblock: nat)
    ensures Lead([], s, s) && Sound([], iblock)
  {
  }

  lemma {:induction false} OneMoreTx(txs: seq<Tx>, s: Fs, t: Fs, u: Fs, l: set<nat>, iblock: nat)
    requires Lead(txs, s, t) && Sound(txs, iblock)
    requires Logs(t.blocks, u.blocks, l) && iblock in l && |l| <= MAXOPBLOCKS
    ensures Lead(txs + [Tx(t, l, u)], s, u) && Sound(txs + [Tx(t, l, u)], iblock)
    decreases |txs|
  {
    hide Logs;
    var x := Tx(t, l, u);
    if txs == [] {
      assert [x][1..] == [] && txs + [x] == [x];
    } else {
      OneMoreTx(txs[1..], txs[0].after, t, u, l, iblock);
      assert (txs + [x])[1..] == txs[1..] + [x];
    }
  }

  // ---- Truncating, on values -----------------------------------------------------------------------

  /** The bitmap blocks of what inode i has at positions lo..hi. */
  ghost function BitmapOf(sb: Super, s: Fs, i: nat, lo: nat, hi: nat): set<nat> {
    set q: nat | lo <= q < hi && Ptr(s, i, q) != 0 :: BBlock(sb, Ptr(s, i, q))
  }

  lemma BitmapNone(sb: Super, s: Fs, i: nat, lo: nat)
    ensures BitmapOf(sb, s, i, lo, lo) == {}
  {
  }

  lemma {:induction false} BitmapNext(sb: Super, s: Fs, i: nat, lo: nat, hi: nat)
    requires lo <= hi
    ensures var b := Ptr(s, i, hi);
            BitmapOf(sb, s, i, lo, hi + 1) == BitmapOf(sb, s, i, lo, hi) + if b != 0 then {BBlock(sb, b)} else {}
  {
    hide Ptr, BBlock;
  }

  lemma {:induction false} BitmapParts(sb: Super, s: Fs, i: nat)
    ensures BitmapOf(sb, s, i, 0, POSITIONS)
            == BitmapOf(sb, s, i, 0, NDIRECT) + BitmapOf(sb, s, i, INDIRECT + 1, POSITIONS)
               + if Ptr(s, i, INDIRECT) != 0 then {BBlock(sb, Ptr(s, i, INDIRECT))} else {}
    ensures (forall q: nat :: q > INDIRECT ==> Ptr(s, i, q) == 0) ==> BitmapOf(sb, s, i, INDIRECT + 1, POSITIONS) == {}
  {
    hide Ptr, BBlock;
  }

  /** The first p direct blocks of i are gone; everything else is as in s0. */
  ghost predicate DirectGone(sb: Super, s0: Fs, s: Fs, i: nat, p: nat) {
    && Inv(sb, s) && s.inodes.Keys == s0.inodes.Keys && i in s.inodes && s.dinodes == s0.dinodes
    && |s0.blocks| == |s.blocks|
    && (forall j :: j in s0.inodes && j != i ==> s.inodes[j] == s0.inodes[j])
    && (forall j: nat, q: nat :: Ptr(s, j, q) == if j == i && q < p then 0 else Ptr(s0, j, q))
    && (forall x: nat :: sb.data <= x < sb.size && x < |s0.blocks| ==> s.blocks[x] == s0.blocks[x])
  }

  lemma DirectGoneStart(sb: Super, s: Fs, i: nat)
    requires Inv(sb, s) && i in s.inodes
    ensures DirectGone(sb, s, s, i, 0)
  {
  }

  lemma {:induction false} FreeNext(sb: Super, s0: Fs, s: Fs, i: nat, p: nat)
    requires DirectGone(sb, s0, s, i, p) && p < NDIRECT
    ensures i in s.inodes && |s.inodes[i].addrs| == NDIRECT + 1 && s.inodes[i].addrs[p] == Ptr(s, i, p) == Ptr(s0, i, p)
    ensures Ptr(s, i, p) == 0 ==> DirectGone(sb, s0, s, i, p + 1)
    ensures Ptr(s, i, p) != 0 ==>
              && BBlock(sb, Ptr(s, i, p)) < |s.blocks| && Used(sb, s.blocks, Ptr(s, i, p))
              && DirectGone(sb, s0, SetAddr(GiveBack(sb, s, Ptr(s, i, p)), i, p, 0), i, p + 1)
  {
    hide Ptr, Used, MarkFree;
    InvParts(sb, s);
    DirectPtr(s, i, p);
    var b := Ptr(s, i, p);
    if b != 0 {
      FreeDirect(sb, s, i, p);
      GiveBackFrame(sb, s, b);
      var u := GiveBack(sb, s, b);
      GiveBackShape(sb, s, b);
      ClearDirect(sb, u, i, p);
      var t := SetAddr(u, i, p, 0);
      forall j: nat, q: nat ensures Ptr(t, j, q) == if j == i && q < p + 1 then 0 else Ptr(s0, j, q) {
        assert Ptr(u, j, q) == Ptr(s, j, q);
      }
    }
  }

  /** bfree has been called for the first e entries of the indirect block of i. */
  ghost predicate EntriesGone(sb: Super, s1: Fs, s: Fs, i: nat, e: nat) {
    && i in s.inodes && s.inodes == s1.inodes && s.dinodes == s1.dinodes && |s.blocks| == |s1.blocks| == sb.size
    && Inv(sb, s1) && |s.inodes[i].addrs| == NDIRECT + 1
    && InvBut(sb, SetAddr(s, i, INDIRECT, 0), EntriesFrom(s1, i, e))
    && (forall x: nat :: sb.data <= x < sb.size ==> s.blocks[x] == s1.blocks[x])
  }

  lemma EntriesGoneFacts(sb: Super, s1: Fs, s: Fs, i: nat)
    requires EntriesGone(sb, s1, s, i, NINDIRECT)
    ensures s.inodes == s1.inodes && i in s.inodes && |s.inodes[i].addrs| == NDIRECT + 1
  {
  }

  lemma {:induction false} FreeIndirectStart(sb: Super, s0: Fs, s1: Fs, i: nat)
    requires DirectGone(sb, s0, s1, i, NDIRECT)
    ensures i in s1.inodes && |s1.inodes[i].addrs| == NDIRECT + 1
    ensures s1.inodes[i].addrs[INDIRECT] == Ptr(s0, i, INDIRECT)
    ensures forall q: nat :: q >= INDIRECT ==> Ptr(s1, i, q) == Ptr(s0, i, q)
    ensures s1.inodes[i].addrs[INDIRECT] == 0 ==> forall q: nat :: q > INDIRECT ==> Ptr(s0, i, q) == 0
    ensures s1.inodes[i].addrs[INDIRECT] != 0 ==> EntriesGone(sb, s1, s1, i, 0)
    ensures s1.inodes[i].addrs[INDIRECT] == 0 ==> Truncated(sb, s0, SetSize(s1, i, 0), i)
  {
    hide Used, MarkFree, Word;
    InvParts(sb, s1);
    if s1.inodes[i].addrs[INDIRECT] != 0 {
      ClearIndirect(sb, s1, i);
      UnlinkInv(sb, s1, SetAddr(s1, i, INDIRECT, 0), i, {}, EntriesFrom(s1, i, 0));
      assert {} + EntriesFrom(s1, i, 0) == EntriesFrom(s1, i, 0);
    } else {
      SetSizeKeeps(sb, s1, i, 0);
      AllGone(sb, s0, s1, i);
    }
  }

  lemma {:induction false} AllGone(sb: Super, s0: Fs, s1: Fs, i: nat)
    requires DirectGone(sb, s0, s1, i, NDIRECT) && Ptr(s1, i, INDIRECT) == 0
    requires Inv(sb, SetSize(s1, i, 0)) && SamePtrs(s1, SetSize(s1, i, 0))
    ensures Truncated(sb, s0, SetSize(s1, i, 0), i)
  {
    hide Used, MarkFree, Word, InvBut;
    InvParts(sb, s1);
    var t := SetSize(s1, i, 0);
    forall q: nat ensures Ptr(t, i, q) == 0 {
      assert Ptr(t, i, q) == Ptr(s1, i, q);
    }
    forall j: nat, q: nat | j != i ensures Ptr(t, j, q) == Ptr(s0, j, q) {
      assert Ptr(t, j, q) == Ptr(s1, j, q);
    }
  }

  lemma {:induction false} FreeNextEntry(sb: Super, s1: Fs, s: Fs, i: nat, e: nat)
    requires EntriesGone(sb, s1, s, i, e) && e < NINDIRECT && s1.inodes[i].addrs[INDIRECT] != 0
    ensures var x := s1.inodes[i].addrs[INDIRECT];
            && x < |s.blocks|
            && var b := Word(s.blocks[x], e);
               && b == Ptr(s1, i, INDIRECT + 1 + e)
               && (b == 0 ==> EntriesGone(sb, s1, s, i, e + 1))
               && (b != 0 ==>
                     && BBlock(sb, b) < |s.blocks| && Used(sb, s.blocks, b)
                     && EntriesGone(sb, s1, GiveBack(sb, s, b), i, e + 1))
  {
    hide Used, MarkFree, Word;
    InvParts(sb, s1);
    var x := Ptr(s1, i, INDIRECT);
    assert sb.data <= x < sb.size;
    var b := Word(s.blocks[x], e);
    assert b == Ptr(s1, i, INDIRECT + 1 + e);
    var u := SetAddr(s, i, INDIRECT, 0);
    if b == 0 {
      SkipEntry(s1, i, e);
    } else {
      FreeEntry(sb, s1, u, i, e);
      assert SetAddr(GiveBack(sb, s, b), i, INDIRECT, 0) == GiveBack(sb, u, b);
      EntryBlocks(sb, s, s1, i, b);
    }
  }

  lemma {:induction false} EntryBlocks(sb: Super, s: Fs, s1: Fs, i: nat, b: nat)
    requires |s.blocks| == |s1.blocks| == sb.size && Geometry(sb) && b < sb.size && BBlock(sb, b) < |s.blocks|
    requires forall x: nat :: sb.data <= x < sb.size ==> s.blocks[x] == s1.blocks[x]
    ensures forall x: nat :: sb.data <= x < sb.size ==> GiveBack(sb, s, b).blocks[x] == s1.blocks[x]
    ensures |GiveBack(sb, s, b).blocks| == sb.size
  {
    hide ClearBit, Bit;
    BitmapInMeta(sb, b);
  }

  lemma {:induction false} FreeLast(sb: Super, s0: Fs, s1: Fs, s: Fs, i: nat)
    requires DirectGone(sb, s0, s1, i, NDIRECT) && EntriesGone(sb, s1, s, i, NINDIRECT)
             && s1.inodes[i].addrs[INDIRECT] != 0
    ensures var x := s1.inodes[i].addrs[INDIRECT];
            && BBlock(sb, x) < |s.blocks| && Used(sb, s.blocks, x)
            && Truncated(sb, s0, SetSize(SetAddr(GiveBack(sb, s, x), i, INDIRECT, 0), i, 0), i)
  {
    hide Used, MarkFree, Word;
    InvParts(sb, s1);
    var x := Ptr(s1, i, INDIRECT);
    var u := SetAddr(s, i, INDIRECT, 0);
    LastEntries(s1, i);
    GiveBackInv(sb, u, x, {x});
    assert {x} - {x} == {};
    var t := SetAddr(GiveBack(sb, s, x), i, INDIRECT, 0);
    assert t == GiveBack(sb, u, x);
    SetSizeKeeps(sb, t, i, 0);
    EntryBlocks(sb, s, s1, i, x);
    LastPtrs(sb, s0, s1, t, i);
    AfterLast(sb, s0, s1, t, i);
  }

  lemma {:induction false} LastPtrs(sb: Super, s0: Fs, s1: Fs, t: Fs, i: nat)
    requires DirectGone(sb, s0, s1, i, NDIRECT) && Shape(sb, s1) && |t.blocks| == sb.size && PtrsInRange(sb, s1)
    requires i in s1.inodes && t.inodes == SetAddr(s1, i, INDIRECT, 0).inodes
    requires forall x: nat :: sb.data <= x < sb.size ==> t.blocks[x] == s1.blocks[x]
    ensures forall j: nat, q: nat :: Ptr(t, j, q) == if j == i then 0 else Ptr(s0, j, q)
  {
    hide Word, Used, InvBut;
    ClearIndirect(sb, s1, i);
    var u := SetAddr(s1, i, INDIRECT, 0);
    forall j: nat, q: nat ensures Ptr(t, j, q) == if j == i then 0 else Ptr(s0, j, q) {
      assert Ptr(u, j, INDIRECT) != 0 ==> Ptr(s1, j, INDIRECT) == Ptr(u, j, INDIRECT);
      assert Ptr(t, j, q) == Ptr(u, j, q);
      assert Ptr(s1, j, q) == if j == i && q < NDIRECT then 0 else Ptr(s0, j, q);
    }
  }

  lemma {:induction false} AfterLast(sb: Super, s0: Fs, s1: Fs, t: Fs, i: nat)
    requires DirectGone(sb, s0, s1, i, NDIRECT) && i in t.inodes && t.dinodes == s1.dinodes && |t.blocks| == sb.size
    requires |s1.inodes[i].addrs| == NDIRECT + 1 && t.inodes == SetAddr(s1, i, INDIRECT, 0).inodes
    requires Inv(sb, SetSize(t, i, 0)) && SamePtrs(t, SetSize(t, i, 0))
    requires forall j: nat, q: nat :: Ptr(t, j, q) == if j == i then 0 else Ptr(s0, j, q)
    requires forall x: nat :: sb.data <= x < sb.size ==> t.blocks[x] == s1.blocks[x]
    ensures Truncated(sb, s0, SetSize(t, i, 0), i)
  {
    hide Word, Used, InvBut, Ptr;
    var w := SetSize(t, i, 0);
    forall j: nat, q: nat ensures Ptr(w, j, q) == if j == i then 0 else Ptr(s0, j, q) {
      assert Ptr(w, j, q) == Ptr(t, j, q);
    }
  }

  // ---- Chunked writes, on values -----------------------------------------------------------------------

  /** data has been written to file i at off; if data is empty nothing has. */
  ghost predicate Appended(sb: Super, s0: Fs, s: Fs, i: nat, off: nat, data: seq<Byte>) {
    && Inv(sb, s) && NoHoles(s) && s.inodes.Keys == s0.inodes.Keys && i in s0.inodes
    && (data == [] ==> s == s0)
    && (data != [] ==> off <= s0.inodes[i].size && Content(s, i) == Splice(Content(s0, i), off, data))
    && (forall j :: j in s0.inodes && j != i ==> Content(s, j) == Content(s0, j))
  }

  lemma {:induction false} AppendedStart(sb: Super, s: Fs, i: nat, off: nat)
    requires Inv(sb, s) && NoHoles(s) && i in s.inodes
    ensures Appended(sb, s, s, i, off, [])
  {
  }

  lemma {:induction false} AppendedFacts(sb: Super, s0: Fs, s: Fs, i: nat, off: nat, data: seq<Byte>)
    requires Appended(sb, s0, s, i, off, data)
    ensures Inv(sb, s) && NoHoles(s) && i in s.inodes
    ensures data == [] ==> s.inodes[i].size == s0.inodes[i].size
    ensures data != [] ==> off + |data| <= s.inodes[i].size
  {
    hide InvBut, HoleFree;
    assert |Content(s, i)| == s.inodes[i].size;
  }

  lemma {:induction false} AppendedMore(sb: Super, s0: Fs, s: Fs, t: Fs, i: nat, off: nat, a: seq<Byte>, b: seq<Byte>)
    requires Appended(sb, s0, s, i, off, a) && WriteDone(sb, s, t, i, off + |a|, b) && b != []
    ensures Appended(sb, s0, t, i, off, a + b)
  {
    hide InvBut, HoleFree, ByteAt;
    if a == [] {
      assert a + b == b;
    } else {
      SpliceTwice(Content(s0, i), off, a, b);
    }
  }

  lemma {:induction false} SpliceTwice(c: seq<Byte>, off: nat, a: seq<Byte>, b: seq<Byte>)
    requires off <= |c|
    ensures Splice(Splice(c, off, a), off + |a|, b) == Splice(c, off, a + b)
  {
  }

  /** A chunk of at most three blocks fits in one transaction. If it starts on a block
      boundary it touches three blocks, else four of which the first exists already; so
      it allocates at most three and the indirect block, each with a bitmap block. */
  lemma {:induction false} ChunkFits(sb: Super, s0: Fs, s: Fs, i: nat, iblock: nat, off: nat, n: nat, l: set<nat>)
    requires NoHoles(s0) && i in s0.inodes && off <= s0.inodes[i].size && n <= 3 * BSIZE
    requires LoggedFor(sb, s0, s, i, iblock, off / BSIZE, (off + n + BSIZE - 1) / BSIZE, l)
    ensures |l| <= MAXOPBLOCKS
  {
    hide Ptr, HoleFree, Touched;
    var lo, hi := off / BSIZE, (off + n + BSIZE - 1) / BSIZE;
    var data, ind := TouchedIn(sb, s0, s, i, lo, hi), Touched(sb, s0, s, i, INDIRECT);
    if off % BSIZE != 0 {
      BlockOfByte(s0, i, off - 1);
      assert (off - 1) / BSIZE == lo && hi - lo <= 4;
    }
    assert |data| <= 7;
    TouchedSize(sb, s0, s, i, INDIRECT);
    UnionSize(data, ind);
    UnionSize(data + ind, {iblock});
    SubsetSize(l, data + ind + {iblock});
  }

  lemma TouchedSize(sb: Super, s0: Fs, s: Fs, i: nat, q: nat)
    ensures |Touched(sb, s0, s, i, q)| <= 2
    ensures Ptr(s0, i, q) != 0 ==> |Touched(sb, s0, s, i, q)| <= 1
  {
  }

  /** Two blocks each, but one for the first if it was there before. */
  ghost function TouchedIn(sb: Super, s0: Fs, s: Fs, i: nat, lo: nat, hi: nat): (r: set<nat>)
    requires lo <= hi
    ensures |r| <= 2 * (hi - lo)
    ensures lo < hi && Ptr(s0, i, PosOf(lo)) != 0 ==> |r| < 2 * (hi - lo)
    ensures forall bn: nat :: lo <= bn < hi ==> Touched(sb, s0, s, i, PosOf(bn)) <= r
    decreases hi - lo
  {
    if lo == hi then {}
    else
      TouchedSize(sb, s0, s, i, PosOf(lo));
      UnionSize(Touched(sb, s0, s, i, PosOf(lo)), TouchedIn(sb, s0, s, i, lo + 1, hi));
      Touched(sb, s0, s, i, PosOf(lo)) + TouchedIn(sb, s0, s, i, lo + 1, hi)
  }

  lemma {:induction false} UnionSize(a: set<nat>, b: set<nat>)
    ensures |a + b| <= |a| + |b|
  {
    assert a + b == a + (b - a);
    SubsetSize(b - a, b);
  }

  lemma {:induction false} SubsetSize(a: set<nat>, b: set<nat>)
    requires a <= b
    ensures |a| <= |b|
  {
    if a != {} {
      var x :| x in a;
      SubsetSize(a - {x}, b - {x});
    }
  }

  // ---- Reading and writing, on values ------------------------------------------------------------

  /** m bytes of a block are m bytes of the file. */
  lemma {:induction false} BlockHolds(sb: Super, s: Fs, i: nat, off: nat, m: nat)
    requires Inv(sb, s) && HoleFree(s, i) && off + m <= s.inodes[i].size && off < s.inodes[i].size
             && off % BSIZE + m <= BSIZE
    ensures Ptr(s, i, PosOf(off / BSIZE)) < |s.blocks|
    ensures s.blocks[Ptr(s, i, PosOf(off / BSIZE))][off % BSIZE..off % BSIZE + m] == Content(s, i)[off..off + m]
  {
    hide Ptr;
    BlockOfByte(s, i, off);
    var b, o := Ptr(s, i, PosOf(off / BSIZE)), off % BSIZE;
    assert b < |s.blocks|;
    var c := Content(s, i);
    forall k: nat | off <= k < off + m ensures s.blocks[b][k - off + o] == c[k] {
      assert k / BSIZE == off / BSIZE && k % BSIZE == k - off + o;
    }
  }

  lemma {:induction false} WrittenInv(sb: Super, s0: Fs, s: Fs, i: nat, off: nat, data: seq<Byte>, tot: nat)
    requires Written(sb, s0, s, i, off, data, tot)
    ensures Inv(sb, s) && i in s.inodes && s.inodes[i].size == s0.inodes[i].size && s.dinodes == s0.dinodes
  {
  }

  lemma SizeFits(s: Fs, i: nat)
    requires NoHoles(s) && i in s.inodes
    ensures s.inodes[i].size <= MAXFILE * BSIZE
  {
    assert HoleFree(s, i);
  }

  lemma {:induction false} ChunkBlocks(off: nat, tot: nat, m: nat, n: nat)
    requires tot < n && m == Min(n - tot, BSIZE - (off + tot) % BSIZE)
    ensures 0 < m <= n - tot
    ensures (off + tot) / BSIZE + 1 <= (off + n + BSIZE - 1) / BSIZE
    ensures tot + m < n ==> (off + tot) / BSIZE + 1 <= (off + tot + m) / BSIZE
    ensures off / BSIZE <= (off + tot) / BSIZE
  {
  }

  lemma LoggedNothing(sb: Super, s0: Fs, s: Fs, i: nat, iblock: nat, lo: nat, more: set<nat>)
    requires more == {}
    ensures LoggedFor(sb, s0, s, i, iblock, lo, lo, more)
  {
  }

  lemma {:induction false} LoggedMore(sb: Super, s0: Fs, s: Fs, t: Fs, i: nat, iblock: nat, bn: nat, b: nat,
                                      l: set<nat>, l0: set<nat>)
    requires LoggedFor(sb, s0, s, i, iblock, bn, bn + 1, l - l0) && SamePtrs(s, t)
    requires b != 0 && b == Ptr(t, i, PosOf(bn))
    ensures LoggedFor(sb, s0, t, i, iblock, bn, bn + 1, l + {b} - l0)
  {
    hide Ptr;
    forall q: nat ensures Touched(sb, s0, t, i, q) == Touched(sb, s0, s, i, q) {
      assert Ptr(t, i, q) == Ptr(s, i, q);
    }
    assert b in Touched(sb, s0, t, i, PosOf(bn));
  }

  lemma {:induction false} TouchedMore(sb: Super, s0: Fs, s: Fs, t: Fs, i: nat, q: nat)
    requires Ptr(s0, i, q) != 0 ==> Ptr(s, i, q) == Ptr(s0, i, q)
    requires Ptr(s, i, q) != 0 ==> Ptr(t, i, q) == Ptr(s, i, q)
    ensures Touched(sb, s0, s, i, q) <= Touched(sb, s0, t, i, q)
    ensures Touched(sb, s, t, i, q) <= Touched(sb, s0, t, i, q)
  {
    hide Ptr;
  }

  /** b has been linked at position q of u, which is empty in t. */
  lemma {:induction false} TouchedNew(sb: Super, s: Fs, t: Fs, u: Fs, i: nat, q: nat, b: nat)
    requires Extends(s, t, i) && Ptr(t, i, q) == 0 && Ptr(u, i, q) == b != 0
    ensures Touched(sb, s, u, i, q) == {b, BBlock(sb, b)}
  {
    hide Ptr;
  }

  lemma LoggedThrough(sb: Super, s0: Fs, s: Fs, i: nat, iblock: nat, bn: nat, l0: set<nat>, l1: set<nat>, l: set<nat>)
    requires l1 - l0 <= Touched(sb, s0, s, i, INDIRECT)
    requires l - l1 <= Touched(sb, s0, s, i, INDIRECT) + Touched(sb, s0, s, i, PosOf(bn))
    ensures LoggedFor(sb, s0, s, i, iblock, bn, bn + 1, l - l0)
  {
    hide Ptr, Touched;
    forall x | x in l - l0 && x !in Touched(sb, s0, s, i, INDIRECT)
      ensures x in Touched(sb, s0, s, i, PosOf(bn))
    {
      assert x in l - l1 || x in l1 - l0;
    }
  }

  lemma {:induction false} LoggedJoin(sb: Super, s0: Fs, s: Fs, t: Fs, i: nat, iblock: nat, lo: nat, hi: nat, bn: nat,
                                      more: set<nat>, now: set<nat>, all: set<nat>)
    requires LoggedFor(sb, s0, s, i, iblock, lo, hi, more) && LoggedFor(sb, s, t, i, iblock, bn, bn + 1, now)
    requires forall q: nat :: Ptr(s0, i, q) != 0 ==> Ptr(s, i, q) == Ptr(s0, i, q)
    requires forall q: nat :: Ptr(s, i, q) != 0 ==> Ptr(t, i, q) == Ptr(s, i, q)
    requires all <= more + now && hi <= bn && lo <= bn
    ensures LoggedFor(sb, s0, t, i, iblock, lo, bn + 1, all)
  {
    hide Ptr, Touched;
    forall q: nat
      ensures Touched(sb, s0, s, i, q) <= Touched(sb, s0, t, i, q)
      ensures Touched(sb, s, t, i, q) <= Touched(sb, s0, t, i, q)
    {
      TouchedMore(sb, s0, s, t, i, q);
    }
  }

  lemma {:induction false} LoggedEnd(sb: Super, s0: Fs, s: Fs, t: Fs, i: nat, iblock: nat, lo: nat, hi: nat, end: nat,
                                     l: set<nat>, l0: set<nat>)
    requires LoggedFor(sb, s0, s, i, iblock, lo, hi, l - l0) && SamePtrs(s, t) && hi <= end
    ensures LoggedFor(sb, s0, t, i, iblock, lo, end, l + {iblock} - l0)
  {
    hide Ptr;
    forall q: nat ensures Touched(sb, s0, t, i, q) == Touched(sb, s0, s, i, q) {
      assert Ptr(t, i, q) == Ptr(s, i, q);
    }
  }

  // ---- Arithmetic of the bitmap ----------------------------------------------------------------

  lemma {:induction false} SameBlockBits(sb: Super, b: nat, bi: nat)
    requires b % BPB == 0 && bi < BPB
    ensures BBlock(sb, b + bi) == BBlock(sb, b) && (b + bi) % BPB == bi && (b + bi) % 8 == bi % 8
  {
    var q := b / BPB;
    assert b == BPB * q;
    assert b + bi == 8 * (1024 * q + bi / 8) + bi % 8;
  }

  lemma {:induction false} FreeBits(b: nat)
    ensures b % BPB % 8 == b % 8
  {
    var q, r := b / BPB, b % BPB;
    assert b == 8 * (1024 * q + r / 8) + r % 8;
  }

  lemma UsedIsBit(sb: Super, blocks: seq<Block>, b: nat)
    requires BBlock(sb, b) < |blocks|
    ensures Used(sb, blocks, b) <==> Bit(blocks[BBlock(sb, b)][b % BPB / 8], b % 8)
  {
  }

  lemma {:induction false} ByteStays(x: Byte, k: nat)
    requires k < 8
    ensures OrBit(x, k) < 256 && ClearBit(x, k) < 256
  {
    hide Bit, OrBit, ClearBit;
    Pow2Of8();
    BitBound(x, k, 8);
  }

  // ---- Pointers of the in-memory inode -----------------------------------------------------------

  lemma DirectPtr(s: Fs, i: nat, p: nat)
    requires i in s.inodes && |s.inodes[i].addrs| == NDIRECT + 1 && p <= INDIRECT
    ensures s.inodes[i].addrs[p] == Ptr(s, i, p)
  {
  }

  lemma NoIndirectNoEntry(s: Fs, i: nat, q: nat)
    requires i in s.inodes && |s.inodes[i].addrs| == NDIRECT + 1 && s.inodes[i].addrs[INDIRECT] == 0 && q > INDIRECT
    ensures Ptr(s, i, q) == 0
  {
  }

  lemma ExtendsSelf(s: Fs, i: nat)
    ensures Extends(s, s, i)
  {
  }

  lemma ExtendsIndirect(s: Fs, t: Fs, i: nat)
    requires Extends(s, t, i) && Ptr(s, i, INDIRECT) != 0
    ensures Ptr(t, i, INDIRECT) == Ptr(s, i, INDIRECT)
  {
  }

  lemma BlockNumbersFit(sb: Super, s: Fs, b: nat)
    requires Shape(sb, s) && b < sb.size
    ensures b < UINT
  {
  }
}
