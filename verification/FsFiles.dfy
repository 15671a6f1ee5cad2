/** What a file contains, and how mapping, writing and truncating change it. */
module FsFiles {
  import opened Basics
  import opened FsSpec

  // ---- Contents -------------------------------------------------------------------------

  /** Byte k of inode i, wherever its block is. */
  ghost function ByteAt(s: Fs, i: nat, k: nat): Byte {
    var b := Ptr(s, i, PosOf(k / BSIZE));
    if b < |s.blocks| then s.blocks[b][k % BSIZE] else 0
  }

  ghost function Content(s: Fs, i: nat): seq<Byte>
    requires i in s.inodes
  {
    seq(s.inodes[i].size, k requires k >= 0 => ByteAt(s, i, k))
  }

  /** Every block up to the size is there. */
  ghost predicate HoleFree(s: Fs, i: nat) {
    && i in s.inodes && s.inodes[i].size <= MAXFILE * BSIZE
    && forall bn: nat :: bn * BSIZE < s.inodes[i].size ==> Ptr(s, i, PosOf(bn)) != 0
  }

  ghost predicate NoHoles(s: Fs) {
    forall i :: i in s.inodes ==> HoleFree(s, i)
  }

  // ---- Linking a loose block ------------------------------------------------------------

  /** Position (i, p) of t, empty in s, holds b; every other pointer is as in s. */
  ghost predicate LinkedAt(s: Fs, t: Fs, i: nat, p: nat, b: nat) {
    && Ptr(s, i, p) == 0 && Ptr(t, i, p) == b
    && forall j: nat, q: nat :: !(j == i && q == p) ==> Ptr(t, j, q) == Ptr(s, j, q)
  }

  lemma {:induction false} LinkInv(sb: Super, s: Fs, t: Fs, i: nat, p: nat, b: nat, loose: set<nat>)
    requires InvBut(sb, s, loose) && b in loose && LinkedAt(s, t, i, p, b) && Shape(sb, t)
    requires forall x :: 0 <= x < sb.data ==> t.blocks[x] == s.blocks[x]
    ensures InvBut(sb, t, loose - {b})
  {
    hide Ptr, Used;
    forall c: nat | c < sb.size
      ensures BBlock(sb, c) < |t.blocks| && (Used(sb, t.blocks, c) <==> c < sb.data || Owned(t, c) || c in loose - {b})
    {
      UsedFrame(sb, s.blocks, t.blocks, c);
      if c >= sb.data {
        LinkOwned(s, t, i, p, b, c);
      }
    }
    forall j: nat, q: nat, k: nat, r: nat | Ptr(t, j, q) != 0 && Ptr(t, j, q) == Ptr(t, k, r) ensures j == k && q == r {
      assert forall x: nat, y: nat :: Ptr(s, x, y) == b ==> Owned(s, b);
    }
    forall c | c in loose - {b} ensures !Owned(t, c) {
      LinkOwned(s, t, i, p, b, c);
    }
  }

  lemma {:induction false} LinkOwned(s: Fs, t: Fs, i: nat, p: nat, b: nat, c: nat)
    requires LinkedAt(s, t, i, p, b) && c != 0
    ensures Owned(t, c) <==> c == b || Owned(s, c)
  {
    hide Ptr;
    if Owned(t, c) {
      var j: nat, q: nat :| Ptr(t, j, q) == c;
      assert !(j == i && q == p) ==> Ptr(s, j, q) == c;
    }
    if Owned(s, c) {
      var j: nat, q: nat :| Ptr(s, j, q) == c;
      assert Ptr(t, j, q) == c;
    }
    assert Ptr(t, i, p) == b;
  }

  // ---- bmap's stores ------------------------------------------------------------------------

  function SetAddr(s: Fs, i: nat, p: nat, b: nat): Fs
    requires i in s.inodes && p < |s.inodes[i].addrs|
  {
    s.(inodes := s.inodes[i := s.inodes[i].(addrs := s.inodes[i].addrs[p := b])])
  }

  /** ip->addrs[p] = b: a direct block, or a zeroed indirect block. */
  lemma {:induction false} SetAddrLinks(sb: Super, s: Fs, i: nat, p: nat, b: nat)
    requires Shape(sb, s) && i in s.inodes && p <= INDIRECT && Ptr(s, i, p) == 0
    requires 0 < b < sb.size && s.blocks[b] == Zeros()
    ensures LinkedAt(s, SetAddr(s, i, p, b), i, p, b) && Shape(sb, SetAddr(s, i, p, b))
  {
    hide Word, Zeros;
    var t := SetAddr(s, i, p, b);
    forall j: nat, q: nat | !(j == i && q == p) ensures Ptr(t, j, q) == Ptr(s, j, q) {
      if p == INDIRECT && j == i && INDIRECT < q < POSITIONS {
        ZeroWords(q - INDIRECT - 1);
      }
    }
  }

  function SetEntry(s: Fs, i: nat, e: nat, b: nat): Fs
    requires i in s.inodes && |s.inodes[i].addrs| == NDIRECT + 1 && s.inodes[i].addrs[INDIRECT] < |s.blocks|
    requires e < NINDIRECT && b < UINT
  {
    var x := s.inodes[i].addrs[INDIRECT];
    s.(blocks := s.blocks[x := SetWord(s.blocks[x], e, b)])
  }

  /** a[e] = b in the indirect block of i, which no other inode shares. */
  lemma {:induction false} SetEntryLinks(sb: Super, s: Fs, i: nat, e: nat, b: nat)
    requires Shape(sb, s) && PtrsInRange(sb, s) && OneOwner(s) && i in s.inodes && e < NINDIRECT && b < UINT
    requires Ptr(s, i, INDIRECT) != 0 && Ptr(s, i, INDIRECT + 1 + e) == 0
    ensures Ptr(s, i, INDIRECT) < sb.size
    ensures LinkedAt(s, SetEntry(s, i, e, b), i, INDIRECT + 1 + e, b) && Shape(sb, SetEntry(s, i, e, b))
  {
    hide Word, SetWord;
    var x := Ptr(s, i, INDIRECT);
    var t := SetEntry(s, i, e, b);
    SetWordWords(s.blocks[x], e, b, e);
    forall j: nat, q: nat | !(j == i && q == INDIRECT + 1 + e) ensures Ptr(t, j, q) == Ptr(s, j, q) {
      if INDIRECT < q < POSITIONS {
        if j == i {
          SetWordWords(s.blocks[x], e, b, q - INDIRECT - 1);
        } else {
          assert Ptr(s, j, INDIRECT) == x ==> j == i;
        }
      }
    }
  }

  // ---- bmap -----------------------------------------------------------------------------------

  /** t has everything s has, possibly with more blocks for inode i. */
  ghost predicate Extends(s: Fs, t: Fs, i: nat) {
    && |t.blocks| == |s.blocks| && t.dinodes == s.dinodes && t.inodes.Keys == s.inodes.Keys
    && (forall j :: j in s.inodes ==> t.inodes[j].size == s.inodes[j].size && (j != i ==> t.inodes[j] == s.inodes[j]))
    && (forall j: nat, q: nat :: Ptr(s, j, q) != 0 || j != i ==> Ptr(t, j, q) == Ptr(s, j, q))
    && (forall j: nat, q: nat :: Ptr(s, j, q) != 0 && q != INDIRECT && Ptr(s, j, q) < |s.blocks| ==>
          t.blocks[Ptr(s, j, q)] == s.blocks[Ptr(s, j, q)])
  }

  lemma {:induction false} ExtendsTrans(s: Fs, t: Fs, u: Fs, i: nat)
    requires Extends(s, t, i) && Extends(t, u, i)
    ensures Extends(s, u, i)
  {
    hide Ptr;
    forall j: nat, q: nat | Ptr(s, j, q) != 0 || j != i ensures Ptr(u, j, q) == Ptr(s, j, q) {
      assert Ptr(t, j, q) == Ptr(s, j, q);
    }
  }

  lemma {:induction false} ExtendsKeepsContent(sb: Super, s: Fs, t: Fs, i: nat, j: nat)
    requires Extends(s, t, i) && PtrsInRange(sb, s) && Shape(sb, s) && HoleFree(s, j)
    ensures HoleFree(t, j) && Content(t, j) == Content(s, j)
  {
    hide Ptr;
    forall k: nat | k < s.inodes[j].size ensures ByteAt(t, j, k) == ByteAt(s, j, k) {
      BlockOfByte(s, j, k);
      assert Ptr(t, j, PosOf(k / BSIZE)) == Ptr(s, j, PosOf(k / BSIZE));
    }
  }

  lemma {:induction false} BlockOfByte(s: Fs, j: nat, k: nat)
    requires HoleFree(s, j) && k < s.inodes[j].size
    ensures Ptr(s, j, PosOf(k / BSIZE)) != 0 && PosOf(k / BSIZE) != INDIRECT && k / BSIZE < MAXFILE
  {
    hide Ptr;
    assert k / BSIZE * BSIZE <= k;
  }

  /** A free block b becomes position p of inode i. */
  lemma {:induction false} MapDirect(sb: Super, s: Fs, i: nat, p: nat, b: nat)
    requires Inv(sb, s) && i in s.inodes && p <= INDIRECT && Ptr(s, i, p) == 0
    requires b < sb.size && BBlock(sb, b) < |s.blocks| && !Used(sb, s.blocks, b)
    ensures var t := SetAddr(Take(sb, s, b), i, p, b);
            Inv(sb, t) && Extends(s, t, i) && Ptr(t, i, p) == b && b != 0
  {
    hide Ptr, Used, MarkUsed, Zeros;
    TakeInv(sb, s, b, {});
    TakeFrame(sb, s, b);
    var u := Take(sb, s, b);
    SetAddrLinks(sb, u, i, p, b);
    var t := SetAddr(u, i, p, b);
    LinkInv(sb, u, t, i, p, b, {} + {b});
    assert {} + {b} - {b} == {};
    forall j: nat, q: nat | Ptr(s, j, q) != 0 || j != i ensures Ptr(t, j, q) == Ptr(s, j, q) {
      assert Ptr(u, j, q) == Ptr(s, j, q);
    }
    TakenIsNew(sb, s, b);
  }

  lemma {:induction false} TakenIsNew(sb: Super, s: Fs, b: nat)
    requires PtrsInRange(sb, s) && Shape(sb, s) && sb.data <= b < sb.size && !Owned(s, b)
    ensures BBlock(sb, b) < |s.blocks|
    ensures forall j: nat, q: nat :: Ptr(s, j, q) != 0 ==>
              Ptr(s, j, q) < |s.blocks| && Take(sb, s, b).blocks[Ptr(s, j, q)] == s.blocks[Ptr(s, j, q)]
  {
    hide Ptr, Used, MarkUsed, Zeros;
    TakeFrame(sb, s, b);
    forall j: nat, q: nat | Ptr(s, j, q) != 0 ensures Ptr(s, j, q) != b {
      assert Owned(s, Ptr(s, j, q));
    }
  }

  /** A free block b becomes entry e of the indirect block of inode i. */
  lemma {:induction false} MapEntry(sb: Super, s: Fs, i: nat, e: nat, b: nat)
    requires Inv(sb, s) && i in s.inodes && e < NINDIRECT && Ptr(s, i, INDIRECT) != 0
             && Ptr(s, i, INDIRECT + 1 + e) == 0
    requires b < sb.size && BBlock(sb, b) < |s.blocks| && !Used(sb, s.blocks, b)
    ensures Ptr(s, i, INDIRECT) < |s.blocks| && s.inodes[i].addrs[INDIRECT] == Ptr(s, i, INDIRECT)
    ensures var t := SetEntry(Take(sb, s, b), i, e, b);
            Inv(sb, t) && Extends(s, t, i) && Ptr(t, i, INDIRECT + 1 + e) == b && b != 0
  {
    hide Used, MarkUsed, Zeros, Word, SetWord;
    TakeInv(sb, s, b, {});
    TakeFrame(sb, s, b);
    var u := Take(sb, s, b);
    assert Ptr(u, i, INDIRECT) == Ptr(s, i, INDIRECT);
    SetEntryLinks(sb, u, i, e, b);
    var t := SetEntry(u, i, e, b);
    LinkInv(sb, u, t, i, INDIRECT + 1 + e, b, {} + {b});
    assert {} + {b} - {b} == {};
    EntryExtends(sb, s, i, e, b);
  }

  lemma {:induction false} EntryExtends(sb: Super, s: Fs, i: nat, e: nat, b: nat)
    requires Inv(sb, s) && i in s.inodes && e < NINDIRECT && Ptr(s, i, INDIRECT) != 0
             && Ptr(s, i, INDIRECT + 1 + e) == 0
    requires sb.data <= b < sb.size && BBlock(sb, b) < |s.blocks| && !Owned(s, b)
    requires Ptr(s, i, INDIRECT) < |s.blocks| && s.inodes[i].addrs[INDIRECT] == Ptr(s, i, INDIRECT)
    requires LinkedAt(Take(sb, s, b), SetEntry(Take(sb, s, b), i, e, b), i, INDIRECT + 1 + e, b)
    ensures Extends(s, SetEntry(Take(sb, s, b), i, e, b), i)
  {
    hide Ptr, Used, MarkUsed, Zeros, Word, SetWord, InvBut;
    InvParts(sb, s);
    TakenIsNew(sb, s, b);
    TakeFrame(sb, s, b);
    var u := Take(sb, s, b);
    var t := SetEntry(u, i, e, b);
    forall j: nat, q: nat | Ptr(s, j, q) != 0 || j != i ensures Ptr(t, j, q) == Ptr(s, j, q) {
      assert Ptr(u, j, q) == Ptr(s, j, q);
    }
    forall j: nat, q: nat | Ptr(s, j, q) != 0 && q != INDIRECT ensures Ptr(s, j, q) != Ptr(s, i, INDIRECT) {
    }
  }

  lemma {:induction false} InvParts(sb: Super, s: Fs)
    requires Inv(sb, s)
    ensures Shape(sb, s) && PtrsInRange(sb, s) && OneOwner(s)
  {
  }

  // ---- Writing into mapped blocks -------------------------------------------------------------

  /** either_copyin into block x at offset o. */
  function PutData(s: Fs, x: nat, o: nat, bytes: seq<Byte>): Fs
    requires x < |s.blocks| && o + |bytes| <= BSIZE
  {
    var was := s.blocks[x];
    s.(blocks := s.blocks[x := was[..o] + bytes + was[o + |bytes|..]])
  }

  lemma {:induction false} PutDataKeeps(sb: Super, s: Fs, i: nat, p: nat, o: nat, bytes: seq<Byte>)
    requires Inv(sb, s) && Ptr(s, i, p) != 0 && p != INDIRECT && o + |bytes| <= BSIZE
    ensures Ptr(s, i, p) < |s.blocks|
    ensures var t := PutData(s, Ptr(s, i, p), o, bytes);
            Inv(sb, t) && SamePtrs(s, t)
  {
    hide Ptr, Used;
    var x := Ptr(s, i, p);
    var t := PutData(s, x, o, bytes);
    BlocksKeepPtrs(s, t);
    SamePtrsOwned(s, t);
    forall c: nat | c < sb.size
      ensures BBlock(sb, c) < |t.blocks| && (Used(sb, t.blocks, c) <==> c < sb.data || Owned(t, c))
    {
      UsedFrame(sb, s.blocks, t.blocks, c);
    }
  }

  /** tot bytes of data have been written to inode i at off, starting from s0; the size
      is set only at the end. */
  ghost predicate Written(sb: Super, s0: Fs, s: Fs, i: nat, off: nat, data: seq<Byte>, tot: nat) {
    && Inv(sb, s) && s.inodes.Keys == s0.inodes.Keys && s.dinodes == s0.dinodes
    && i in s0.inodes && tot <= |data|
    && (forall j :: j in s0.inodes ==> s.inodes[j].size == s0.inodes[j].size)
    && (forall j :: j in s0.inodes && j != i ==> HoleFree(s, j) && Content(s, j) == Content(s0, j))
    && (forall k: nat :: k < s0.inodes[i].size || off <= k < off + tot ==>
          && Ptr(s, i, PosOf(k / BSIZE)) != 0
          && ByteAt(s, i, k) == if off <= k < off + tot then data[k - off] else ByteAt(s0, i, k))
  }

  lemma {:induction false} WrittenStart(sb: Super, s: Fs, i: nat, off: nat, data: seq<Byte>)
    requires Inv(sb, s) && NoHoles(s) && i in s.inodes
    ensures Written(sb, s, s, i, off, data, 0)
  {
    hide Ptr;
    forall k: nat | k < s.inodes[i].size ensures Ptr(s, i, PosOf(k / BSIZE)) != 0 {
      BlockOfByte(s, i, k);
    }
  }

  lemma {:induction false} WrittenBmap(sb: Super, s0: Fs, s: Fs, t: Fs, i: nat, off: nat, data: seq<Byte>, tot: nat)
    requires Written(sb, s0, s, i, off, data, tot) && Extends(s, t, i) && Inv(sb, t)
    requires off + |data| <= MAXFILE * BSIZE && s0.inodes[i].size <= MAXFILE * BSIZE
    ensures Written(sb, s0, t, i, off, data, tot)
  {
    hide Ptr, InvBut, HoleFree, Content;
    InvParts(sb, s);
    forall j | j in s0.inodes && j != i ensures HoleFree(t, j) && Content(t, j) == Content(s0, j) {
      ExtendsKeepsContent(sb, s, t, i, j);
    }
    forall k: nat | k < s0.inodes[i].size || off <= k < off + tot
      ensures Ptr(t, i, PosOf(k / BSIZE)) != 0 && ByteAt(t, i, k) == ByteAt(s, i, k)
    {
      assert PosOf(k / BSIZE) != INDIRECT;
    }
  }

  lemma {:induction false} PutOther(sb: Super, s: Fs, i: nat, bn: nat, o: nat, bytes: seq<Byte>, j: nat)
    requires Inv(sb, s) && Ptr(s, i, PosOf(bn)) != 0 && o + |bytes| <= BSIZE && j != i && HoleFree(s, j)
    ensures Ptr(s, i, PosOf(bn)) < |s.blocks|
    ensures var t := PutData(s, Ptr(s, i, PosOf(bn)), o, bytes); HoleFree(t, j) && Content(t, j) == Content(s, j)
  {
    hide Ptr;
    PutDataKeeps(sb, s, i, PosOf(bn), o, bytes);
    var t := PutData(s, Ptr(s, i, PosOf(bn)), o, bytes);
    forall k: nat | k < s.inodes[j].size ensures ByteAt(t, j, k) == ByteAt(s, j, k) {
      assert Ptr(t, j, PosOf(k / BSIZE)) == Ptr(s, j, PosOf(k / BSIZE));
      BlockOfByte(s, j, k);
    }
  }

  /** What a write into block bn does to each byte of the same file. */
  lemma {:induction false} PutByte(sb: Super, s: Fs, i: nat, bn: nat, o: nat, bytes: seq<Byte>, k: nat)
    requires Inv(sb, s) && Ptr(s, i, PosOf(bn)) != 0 && o + |bytes| <= BSIZE && Ptr(s, i, PosOf(k / BSIZE)) != 0
    ensures Ptr(s, i, PosOf(bn)) < |s.blocks|
    ensures var t := PutData(s, Ptr(s, i, PosOf(bn)), o, bytes);
            && Ptr(t, i, PosOf(k / BSIZE)) != 0
            && ByteAt(t, i, k) == if bn * BSIZE + o <= k < bn * BSIZE + o + |bytes| then bytes[k - bn * BSIZE - o]
              else ByteAt(s, i, k)
  {
    hide Ptr;
    PutDataKeeps(sb, s, i, PosOf(bn), o, bytes);
    var t := PutData(s, Ptr(s, i, PosOf(bn)), o, bytes);
    assert Ptr(t, i, PosOf(k / BSIZE)) == Ptr(s, i, PosOf(k / BSIZE));
    assert k == k / BSIZE * BSIZE + k % BSIZE;
    if k / BSIZE != bn {
      assert PosOf(k / BSIZE) != PosOf(bn);
    }
  }

  lemma {:induction false} WrittenPut(sb: Super, s0: Fs, s: Fs, i: nat, off: nat, data: seq<Byte>, tot: nat, m: nat)
    requires Written(sb, s0, s, i, off, data, tot) && tot + m <= |data|
    requires Ptr(s, i, PosOf((off + tot) / BSIZE)) != 0 && (off + tot) % BSIZE + m <= BSIZE
    ensures Ptr(s, i, PosOf((off + tot) / BSIZE)) < |s.blocks|
    ensures Written(sb, s0, PutData(s, Ptr(s, i, PosOf((off + tot) / BSIZE)), (off + tot) % BSIZE, data[tot..tot + m]),
                i, off, data, tot + m)
  {
    hide Ptr, InvBut, HoleFree, Content, ByteAt;
    var bn, o, bytes := (off + tot) / BSIZE, (off + tot) % BSIZE, data[tot..tot + m];
    PutDataKeeps(sb, s, i, PosOf(bn), o, bytes);
    var t := PutData(s, Ptr(s, i, PosOf(bn)), o, bytes);
    assert bn * BSIZE + o == off + tot;
    forall j | j in s0.inodes && j != i ensures HoleFree(t, j) && Content(t, j) == Content(s0, j) {
      PutOther(sb, s, i, bn, o, bytes, j);
    }
    forall k: nat | k < s0.inodes[i].size || off <= k < off + tot + m
      ensures Ptr(t, i, PosOf(k / BSIZE)) != 0
      ensures ByteAt(t, i, k) == if off <= k < off + tot + m then data[k - off] else ByteAt(s0, i, k)
    {
      if !(k < s0.inodes[i].size || off <= k < off + tot) {
        assert k / BSIZE == bn;
      }
      PutByte(sb, s, i, bn, o, bytes, k);
    }
  }

  /** c with data in place of its bytes from off on, growing if need be. */
  function Splice(c: seq<Byte>, off: nat, data: seq<Byte>): seq<Byte>
    requires off <= |c|
  {
    c[..off] + data + if off + |data| < |c| then c[off + |data|..] else []
  }

  /** The end of writei: the size, then iupdate. */
  function SetSize(s: Fs, i: nat, size: nat): Fs
    requires i in s.inodes
  {
    var ip := s.inodes[i].(size := size);
    s.(inodes := s.inodes[i := ip], dinodes := s.dinodes[i := ip])
  }

  lemma {:induction false} SetSizeKeeps(sb: Super, s: Fs, i: nat, size: nat)
    requires Inv(sb, s) && i in s.inodes
    ensures Inv(sb, SetSize(s, i, size)) && SamePtrs(s, SetSize(s, i, size))
  {
    hide Used, Word;
    var t := SetSize(s, i, size);
    forall j: nat, q: nat ensures Ptr(t, j, q) == Ptr(s, j, q) {
    }
    SamePtrsOwned(s, t);
  }

  /** After the whole write: exactly the bytes off..off+n of file i have changed, the
      file has grown if need be, and every other file is as it was. */
  ghost predicate WriteDone(sb: Super, s0: Fs, t: Fs, i: nat, off: nat, data: seq<Byte>) {
    && i in s0.inodes && off <= s0.inodes[i].size && t.inodes.Keys == s0.inodes.Keys
    && Inv(sb, t) && NoHoles(t)
    && Content(t, i) == Splice(Content(s0, i), off, data)
    && (forall j :: j in s0.inodes && j != i ==> Content(t, j) == Content(s0, j))
    && t.dinodes == s0.dinodes[i := t.inodes[i]]
  }

  lemma {:induction false} WrittenDone(sb: Super, s0: Fs, s: Fs, i: nat, off: nat, data: seq<Byte>)
    requires Written(sb, s0, s, i, off, data, |data|) && NoHoles(s0)
    requires off <= s0.inodes[i].size && off + |data| <= MAXFILE * BSIZE
    ensures var size := s0.inodes[i].size;
            WriteDone(sb, s0, SetSize(s, i, if off + |data| > size then off + |data| else size), i, off, data)
  {
    hide Ptr, InvBut, Splice;
    var size0 := s0.inodes[i].size;
    var size := if off + |data| > size0 then off + |data| else size0;
    var t := SetSize(s, i, size);
    SetSizeKeeps(sb, s, i, size);
    forall j | j in s0.inodes && j != i ensures HoleFree(t, j) && Content(t, j) == Content(s0, j) {
      SizeKeepsOther(s, t, i, j);
    }
    forall k: nat | k < size
      ensures Ptr(t, i, PosOf(k / BSIZE)) != 0
      ensures ByteAt(t, i, k) == if off <= k < off + |data| then data[k - off] else ByteAt(s0, i, k)
    {
      assert Ptr(t, i, PosOf(k / BSIZE)) == Ptr(s, i, PosOf(k / BSIZE));
      assert k < s0.inodes[i].size || off <= k < off + |data|;
    }
    forall bn: nat | bn * BSIZE < size ensures Ptr(t, i, PosOf(bn)) != 0 {
      assert bn * BSIZE / BSIZE == bn;
    }
    SpliceIs(Content(t, i), Content(s0, i), off, data);
  }

  lemma {:induction false} SpliceIs(d: seq<Byte>, c: seq<Byte>, off: nat, data: seq<Byte>)
    requires off <= |c| && |d| == if off + |data| > |c| then off + |data| else |c|
    requires forall k :: 0 <= k < |d| ==> d[k] == if off <= k < off + |data| then data[k - off] else c[k]
    ensures d == Splice(c, off, data)
  {
  }

  lemma {:induction false} SizeKeepsOther(s: Fs, t: Fs, i: nat, j: nat)
    requires SamePtrs(s, t) && t.blocks == s.blocks && j in s.inodes && j in t.inodes && t.inodes[j] == s.inodes[j]
             && HoleFree(s, j)
    ensures HoleFree(t, j) && Content(t, j) == Content(s, j)
  {
    hide Ptr;
    forall k: nat ensures ByteAt(t, j, k) == ByteAt(s, j, k) {
    }
    forall bn: nat | bn * BSIZE < t.inodes[j].size ensures Ptr(t, j, PosOf(bn)) != 0 {
      assert Ptr(s, j, PosOf(bn)) != 0;
    }
  }

  // ---- Truncation -----------------------------------------------------------------------------

  /** t lacks some of the pointers of inode i; everything else is as in s. */
  ghost predicate Loses(s: Fs, t: Fs, i: nat) {
    && t.blocks == s.blocks
    && forall j: nat, q: nat :: Ptr(t, j, q) == Ptr(s, j, q) || (j == i && Ptr(t, j, q) == 0)
  }

  /** The blocks that i owns in s and no longer owns in t. */
  ghost predicate Lost(s: Fs, t: Fs, i: nat, lost: set<nat>) {
    forall b: nat :: b in lost <==> b != 0 && exists q: nat :: Ptr(s, i, q) == b && Ptr(t, i, q) == 0
  }

  /** Dropping pointers makes the blocks loose. */
  lemma {:induction false} UnlinkInv(sb: Super, s: Fs, t: Fs, i: nat, loose: set<nat>, lost: set<nat>)
    requires InvBut(sb, s, loose) && Shape(sb, t) && Loses(s, t, i) && Lost(s, t, i, lost)
    ensures InvBut(sb, t, loose + lost)
  {
    hide Ptr, Used;
    forall b: nat | b != 0 ensures Owned(s, b) <==> Owned(t, b) || b in lost {
      UnlinkOwned(s, t, i, lost, b);
    }
    forall b | b in lost ensures !Owned(t, b) && Owned(s, b) {
      var q: nat :| Ptr(s, i, q) == b && Ptr(t, i, q) == 0;
      forall j: nat, r: nat ensures Ptr(t, j, r) != b {
        assert Ptr(s, j, r) == Ptr(s, i, q) ==> j == i && r == q;
      }
    }
    forall j: nat, q: nat, k: nat, r: nat | Ptr(t, j, q) != 0 && Ptr(t, j, q) == Ptr(t, k, r) ensures j == k && q == r {
      assert Ptr(s, j, q) == Ptr(t, j, q) && Ptr(s, k, r) == Ptr(t, k, r);
    }
  }

  lemma {:induction false} UnlinkOwned(s: Fs, t: Fs, i: nat, lost: set<nat>, b: nat)
    requires Loses(s, t, i) && Lost(s, t, i, lost) && b != 0
    ensures Owned(s, b) <==> Owned(t, b) || b in lost
  {
    hide Ptr;
    if Owned(s, b) {
      var j: nat, q: nat :| Ptr(s, j, q) == b;
      assert Ptr(t, j, q) == b || (j == i && Ptr(t, j, q) == 0);
    }
    if Owned(t, b) {
      var j: nat, q: nat :| Ptr(t, j, q) == b;
      assert Ptr(s, j, q) == b;
    }
    if b in lost {
      var q: nat :| Ptr(s, i, q) == b && Ptr(t, i, q) == 0;
    }
  }

  lemma {:induction false} ClearDirect(sb: Super, s: Fs, i: nat, p: nat)
    requires Shape(sb, s) && i in s.inodes && p < INDIRECT && Ptr(s, i, p) != 0
    ensures var t := SetAddr(s, i, p, 0);
            Shape(sb, t) && Loses(s, t, i) && Lost(s, t, i, {Ptr(s, i, p)}) && Ptr(t, i, p) == 0
    ensures forall j: nat, q: nat :: !(j == i && q == p) ==> Ptr(SetAddr(s, i, p, 0), j, q) == Ptr(s, j, q)
  {
    hide Word;
    var t := SetAddr(s, i, p, 0);
    forall j: nat, q: nat | !(j == i && q == p) ensures Ptr(t, j, q) == Ptr(s, j, q) {
    }
    assert Ptr(t, i, p) == 0;
  }

  /** One direct block: bfree, then addrs[p] = 0. */
  lemma {:induction false} FreeDirect(sb: Super, s: Fs, i: nat, p: nat)
    requires Inv(sb, s) && i in s.inodes && p < INDIRECT && Ptr(s, i, p) != 0
    ensures BBlock(sb, Ptr(s, i, p)) < |s.blocks| && Used(sb, s.blocks, Ptr(s, i, p))
    ensures Inv(sb, SetAddr(GiveBack(sb, s, Ptr(s, i, p)), i, p, 0))
  {
    hide Ptr, Used, MarkFree;
    var b := Ptr(s, i, p);
    ClearDirect(sb, s, i, p);
    var t := SetAddr(s, i, p, 0);
    UnlinkInv(sb, s, t, i, {}, {b});
    GiveBackInv(sb, t, b, {} + {b});
    assert {} + {b} - {b} == {};
    assert SetAddr(GiveBack(sb, s, b), i, p, 0) == GiveBack(sb, t, b);
  }

  /** The blocks behind the indirect block, from entry e on, and the block itself. */
  ghost function EntriesFrom(s: Fs, i: nat, e: nat): set<nat>
  {
    (set q: nat | INDIRECT + 1 + e <= q < POSITIONS && Ptr(s, i, q) != 0 :: Ptr(s, i, q))
    + if Ptr(s, i, INDIRECT) != 0 then {Ptr(s, i, INDIRECT)} else {}
  }

  lemma {:induction false} ClearIndirect(sb: Super, s: Fs, i: nat)
    requires Shape(sb, s) && i in s.inodes
    ensures var t := SetAddr(s, i, INDIRECT, 0);
            && Shape(sb, t) && Loses(s, t, i) && Lost(s, t, i, EntriesFrom(s, i, 0))
            && (forall q: nat :: q < INDIRECT ==> Ptr(t, i, q) == Ptr(s, i, q))
            && (forall q: nat :: q >= INDIRECT ==> Ptr(t, i, q) == 0)
  {
    hide Word;
    var t := SetAddr(s, i, INDIRECT, 0);
    forall j: nat, q: nat ensures Ptr(t, j, q) == if j == i && q >= INDIRECT then 0 else Ptr(s, j, q) {
    }
    var lost := EntriesFrom(s, i, 0);
    forall b: nat ensures b in lost <==> b != 0 && exists q: nat :: Ptr(s, i, q) == b && Ptr(t, i, q) == 0 {
      if b != 0 && exists q: nat :: Ptr(s, i, q) == b && Ptr(t, i, q) == 0 {
        var q: nat :| Ptr(s, i, q) == b && Ptr(t, i, q) == 0;
        assert q >= INDIRECT;
      }
    }
  }

  /** One entry of the indirect block: bfree(a[e]) if there is one. */
  lemma {:induction false} FreeEntry(sb: Super, s: Fs, u: Fs, i: nat, e: nat)
    requires OneOwner(s) && e < NINDIRECT
    requires InvBut(sb, u, EntriesFrom(s, i, e)) && Ptr(s, i, INDIRECT + 1 + e) != 0
    ensures var b := Ptr(s, i, INDIRECT + 1 + e);
            && BBlock(sb, b) < |u.blocks| && Used(sb, u.blocks, b)
            && InvBut(sb, GiveBack(sb, u, b), EntriesFrom(s, i, e + 1))
  {
    hide Ptr, Used, InvBut, GiveBack;
    var b := Ptr(s, i, INDIRECT + 1 + e);
    assert b in EntriesFrom(s, i, e);
    GiveBackInv(sb, u, b, EntriesFrom(s, i, e));
    assert EntriesFrom(s, i, e) - {b} == EntriesFrom(s, i, e + 1);
  }

  lemma {:induction false} SkipEntry(s: Fs, i: nat, e: nat)
    requires Ptr(s, i, INDIRECT + 1 + e) == 0
    ensures EntriesFrom(s, i, e) == EntriesFrom(s, i, e + 1)
  {
    hide Ptr;
  }

  lemma {:induction false} LastEntries(s: Fs, i: nat)
    ensures EntriesFrom(s, i, NINDIRECT) == if Ptr(s, i, INDIRECT) != 0 then {Ptr(s, i, INDIRECT)} else {}
  {
  }

  /** What itrunc leaves: inode i empty, in memory and on disk, and every other inode
      with the same blocks and contents. Together with Inv before and after, the
      blocks given back are exactly those of i. */
  ghost predicate Truncated(sb: Super, s: Fs, t: Fs, i: nat) {
    && Inv(sb, t) && t.inodes.Keys == s.inodes.Keys && i in t.inodes && t.inodes[i].size == 0
    && (forall q: nat :: Ptr(t, i, q) == 0)
    && (forall j :: j in s.inodes && j != i ==> t.inodes[j] == s.inodes[j])
    && (forall j: nat, q: nat :: j != i ==> Ptr(t, j, q) == Ptr(s, j, q))
    && (forall x: nat :: sb.data <= x < sb.size && x < |s.blocks| && x < |t.blocks| ==> t.blocks[x] == s.blocks[x])
    && t.dinodes == s.dinodes[i := t.inodes[i]]
  }

  /** A bit is cleared by itrunc exactly if the block belonged to the truncated inode. */
  lemma {:induction false} TruncationReturnsItsBlocks(sb: Super, s: Fs, t: Fs, i: nat, b: nat)
    requires Inv(sb, s) && Truncated(sb, s, t, i) && b < sb.size
    ensures BBlock(sb, b) < |s.blocks| && BBlock(sb, b) < |t.blocks|
    ensures Used(sb, t.blocks, b) <==> Used(sb, s.blocks, b) && !(b != 0 && exists q: nat :: Ptr(s, i, q) == b)
  {
    hide Ptr, Used;
    BitmapInMeta(sb, b);
    if b >= sb.data {
      if Owned(t, b) {
        var j: nat, q: nat :| Ptr(t, j, q) == b;
        assert j != i && Ptr(s, j, q) == b;
      }
      if Owned(s, b) {
        var j: nat, q: nat :| Ptr(s, j, q) == b;
        assert j != i ==> Ptr(t, j, q) == b;
      }
    } else {
      assert forall q: nat :: Ptr(s, i, q) != 0 ==> Ptr(s, i, q) >= sb.data;
    }
  }

  lemma {:induction false} TruncationKeepsOthers(sb: Super, s: Fs, t: Fs, i: nat, j: nat)
    requires Inv(sb, s) && Truncated(sb, s, t, i) && j != i && HoleFree(s, j)
    ensures HoleFree(t, j) && Content(t, j) == Content(s, j)
  {
    hide Ptr, Used;
    forall k: nat | k < s.inodes[j].size ensures ByteAt(t, j, k) == ByteAt(s, j, k) {
      BlockOfByte(s, j, k);
      assert Ptr(t, j, PosOf(k / BSIZE)) == Ptr(s, j, PosOf(k / BSIZE));
    }
    forall bn: nat | bn * BSIZE < t.inodes[j].size ensures Ptr(t, j, PosOf(bn)) != 0 {
      assert Ptr(s, j, PosOf(bn)) != 0;
    }
  }
}
