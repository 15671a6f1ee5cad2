/** The buffer cache of kernel/bio.c over one disk: NBUF buffers on a doubly
    linked list in order of use, with reference counts. */
module BufferCache {
  import opened LogSpec

  const NBUF: nat := 30
  const HEAD: nat := NBUF  // the list node bcache.head; buffer i is node i
  const ROOTDEV: nat := 1

  datatype Buf = Buf(valid: bool, dev: nat, blockno: nat, refcnt: nat, data: Block)

  // ---- The list -----------------------------------------------------------------

  /** The list read as a cycle through HEAD, which is at position -1 and again
      after the last buffer. */
  ghost function At(order: seq<nat>, i: int): nat
    requires -1 <= i <= |order|
  {
    if 0 <= i < |order| then order[i] else HEAD
  }

  ghost predicate Nodes(order: seq<nat>) {
    && (forall i :: 0 <= i < |order| ==> order[i] < NBUF)
    && (forall i, j :: 0 <= i < j < |order| ==> order[i] != order[j])
  }

  /** next and prev thread exactly the nodes of order, in that order. */
  ghost predicate Linked(next: seq<nat>, prev: seq<nat>, order: seq<nat>) {
    && |next| == |prev| == NBUF + 1
    && Nodes(order)
    && (forall i :: -1 <= i < |order| ==> next[At(order, i)] == At(order, i + 1))
    && (forall i :: 0 <= i <= |order| ==> prev[At(order, i)] == At(order, i - 1))
  }

  ghost predicate Everyone(order: seq<nat>) {
    forall i: nat :: i < NBUF ==> i in order
  }

  ghost function Without(order: seq<nat>, k: nat): seq<nat>
    requires k < |order|
  {
    order[..k] + order[k + 1..]
  }

  lemma {:induction false} MovedToFront(order: seq<nat>, k: nat)
    requires Nodes(order) && Everyone(order) && k < |order|
    ensures order[k] !in Without(order, k)
    ensures Everyone([order[k]] + Without(order, k))
  {
    var all := [order[k]] + Without(order, k);
    forall i: nat | i < NBUF ensures i in all {
      assert i in order;
      var j :| 0 <= j < |order| && order[j] == i;
      assert all[if j == k then 0 else if j < k then j + 1 else j] == i;
    }
  }

  /** Unlinking node b leaves the rest in order. */
  lemma {:induction false} UnlinkKeepsRest(next: seq<nat>, prev: seq<nat>, order: seq<nat>, k: nat)
    requires Linked(next, prev, order) && k < |order|
    ensures var b := order[k];
            next[b] <= NBUF && prev[b] <= NBUF &&
            Linked(next[prev[b] := next[b]], prev[next[b] := prev[b]], Without(order, k))
  {
    var b, rest := order[k], Without(order, k);
    assert b == At(order, k);
    var n, p := At(order, k + 1), At(order, k - 1);
    var next', prev' := next[p := n], prev[n := p];
    forall i | -1 <= i < |rest|
      ensures next'[At(rest, i)] == At(rest, i + 1)
    {
      var j := if i < k then i else i + 1;
      assert At(rest, i) == At(order, j);
      assert next[At(order, j)] == At(order, j + 1);
    }
    forall i | 0 <= i <= |rest|
      ensures prev'[At(rest, i)] == At(rest, i - 1)
    {
      var j := if i < k then i else i + 1;
      assert At(rest, i) == At(order, j);
      assert prev[At(order, j)] == At(order, j - 1);
    }
  }

  /** Inserting node b after HEAD puts it first. */
  lemma {:induction false} InsertGoesFirst(next: seq<nat>, prev: seq<nat>, order: seq<nat>, b: nat)
    requires Linked(next, prev, order) && b < NBUF && b !in order
    ensures next[HEAD] <= NBUF
    ensures Linked(next[b := next[HEAD]][HEAD := b], prev[b := HEAD][next[HEAD] := b], [b] + order)
  {
    var all := [b] + order;
    assert At(order, -1) == HEAD;
    var f := At(order, 0);
    var next', prev' := next[b := f][HEAD := b], prev[b := HEAD][f := b];
    forall i | -1 <= i < |all|
      ensures next'[At(all, i)] == At(all, i + 1)
    {
      if i > 0 {
        assert At(all, i) == At(order, i - 1);
        assert next[At(order, i - 1)] == At(order, i);
      }
    }
    forall i | 0 <= i <= |all|
      ensures prev'[At(all, i)] == At(all, i - 1)
    {
      if i > 0 {
        assert At(all, i) == At(order, i - 1);
        assert prev[At(order, i - 1)] == At(order, i - 2);
      }
    }
  }

  // ---- Contents and reference counts ------------------------------------------------

  /** What the cache and the disk under it stand for: the disk, what bread returns
      for each block, how many holders and pins each block has, and every bwrite
      so far. */
  datatype Store = Store(disk: Image, view: Image, refs: seq<nat>, writes: seq<Write>)

  ghost predicate SameSizes(st: Store) {
    |st.disk| == |st.view| == |st.refs|
  }

  /** Each cached block has one buffer, holding what the block now contains and its
      reference count; a block that is in use, or differs from the disk, is cached. */
  ghost predicate Coherent(buf: seq<Buf>, st: Store) {
    && |buf| == NBUF && SameSizes(st)
    && (forall i :: 0 <= i < NBUF ==> CoherentBuf(buf[i], st))
    && (forall i, j :: 0 <= i < j < NBUF && buf[i].dev == buf[j].dev == ROOTDEV ==> buf[i].blockno != buf[j].blockno)
    && (forall b :: 0 <= b < |st.refs| && st.refs[b] > 0 ==> Cached(buf, b))
    && (forall b :: 0 <= b < |st.disk| && st.view[b] != st.disk[b] ==> Cached(buf, b))
  }

  /** Every block that differs from the disk is in use, so recycling loses nothing. */
  ghost predicate Settled(st: Store)
    requires SameSizes(st)
  {
    forall b :: 0 <= b < |st.disk| && st.view[b] != st.disk[b] ==> st.refs[b] > 0
  }

  ghost predicate CoherentBuf(b: Buf, st: Store)
    requires SameSizes(st)
  {
    if b.dev == ROOTDEV then
      b.valid && b.blockno < |st.view| && b.data == st.view[b.blockno] && b.refcnt == st.refs[b.blockno]
    else b.refcnt == 0
  }

  ghost predicate Cached(buf: seq<Buf>, b: nat) {
    exists i :: 0 <= i < |buf| && buf[i].dev == ROOTDEV && buf[i].blockno == b
  }

  /** When buffer i was last let go of, the buffers having been let go of in the order of
      uses; those that never were come before, by number. */
  function LastUse(uses: seq<nat>, i: nat): (r: int)
    ensures i < NBUF ==> r < |uses|
  {
    if uses == [] then i - NBUF
    else if uses[|uses| - 1] == i then |uses| - 1
    else LastUse(uses[..|uses| - 1], i)
  }

  /** The list has the buffer that was let go of last in front. */
  ghost predicate LatestFirst(order: seq<nat>, uses: seq<nat>) {
    forall j, k :: 0 <= j < k < |order| ==> LastUse(uses, order[j]) > LastUse(uses, order[k])
  }

  lemma NothingUsed(order: seq<nat>)
    requires forall j, k :: 0 <= j < k < |order| ==> order[j] > order[k]
    ensures LatestFirst(order, [])
  {
  }

  lemma {:induction false} UsedGoesFirst(order: seq<nat>, uses: seq<nat>, k: nat)
    requires Nodes(order) && LatestFirst(order, uses) && k < |order|
    ensures LatestFirst([order[k]] + Without(order, k), uses + [order[k]])
  {
    var now, after := [order[k]] + Without(order, k), uses + [order[k]];
    assert after[..|uses|] == uses;
    assert LastUse(after, order[k]) == |uses|;
    forall m | 0 <= m < |order| && m != k ensures LastUse(after, order[m]) == LastUse(uses, order[m]) < |uses| {
      if m < k {
        assert order[m] != order[k];
      } else {
        assert order[k] != order[m];
      }
    }
  }

  /** No free buffer has gone unused for longer than buffer i, which is free. */
  ghost predicate LeastRecentlyUsed(buf: seq<Buf>, uses: seq<nat>, i: nat)
    requires |buf| == NBUF
  {
    && i < NBUF && buf[i].refcnt == 0
    && forall j: nat :: j < NBUF && buf[j].refcnt == 0 && j != i ==> LastUse(uses, i) < LastUse(uses, j)
  }

  lemma {:induction false} LastFreeIsOldest(buf: seq<Buf>, order: seq<nat>, uses: seq<nat>, k: nat)
    requires |buf| == NBUF && Nodes(order) && Everyone(order) && LatestFirst(order, uses)
    requires k < |order| && buf[order[k]].refcnt == 0 && forall j :: k < j < |order| ==> buf[order[j]].refcnt != 0
    ensures LeastRecentlyUsed(buf, uses, order[k])
  {
    hide LastUse;
    forall j: nat | j < NBUF && buf[j].refcnt == 0 && j != order[k]
      ensures LastUse(uses, order[k]) < LastUse(uses, j)
    {
      assert j in order;
    }
  }

  /** A walk over the whole list sees every buffer. */
  lemma {:induction false} ScanSeesAll(buf: seq<Buf>, order: seq<nat>, b: nat)
    requires |buf| == NBUF && Nodes(order) && Everyone(order)
    ensures (forall j :: 0 <= j < |order| ==> !(buf[order[j]].dev == ROOTDEV && buf[order[j]].blockno == b)) ==>
              !Cached(buf, b)
    ensures (forall j :: 0 <= j < |order| ==> buf[order[j]].refcnt > 0) ==> !HasFree(buf)
  {
    if i: nat :| i < NBUF && buf[i].dev == ROOTDEV && buf[i].blockno == b {
      assert i in order;
    }
    if i: nat :| i < NBUF && buf[i].refcnt == 0 {
      assert i in order;
    }
  }

  ghost predicate HasFree(buf: seq<Buf>) {
    exists i :: 0 <= i < |buf| && buf[i].refcnt == 0
  }

  /** How many blocks somebody holds or has pinned. */
  ghost function Busy(refs: seq<nat>): nat {
    if refs == [] then 0
    else Busy(refs[..|refs| - 1]) + if refs[|refs| - 1] > 0 then 1 else 0
  }

  ghost function BusyBlocks(refs: seq<nat>): set<nat> {
    set b: nat | b < |refs| && refs[b] > 0
  }

  lemma {:induction false} BusyIsSize(refs: seq<nat>)
    ensures Busy(refs) == |BusyBlocks(refs)|
  {
    if refs == [] {
      assert BusyBlocks(refs) == {};
    } else {
      var n := |refs| - 1;
      BusyIsSize(refs[..n]);
      assert BusyBlocks(refs) == BusyBlocks(refs[..n]) + if refs[n] > 0 then {n} else {};
    }
  }

  /** Only a block's first and last reference change the count. */
  lemma {:induction false} BusyUpdate(refs: seq<nat>, b: nat, r: nat)
    requires b < |refs|
    ensures Busy(refs[b := r]) == Busy(refs) + (if r > 0 then 1 else 0) - (if refs[b] > 0 then 1 else 0)
  {
    var n := |refs| - 1;
    if b < n {
      BusyUpdate(refs[..n], b, r);
      assert refs[b := r][..n] == refs[..n][b := r];
    } else {
      assert refs[b := r][..n] == refs[..n];
    }
  }

  ghost predicate OneBufferEach(buf: seq<Buf>) {
    && (forall i, j :: 0 <= i < j < |buf| && buf[i].dev == buf[j].dev == ROOTDEV ==> buf[i].blockno != buf[j].blockno)
    && (forall i :: 0 <= i < |buf| && buf[i].refcnt > 0 ==> buf[i].dev == ROOTDEV)
  }

  ghost function BusyBufs(buf: seq<Buf>, k: nat): set<nat>
    requires k <= |buf|
  {
    if k == 0 then {}
    else if buf[k - 1].refcnt > 0 then BusyBufs(buf, k - 1) + {buf[k - 1].blockno}
    else BusyBufs(buf, k - 1)
  }

  lemma {:induction false} BusyBufIn(buf: seq<Buf>, k: nat, i: nat)
    requires i < k <= |buf| && buf[i].refcnt > 0
    ensures buf[i].blockno in BusyBufs(buf, k)
  {
    if i < k - 1 {
      BusyBufIn(buf, k - 1, i);
    }
  }

  lemma {:induction false} BusyBufOf(buf: seq<Buf>, k: nat, b: nat) returns (i: nat)
    requires k <= |buf| && b in BusyBufs(buf, k)
    ensures i < k && buf[i].refcnt > 0 && buf[i].blockno == b
  {
    if buf[k - 1].refcnt > 0 && buf[k - 1].blockno == b {
      i := k - 1;
    } else {
      i := BusyBufOf(buf, k - 1, b);
    }
  }

  lemma {:induction false} BusyBufsSize(buf: seq<Buf>, k: nat)
    requires k <= |buf| && OneBufferEach(buf)
    ensures |BusyBufs(buf, k)| <= k
    ensures |BusyBufs(buf, k)| == k <==> forall i :: 0 <= i < k ==> buf[i].refcnt > 0
  {
    if k > 0 {
      BusyBufsSize(buf, k - 1);
      if buf[k - 1].refcnt > 0 {
        if buf[k - 1].blockno in BusyBufs(buf, k - 1) {
          var i := BusyBufOf(buf, k - 1, buf[k - 1].blockno);
          assert false;
        }
      }
    }
  }

  /** A buffer can be recycled exactly when fewer than NBUF blocks are in use. */
  lemma {:induction false} FreeIffNotAllBusy(buf: seq<Buf>, st: Store)
    requires Coherent(buf, st)
    ensures HasFree(buf) <==> Busy(st.refs) < NBUF
    ensures Busy(st.refs) <= NBUF
  {
    BusyIsSize(st.refs);
    forall i | 0 <= i < NBUF && buf[i].refcnt > 0 ensures buf[i].dev == ROOTDEV {
      assert CoherentBuf(buf[i], st);
    }
    BusyBufsSize(buf, NBUF);
    forall b: nat ensures b in BusyBlocks(st.refs) <==> b in BusyBufs(buf, NBUF) {
      if b in BusyBlocks(st.refs) {
        var i :| 0 <= i < NBUF && buf[i].dev == ROOTDEV && buf[i].blockno == b;
        assert CoherentBuf(buf[i], st);
        BusyBufIn(buf, NBUF, i);
      }
      if b in BusyBufs(buf, NBUF) {
        var i := BusyBufOf(buf, NBUF, b);
        assert CoherentBuf(buf[i], st);
      }
    }
    assert BusyBlocks(st.refs) == BusyBufs(buf, NBUF);
  }

  lemma {:induction false} CachedBlocks(buf: seq<Buf>, st: Store, b: nat)
    requires Coherent(buf, st) && b < |st.disk|
    ensures Cached(buf, b) || HasFree(buf) <==> st.refs[b] > 0 || Busy(st.refs) < NBUF
  {
    FreeIffNotAllBusy(buf, st);
    if i :| 0 <= i < |buf| && buf[i].dev == ROOTDEV && buf[i].blockno == b {
      assert CoherentBuf(buf[i], st);
    }
  }

  /** Recycling buffer i for block b: what it held and the disk does not is lost. */
  ghost function Recycled(buf: seq<Buf>, st: Store, i: nat, b: nat): Store
    requires i < |buf| && SameSizes(st)
  {
    if Cached(buf, b) || buf[i].dev != ROOTDEV || buf[i].blockno >= |st.view| then st
    else st.(view := st.view[buf[i].blockno := st.disk[buf[i].blockno]])
  }

  lemma {:induction false} RecyclingIsHarmless(buf: seq<Buf>, st: Store, i: nat, b: nat)
    requires Coherent(buf, st) && Settled(st) && i < NBUF && (Cached(buf, b) || buf[i].refcnt == 0)
    ensures Recycled(buf, st, i, b) == st
  {
    assert CoherentBuf(buf[i], st);
    if !Cached(buf, b) && buf[i].dev == ROOTDEV {
      var c := buf[i].blockno;
      assert st.view[c := st.disk[c]] == st.view;
    }
  }

  /** A buffer that takes block b, read from disk if it was not cached. */
  lemma {:induction false} TakeKeepsCoherent(buf: seq<Buf>, st: Store, i: nat, b: nat)
    requires Coherent(buf, st) && i < NBUF && b < |st.disk|
    requires if Cached(buf, b) then buf[i].dev == ROOTDEV && buf[i].blockno == b else buf[i].refcnt == 0
    ensures var st1 := Recycled(buf, st, i, b);
            && (!Cached(buf, b) ==> st1.refs[b] == 0 && st1.view[b] == st.disk[b])
            && (Cached(buf, b) ==> buf[i] == Buf(true, ROOTDEV, b, st.refs[b], st.view[b]))
            && Coherent(buf[i := Buf(true, ROOTDEV, b, st.refs[b] + 1, st1.view[b])], AddRefs(st1, b, 1))
  {
    assert CoherentBuf(buf[i], st);
    var st1 := Recycled(buf, st, i, b);
    var buf' := buf[i := Buf(true, ROOTDEV, b, st.refs[b] + 1, st1.view[b])];
    var st' := AddRefs(st1, b, 1);
    forall j | 0 <= j < NBUF ensures CoherentBuf(buf'[j], st') {
      assert CoherentBuf(buf[j], st);
    }
    forall c | 0 <= c < |st'.refs| && (st'.refs[c] > 0 || st'.view[c] != st'.disk[c]) ensures Cached(buf', c) {
      if c == b {
        assert buf'[i].blockno == b;
      } else {
        var j :| 0 <= j < NBUF && buf[j].dev == ROOTDEV && buf[j].blockno == c;
        assert CoherentBuf(buf[j], st);
        assert buf'[j] == buf[j];
      }
    }
  }

  /** A change to the reference count, the contents or the disk copy of a block
      whose buffer is i. */
  lemma {:induction false} ChangeKeepsCoherent(buf: seq<Buf>, st: Store, i: nat, r: nat, data: Block, home: Block)
    requires Coherent(buf, st) && i < NBUF && buf[i].dev == ROOTDEV
    ensures buf[i].blockno < |st.disk|
    ensures var b := buf[i].blockno;
            Coherent(buf[i := buf[i].(refcnt := r, data := data)],
                     st.(disk := st.disk[b := home], view := st.view[b := data], refs := st.refs[b := r]))
  {
    assert CoherentBuf(buf[i], st);
    var b := buf[i].blockno;
    var buf' := buf[i := buf[i].(refcnt := r, data := data)];
    var st' := st.(disk := st.disk[b := home], view := st.view[b := data], refs := st.refs[b := r]);
    forall j | 0 <= j < NBUF ensures CoherentBuf(buf'[j], st') {
      assert CoherentBuf(buf[j], st);
    }
    forall c | 0 <= c < |st'.refs| && (st'.refs[c] > 0 || st'.view[c] != st'.disk[c]) ensures Cached(buf', c) {
      if c == b {
        assert buf'[i].blockno == b;
      } else {
        var j :| 0 <= j < NBUF && buf[j].dev == ROOTDEV && buf[j].blockno == c;
        assert buf'[j] == buf[j];
      }
    }
  }

  /** One holder or pin more or fewer. */
  ghost function AddRefs(st: Store, b: nat, n: int): Store
    requires b < |st.refs| && st.refs[b] + n >= 0
  {
    st.(refs := st.refs[b := st.refs[b] + n])
  }

  /** Buffer i is the one for block b. */
  ghost predicate Holds(buf: seq<Buf>, st: Store, i: nat, b: nat) {
    && SameSizes(st) && b < |st.refs|
    && i < |buf| == NBUF && buf[i] == Buf(true, ROOTDEV, b, st.refs[b], st.view[b])
  }

  /** What bread does, all of it: buffer i, chosen by bget, now holds block b. */
  lemma {:induction false} BreadKeeps(buf: seq<Buf>, st: Store, i: nat, b: nat)
    requires Coherent(buf, st) && SameSizes(st) && i < NBUF && b < |st.disk|
    requires if Cached(buf, b) then buf[i].dev == ROOTDEV && buf[i].blockno == b else buf[i].refcnt == 0
    ensures var st1 := Recycled(buf, st, i, b);
            && SameSizes(st1) && st1.disk == st.disk && |st1.refs| == |st.refs| && st1.refs[b] == st.refs[b]
            && (Cached(buf, b) ==> buf[i] == Buf(true, ROOTDEV, b, st.refs[b], st1.view[b]))
            && (!Cached(buf, b) ==> st.refs[b] == 0 && st1.view[b] == st.disk[b])
            && (Settled(st) ==> st1 == st && Settled(AddRefs(st, b, 1)))
            && var buf', st' := buf[i := Buf(true, ROOTDEV, b, st.refs[b] + 1, st1.view[b])], AddRefs(st1, b, 1);
               && Coherent(buf', st') && Holds(buf', st', i, b)
               && forall j: nat, c: nat :: Holds(buf, st, j, c) && st.refs[c] > 0 && c != b ==> Holds(buf', st', j, c)
  {
    hide Coherent, Cached;
    OneBuffer(buf, st, i);
    TakeKeepsCoherent(buf, st, i, b);
    if Settled(st) {
      RecyclingIsHarmless(buf, st, i, b);
    }
  }

  lemma OneBuffer(buf: seq<Buf>, st: Store, i: nat)
    requires Coherent(buf, st) && i < NBUF
    ensures |buf| == NBUF && CoherentBuf(buf[i], st)
    ensures forall j: nat :: j < NBUF && j != i && buf[i].dev == ROOTDEV && buf[j].dev == ROOTDEV ==>
              buf[j].blockno != buf[i].blockno
  {
  }

  class Bcache {
    var buf: seq<Buf>
    var next: seq<nat>
    var prev: seq<nat>
    var disk: Image

    ghost var order: seq<nat>  // the list, from its head on
    ghost var uses: seq<nat>  // the buffers that were let go of, the latest last
    ghost var st: Store

    ghost predicate Sound()
      reads this
    {
      && ListValid()
      && SameSizes(st) && st.disk == disk
      && |buf| == NBUF && Coherent(buf, st)
    }

    ghost predicate Valid()
      reads this
    {
      Sound() && Settled(st)
    }

    ghost predicate ListValid()
      reads this`next, this`prev, this`order, this`uses
    {
      |order| == NBUF && Linked(next, prev, order) && Everyone(order) && LatestFirst(order, uses)
    }

    /** binit: nobody holds anything and the last buffer of the array comes first. */
    constructor (image: Image)
      ensures Valid() && st == Store(image, image, seq(|image|, _ => 0), [])
      ensures order == seq(NBUF, i => NBUF - 1 - i) && uses == []
    {
      buf := seq(NBUF, _ => Buf(false, 0, 0, 0, seq(BWORDS, _ => 0)));
      next := seq(NBUF + 1, _ => HEAD);
      prev := seq(NBUF + 1, _ => HEAD);
      disk := image;
      order, uses, st := [], [], Store(image, image, seq(|image|, _ => 0), []);
      new;
      assert Coherent(buf, st);
      var b := 0;
      while b < NBUF
        invariant b <= NBUF && Linked(next, prev, order) && uses == []
        invariant order == seq(b, i requires 0 <= i < b => b - 1 - i)
        invariant Coherent(buf, st) && |buf| == NBUF && disk == image
                  && st == Store(image, image, seq(|image|, _ => 0), [])
      {
        InsertGoesFirst(next, prev, order, b);
        next := next[b := next[HEAD]];
        prev := prev[b := HEAD];
        prev := prev[next[HEAD] := b];
        next := next[HEAD := b];
        order := [b] + order;
        b := b + 1;
      }
      forall i: nat | i < NBUF ensures i in order {
        assert order[NBUF - 1 - i] == i;
      }
      NothingUsed(order);
    }

    /** The buffer for block b, claimed: the one that caches it, or else the least
        recently used one that is free. None is the panic "bget: no buffers". */
    method Bget(b: nat) returns (ok: bool, i: nat)
      requires ListValid() && |buf| == NBUF
      modifies this`buf
      ensures ok <==> Cached(old(buf), b) || HasFree(old(buf))
      ensures !ok ==> buf == old(buf)
      ensures ok ==> i < NBUF
      ensures ok && Cached(old(buf), b) ==>
                && old(buf)[i].dev == ROOTDEV && old(buf)[i].blockno == b
                && buf == old(buf)[i := old(buf)[i].(refcnt := old(buf)[i].refcnt + 1)]
      ensures ok && !Cached(old(buf), b) ==>
                && LeastRecentlyUsed(old(buf), uses, i)
                && buf == old(buf)[i := old(buf)[i].(dev := ROOTDEV, blockno := b, valid := false, refcnt := 1)]
    {
      assert At(order, -1) == HEAD;
      assert next[At(order, -1)] == At(order, 0);
      i := next[HEAD];
      ghost var k := 0;
      while i != HEAD
        invariant 0 <= k <= NBUF && i == At(order, k)
        invariant forall j :: 0 <= j < k ==> !(buf[order[j]].dev == ROOTDEV && buf[order[j]].blockno == b)
        decreases NBUF - k
      {
        if buf[i].dev == ROOTDEV && buf[i].blockno == b {
          buf := buf[i := buf[i].(refcnt := buf[i].refcnt + 1)];
          ok := true;
          return;
        }
        assert next[At(order, k)] == At(order, k + 1);
        i := next[i];
        k := k + 1;
      }
      ScanSeesAll(buf, order, b);
      assert At(order, NBUF) == HEAD;
      assert prev[At(order, NBUF)] == At(order, NBUF - 1);
      i := prev[HEAD];
      k := NBUF - 1;
      while i != HEAD
        invariant -1 <= k < NBUF && i == At(order, k)
        invariant forall j :: k < j < NBUF ==> buf[order[j]].refcnt != 0
        decreases k
      {
        if buf[i].refcnt == 0 {
          LastFreeIsOldest(buf, order, uses, k);
          buf := buf[i := buf[i].(dev := ROOTDEV, blockno := b, valid := false, refcnt := 1)];
          ok := true;
          return;
        }
        assert prev[At(order, k)] == At(order, k - 1);
        i := prev[i];
        k := k - 1;
      }
      ok := false;
    }

    /** A held buffer for block b. Its contents are the latest; the buffer it takes may have
        held the only copy of another block's, unless every such block is in use. */
    method Bread(b: nat) returns (ok: bool, i: nat)
      requires Sound() && b < |disk|
      modifies this`buf, this`st
      ensures Sound() && (old(Valid()) ==> Valid())
      ensures ok <==> old(st).refs[b] > 0 || Cached(old(buf), b) || Busy(old(st).refs) < NBUF
      ensures old(Valid()) ==> (ok <==> old(st).refs[b] > 0 || Busy(old(st).refs) < NBUF)
      ensures !ok ==> st == old(st) && buf == old(buf)
      ensures ok ==> i < NBUF && st == AddRefs(Recycled(old(buf), old(st), i, b), b, 1) && Holds(buf, st, i, b)
      ensures ok && old(Valid()) ==> st == AddRefs(old(st), b, 1)
      ensures ok ==> forall j: nat, c: nat :: Holds(old(buf), old(st), j, c) && old(st).refs[c] > 0 && c != b ==>
                Holds(buf, st, j, c)
    {
      hide ListValid, Busy, HasFree, Coherent, Settled, Recycled, Holds;
      CachedBlocks(buf, st, b);
      ok, i := Bget(b);
      if !ok { return; }
      assert !Cached(old(buf), b) ==> old(buf)[i].refcnt == 0;
      BreadKeeps(old(buf), st, i, b);
      if !buf[i].valid {
        buf := buf[i := buf[i].(data := disk[b], valid := true)];
      }
      assert buf == old(buf)[i := Buf(true, ROOTDEV, b, st.refs[b] + 1, Recycled(old(buf), st, i, b).view[b])];
      st := AddRefs(Recycled(old(buf), st, i, b), b, 1);
    }

    /** The holder of buffer i, for block b, changes its contents in memory. */
    method SetData(i: nat, ghost b: nat, data: Block)
      requires Sound() && Holds(buf, st, i, b) && st.refs[b] > 0
      modifies this`buf, this`st
      ensures Sound() && (old(Valid()) ==> Valid())
      ensures buf == old(buf)[i := old(buf)[i].(data := data)]
      ensures st == old(st).(view := old(st).view[b := data])
    {
      hide ListValid;
      ChangeKeepsCoherent(buf, st, i, st.refs[b], data, disk[b]);
      assert disk[b := disk[b]] == disk && st.refs[b := st.refs[b]] == st.refs;
      buf := buf[i := buf[i].(data := data)];
      st := st.(view := st.view[b := data]);
    }

    /** Write the buffer through to its block. */
    method Bwrite(i: nat, ghost b: nat)
      requires Sound() && Holds(buf, st, i, b)
      modifies this`disk, this`st
      ensures Sound() && (old(Valid()) ==> Valid())
      ensures st == old(st).(disk := old(st).disk[b := old(st).view[b]],
                  writes := old(st).writes + [Write(b, old(st).view[b])])
    {
      hide ListValid;
      ChangeKeepsCoherent(buf, st, i, st.refs[b], buf[i].data, buf[i].data);
      assert st.view[b := st.view[b]] == st.view && st.refs[b := st.refs[b]] == st.refs;
      assert buf[i := buf[i].(refcnt := st.refs[b], data := buf[i].data)] == buf;
      var st1 := st.(disk := st.disk[b := st.view[b]]);
      assert Coherent(buf, st1);
      assert Coherent(buf, st1.(writes := st.writes + [Write(b, st.view[b])]));
      disk := disk[buf[i].blockno := buf[i].data];
      st := st.(disk := st.disk[b := st.view[b]], writes := st.writes + [Write(b, st.view[b])]);
    }

    method Bpin(i: nat, ghost b: nat)
      requires Sound() && Holds(buf, st, i, b)
      modifies this`buf, this`st
      ensures Sound() && (old(Valid()) ==> Valid()) && Holds(buf, st, i, b)
      ensures st == AddRefs(old(st), b, 1)
    {
      hide ListValid;
      ChangeKeepsCoherent(buf, st, i, st.refs[b] + 1, st.view[b], disk[b]);
      assert st.view[b := st.view[b]] == st.view && disk[b := disk[b]] == disk;
      buf := buf[i := buf[i].(refcnt := buf[i].refcnt + 1)];
      st := AddRefs(st, b, 1);
    }

    /** Drop a reference. If it was the last one to a block that differs from the disk, the
        block is no longer safe from recycling. */
    method Bunpin(i: nat, ghost b: nat)
      requires Sound() && Holds(buf, st, i, b) && st.refs[b] > 0
      modifies this`buf, this`st
      ensures Sound()
      ensures old(Valid()) ==> (Valid() <==> st.refs[b] > 0 || st.view[b] == st.disk[b])
      ensures buf == old(buf)[i := old(buf)[i].(refcnt := old(buf)[i].refcnt - 1)]
      ensures st == AddRefs(old(st), b, -1) && Holds(buf, st, i, b)
    {
      hide ListValid;
      ChangeKeepsCoherent(buf, st, i, st.refs[b] - 1, st.view[b], disk[b]);
      assert st.view[b := st.view[b]] == st.view && disk[b := disk[b]] == disk;
      buf := buf[i := buf[i].(refcnt := buf[i].refcnt - 1)];
      st := AddRefs(st, b, -1);
    }

    /** Unlink node i and insert it after HEAD. */
    method MoveToFront(i: nat)
      requires ListValid() && i < NBUF
      modifies this`next, this`prev, this`order, this`uses
      ensures ListValid()
      ensures exists k :: 0 <= k < |old(order)| && old(order)[k] == i && order == [i] + Without(old(order), k)
      ensures uses == old(uses) + [i]
    {
      hide LastUse, LatestFirst;
      assert i in order;
      ghost var k :| 0 <= k < NBUF && order[k] == i;
      MovedToFront(order, k);
      UsedGoesFirst(order, uses, k);
      UnlinkKeepsRest(next, prev, order, k);
      prev := prev[next[i] := prev[i]];
      next := next[prev[i] := next[i]];
      order := Without(order, k);
      InsertGoesFirst(next, prev, order, i);
      next := next[i := next[HEAD]];
      prev := prev[i := HEAD];
      prev := prev[next[HEAD] := i];
      next := next[HEAD := i];
      order := [i] + order;
      uses := uses + [i];
    }

    /** Release a held buffer; when nobody is left it becomes the most recently used. */
    method Brelse(i: nat, ghost b: nat)
      requires Sound() && Holds(buf, st, i, b) && st.refs[b] > 0
      modifies this`buf, this`st, this`next, this`prev, this`order, this`uses
      ensures Sound()
      ensures old(Valid()) ==> (Valid() <==> st.refs[b] > 0 || st.view[b] == st.disk[b])
      ensures st == AddRefs(old(st), b, -1)
      ensures buf == old(buf)[i := old(buf)[i].(refcnt := old(buf)[i].refcnt - 1)]
      ensures st.refs[b] > 0 ==> order == old(order)
      ensures uses == if st.refs[b] > 0 then old(uses) else old(uses) + [i]
      ensures st.refs[b] == 0 ==>
                exists k :: 0 <= k < |old(order)| && old(order)[k] == i && order == [i] + Without(old(order), k)
    {
      Bunpin(i, b);
      if buf[i].refcnt == 0 {
        MoveToFront(i);
      }
    }
  }
}
