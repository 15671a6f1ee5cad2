/** malloc, free and morecore of user/umalloc.c as they run. */
module Umalloc {
  import opened HeapSpec
  import opened HeapAlloc

  const MINUNITS: nat := 4096
  const HEADER: nat := 16  // bytes in a unit

  /** Units for nbytes: the payload rounded up, and a header. */
  function Units(nbytes: nat): (u: nat)
    ensures u > 0 && nbytes <= HEADER * (u - 1) < nbytes + HEADER
  {
    (nbytes + HEADER - 1) / HEADER + 1
  }

  function AtLeast(nu: nat): (n: nat)
    ensures nu <= n && MINUNITS <= n && (n == nu || n == MINUNITS)
  {
    if nu < MINUNITS then MINUNITS else nu
  }

  /** What sbrk's int parameter gets when morecore passes nu * sizeof(Header). */
  function SbrkArg(nu: nat): int {
    var low := nu * HEADER % 0x1_0000_0000;
    if low < 0x8000_0000 then low else low - 0x1_0000_0000
  }

  /** sbrk, in units: a request to shrink by more than there is wraps around in growproc
      and leaves the break where it is. */
  function BreakAfter(brk: nat, nu: nat): nat {
    var moved := brk + SbrkArg(nu) / HEADER;
    if moved < 0 then brk else moved
  }

  predicate Refused(brk: nat, nu: nat, limit: nat) {
    BreakAfter(brk, nu) > brk && BreakAfter(brk, nu) > limit
  }

  /** The size reaches sbrk unharmed, and the break moves by it, exactly below 2^27 units. */
  lemma {:induction false} SbrkArgFits(brk: nat, nu: nat)
    ensures SbrkArg(nu) == nu * HEADER <==> nu < 0x800_0000
    ensures nu > 0 ==> (BreakAfter(brk, nu) == brk + nu <==> nu < 0x800_0000)
    ensures nu > 0 ==> BreakAfter(brk, nu) <= brk + nu
  {
    var low := nu * HEADER % 0x1_0000_0000;
    assert low <= nu * HEADER;
    assert SbrkArg(nu) / HEADER * HEADER == SbrkArg(nu);
  }

  /** morecore, as it grows the heap: the block at the old break gets size nu, the break
      goes where sbrk puts it. The heap stays well formed exactly below 2^27 units. */
  lemma {:induction false} GrowKeepsInvIff(h: Heap, nu: nat)
    requires Inv(h) && nu > 0
    ensures Inv(Grow(h, nu).(brk := BreakAfter(h.brk, nu))) <==> nu < 0x800_0000
  {
    hide BreakAfter, Inv;
    GrowInv(h, nu);
    SbrkArgFits(h.brk, nu);
    var t := Grow(h, nu).(brk := BreakAfter(h.brk, nu));
    if nu < 0x800_0000 {
      assert t == Grow(h, nu);
    } else if Inv(t) {
      LiveEnds(t, h.brk);
      assert false;
    }
  }

  lemma {:induction false} LiveEnds(h: Heap, a: nat)
    requires Inv(h) && a in h.live
    ensures a + h.live[a] <= h.brk
  {
  }

  /** malloc(0xFFFFFFFF) wants 2^28 + 1 units, and sbrk is asked for one. */
  lemma {:induction false} LargestRequest(brk: nat)
    ensures AtLeast(Units(0xFFFF_FFFF)) == 0x1000_0001 && SbrkArg(0x1000_0001) == HEADER
    ensures BreakAfter(brk, 0x1000_0001) == brk + 1
  {
    assert 0x1000_0001 * HEADER % 0x1_0000_0000 == HEADER;
  }

  /** The bytes that malloc hands out for a block of units a..a+n. */
  ghost predicate InPayload(x: nat, a: nat, n: nat) {
    HEADER * (a + 1) <= x < HEADER * (a + n)
  }

  /** Whoever writes to the bytes of a live block touches no header, no free block and no
      other block. */
  lemma {:induction false} PayloadIsApart(h: Heap, a: nat, x: nat)
    requires Inv(h) && a in h.live && InPayload(x, a, h.live[a])
    ensures h.start <= x / HEADER < h.brk && !InFree(h, x / HEADER)
    ensures forall b :: b in h.live && b != a ==> x / HEADER != b && !InPayload(x, b, h.live[b])
    ensures forall i :: 0 <= i < |h.list| ==> h.list[i] != x / HEADER
  {
    hide Ring, InFree, InPayload, Size;
    var u := x / HEADER;
    PayloadUnits(x, a, h.live[a]);
    assert InLive(h, u);
    forall b | b in h.live && b != a ensures u != b && !InPayload(x, b, h.live[b]) {
      PayloadUnits(x, b, h.live[b]);
    }
    NodesAreFree(h, u);
  }

  lemma PayloadUnits(x: nat, a: nat, n: nat)
    ensures InPayload(x, a, n) <==> a < x / HEADER < a + n
  {
  }

  lemma {:induction false} NodesAreFree(h: Heap, u: nat)
    requires Inv(h) && h.start <= u && !InFree(h, u)
    ensures forall i :: 0 <= i < |h.list| ==> h.list[i] != u
  {
    hide Inv, InFree;
    forall i | 0 <= i < |h.list| ensures h.list[i] != u {
      FreeNode(h, i);
    }
  }

  lemma {:induction false} FreeNode(h: Heap, i: nat)
    requires Inv(h) && i < |h.list|
    ensures h.list[i] < h.start || InFree(h, h.list[i])
  {
    hide Gaps, Lives, Partition, Size;
    if i > 0 {
      NodeBounds(h, i);
    } else {
      AboveBase(h);
    }
  }

  lemma AboveBase(h: Heap)
    requires Gaps(h, {})
    ensures h.start > BASE
  {
  }

  class Allocator {
    var mem: map<nat, Hdr>
    var freep: nat
    var brk: nat
    const start: nat
    const limit: nat
    ghost var list: seq<nat>
    ghost var live: map<nat, nat>
    ghost var top: nat  // where the blocks end

    ghost function St(): Heap
      reads this
    {
      Heap(mem, list, live, start, top)
    }

    /** The blocks end where the memory ends that sbrk has given. */
    ghost predicate Backed()
      reads this
    {
      top == brk
    }

    /** After the first malloc: freep is a node of a well-formed list. */
    ghost predicate Ready()
      reads this
    {
      Inv(St()) && freep in list
    }

    ghost predicate Valid()
      reads this
    {
      if freep == 0 then live == map[] && start == top && start > BASE && list == [BASE] && BASE !in mem else Ready()
    }

    constructor (start: nat, limit: nat)
      requires start > BASE
      ensures Valid() && Backed() && live == map[] && brk == start && this.start == start && this.limit == limit
    {
      this.start, this.limit, brk, freep, mem := start, limit, start, 0, map[];
      list, live, top := [BASE], map[], start;
    }

    /** The search of free: stops at the node after which b belongs. */
    method FindPlace(b: nat) returns (p: nat, ghost i: nat)
      requires Ready() && b in live
      ensures i < |list| && p == list[i] && At(St(), i, b)
    {
      hide Inv, InvBut, At, Nxt;
      ghost var h := St();
      ghost var k := Place(h, b, |list|);
      PlaceIsAt(h, b);
      i := Index(list, freep);
      p := freep;
      NodeIn(h, i);
      while !(b > p && b < mem[p].ptr)
        invariant i < |list| && p == list[i] && p in mem && k < |list| && At(h, k, b)
        decreases Steps(|list|, i, k)
      {
        Looking(h, b, i, k);
        if p >= mem[p].ptr && (b > p || b < mem[p].ptr) {
          break;
        }
        p := mem[p].ptr;
        i := Nxt(|list|, i);
        NodeIn(h, i);
      }
      Looking(h, b, i, k);
    }

    /** free: the block is no longer live, its units are free, and the list is again sorted
        and fully coalesced. Every other live block is as before. */
    method Free(ap: nat)
      requires Ready() && ap > 0 && ap - 1 in live
      modifies this`mem, this`freep, this`list, this`live
      ensures Ready() && live == Without(old(live), ap - 1)
      ensures HasAfter(St(), freep, old(live)[ap - 1])
    {
      hide Inv, InvBut, At, Nxt, HasAfter, Freed;
      ghost var h := St();
      var b := ap - 1;
      var p; ghost var i;
      p, i := FindPlace(b);
      FreedFields(h, i, b);
      FreedInv(h, i, b);
      var next := mem[p].ptr;
      if b + mem[b].size == next {
        mem := mem[b := Hdr(mem[next].ptr, mem[b].size + mem[next].size)];
      } else {
        mem := mem[b := Hdr(next, mem[b].size)];
      }
      if p + mem[p].size == b {
        mem := mem[p := Hdr(mem[b].ptr, mem[p].size + mem[b].size)];
      } else {
        mem := mem[p := Hdr(b, mem[p].size)];
      }
      freep := p;
      list, live := Freed(h, i, b).list, Freed(h, i, b).live;
    }

    /** morecore: a null result is sbrk's refusal; otherwise a block of at least nu units
        has been added at the old break, all of it free. There is memory behind that block
        exactly if it has fewer than 2^27 units. */
    method Morecore(nu: nat) returns (r: nat)
      requires Ready() && Backed() && 0 < nu
      modifies this
      ensures Ready() && live == old(live)
      ensures r == 0 <==> Refused(old(brk), AtLeast(nu), limit)
      ensures r == 0 ==> St() == old(St()) && brk == old(brk) && freep == old(freep)
      ensures r != 0 ==> r == freep && top == old(brk) + AtLeast(nu) && HasAfter(St(), freep, nu)
      ensures r != 0 ==> brk == BreakAfter(old(brk), AtLeast(nu))
      ensures Backed() <==> r == 0 || AtLeast(nu) < 0x800_0000
    {
      hide Inv, HasAfter, BreakAfter, SbrkArg;
      var n := AtLeast(nu);
      SbrkArgFits(brk, n);
      if Refused(brk, n, limit) { return 0; }
      ghost var h := St();
      GrowInv(h, n);
      var hp := brk;
      brk := BreakAfter(brk, n);
      mem := mem[hp := Hdr(if hp in mem then mem[hp].ptr else 0, n)];
      live := live[hp := n];
      top := hp + n;
      assert St() == Grow(h, n);
      Free(hp + 1);
      StillThere(old(live), hp, n);
      EnoughFor(St(), freep, n, nu);
      r := freep;
      NotNull(St(), r);
    }

    /** malloc's cut: all of free block p, or its last n units. */
    method Take(prevp: nat, p: nat, n: nat, ghost j: nat) returns (q: nat)
      requires Ready() && 1 <= j < |list| && list[j] == p && list[j - 1] == prevp && n > 0 && p in mem
               && mem[p].size >= n
      modifies this`mem, this`freep, this`list, this`live
      ensures Ready() && freep == prevp && q !in old(live) && live == old(live)[q := n]
    {
      hide Inv;
      ghost var h := St();
      q := p;
      NodeIn(h, j - 1);
      if mem[p].size == n {
        TakeAllInv(h, j);
        mem := mem[prevp := Hdr(mem[p].ptr, mem[prevp].size)];
        list, live := DropNode(list, j), live[p := n];
        assert St() == TakeAll(h, j);
        TakenPrev(h, j);
      } else {
        TakeTailInv(h, j, n);
        mem := mem[p := Hdr(mem[p].ptr, mem[p].size - n)];
        q := p + mem[p].size;
        mem := mem[q := Hdr(if q in mem then mem[q].ptr else 0, n)];
        live := live[q := n];
        assert St() == TakeTail(h, j, n);
        assert list[j - 1] == prevp;
      }
      freep := prevp;
    }

    /** malloc: null exactly if no free block is large enough and sbrk refuses; then nothing
        has changed. Otherwise one block of the right size is live that was not before.
        The heap then is all backed by memory, unless it had to grow by 2^27 units or more. */
    method Malloc(nbytes: nat) returns (r: nat)
      requires Valid() && Backed() && nbytes <= 0xFFFF_FFFF
      modifies this
      ensures Ready()
      ensures r == 0 <==> NoFit(old(St()), Units(nbytes)) && Refused(old(brk), AtLeast(Units(nbytes)), limit)
      ensures r == 0 ==> live == old(live) && brk == old(brk)
      ensures r != 0 ==> r - 1 !in old(live) && live == old(live)[r - 1 := Units(nbytes)]
      ensures r != 0 ==> nbytes <= HEADER * (live[r - 1] - 1) < nbytes + HEADER
      ensures r != 0 ==>
              brk == if NoFit(old(St()), Units(nbytes)) then BreakAfter(old(brk), AtLeast(Units(nbytes))) else old(brk)
      ensures Backed() <==> r == 0 || !NoFit(old(St()), Units(nbytes)) || Units(nbytes) < 0x800_0000
    {
      hide Inv, NoFit, Small, HasAfter, Units, BreakAfter;
      var n := Units(nbytes);
      ghost var h0 := St();
      if freep == 0 {
        mem := mem[BASE := Hdr(BASE, 0)];
        freep := BASE;
        FirstHeap(h0, St(), n);
      }
      ghost var h1 := St();
      ghost var f: nat := Index(list, freep);
      ghost var i: nat := f;
      ghost var grown := false;
      var prevp := freep;
      NodeIn(St(), i);
      NoneSeen(St(), f, n);
      var p := mem[prevp].ptr;
      while true
        invariant Ready() && live == old(live) && i < |list| && f < |list| && list[f] == freep && prevp == list[i]
                  && p == list[Nxt(|list|, i)]
        invariant prevp in mem && p in mem && mem[prevp].ptr == p
        invariant Small(St(), f, i, n)
        invariant !grown ==> St() == h1 && brk == old(brk)
        invariant grown ==>
                    NoFit(h1, n) && !Refused(old(brk), AtLeast(n), limit) && brk == BreakAfter(old(brk), AtLeast(n))
        invariant grown ==> HasAfter(St(), freep, n) && (Backed() <==> n < 0x800_0000)
        decreases if grown then 0 else 1, ToGo(|list|, f, i)
      {
        ghost var j := Nxt(|list|, i);
        NodeIn(St(), i);
        NodeIn(St(), j);
        if mem[p].size >= n {
          Fits(h1, St(), f, i, n, grown);
          p := Take(prevp, p, n, j);
          return p + 1;
        }
        if p == freep {
          NoneFits(St(), f, i, n, grown);
          p := Morecore(n);
          if p == 0 { return 0; }
          grown := true;
          f := Index(list, freep);
          i := f;
          NoneSeen(St(), f, n);
        } else {
          OneMoreSmall(St(), f, i, n);
          i := j;
        }
        NodeIn(St(), i);
        prevp := p;
        p := mem[p].ptr;
      }
    }
  }

  // ---- The search ------------------------------------------------------------------------------

  ghost function Index(list: seq<nat>, a: nat): (i: nat)
    requires a in list
    ensures i < |list| && list[i] == a
  {
    var i: nat :| i < |list| && list[i] == a;
    i
  }

  /** Steps round the ring from i to k. */
  function Steps(n: nat, i: nat, k: nat): int {
    if i <= k then k - i else k - i + n
  }

  /** The last of the first n nodes that lies below b. */
  ghost function Place(h: Heap, b: nat, n: nat): nat {
    if n <= 1 then 0 else if n <= |h.list| && h.list[n - 1] < b then n - 1 else Place(h, b, n - 1)
  }

  lemma {:induction false} PlaceBelow(h: Heap, b: nat, n: nat)
    requires Inv(h) && b in h.live && 1 <= n <= |h.list|
    ensures Place(h, b, n) < n && h.list[Place(h, b, n)] < b
    ensures Place(h, b, n) + 1 < n ==> b < h.list[Place(h, b, n) + 1]
    decreases n
  {
    hide Partition, Gaps, Lives, Ring;
    if n > 1 {
      PlaceBelow(h, b, n - 1);
      LiveIsApart(h, b, n - 1);
    } else {
      RingAt(h.mem, h.list, 0);
      Bounds(h);
      LiveBounds(h, b);
    }
  }

  lemma {:induction false} PlaceIsAt(h: Heap, b: nat)
    requires Inv(h) && b in h.live
    ensures Place(h, b, |h.list|) < |h.list| && At(h, Place(h, b, |h.list|), b)
  {
    hide Partition, Gaps, Lives, Ring, Place;
    HasBase(h);
    PlaceBelow(h, b, |h.list|);
  }

  lemma {:induction false} NodeIn(h: Heap, i: nat)
    requires Inv(h) && i < |h.list|
    ensures h.list[i] in h.mem && h.mem[h.list[i]].ptr == h.list[Nxt(|h.list|, i)] && Nxt(|h.list|, i) < |h.list|
            && h.list[Nxt(|h.list|, i)] in h.mem
  {
    hide Partition, Gaps, Lives;
    RingAt(h.mem, h.list, i);
    RingAt(h.mem, h.list, Nxt(|h.list|, i));
  }

  /** The loop's two tests together find exactly the place of b. */
  lemma {:induction false} Looking(h: Heap, b: nat, i: nat, k: nat)
    requires Inv(h) && b in h.live && i < |h.list| && k < |h.list| && At(h, k, b)
    ensures h.list[i] in h.mem && h.mem[h.list[i]].ptr == h.list[Nxt(|h.list|, i)] && Nxt(|h.list|, i) < |h.list|
            && h.list[Nxt(|h.list|, i)] in h.mem
    ensures var p := h.list[i]; var next := h.mem[p].ptr;
            (b > p && b < next) || (p >= next && (b > p || b < next)) <==> i == k
    ensures At(h, i, b) <==> i == k
    ensures i != k ==> 0 <= Steps(|h.list|, Nxt(|h.list|, i), k) < Steps(|h.list|, i, k)
  {
    hide Partition, Lives, Gaps, Ring, Size;
    NodeIn(h, i);
    RingAt(h.mem, h.list, 0);
    Bounds(h);
    LiveBounds(h, b);
    if i + 1 < |h.list| { GapAt(h, i, i + 1); }
    if 0 < i { GapAt(h, 0, i); }
    if i < k { GapAt(h, i, k); if i + 1 < k { GapAt(h, i + 1, k); } }
    if k < i { GapAt(h, k, i); if k + 1 < i { GapAt(h, k + 1, i); } }
  }

  // ---- free, on values --------------------------------------------------------------------------

  ghost predicate Linkable(h: Heap, i: nat) {
    i < |h.list| && h.list[i] in h.mem
  }

  /** Link the block in, then merge upwards, then downwards. */
  ghost function Freed(h: Heap, i: nat, b: nat): Heap {
    if !Linkable(h, i) then h
    else
      var h1 := Link(h, i, b);
      var h2 := if Mergeable(h1, i + 1) then Merge(h1, i + 1) else h1;
      if Mergeable(h2, i) then Merge(h2, i) else h2
  }

  ghost predicate Mergeable(h: Heap, i: nat) {
    i < |h.list| && h.list[i] in h.mem && (i + 1 < |h.list| ==> h.list[i + 1] in h.mem)
  }

  /** The node at freep, or the one after it, has at least n units. */
  ghost predicate HasAfter(h: Heap, p: nat, n: nat) {
    p in h.mem && (Size(h, p) >= n || Size(h, h.mem[p].ptr) >= n)
  }

  ghost function UpHeader(h: Heap, b: nat, next: nat): Hdr {
    if b + Size(h, b) == next
      && next in h.mem then Hdr(h.mem[next].ptr, Size(h, b) + Size(h, next)) else Hdr(next, Size(h, b))
  }

  ghost function DownHeader(h: Heap, p: nat, b: nat, up: Hdr): Hdr {
    if p + Size(h, p) == b then Hdr(up.ptr, Size(h, p) + up.size) else Hdr(b, Size(h, p))
  }

  /** What a block and its neighbours look like before it is freed. */
  lemma {:induction false} Neighbours(h: Heap, i: nat, b: nat)
    requires Inv(h) && b in h.live && At(h, i, b)
    ensures Linkable(h, i) && b in h.mem && b > BASE && Size(h, b) == h.live[b] > 0
    ensures var p := h.list[i]; var next := h.mem[p].ptr;
            p != b && next != b && next in h.mem && next == h.list[Nxt(|h.list|, i)]
              && (i + 1 == |h.list| ==> next == BASE) && (next == p ==> next == BASE)
  {
    hide Partition, Gaps;
    NodeIn(h, i);
    FitsAt(h, i, b, i);
    FitsAt(h, i, b, Nxt(|h.list|, i));
    RingAt(h.mem, h.list, 0);
    Bounds(h);
    LiveBounds(h, b);
    if i + 1 < |h.list| { GapAt(h, i, i + 1); }
  }

  lemma {:induction false} LinkUp(h: Heap, i: nat, b: nat)
    requires Inv(h) && b in h.live && At(h, i, b)
    ensures Linkable(h, i) && b in h.mem && Mergeable(Link(h, i, b), i + 1)
    ensures var h1, p := Link(h, i, b), h.list[i]; var h2 := Merge(h1, i + 1);
            && h2.mem == h.mem[b := UpHeader(h, b, h.mem[p].ptr)][p := Hdr(b, Size(h, p))]
            && |h2.list| > i + 1 && h2.list[i] == p && h2.list[i + 1] == b && h2.live == h1.live
  {
    hide Inv, InvBut, AddNode, DropNode, Nxt, At;
    Neighbours(h, i, b);
    LinkInv(h, i, b);
    var h1 := Link(h, i, b);
    LengthAdd(h.list, i, b);
    AddedAt(h.list, i, b, i);
    AddedAt(h.list, i, b, i + 1);
    NxtIs(|h.list|, i);
    MergeInv(h1, i + 1, {i, i + 1});
    if i + 1 < |h.list| {
      AddedAt(h.list, i, b, i + 2);
      LengthDrop(h1.list, i + 2);
      DroppedAt(h1.list, i + 2, i);
      DroppedAt(h1.list, i + 2, i + 1);
      Apart(h, i, b);
    }
  }

  lemma NxtIs(n: nat, i: nat)
    requires i < n
    ensures Nxt(n, i) == if i + 1 == n then 0 else i + 1
  {
  }

  lemma {:induction false} Apart(h: Heap, i: nat, b: nat)
    requires Inv(h) && b in h.live && At(h, i, b) && i + 1 < |h.list|
    ensures h.list[i + 1] != b && h.list[i + 1] != h.list[i]
  {
    hide Partition;
    GapAt(h, i, i + 1);
  }

  lemma {:induction false} FreedFields(h: Heap, i: nat, b: nat)
    requires Inv(h) && b in h.live && At(h, i, b)
    ensures Linkable(h, i) && b in h.mem && h.list[i] != b && h.mem[h.list[i]].ptr in h.mem && h.mem[h.list[i]].ptr != b
    ensures var p := h.list[i]; var up := UpHeader(h, b, h.mem[p].ptr);
            Freed(h, i, b).mem == h.mem[b := up][p := DownHeader(h, p, b, up)]
  {
    hide Inv, InvBut, AddNode, Link, Nxt, At;
    Neighbours(h, i, b);
    LinkUp(h, i, b);
    var h2, p := Merge(Link(h, i, b), i + 1), h.list[i];
    assert Mergeable(h2, i);
  }

  /** Freeing keeps the heap well formed and gives back exactly the block. */
  lemma {:induction false} FreedInv(h: Heap, i: nat, b: nat)
    requires Inv(h) && b in h.live && At(h, i, b)
    ensures var t := Freed(h, i, b);
            && Inv(t) && t.start == h.start && t.brk == h.brk && t.live == Without(h.live, b)
            && h.list[i] in t.list && HasAfter(t, h.list[i], h.live[b])
  {
    hide Inv, InvBut, AddNode, Nxt, At, Size;
    Neighbours(h, i, b);
    LinkInv(h, i, b);
    LinkUp(h, i, b);
    var h1, p := Link(h, i, b), h.list[i];
    MergeInv(h1, i + 1, {i, i + 1});
    assert {i, i + 1} - {i + 1} == {i};
    var h2 := Merge(h1, i + 1);
    MergeInv(h2, i, {i});
    assert {i} - {i} == {};
    IsInv(Merge(h2, i));
    FreedFields(h, i, b);
    FreedEnough(h, i, b);
    if Touch(h2, i) {
      LengthDrop(h2.list, i + 1);
      DroppedAt(h2.list, i + 1, i);
      assert p == Merge(h2, i).list[i];
    }
  }

  lemma IsInv(h: Heap)
    requires InvBut(h, {})
    ensures Inv(h)
  {
  }

  lemma {:induction false} FreedEnough(h: Heap, i: nat, b: nat)
    requires Linkable(h, i) && b in h.mem && h.list[i] != b && b in h.live && Size(h, b) == h.live[b]
    requires var p := h.list[i]; var up := UpHeader(h, b, h.mem[p].ptr);
             Freed(h, i, b).mem == h.mem[b := up][p := DownHeader(h, p, b, up)]
    ensures HasAfter(Freed(h, i, b), h.list[i], h.live[b])
  {
    hide Freed;
  }

  // ---- malloc, on values -------------------------------------------------------------------------

  /** No free block has n units. */
  ghost predicate NoFit(h: Heap, n: nat) {
    forall i: nat :: i < |h.list| ==> Size(h, h.list[i]) < n
  }

  /** Node x is passed on the way from node f, exclusive, to node i. */
  predicate Between(f: nat, i: nat, x: nat) {
    if f <= i then f < x <= i else x > f || x <= i
  }

  /** The nodes passed so far are too small. */
  ghost predicate Small(h: Heap, f: nat, i: nat, n: nat) {
    forall x: nat :: x < |h.list| && Between(f, i, x) ==> Size(h, h.list[x]) < n
  }

  /** Nodes left on the round that ends at node f. */
  function ToGo(n: nat, f: nat, i: nat): int {
    if i < f then f - 1 - i else f - 1 - i + n
  }

  lemma NoneSeen(h: Heap, f: nat, n: nat)
    ensures Small(h, f, f, n)
  {
  }

  lemma {:induction false} OneMoreSmall(h: Heap, f: nat, i: nat, n: nat)
    requires Inv(h) && f < |h.list| && i < |h.list| && Small(h, f, i, n)
    requires Nxt(|h.list|, i) < |h.list| && h.list[Nxt(|h.list|, i)] != h.list[f]
             && Size(h, h.list[Nxt(|h.list|, i)]) < n
    ensures Small(h, f, Nxt(|h.list|, i), n) && 0 <= ToGo(|h.list|, f, Nxt(|h.list|, i)) < ToGo(|h.list|, f, i)
  {
    hide Inv, Size;
  }

  lemma {:induction false} Fits(h1: Heap, h: Heap, f: nat, i: nat, n: nat, grown: bool)
    requires Inv(h) && i < |h.list| && Nxt(|h.list|, i) < |h.list| && n > 0 && Size(h, h.list[Nxt(|h.list|, i)]) >= n
             && (!grown ==> h == h1)
    ensures Nxt(|h.list|, i) == i + 1 && (!grown ==> !NoFit(h1, n))
  {
    hide Partition, Lives, Ring;
    RingAt(h.mem, h.list, 0);
  }

  /** Back at freep with nothing found: nothing fits, and there was no growth before. */
  lemma {:induction false} NoneFits(h: Heap, f: nat, i: nat, n: nat, grown: bool)
    requires Inv(h) && f < |h.list| && i < |h.list| && Small(h, f, i, n)
    requires Nxt(|h.list|, i) < |h.list| && h.list[Nxt(|h.list|, i)] == h.list[f] && Size(h, h.list[f]) < n
    requires grown ==> HasAfter(h, h.list[f], n)
    ensures !grown && NoFit(h, n)
  {
    hide Partition, Lives, Gaps, Ring, Size, Distinct;
    InvDistinct(h, {});
    SameNode(h.list, Nxt(|h.list|, i), f);
    NodeIn(h, f);
  }

  lemma {:induction false} TakenPrev(h: Heap, j: nat)
    requires 1 <= j < |h.list|
    ensures h.list[j - 1] in DropNode(h.list, j)
  {
    DroppedAt(h.list, j, j - 1);
  }

  lemma StillThere(live: map<nat, nat>, b: nat, n: nat)
    requires b !in live
    ensures Without(live[b := n], b) == live
  {
  }

  lemma EnoughFor(h: Heap, p: nat, n: nat, m: nat)
    requires HasAfter(h, p, n) && m <= n
    ensures HasAfter(h, p, m)
  {
  }

  lemma {:induction false} NotNull(h: Heap, r: nat)
    requires Inv(h) && r in h.list
    ensures r != 0
  {
    hide Partition, Lives, Gaps, Ring;
    var i: nat := Index(h.list, r);
    HasBase(h);
    if i > 0 { GapAt(h, 0, i); }
  }

  lemma {:induction false} FirstHeap(h0: Heap, h: Heap, n: nat)
    requires h0.live == map[] && h0.start == h0.brk && h0.start > BASE && h0.list == [BASE] && BASE !in h0.mem && n > 0
    requires h == h0.(mem := h0.mem[BASE := Hdr(BASE, 0)])
    ensures Inv(h) && BASE in h.list && NoFit(h0, n) && NoFit(h, n)
  {
  }
}
