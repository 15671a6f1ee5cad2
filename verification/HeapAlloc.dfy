/** Handing out and obtaining blocks: the two ways malloc takes a block from the free list,
    and the block that morecore gets from sbrk. */
module HeapAlloc {
  import opened HeapSpec

  /** A free block of the right size leaves the list. */
  function TakeAll(h: Heap, j: nat): Heap
    requires 1 <= j < |h.list| && h.list[j] in h.mem && h.list[j - 1] in h.mem
  {
    var p, prev := h.list[j], h.list[j - 1];
    h.(mem := h.mem[prev := Hdr(h.mem[p].ptr, Size(h, prev))], list := DropNode(h.list, j),
          live := h.live[p := Size(h, p)])
  }

  /** A larger free block gives its last n units. */
  function TakeTail(h: Heap, j: nat, n: nat): Heap
    requires j < |h.list| && h.list[j] in h.mem && n < Size(h, h.list[j])
  {
    var p := h.list[j];
    var q := p + (Size(h, p) - n);
    var ptr := if q in h.mem then h.mem[q].ptr else 0;
    h.(mem := h.mem[p := Hdr(h.mem[p].ptr, Size(h, p) - n)][q := Hdr(ptr, n)], live := h.live[q := n])
  }

  /** sbrk extends the heap by a block of n units, which is live until it is freed. */
  function Grow(h: Heap, n: nat): Heap {
    var ptr := if h.brk in h.mem then h.mem[h.brk].ptr else 0;
    h.(mem := h.mem[h.brk := Hdr(ptr, n)], live := h.live[h.brk := n], brk := h.brk + n)
  }

  /** Nothing live overlaps a free block. */
  lemma {:induction false} FreeIsApart(h: Heap, j: nat, a: nat)
    requires Inv(h) && 1 <= j < |h.list| && a in h.live
    ensures a + h.live[a] <= h.list[j] || h.list[j] + Size(h, h.list[j]) <= a
    ensures a != h.list[j]
  {
    hide Ring, Partition, Gaps;
    LiveIsApart(h, a, j);
  }

  // ---- The whole block ---------------------------------------------------------------------------

  lemma {:induction false} TakeAllSizes(h: Heap, j: nat, a: nat)
    requires 1 <= j < |h.list| && h.list[j] in h.mem && h.list[j - 1] in h.mem
    ensures Size(TakeAll(h, j), a) == Size(h, a)
    ensures var t := TakeAll(h, j);
            t.list == DropNode(h.list, j) && t.start == h.start && t.brk == h.brk
            && t.live == h.live[h.list[j] := Size(h, h.list[j])]
  {
  }

  lemma {:induction false} TakeAllGaps(h: Heap, j: nat)
    requires Gaps(h, {}) && 1 <= j < |h.list| && h.list[j] in h.mem && h.list[j - 1] in h.mem
    ensures Gaps(TakeAll(h, j), {})
  {
    hide TakeAll, DropNode;
    var t := TakeAll(h, j);
    TakeAllSizes(h, j, BASE);
    LengthDrop(h.list, j);
    forall x: nat, y: nat | x < y < |t.list| ensures t.list[x] + Size(t, t.list[x]) < t.list[y] {
      DroppedAt(h.list, j, x);
      DroppedAt(h.list, j, y);
      TakeAllSizes(h, j, t.list[x]);
      GapAt(h, if x < j then x else x + 1, if y < j then y else y + 1);
    }
    forall x: nat | 1 <= x < |t.list|
      ensures Size(t, t.list[x]) > 0 && t.start <= t.list[x]
              && t.list[x] + Size(t, t.list[x]) <= t.brk
    {
      DroppedAt(h.list, j, x);
      TakeAllSizes(h, j, t.list[x]);
    }
  }

  lemma {:induction false} TakeAllFree(h: Heap, j: nat, u: nat)
    requires Gaps(h, {}) && 1 <= j < |h.list| && h.list[j] in h.mem && h.list[j - 1] in h.mem
    ensures InFree(TakeAll(h, j), u) <==> InFree(h, u) && !(h.list[j] <= u < h.list[j] + Size(h, h.list[j]))
  {
    hide TakeAll, DropNode, Gaps, Size;
    var t := TakeAll(h, j);
    TakeAllSizes(h, j, BASE);
    LengthDrop(h.list, j);
    if InFree(t, u) {
      var x: nat :| 1 <= x < |t.list| && t.list[x] <= u < t.list[x] + Size(t, t.list[x]);
      DroppedAt(h.list, j, x);
      TakeAllSizes(h, j, t.list[x]);
      var m := if x < j then x else x + 1;
      assert h.list[m] <= u < h.list[m] + Size(h, h.list[m]);
      if m < j { GapAt(h, m, j); } else { GapAt(h, j, m); }
    }
    if InFree(h, u) && !(h.list[j] <= u < h.list[j] + Size(h, h.list[j])) {
      var m: nat :| 1 <= m < |h.list| && h.list[m] <= u < h.list[m] + Size(h, h.list[m]);
      var x := if m < j then m else m - 1;
      DroppedAt(h.list, j, x);
      TakeAllSizes(h, j, t.list[x]);
      assert t.list[x] <= u < t.list[x] + Size(t, t.list[x]);
    }
  }

  lemma {:induction false} MoreLive(h: Heap, t: Heap, b: nat, n: nat, u: nat)
    requires t.live == h.live[b := n] && b !in h.live
    ensures InLive(t, u) <==> InLive(h, u) || b <= u < b + n
  {
    if InLive(h, u) {
      var a :| a in h.live && a <= u < a + h.live[a];
      assert a in t.live && a <= u < a + t.live[a];
    }
    assert b in t.live;
  }

  /** One more live block, apart from the others. */
  lemma {:induction false} AddLive(h: Heap, t: Heap, b: nat, n: nat)
    requires Lives(h) && b !in h.live && t.live == h.live[b := n] && t.start == h.start && t.brk >= h.brk
    requires n > 0 && Size(t, b) == n && h.start <= b && b + n <= t.brk
    requires forall a :: a in h.live ==> Size(t, a) == Size(h, a) && (a + h.live[a] <= b || b + n <= a)
    ensures Lives(t)
  {
    hide Size;
  }

  /** The units of block b go from the free list to a live block. */
  lemma {:induction false} MoveUnits(h: Heap, t: Heap, b: nat, n: nat)
    requires Partition(h) && b !in h.live && t.live == h.live[b := n] && t.start == h.start && t.brk == h.brk
    requires forall u: nat :: b <= u < b + n ==> InFree(h, u)
    requires forall u: nat :: InFree(t, u) <==> InFree(h, u) && !(b <= u < b + n)
    ensures Partition(t)
  {
    hide InFree, InLive;
    forall u: nat | t.start <= u < t.brk ensures InFree(t, u) <==> !InLive(t, u) {
      MoreLive(h, t, b, n, u);
    }
  }

  lemma {:induction false} TakeAllInv(h: Heap, j: nat)
    requires Inv(h) && 1 <= j < |h.list|
    ensures h.list[j] in h.mem && h.list[j - 1] in h.mem && Inv(TakeAll(h, j)) && h.list[j] !in h.live
  {
    hide Gaps, InFree, DropNode, Distinct, Lives, Partition, Ring, Size;
    RingAt(h.mem, h.list, j);
    RingAt(h.mem, h.list, j - 1);
    InvDistinct(h, {});
    RingDrop(h.mem, h.list, j - 1, Size(h, h.list[j - 1]));
    TakeAllGaps(h, j);
    var t, p, n := TakeAll(h, j), h.list[j], Size(h, h.list[j]);
    forall a | a in h.live ensures Size(t, a) == Size(h, a) && a != p && (a + h.live[a] <= p || p + n <= a) {
      FreeIsApart(h, j, a);
      TakeAllSizes(h, j, a);
    }
    TakeAllSizes(h, j, p);
    NodeBounds(h, j);
    forall u: nat ensures (InFree(t, u) <==> InFree(h, u) && !(p <= u < p + n)) && (p <= u < p + n ==> InFree(h, u)) {
      TakeAllFree(h, j, u);
      NodeIsFree(h, j, u);
    }
    MoveUnits(h, t, p, n);
    AddLive(h, t, p, n);
  }

  lemma NodeBounds(h: Heap, j: nat)
    requires Gaps(h, {}) && 1 <= j < |h.list|
    ensures Size(h, h.list[j]) > 0 && h.start <= h.list[j] && h.list[j] + Size(h, h.list[j]) <= h.brk && h.start > BASE
  {
  }

  lemma NodeIsFree(h: Heap, j: nat, u: nat)
    requires 1 <= j < |h.list|
    ensures h.list[j] <= u < h.list[j] + Size(h, h.list[j]) ==> InFree(h, u)
  {
  }

  // ---- The tail of a block ------------------------------------------------------------------------

  lemma {:induction false} TakeTailSizes(h: Heap, j: nat, n: nat, a: nat)
    requires j < |h.list| && h.list[j] in h.mem && 0 < n < Size(h, h.list[j])
    ensures var t, p := TakeTail(h, j, n), h.list[j]; var q := p + (Size(h, p) - n);
            && Size(t, a) == (if a == p then Size(h, p) - n else if a == q then n else Size(h, a))
            && t.list == h.list && t.start == h.start && t.brk == h.brk && t.live == h.live[q := n]
  {
  }

  /** No other node lies inside a block. */
  lemma {:induction false} NotInside(h: Heap, j: nat, x: nat, q: nat)
    requires Gaps(h, {}) && 1 <= j < |h.list| && x < |h.list| && h.list[j] < q < h.list[j] + Size(h, h.list[j])
    ensures h.list[x] != q && (x != j ==> h.list[x] != h.list[j])
  {
    if x < j { GapAt(h, x, j); } else if j < x { GapAt(h, j, x); }
  }

  lemma {:induction false} TakeTailGaps(h: Heap, j: nat, n: nat)
    requires Gaps(h, {}) && 1 <= j < |h.list| && h.list[j] in h.mem && 0 < n < Size(h, h.list[j]) && h.list[0] == BASE
    ensures Gaps(TakeTail(h, j, n), {})
  {
    hide TakeTail;
    var t, p := TakeTail(h, j, n), h.list[j];
    var q := p + (Size(h, p) - n);
    TakeTailSizes(h, j, n, BASE);
    NotInside(h, j, 0, q);
    forall x: nat, y: nat | x < y < |t.list| ensures t.list[x] + Size(t, t.list[x]) < t.list[y] {
      TakeTailSizes(h, j, n, h.list[x]);
      NotInside(h, j, x, q);
      GapAt(h, x, y);
    }
    forall x: nat | 1 <= x < |t.list|
      ensures Size(t, t.list[x]) > 0 && t.start <= t.list[x]
              && t.list[x] + Size(t, t.list[x]) <= t.brk
    {
      TakeTailSizes(h, j, n, h.list[x]);
      NotInside(h, j, x, q);
    }
  }

  lemma {:induction false} TakeTailFree(h: Heap, j: nat, n: nat, u: nat)
    requires Gaps(h, {}) && 1 <= j < |h.list| && h.list[j] in h.mem && 0 < n < Size(h, h.list[j])
    ensures var e := h.list[j] + Size(h, h.list[j]); InFree(TakeTail(h, j, n), u) <==> InFree(h, u) && !(e - n <= u < e)
  {
    hide TakeTail, Gaps, Size;
    var t, p := TakeTail(h, j, n), h.list[j];
    var q := p + (Size(h, p) - n);
    TakeTailSizes(h, j, n, p);
    if InFree(t, u) {
      var x: nat :| 1 <= x < |t.list| && t.list[x] <= u < t.list[x] + Size(t, t.list[x]);
      TakeTailSizes(h, j, n, h.list[x]);
      NotInside(h, j, x, q);
      if x < j { GapAt(h, x, j); } else if j < x { GapAt(h, j, x); }
      assert h.list[x] <= u < h.list[x] + Size(h, h.list[x]);
    }
    if InFree(h, u) && !(q <= u < q + n) {
      var x: nat :| 1 <= x < |h.list| && h.list[x] <= u < h.list[x] + Size(h, h.list[x]);
      TakeTailSizes(h, j, n, h.list[x]);
      NotInside(h, j, x, q);
      assert t.list[x] <= u < t.list[x] + Size(t, t.list[x]);
    }
  }

  lemma {:induction false} TakeTailRing(h: Heap, j: nat, n: nat, x: nat)
    requires Ring(h.mem, h.list) && Gaps(h, {}) && 1 <= j < |h.list| && x < |h.list| && h.list[j] in h.mem
             && 0 < n < Size(h, h.list[j])
    ensures var t := TakeTail(h, j, n); t.list[x] in t.mem && t.mem[t.list[x]].ptr == t.list[Nxt(|t.list|, x)]
  {
    hide Gaps, Ring;
    RingAt(h.mem, h.list, x);
    NotInside(h, j, x, h.list[j] + (Size(h, h.list[j]) - n));
  }

  lemma {:induction false} TakeTailInv(h: Heap, j: nat, n: nat)
    requires Inv(h) && 1 <= j < |h.list| && 0 < n < Size(h, h.list[j])
    ensures h.list[j] in h.mem && Inv(TakeTail(h, j, n)) && h.list[j] + (Size(h, h.list[j]) - n) !in h.live
  {
    hide Gaps, InFree, Lives, Partition, Size, TakeTail;
    RingAt(h.mem, h.list, j);
    TakeTailGaps(h, j, n);
    var t, p := TakeTail(h, j, n), h.list[j];
    var q := p + (Size(h, p) - n);
    TakeTailSizes(h, j, n, q);
    forall x: nat | x < |t.list| ensures t.list[x] in t.mem && t.mem[t.list[x]].ptr == t.list[Nxt(|t.list|, x)] {
      TakeTailRing(h, j, n, x);
    }
    forall a | a in h.live ensures Size(t, a) == Size(h, a) && a != q && (a + h.live[a] <= q || q + n <= a) {
      FreeIsApart(h, j, a);
      TakeTailSizes(h, j, n, a);
      LiveSize(h, a);
    }
    NodeBounds(h, j);
    forall u: nat ensures (InFree(t, u) <==> InFree(h, u) && !(q <= u < q + n)) && (q <= u < q + n ==> InFree(h, u)) {
      TakeTailFree(h, j, n, u);
      NodeIsFree(h, j, u);
    }
    MoveUnits(h, t, q, n);
    AddLive(h, t, q, n);
  }

  // ---- More memory --------------------------------------------------------------------------------

  lemma {:induction false} GrowInv(h: Heap, n: nat)
    requires Inv(h) && n > 0
    ensures Inv(Grow(h, n)) && h.brk !in h.live
  {
    hide Partition, InFree, InLive, Lives, Gaps, Ring;
    AboveAll(h);
    GrowRing(h, n);
    HasBase(h);
    GrowGaps(h, n);
    GrowUnits(h, n);
    AddLive(h, Grow(h, n), h.brk, n);
  }

  lemma {:induction false} AboveAll(h: Heap)
    requires Inv(h)
    ensures h.brk !in h.live && h.start <= h.brk && forall i: nat :: i < |h.list| ==> h.list[i] < h.brk
    ensures forall a :: a in h.live ==> a + h.live[a] <= h.brk
  {
    hide Partition, Gaps, Ring, Lives;
    Bounds(h);
    forall i: nat | i < |h.list| ensures h.list[i] < h.brk {
      if i == 0 { RingAt(h.mem, h.list, 0); } else { NodeBounds(h, i); }
    }
    forall a | a in h.live ensures a + h.live[a] <= h.brk && a != h.brk {
      LiveSize(h, a);
      LiveBounds(h, a);
    }
  }

  lemma HasBase(h: Heap)
    requires Ring(h.mem, h.list)
    ensures |h.list| >= 1 && h.list[0] == BASE
  {
  }

  lemma Bounds(h: Heap)
    requires Gaps(h, {})
    ensures BASE < h.start <= h.brk
  {
  }

  lemma LiveBounds(h: Heap, a: nat)
    requires Lives(h) && a in h.live
    ensures h.start <= a && a + h.live[a] <= h.brk
  {
  }

  lemma {:induction false} GrowRing(h: Heap, n: nat)
    requires Ring(h.mem, h.list) && forall i: nat :: i < |h.list| ==> h.list[i] < h.brk
    ensures Ring(Grow(h, n).mem, h.list)
  {
  }

  lemma {:induction false} GrowGaps(h: Heap, n: nat)
    requires |h.list| >= 1 && h.list[0] == BASE && Gaps(h, {}) && forall i: nat :: i < |h.list| ==> h.list[i] < h.brk
    ensures Gaps(Grow(h, n), {})
  {
    assert forall i: nat :: i < |h.list| ==> Size(Grow(h, n), h.list[i]) == Size(h, h.list[i]);
  }

  lemma {:induction false} GrowUnits(h: Heap, n: nat)
    requires Inv(h) && n > 0 && h.brk !in h.live && forall i: nat :: i < |h.list| ==> h.list[i] != h.brk
    ensures Partition(Grow(h, n))
  {
    hide Ring;
    var t := Grow(h, n);
    forall u: nat | t.start <= u < t.brk ensures InFree(t, u) <==> !InLive(t, u) {
      MoreLive(h, t, h.brk, n, u);
      assert InFree(t, u) == InFree(h, u);
      assert u >= h.brk ==> !InFree(h, u);
    }
  }
}
