/** The heap of user/umalloc.c in units of one header: a circular free list in address
    order, live blocks, and the claim that together they are exactly the heap. */
module HeapSpec {

  const BASE: nat := 1  // the static list head; address 0 is the null pointer

  datatype Hdr = Hdr(ptr: nat, size: nat)

  /** list are the addresses of the free list from base on; live maps the header of each
      block handed out to its size; the heap is start..brk. */
  datatype Heap = Heap(mem: map<nat, Hdr>, list: seq<nat>, live: map<nat, nat>, start: nat, brk: nat)

  function Size(h: Heap, a: nat): nat {
    if a in h.mem then h.mem[a].size else 0
  }

  /** The index after i on a ring of n nodes. */
  function Nxt(n: nat, i: nat): nat {
    if i + 1 == n then 0 else i + 1
  }

  /** The list runs through its nodes and back to base. */
  ghost predicate Ring(mem: map<nat, Hdr>, list: seq<nat>) {
    && |list| >= 1 && list[0] == BASE
    && forall i: nat :: i < |list| ==> list[i] in mem && mem[list[i]].ptr == list[Nxt(|list|, i)]
  }

  /** Nodes are in address order, and nodes k and k + 1 are adjacent at most for k in but. */
  ghost predicate Gaps(h: Heap, but: set<nat>) {
    && h.start > BASE && Size(h, BASE) == 0 && h.start <= h.brk
    && (forall i: nat, j: nat :: i < j < |h.list| ==>
          h.list[i] + Size(h, h.list[i]) <= h.list[j]
            && (h.list[i] + Size(h, h.list[i]) == h.list[j] ==> i in but && j == i + 1))
    && (forall i: nat :: 1 <= i < |h.list| ==>
            Size(h, h.list[i]) > 0 && h.start <= h.list[i] && h.list[i] + Size(h, h.list[i]) <= h.brk)
  }

  /** Live blocks lie in the heap and do not overlap. */
  ghost predicate Lives(h: Heap) {
    && (forall a :: a in h.live ==> h.live[a] > 0 && Size(h, a) == h.live[a] && h.start <= a && a + h.live[a] <= h.brk)
    && (forall a, b :: a in h.live && b in h.live && a != b ==> a + h.live[a] <= b || b + h.live[b] <= a)
  }

  ghost predicate InFree(h: Heap, u: nat) {
    exists i: nat :: 1 <= i < |h.list| && h.list[i] <= u < h.list[i] + Size(h, h.list[i])
  }

  ghost predicate InLive(h: Heap, u: nat) {
    exists a :: a in h.live && a <= u < a + h.live[a]
  }

  /** Every unit of the heap is free or live, and not both: none is lost or shared. */
  ghost predicate Partition(h: Heap) {
    forall u: nat :: h.start <= u < h.brk ==> (InFree(h, u) <==> !InLive(h, u))
  }

  ghost predicate InvBut(h: Heap, but: set<nat>) {
    Ring(h.mem, h.list) && Gaps(h, but) && Lives(h) && Partition(h)
  }

  /** In full: no two free blocks are adjacent. */
  ghost predicate Inv(h: Heap) {
    InvBut(h, {})
  }

  // ---- Freeing a block --------------------------------------------------------------------------

  /** Block b belongs right after node i. */
  ghost predicate At(h: Heap, i: nat, b: nat) {
    i < |h.list| && h.list[i] < b && (i + 1 < |h.list| ==> b < h.list[i + 1])
  }

  function AddNode(list: seq<nat>, i: nat, b: nat): seq<nat>
    requires i < |list|
  {
    list[..i + 1] + [b] + list[i + 1..]
  }

  function DropNode(list: seq<nat>, i: nat): seq<nat>
    requires i < |list|
  {
    list[..i] + list[i + 1..]
  }

  function Without(live: map<nat, nat>, b: nat): map<nat, nat> {
    map a | a in live && a != b :: live[a]
  }

  /** b becomes a node after node i. */
  function Link(h: Heap, i: nat, b: nat): Heap
    requires i < |h.list| && h.list[i] in h.mem
  {
    var p := h.list[i];
    h.(mem := h.mem[b := Hdr(h.mem[p].ptr, Size(h, b))][p := Hdr(b, Size(h, p))],
       list := AddNode(h.list, i, b), live := Without(h.live, b))
  }

  ghost predicate Touch(h: Heap, i: nat) {
    i + 1 < |h.list| && h.list[i] + Size(h, h.list[i]) == h.list[i + 1]
  }

  /** Node i takes in node i + 1 if it reaches up to it. */
  ghost function Merge(h: Heap, i: nat): Heap
    requires i < |h.list| && h.list[i] in h.mem && (i + 1 < |h.list| ==> h.list[i + 1] in h.mem)
  {
    if Touch(h, i) then
      var p, b := h.list[i], h.list[i + 1];
      h.(mem := h.mem[p := Hdr(h.mem[b].ptr, Size(h, p) + Size(h, b))], list := DropNode(h.list, i + 1))
    else h
  }

  /** A live block is not a node, and no node overlaps it. */
  lemma {:induction false} LiveIsApart(h: Heap, b: nat, j: nat)
    requires Inv(h) && b in h.live && j < |h.list|
    ensures h.list[j] + Size(h, h.list[j]) <= b || b + h.live[b] <= h.list[j]
    ensures h.list[j] != b
  {
    if j > 0 {
      var a := h.list[j];
      var u := if b < a then a else b;
      assert b <= u < b + h.live[b] ==> InLive(h, u);
      assert a <= u < a + Size(h, a) ==> InFree(h, u);
    }
  }

  /** Around its place, b fits between its neighbours. */
  lemma {:induction false} FitsAt(h: Heap, i: nat, b: nat, j: nat)
    requires Inv(h) && b in h.live && At(h, i, b) && j < |h.list|
    ensures h.list[j] != b
    ensures j <= i ==> h.list[j] + Size(h, h.list[j]) <= b && (j < i ==> h.list[j] + Size(h, h.list[j]) < b)
    ensures j > i ==> b + h.live[b] <= h.list[j] && (j > i + 1 ==> b + h.live[b] < h.list[j])
  {
    hide Ring, Partition;
    LiveIsApart(h, b, j);
    LiveIsApart(h, b, i);
    if j > i + 1 {
      LiveIsApart(h, b, i + 1);
      assert h.list[i + 1] + Size(h, h.list[i + 1]) <= h.list[j];
    }
  }

  // The ring alone.

  ghost predicate Distinct(list: seq<nat>) {
    forall i: nat, j: nat :: i < j < |list| ==> list[i] != list[j]
  }

  lemma {:induction false} AddedAt(list: seq<nat>, i: nat, b: nat, j: nat)
    requires i < |list| && j < |AddNode(list, i, b)|
    ensures |AddNode(list, i, b)| == |list| + 1
    ensures AddNode(list, i, b)[j] == if j <= i then list[j] else if j == i + 1 then b else list[j - 1]
  {
  }

  lemma {:induction false} DroppedAt(list: seq<nat>, i: nat, j: nat)
    requires i < |list| && j < |DropNode(list, i)|
    ensures |DropNode(list, i)| == |list| - 1
    ensures DropNode(list, i)[j] == if j < i then list[j] else list[j + 1]
  {
  }

  lemma {:induction false} RingAddAt(mem: map<nat, Hdr>, list: seq<nat>, i: nat, b: nat, n: nat, m: nat, j: nat)
    requires Ring(mem, list) && Distinct(list) && i < |list| && b !in list && j <= |list|
    ensures var t, l := mem[b := Hdr(mem[list[i]].ptr, n)][list[i] := Hdr(b, m)], AddNode(list, i, b);
            j < |l| && l[j] in t && t[l[j]].ptr == l[Nxt(|l|, j)]
  {
    hide AddNode, Ring, Distinct;
    LengthAdd(list, i, b);
    var l := AddNode(list, i, b);
    AddedAt(list, i, b, j);
    AddedAt(list, i, b, Nxt(|l|, j));
    var k := if j <= i then j else j - 1;
    RingAt(mem, list, k);
    RingAt(mem, list, i);
    if k < i { DifferAt(list, k, i); }
    if i < k { DifferAt(list, i, k); }
  }

  lemma LengthAdd(list: seq<nat>, i: nat, b: nat)
    requires i < |list|
    ensures |AddNode(list, i, b)| == |list| + 1
  {
  }

  lemma RingAt(mem: map<nat, Hdr>, list: seq<nat>, i: nat)
    requires Ring(mem, list) && i < |list|
    ensures list[i] in mem && mem[list[i]].ptr == list[Nxt(|list|, i)] && list[0] == BASE
  {
  }

  lemma DifferAt(list: seq<nat>, i: nat, j: nat)
    requires Distinct(list) && i < j < |list|
    ensures list[i] != list[j]
  {
  }

  lemma {:induction false} RingAdd(mem: map<nat, Hdr>, list: seq<nat>, i: nat, b: nat, n: nat, m: nat)
    requires Ring(mem, list) && Distinct(list) && i < |list| && b !in list
    ensures list[i] in mem && Ring(mem[b := Hdr(mem[list[i]].ptr, n)][list[i] := Hdr(b, m)], AddNode(list, i, b))
  {
    hide AddNode;
    RingAt(mem, list, i);
    LengthAdd(list, i, b);
    AddedAt(list, i, b, 0);
    var t, l := mem[b := Hdr(mem[list[i]].ptr, n)][list[i] := Hdr(b, m)], AddNode(list, i, b);
    forall j: nat | j < |l| ensures l[j] in t && t[l[j]].ptr == l[Nxt(|l|, j)] {
      RingAddAt(mem, list, i, b, n, m, j);
    }
  }

  lemma {:induction false} RingDropAt(mem: map<nat, Hdr>, list: seq<nat>, i: nat, n: nat, j: nat)
    requires Ring(mem, list) && Distinct(list) && i + 1 < |list| && j + 1 < |list|
    ensures var t, l := mem[list[i] := Hdr(mem[list[i + 1]].ptr, n)], DropNode(list, i + 1);
            j < |l| && l[j] in t && t[l[j]].ptr == l[Nxt(|l|, j)]
  {
    hide DropNode, Ring, Distinct;
    LengthDrop(list, i + 1);
    DroppedAt(list, i + 1, j);
    DroppedAt(list, i + 1, Nxt(|list| - 1, j));
    var k := if j <= i then j else j + 1;
    RingAt(mem, list, k);
    RingAt(mem, list, i + 1);
    if k < i { DifferAt(list, k, i); }
    if i < k { DifferAt(list, i, k); }
  }

  lemma LengthDrop(list: seq<nat>, i: nat)
    requires i < |list|
    ensures |DropNode(list, i)| == |list| - 1
  {
  }

  lemma {:induction false} RingDrop(mem: map<nat, Hdr>, list: seq<nat>, i: nat, n: nat)
    requires Ring(mem, list) && Distinct(list) && i + 1 < |list|
    ensures list[i + 1] in mem && Ring(mem[list[i] := Hdr(mem[list[i + 1]].ptr, n)], DropNode(list, i + 1))
  {
    hide DropNode;
    RingAt(mem, list, i + 1);
    LengthDrop(list, i + 1);
    DroppedAt(list, i + 1, 0);
    var t, l := mem[list[i] := Hdr(mem[list[i + 1]].ptr, n)], DropNode(list, i + 1);
    forall j: nat | j < |l| ensures l[j] in t && t[l[j]].ptr == l[Nxt(|l|, j)] {
      RingDropAt(mem, list, i, n, j);
    }
  }

  lemma {:induction false} NodesDiffer(h: Heap, but: set<nat>)
    requires Gaps(h, but) && (forall i: nat :: 1 <= i < |h.list| ==> h.list[i] > BASE)
             && (|h.list| > 0 ==> h.list[0] == BASE)
    ensures Distinct(h.list)
  {
    forall i: nat, j: nat | i < j < |h.list| ensures h.list[i] != h.list[j] {
      assert h.list[i] + Size(h, h.list[i]) <= h.list[j];
    }
  }

  // Linking a live block in.

  lemma {:induction false} LinkSizes(h: Heap, i: nat, b: nat, a: nat)
    requires i < |h.list| && h.list[i] in h.mem && b in h.mem && h.list[i] != b
    ensures Size(Link(h, i, b), a) == Size(h, a)
  {
  }

  /** Where node j of the longer list comes from: block b itself or an old node. */
  lemma {:induction false} LinkGap(h: Heap, i: nat, b: nat, x: nat, y: nat)
    requires Inv(h) && b in h.live && b in h.mem && At(h, i, b) && x < y <= |h.list|
    ensures h.list[i] in h.mem && |Link(h, i, b).list| == |h.list| + 1
    ensures var t := Link(h, i, b);
            t.list[x] + Size(t, t.list[x]) <= t.list[y]
              && (t.list[x] + Size(t, t.list[x]) == t.list[y] ==> (x == i || x == i + 1) && y == x + 1)
  {
    hide Ring, Partition, AddNode, Gaps, Lives, Size, Link;
    RingAt(h.mem, h.list, i);
    FitsAt(h, i, b, i);
    LengthAdd(h.list, i, b);
    AddedAt(h.list, i, b, x);
    AddedAt(h.list, i, b, y);
    LinkFields(h, i, b);
    LiveSize(h, b);
    var t := Link(h, i, b);
    LinkSizes(h, i, b, t.list[x]);
    if x == i + 1 {
      FitsAt(h, i, b, y - 1);
    } else if y == i + 1 {
      FitsAt(h, i, b, x);
    } else {
      var m, n := if x <= i then x else x - 1, if y <= i then y else y - 1;
      GapAt(h, m, n);
    }
  }

  lemma LiveSize(h: Heap, b: nat)
    requires Lives(h) && b in h.live
    ensures Size(h, b) == h.live[b] > 0
  {
  }

  lemma GapAt(h: Heap, m: nat, n: nat)
    requires Gaps(h, {}) && m < n < |h.list|
    ensures h.list[m] + Size(h, h.list[m]) < h.list[n]
  {
  }

  lemma {:induction false} LinkGaps(h: Heap, i: nat, b: nat)
    requires Inv(h) && b in h.live && b in h.mem && At(h, i, b)
    ensures h.list[i] in h.mem && Gaps(Link(h, i, b), {i, i + 1})
  {
    hide Ring, Partition, AddNode, Link;
    RingAt(h.mem, h.list, i);
    LengthAdd(h.list, i, b);
    var t := Link(h, i, b);
    LinkFields(h, i, b);
    FitsAt(h, i, b, i);
    LinkSizes(h, i, b, BASE);
    forall x: nat, y: nat | x < y < |t.list|
      ensures t.list[x] + Size(t, t.list[x]) <= t.list[y]
              && (t.list[x] + Size(t, t.list[x]) == t.list[y] ==> x in {i, i + 1} && y == x + 1)
    {
      LinkGap(h, i, b, x, y);
    }
    forall x: nat | 1 <= x < |t.list|
      ensures Size(t, t.list[x]) > 0 && t.start <= t.list[x]
              && t.list[x] + Size(t, t.list[x]) <= t.brk
    {
      AddedAt(h.list, i, b, x);
      LinkSizes(h, i, b, t.list[x]);
    }
  }

  lemma LinkFields(h: Heap, i: nat, b: nat)
    requires i < |h.list| && h.list[i] in h.mem
    ensures var t := Link(h, i, b); t.list == AddNode(h.list, i, b) && t.start == h.start && t.brk == h.brk
  {
  }

  lemma {:induction false} LinkFree(h: Heap, i: nat, b: nat, u: nat)
    requires i < |h.list| && h.list[i] in h.mem && b in h.mem && h.list[i] != b
    ensures InFree(Link(h, i, b), u) <==> InFree(h, u) || b <= u < b + Size(h, b)
  {
    hide AddNode, Link;
    var t := Link(h, i, b);
    LinkFields(h, i, b);
    LengthAdd(h.list, i, b);
    if InFree(t, u) {
      var x: nat :| 1 <= x < |t.list| && t.list[x] <= u < t.list[x] + Size(t, t.list[x]);
      AddedAt(h.list, i, b, x);
      LinkSizes(h, i, b, t.list[x]);
      if x != i + 1 {
        var m := if x <= i then x else x - 1;
        assert h.list[m] <= u < h.list[m] + Size(h, h.list[m]);
      }
    }
    if InFree(h, u) {
      var m: nat :| 1 <= m < |h.list| && h.list[m] <= u < h.list[m] + Size(h, h.list[m]);
      var x := if m <= i then m else m + 1;
      AddedAt(h.list, i, b, x);
      LinkSizes(h, i, b, h.list[m]);
      assert t.list[x] <= u < t.list[x] + Size(t, t.list[x]);
    }
    if b <= u < b + Size(h, b) {
      AddedAt(h.list, i, b, i + 1);
      LinkSizes(h, i, b, b);
      assert t.list[i + 1] <= u < t.list[i + 1] + Size(t, t.list[i + 1]);
    }
  }

  lemma {:induction false} LinkLive(h: Heap, i: nat, b: nat, u: nat)
    requires i < |h.list| && h.list[i] in h.mem && Lives(h) && b in h.live
    ensures InLive(Link(h, i, b), u) <==> InLive(h, u) && !(b <= u < b + h.live[b])
  {
    hide AddNode;
    var t := Link(h, i, b);
    if InLive(t, u) {
      var a :| a in t.live && a <= u < a + t.live[a];
      assert a in h.live && a <= u < a + h.live[a];
    }
    if InLive(h, u) && !(b <= u < b + h.live[b]) {
      var a :| a in h.live && a <= u < a + h.live[a];
      assert a in t.live && a <= u < a + t.live[a];
    }
  }

  lemma {:induction false} LinkInv(h: Heap, i: nat, b: nat)
    requires Inv(h) && b in h.live && b in h.mem && At(h, i, b)
    ensures h.list[i] in h.mem && InvBut(Link(h, i, b), {i, i + 1})
  {
    hide AddNode, Gaps, InFree, InLive;
    RingAt(h.mem, h.list, i);
    var t := Link(h, i, b);
    LinkGaps(h, i, b);
    assert b !in h.list by { NotANode(h, i, b); }
    InvDistinct(h, {});
    RingAdd(h.mem, h.list, i, b, Size(h, b), Size(h, h.list[i]));
    forall u: nat | t.start <= u < t.brk ensures InFree(t, u) <==> !InLive(t, u) {
      LinkFree(h, i, b, u);
      LinkLive(h, i, b, u);
    }
    assert Lives(t) by {
      forall a | a in t.live ensures Size(t, a) == t.live[a] {
        LinkSizes(h, i, b, a);
      }
    }
  }

  lemma {:induction false} NotANode(h: Heap, i: nat, b: nat)
    requires Inv(h) && b in h.live && At(h, i, b)
    ensures b !in h.list
  {
    hide InvBut;
    forall j: nat | j < |h.list| ensures h.list[j] != b {
      FitsAt(h, i, b, j);
    }
  }

  lemma {:induction false} InvDistinct(h: Heap, but: set<nat>)
    requires InvBut(h, but)
    ensures Distinct(h.list)
  {
    hide Partition, Lives;
    NodesDiffer(h, but);
  }

  // Merging two neighbours.

  /** Only base can be the first node, and it touches nothing. */
  lemma {:induction false} TouchIsReal(h: Heap, i: nat, but: set<nat>)
    requires Gaps(h, but) && Touch(h, i) && h.list[0] == BASE
    ensures i >= 1 && h.start <= h.list[i] && h.list[i] != BASE
  {
  }

  lemma {:induction false} MergeSizes(h: Heap, i: nat, a: nat)
    requires Touch(h, i) && h.list[i] in h.mem && h.list[i + 1] in h.mem
    ensures Size(Merge(h, i), a) == if a == h.list[i] then Size(h, a) + Size(h, h.list[i + 1]) else Size(h, a)
    ensures var t := Merge(h, i);
            t.list == DropNode(h.list, i + 1) && t.start == h.start && t.brk == h.brk && t.live == h.live
  {
  }

  lemma {:induction false} MergeGap(h: Heap, i: nat, but: set<nat>, x: nat, y: nat)
    requires InvBut(h, but) && i in but && (forall k :: k in but ==> k <= i) && Touch(h, i) && x < y < |h.list| - 1
    ensures h.list[i] in h.mem && h.list[i + 1] in h.mem && |Merge(h, i).list| == |h.list| - 1
    ensures var t := Merge(h, i);
            t.list[x] + Size(t, t.list[x]) <= t.list[y]
              && (t.list[x] + Size(t, t.list[x]) == t.list[y] ==> x in but - {i} && y == x + 1)
  {
    hide Ring, Partition, DropNode, Lives, Size, Merge, Distinct;
    RingAt(h.mem, h.list, i);
    RingAt(h.mem, h.list, i + 1);
    InvDistinct(h, but);
    MergeSizes(h, i, h.list[if x <= i then x else x + 1]);
    LengthDrop(h.list, i + 1);
    DroppedAt(h.list, i + 1, x);
    DroppedAt(h.list, i + 1, y);
    var m, n := if x <= i then x else x + 1, if y <= i then y else y + 1;
    if x == i {
      assert h.list[i + 1] + Size(h, h.list[i + 1]) <= h.list[n];
    } else if x < i {
      DifferAt(h.list, x, i);
    } else {
      DifferAt(h.list, i, m);
    }
    assert h.list[m] + Size(h, h.list[m]) <= h.list[n];
  }

  lemma {:induction false} MergeGaps(h: Heap, i: nat, but: set<nat>)
    requires InvBut(h, but) && i in but && (forall k :: k in but ==> k <= i) && Touch(h, i)
    ensures h.list[i] in h.mem && h.list[i + 1] in h.mem && Gaps(Merge(h, i), but - {i})
  {
    hide Ring, Partition, DropNode, Lives, Merge, Distinct;
    RingAt(h.mem, h.list, i);
    RingAt(h.mem, h.list, i + 1);
    TouchIsReal(h, i, but);
    MergeSizes(h, i, BASE);
    LengthDrop(h.list, i + 1);
    var t := Merge(h, i);
    forall x: nat, y: nat | x < y < |t.list|
      ensures t.list[x] + Size(t, t.list[x]) <= t.list[y]
              && (t.list[x] + Size(t, t.list[x]) == t.list[y] ==> x in but - {i} && y == x + 1)
    {
      MergeGap(h, i, but, x, y);
    }
    forall x: nat | 1 <= x < |t.list|
      ensures Size(t, t.list[x]) > 0 && t.start <= t.list[x]
              && t.list[x] + Size(t, t.list[x]) <= t.brk
    {
      DroppedAt(h.list, i + 1, x);
      MergeSizes(h, i, t.list[x]);
    }
  }

  lemma {:induction false} MergeFree(h: Heap, i: nat, u: nat)
    requires Touch(h, i) && i >= 1 && h.list[i] in h.mem && h.list[i + 1] in h.mem && Distinct(h.list)
    ensures InFree(Merge(h, i), u) <==> InFree(h, u)
  {
    hide DropNode, Merge, Distinct;
    var t := Merge(h, i);
    MergeSizes(h, i, 0);
    LengthDrop(h.list, i + 1);
    if InFree(t, u) {
      var x: nat :| 1 <= x < |t.list| && t.list[x] <= u < t.list[x] + Size(t, t.list[x]);
      DroppedAt(h.list, i + 1, x);
      MergeSizes(h, i, t.list[x]);
      var m := if x <= i then x else x + 1;
      assert h.list[m] <= u < h.list[m] + Size(h, h.list[m])
             || (x == i && h.list[i + 1] <= u < h.list[i + 1] + Size(h, h.list[i + 1])) by {
        SameNode(h.list, m, i);
      }
    }
    if InFree(h, u) {
      var m: nat :| 1 <= m < |h.list| && h.list[m] <= u < h.list[m] + Size(h, h.list[m]);
      var x := if m <= i then m else m - 1;
      DroppedAt(h.list, i + 1, x);
      MergeSizes(h, i, t.list[x]);
      assert t.list[x] <= u < t.list[x] + Size(t, t.list[x]);
    }
  }

  lemma SameNode(list: seq<nat>, m: nat, i: nat)
    requires Distinct(list) && m < |list| && i < |list|
    ensures list[m] == list[i] <==> m == i
  {
  }

  /** Merging keeps everything and removes one exception. */
  lemma {:induction false} MergeInv(h: Heap, i: nat, but: set<nat>)
    requires InvBut(h, but) && i in but && i < |h.list| && (forall k :: k in but ==> k <= i)
    ensures h.list[i] in h.mem && (i + 1 < |h.list| ==> h.list[i + 1] in h.mem) && InvBut(Merge(h, i), but - {i})
  {
    hide InFree, InLive, DropNode;
    RingAt(h.mem, h.list, i);
    if Touch(h, i) {
      RingAt(h.mem, h.list, i + 1);
      MergeTouching(h, i, but);
    } else {
      NoTouch(h, i, but);
    }
  }

  lemma {:induction false} NoTouch(h: Heap, i: nat, but: set<nat>)
    requires Gaps(h, but) && !Touch(h, i)
    ensures Gaps(h, but - {i})
  {
    forall x: nat, y: nat | x < y < |h.list|
      ensures h.list[x] + Size(h, h.list[x]) <= h.list[y]
              && (h.list[x] + Size(h, h.list[x]) == h.list[y] ==> x in but - {i} && y == x + 1)
    {
    }
  }

  lemma {:induction false} MergeTouching(h: Heap, i: nat, but: set<nat>)
    requires InvBut(h, but) && i in but && (forall k :: k in but ==> k <= i) && Touch(h, i) && h.list[i] in h.mem
             && h.list[i + 1] in h.mem
    ensures InvBut(Merge(h, i), but - {i})
  {
    hide InFree, DropNode, Gaps, Ring, Distinct, InLive;
    var t := Merge(h, i);
    RingAt(h.mem, h.list, i);
    TouchIsReal(h, i, but);
    InvDistinct(h, but);
    MergeGaps(h, i, but);
    RingDrop(h.mem, h.list, i, Size(h, h.list[i]) + Size(h, h.list[i + 1]));
    forall u: nat | t.start <= u < t.brk ensures InFree(t, u) <==> !InLive(t, u) {
      MergeFree(h, i, u);
      SameLive(h, t, u);
    }
    forall a | a in t.live ensures Size(t, a) == t.live[a] {
      NodeIsNotLive(h, i, but, a);
      MergeSizes(h, i, a);
    }
  }

  lemma SameLive(h: Heap, t: Heap, u: nat)
    requires t.live == h.live
    ensures InLive(t, u) == InLive(h, u)
  {
  }

  lemma {:induction false} NodeIsNotLive(h: Heap, i: nat, but: set<nat>, a: nat)
    requires InvBut(h, but) && 1 <= i < |h.list| && a in h.live
    ensures h.list[i] != a
  {
    hide Ring;
    var u := h.list[i];
    assert InFree(h, u);
    assert a == u ==> InLive(h, u);
  }
}
