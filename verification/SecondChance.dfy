/** SCFIFO_algorithm (kernel/vm.c) and the second-chance queue it implements. */
module SecondChance {
  import opened Basics
  import opened SwapSpec
  import opened SwapPolicy

  ghost predicate Orders32(mem: seq<Meta>) {
    forall i :: 0 <= i < |mem| ==> mem[i].order <= UINT_MAX
  }

  /** What the scan of the first n entries selects: the used entry with the least
      page_order, the last of them on a tie, or -1. */
  function OldestOf(mem: seq<Meta>, n: nat): (k: int)
    requires n <= |mem|
    ensures -1 <= k < n
    ensures k == -1 <==> forall j :: 0 <= j < n ==> !mem[j].used
    ensures k != -1 ==> mem[k].used && forall j :: 0 <= j < n && mem[j].used ==> mem[k].order <= mem[j].order
  {
    if n == 0 then -1
    else
      var k := OldestOf(mem, n - 1);
      if mem[n - 1].used && (k == -1 || mem[n - 1].order <= mem[k].order) then n - 1 else k
  }

  /** Used entries whose page has been accessed. */
  function Accessed(mem: seq<Meta>, pt: map<nat, Pte>): nat {
    if mem == [] then 0
    else
      var n := |mem| - 1;
      var m := mem[n];
      Accessed(mem[..n], pt) + if m.used && m.vpn in pt && pt[m.vpn].acc then 1 else 0
  }

  /** Give entry k its second chance: clear the accessed bit and queue it last. */
  function Requeue(s: State, k: nat): State
    requires k < |s.mem| && s.mem[k].vpn in s.pt
  {
    var v := s.mem[k].vpn;
    s.(mem := s.mem[k := s.mem[k].(order := s.clock % (UINT_MAX + 1))],
       clock := s.clock + 1,
       pt := s.pt[v := s.pt[v].(acc := false)])
  }

  lemma {:induction false} ClearingDoesNotAdd(mem: seq<Meta>, pt: map<nat, Pte>, v: nat)
    requires v in pt
    ensures Accessed(mem, pt[v := pt[v].(acc := false)]) <= Accessed(mem, pt)
  {
    if mem != [] {
      ClearingDoesNotAdd(mem[..|mem| - 1], pt, v);
    }
  }

  lemma {:induction false} RequeueProgress(mem: seq<Meta>, pt: map<nat, Pte>, k: nat, order: nat)
    requires k < |mem| && mem[k].used && mem[k].vpn in pt && pt[mem[k].vpn].acc
    ensures var v := mem[k].vpn;
            Accessed(mem[k := mem[k].(order := order)], pt[v := pt[v].(acc := false)]) < Accessed(mem, pt)
  {
    var n := |mem| - 1;
    var v := mem[k].vpn;
    var mem' := mem[k := mem[k].(order := order)];
    if k == n {
      assert mem'[..n] == mem[..n];
      ClearingDoesNotAdd(mem[..n], pt, v);
    } else {
      assert mem'[..n] == mem[..n][k := mem[..n][k].(order := order)];
      RequeueProgress(mem[..n], pt, k, order);
    }
  }

  ghost predicate CanScan(s: State) {
    Mapped(s) && exists i :: 0 <= i < |s.mem| && s.mem[i].used
  }

  lemma {:induction false} RequeueAges(s: State, k: nat)
    requires CanScan(s) && k < |s.mem| && s.mem[k].used
    ensures AgesOnly(s, Requeue(s, k)) && CanScan(Requeue(s, k))
  {
    var t := Requeue(s, k);
    forall i | 0 <= i < |t.mem| && t.mem[i].used ensures t.mem[i].vpn in t.pt {
      assert s.mem[i].used && s.mem[i].vpn == t.mem[i].vpn;
    }
    assert t.mem[k].used;
  }

  lemma {:induction false} AgesOnlyTrans(s: State, t: State, u: State)
    requires AgesOnly(s, t) && AgesOnly(t, u)
    ensures AgesOnly(s, u)
  {
  }

  lemma AgesOnlySame(s: State)
    ensures AgesOnly(s, s)
  {
  }

  /** The loop of SCFIFO_algorithm: the state it leaves and the entry it returns. It
      ends because every turn clears an accessed bit. */
  ghost function Scfifo(s: State): (r: (State, nat))
    requires CanScan(s)
    decreases Accessed(s.mem, s.pt)
  {
    var k := OldestOf(s.mem, |s.mem|);
    if s.pt[s.mem[k].vpn].acc then
      RequeueProgress(s.mem, s.pt, k, s.clock % (UINT_MAX + 1));
      RequeueAges(s, k);
      Scfifo(Requeue(s, k))
    else (s, k)
  }

  lemma {:induction false} ScfifoAges(s: State)
    requires CanScan(s)
    ensures AgesOnly(s, Scfifo(s).0) && Scfifo(s).1 < |s.mem| && s.mem[Scfifo(s).1].used
    decreases Accessed(s.mem, s.pt)
  {
    hide AgesOnly;
    var k := OldestOf(s.mem, |s.mem|);
    if s.pt[s.mem[k].vpn].acc {
      RequeueProgress(s.mem, s.pt, k, s.clock % (UINT_MAX + 1));
      RequeueAges(s, k);
      ScfifoAges(Requeue(s, k));
      AgesOnlyTrans(s, Requeue(s, k), Scfifo(s).0);
      assert s.mem[Scfifo(s).1].used;
    } else {
      AgesOnlySame(s);
    }
  }

  // ---- The queue -----------------------------------------------------------------------

  /** q lists the used entries, oldest first. */
  ghost predicate Queue(s: State, q: seq<nat>) {
    && (forall a :: 0 <= a < |q| ==> q[a] < |s.mem| && s.mem[q[a]].used)
    && (forall i: nat :: i < |s.mem| && s.mem[i].used ==> i in q)
    && (forall a, b :: 0 <= a < b < |q| ==> s.mem[q[a]].order < s.mem[q[b]].order)
    && (forall a :: 0 <= a < |q| ==> s.mem[q[a]].order < s.clock)
  }

  /** No two used entries name the same page, and all are mapped. */
  ghost predicate Proper(s: State) {
    && Mapped(s)
    && forall i, j :: 0 <= i < j < |s.mem| && s.mem[i].used && s.mem[j].used ==> s.mem[i].vpn != s.mem[j].vpn
  }

  ghost predicate IsAccessed(s: State, i: nat) {
    i < |s.mem| && s.mem[i].vpn in s.pt && s.pt[s.mem[i].vpn].acc
  }

  /** The first queue position whose page has not been accessed, or |q|. */
  ghost function FirstUnaccessed(s: State, q: seq<nat>): (k: nat)
    ensures k <= |q|
    ensures forall a :: 0 <= a < k ==> IsAccessed(s, q[a])
    ensures k < |q| ==> !IsAccessed(s, q[k])
  {
    if q == [] || !IsAccessed(s, q[0]) then 0 else 1 + FirstUnaccessed(s, q[1..])
  }

  lemma {:induction false} FirstUnaccessedIs(s: State, q: seq<nat>, k: nat)
    requires k <= |q| && (forall a :: 0 <= a < k ==> IsAccessed(s, q[a])) && (k < |q| ==> !IsAccessed(s, q[k]))
    ensures FirstUnaccessed(s, q) == k
  {
  }

  lemma {:induction false} OldestIsHead(s: State, q: seq<nat>)
    requires Queue(s, q) && q != []
    ensures OldestOf(s.mem, |s.mem|) == q[0]
  {
    var k := OldestOf(s.mem, |s.mem|);
    assert s.mem[q[0]].used;
    assert k != -1;
    var i: nat := k;
    assert i in q;
  }

  ghost function Rotated(q: seq<nat>): seq<nat>
    requires q != []
  {
    q[1..] + [q[0]]
  }

  /** The requeued head is younger than all the others, which have not changed. */
  lemma {:induction false} RequeueOrders(s: State, q: seq<nat>)
    requires Mapped(s) && Queue(s, q) && q != [] && s.clock <= UINT_MAX
    ensures s.mem[q[0]].vpn in s.pt
    ensures var t := Requeue(s, q[0]);
            && t.mem[q[0]] == s.mem[q[0]].(order := s.clock)
            && forall a :: 1 <= a < |q| ==> t.mem[q[a]] == s.mem[q[a]]
  {
    assert s.mem[q[0]].used;
    forall a | 1 <= a < |q| ensures q[a] != q[0] {
      assert s.mem[q[0]].order < s.mem[q[a]].order;
    }
  }

  /** One second chance moves the head of the queue to its end. */
  lemma {:induction false} RequeueRotates(s: State, q: seq<nat>)
    requires Mapped(s) && Queue(s, q) && q != [] && s.clock <= UINT_MAX
    ensures s.mem[q[0]].vpn in s.pt && Queue(Requeue(s, q[0]), Rotated(q))
  {
    RequeueOrders(s, q);
    var t := Requeue(s, q[0]);
    assert t.clock == s.clock + 1 && |t.mem| == |s.mem|;
    RotationKeepsAll(s, t, q);
    RotatedOrders(s.mem, t.mem, q, s.clock);
  }

  lemma {:induction false} RotatedOrders(mem: seq<Meta>, mem': seq<Meta>, q: seq<nat>, clock: nat)
    requires q != [] && |mem'| == |mem| && forall a :: 0 <= a < |q| ==>
               q[a] < |mem| && mem[q[a]].used && mem[q[a]].order < clock
    requires forall a, b :: 0 <= a < b < |q| ==> mem[q[a]].order < mem[q[b]].order
    requires mem'[q[0]] == mem[q[0]].(order := clock) && forall a :: 1 <= a < |q| ==> mem'[q[a]] == mem[q[a]]
    ensures var q' := Rotated(q);
            && (forall a :: 0 <= a < |q'| ==> q'[a] < |mem'| && mem'[q'[a]].used && mem'[q'[a]].order < clock + 1)
            && (forall a, b :: 0 <= a < b < |q'| ==> mem'[q'[a]].order < mem'[q'[b]].order)
  {
    var q' := Rotated(q);
    var n := |q| - 1;
    assert q'[n] == q[0];
    forall a | 0 <= a < n ensures q'[a] == q[a + 1] && mem'[q'[a]] == mem[q[a + 1]] && mem[q[a + 1]].order < clock {
    }
  }

  lemma {:induction false} RotationKeepsAll(s: State, t: State, q: seq<nat>)
    requires q != [] && |t.mem| == |s.mem| && forall i :: 0 <= i < |s.mem| ==> t.mem[i].used == s.mem[i].used
    requires forall i: nat :: i < |s.mem| && s.mem[i].used ==> i in q
    ensures forall i: nat :: i < |t.mem| && t.mem[i].used ==> i in Rotated(q)
  {
    var q' := Rotated(q);
    forall i: nat | i < |t.mem| && t.mem[i].used ensures i in q' {
      assert i in q;
      var a :| 0 <= a < |q| && q[a] == i;
      assert q'[if a == 0 then |q| - 1 else a - 1] == i;
    }
  }

  lemma {:induction false} RequeueClears(s: State, q: seq<nat>)
    requires Proper(s) && Queue(s, q) && q != []
    ensures var t := Requeue(s, q[0]);
            && Proper(t) && !IsAccessed(t, q[0])
            && forall a :: 1 <= a < |q| ==> (IsAccessed(t, q[a]) <==> IsAccessed(s, q[a]))
  {
    var t := Requeue(s, q[0]);
    forall a | 1 <= a < |q| ensures q[a] != q[0] && t.mem[q[a]] == s.mem[q[a]] && s.mem[q[a]].vpn != s.mem[q[0]].vpn {
      assert s.mem[q[0]].order < s.mem[q[a]].order;
    }
    forall i | 0 <= i < |t.mem| ensures t.mem[i].used == s.mem[i].used && t.mem[i].vpn == s.mem[i].vpn {
    }
  }

  /** What is left of the queue after the turns that remain, in terms of q. */
  lemma {:induction false} RotationIndices(q: seq<nat>, k: nat)
    requires 1 <= k <= |q|
    ensures var q' := Rotated(q);
            && q'[k - 1] == (if k < |q| then q[k] else q[0])
            && q'[k - 1..] + q'[..k - 1] == q[k..] + q[..k]
            && q'[|q| - 1] == q[0] && forall a :: 1 <= a < |q| ==> q'[a - 1] == q[a]
  {
  }

  lemma {:induction false} NotAccessed(s: State, q: seq<nat>)
    requires Queue(s, q) && Mapped(s) && q != []
    ensures FirstUnaccessed(s, q) == 0 <==> !s.pt[s.mem[q[0]].vpn].acc
  {
    assert s.mem[q[0]].used;
  }

  lemma {:induction false} RotatedFirst(s: State, t: State, q: seq<nat>, k: nat)
    requires q != [] && 1 <= k == FirstUnaccessed(s, q) && !IsAccessed(t, q[0])
    requires forall a :: 1 <= a < |q| ==> (IsAccessed(t, q[a]) <==> IsAccessed(s, q[a]))
    ensures FirstUnaccessed(t, Rotated(q)) == k - 1
  {
    hide IsAccessed, FirstUnaccessed;
    var q' := Rotated(q);
    RotationIndices(q, k);
    forall a | 0 <= a < k - 1 ensures IsAccessed(t, q'[a]) {
      assert q'[a] == q[a + 1];
    }
    FirstUnaccessedIs(t, q', k - 1);
  }

  /** The second-chance rule with k pages skipped: they go to the back in their old
      order with their accessed bits cleared, and the page then at the front is the
      victim. */
  ghost predicate Chosen(s: State, q: seq<nat>, k: nat, t: State, victim: nat) {
    && 0 < |q| && k <= |q|
    && victim == (if k < |q| then q[k] else q[0])
    && Queue(t, q[k..] + q[..k])
    && (forall a :: 0 <= a < |q| ==> (IsAccessed(t, q[a]) <==> a >= k && IsAccessed(s, q[a])))
  }

  /** t has the accessed bits of s, except that the bit of q[0] is cleared. */
  ghost predicate BitCleared(s: State, t: State, q: seq<nat>) {
    && q != [] && !IsAccessed(t, q[0])
    && forall a :: 1 <= a < |q| ==> (IsAccessed(t, q[a]) <==> IsAccessed(s, q[a]))
  }

  lemma {:induction false} ChosenTurn(s: State, q: seq<nat>, k: nat, t: State, u: State, victim: nat)
    requires 1 <= k <= |q| && Chosen(t, Rotated(q), k - 1, u, victim) && BitCleared(s, t, q)
    ensures Chosen(s, q, k, u, victim)
  {
    hide IsAccessed, Queue;
    RotationIndices(q, k);
    var q' := Rotated(q);
    forall a | 0 <= a < |q| ensures IsAccessed(u, q[a]) <==> a >= k && IsAccessed(s, q[a]) {
      assert q'[if a == 0 then |q| - 1 else a - 1] == q[a];
    }
  }

  lemma ProperIsMapped(s: State)
    requires Proper(s)
    ensures Mapped(s)
  {
  }

  lemma {:induction false} QueueStop(s: State, q: seq<nat>)
    requires Mapped(s) && Queue(s, q) && q != []
    ensures CanScan(s) && OldestOf(s.mem, |s.mem|) == q[0] && s.mem[q[0]].vpn in s.pt
    ensures FirstUnaccessed(s, q) == 0 <==> !s.pt[s.mem[q[0]].vpn].acc
    ensures FirstUnaccessed(s, q) == 0 ==> Chosen(s, q, 0, s, q[0])
  {
    assert s.mem[q[0]].used;
    OldestIsHead(s, q);
    NotAccessed(s, q);
    assert q[0..] + q[..0] == q;
  }

  lemma {:induction false} QueueTurn(s: State, q: seq<nat>)
    requires Proper(s) && Queue(s, q) && q != [] && s.clock <= UINT_MAX && FirstUnaccessed(s, q) > 0
    ensures s.mem[q[0]].vpn in s.pt
    ensures var t := Requeue(s, q[0]);
            && Proper(t) && Queue(t, Rotated(q)) && BitCleared(s, t, q) && t.clock == s.clock + 1
            && FirstUnaccessed(t, Rotated(q)) == FirstUnaccessed(s, q) - 1
  {
    hide IsAccessed, FirstUnaccessed, Rotated;
    RequeueRotates(s, q);
    RequeueClears(s, q);
    RotatedFirst(s, Requeue(s, q[0]), q, FirstUnaccessed(s, q));
  }

  /** One turn of the loop. */
  lemma {:induction false} ScfifoTurn(s: State)
    requires CanScan(s)
    ensures var k := OldestOf(s.mem, |s.mem|);
            && 0 <= k && s.mem[k].vpn in s.pt
            && if s.pt[s.mem[k].vpn].acc then CanScan(Requeue(s, k)) && Scfifo(s) == Scfifo(Requeue(s, k))
               else Scfifo(s) == (s, k)
  {
    hide OldestOf;
    var k := OldestOf(s.mem, |s.mem|);
    RequeueAges(s, k);
  }

  /** SCFIFO is the second-chance queue: the pages skipped are those before the first
      one that has not been accessed, or all of them if every page has been, in
      which case the oldest page is evicted after all. */
  lemma {:induction false} ScfifoIsSecondChance(s: State, q: seq<nat>)
    requires Proper(s) && Queue(s, q) && q != [] && s.clock + FirstUnaccessed(s, q) <= UINT_MAX + 1
    ensures CanScan(s) && Chosen(s, q, FirstUnaccessed(s, q), Scfifo(s).0, Scfifo(s).1)
    decreases FirstUnaccessed(s, q)
  {
    hide FirstUnaccessed, Chosen, BitCleared, OldestOf, Queue, Proper, Requeue, Scfifo, CanScan;
    ProperIsMapped(s);
    QueueStop(s, q);
    ScfifoTurn(s);
    var k := FirstUnaccessed(s, q);
    if k > 0 {
      QueueTurn(s, q);
      var t := Requeue(s, q[0]);
      ScfifoIsSecondChance(t, Rotated(q));
      ChosenTurn(s, q, k, t, Scfifo(t).0, Scfifo(t).1);
    }
  }
}
