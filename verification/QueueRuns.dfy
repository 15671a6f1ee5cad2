/** SCFIFO over whole runs: as long as page_order_counter has not wrapped around, the page
    orders are a queue and every eviction is the second-chance rule on it. */
module QueueRuns {
  import opened SwapSpec
  import opened SwapPolicy
  import opened SecondChance
  import opened SwapRuns
  import opened SwapProgress
  import opened SwapHistory

  // ---- Page orders are distinct stamps ----------------------------------------------------------

  /** The pages in memory carry distinct numbers that the counter has already given out. */
  ghost predicate Numbered(s: State) {
    && (forall i :: 0 <= i < |s.mem| && s.mem[i].used ==> s.mem[i].order < s.clock)
    && (forall i, j :: 0 <= i < j < |s.mem| && s.mem[i].used && s.mem[j].used ==> s.mem[i].order != s.mem[j].order)
  }

  /** The used entries of s can be listed oldest first. */
  lemma {:induction false} QueueExists(s: State) returns (q: seq<nat>)
    requires Numbered(s)
    ensures Queue(s, q)
    decreases CountUsed(s.mem)
  {
    hide CountUsed;
    var k := OldestOf(s.mem, |s.mem|);
    if k == -1 {
      q := [];
    } else {
      var t := s.(mem := s.mem[k := s.mem[k].(used := false)]);
      CountUpdate(s.mem, k, t.mem[k]);
      var rest := QueueExists(t);
      q := [k] + rest;
      OldestFirst(s, t, k, rest);
    }
  }

  lemma {:induction false} OldestFirst(s: State, t: State, k: nat, rest: seq<nat>)
    requires Numbered(s) && k == OldestOf(s.mem, |s.mem|) && t == s.(mem := s.mem[k := s.mem[k].(used := false)])
    requires Queue(t, rest)
    ensures Queue(s, [k] + rest)
  {
    hide OldestOf, Queue, Numbered;
    OldestIsLess(s, k);
    RestOf(s, t, k, rest);
    HeadCovers(s.mem, k, rest);
    HeadOrders(s.mem, k, rest);
    QueueOf(s, k, rest);
  }

  lemma {:induction false} OldestIsLess(s: State, k: nat)
    requires Numbered(s) && k == OldestOf(s.mem, |s.mem|)
    ensures s.mem[k].order < s.clock
    ensures forall j: nat :: j < |s.mem| && s.mem[j].used && j != k ==> s.mem[k].order < s.mem[j].order
  {
    hide OldestOf;
    forall j: nat | j < |s.mem| && s.mem[j].used && j != k ensures s.mem[k].order < s.mem[j].order {
      assert s.mem[j].order != s.mem[k].order by {
        if j < k {
          assert s.mem[j].used && s.mem[k].used;
        }
      }
    }
  }

  lemma {:induction false} RestOf(s: State, t: State, k: nat, rest: seq<nat>)
    requires k < |s.mem| && t == s.(mem := s.mem[k := s.mem[k].(used := false)]) && Queue(t, rest)
    ensures forall a :: 0 <= a < |rest| ==>
              rest[a] < |s.mem| && rest[a] != k && s.mem[rest[a]].used && s.mem[rest[a]].order < s.clock
    ensures forall i: nat :: i < |s.mem| && s.mem[i].used && i != k ==> i in rest
    ensures forall a, b :: 0 <= a < b < |rest| ==> s.mem[rest[a]].order < s.mem[rest[b]].order
  {
    forall a | 0 <= a < |rest| ensures rest[a] != k && s.mem[rest[a]] == t.mem[rest[a]] {
      assert t.mem[rest[a]].used;
    }
    forall i: nat | i < |s.mem| && s.mem[i].used && i != k ensures i in rest {
      assert t.mem[i] == s.mem[i];
    }
  }

  lemma {:induction false} HeadCovers(mem: seq<Meta>, k: nat, rest: seq<nat>)
    requires forall i: nat :: i < |mem| && mem[i].used && i != k ==> i in rest
    ensures forall i: nat :: i < |mem| && mem[i].used ==> i in [k] + rest
  {
  }

  lemma {:induction false} HeadOrders(mem: seq<Meta>, k: nat, rest: seq<nat>)
    requires k < |mem| && forall a :: 0 <= a < |rest| ==> rest[a] < |mem| && mem[k].order < mem[rest[a]].order
    requires forall a, b :: 0 <= a < b < |rest| ==> mem[rest[a]].order < mem[rest[b]].order
    ensures var q := [k] + rest;
            && (forall a :: 0 <= a < |q| ==> q[a] < |mem|)
            && forall a, b :: 0 <= a < b < |q| ==> mem[q[a]].order < mem[q[b]].order
  {
    var q := [k] + rest;
    forall a, b | 0 <= a < b < |q| ensures mem[q[a]].order < mem[q[b]].order {
      assert q[b] == rest[b - 1];
    }
  }

  lemma {:induction false} QueueOf(s: State, k: nat, rest: seq<nat>)
    requires k < |s.mem| && s.mem[k].used && s.mem[k].order < s.clock
    requires forall a :: 0 <= a < |rest| ==> rest[a] < |s.mem| && s.mem[rest[a]].used && s.mem[rest[a]].order < s.clock
    requires forall i: nat :: i < |s.mem| && s.mem[i].used ==> i in [k] + rest
    requires var q := [k] + rest; forall a, b :: 0 <= a < b < |q| ==>
               q[a] < |s.mem| && q[b] < |s.mem| && s.mem[q[a]].order < s.mem[q[b]].order
    ensures Queue(s, [k] + rest)
  {
  }

  /** Entry k takes the next number of a counter that has not wrapped. */
  lemma {:induction false} StampKeeps(s: State, t: State, k: nat)
    requires Numbered(s) && s.clock <= UINT_MAX && t.clock == s.clock + 1 && |t.mem| == |s.mem| && k < |s.mem|
    requires t.mem[k].order == s.clock % (UINT_MAX + 1)
    requires forall i :: 0 <= i < |s.mem| && i != k ==> t.mem[i] == s.mem[i]
    ensures Numbered(t)
  {
    assert t.mem[k].order == s.clock;
  }

  /** exec clears the table, so that no entry is in use, and enters its pages one by one. */
  lemma {:induction false} AddMetaNumbered(pol: Policy, s: State, v: nat)
    requires Numbered(s) && LowestFree(s.mem) < |s.mem| && s.clock <= UINT_MAX
    ensures Numbered(AddMeta(pol, s, v))
  {
    hide LowestFree, Numbered;
    StampKeeps(s, AddMeta(pol, s, v), LowestFree(s.mem));
  }

  lemma {:induction false} ScanProgress(s: State, k: nat)
    requires CanScan(s) && k == OldestOf(s.mem, |s.mem|) && s.mem[k].vpn in s.pt && s.pt[s.mem[k].vpn].acc
    ensures var t := Requeue(s, k); Accessed(t.mem, t.pt) < Accessed(s.mem, s.pt)
  {
    hide Accessed;
    RequeueProgress(s.mem, s.pt, k, s.clock % (UINT_MAX + 1));
  }

  lemma {:induction false} ScanClock(s: State)
    requires CanScan(s)
    ensures s.clock <= Scfifo(s).0.clock
    decreases Accessed(s.mem, s.pt)
  {
    hide Scfifo, Accessed, OldestOf, CanScan;
    ScfifoTurn(s);
    var k := OldestOf(s.mem, |s.mem|);
    if s.pt[s.mem[k].vpn].acc {
      ScanProgress(s, k);
      ScanClock(Requeue(s, k));
    }
  }

  /** A scan that ends before the counter wraps never reaches the wrap on the way. */
  lemma {:induction false} ScanFits(s: State, q: seq<nat>)
    requires Proper(s) && Queue(s, q) && q != [] && CanScan(s) && Scfifo(s).0.clock <= UINT_MAX + 1
    ensures s.clock + FirstUnaccessed(s, q) <= UINT_MAX + 1
    decreases FirstUnaccessed(s, q)
  {
    hide FirstUnaccessed, OldestOf, Queue, Proper, Scfifo, CanScan, BitCleared;
    ProperIsMapped(s);
    QueueStop(s, q);
    ScfifoTurn(s);
    if FirstUnaccessed(s, q) > 0 {
      var t := Requeue(s, q[0]);
      ScanClock(t);
      QueueTurn(s, q);
      ScanFits(t, Rotated(q));
    } else {
      ScanClock(s);
    }
  }

  // ---- How the queue moves ------------------------------------------------------------------------

  /** Entry f of t has just been given the next number; all others are as in s. */
  ghost predicate Stamped(s: State, t: State, f: nat) {
    && |t.mem| == |s.mem| && f < |s.mem| && t.clock == s.clock + 1
    && t.mem[f].used && t.mem[f].order == s.clock % (UINT_MAX + 1)
    && forall i :: 0 <= i < |s.mem| && i != f ==> t.mem[i] == s.mem[i]
  }

  /** The head of the queue is released. */
  lemma {:induction false} HeadLeaves(s: State, t: State, q: seq<nat>)
    requires Queue(s, q) && q != [] && t.clock == s.clock && |t.mem| == |s.mem|
    requires !t.mem[q[0]].used && forall i :: 0 <= i < |s.mem| && i != q[0] ==> t.mem[i] == s.mem[i]
    ensures Queue(t, q[1..])
  {
    forall a | 1 <= a < |q| ensures q[a] != q[0] && t.mem[q[a]] == s.mem[q[a]] {
      assert s.mem[q[0]].order < s.mem[q[a]].order;
    }
    forall i: nat | i < |t.mem| && t.mem[i].used ensures i in q[1..] {
      assert i in q;
      var a :| 0 <= a < |q| && q[a] == i;
      assert q[1..][a - 1] == i;
    }
  }

  /** A free entry that takes the next number joins the queue at its end, exactly until the
      counter wraps; if the queue is empty, always. */
  lemma {:induction false} JoinsAtBackIff(s: State, t: State, q: seq<nat>, f: nat)
    requires Queue(s, q) && Stamped(s, t, f) && !s.mem[f].used && s.clock <= UINT_MAX + 1
    ensures Queue(t, q + [f]) <==> s.clock <= UINT_MAX || q == []
  {
    hide Queue, Stamped;
    if s.clock <= UINT_MAX || q == [] {
      JoinsAtBack(s, t, q, f);
    } else {
      JoinsInFront(s, t, q, f);
    }
  }

  lemma {:induction false} JoinsAtBack(s: State, t: State, q: seq<nat>, f: nat)
    requires Queue(s, q) && Stamped(s, t, f) && !s.mem[f].used && (s.clock <= UINT_MAX || q == [])
    ensures Queue(t, q + [f])
  {
    forall a | 0 <= a < |q| ensures q[a] != f && t.mem[q[a]] == s.mem[q[a]] && s.mem[q[a]].order < s.clock {
      assert s.mem[q[a]].used;
    }
    assert q != [] ==> t.mem[f].order == s.clock;
    assert t.mem[f].order < t.clock;
    assert forall a, b :: 0 <= a < b < |q| ==> s.mem[q[a]].order < s.mem[q[b]].order;
    assert (q + [f])[|q|] == f;
  }

  lemma {:induction false} JoinsInFront(s: State, t: State, q: seq<nat>, f: nat)
    requires Queue(s, q) && Stamped(s, t, f) && !s.mem[f].used && s.clock == UINT_MAX + 1 && q != []
    ensures !Queue(t, q + [f])
  {
    assert t.mem[f].order == 0;
    var q' := q + [f];
    assert q'[0] == q[0] && q'[|q|] == f;
  }

  /** The head that is requeued goes to the end, exactly until the counter wraps; alone in
      the queue, always. */
  lemma {:induction false} RequeuesLastIff(s: State, q: seq<nat>)
    requires Mapped(s) && Queue(s, q) && q != [] && s.clock <= UINT_MAX + 1
    ensures s.mem[q[0]].vpn in s.pt
    ensures Queue(Requeue(s, q[0]), Rotated(q)) <==> s.clock <= UINT_MAX || |q| == 1
  {
    assert s.mem[q[0]].used;
    var r := s.(mem := s.mem[q[0] := s.mem[q[0]].(used := false)]);
    HeadLeaves(s, r, q);
    JoinsAtBackIff(r, Requeue(s, q[0]), q[1..], q[0]);
  }

  // ---- Every step ----------------------------------------------------------------------------------

  /** From state s, whose pages queue up as q, the second-chance rule leaves state t and
      evicts entry k. */
  ghost predicate ByTheRule(s: State, q: seq<nat>, t: State, k: nat) {
    Queue(s, q) && Chosen(s, q, FirstUnaccessed(s, q), t, k)
  }

  /** The queue after an eviction: the pages that got their second chance have gone to the
      end, and the entry then at the head has left and come back with the new page. */
  ghost function Served(s: State, q: seq<nat>): seq<nat>
    requires q != []
  {
    var j := FirstUnaccessed(s, q);
    var r := q[j..] + q[..j];
    r[1..] + [r[0]]
  }

  lemma {:induction false} VictimIsSecondChance(s: State, q: seq<nat>, t: State, k: nat)
    requires Proper(s) && Queue(s, q) && Victim(SCFIFO, s, t, k) && t.clock <= UINT_MAX + 1
    ensures q != [] && ByTheRule(s, q, t, k) && s.clock <= t.clock
  {
    hide FirstUnaccessed, Queue, Chosen, Scfifo, Proper, OldestOf;
    QueueNotEmpty(s, q);
    ScanFits(s, q);
    ScanClock(s);
    ScfifoIsSecondChance(s, q);
  }

  lemma {:induction false} QueueNotEmpty(s: State, q: seq<nat>)
    requires CanScan(s) && Queue(s, q)
    ensures q != []
  {
    var i: nat :| i < |s.mem| && s.mem[i].used;
    assert i in q;
  }

  /** The evicted entry is stamped for the new page. */
  lemma {:induction false} EvictionServes(s: State, q: seq<nat>, t: State, k: nat, s': State)
    requires ByTheRule(s, q, t, k) && q != [] && Stamped(t, s', k) && t.clock <= UINT_MAX
    ensures Queue(s', Served(s, q))
  {
    hide Queue, FirstUnaccessed;
    var j := FirstUnaccessed(s, q);
    var r := q[j..] + q[..j];
    assert r[0] == k;
    InTable(t, r);
    var u := t.(mem := t.mem[k := t.mem[k].(used := false)]);
    HeadLeaves(t, u, r);
    JoinsAtBack(u, s', r[1..], k);
  }

  lemma InTable(s: State, q: seq<nat>)
    requires Queue(s, q) && q != []
    ensures q[0] < |s.mem| && s.mem[q[0]].used
  {
  }

  ghost predicate Enters(s: State, k: nat, v: nat) {
    k < |s.mem| && s.mem[k].vpn == v
  }

  /** How the queue moves in a step of SCFIFO: a new page joins at the end; an event that
      has to evict follows the second-chance rule; nothing else moves it. */
  ghost predicate Moves(s: State, e: Event, s': State, q: seq<nat>, q': seq<nat>) {
    match e
    case Grow(v, frame) =>
      var m := MapPage(s, v, frame);
      if s.inMem < MAX_PYSC_PAGES then q' == q + [LowestFree(s.mem)] && Enters(s', LowestFree(s.mem), v)
      else
        && q != [] && q' == Served(m, q)
        && exists t, k: nat :: ByTheRule(m, q, t, k) && SwapFor(SCFIFO, t, k, v, s') && Enters(s', k, v)
    case Fault(v, frame) =>
      if LowestFree(s.mem) < |s.mem| then q' == q + [LowestFree(s.mem)] && Enters(s', LowestFree(s.mem), v)
      else
        && q != [] && q' == Served(s, q)
        && exists t, k: nat :: ByTheRule(s, q, t, k) && Exchange(t, k, v, frame, s') && Enters(s', k, v)
    case _ => q' == q
  }

  lemma {:induction false} SameQueue(s: State, t: State, q: seq<nat>)
    requires Queue(s, q) && t.mem == s.mem && t.clock == s.clock
    ensures Queue(t, q)
  {
  }

  lemma {:induction false} SwapForStamps(t: State, k: nat, v: nat, s': State)
    requires SwapFor(SCFIFO, t, k, v, s') && forall i :: 0 <= i < |t.mem| ==> t.mem[i].used
    ensures Stamped(t, s', k) && Enters(s', k, v)
  {
    hide LowestFree;
    var r := Release(t, k);
    var f := LowestFree(r.mem);
    assert !r.mem[f].used;
  }

  lemma {:induction false} ExchangeStamps(t: State, k: nat, v: nat, frame: nat, s': State)
    requires Exchange(t, k, v, frame, s') && InFile(t, v) && FileTable(t)
    ensures Stamped(t, s', k) && Enters(s', k, v)
  {
    hide LowestFree, FirstWith, CountUsed;
    SearchHitsLive(t, v);
  }

  lemma {:induction false} AllUsed(s: State, t: State)
    requires LowestFree(s.mem) == |s.mem| && AgesOnly(s, t)
    ensures forall i :: 0 <= i < |t.mem| ==> t.mem[i].used
  {
    hide LowestFree;
  }

  lemma {:induction false} GrowMoves(s: State, v: nat, frame: nat, s': State, q: seq<nat>) returns (q': seq<nat>)
    requires Inv(s) && Queue(s, q) && Next(SCFIFO, s, Grow(v, frame), s') && s'.clock <= UINT_MAX + 1
    ensures Queue(s', q') && Moves(s, Grow(v, frame), s', q, q')
  {
    hide InvBut, LowestFree, CountUsed, Victim, SwapFor, ZeroPage, ByTheRule, Queue, AgesOnly, FirstUnaccessed;
    var m := MapPage(s, v, frame);
    SameQueue(s, m, q);
    if s.inMem < MAX_PYSC_PAGES {
      q' := q + [LowestFree(s.mem)];
      JoinsAtBack(m, s', q, LowestFree(s.mem));
    } else {
      CountsBounded(s, {});
      var _ := FullHasUsed(s, {});
      MapPageInv(s, v, frame);
      InvIsProper(m, {v});
      var t, k :| Victim(SCFIFO, m, t, k) && SwapFor(SCFIFO, t, k, v, s');
      VictimAges(SCFIFO, m, t, k);
      AllUsed(m, t);
      SwapForStamps(t, k, v, s');
      VictimIsSecondChance(m, q, t, k);
      EvictionServes(m, q, t, k, s');
      q' := Served(m, q);
    }
  }

  lemma {:induction false} FaultMoves(s: State, v: nat, frame: nat, s': State, q: seq<nat>) returns (q': seq<nat>)
    requires Inv(s) && Queue(s, q) && Next(SCFIFO, s, Fault(v, frame), s') && s'.clock <= UINT_MAX + 1
    ensures Queue(s', q') && Moves(s, Fault(v, frame), s', q, q')
  {
    hide InvBut, LowestFree, FirstWith, CountUsed, Victim, Exchange, ByTheRule, Queue, AgesOnly, FirstUnaccessed;
    PagedOutIsInFile(s, v);
    LimboFree(s);
    var f := LowestFree(s.mem);
    if f < |s.mem| {
      q' := q + [f];
      SearchHitsLive(s, v);
      JoinsAtBack(s, s', q, f);
    } else {
      InvIsProper(s, {});
      var t, k :| Victim(SCFIFO, s, t, k) && Exchange(t, k, v, frame, s');
      VictimAges(SCFIFO, s, t, k);
      FileStays(s, t, v);
      ExchangeStamps(t, k, v, frame, s');
      VictimIsSecondChance(s, q, t, k);
      EvictionServes(s, q, t, k, s');
      q' := Served(s, q);
    }
  }

  lemma {:induction false} FileStays(s: State, t: State, v: nat)
    requires Inv(s) && AgesOnly(s, t) && InFile(s, v)
    ensures FileTable(t) && InFile(t, v)
  {
    hide InvBut;
    AgesKeepInv(s, t, {});
    LimboFree(t);
  }

  lemma {:induction false} StepMoves(s: State, e: Event, s': State, q: seq<nat>) returns (q': seq<nat>)
    requires Inv(s) && Queue(s, q) && Next(SCFIFO, s, e, s') && s'.clock <= UINT_MAX + 1
    ensures Queue(s', q') && Moves(s, e, s', q, q')
  {
    hide InvBut, LowestFree, CountUsed, Victim, SwapFor, Exchange, ByTheRule, Queue;
    match e {
      case Grow(v, frame) => q' := GrowMoves(s, v, frame, s', q);
      case Fault(v, frame) => q' := FaultMoves(s, v, frame, s', q);
      case _ =>
        q' := q;
        SameQueue(s, s', q);
    }
  }

  lemma {:induction false} StepClock(s: State, e: Event, s': State)
    requires Next(SCFIFO, s, e, s')
    ensures s.clock <= s'.clock
  {
    hide LowestFree, FirstWith, CountUsed, Scfifo, ZeroPage, CanScan;
    match e
    case Grow(v, frame) =>
      if s.inMem >= MAX_PYSC_PAGES {
        var m := MapPage(s, v, frame);
        var t, k :| Victim(SCFIFO, m, t, k) && SwapFor(SCFIFO, t, k, v, s');
        ScanClock(m);
      }
    case Fault(v, frame) =>
      if LowestFree(s.mem) >= |s.mem| {
        var t, k :| Victim(SCFIFO, s, t, k) && Exchange(t, k, v, frame, s');
        ScanClock(s);
      }
    case _ =>
  }

  /** SCFIFO is second-chance FIFO over whole runs. For as long as the counter has not
      wrapped around there is a queue of the pages in memory, qs[i] at state i: each page
      joins it at the end, an eviction sends those with a second chance to the end and
      takes the page then at the head, and nothing else moves it. */
  lemma {:induction false} EvictionsAreSecondChance(states: seq<State>, events: seq<Event>, n: nat)
    returns (qs: seq<seq<nat>>)
    requires IsRun(SCFIFO, states, events) && Numbered(states[0]) && n <= |events| && states[n].clock <= UINT_MAX + 1
    ensures |qs| == n + 1 && forall i :: 0 <= i <= n ==> Queue(states[i], qs[i])
    ensures forall i :: 0 <= i < n ==> Moves(states[i], events[i], states[i + 1], qs[i], qs[i + 1])
    decreases n
  {
    hide Next, InvBut, AfterExec, Moves, Queue, Numbered;
    if n == 0 {
      var q := QueueExists(states[0]);
      qs := [q];
    } else {
      StepClock(states[n - 1], events[n - 1], states[n]);
      qs := EvictionsAreSecondChance(states, events, n - 1);
      RunInv(SCFIFO, states, events, n - 1);
      var q := StepMoves(states[n - 1], events[n - 1], states[n], qs[n - 1]);
      qs := qs + [q];
    }
  }

  /** A state has one queue. */
  lemma {:induction false} OneQueue(s: State, p: seq<nat>, q: seq<nat>)
    requires Queue(s, p) && Queue(s, q)
    ensures p == q
    decreases |p|
  {
    hide Queue, OldestOf;
    QueueEnds(s, p, q);
    if p != [] {
      OldestIsHead(s, p);
      OldestIsHead(s, q);
      InTable(s, p);
      var t := s.(mem := s.mem[p[0] := s.mem[p[0]].(used := false)]);
      HeadLeaves(s, t, p);
      HeadLeaves(s, t, q);
      OneQueue(t, p[1..], q[1..]);
      HeadAndTail(p);
      HeadAndTail(q);
    }
  }

  lemma HeadAndTail(q: seq<nat>)
    requires q != []
    ensures q == [q[0]] + q[1..]
  {
  }

  lemma {:induction false} QueueEnds(s: State, p: seq<nat>, q: seq<nat>)
    requires Queue(s, p) && Queue(s, q)
    ensures p == [] <==> q == []
  {
    if p != [] {
      assert p[0] in q;
    }
    if q != [] {
      assert q[0] in p;
    }
  }

  /** On a tie the scan ends at the last entry. */
  lemma {:induction false} OldestIsLast(mem: seq<Meta>, n: nat, j: nat)
    requires n <= |mem| && OldestOf(mem, n) < j < n && mem[j].used
    ensures 0 <= OldestOf(mem, n) && mem[OldestOf(mem, n)].order < mem[j].order
  {
    if j < n - 1 {
      OldestIsLast(mem, n - 1, j);
    }
  }

  /** The first page numbered after the wrap is at once taken for the oldest, exactly if no
      entry after its own still has number 0. */
  lemma {:induction false} WrapMakesYoungestOldest(pol: Policy, s: State, v: nat)
    requires LowestFree(s.mem) < |s.mem| && s.clock % (UINT_MAX + 1) == 0
    ensures var t, f := AddMeta(pol, s, v), LowestFree(s.mem);
            OldestOf(t.mem, |t.mem|) == f <==> forall i :: f < i < |s.mem| && s.mem[i].used ==> s.mem[i].order > 0
  {
    hide LowestFree, OldestOf;
    var t, f := AddMeta(pol, s, v), LowestFree(s.mem);
    assert t.mem[f].used && t.mem[f].order == 0;
    var k := OldestOf(t.mem, |t.mem|);
    assert t.mem[k].order <= t.mem[f].order;
    if k < f {
      OldestIsLast(t.mem, |t.mem|, f);
    } else if k > f {
      assert s.mem[k].used && s.mem[k].order == 0;
    } else {
      forall i | f < i < |s.mem| && s.mem[i].used ensures s.mem[i].order > 0 {
        OldestIsLast(t.mem, |t.mem|, i);
      }
    }
  }
}
