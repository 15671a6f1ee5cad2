/** The three page replacement policies of kernel/vm.c and the aging they rest on. */
module SwapPolicy {
  import opened Basics
  import opened SwapSpec

  // ---- Popcount -------------------------------------------------------------------

  /** Number of ones in the binary representation. */
  function Ones(n: nat): nat {
    if n == 0 then 0 else n % 2 + Ones(n / 2)
  }

  lemma {:induction false} OnesBound(n: nat, k: nat)
    requires n < Pow2(k)
    ensures Ones(n) <= k
  {
    if n > 0 {
      OnesBound(n / 2, k - 1);
    }
  }

  lemma Pow2Of32()
    ensures Pow2(32) == UINT_MAX + 1 && Pow2(31) == TOP_BIT
  {
    assert Pow2(8) == 256;
    assert Pow2(16) == 65536;
    assert Pow2(24) == 0x100_0000;
  }

  method NumOfOnes(accessCount: nat) returns (n: nat)
    ensures n == Ones(accessCount)
  {
    var rest := accessCount;
    n := 0;
    while rest != 0
      invariant n + Ones(rest) == Ones(accessCount)
    {
      if rest % 2 != 0 {
        n := n + 1;
      }
      rest := rest / 2;
    }
  }

  // ---- NFUA and LAPA --------------------------------------------------------------

  /** Access counts are 32-bit values. */
  ghost predicate Counts32(mem: seq<Meta>) {
    forall i :: 0 <= i < |mem| ==> mem[i].count <= UINT_MAX
  }

  /** Entry k is used and no used entry has a smaller count; the first such entry. */
  ghost predicate LeastCount(mem: seq<Meta>, k: int) {
    && 0 <= k < |mem| && mem[k].used
    && (forall j :: 0 <= j < |mem| && mem[j].used ==> mem[k].count <= mem[j].count)
    && (forall j :: 0 <= j < k && mem[j].used ==> mem[k].count < mem[j].count)
  }

  ghost predicate AllSaturated(mem: seq<Meta>) {
    forall j :: 0 <= j < |mem| && mem[j].used ==> mem[j].count == UINT_MAX
  }

  /** NFUA finds the least count, unless every used page has the largest one: then it
      returns -1, which its callers use as an index. */
  method NfuaAlgorithm(mem: seq<Meta>) returns (pageIndex: int)
    requires Counts32(mem)
    ensures pageIndex == -1 <==> AllSaturated(mem)
    ensures pageIndex != -1 ==> LeastCount(mem, pageIndex)
  {
    pageIndex := -1;
    var best := UINT_MAX;
    for i := 0 to |mem|
      invariant -1 <= pageIndex < i && best <= UINT_MAX
      invariant pageIndex == -1 ==> best == UINT_MAX
      invariant pageIndex != -1 ==> mem[pageIndex].used && mem[pageIndex].count == best < UINT_MAX
      invariant forall j :: 0 <= j < i && mem[j].used ==> best <= mem[j].count
      invariant forall j :: 0 <= j < pageIndex && mem[j].used ==> best < mem[j].count
    {
      if mem[i].used {
        var curr := mem[i].count;
        if curr < best {
          best := curr;
          pageIndex := i;
        }
      }
    }
  }

  /** The order LAPA uses: fewer ones first, then the smaller value. */
  predicate LapaLess(a: nat, b: nat) {
    Ones(a) < Ones(b) || (Ones(a) == Ones(b) && a < b)
  }

  ghost predicate LeastAccessed(mem: seq<Meta>, k: int) {
    && 0 <= k < |mem| && mem[k].used
    && (forall j :: 0 <= j < |mem| && mem[j].used ==> !LapaLess(mem[j].count, mem[k].count))
    && (forall j :: 0 <= j < k && mem[j].used ==> LapaLess(mem[k].count, mem[j].count))
  }

  /** LAPA finds a page whenever there is one: a 32-bit count has at most 32 ones,
      so the first used page always beats the initial bound, and the -1 is never
      used as an index. */
  method LapaAlgorithm(mem: seq<Meta>) returns (pageIndex: int)
    requires Counts32(mem)
    ensures pageIndex == -1 <==> forall j :: 0 <= j < |mem| ==> !mem[j].used
    ensures pageIndex != -1 ==> LeastAccessed(mem, pageIndex)
  {
    pageIndex := -1;
    var best := UINT_MAX;
    for i := 0 to |mem|
      invariant -1 <= pageIndex < i
      invariant pageIndex == -1 ==> best == UINT_MAX && forall j :: 0 <= j < i ==> !mem[j].used
      invariant pageIndex != -1 ==> mem[pageIndex].used && best == Ones(mem[pageIndex].count) <= 32
      invariant pageIndex != -1 ==> forall j :: 0 <= j < i && mem[j].used ==>
                  !LapaLess(mem[j].count, mem[pageIndex].count)
      invariant pageIndex != -1 ==> forall j :: 0 <= j < pageIndex && mem[j].used ==>
                  LapaLess(mem[pageIndex].count, mem[j].count)
    {
      if mem[i].used {
        var curr := NumOfOnes(mem[i].count);
        Pow2Of32();
        OnesBound(mem[i].count, 32);
        if curr < best || (curr == best && mem[i].count < mem[pageIndex].count) {
          best := curr;
          pageIndex := i;
        }
      }
    }
  }

  // ---- Aging ------------------------------------------------------------------------

  /** One tick: shift right, and the accessed bit comes in at the top. */
  function Tick(count: nat, acc: bool): (r: nat)
    ensures count <= UINT_MAX ==> r <= UINT_MAX
  {
    count / 2 + if acc then TOP_BIT else 0
  }

  function Ticks(count: nat, history: seq<bool>): nat {
    if history == [] then count
    else Tick(Ticks(count, history[..|history| - 1]), history[|history| - 1])
  }

  /** The value of a history read as binary, the latest sample most significant. */
  function HistoryValue(history: seq<bool>): nat {
    if history == [] then 0
    else HistoryValue(history[..|history| - 1]) + if history[|history| - 1] then Pow2(|history| - 1) else 0
  }

  lemma {:induction false} Pow2Add(a: nat, b: nat)
    ensures Pow2(a + b) == Pow2(a) * Pow2(b)
  {
    if a > 0 {
      Pow2Add(a - 1, b);
    }
  }

  lemma {:induction false} TicksSplit(count: nat, a: seq<bool>, b: seq<bool>)
    ensures Ticks(count, a + b) == Ticks(Ticks(count, a), b)
  {
    if b == [] {
      assert a + b == a;
    } else {
      var n := |b| - 1;
      TicksSplit(count, a, b[..n]);
      assert (a + b)[..|a + b| - 1] == a + b[..n];
    }
  }

  lemma {:induction false} TicksBound(count: nat, h: seq<bool>)
    requires count <= UINT_MAX
    ensures Ticks(count, h) <= UINT_MAX
  {
    if h != [] {
      TicksBound(count, h[..|h| - 1]);
    }
  }

  lemma {:induction false} ShortHistory(count: nat, h: seq<bool>)
    requires count <= UINT_MAX && |h| <= 32
    ensures Ticks(count, h) == count / Pow2(|h|) + HistoryValue(h) * Pow2(32 - |h|)
  {
    if h != [] {
      var n := |h| - 1;
      ShortHistory(count, h[..n]);
      Pow2Add(n, 31 - n);
      Pow2Of32();
      assert Pow2(32 - n) == 2 * Pow2(31 - n);
      AgingArithmetic(count, HistoryValue(h[..n]), Pow2(n), Pow2(31 - n), h[n]);
    }
  }

  /** What a count is after any number of ticks. As long as there are at most 32, it is
      the start value shifted right, below the sampled accessed bits, which fill the
      top with the latest sample on top; from then on it is the last 32 samples. */
  lemma {:induction false} AgingHistory(count: nat, h: seq<bool>)
    requires count <= UINT_MAX
    ensures |h| <= 32 ==> Ticks(count, h) == count / Pow2(|h|) + HistoryValue(h) * Pow2(32 - |h|)
    ensures |h| >= 32 ==> Ticks(count, h) == HistoryValue(h[|h| - 32..])
  {
    hide Ticks, HistoryValue, Pow2;
    if |h| <= 32 {
      ShortHistory(count, h);
    }
    if |h| >= 32 {
      var n := |h| - 32;
      var c := Ticks(count, h[..n]);
      TicksSplit(count, h[..n], h[n..]);
      assert h[..n] + h[n..] == h;
      TicksBound(count, h[..n]);
      ShortHistory(c, h[n..]);
      Pow2Of32();
      Pow2Of0();
      assert c / Pow2(32) == 0;
    }
  }

  lemma {:induction false} AgingArithmetic(c: nat, hv: nat, p: nat, q: nat, acc: bool)
    requires p > 0 && p * q == TOP_BIT
    ensures Tick(c / p + hv * (2 * q), acc) == c / (2 * p) + (hv + if acc then p else 0) * q
  {
    var half := hv * q;
    assert hv * (2 * q) == 2 * half;
    HalfOfSum(c / p, half);
    DivTwice(c, p);
    assert (hv + p) * q == half + p * q;
  }

  lemma HalfOfSum(a: nat, b: nat)
    ensures (a + 2 * b) / 2 == a / 2 + b
  {
  }

  lemma DivTwice(a: nat, p: nat)
    requires p > 0
    ensures a / p / 2 == a / (2 * p)
  {
    var q, r := a / p, a % p;
    assert a == p * q + r;
    var q2, r2 := q / 2, q % 2;
    assert a == (2 * p) * q2 + (p * r2 + r);
    assert 0 <= p * r2 + r < 2 * p;
    DivUnique(a, 2 * p, q2, p * r2 + r);
  }

  lemma {:induction false} DivUnique(a: nat, d: nat, q: nat, r: nat)
    requires d > 0 && a == d * q + r && r < d
    ensures a / d == q
  {
    var x, y := a / d, a % d;
    assert a == d * x + y;
    assert d * (x - q) == r - y;
    Multiple(d, x - q);
  }

  lemma {:induction false} Multiple(d: int, k: int)
    requires d >= 0
    ensures k >= 1 ==> d * k >= d
    ensures k <= -1 ==> d * k <= -d
  {
    assert d * k == d + d * (k - 1);
    assert d * k == -d + d * (k + 1);
  }

  // ---- What the policies compare ------------------------------------------------------

  /** At how many of the samples the page had been accessed. */
  function CountTrue(h: seq<bool>): nat {
    if h == [] then 0 else CountTrue(h[..|h| - 1]) + if h[|h| - 1] then 1 else 0
  }

  lemma {:induction false} HistoryBound(h: seq<bool>)
    ensures HistoryValue(h) < Pow2(|h|)
  {
    if h != [] {
      HistoryBound(h[..|h| - 1]);
    }
  }

  /** A one above all the others. */
  lemma {:induction false} OnesAbove(low: nat, k: nat)
    requires low < Pow2(k)
    ensures Ones(low + Pow2(k)) == Ones(low) + 1
  {
    OnesHalf(low);
    OnesHalf(low + Pow2(k));
    if k > 0 {
      OnesAbove(low / 2, k - 1);
      HalfOfSum(low, Pow2(k - 1));
    }
  }

  lemma OnesHalf(n: nat)
    ensures Ones(n) == n % 2 + Ones(n / 2)
  {
  }

  /** The ones of a history are the samples at which the page had been accessed. */
  lemma {:induction false} OnesOfHistory(h: seq<bool>)
    ensures Ones(HistoryValue(h)) == CountTrue(h)
  {
    if h != [] {
      var n := |h| - 1;
      OnesOfHistory(h[..n]);
      HistoryBound(h[..n]);
      OnesAbove(HistoryValue(h[..n]), n);
    }
  }

  /** The last 32 samples; those from before the first one read as fill. */
  function Window(h: seq<bool>, fill: bool): seq<bool> {
    (seq(32, _ => fill) + h)[|h|..]
  }

  /** What is in a count: a start value of all ones stands for 32 samples at which the
      page had been accessed, and 0 for 32 at which it had not. */
  lemma {:induction false} TicksAreWindow(h: seq<bool>, fill: bool)
    ensures Ticks(if fill then UINT_MAX else 0, h) == HistoryValue(Window(h, fill))
  {
    hide Ticks, HistoryValue;
    var f := seq(32, _ => fill);
    AgingHistory(0, f);
    AgingHistory(0, f + h);
    TicksSplit(0, f, h);
    Pow2Of32();
    if fill {
      AllOnes(f);
    } else {
      NoOnes(f);
    }
    assert f[|f| - 32..] == f;
  }

  lemma {:induction false} NoOnes(h: seq<bool>)
    requires forall i :: 0 <= i < |h| ==> !h[i]
    ensures HistoryValue(h) == 0
  {
    if h != [] {
      NoOnes(h[..|h| - 1]);
    }
  }

  /** The last sample at which the two differ is i, and it says less for g. */
  ghost predicate IdleLast(g: seq<bool>, h: seq<bool>, i: nat)
    requires |g| == |h|
  {
    i < |g| && !g[i] && h[i] && forall j :: i < j < |g| ==> g[j] == h[j]
  }

  ghost predicate LaterIdle(g: seq<bool>, h: seq<bool>)
    requires |g| == |h|
  {
    exists i: nat :: IdleLast(g, h, i)
  }

  /** NFUA's order is the order of histories by their latest difference. */
  lemma {:induction false} HistoryOrder(g: seq<bool>, h: seq<bool>)
    requires |g| == |h|
    ensures HistoryValue(g) < HistoryValue(h) <==> LaterIdle(g, h)
  {
    hide LaterIdle, Pow2;
    if g == [] {
      NothingIdle(g, h);
    } else {
      var n := |g| - 1;
      HistoryOrder(g[..n], h[..n]);
      HistoryBound(g[..n]);
      HistoryBound(h[..n]);
      LaterStep(g, h);
    }
  }

  lemma NothingIdle(g: seq<bool>, h: seq<bool>)
    requires g == h == []
    ensures !LaterIdle(g, h)
  {
  }

  lemma {:induction false} LaterStep(g: seq<bool>, h: seq<bool>)
    requires |g| == |h| > 0
    ensures var n := |g| - 1;
            LaterIdle(g, h) <==> (!g[n] && h[n]) || (g[n] == h[n] && LaterIdle(g[..n], h[..n]))
  {
    var n := |g| - 1;
    if !g[n] && h[n] {
      assert IdleLast(g, h, n);
    }
    if g[n] == h[n] && LaterIdle(g[..n], h[..n]) {
      var i: nat :| IdleLast(g[..n], h[..n], i);
      assert IdleLast(g, h, i) by {
        forall j | i < j < |g| ensures g[j] == h[j] {
          if j < n {
            assert g[..n][j] == h[..n][j];
          }
        }
      }
    }
    if LaterIdle(g, h) {
      var i: nat :| IdleLast(g, h, i);
      if i < n {
        assert g[n] == h[n];
        assert IdleLast(g[..n], h[..n], i);
      }
    }
  }

  /** A page that was accessed at each of the last 32 ticks has the largest count,
      whatever it was before: the state in which NFUA finds no page. */
  lemma {:induction false} AlwaysAccessedSaturates(count: nat, h: seq<bool>)
    requires count <= UINT_MAX && |h| == 32 && forall i :: 0 <= i < |h| ==> h[i]
    ensures Ticks(count, h) == UINT_MAX
  {
    AgingHistory(count, h);
    Pow2Of32();
    AllOnes(h);
  }

  lemma {:induction false} AllOnes(h: seq<bool>)
    requires forall i :: 0 <= i < |h| ==> h[i]
    ensures HistoryValue(h) == Pow2(|h|) - 1
  {
    if h != [] {
      AllOnes(h[..|h| - 1]);
    }
  }

  // ---- update_access_counter over the whole table ---------------------------------------

  /** Every used entry of the memory table has a PTE. */
  ghost predicate Mapped(s: State) {
    forall i :: 0 <= i < |s.mem| && s.mem[i].used ==> s.mem[i].vpn in s.pt
  }

  /** Entry i is aged by its page's accessed bit, and the bit is cleared. */
  function AgeEntry(s: State, i: nat): State
    requires i < |s.mem| && s.mem[i].used ==> s.mem[i].vpn in s.pt
  {
    if i < |s.mem| && s.mem[i].used then
      var v := s.mem[i].vpn;
      s.(mem := s.mem[i := s.mem[i].(count := Tick(s.mem[i].count, s.pt[v].acc))],
         pt := s.pt[v := s.pt[v].(acc := false)])
    else s
  }

  ghost function AgeFirst(s: State, k: nat): (t: State)
    requires Mapped(s)
    ensures Mapped(t) && AgesOnly(s, t)
  {
    if k == 0 then s else AgeEntry(AgeFirst(s, k - 1), k - 1)
  }

  ghost function AgeAll(s: State): State
    requires Mapped(s)
  {
    AgeFirst(s, |s.mem|)
  }

  /** t differs from s at most in accessed bits, access counts and queue positions. */
  ghost predicate AgesOnly(s: State, t: State) {
    && |t.mem| == |s.mem| && t.pt.Keys == s.pt.Keys
    && (forall i :: 0 <= i < |s.mem| ==> t.mem[i].used == s.mem[i].used && t.mem[i].vpn == s.mem[i].vpn)
    && (forall v :: v in s.pt ==> t.pt[v] == s.pt[v].(acc := t.pt[v].acc))
    && t == s.(mem := t.mem, pt := t.pt, clock := t.clock)
  }

  lemma {:induction false} AgesOnlyCount(ms: seq<Meta>, ns: seq<Meta>)
    requires |ms| == |ns| && forall i :: 0 <= i < |ms| ==> ms[i].used == ns[i].used
    ensures CountUsed(ms) == CountUsed(ns)
  {
    if ms != [] {
      AgesOnlyCount(ms[..|ms| - 1], ns[..|ns| - 1]);
    }
  }

  lemma {:induction false} AgesKeepInv(s: State, t: State, limbo: set<nat>)
    requires InvBut(s, limbo) && AgesOnly(s, t)
    ensures InvBut(t, limbo)
  {
    hide CountUsed;
    AgesOnlyCount(s.mem, t.mem);
    forall v ensures InMemory(s, v) <==> InMemory(t, v) {
    }
    forall v ensures Resident(s, v) <==> Resident(t, v) {
    }
    forall v ensures PagedOut(s, v) <==> PagedOut(t, v) {
    }
    forall v ensures InFile(s, v) <==> InFile(t, v) {
    }
    forall i | 0 <= i < |t.mem| && t.mem[i].used ensures Resident(t, t.mem[i].vpn) {
      assert Resident(s, s.mem[i].vpn);
    }
    forall j | 0 <= j < |t.file| && t.file[j].used ensures PagedOut(t, t.file[j].vpn) {
      assert PagedOut(s, s.file[j].vpn);
    }
  }

  lemma {:induction false} AgesKeepShows(s: State, t: State, flat: map<nat, Page>)
    requires Shows(s, flat) && AgesOnly(s, t)
    ensures Shows(t, flat)
  {
    forall v | v in t.pt && Resident(t, v) ensures t.frames[t.pt[v].ppn] == flat[v] {
      assert Resident(s, v);
    }
  }
}
