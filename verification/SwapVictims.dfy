/** Which page leaves memory, along every run under the aging policies. */
module SwapVictims {
  import opened SwapSpec
  import opened SwapPolicy
  import opened SecondChance
  import opened SwapRuns
  import opened SwapProgress
  import opened SwapHistory

  // ---- The evicted page is the victim -----------------------------------------------------------

  /** Page x is in entry i in s and in the file in s'. */
  ghost predicate Evicts(s: State, s': State, i: nat, x: nat) {
    Holds(s, i, x) && x in s'.pt && s'.pt[x].pg
  }

  /** The state in which the event looks for a victim. */
  function Choosing(s: State, e: Event): State {
    if e.Grow? then MapPage(s, e.v, e.frame) else s
  }

  lemma {:induction false} SwapForEvicts(pol: Policy, t: State, k: nat, v: nat, s': State, x: nat)
    requires SwapFor(pol, t, k, v, s') && x in t.pt && !t.pt[x].pg && x in s'.pt && s'.pt[x].pg
    ensures t.mem[k].vpn == x
  {
    hide LowestFree;
  }

  lemma {:induction false} ExchangeEvicts(t: State, k: nat, v: nat, frame: nat, s': State, x: nat)
    requires Exchange(t, k, v, frame, s') && x in t.pt && !t.pt[x].pg && x in s'.pt && s'.pt[x].pg
    ensures t.mem[k].vpn == x
  {
    hide LowestFree, FirstWith;
  }

  lemma {:induction false} VictimIsEntry(pol: Policy, m: State, t: State, k: nat, i: nat, x: nat)
    requires Proper(m) && Victim(pol, m, t, k) && Holds(m, i, x) && !m.pt[x].pg
    ensures k < |t.mem| && x in t.pt && !t.pt[x].pg
    ensures t.mem[k].vpn == x ==> k == i
  {
    hide Victim;
    VictimAges(pol, m, t, k);
  }

  lemma {:induction false} EvictedIsVictim(pol: Policy, s: State, e: Event, s': State, i: nat, x: nat)
    returns (t: State)
    requires Inv(s) && Next(pol, s, e, s') && Evicts(s, s', i, x)
    ensures (e.Grow? || e.Fault?) && Samples(s, e) && Victim(pol, Choosing(s, e), t, i)
  {
    hide Victim, InvBut, LowestFree, FirstWith, CountUsed, SwapFor, Exchange, AgeFirst, ZeroPage;
    InMemoryNotPaged(s, i, x);
    assert e.Grow? || e.Fault?;
    var m := Choosing(s, e);
    assert Holds(m, i, x) && !m.pt[x].pg;
    if e.Grow? {
      MapPageInv(s, e.v, e.frame);
      InvIsProper(m, {e.v});
      var r, k: nat :| Victim(pol, m, r, k) && SwapFor(pol, r, k, e.v, s');
      VictimIsEntry(pol, m, r, k, i, x);
      SwapForEvicts(pol, r, k, e.v, s', x);
      t := r;
    } else {
      InvIsProper(m, {});
      var r, k: nat :| Victim(pol, m, r, k) && Exchange(r, k, e.v, e.frame, s');
      VictimIsEntry(pol, m, r, k, i, x);
      ExchangeEvicts(r, k, e.v, e.frame, s', x);
      t := r;
    }
  }

  // ---- What it is compared by ---------------------------------------------------------------------

  /** The samples of page v since state a, with the one that an eviction takes in b. */
  ghost function Seen(states: seq<State>, events: seq<Event>, v: nat, a: nat, b: nat): seq<bool>
    requires a <= b < |states| && b <= |events| && forall i :: a <= i <= b ==> v in states[i].pt
  {
    Sampled(states, events, v, a, b) + [states[b].pt[v].acc]
  }

  /** Page v has been in entry k since state a, and what its window holds is known: it has
      32 samples, or came in then, and only a page that is new under LAPA starts as if it
      had been accessed. */
  ghost predicate Since(pol: Policy, states: seq<State>, events: seq<Event>, k: nat, v: nat, a: nat, b: nat,
                        fill: bool)
  {
    && |states| == |events| + 1 && Stays(states, k, v, a, b)
    && (|| |Seen(states, events, v, a, b)| >= 32
        || (0 < a && !Holds(states[a - 1], k, v) && fill == (pol.LAPA? && events[a - 1].Grow?)))
  }

  ghost function Used(states: seq<State>, events: seq<Event>, v: nat, a: nat, b: nat, fill: bool): seq<bool>
    requires a <= b < |states| && b <= |events| && forall i :: a <= i <= b ==> v in states[i].pt
  {
    Window(Seen(states, events, v, a, b), fill)
  }

  /** A long history fills its window, whatever it started from. */
  lemma {:induction false} LongWindow(count: nat, h: seq<bool>, fill: bool)
    requires count <= UINT_MAX && |h| >= 32
    ensures Ticks(count, h) == HistoryValue(Window(h, fill))
  {
    hide Ticks, HistoryValue;
    AgingHistory(count, h);
    assert Window(h, fill) == h[|h| - 32..];
  }

  lemma {:induction false} CountIsWindow(pol: Policy, states: seq<State>, events: seq<Event>, k: nat, v: nat, a: nat,
                                         b: nat, fill: bool)
    requires !pol.SCFIFO? && IsRun(pol, states, events) && Since(pol, states, events, k, v, a, b, fill)
    ensures Tick(states[b].mem[k].count, states[b].pt[v].acc) == HistoryValue(Used(states, events, v, a, b, fill))
  {
    hide Next, AfterExec, Sampled, HistoryValue, Window, Tick;
    CountIsHistory(pol, states, events, k, v, a, b);
    var h := Sampled(states, events, v, a, b);
    var g := Seen(states, events, v, a, b);
    assert g[..|h|] == h;
    assert Ticks(states[a].mem[k].count, g) == Tick(states[b].mem[k].count, states[b].pt[v].acc);
    assert Holds(states[a], k, v);
    if |g| >= 32 {
      assert IsRun(pol, states[..a + 1], events[..a]);
      RunCounts(pol, states[..a + 1], events[..a]);
      LongWindow(states[a].mem[k].count, g, fill);
    } else {
      assert IsRun(pol, states[..a], events[..a - 1]);
      RunCounts(pol, states[..a], events[..a - 1]);
      RunInv(pol, states, events, a - 1);
      LimboFree(states[a - 1]);
      StepEnters(pol, states[a - 1], events[a - 1], states[a], k, v);
      TicksAreWindow(g, fill);
    }
  }

  lemma {:induction false} ChosenCount(pol: Policy, states: seq<State>, events: seq<Event>, t: State, i: nat, k: nat,
                                       v: nat, a: nat, b: nat, fill: bool)
    requires !pol.SCFIFO? && IsRun(pol, states, events) && Since(pol, states, events, k, v, a, b, fill)
    requires b < |events| && Victim(pol, Choosing(states[b], events[b]), t, i)
    ensures Holds(t, k, v) && t.mem[k].count == HistoryValue(Used(states, events, v, a, b, fill))
  {
    hide Victim, AfterExec, Used, HistoryValue, Tick, InvBut, CountUsed, Seen, Next;
    var s, e := states[b], events[b];
    var m := Choosing(s, e);
    CountIsWindow(pol, states, events, k, v, a, b, fill);
    RunInv(pol, states, events, b);
    assert Holds(s, k, v);
    ChoosingIsProper(pol, states, events, b);
    assert Holds(m, k, v) && m.pt[v] == s.pt[v] && m.mem == s.mem by {
      NewPage(pol, states, events, b);
    }
    VictimSamples(pol, m, t, i, v, k);
  }

  lemma {:induction false} NewPage(pol: Policy, states: seq<State>, events: seq<Event>, b: nat)
    requires IsRun(pol, states, events) && b < |events|
    ensures events[b].Grow? ==> events[b].v !in states[b].pt && FreshFrame(states[b], events[b].frame)
  {
    hide AfterExec;
    assert Next(pol, states[b], events[b], states[b + 1]);
  }

  lemma {:induction false} ChoosingIsProper(pol: Policy, states: seq<State>, events: seq<Event>, b: nat)
    requires IsRun(pol, states, events) && b < |events|
    ensures Proper(Choosing(states[b], events[b]))
  {
    hide AfterExec, Next, InvBut, CountUsed, FreshFrame, MapPage;
    RunInv(pol, states, events, b);
    NewPage(pol, states, events, b);
    if events[b].Grow? {
      MapPageInv(states[b], events[b].v, events[b].frame);
      InvIsProper(Choosing(states[b], events[b]), {events[b].v});
    } else {
      InvIsProper(states[b], {});
    }
  }

  // ---- The policies on every run ------------------------------------------------------------------------

  /** LAPA evicts the least accessed page: over every run, no page in memory was accessed
      at fewer of its last 32 samples than the page that leaves, and if one was at as many,
      the latest sample at which they differ has the other one accessed. */
  lemma {:induction false} LapaEvictsLeastAccessed(states: seq<State>, events: seq<Event>, b: nat,
                                                   i: nat, x: nat, a: nat, fx: bool, j: nat, y: nat, c: nat, fy: bool)
    requires IsRun(LAPA, states, events) && b < |events| && Evicts(states[b], states[b + 1], i, x)
    requires Since(LAPA, states, events, i, x, a, b, fx) && Since(LAPA, states, events, j, y, c, b, fy)
    ensures var g, h := Used(states, events, x, a, b, fx), Used(states, events, y, c, b, fy);
            && |g| == |h| == 32
            && CountTrue(g) <= CountTrue(h)
            && (CountTrue(g) == CountTrue(h) ==> LaterIdle(g, h) || (g == h && i <= j))
  {
    hide AfterExec, Next, Used, HistoryValue, InvBut, Ones, CountTrue, LaterIdle, Since, Choosing;
    RunInv(LAPA, states, events, b);
    SinceHolds(LAPA, states, events, i, x, a, b, fx);
    SinceHolds(LAPA, states, events, j, y, c, b, fy);
    var t := EvictedIsVictim(LAPA, states[b], events[b], states[b + 1], i, x);
    ChosenCount(LAPA, states, events, t, i, i, x, a, b, fx);
    ChosenCount(LAPA, states, events, t, i, j, y, c, b, fy);
    var g, h := Used(states, events, x, a, b, fx), Used(states, events, y, c, b, fy);
    UsedIs32(states, events, x, a, b, fx);
    UsedIs32(states, events, y, c, b, fy);
    OnesOfHistory(g);
    OnesOfHistory(h);
    HistoryOrder(g, h);
    if HistoryValue(g) == HistoryValue(h) {
      SameHistory(g, h);
    }
    assert !LapaLess(t.mem[j].count, t.mem[i].count);
    assert j < i ==> LapaLess(t.mem[i].count, t.mem[j].count);
  }

  /** NFUA evicts the page not accessed for longest: over every run, of the page that
      leaves and any other page in memory, the latest sample at which they differ has the
      other one accessed. */
  lemma {:induction false} NfuaEvictsLongestIdle(states: seq<State>, events: seq<Event>, b: nat,
                                                 i: nat, x: nat, a: nat, fx: bool, j: nat, y: nat, c: nat, fy: bool)
    requires IsRun(NFUA, states, events) && b < |events| && Evicts(states[b], states[b + 1], i, x)
    requires Since(NFUA, states, events, i, x, a, b, fx) && Since(NFUA, states, events, j, y, c, b, fy)
    ensures var g, h := Used(states, events, x, a, b, fx), Used(states, events, y, c, b, fy);
            |g| == |h| == 32 && (LaterIdle(g, h) || (g == h && i <= j))
  {
    hide AfterExec, Next, Used, HistoryValue, InvBut, LaterIdle, Since, Choosing;
    RunInv(NFUA, states, events, b);
    SinceHolds(NFUA, states, events, i, x, a, b, fx);
    SinceHolds(NFUA, states, events, j, y, c, b, fy);
    var t := EvictedIsVictim(NFUA, states[b], events[b], states[b + 1], i, x);
    ChosenCount(NFUA, states, events, t, i, i, x, a, b, fx);
    ChosenCount(NFUA, states, events, t, i, j, y, c, b, fy);
    var g, h := Used(states, events, x, a, b, fx), Used(states, events, y, c, b, fy);
    UsedIs32(states, events, x, a, b, fx);
    UsedIs32(states, events, y, c, b, fy);
    HistoryOrder(g, h);
    if HistoryValue(g) == HistoryValue(h) {
      SameHistory(g, h);
    }
    assert t.mem[i].count <= t.mem[j].count;
    assert j < i ==> t.mem[i].count < t.mem[j].count;
  }

  /** A history can be read back from its value. */
  lemma {:induction false} SameHistory(g: seq<bool>, h: seq<bool>)
    requires |g| == |h| && HistoryValue(g) == HistoryValue(h)
    ensures g == h
  {
    if g != [] {
      var n := |g| - 1;
      HistoryBound(g[..n]);
      HistoryBound(h[..n]);
      SameHistory(g[..n], h[..n]);
      assert g == g[..n] + [g[n]] && h == h[..n] + [h[n]];
    }
  }

  lemma {:induction false} SinceHolds(pol: Policy, states: seq<State>, events: seq<Event>, k: nat, v: nat, a: nat,
                                      b: nat, fill: bool)
    requires Since(pol, states, events, k, v, a, b, fill)
    ensures Stays(states, k, v, a, b) && Holds(states[b], k, v)
  {
    hide Seen;
  }

  lemma {:induction false} UsedIs32(states: seq<State>, events: seq<Event>, v: nat, a: nat, b: nat, fill: bool)
    requires a <= b < |states| && b <= |events| && forall i :: a <= i <= b ==> v in states[i].pt
    ensures |Used(states, events, v, a, b, fill)| == 32
  {
    hide Sampled;
  }
}
