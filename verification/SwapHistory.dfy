/** What the aging policies' bookkeeping means along a whole run: an access count is the
    history of its page's accessed bit, and that bit the history of touches. */
module SwapHistory {
  import opened Basics
  import opened SwapSpec
  import opened SwapPolicy
  import opened SecondChance
  import opened SwapRuns
  import opened SwapProgress

  lemma {:induction false} RunInv(pol: Policy, states: seq<State>, events: seq<Event>, n: nat)
    requires IsRun(pol, states, events) && n <= |events|
    ensures Inv(states[n])
  {
    hide InvBut, Shows, Next, AfterExec;
    assert IsRun(pol, states[..n + 1], events[..n]);
    ExecInv(states[0]);
    FlatOfShows(states[0]);
    SwappingIsTransparent(pol, states[..n + 1], events[..n], FlatOf(states[0]));
  }

  // ---- Access counts ----------------------------------------------------------------------

  /** Entry k of the memory table holds page v. */
  ghost predicate Holds(s: State, k: nat, v: nat) {
    k < |s.mem| && s.mem[k].used && s.mem[k].vpn == v && v in s.pt
  }

  /** The event runs update_access_counter: a tick of the scheduler, or an eviction. */
  predicate Samples(s: State, e: Event) {
    match e
    case AgingTick => true
    case Grow(_, _) => s.inMem >= MAX_PYSC_PAGES
    case Fault(_, _) => LowestFree(s.mem) >= |s.mem|
    case _ => false
  }

  predicate Touches(e: Event, v: nat) {
    e == Load(v) || (e.Store? && e.v == v)
  }

  /** Between s and s' the entry of a page that stays is aged by a sample, and its
      accessed bit is set by a touch and cleared by a sample. */
  ghost predicate Aged(s: State, e: Event, s': State, k: nat, v: nat)
    requires Holds(s, k, v) && Holds(s', k, v)
  {
    && s'.mem[k].count == (if Samples(s, e) then Tick(s.mem[k].count, s.pt[v].acc) else s.mem[k].count)
    && s'.pt[v].acc == (Touches(e, v) || (!Samples(s, e) && s.pt[v].acc))
  }

  lemma {:induction false} VictimSamples(pol: Policy, s: State, t: State, i: nat, v: nat, k: nat)
    requires !pol.SCFIFO? && Proper(s) && Holds(s, k, v) && Victim(pol, s, t, i)
    ensures Holds(t, k, v) && !t.pt[v].acc
    ensures t.mem[k].count == Tick(s.mem[k].count, s.pt[v].acc)
  {
    hide AgeFirst, LeastCount, LeastAccessed, AllSaturated, Tick, AgesOnly;
    AgedEntry(s, |s.mem|, k);
  }

  lemma {:induction false} GrowAges(pol: Policy, s: State, w: nat, frame: nat, s': State, k: nat, v: nat)
    requires !pol.SCFIFO? && Inv(s) && Next(pol, s, Grow(w, frame), s') && Holds(s, k, v) && Holds(s', k, v)
    ensures Aged(s, Grow(w, frame), s', k, v)
  {
    hide Victim, Tick, LowestFree, FirstWith, ZeroPage, CountUsed, InvBut;
    var m := MapPage(s, w, frame);
    assert Holds(m, k, v) && m.pt[v] == s.pt[v];
    if s.inMem >= MAX_PYSC_PAGES {
      MapPageInv(s, w, frame);
      InvIsProper(m, {w});
      var t, i :| Victim(pol, m, t, i) && SwapFor(pol, t, i, w, s');
      VictimSamples(pol, m, t, i, v, k);
      SwapForEntry(pol, t, i, w, s', k, v);
    } else {
      assert k != LowestFree(m.mem);
    }
  }

  lemma {:induction false} SwapForEntry(pol: Policy, t: State, i: nat, w: nat, s': State, k: nat, v: nat)
    requires SwapFor(pol, t, i, w, s') && Holds(t, k, v) && Holds(s', k, v) && v != w
    ensures s'.mem[k].count == t.mem[k].count && s'.pt[v].acc == t.pt[v].acc
  {
    hide LowestFree;
    var f := LowestFree(Release(t, i).mem);
    assert k != f;
  }

  lemma {:induction false} FaultAges(pol: Policy, s: State, w: nat, frame: nat, s': State, k: nat, v: nat)
    requires !pol.SCFIFO? && Inv(s) && Next(pol, s, Fault(w, frame), s') && Holds(s, k, v) && Holds(s', k, v)
    ensures Aged(s, Fault(w, frame), s', k, v)
  {
    hide Victim, Tick, LowestFree, FirstWith, CountUsed, InvBut, Exchange;
    InvIsProper(s, {});
    PagedOutIsInFile(s, w);
    InMemoryNotPaged(s, k, v);
    if LowestFree(s.mem) >= |s.mem| {
      var t, i :| Victim(pol, s, t, i) && Exchange(t, i, w, frame, s');
      VictimSamples(pol, s, t, i, v, k);
      ExchangeEntry(t, i, w, frame, s', k, v);
    }
  }

  lemma {:induction false} InMemoryNotPaged(s: State, k: nat, v: nat)
    requires Inv(s) && Holds(s, k, v)
    ensures !s.pt[v].pg
  {
    assert Resident(s, s.mem[k].vpn);
  }

  lemma {:induction false} ExchangeEntry(t: State, i: nat, w: nat, frame: nat, s': State, k: nat, v: nat)
    requires Exchange(t, i, w, frame, s') && Holds(t, k, v) && Holds(s', k, v) && v != w
    ensures s'.mem[k].count == t.mem[k].count && s'.pt[v].acc == t.pt[v].acc
  {
    hide LowestFree, FirstWith;
    assert s'.mem[i].vpn == w;
  }

  lemma {:induction false} StepAges(pol: Policy, s: State, e: Event, s': State, k: nat, v: nat)
    requires !pol.SCFIFO? && Inv(s) && Next(pol, s, e, s') && Holds(s, k, v) && Holds(s', k, v)
    ensures Aged(s, e, s', k, v)
  {
    hide Tick, InvBut, CountUsed, LowestFree, AgeFirst;
    match e
    case Grow(w, frame) => GrowAges(pol, s, w, frame, s', k, v);
    case Fault(w, frame) => FaultAges(pol, s, w, frame, s', k, v);
    case AgingTick =>
      InvIsProper(s, {});
      AgedEntry(s, |s.mem|, k);
    case _ =>
  }

  /** Page v stays in entry k from state a to state b of a run. */
  ghost predicate Stays(states: seq<State>, k: nat, v: nat, a: nat, b: nat) {
    a <= b < |states| && forall i :: a <= i <= b ==> Holds(states[i], k, v)
  }

  /** The accessed bits of page v that were sampled between states a and b. */
  ghost function Sampled(states: seq<State>, events: seq<Event>, v: nat, a: nat, b: nat): seq<bool>
    requires a <= b < |states| && b <= |events| && forall i :: a <= i <= b ==> v in states[i].pt
  {
    if a == b then []
    else
      Sampled(states, events, v, a, b - 1)
      + if Samples(states[b - 1], events[b - 1]) then [states[b - 1].pt[v].acc] else []
  }

  /** An access count is the history of its page: while a page stays in its entry, the
      count is the one it came with, aged by the accessed bits sampled since. */
  lemma {:induction false} CountIsHistory(pol: Policy, states: seq<State>, events: seq<Event>, k: nat, v: nat, a: nat,
                                          b: nat)
    requires !pol.SCFIFO? && IsRun(pol, states, events) && Stays(states, k, v, a, b)
    ensures states[b].mem[k].count == Ticks(states[a].mem[k].count, Sampled(states, events, v, a, b))
    decreases b
  {
    hide Next, InvBut, Tick, AfterExec;
    if a < b {
      CountIsHistory(pol, states, events, k, v, a, b - 1);
      RunInv(pol, states, events, b - 1);
      var s := states[b - 1];
      assert Holds(s, k, v) && Holds(states[b], k, v);
      StepAges(pol, s, events[b - 1], states[b], k, v);
      var h := Sampled(states, events, v, a, b - 1);
      assert (h + [s.pt[v].acc])[..|h|] == h;
      assert h + [] == h;
    }
  }

  // ---- Where a history starts -----------------------------------------------------------------

  /** An entry that is in use after swap() is the new page's or was in use before. */
  lemma {:induction false} SwapForEnters(pol: Policy, t: State, i: nat, w: nat, s': State, k: nat)
    requires !pol.SCFIFO? && SwapFor(pol, t, i, w, s') && k < |s'.mem| && s'.mem[k].used
    ensures |t.mem| == |s'.mem|
    ensures || (s'.mem[k].vpn == w && s'.mem[k].count == StartCount(pol))
            || (t.mem[k].used && t.mem[k].vpn == s'.mem[k].vpn)
  {
    hide LowestFree;
  }

  lemma {:induction false} ExchangeEnters(t: State, i: nat, w: nat, frame: nat, s': State, k: nat)
    requires FileCountsZero(t) && Exchange(t, i, w, frame, s') && k < |s'.mem| && s'.mem[k].used
    ensures |t.mem| == |s'.mem|
    ensures || (s'.mem[k].vpn == w && s'.mem[k].count == 0)
            || (t.mem[k].used && t.mem[k].vpn == s'.mem[k].vpn)
  {
    hide LowestFree, FirstWith;
  }

  lemma {:induction false} HeldBefore(s: State, mem: seq<Meta>, k: nat)
    requires Mapped(s) && |mem| == |s.mem| && forall i :: 0 <= i < |mem| ==>
               mem[i].used == s.mem[i].used && mem[i].vpn == s.mem[i].vpn
    ensures k < |mem| && mem[k].used ==> Holds(s, k, mem[k].vpn)
  {
  }

  lemma {:induction false} GrowEnters(pol: Policy, s: State, w: nat, frame: nat, s': State, k: nat, v: nat)
    requires !pol.SCFIFO? && Mapped(s) && Next(pol, s, Grow(w, frame), s') && !Holds(s, k, v) && Holds(s', k, v)
    ensures v == w && s'.mem[k].count == StartCount(pol)
  {
    hide Victim, LowestFree, ZeroPage, CountUsed, SwapFor, Mapped;
    var m := MapPage(s, w, frame);
    if s.inMem >= MAX_PYSC_PAGES {
      var t, i :| Victim(pol, m, t, i) && SwapFor(pol, t, i, w, s');
      VictimAges(pol, m, t, i);
      SwapForEnters(pol, t, i, w, s', k);
      HeldBefore(s, t.mem, k);
    } else {
      HeldBefore(s, m.mem, k);
    }
  }

  lemma {:induction false} FaultEnters(pol: Policy, s: State, w: nat, frame: nat, s': State, k: nat, v: nat)
    requires !pol.SCFIFO? && FileCountsZero(s) && Mapped(s)
    requires Next(pol, s, Fault(w, frame), s') && !Holds(s, k, v) && Holds(s', k, v)
    ensures v == w && s'.mem[k].count == 0
  {
    hide Victim, LowestFree, FirstWith, CountUsed, Exchange, Mapped;
    if LowestFree(s.mem) >= |s.mem| {
      var t, i :| Victim(pol, s, t, i) && Exchange(t, i, w, frame, s');
      VictimAges(pol, s, t, i);
      ExchangeEnters(t, i, w, frame, s', k);
      HeldBefore(s, t.mem, k);
    } else {
      HeldBefore(s, s.mem, k);
    }
  }

  /** The count a page comes with: all ones for a new page under LAPA, else 0. */
  function CountAtEntry(pol: Policy, e: Event): nat {
    if e.Grow? then StartCount(pol) else 0
  }

  lemma {:induction false} StepEnters(pol: Policy, s: State, e: Event, s': State, k: nat, v: nat)
    requires !pol.SCFIFO? && FileCountsZero(s) && Mapped(s)
    requires Next(pol, s, e, s') && !Holds(s, k, v) && Holds(s', k, v)
    ensures (e.Grow? || e.Fault?) && e.v == v && s'.mem[k].count == CountAtEntry(pol, e)
  {
    hide LowestFree, AgeFirst, Victim, SwapFor, Exchange, Mapped;
    if !e.Grow? && !e.Fault? {
      HeldBefore(s, s'.mem, k);
    }
    match e
    case Grow(w, frame) => GrowEnters(pol, s, w, frame, s', k, v);
    case Fault(w, frame) => FaultEnters(pol, s, w, frame, s', k, v);
    case _ =>
  }

  /** What the aging policies compare: for a page that came into its entry just before
      state a and is still there, the count is read off the accessed bits sampled since,
      and from the 32nd sample on nothing else is left in it. */
  lemma {:induction false} CountFromEntry(pol: Policy, states: seq<State>, events: seq<Event>, k: nat, v: nat, a: nat,
                                          b: nat)
    requires !pol.SCFIFO? && IsRun(pol, states, events) && 0 < a && Stays(states, k, v, a, b)
             && !Holds(states[a - 1], k, v)
    ensures var h := Sampled(states, events, v, a, b);
            && (|h| <= 32 ==>
                  states[b].mem[k].count
                  == CountAtEntry(pol, events[a - 1]) / Pow2(|h|) + HistoryValue(h) * Pow2(32 - |h|))
            && (|h| >= 32 ==> states[b].mem[k].count == HistoryValue(h[|h| - 32..]))
  {
    hide Next, AfterExec, Sampled, Pow2, HistoryValue, Ticks;
    CountIsHistory(pol, states, events, k, v, a, b);
    assert IsRun(pol, states[..a], events[..a - 1]);
    RunCounts(pol, states[..a], events[..a - 1]);
    RunInv(pol, states, events, a - 1);
    LimboFree(states[a - 1]);
    assert Holds(states[a], k, v);
    StepEnters(pol, states[a - 1], events[a - 1], states[a], k, v);
    AgingHistory(states[a].mem[k].count, Sampled(states, events, v, a, b));
  }

  // ---- What a sample says ------------------------------------------------------------------------

  ghost predicate NoSample(states: seq<State>, events: seq<Event>, a: nat, b: nat)
    requires b < |states| && b <= |events|
  {
    forall j {:trigger events[j]} :: a <= j < b ==> !Samples(states[j], events[j])
  }

  /** Page v has been touched between states a and b, and not sampled after that. */
  ghost predicate TouchedSince(states: seq<State>, events: seq<Event>, v: nat, a: nat, b: nat)
    requires b < |states| && b <= |events|
  {
    exists i: nat :: a <= i < b && Touches(events[i], v) && NoSample(states, events, i + 1, b)
  }

  /** The accessed bit, and so the next sample, tells whether the page has been touched
      since the last one. */
  lemma {:induction false} BitIsTouched(pol: Policy, states: seq<State>, events: seq<Event>, k: nat, v: nat, a: nat,
                                        b: nat)
    requires !pol.SCFIFO? && IsRun(pol, states, events) && Stays(states, k, v, a, b)
    ensures states[b].pt[v].acc <==>
              TouchedSince(states, events, v, a, b) || (states[a].pt[v].acc && NoSample(states, events, a, b))
    decreases b
  {
    hide Next, InvBut, Tick, AfterExec, Samples, TouchedSince, Touches;
    if a == b {
      NothingSince(states, events, v, a);
    } else {
      BitIsTouched(pol, states, events, k, v, a, b - 1);
      RunInv(pol, states, events, b - 1);
      assert Holds(states[b - 1], k, v) && Holds(states[b], k, v);
      StepAges(pol, states[b - 1], events[b - 1], states[b], k, v);
      TouchedStep(states, events, v, a, b);
      NoSampleStep(states, events, a, b);
    }
  }

  lemma NothingSince(states: seq<State>, events: seq<Event>, v: nat, a: nat)
    requires a < |states| && a <= |events|
    ensures !TouchedSince(states, events, v, a, a) && NoSample(states, events, a, a)
  {
  }

  lemma {:induction false} NoSampleStep(states: seq<State>, events: seq<Event>, a: nat, b: nat)
    requires a < b < |states| && b <= |events|
    ensures NoSample(states, events, a, b) <==>
              NoSample(states, events, a, b - 1) && !Samples(states[b - 1], events[b - 1])
  {
    hide Samples;
  }

  lemma {:induction false} TouchedStep(states: seq<State>, events: seq<Event>, v: nat, a: nat, b: nat)
    requires a < b < |states| && b <= |events|
    ensures TouchedSince(states, events, v, a, b) <==>
              || Touches(events[b - 1], v)
              || (!Samples(states[b - 1], events[b - 1]) && TouchedSince(states, events, v, a, b - 1))
  {
    hide Touches, Samples;
    var n := b - 1;
    if Touches(events[n], v) {
      assert NoSample(states, events, n + 1, b);
    }
    if !Samples(states[n], events[n]) && TouchedSince(states, events, v, a, n) {
      var i: nat :| a <= i < n && Touches(events[i], v) && NoSample(states, events, i + 1, n);
      assert NoSample(states, events, i + 1, b);
    }
    if TouchedSince(states, events, v, a, b) && !Touches(events[n], v) {
      var i: nat :| a <= i < b && Touches(events[i], v) && NoSample(states, events, i + 1, b);
      assert NoSample(states, events, i + 1, n);
    }
  }

  // ---- What a page brings with it -------------------------------------------------------------------

  /** No page in the file has its accessed bit set. */
  ghost predicate FileIdle(s: State) {
    forall v :: v in s.pt && s.pt[v].pg ==> !s.pt[v].acc
  }

  lemma {:induction false} AgingClears(s: State, k: nat, v: nat)
    requires Mapped(s) && v in s.pt
    ensures v in AgeFirst(s, k).pt && (AgeFirst(s, k).pt[v].acc ==> s.pt[v].acc)
  {
    hide Tick, AgesOnly, Mapped;
    if k > 0 {
      AgingClears(s, k - 1, v);
      EntryClears(AgeFirst(s, k - 1), k - 1, v);
    }
  }

  lemma {:induction false} EntryClears(s: State, i: nat, v: nat)
    requires Mapped(s) && v in s.pt
    ensures v in AgeEntry(s, i).pt && (AgeEntry(s, i).pt[v].acc ==> s.pt[v].acc)
  {
    hide Tick;
  }

  /** What moving pages does to the PTE of page x. */
  lemma {:induction false} SwapForPte(pol: Policy, t: State, k: nat, v: nat, s': State, x: nat)
    requires SwapFor(pol, t, k, v, s')
    ensures x in s'.pt ==> x in t.pt && s'.pt[x].perm == t.pt[x].perm && s'.pt[x].acc == t.pt[x].acc
    ensures x in s'.pt && s'.pt[x].pg ==> t.pt[x].pg || x == t.mem[k].vpn
  {
    hide LowestFree;
  }

  lemma {:induction false} ExchangePte(t: State, k: nat, v: nat, frame: nat, s': State, x: nat)
    requires Exchange(t, k, v, frame, s')
    ensures x in s'.pt ==> x in t.pt && s'.pt[x].acc == t.pt[x].acc
    ensures x in s'.pt ==> s'.pt[x].perm == if x == v then RWXU else t.pt[x].perm
    ensures x in s'.pt && s'.pt[x].pg ==> t.pt[x].pg || x == t.mem[k].vpn
  {
    hide LowestFree, FirstWith;
  }

  lemma {:induction false} VictimIdle(pol: Policy, s: State, t: State, k: nat)
    requires !pol.SCFIFO? && Proper(s) && FileIdle(s) && Victim(pol, s, t, k)
    ensures FileIdle(t) && k < |t.mem| && t.mem[k].vpn in t.pt && !t.pt[t.mem[k].vpn].acc
  {
    hide LeastCount, LeastAccessed, AllSaturated, AgeFirst;
    VictimAges(pol, s, t, k);
    VictimSamples(pol, s, t, k, s.mem[k].vpn, k);
    forall v | v in t.pt && t.pt[v].pg ensures !t.pt[v].acc {
      AgingClears(s, |s.mem|, v);
    }
  }

  lemma {:induction false} StepFileIdle(pol: Policy, s: State, e: Event, s': State)
    requires !pol.SCFIFO? && Inv(s) && FileIdle(s) && Next(pol, s, e, s')
    ensures FileIdle(s')
  {
    hide InvBut, LowestFree, FirstWith, CountUsed, AgeFirst, Victim, ZeroPage, SwapFor, Exchange;
    InvIsProper(s, {});
    match e
    case Grow(v, frame) =>
      var m := MapPage(s, v, frame);
      MapPageInv(s, v, frame);
      InvIsProper(m, {v});
      if s.inMem >= MAX_PYSC_PAGES {
        var t, k: nat :| Victim(pol, m, t, k) && SwapFor(pol, t, k, v, s');
        VictimIdle(pol, m, t, k);
        forall x | x in s'.pt && s'.pt[x].pg ensures !s'.pt[x].acc {
          SwapForPte(pol, t, k, v, s', x);
        }
      }
    case Fault(v, frame) =>
      if LowestFree(s.mem) >= |s.mem| {
        var t, k: nat :| Victim(pol, s, t, k) && Exchange(t, k, v, frame, s');
        VictimIdle(pol, s, t, k);
        forall x | x in s'.pt && s'.pt[x].pg ensures !s'.pt[x].acc {
          ExchangePte(t, k, v, frame, s', x);
        }
      }
    case Load(v) => PagedOutIsInFile(s, v); LimboFree(s); ValidNotPaged(s, v);
    case Store(v, _) => PagedOutIsInFile(s, v); LimboFree(s); ValidNotPaged(s, v);
    case AgingTick =>
      forall v | v in s'.pt && s'.pt[v].pg ensures !s'.pt[v].acc {
        AgingClears(s, |s.mem|, v);
      }
  }

  lemma {:induction false} ValidNotPaged(s: State, v: nat)
    requires Inv(s) && v in s.pt && s.pt[v].valid
    ensures !s.pt[v].pg
  {
    hide InvBut;
    PagedOutIsInFile(s, v);
  }

  lemma {:induction false} RunFileIdle(pol: Policy, states: seq<State>, events: seq<Event>, n: nat)
    requires !pol.SCFIFO? && IsRun(pol, states, events) && n <= |events|
    ensures FileIdle(states[n])
  {
    hide Next, InvBut, FileIdle;
    if n == 0 {
      NothingPaged(states[0]);
    } else {
      RunFileIdle(pol, states, events, n - 1);
      RunInv(pol, states, events, n - 1);
      StepFileIdle(pol, states[n - 1], events[n - 1], states[n]);
    }
  }

  lemma {:induction false} NothingPaged(s: State)
    requires AfterExec(s)
    ensures FileIdle(s)
  {
    hide InvBut;
    forall v | v in s.pt ensures !s.pt[v].pg {
      PagedOutIsInFile(s, v);
    }
  }

  /** A page comes in as not accessed, so from then on its bit tells of touches alone. */
  lemma {:induction false} BitSinceEntry(pol: Policy, states: seq<State>, events: seq<Event>, k: nat, v: nat, a: nat,
                                         b: nat)
    requires !pol.SCFIFO? && IsRun(pol, states, events) && 0 < a && Stays(states, k, v, a, b)
             && !Holds(states[a - 1], k, v)
    ensures states[b].pt[v].acc <==> TouchedSince(states, events, v, a, b)
  {
    hide Next, AfterExec, InvBut, TouchedSince;
    BitIsTouched(pol, states, events, k, v, a, b);
    assert IsRun(pol, states[..a], events[..a - 1]);
    RunCounts(pol, states[..a], events[..a - 1]);
    RunInv(pol, states, events, a - 1);
    RunFileIdle(pol, states, events, a - 1);
    LimboFree(states[a - 1]);
    assert Holds(states[a], k, v);
    EntersIdle(pol, states[a - 1], events[a - 1], states[a], k, v);
  }

  lemma {:induction false} EntersIdle(pol: Policy, s: State, e: Event, s': State, k: nat, v: nat)
    requires !pol.SCFIFO? && Inv(s) && FileIdle(s) && FileCountsZero(s) && Mapped(s)
    requires Next(pol, s, e, s') && !Holds(s, k, v) && Holds(s', k, v)
    ensures !s'.pt[v].acc
  {
    hide InvBut, LowestFree, FirstWith, CountUsed, AgeFirst, Victim, ZeroPage, SwapFor, Exchange;
    StepEnters(pol, s, e, s', k, v);
    InvIsProper(s, {});
    if e.Grow? {
      var m := MapPage(s, v, e.frame);
      if s.inMem >= MAX_PYSC_PAGES {
        MapPageInv(s, v, e.frame);
        InvIsProper(m, {v});
        var t, i: nat :| Victim(pol, m, t, i) && SwapFor(pol, t, i, v, s');
        VictimOnlyClears(pol, m, t, i, v);
        SwapForPte(pol, t, i, v, s', v);
      }
    } else {
      if LowestFree(s.mem) >= |s.mem| {
        var t, i: nat :| Victim(pol, s, t, i) && Exchange(t, i, v, e.frame, s');
        VictimOnlyClears(pol, s, t, i, v);
        ExchangePte(t, i, v, e.frame, s', v);
      }
    }
  }

  lemma {:induction false} VictimOnlyClears(pol: Policy, s: State, t: State, k: nat, v: nat)
    requires !pol.SCFIFO? && Victim(pol, s, t, k) && v in s.pt
    ensures v in t.pt && (t.pt[v].acc ==> s.pt[v].acc)
  {
    hide LeastCount, LeastAccessed, AllSaturated, AgeFirst;
    AgingClears(s, |s.mem|, v);
  }

  // ---- Permissions ------------------------------------------------------------------------------------

  /** Page v is new, or comes back from the file. */
  predicate Brings(e: Event, v: nat) {
    (e.Grow? || e.Fault?) && e.v == v
  }

  lemma {:induction false} StepPerm(pol: Policy, s: State, e: Event, s': State, v: nat)
    requires Next(pol, s, e, s') && v in s'.pt
    ensures !Brings(e, v) ==> v in s.pt && s'.pt[v].perm == s.pt[v].perm
    ensures Brings(e, v) ==> s'.pt[v].perm == RWXU
  {
    hide LowestFree, FirstWith, AgeFirst, Victim, ZeroPage, SwapFor, Exchange;
    match e
    case Grow(w, frame) =>
      if s.inMem >= MAX_PYSC_PAGES {
        var m := MapPage(s, w, frame);
        var t, k: nat :| Victim(pol, m, t, k) && SwapFor(pol, t, k, w, s');
        VictimAges(pol, m, t, k);
        SwapForPte(pol, t, k, w, s', v);
      }
    case Fault(w, frame) =>
      if LowestFree(s.mem) >= |s.mem| {
        var t, k: nat :| Victim(pol, s, t, k) && Exchange(t, k, w, frame, s');
        VictimAges(pol, s, t, k);
        ExchangePte(t, k, w, frame, s', v);
      }
    case _ =>
  }

  /** Swapping does not keep permissions: over every run a page has those that exec gave it
      as long as it has not been brought in, and all of them from then on. */
  lemma {:induction false} PermIsLost(pol: Policy, states: seq<State>, events: seq<Event>, n: nat, v: nat)
    requires IsRun(pol, states, events) && n <= |events| && v in states[n].pt
    ensures if exists i: nat :: i < n && Brings(events[i], v) then states[n].pt[v].perm == RWXU
            else v in states[0].pt && states[n].pt[v].perm == states[0].pt[v].perm
  {
    hide Next, AfterExec;
    if n > 0 {
      StepPerm(pol, states[n - 1], events[n - 1], states[n], v);
      if !Brings(events[n - 1], v) {
        PermIsLost(pol, states, events, n - 1, v);
      }
    }
  }
}
