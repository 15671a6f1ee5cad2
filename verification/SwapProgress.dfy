/** When a swapping process can always go on, and when it cannot. */
module SwapProgress {
  import opened SwapSpec
  import opened SwapPolicy
  import opened SecondChance
  import opened SwapRuns

  // ---- What aging does to each entry ----------------------------------------------------

  lemma {:induction false} AgesProper(s: State, t: State)
    requires Proper(s) && AgesOnly(s, t)
    ensures Proper(t)
  {
    forall i | 0 <= i < |t.mem| && t.mem[i].used ensures t.mem[i].vpn in t.pt {
      assert s.mem[i].used;
    }
  }

  lemma {:induction false} AgeEntryEffect(s: State, j: nat, i: nat)
    requires Proper(s) && j < |s.mem| && i < |s.mem| && s.mem[i].used
    ensures var t := AgeEntry(s, j);
            var v := s.mem[i].vpn;
            && v in s.pt && v in t.pt && |t.mem| == |s.mem|
            && t.mem[i] == (if i == j then s.mem[i].(count := Tick(s.mem[i].count, s.pt[v].acc)) else s.mem[i])
            && t.pt[v].acc == (i != j && s.pt[v].acc)
  {
    hide Tick;
    assert i != j && s.mem[j].used ==> s.mem[i].vpn != s.mem[j].vpn;
  }

  /** What is left of entry i and of its accessed bit after the first k entries have
      been aged. */
  lemma {:induction false} AgedEntry(s: State, k: nat, i: nat)
    requires Proper(s) && k <= |s.mem| && i < |s.mem| && s.mem[i].used
    ensures var t := AgeFirst(s, k);
            var v := s.mem[i].vpn;
            && v in s.pt && |t.mem| == |s.mem| && v in t.pt
            && t.mem[i] == (if i < k then s.mem[i].(count := Tick(s.mem[i].count, s.pt[v].acc)) else s.mem[i])
            && t.pt[v].acc == (i >= k && s.pt[v].acc)
  {
    hide Tick, AgeEntry, AgesOnly;
    if k > 0 {
      AgedEntry(s, k - 1, i);
      var u := AgeFirst(s, k - 1);
      AgesProper(s, u);
      AgeEntryEffect(u, k - 1, i);
    }
  }

  /** Every used page was accessed and is one tick away from the largest count. */
  ghost predicate WillSaturate(s: State) {
    forall i :: 0 <= i < |s.mem| && s.mem[i].used ==> s.mem[i].count >= UINT_MAX - 1 && IsAccessed(s, i)
  }

  lemma {:induction false} SaturatesIff(s: State)
    requires Proper(s) && Counts32(s.mem)
    ensures AllSaturated(AgeAll(s).mem) <==> WillSaturate(s)
  {
    hide AgeFirst;
    var t := AgeAll(s);
    assert AgesOnly(s, t);
    forall i: nat | i < |s.mem| && s.mem[i].used
      ensures t.mem[i].used && (t.mem[i].count == UINT_MAX <==> s.mem[i].count >= UINT_MAX - 1 && IsAccessed(s, i))
    {
      AgedEntry(s, |s.mem|, i);
    }
  }

  // ---- A victim exists ------------------------------------------------------------------

  lemma {:induction false} LeastCountExists(mem: seq<Meta>, i: nat) returns (k: nat)
    requires i < |mem| && mem[i].used
    ensures LeastCount(mem, k)
    decreases mem[i].count, i
  {
    if j: nat :| j < |mem| && mem[j].used && mem[j].count < mem[i].count {
      k := LeastCountExists(mem, j);
    } else if j: nat :| j < i && mem[j].used && mem[j].count <= mem[i].count {
      k := LeastCountExists(mem, j);
    } else {
      k := i;
    }
  }

  lemma {:induction false} LeastAccessedExists(mem: seq<Meta>, i: nat) returns (k: nat)
    requires i < |mem| && mem[i].used
    ensures LeastAccessed(mem, k)
    decreases Ones(mem[i].count), mem[i].count, i
  {
    hide Ones;
    if j: nat :| j < |mem| && mem[j].used && LapaLess(mem[j].count, mem[i].count) {
      k := LeastAccessedExists(mem, j);
    } else if j: nat :| j < i && mem[j].used && !LapaLess(mem[i].count, mem[j].count) {
      k := LeastAccessedExists(mem, j);
    } else {
      k := i;
    }
  }

  lemma {:induction false} VictimExists(pol: Policy, s: State, i: nat) returns (t: State, k: nat)
    requires Proper(s) && Counts32(s.mem) && i < |s.mem| && s.mem[i].used
    requires pol.NFUA? ==> !WillSaturate(s)
    ensures Victim(pol, s, t, k)
  {
    hide Scfifo, AgeFirst, LeastAccessed, LeastCount, WillSaturate, AllSaturated;
    match pol {
      case SCFIFO =>
        assert CanScan(s);
        t, k := Scfifo(s).0, Scfifo(s).1;
      case NFUA =>
        t := AgeAll(s);
        assert AgesOnly(s, t);
        SaturatesIff(s);
        k := LeastCountExists(t.mem, i);
      case LAPA =>
        t := AgeAll(s);
        assert AgesOnly(s, t);
        k := LeastAccessedExists(t.mem, i);
    }
  }

  lemma {:induction false} NoVictimWhenSaturated(s: State, t: State, k: nat)
    requires Proper(s) && Counts32(s.mem) && WillSaturate(s)
    ensures !Victim(NFUA, s, t, k)
  {
    SaturatesIff(s);
  }

  lemma {:induction false} InvIsProper(s: State, limbo: set<nat>)
    requires InvBut(s, limbo)
    ensures Proper(s)
  {
    forall i | 0 <= i < |s.mem| && s.mem[i].used ensures s.mem[i].vpn in s.pt {
      assert Resident(s, s.mem[i].vpn);
    }
  }

  // ---- Growing and faulting always find their way -----------------------------------------

  lemma {:induction false} SwapForPossible(pol: Policy, t: State, k: nat, v: nat) returns (s': State)
    requires InvBut(t, {v}) && k < |t.mem| && t.mem[k].used && t.inFile < MAX_FILE_PAGES
    ensures SwapFor(pol, t, k, v, s')
  {
    hide InvBut, CountUsed, LowestFree;
    var w := t.mem[k].vpn;
    ReleaseInv(t, k, {v});
    var r := Release(t, k);
    LimboResident(r, w, {v} + {w});
    SlotInReach(r);
    assert CanPageOut(r, w);
    var out := FreeFrame(PageOut(r, w), t.pt[w].ppn);
    LowestAfterRelease(t.mem, k);
    s' := AddMeta(pol, out, v);
  }

  lemma {:induction false} LowestAfterRelease(mem: seq<Meta>, k: nat)
    requires k < |mem|
    ensures LowestFree(mem[k := mem[k].(used := false)]) < |mem|
  {
    var m := mem[k := mem[k].(used := false)];
    assert !m[k].used;
  }

  lemma {:induction false} ExchangePossible(t: State, k: nat, v: nat, frame: nat) returns (s': State)
    requires Inv(t) && k < |t.mem| && t.mem[k].used && InFile(t, v) && FreshFrame(t, frame)
    ensures Exchange(t, k, v, frame, s')
  {
    hide InvBut, CountUsed, LowestFree, FirstWith;
    var w := t.mem[k].vpn;
    ReleaseInv(t, k, {});
    var r := Release(t, k);
    InFileStays(t, k, v);
    LimboResident(r, w, {} + {w});
    SearchHitsLive(r, v);
    PageInInv(r, k, v, frame, {} + {w});
    var i := PageIn(r, k, v, frame);
    LimboResident(i, w, {} + {w});
    CountsBounded(r, {} + {w});
    SlotInReach(i);
    s' := PageOut(i, w);
  }

  /** A process below MAX_TOTAL_PAGES can always grow by a page; none of the unchecked
      free-index lookups comes back empty. Under NFUA this holds exactly if there is
      room in memory or some page is not about to saturate. */
  lemma {:induction false} GrowPossibleIff(pol: Policy, s: State, v: nat, frame: nat)
    requires Inv(s) && Counts32(s.mem) && v !in s.pt && FreshFrame(s, frame) && s.inMem + s.inFile < MAX_TOTAL_PAGES
    ensures (exists s' :: Next(pol, s, Grow(v, frame), s'))
            <==> !(pol.NFUA? && s.inMem == MAX_PYSC_PAGES && WillSaturate(s))
  {
    hide InvBut, CountUsed, LowestFree, Victim, SwapFor, ZeroPage;
    CountsBounded(s, {});
    var m := MapPage(s, v, frame);
    MapPageInv(s, v, frame);
    InvIsProper(m, {v});
    MapKeepsSaturation(s, v, frame);
    if s.inMem < MAX_PYSC_PAGES {
      AddMetaInv(pol, m, v);
      assert Next(pol, s, Grow(v, frame), AddMeta(pol, m, v));
    } else {
      var i := FullHasUsed(m, {v});
      if pol.NFUA? && WillSaturate(s) {
        forall t, k ensures !Victim(pol, m, t, k) {
          NoVictimWhenSaturated(m, t, k);
        }
      } else {
        var t, k := VictimExists(pol, m, i);
        VictimAges(pol, m, t, k);
        AgesKeepInv(m, t, {v});
        var s' := SwapForPossible(pol, t, k, v);
        assert Next(pol, s, Grow(v, frame), s');
      }
    }
  }

  lemma {:induction false} FullHasUsed(s: State, limbo: set<nat>) returns (i: nat)
    requires InvBut(s, limbo) && s.inMem == MAX_PYSC_PAGES
    ensures i < |s.mem| && s.mem[i].used && LowestFree(s.mem) == |s.mem|
  {
    hide LowestFree, CountUsed;
    FreeIffNotFull(s.mem);
    i := 0;
  }

  /** Mapping a new page leaves the pages in memory as they are. */
  lemma {:induction false} MapKeepsSaturation(s: State, v: nat, frame: nat)
    requires Inv(s) && v !in s.pt
    ensures WillSaturate(MapPage(s, v, frame)) <==> WillSaturate(s)
  {
    var m := MapPage(s, v, frame);
    forall i: nat | i < |s.mem| && s.mem[i].used ensures IsAccessed(m, i) <==> IsAccessed(s, i) {
      assert Resident(s, s.mem[i].vpn);
    }
  }

  /** A touch of a page in the file always brings it back, under NFUA exactly if there
      is room in memory or some page is not about to saturate. */
  lemma {:induction false} FaultPossibleIff(pol: Policy, s: State, v: nat, frame: nat)
    requires Inv(s) && Counts32(s.mem) && v in s.pt && s.pt[v].pg && FreshFrame(s, frame)
    ensures (exists s' :: Next(pol, s, Fault(v, frame), s'))
            <==> !(pol.NFUA? && s.inMem == MAX_PYSC_PAGES && WillSaturate(s))
  {
    hide InvBut, CountUsed, LowestFree, Victim, Exchange, FirstWith;
    CountsBounded(s, {});
    PagedOutIsInFile(s, v);
    InvIsProper(s, {});
    if s.inMem < MAX_PYSC_PAGES {
      HasRoom(s);
      SearchHitsLive(s, v);
      assert Next(pol, s, Fault(v, frame), PageIn(s, LowestFree(s.mem), v, frame));
    } else {
      var i := FullHasUsed(s, {});
      if pol.NFUA? && WillSaturate(s) {
        forall t, k ensures !Victim(pol, s, t, k) {
          NoVictimWhenSaturated(s, t, k);
        }
      } else {
        var t, k := VictimExists(pol, s, i);
        VictimAges(pol, s, t, k);
        AgesKeepInv(s, t, {});
        AgesKeepFrames(s, t, frame, v);
        var s' := ExchangePossible(t, k, v, frame);
        assert Next(pol, s, Fault(v, frame), s');
      }
    }
  }

  lemma {:induction false} HasRoom(s: State)
    requires Inv(s) && s.inMem < MAX_PYSC_PAGES
    ensures LowestFree(s.mem) < |s.mem| && FileTable(s)
  {
    hide LowestFree, CountUsed;
    FreeIffNotFull(s.mem);
  }

  // ---- NFUA gets stuck ----------------------------------------------------------------------

  ghost predicate IsPath(pol: Policy, states: seq<State>, events: seq<Event>) {
    && |states| == |events| + 1
    && forall i :: 0 <= i < |events| ==> Next(pol, states[i], events[i], states[i + 1])
  }

  ghost predicate Reaches(pol: Policy, s: State, t: State) {
    exists states, events :: IsPath(pol, states, events) && states[0] == s && states[|events|] == t
  }

  lemma {:induction false} ReachesSelf(pol: Policy, s: State)
    ensures Reaches(pol, s, s)
  {
    assert IsPath(pol, [s], []);
  }

  lemma {:induction false} ReachesStep(pol: Policy, s: State, t: State, e: Event, u: State)
    requires Reaches(pol, s, t) && Next(pol, t, e, u)
    ensures Reaches(pol, s, u)
  {
    hide Next;
    var states, events :| IsPath(pol, states, events) && states[0] == s && states[|events|] == t;
    var states', events' := states + [u], events + [e];
    assert IsPath(pol, states', events');
    assert states'[|events'|] == u;
  }

  /** The process touches the pages of its first k entries. */
  lemma {:induction false} TouchFirst(pol: Policy, s0: State, s: State, k: nat) returns (t: State)
    requires Reaches(pol, s0, s) && Inv(s) && k <= |s.mem|
    ensures Reaches(pol, s0, t) && AgesOnly(s, t) && t.mem == s.mem
    ensures forall i :: 0 <= i < k && s.mem[i].used ==> IsAccessed(t, i)
  {
    hide InvBut, Reaches;
    if k == 0 {
      t := s;
    } else {
      t := TouchFirst(pol, s0, s, k - 1);
      if s.mem[k - 1].used {
        AgesKeepInv(s, t, {});
        UsedIsResident(t, k - 1);
        var u := t;
        var v := t.mem[k - 1].vpn;
        t := u.(pt := u.pt[v := u.pt[v].(acc := true)]);
        ReachesStep(pol, s0, u, Load(v), t);
        forall i | 0 <= i < k && s.mem[i].used ensures IsAccessed(t, i) {
          assert i < k - 1 ==> IsAccessed(u, i);
        }
      }
    }
  }

  lemma {:induction false} UsedIsResident(s: State, i: nat)
    requires Inv(s) && i < |s.mem| && s.mem[i].used
    ensures Resident(s, s.mem[i].vpn)
  {
  }

  /** The same pages in the same entries, each having been accessed at n more ticks. */
  ghost predicate HotFor(s: State, t: State, n: nat) {
    && |t.mem| == |s.mem|
    && forall i :: 0 <= i < |s.mem| ==>
         && t.mem[i].used == s.mem[i].used && t.mem[i].vpn == s.mem[i].vpn
         && (s.mem[i].used ==> t.mem[i].count == Ticks(s.mem[i].count, seq(n, _ => true)))
  }

  lemma {:induction false} HotTick(s: State, t: State, u: State, n: nat)
    requires HotFor(s, t, n) && Proper(u) && AgesOnly(t, u) && u.mem == t.mem
    requires forall i :: 0 <= i < |u.mem| && u.mem[i].used ==> IsAccessed(u, i)
    ensures HotFor(s, AgeAll(u), n + 1)
  {
    hide AgeFirst, Tick;
    var w := AgeAll(u);
    assert AgesOnly(u, w);
    assert seq(n + 1, _ => true)[..n] == seq(n, _ => true);
    forall i: nat | i < |s.mem| && s.mem[i].used
      ensures w.mem[i].count == Ticks(s.mem[i].count, seq(n + 1, _ => true))
    {
      AgedEntry(u, |u.mem|, i);
      assert IsAccessed(u, i);
    }
  }

  lemma {:induction false} HotRounds(s: State, n: nat) returns (t: State)
    requires Inv(s)
    ensures Reaches(NFUA, s, t) && Inv(t) && HotFor(s, t, n) && t.inMem == s.inMem
  {
    hide InvBut, Reaches, Next, HotFor;
    if n == 0 {
      t := s;
      ReachesSelf(NFUA, s);
      HotNow(s);
    } else {
      var u := HotRounds(s, n - 1);
      var w := TouchFirst(NFUA, s, u, |u.mem|);
      AgesKeepInv(u, w, {});
      InvIsProper(w, {});
      t := AgeAll(w);
      assert Next(NFUA, w, AgingTick, t) by { TickIsNext(w); }
      ReachesStep(NFUA, s, w, AgingTick, t);
      AgesKeepInv(w, t, {});
      HotTick(s, u, w, n - 1);
    }
  }

  lemma {:induction false} HotNow(s: State)
    ensures HotFor(s, s, 0)
  {
    assert seq(0, _ => true) == [];
  }

  lemma {:induction false} TickIsNext(s: State)
    requires Proper(s)
    ensures Next(NFUA, s, AgingTick, AgeAll(s))
  {
  }

  /** NFUA's -1 is within reach. From any state with all 16 entries in use, a process
      that touches all of its pages before each of 32 ticks and once more reaches a
      state in which, by GrowPossibleIff and FaultPossibleIff, neither growing nor
      faulting finds a page to evict. */
  lemma {:induction false} NfuaGetsStuck(s: State) returns (t: State)
    requires Inv(s) && Counts32(s.mem) && s.inMem == MAX_PYSC_PAGES
    ensures Reaches(NFUA, s, t) && Inv(t) && t.inMem == MAX_PYSC_PAGES && Counts32(t.mem) && WillSaturate(t)
  {
    hide InvBut, Reaches, HotFor, LowestFree;
    var u := HotRounds(s, 32);
    SaturatedAfter32(s, u);
    t := TouchFirst(NFUA, s, u, |u.mem|);
    AgesKeepInv(u, t, {});
    var i := FullHasUsed(u, {});
    forall i | 0 <= i < |t.mem| ensures t.mem[i].used {
      assert LowestFree(u.mem) == |u.mem|;
    }
  }

  lemma {:induction false} SaturatedAfter32(s: State, t: State)
    requires Counts32(s.mem) && HotFor(s, t, 32)
    ensures forall i :: 0 <= i < |t.mem| && t.mem[i].used ==> t.mem[i].count == UINT_MAX
  {
    forall i | 0 <= i < |t.mem| && t.mem[i].used ensures t.mem[i].count == UINT_MAX {
      AlwaysAccessedSaturates(s.mem[i].count, seq(32, _ => true));
    }
  }

  // ---- Access counts along a run ------------------------------------------------------------

  ghost predicate FileCountsZero(s: State) {
    forall j :: 0 <= j < |s.file| ==> s.file[j].count == 0
  }

  lemma {:induction false} AgedCounts(s: State, k: nat)
    requires Mapped(s) && Counts32(s.mem)
    ensures Counts32(AgeFirst(s, k).mem)
  {
    hide AgesOnly;
    if k > 0 {
      AgedCounts(s, k - 1);
    }
  }

  lemma {:induction false} RequeuedCounts(s: State)
    requires CanScan(s) && Counts32(s.mem)
    ensures Counts32(Scfifo(s).0.mem)
    decreases Accessed(s.mem, s.pt)
  {
    hide Accessed, OldestOf;
    ScfifoTurn(s);
    var k := OldestOf(s.mem, |s.mem|);
    if s.pt[s.mem[k].vpn].acc {
      RequeueProgress(s.mem, s.pt, k, s.clock % (UINT_MAX + 1));
      RequeuedCounts(Requeue(s, k));
    }
  }

  lemma {:induction false} VictimCounts(pol: Policy, s: State, t: State, k: nat)
    requires Victim(pol, s, t, k) && Counts32(s.mem) && FileCountsZero(s)
    ensures Counts32(t.mem) && FileCountsZero(t)
  {
    hide LeastCount, LeastAccessed, AllSaturated, Scfifo, AgeFirst, Counts32;
    VictimAges(pol, s, t, k);
    match pol
    case SCFIFO => RequeuedCounts(s);
    case NFUA => AgedCounts(s, |s.mem|);
    case LAPA => AgedCounts(s, |s.mem|);
  }

  lemma {:induction false} GrowCounts(pol: Policy, s: State, v: nat, frame: nat, s': State)
    requires Next(pol, s, Grow(v, frame), s') && Counts32(s.mem) && FileCountsZero(s)
    ensures Counts32(s'.mem) && FileCountsZero(s')
  {
    hide Victim, LowestFree, FirstWith, AgeFirst, ZeroPage;
    if s.inMem >= MAX_PYSC_PAGES {
      var m := MapPage(s, v, frame);
      var t, k :| Victim(pol, m, t, k) && SwapFor(pol, t, k, v, s');
      VictimCounts(pol, m, t, k);
    }
  }

  lemma {:induction false} FaultCounts(pol: Policy, s: State, v: nat, frame: nat, s': State)
    requires Next(pol, s, Fault(v, frame), s') && Counts32(s.mem) && FileCountsZero(s)
    ensures Counts32(s'.mem) && FileCountsZero(s')
  {
    hide Victim, LowestFree, FirstWith, AgeFirst, ZeroPage;
    if LowestFree(s.mem) >= |s.mem| {
      var t, k :| Victim(pol, s, t, k) && Exchange(t, k, v, frame, s');
      VictimCounts(pol, s, t, k);
    }
  }

  lemma {:induction false} StepCounts(pol: Policy, s: State, e: Event, s': State)
    requires Next(pol, s, e, s') && Counts32(s.mem) && FileCountsZero(s)
    ensures Counts32(s'.mem) && FileCountsZero(s')
  {
    hide Counts32, Victim, SwapFor, Exchange, AgeFirst;
    match e
    case Grow(v, frame) => GrowCounts(pol, s, v, frame, s');
    case Fault(v, frame) => FaultCounts(pol, s, v, frame, s');
    case AgingTick => AgedCounts(s, |s.mem|);
    case _ =>
  }

  lemma {:induction false} RunCounts(pol: Policy, states: seq<State>, events: seq<Event>)
    requires IsRun(pol, states, events)
    ensures Counts32(states[|events|].mem) && FileCountsZero(states[|events|])
    decreases |events|
  {
    hide Next, Counts32;
    if events != [] {
      var n := |events| - 1;
      assert IsRun(pol, states[..n + 1], events[..n]);
      RunCounts(pol, states[..n + 1], events[..n]);
      StepCounts(pol, states[n], events[n], states[n + 1]);
    }
  }

  /** A page brought back from the file starts with access count 0 under every policy.
      For LAPA that is not the 0xFFFFFFFF which update_page_in_pte has just stored: the
      file entry, whose count is always 0, is then copied over it. */
  lemma {:induction false} PageInCountIsZero(s: State, k: nat, v: nat, frame: nat)
    requires Inv(s) && FileCountsZero(s) && InFile(s, v) && k < |s.mem|
    ensures CanPageIn(s, v) && PageIn(s, k, v, frame).mem[k].count == 0
    ensures StartCount(LAPA) != PageIn(s, k, v, frame).mem[k].count
  {
    hide FirstWith, CountUsed;
    SearchHitsLive(s, v);
    PagedOutNotResident(s, v);
  }
}
