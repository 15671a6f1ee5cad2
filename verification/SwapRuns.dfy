/** Whole runs of a swapping process against a flat memory that never swaps. */
module SwapRuns {
  import opened SwapSpec
  import opened SwapPolicy
  import opened SecondChance

  // ---- The victim ---------------------------------------------------------------------

  /** get_swap_out_page_index in state s leaves state t and returns entry k. Under
      NFUA there is no such k when every used page is saturated. */
  ghost predicate Victim(pol: Policy, s: State, t: State, k: nat) {
    match pol
    case SCFIFO => CanScan(s) && Scfifo(s) == (t, k)
    case NFUA => Mapped(s) && t == AgeAll(s) && !AllSaturated(t.mem) && LeastCount(t.mem, k)
    case LAPA => Mapped(s) && t == AgeAll(s) && LeastAccessed(t.mem, k)
  }

  lemma {:induction false} VictimAges(pol: Policy, s: State, t: State, k: nat)
    requires Victim(pol, s, t, k)
    ensures AgesOnly(s, t) && k < |t.mem| && t.mem[k].used
  {
    hide LeastAccessed, AllSaturated, Scfifo;
    match pol
    case SCFIFO => ScfifoAges(s);
    case NFUA =>
    case LAPA => LeastAccessedIsUsed(t.mem, k);
  }

  lemma LeastAccessedIsUsed(mem: seq<Meta>, k: int)
    requires LeastAccessed(mem, k)
    ensures 0 <= k < |mem| && mem[k].used
  {
  }

  // ---- Growing and faulting -----------------------------------------------------------

  /** The frame of an evicted page goes back to kalloc, filled with junk. */
  function FreeFrame(s: State, frame: nat): State {
    s.(frames := s.frames[frame := seq(4096, _ => 1)])
  }

  ghost predicate CanPageOut(s: State, v: nat) {
    && v in s.pt && s.pt[v].ppn in s.frames
    && LowestFree(s.file) < |s.file| && LowestFree(s.file) <= |s.swap|
  }

  ghost predicate CanPageIn(s: State, v: nat) {
    v in s.pt && FirstWith(s.file, v) < |s.file| && FirstWith(s.file, v) < |s.swap| && s.inFile > 0
  }

  /** swap(): entry k makes room for the new page v. */
  ghost predicate SwapFor(pol: Policy, t: State, k: nat, v: nat, s': State) {
    && k < |t.mem| && t.inMem > 0
    && var w := t.mem[k].vpn;
       var r := Release(t, k);
       && CanPageOut(r, w)
       && var out := FreeFrame(PageOut(r, w), t.pt[w].ppn);
          LowestFree(out.mem) < |out.mem| && s' == AddMeta(pol, out, v)
  }

  /** The page-fault path when memory is full: v comes into entry k, then its old page
      goes out. */
  ghost predicate Exchange(t: State, k: nat, v: nat, frame: nat, s': State) {
    && k < |t.mem| && t.inMem > 0
    && var w := t.mem[k].vpn;
       var r := Release(t, k);
       CanPageIn(r, v) && CanPageOut(PageIn(r, k, v, frame), w) && s' == PageOut(PageIn(r, k, v, frame), w)
  }

  datatype Event =
    | Grow(v: nat, frame: nat)       // one page of sbrk
    | Load(v: nat)
    | Store(v: nat, data: Page)
    | Fault(v: nat, frame: nat)      // a touch of a page that is in the file
    | AgingTick                      // the scheduler's update_access_counter

  ghost predicate Next(pol: Policy, s: State, e: Event, s': State) {
    match e
    case Grow(v, frame) =>
      && v !in s.pt && FreshFrame(s, frame) && s.inMem + s.inFile < MAX_TOTAL_PAGES
      && var m := MapPage(s, v, frame);
         if s.inMem < MAX_PYSC_PAGES then LowestFree(m.mem) < |m.mem| && s' == AddMeta(pol, m, v)
         else exists t, k :: Victim(pol, m, t, k) && SwapFor(pol, t, k, v, s')
    case Load(v) =>
      v in s.pt && s.pt[v].valid && s' == s.(pt := s.pt[v := s.pt[v].(acc := true)])
    case Store(v, data) =>
      && v in s.pt && s.pt[v].valid
      && s' == s.(pt := s.pt[v := s.pt[v].(acc := true)], frames := s.frames[s.pt[v].ppn := data])
    case Fault(v, frame) =>
      && v in s.pt && s.pt[v].pg && FreshFrame(s, frame)
      && var f := LowestFree(s.mem);
         if f < |s.mem| then CanPageIn(s, v) && s' == PageIn(s, f, v, frame)
         else exists t, k :: Victim(pol, s, t, k) && Exchange(t, k, v, frame, s')
    case AgingTick => !pol.SCFIFO? && Mapped(s) && s' == AgeAll(s)
  }

  /** What each event does to a memory that never swaps. */
  function FlatNext(flat: map<nat, Page>, e: Event): map<nat, Page> {
    match e
    case Grow(v, _) => flat[v := ZeroPage()]
    case Store(v, data) => flat[v := data]
    case _ => flat
  }

  // ---- Each event is transparent ----------------------------------------------------------

  lemma {:induction false} ReleaseShows(s: State, k: nat, flat: map<nat, Page>)
    requires Shows(s, flat) && k < |s.mem| && s.inMem > 0
    ensures Shows(Release(s, k), flat)
  {
    var t := Release(s, k);
    forall v | v in t.pt && Resident(t, v) ensures t.frames[t.pt[v].ppn] == flat[v] {
      assert Resident(s, v);
    }
  }

  lemma {:induction false} AddMetaShows(pol: Policy, s: State, v: nat, flat: map<nat, Page>)
    requires Shows(s, flat) && LowestFree(s.mem) < |s.mem|
    ensures Shows(AddMeta(pol, s, v), flat)
  {
    hide LowestFree;
    var t := AddMeta(pol, s, v);
    forall v | v in t.pt && Resident(t, v) ensures t.frames[t.pt[v].ppn] == flat[v] {
      assert Resident(s, v);
    }
  }

  /** The tables do not look into frames. */
  lemma {:induction false} FramesKeepInv(s: State, frames: map<nat, Page>, limbo: set<nat>)
    requires InvBut(s, limbo) && s.frames.Keys <= frames.Keys
    ensures InvBut(s.(frames := frames), limbo)
  {
    hide CountUsed;
    var t := s.(frames := frames);
    forall v ensures InMemory(t, v) <==> InMemory(s, v) {
    }
    forall v ensures InFile(t, v) <==> InFile(s, v) {
    }
    forall v ensures PagedOut(t, v) <==> PagedOut(s, v) {
    }
    forall v | Resident(s, v) ensures Resident(t, v) {
    }
    assert FileTable(t);
  }

  /** Freeing a frame that no page in memory uses changes nothing visible. */
  lemma {:induction false} FreeFrameKeeps(s: State, frame: nat, limbo: set<nat>, flat: map<nat, Page>)
    requires InvBut(s, limbo) && Shows(s, flat) && FreshFrame(s, frame)
    ensures InvBut(FreeFrame(s, frame), limbo) && Shows(FreeFrame(s, frame), flat)
  {
    hide InvBut;
    var t := FreeFrame(s, frame);
    FramesKeepInv(s, t.frames, limbo);
    forall v | v in t.pt && Resident(t, v) ensures t.frames[t.pt[v].ppn] == flat[v] {
      assert Resident(s, v);
    }
  }

  /** The frame of a page that has just left memory is used by no other page. */
  lemma {:induction false} EvictedFrameIsFree(s: State, v: nat, limbo: set<nat>)
    requires InvBut(s, limbo) && v in limbo && CanPageOut(s, v)
    ensures FreshFrame(PageOut(s, v), s.pt[v].ppn)
  {
    hide CountUsed, LowestFree, FileTable, MemTable;
    assert Resident(s, v);
  }

  lemma {:induction false} SwapForKeeps(pol: Policy, t: State, k: nat, v: nat, s': State, flat: map<nat, Page>)
    requires InvBut(t, {v}) && Shows(t, flat) && k < |t.mem| && t.mem[k].used && t.inFile < MAX_FILE_PAGES
    requires SwapFor(pol, t, k, v, s')
    ensures Inv(s') && Shows(s', flat)
  {
    hide InvBut, Shows, LowestFree, CountUsed, FreshFrame;
    var w := t.mem[k].vpn;
    var r := Release(t, k);
    ReleaseInv(t, k, {v});
    ReleaseShows(t, k, flat);
    var out := PageOut(r, w);
    LimboResident(r, w, {v} + {w});
    PageOutInv(r, w, {v} + {w});
    PageOutShows(r, w, flat);
    EvictedFrameIsFree(r, w, {v} + {w});
    FreeFrameKeeps(out, t.pt[w].ppn, {v} + {w} - {w}, flat);
    assert {v} + {w} - {w} == {v};
    var u := FreeFrame(out, t.pt[w].ppn);
    CountsBounded(t, {v});
    AddMetaInv(pol, u, v);
    AddMetaShows(pol, u, v, flat);
  }

  lemma {:induction false} LimboResident(s: State, v: nat, limbo: set<nat>)
    requires InvBut(s, limbo) && v in limbo
    ensures FileTable(s) && Resident(s, v)
  {
  }

  lemma {:induction false} CountsBounded(s: State, limbo: set<nat>)
    requires InvBut(s, limbo)
    ensures s.inMem <= MAX_PYSC_PAGES && s.inFile <= MAX_FILE_PAGES && |s.mem| == MAX_PYSC_PAGES
  {
  }

  lemma {:induction false} ExchangeKeeps(t: State, k: nat, v: nat, frame: nat, s': State, flat: map<nat, Page>)
    requires Inv(t) && Shows(t, flat) && k < |t.mem| && t.mem[k].used && InFile(t, v) && FreshFrame(t, frame)
    requires Exchange(t, k, v, frame, s')
    ensures Inv(s') && Shows(s', flat)
  {
    hide InvBut, Shows, LowestFree, CountUsed, FirstWith;
    var w := t.mem[k].vpn;
    var r := Release(t, k);
    ReleaseInv(t, k, {});
    ReleaseShows(t, k, flat);
    InFileStays(t, k, v);
    LimboResident(r, w, {} + {w});
    PageInInv(r, k, v, frame, {} + {w});
    PageInShows(r, k, v, frame, flat);
    var i := PageIn(r, k, v, frame);
    LimboResident(i, w, {} + {w});
    CountsBounded(r, {} + {w});
    PageOutInv(i, w, {} + {w});
    PageOutShows(i, w, flat);
    assert {} + {w} - {w} == {};
  }

  lemma {:induction false} InFileStays(t: State, k: nat, v: nat)
    requires k < |t.mem| && t.inMem > 0 && InFile(t, v)
    ensures InFile(Release(t, k), v)
  {
  }

  lemma {:induction false} PagedOutIsInFile(s: State, v: nat)
    requires Inv(s) && v in s.pt
    ensures s.pt[v].valid ==> Resident(s, v) && InMemory(s, v)
    ensures s.pt[v].pg ==> InFile(s, v) && s.inFile > 0
  {
    hide CountUsed;
    if InMemory(s, v) {
      var i :| 0 <= i < |s.mem| && s.mem[i].used && s.mem[i].vpn == v;
      assert Resident(s, s.mem[i].vpn);
    } else {
      PagedOutNotResident(s, v);
      SearchHitsLive(s, v);
    }
  }

  lemma {:induction false} GrowKeeps(pol: Policy, s: State, v: nat, frame: nat, s': State, flat: map<nat, Page>)
    requires Inv(s) && Shows(s, flat) && Next(pol, s, Grow(v, frame), s')
    ensures Inv(s') && Shows(s', flat[v := ZeroPage()])
  {
    hide InvBut, Shows, LowestFree, CountUsed, Victim, SwapFor, ZeroPage;
    var m := MapPage(s, v, frame);
    var flat' := flat[v := ZeroPage()];
    MapPageInv(s, v, frame);
    MapPageShows(s, v, frame, flat);
    CountsBounded(s, {});
    if s.inMem < MAX_PYSC_PAGES {
      AddMetaInv(pol, m, v);
      AddMetaShows(pol, m, v, flat');
    } else {
      var t, k :| Victim(pol, m, t, k) && SwapFor(pol, t, k, v, s');
      VictimAges(pol, m, t, k);
      AgesKeepInv(m, t, {v});
      AgesKeepShows(m, t, flat');
      SwapForKeeps(pol, t, k, v, s', flat');
    }
  }

  lemma {:induction false} FaultKeeps(pol: Policy, s: State, v: nat, frame: nat, s': State, flat: map<nat, Page>)
    requires Inv(s) && Shows(s, flat) && Next(pol, s, Fault(v, frame), s')
    ensures Inv(s') && Shows(s', flat)
  {
    hide InvBut, Shows, CountUsed, Victim, Exchange, FirstWith;
    PagedOutIsInFile(s, v);
    var f := LowestFree(s.mem);
    if f < |s.mem| {
      PageInInv(s, f, v, frame, {});
      LimboFree(s);
      PageInShows(s, f, v, frame, flat);
    } else {
      var t, k :| Victim(pol, s, t, k) && Exchange(t, k, v, frame, s');
      VictimAges(pol, s, t, k);
      AgesKeepInv(s, t, {});
      AgesKeepShows(s, t, flat);
      AgesKeepFrames(s, t, frame, v);
      ExchangeKeeps(t, k, v, frame, s', flat);
    }
  }

  lemma {:induction false} LimboFree(s: State)
    requires Inv(s)
    ensures FileTable(s) && Mapped(s)
  {
    forall i | 0 <= i < |s.mem| && s.mem[i].used ensures s.mem[i].vpn in s.pt {
      assert Resident(s, s.mem[i].vpn);
    }
  }

  lemma {:induction false} AgesKeepFrames(s: State, t: State, frame: nat, v: nat)
    requires AgesOnly(s, t) && FreshFrame(s, frame) && InFile(s, v)
    ensures FreshFrame(t, frame) && InFile(t, v)
  {
  }

  lemma {:induction false} TouchKeeps(s: State, v: nat, data: Page, flat: map<nat, Page>)
    requires Inv(s) && Shows(s, flat) && v in s.pt && s.pt[v].valid
    ensures Inv(s.(pt := s.pt[v := s.pt[v].(acc := true)], frames := s.frames[s.pt[v].ppn := data]))
    ensures Shows(s.(pt := s.pt[v := s.pt[v].(acc := true)], frames := s.frames[s.pt[v].ppn := data]), flat[v := data])
  {
    hide CountUsed;
    PagedOutIsInFile(s, v);
    var a := s.(pt := s.pt[v := s.pt[v].(acc := true)]);
    assert AgesOnly(s, a);
    AgesKeepInv(s, a, {});
    AgesKeepShows(s, a, flat);
    WriteKeeps(a, v, data, flat);
  }

  lemma {:induction false} WriteKeeps(s: State, v: nat, data: Page, flat: map<nat, Page>)
    requires Inv(s) && Shows(s, flat) && Resident(s, v)
    ensures Inv(s.(frames := s.frames[s.pt[v].ppn := data]))
    ensures Shows(s.(frames := s.frames[s.pt[v].ppn := data]), flat[v := data])
  {
    hide CountUsed, MemTable;
    var t := s.(frames := s.frames[s.pt[v].ppn := data]);
    FramesKeepInv(s, t.frames, {});
    forall w | w in t.pt && Resident(t, w) ensures t.frames[t.pt[w].ppn] == flat[v := data][w] {
      assert Resident(s, w);
    }
    forall j | 0 <= j < |t.file| && t.file[j].used && t.file[j].vpn in flat[v := data] && j < |t.swap|
      ensures t.swap[j] == flat[v := data][t.file[j].vpn]
    {
      assert PagedOut(s, s.file[j].vpn);
    }
  }

  lemma {:induction false} StepIsTransparent(pol: Policy, s: State, e: Event, s': State, flat: map<nat, Page>)
    requires Inv(s) && Shows(s, flat) && Next(pol, s, e, s')
    ensures Inv(s') && Shows(s', FlatNext(flat, e))
  {
    hide InvBut, Shows, ZeroPage, CountUsed;
    match e
    case Grow(v, frame) => GrowKeeps(pol, s, v, frame, s', flat);
    case Fault(v, frame) => FaultKeeps(pol, s, v, frame, s', flat);
    case Store(v, data) => TouchKeeps(s, v, data, flat);
    case Load(v) =>
      assert AgesOnly(s, s');
      AgesKeepInv(s, s', {});
      AgesKeepShows(s, s', flat);
    case AgingTick =>
      AgesKeepInv(s, s', {});
      AgesKeepShows(s, s', flat);
  }

  // ---- Whole runs -------------------------------------------------------------------------

  /** A process as exec leaves it: every page in memory, nothing in the swap file,
      and the file table cleared. */
  ghost predicate AfterExec(s: State) {
    && Inv(s) && s.swap == [] && s.inFile == 0
    && (forall j :: 0 <= j < |s.file| ==> s.file[j] == Meta(false, 0, 0, 0))
    && Counts32(s.mem)
  }

  ghost predicate IsRun(pol: Policy, states: seq<State>, events: seq<Event>) {
    && |states| == |events| + 1 && AfterExec(states[0])
    && forall i :: 0 <= i < |events| ==> Next(pol, states[i], events[i], states[i + 1])
  }

  function FlatAfter(flat: map<nat, Page>, events: seq<Event>): map<nat, Page> {
    if events == [] then flat else FlatNext(FlatAfter(flat, events[..|events| - 1]), events[|events| - 1])
  }

  /** Swapping is transparent: after any run, every page holds exactly what it would
      hold in a memory that never swaps, and is in exactly one of the two tables,
      with the PTE flags that go with it. */
  lemma {:induction false} SwappingIsTransparent(pol: Policy, states: seq<State>, events: seq<Event>,
                                                 flat: map<nat, Page>)
    requires IsRun(pol, states, events) && Shows(states[0], flat)
    ensures Inv(states[|events|]) && Shows(states[|events|], FlatAfter(flat, events))
    decreases |events|
  {
    hide InvBut, Shows, Next, AfterExec, FlatNext;
    if events == [] {
      ExecInv(states[0]);
    } else {
      var n := |events| - 1;
      assert IsRun(pol, states[..n + 1], events[..n]);
      SwappingIsTransparent(pol, states[..n + 1], events[..n], flat);
      StepIsTransparent(pol, states[n], events[n], states[n + 1], FlatAfter(flat, events[..n]));
    }
  }

  lemma ExecInv(s: State)
    requires AfterExec(s)
    ensures Inv(s)
  {
  }

  /** What Inv says of one page: in memory or in the file, never both. */
  lemma {:induction false} InExactlyOnePlace(s: State, v: nat)
    requires Inv(s) && v in s.pt
    ensures InMemory(s, v) <==> s.pt[v].valid && !s.pt[v].pg
    ensures InFile(s, v) <==> s.pt[v].pg && !s.pt[v].valid
    ensures InMemory(s, v) <==> !InFile(s, v)
  {
    hide CountUsed;
    if InMemory(s, v) {
      var i :| 0 <= i < |s.mem| && s.mem[i].used && s.mem[i].vpn == v;
      assert Resident(s, s.mem[i].vpn);
    }
    if InFile(s, v) {
      PagedOutNotResident(s, v);
    }
  }

  /** The flat memory that a state stands for. */
  ghost function FlatOf(s: State): map<nat, Page> {
    map v | v in s.pt ::
      if s.pt[v].valid && s.pt[v].ppn in s.frames then s.frames[s.pt[v].ppn]
      else if FirstWith(s.file, v) < |s.swap| then s.swap[FirstWith(s.file, v)]
      else []
  }

  lemma {:induction false} FlatOfShows(s: State)
    requires Inv(s)
    ensures Shows(s, FlatOf(s))
  {
    hide FirstWith, CountUsed;
    forall j | 0 <= j < |s.file| && s.file[j].used ensures s.swap[j] == FlatOf(s)[s.file[j].vpn] {
      var v := s.file[j].vpn;
      assert PagedOut(s, v);
      assert InFile(s, v);
      SearchHitsLive(s, v);
      assert FirstWith(s.file, v) == j;
    }
  }
}
