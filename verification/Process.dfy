/** The paging code of one process as it runs: tables, counters, page table, swap file
    (kernel/vm.c, kernel/fs.c, struct proc). */
module Process {
  import opened Basics
  import opened SwapSpec
  import opened SwapPolicy
  import opened SecondChance
  import opened SwapRuns
  import opened SwapProgress


  class Proc {
    const pol: Policy
    var memoryPages: seq<Meta>
    var filePages: seq<Meta>
    var pageOrderCounter: nat
    var pagesInFile: nat
    var pagesInMemory: nat
    var pagetable: map<nat, Pte>
    var frames: map<nat, Page>
    var swapFile: seq<Page>

    ghost function St(): State
      reads this
    {
      State(memoryPages, filePages, pageOrderCounter, pagesInFile, pagesInMemory, pagetable, frames, swapFile)
    }

    constructor (pol: Policy)
      ensures St() == State(seq(MAX_PYSC_PAGES, _ => Meta(false, 0, 0, 0)),
                  seq(MAX_FILE_PAGES, _ => Meta(false, 0, 0, 0)),
                            0, 0, 0, map[], map[], [])
      ensures this.pol == pol
    {
      this.pol := pol;
      memoryPages := seq(MAX_PYSC_PAGES, _ => Meta(false, 0, 0, 0));
      filePages := seq(MAX_FILE_PAGES, _ => Meta(false, 0, 0, 0));
      pageOrderCounter, pagesInFile, pagesInMemory := 0, 0, 0;
      pagetable, frames, swapFile := map[], map[], [];
    }

    // ---- Searching the tables -------------------------------------------------------------

    method GetFreeFileIndex() returns (i: int)
      ensures i == (if LowestFree(filePages) < |filePages| then LowestFree(filePages) else -1)
    {
      var k := 0;
      while k < |filePages|
        invariant k <= |filePages| && LowestFree(filePages) == LowestFreeFrom(filePages, k)
      {
        if !filePages[k].used {
          return k;
        }
        k := k + 1;
      }
      return -1;
    }

    method GetFreeMemoryPageIndex() returns (i: int)
      ensures i == (if LowestFree(memoryPages) < |memoryPages| then LowestFree(memoryPages) else -1)
    {
      var k := 0;
      while k < |memoryPages|
        invariant k <= |memoryPages| && LowestFree(memoryPages) == LowestFreeFrom(memoryPages, k)
      {
        if !memoryPages[k].used {
          return k;
        }
        k := k + 1;
      }
      return -1;
    }

    // ---- Moving one page ------------------------------------------------------------------

    /** write_page_to_file. The write fails, with -1 and no effect, if there is no free
        entry or its slot lies past the end of the swap file. */
    method WritePageToFile(v: nat) returns (result: int)
      requires v in pagetable && pagetable[v].ppn in frames && pagesInMemory > 0
      modifies this`swapFile, this`filePages, this`pagesInFile, this`pagesInMemory
      ensures result == (if CanPageOut(old(St()), v) then PGSIZE else -1)
      ensures result == -1 ==> St() == old(St())
      ensures result != -1 ==>
                && St() == PageOut(old(St()), v).(inMem := old(pagesInMemory) - 1, pt := old(pagetable))
    {
      var freeIndex := GetFreeFileIndex();
      var data := frames[pagetable[v].ppn];
      if freeIndex < 0 || freeIndex > |swapFile| {
        return -1;
      }
      if freeIndex < |swapFile| {
        swapFile := swapFile[freeIndex := data];
      } else {
        swapFile := swapFile + [data];
      }
      filePages := filePages[freeIndex := filePages[freeIndex].(used := true, vpn := v, order := 0)];
      pagesInFile := pagesInFile + 1;
      pagesInMemory := pagesInMemory - 1;
      return PGSIZE;
    }

    /** update_page_out_pte. */
    method UpdatePageOutPte(v: nat)
      requires v in pagetable
      modifies this`pagetable
      ensures pagetable == old(pagetable)[v := old(pagetable)[v].(ppn := 0, pg := true, valid := false)]
    {
      var pte := pagetable[v];
      pte := pte.(ppn := 0);
      pte := pte.(pg := true);
      pte := pte.(valid := false);
      pagetable := pagetable[v := pte];
    }

    /** update_page_in_pte and read_page_from_file into entry k, whose frame is `frame`.
        The PTE's frame number is or-ed in, which is exact because paging out cleared
        it. */
    method BringIn(k: nat, v: nat, frame: nat)
      requires k < |memoryPages| && CanPageIn(St(), v) && !pagetable[v].valid && pagetable[v].ppn == 0
      modifies this`memoryPages, this`filePages, this`pageOrderCounter, this`pagesInFile, this`pagesInMemory,
               this`pagetable, this`frames
      ensures St() == PageIn(old(St()), k, v, frame)
      ensures Orders32(old(memoryPages)) ==> Orders32(memoryPages)
    {
      hide FirstWith;
      ghost var s := St();
      pagetable := pagetable[v := pagetable[v].(ppn := frame, valid := true, pg := false, perm := RWXU)];
      if !pol.SCFIFO? {
        memoryPages := memoryPages[k := memoryPages[k].(count := StartCount(pol))];
      }
      var i := FindInFile(v);
      frames := frames[frame := swapFile[i]];
      memoryPages := memoryPages[k := filePages[i]];
      memoryPages := memoryPages[k := memoryPages[k].(order := pageOrderCounter % (UINT_MAX + 1))];
      pageOrderCounter := pageOrderCounter + 1;
      filePages := filePages[i := filePages[i].(used := false)];
      pagesInFile := pagesInFile - 1;
      pagesInMemory := pagesInMemory + 1;
      assert St() == PageIn(s, k, v, frame);
    }

    method FindInFile(v: nat) returns (i: nat)
      ensures i == FirstWith(filePages, v)
    {
      i := 0;
      while i < |filePages| && filePages[i].vpn != v
        invariant i <= |filePages| && FirstWith(filePages, v) == FirstWithFrom(filePages, v, i)
      {
        i := i + 1;
      }
    }

    /** add_to_memory_page_metadata. */
    method AddToMemoryPageMetadata(v: nat)
      requires LowestFree(memoryPages) < |memoryPages|
      modifies this`memoryPages, this`pageOrderCounter, this`pagesInMemory
      ensures St() == AddMeta(pol, old(St()), v)
      ensures Orders32(old(memoryPages)) ==> Orders32(memoryPages)
    {
      hide LowestFree;
      var f := GetFreeMemoryPageIndex();
      memoryPages := memoryPages[f := memoryPages[f].(used := true, vpn := v,
            order := pageOrderCounter % (UINT_MAX + 1))];
      pageOrderCounter := pageOrderCounter + 1;
      pagesInMemory := pagesInMemory + 1;
      if !pol.SCFIFO? {
        memoryPages := memoryPages[f := memoryPages[f].(count := StartCount(pol))];
      }
    }

    // ---- Choosing a page ------------------------------------------------------------------

    /** update_access_counter. */
    method UpdateAccessCounter()
      requires Mapped(St()) && Orders32(memoryPages)
      modifies this`memoryPages, this`pagetable
      ensures St() == AgeAll(old(St())) && Orders32(memoryPages)
    {
      hide AgesOnly;
      ghost var s := St();
      var i := 0;
      while i < |memoryPages|
        invariant i <= |memoryPages| == |s.mem| && St() == AgeFirst(s, i) && Orders32(memoryPages)
      {
        AgedTableSize(s, i);
        if memoryPages[i].used {
          memoryPages := memoryPages[i := memoryPages[i].(count := memoryPages[i].count / 2)];
          var v := memoryPages[i].vpn;
          if pagetable[v].acc {
            memoryPages := memoryPages[i := memoryPages[i].(count := memoryPages[i].count + TOP_BIT)];
            pagetable := pagetable[v := pagetable[v].(acc := false)];
          } else {
            assert pagetable[v := pagetable[v].(acc := false)] == pagetable;
          }
        }
        i := i + 1;
      }
    }

    /** SCFIFO_algorithm. */
    method ScfifoAlgorithm() returns (pageIndex: nat)
      requires CanScan(St()) && Orders32(memoryPages)
      modifies this`memoryPages, this`pagetable, this`pageOrderCounter
      ensures (St(), pageIndex) == Scfifo(old(St())) && Orders32(memoryPages)
    {
      hide Accessed, AgesOnly, Scfifo, OldestOf, CanScan;
      ghost var s := St();
      while true
        invariant CanScan(St()) && Orders32(memoryPages) && Scfifo(St()) == Scfifo(s)
        decreases Accessed(memoryPages, pagetable)
      {
        ghost var t := St();
        ScfifoTurn(t);
        var k := Oldest();
        pageIndex := k;
        var v := memoryPages[pageIndex].vpn;
        if !pagetable[v].acc {
          return;
        }
        RequeueProgress(t.mem, t.pt, pageIndex, t.clock % (UINT_MAX + 1));
        pagetable := pagetable[v := pagetable[v].(acc := false)];
        memoryPages := memoryPages[pageIndex := memoryPages[pageIndex].(order := pageOrderCounter % (UINT_MAX + 1))];
        pageOrderCounter := pageOrderCounter + 1;
        assert St() == Requeue(t, pageIndex);
      }
    }

    /** One scan of the table for the least page_order. */
    method Oldest() returns (pageIndex: int)
      requires Orders32(memoryPages)
      ensures pageIndex == OldestOf(memoryPages, |memoryPages|)
    {
      pageIndex := -1;
      var pageOrder := UINT_MAX;
      for i := 0 to |memoryPages|
        invariant pageIndex == OldestOf(memoryPages, i)
        invariant pageOrder == if pageIndex == -1 then UINT_MAX else memoryPages[pageIndex].order
      {
        if memoryPages[i].used && memoryPages[i].order <= pageOrder {
          pageIndex := i;
          pageOrder := memoryPages[i].order;
        }
      }
    }

    /** get_swap_out_page_index: the entry to evict, or NFUA's -1. */
    method GetSwapOutPageIndex() returns (k: int)
      requires Proper(St()) && Counts32(memoryPages) && Orders32(memoryPages)
      requires exists i :: 0 <= i < |memoryPages| && memoryPages[i].used
      modifies this`memoryPages, this`pagetable, this`pageOrderCounter
      ensures k == -1 <==> pol.NFUA? && WillSaturate(old(St()))
      ensures k != -1 ==> k >= 0 && Victim(pol, old(St()), St(), k)
      ensures Orders32(memoryPages)
    {
      hide AgeFirst, Scfifo, WillSaturate, AllSaturated, LeastCount, LeastAccessed, AgesOnly;
      ghost var s := St();
      if pol.SCFIFO? {
        k := ScfifoAlgorithm();
      } else {
        AgedCounts(s, |s.mem|);
        UsedAfterAging(s);
        SaturatesIff(s);
        UpdateAccessCounter();
        if pol.LAPA? {
          k := LapaAlgorithm(memoryPages);
        } else {
          k := NfuaAlgorithm(memoryPages);
        }
      }
    }

    // ---- Growing and faulting ---------------------------------------------------------------

    /** What the struct types and the invariant give every operation below. */
    ghost predicate Ready(limbo: set<nat>)
      reads this
    {
      InvBut(St(), limbo) && Counts32(memoryPages) && FileCountsZero(St()) && Orders32(memoryPages)
    }

    /** swap(): evict a page and give its entry to the new page v. */
    method Swap(v: nat) returns (ok: bool)
      requires Ready({v}) && pagesInMemory == MAX_PYSC_PAGES && pagesInFile < MAX_FILE_PAGES
      modifies this
      ensures ok <==> !(pol.NFUA? && WillSaturate(old(St())))
      ensures ok ==> exists t, k :: Victim(pol, old(St()), t, k) && SwapFor(pol, t, k, v, St())
      ensures ok ==> Orders32(memoryPages)
    {
      hide Victim, WillSaturate, LowestFree, InvBut, AgesOnly, CountUsed;
      ghost var s := St();
      InvIsProper(s, {v});
      ghost var i := FullHasUsed(s, {v});
      var outIndex := GetSwapOutPageIndex();
      if outIndex == -1 { return false; }
      ghost var t := St();
      VictimAges(pol, s, t, outIndex);
      AgesKeepInv(s, t, {v});
      EvictFacts(pol, t, outIndex, v);
      var w := memoryPages[outIndex].vpn;
      var outPagePa := pagetable[w].ppn;
      var result := WritePageToFile(w);
      frames := frames[outPagePa := seq(4096, _ => 1)];
      memoryPages := memoryPages[outIndex := memoryPages[outIndex].(used := false)];
      UpdatePageOutPte(w);
      assert St() == FreeFrame(PageOut(Release(t, outIndex), w), outPagePa);
      AddToMemoryPageMetadata(v);
      assert SwapFor(pol, t, outIndex, v, St());
      ok := true;
    }

    /** One page of uvmalloc. */
    method GrowOne(v: nat, frame: nat, mustSwap: bool) returns (ok: bool)
      requires Ready({}) && v !in pagetable && FreshFrame(St(), frame)
      requires pagesInMemory + pagesInFile < MAX_TOTAL_PAGES && (mustSwap <==> pagesInMemory >= MAX_PYSC_PAGES)
      modifies this
      ensures ok <==> !(pol.NFUA? && old(pagesInMemory) == MAX_PYSC_PAGES && WillSaturate(old(St())))
      ensures ok ==> Next(pol, old(St()), Grow(v, frame), St()) && Ready({})
    {
      hide Victim, WillSaturate, LowestFree, InvBut, AgesOnly, CountUsed, SwapFor, ZeroPage;
      ghost var s := St();
      MapPageInv(s, v, frame);
      MapKeepsSaturation(s, v, frame);
      CountsBounded(s, {});
      frames := frames[frame := ZeroPage()];
      pagetable := pagetable[v := Pte(frame, true, false, false, RWXU)];
      assert St() == MapPage(s, v, frame);
      if mustSwap {
        ok := Swap(v);
      } else {
        AddMetaInv(pol, St(), v);
        AddToMemoryPageMetadata(v);
        ok := true;
      }
      if ok {
        assert Next(pol, s, Grow(v, frame), St());
        GrowReady(pol, s, v, frame, St());
      }
    }

    /** uvmalloc: a path of page-by-page growth from oldsz to newsz. It stops with a
        panic at the first page past MAX_TOTAL_PAGES. */
    method Uvmalloc(oldsz: nat, newsz: nat, supply: seq<nat>) returns (r: Outcome, ghost states: seq<State>)
      requires Ready({}) && (forall v :: v in pagetable ==> v * PGSIZE < oldsz)
      requires newsz <= |supply| * PGSIZE && (forall i :: 0 <= i < |supply| ==> FreshFrame(St(), supply[i]))
      requires forall i, j :: 0 <= i < j < |supply| ==> supply[i] != supply[j]
      modifies this
      ensures var first := (oldsz + PGSIZE - 1) / PGSIZE;
              r.Grown? ==>
                && 0 < |states| <= |supply| + 1 && states[0] == old(St()) && states[|states| - 1] == St()
                && IsPath(pol, states, GrowEvents(first, supply, |states| - 1))
                && (newsz <= first * PGSIZE ==> |states| == 1)
                && (newsz > first * PGSIZE ==>
                        (first + |states| - 2) * PGSIZE < newsz <= (first + |states| - 1) * PGSIZE)
      ensures !r.NoVictim? ==> (r.TooBig? <==>
                old(pagesInMemory) + old(pagesInFile)
                + ((newsz + PGSIZE - 1) / PGSIZE - (oldsz + PGSIZE - 1) / PGSIZE) > MAX_TOTAL_PAGES)
      ensures r.NoVictim? ==> pol.NFUA?
    {
      hide Next, WillSaturate, InvBut, Counts32, Orders32, FileCountsZero, FreshFrame, Growing;
      ghost var s0 := St();
      states := [s0];
      var first := (oldsz + PGSIZE - 1) / PGSIZE;
      GrowingStart(pol, s0, first, supply);
      if newsz < oldsz {
        GrowingEnd(pol, s0, first, supply, 0, states, St());
        return Grown, states;
      }
      var a, numOfNewPage, oldNum := first, 0, pagesInMemory;
      while a * PGSIZE < newsz
        invariant a == first + numOfNewPage && Ready({}) && |states| == numOfNewPage + 1
        invariant Growing(pol, s0, first, supply, numOfNewPage, states, St())
        invariant numOfNewPage > 0 ==> (a - 1) * PGSIZE < newsz
        invariant s0.inMem + s0.inFile + numOfNewPage <= MAX_TOTAL_PAGES
      {
        GrowingEnd(pol, s0, first, supply, numOfNewPage, states, St());
        if pagesInMemory + pagesInFile == MAX_TOTAL_PAGES {
          return TooBig, states;
        }
        ghost var s := St();
        var ok := GrowOne(a, supply[numOfNewPage], oldNum + numOfNewPage + 1 > MAX_PYSC_PAGES);
        if !ok {
          return NoVictim, states;
        }
        GrowingStep(pol, s0, first, supply, numOfNewPage, states, s, St());
        states := states + [St()];
        numOfNewPage := numOfNewPage + 1;
        a := a + 1;
      }
      GrowingEnd(pol, s0, first, supply, numOfNewPage, states, St());
      r := Grown;
    }

    /** get_page_from_file: a touched page v comes back from the file into `frame`. */
    method GetPageFromFile(v: nat, frame: nat) returns (ok: bool)
      requires Ready({}) && v in pagetable && pagetable[v].pg && FreshFrame(St(), frame)
      modifies this
      ensures ok <==> !(pol.NFUA? && old(pagesInMemory) == MAX_PYSC_PAGES && WillSaturate(old(St())))
      ensures ok ==> Next(pol, old(St()), Fault(v, frame), St()) && Ready({})
    {
      hide Victim, WillSaturate, LowestFree, FirstWith, InvBut, AgesOnly, CountUsed;
      ghost var s := St();
      FaultFacts(s, v);
      var freeIndex := GetFreeMemoryPageIndex();
      if freeIndex >= 0 {
        BringIn(freeIndex, v, frame);
        FaultReady(pol, s, v, frame, St());
        return true;
      }
      InvIsProper(s, {});
      ghost var i := FullHasUsed(s, {});
      var outIndex := GetSwapOutPageIndex();
      if outIndex == -1 { return false; }
      ghost var t := St();
      VictimAges(pol, s, t, outIndex);
      AgesKeepInv(s, t, {});
      AgesKeepFrames(s, t, frame, v);
      ExchangeFacts(t, outIndex, v, frame);
      var outPage := memoryPages[outIndex];
      BringIn(outIndex, v, frame);
      var result := WritePageToFile(outPage.vpn);
      UpdatePageOutPte(outPage.vpn);
      assert Exchange(t, outIndex, v, frame, St());
      FaultReady(pol, s, v, frame, St());
      ok := true;
    }
  }

  /** The pages that uvmalloc adds, each with the frame kalloc gives it. */
  function GrowEvents(first: nat, supply: seq<nat>, n: nat): seq<Event>
    requires n <= |supply|
  {
    seq(n, i requires 0 <= i < n => Grow(first + i, supply[i]))
  }

  datatype Outcome = Grown | TooBig | NoVictim

  lemma {:induction false} SwapForNumbers(pol: Policy, t: State, k: nat, v: nat, s': State)
    requires SwapFor(pol, t, k, v, s') && t.mem[k].vpn in t.pt
    ensures s'.pt.Keys == t.pt.Keys && s'.inMem == t.inMem && s'.inFile == t.inFile + 1
    ensures forall f :: FreshFrame(t, f) ==> FreshFrame(s', f)
  {
    hide LowestFree;
  }

  lemma {:induction false} AgesNumbers(s: State, t: State)
    requires AgesOnly(s, t)
    ensures t.pt.Keys == s.pt.Keys && t.inMem == s.inMem && t.inFile == s.inFile
    ensures forall f :: FreshFrame(s, f) ==> FreshFrame(t, f)
  {
  }

  /** What growth by page v does to the numbers, the page table and the unused frames. */
  lemma {:induction false} GrowNumbers(pol: Policy, s: State, v: nat, frame: nat, s': State)
    requires Inv(s) && Next(pol, s, Grow(v, frame), s')
    ensures s'.pt.Keys == s.pt.Keys + {v}
    ensures s'.inMem + s'.inFile == s.inMem + s.inFile + 1
    ensures s'.inMem == if s.inMem < MAX_PYSC_PAGES then s.inMem + 1 else s.inMem
    ensures forall f :: FreshFrame(s, f) && f != frame ==> FreshFrame(s', f)
  {
    hide InvBut, LowestFree, Victim, AgesOnly, ZeroPage, SwapFor, Resident;
    var m := MapPage(s, v, frame);
    assert forall f :: FreshFrame(s, f) && f != frame ==> FreshFrame(m, f);
    if s.inMem >= MAX_PYSC_PAGES {
      var t, k :| Victim(pol, m, t, k) && SwapFor(pol, t, k, v, s');
      VictimAges(pol, m, t, k);
      AgesNumbers(m, t);
      MapPageInv(s, v, frame);
      AgesKeepInv(m, t, {v});
      UsedIsMapped(t, k, {v});
      SwapForNumbers(pol, t, k, v, s');
    }
  }

  lemma {:induction false} UsedIsMapped(s: State, k: nat, limbo: set<nat>)
    requires InvBut(s, limbo) && k < |s.mem| && s.mem[k].used
    ensures s.mem[k].vpn in s.pt
  {
    assert Resident(s, s.mem[k].vpn);
  }

  /** Growth keeps everything that the next turn of the loop needs. */
  lemma {:induction false} GrowReady(pol: Policy, s: State, v: nat, frame: nat, s': State)
    requires Inv(s) && Counts32(s.mem) && FileCountsZero(s) && Next(pol, s, Grow(v, frame), s')
    ensures Inv(s') && Counts32(s'.mem) && FileCountsZero(s')
  {
    hide InvBut, Shows, FlatOf, Counts32, LowestFree, Victim, AgesOnly, ZeroPage;
    FlatOfShows(s);
    GrowKeeps(pol, s, v, frame, s', FlatOf(s));
    GrowCounts(pol, s, v, frame, s');
  }

  /** A fault keeps everything that the next call needs. */
  lemma {:induction false} FaultReady(pol: Policy, s: State, v: nat, frame: nat, s': State)
    requires Inv(s) && Counts32(s.mem) && FileCountsZero(s) && Next(pol, s, Fault(v, frame), s')
    ensures Inv(s') && Counts32(s'.mem) && FileCountsZero(s')
  {
    hide InvBut, Shows, FlatOf, Counts32, LowestFree, Victim, AgesOnly;
    FlatOfShows(s);
    FaultKeeps(pol, s, v, frame, s', FlatOf(s));
    FaultCounts(pol, s, v, frame, s');
  }

  /** n pages of uvmalloc have been added to s0, which is now s. */
  ghost predicate Growing(pol: Policy, s0: State, first: nat, supply: seq<nat>, n: nat, states: seq<State>, s: State) {
    && n <= |supply| && |states| == n + 1 && states[0] == s0 && states[n] == s
    && IsPath(pol, states, GrowEvents(first, supply, n))
    && s.inMem == (if s0.inMem + n < MAX_PYSC_PAGES then s0.inMem + n else MAX_PYSC_PAGES)
    && s.inMem + s.inFile == s0.inMem + s0.inFile + n
    && (forall v :: v in s.pt ==> v < first + n)
    && (forall i :: n <= i < |supply| ==> FreshFrame(s, supply[i]))
  }

  lemma {:induction false} GrowingStart(pol: Policy, s0: State, first: nat, supply: seq<nat>)
    requires Inv(s0) && (forall v :: v in s0.pt ==> v < first)
    requires forall i :: 0 <= i < |supply| ==> FreshFrame(s0, supply[i])
    ensures Growing(pol, s0, first, supply, 0, [s0], s0)
    ensures s0.inMem + s0.inFile <= MAX_TOTAL_PAGES
  {
    CountsBounded(s0, {});
  }

  lemma {:induction false} GrowingEnd(pol: Policy, s0: State, first: nat, supply: seq<nat>, n: nat, states: seq<State>,
                                      s: State)
    requires Growing(pol, s0, first, supply, n, states, s)
    ensures n <= |supply| && |states| == n + 1 && states[0] == s0 && states[n] == s
    ensures IsPath(pol, states, GrowEvents(first, supply, n))
    ensures s.inMem == (if s0.inMem + n < MAX_PYSC_PAGES then s0.inMem + n else MAX_PYSC_PAGES)
    ensures s.inMem + s.inFile == s0.inMem + s0.inFile + n
    ensures first + n !in s.pt
    ensures n < |supply| ==> FreshFrame(s, supply[n])
  {
  }

  lemma {:induction false} GrowingStep(pol: Policy, s0: State, first: nat, supply: seq<nat>, n: nat,
                                       states: seq<State>, s: State, s': State)
    requires Growing(pol, s0, first, supply, n, states, s) && n < |supply| && Inv(s)
    requires Next(pol, s, Grow(first + n, supply[n]), s')
    requires forall i, j :: 0 <= i < j < |supply| ==> supply[i] != supply[j]
    ensures Growing(pol, s0, first, supply, n + 1, states + [s'], s')
  {
    hide Next, FreshFrame, InvBut;
    GrowNumbers(pol, s, first + n, supply[n], s');
    var es, es' := GrowEvents(first, supply, n), GrowEvents(first, supply, n + 1);
    assert es' == es + [Grow(first + n, supply[n])];
    var states' := states + [s'];
    forall i | 0 <= i < n + 1 ensures Next(pol, states'[i], es'[i], states'[i + 1]) {
      if i < n {
        assert Next(pol, states[i], es[i], states[i + 1]);
      }
    }
  }

  lemma {:induction false} UsedAfterAging(s: State)
    requires Mapped(s)
    ensures var t := AgeAll(s);
            |t.mem| == |s.mem| && forall i :: 0 <= i < |s.mem| ==> t.mem[i].used == s.mem[i].used
  {
    hide AgeFirst;
    assert AgesOnly(s, AgeAll(s));
  }

  /** Evicting entry k from a state whose table is full: every step finds what it needs. */
  lemma {:induction false} EvictFacts(pol: Policy, t: State, k: nat, v: nat)
    requires InvBut(t, {v}) && k < |t.mem| && t.mem[k].used && t.inFile < MAX_FILE_PAGES
    ensures t.inMem > 0
    ensures var w := t.mem[k].vpn;
            && w in t.pt && t.pt[w].ppn in t.frames && CanPageOut(t, w) && CanPageOut(Release(t, k), w)
            && LowestFree(PageOut(Release(t, k), w).mem) < |t.mem|
  {
    hide InvBut, CountUsed, LowestFree;
    var w := t.mem[k].vpn;
    ReleaseInv(t, k, {v});
    var r := Release(t, k);
    LimboResident(r, w, {v} + {w});
    SlotInReach(r);
    LowestAfterRelease(t.mem, k);
  }

  lemma {:induction false} FaultFacts(s: State, v: nat)
    requires Inv(s) && v in s.pt && s.pt[v].pg
    ensures InFile(s, v) && CanPageIn(s, v) && !s.pt[v].valid && s.pt[v].ppn == 0
    ensures LowestFree(s.mem) < |s.mem| <==> s.inMem < MAX_PYSC_PAGES
    ensures s.inMem <= MAX_PYSC_PAGES
  {
    hide CountUsed, LowestFree, FirstWith;
    PagedOutIsInFile(s, v);
    PagedOutNotResident(s, v);
    SearchHitsLive(s, v);
    FreeIffNotFull(s.mem);
  }

  /** The exchange of entry k for page v, in the order in which the code does it: with
      entry k still marked as used while v is read into it. */
  lemma {:induction false} ExchangeFacts(t: State, k: nat, v: nat, frame: nat)
    requires Inv(t) && k < |t.mem| && t.mem[k].used && InFile(t, v) && FreshFrame(t, frame)
    ensures t.inMem > 0 && CanPageIn(t, v) && !t.pt[v].valid && t.pt[v].ppn == 0
    ensures var w := t.mem[k].vpn;
            var r := Release(t, k);
            var i := PageIn(t, k, v, frame);
            && CanPageIn(r, v) && i == PageIn(r, k, v, frame).(inMem := t.inMem + 1)
            && CanPageOut(i, w) && CanPageOut(PageIn(r, k, v, frame), w)
  {
    hide InvBut, CountUsed, LowestFree, FirstWith;
    var w := t.mem[k].vpn;
    ReleaseInv(t, k, {});
    var r := Release(t, k);
    InFileStays(t, k, v);
    LimboResident(r, w, {} + {w});
    PagedOutNotResident(r, v);
    SearchHitsLive(r, v);
    PageInInv(r, k, v, frame, {} + {w});
    var i := PageIn(r, k, v, frame);
    LimboResident(i, w, {} + {w});
    CountsBounded(r, {} + {w});
    SlotInReach(i);
  }

  lemma AgedTableSize(s: State, k: nat)
    requires Mapped(s)
    ensures |AgeFirst(s, k).mem| == |s.mem|
  {
  }
}
