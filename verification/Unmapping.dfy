/** uvmunmap on the page table of a process that swaps. */
module Unmapping {
  import opened Basics
  import opened SwapSpec
  import opened SwapRuns
  import opened SwapHistory
  import PageTable
  import PageTableSpec

  /** Between pages first and a the tree at root stands for the PTEs of s. */
  ghost predicate StandsFor(vm: PageTableSpec.Vm, root: nat, s: State, first: nat, a: nat) {
    forall w: nat :: first <= w < a ==>
      PageTableSpec.Lookup(vm, root, w) == if w in s.pt then s.pt[w] else PageTableSpec.ZERO
  }

  /** A PTE that is not valid names no frame: paging out has cleared it. */
  lemma {:induction false} InvalidIsBare(s: State, w: nat)
    requires Inv(s) && w in s.pt && !s.pt[w].valid
    ensures s.pt[w].ppn == 0
  {
    hide InvBut;
    InExactlyOnePlace(s, w);
    LimboFree(s);
    PagedOutNotResident(s, w);
  }

  /** uvmunmap frees nothing: in any state of any run, on any range, it passes no frame to
      kfree, although every page in memory there has one. */
  lemma {:induction false} UnmapFreesNothing(pol: Policy, states: seq<State>, events: seq<Event>, n: nat,
                                             vm: PageTableSpec.Vm, root: nat, first: nat, a: nat)
    requires IsRun(pol, states, events) && n <= |events| && StandsFor(vm, root, states[n], first, a)
    ensures PageTable.FramesFreed(vm, root, first, a) == []
    ensures forall w :: first <= w < a && InMemory(states[n], w) ==> w in states[n].pt && states[n].pt[w].ppn != 0
  {
    hide InvBut, Next, AfterExec, PageTableSpec.Lookup, PageTable.FramesFreed;
    var s := states[n];
    RunInv(pol, states, events, n);
    forall w: nat | first <= w < a && !PageTableSpec.Lookup(vm, root, w).valid
      ensures PageTableSpec.Lookup(vm, root, w).ppn == 0
    {
      if w in s.pt {
        InvalidIsBare(s, w);
      }
    }
    PageTable.FreedAreInvalid(vm, root, first, a);
    forall w | first <= w < a && InMemory(s, w) ensures w in s.pt && s.pt[w].ppn != 0 {
      HasFrame(s, w);
    }
  }

  lemma {:induction false} HasFrame(s: State, w: nat)
    requires Inv(s) && InMemory(s, w)
    ensures w in s.pt && s.pt[w].ppn != 0
  {
    hide CountUsed;
    var i :| 0 <= i < |s.mem| && s.mem[i].used && s.mem[i].vpn == w;
    assert Resident(s, s.mem[i].vpn);
  }
}
