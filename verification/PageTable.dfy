/** walk, mappages, uvmunmap and freewalk of kernel/vm.c as they run. */
module PageTable {
  import opened Basics
  import opened PageTableSpec
  import opened PageTableFree

  datatype WalkResult = Panicked | Null | Found(table: nat)
  datatype MapResult = Done | Failed | Panic

  /** Table pages that walk has to add for page v. */
  function Need(s: Vm, root: nat, v: nat): nat {
    if Tab(s, root, Mid(Px2(v))) == 0 then 2
    else if Tab(s, root, Low(Px2(v), Px1(v))) == 0 then 1
    else 0
  }

  function Px(level: nat, v: nat): nat {
    if level == 2 then Px2(v) else if level == 1 then Px1(v) else Px0(v)
  }

  /** The place of the table that walk looks at on a level. */
  function NodeAt(level: nat, v: nat): Node {
    if level == 2 then Root else if level == 1 then Mid(Px2(v)) else Low(Px2(v), Px1(v))
  }

  const U64: nat := 0x1_0000_0000_0000_0000

  /** PGROUNDDOWN(va + size - 1), which wraps for size 0 at address 0. */
  function LastPage(va: nat, size: nat): nat {
    (va + size - 1) % U64 / PGSIZE
  }

  class PageTables {
    var mem: map<nat, Table>
    var freelist: seq<nat>

    ghost function St(): Vm
      reads this
    {
      Vm(mem, freelist)
    }

    /** walk. With alloc it adds the missing tables, which changes no lookup; it comes
        back empty exactly if a table is missing and may not or cannot be added. */
    method Walk(root: nat, v: nat, alloc: bool) returns (r: WalkResult)
      requires Inv(St(), root)
      modifies this
      ensures Inv(St(), root) && SameLookups(old(St()), St(), root)
      ensures r.Panicked? <==> v >= MAXPAGES
      ensures r.Null? <==>
                v < MAXPAGES && Need(old(St()), root, v) > 0 && (!alloc || |old(freelist)| < Need(old(St()), root, v))
      ensures r.Found? ==> r.table != 0 && r.table in mem && r.table == Tab(St(), root, Low(Px2(v), Px1(v)))
      ensures !alloc || r.Panicked? ==> St() == old(St())
      ensures r.Null? && alloc ==> freelist == []
    {
      hide Inv, SameLookups, Tab, Px0, Px1, Px2, EmptyTable;
      ghost var s := St();
      SameSelf(s, root);
      if v >= MAXPAGES { return Panicked; }
      RootFacts(s, root, v);
      var level := 2;
      var p := root;
      while level > 0
        invariant 0 <= level <= 2 && Inv(St(), root) && SameLookups(s, St(), root)
        invariant p != 0 && p in mem && p == Tab(St(), root, NodeAt(level, v))
        invariant |freelist| - Need(St(), root, v) == |s.free| - Need(s, root, v)
        invariant !alloc ==> St() == s
      {
        var k := Px(level, v);
        ghost var t := St();
        StepDown(t, root, v, level, p);
        if mem[p][k].valid {
          p := mem[p][k].ppn;
        } else {
          if !alloc || freelist == [] { return Null; }
          StepAdd(s, t, root, v, level, p);
          var f := freelist[0];
          freelist := freelist[1..];
          mem := mem[f := EmptyTable()];
          mem := mem[p := mem[p][k := TablePte(f)]];
          assert St() == AddTable(t, p, k);
          p := f;
        }
        level := level - 1;
      }
      FoundFacts(St(), root, v);
      r := Found(p);
    }

    /** mappages over the pages of va..va+size. Exactly the pages first..upto get their new
        PTE. Done: that is all of them. Otherwise it stopped there: Panic at a page that is
        already valid or beyond MAXVA, Failed when no page is left for a table. If the last
        page lies before the first, as for size 0 at a page boundary, it is never Done. */
    method Mappages(root: nat, va: nat, size: nat, pa: nat, perm: Perm) returns (r: MapResult, ghost upto: nat)
      requires Inv(St(), root) && va < U64 && size < U64
      modifies this
      ensures Inv(St(), root)
      ensures va / PGSIZE <= upto && (va / PGSIZE <= LastPage(va, size) ==> upto <= LastPage(va, size) + 1)
      ensures Mapped(old(St()), St(), root, va / PGSIZE, upto, pa / PGSIZE, perm)
      ensures r.Done? <==> va / PGSIZE <= LastPage(va, size) && upto == LastPage(va, size) + 1
      ensures r.Panic? <==> !r.Done? && (upto >= MAXPAGES || Lookup(old(St()), root, upto).valid)
      ensures r.Failed? ==> freelist == []
      ensures r.Done? && va + size <= U64 && (perm.r || perm.x) ==> Translates(St(), root, va, size, pa, perm)
    {
      hide Inv, Tab, Px0, Px1, Px2, Lookup, Need, SameLookups, Mapped, Translates;
      ghost var s := St();
      var first, last := va / PGSIZE, LastPage(va, size);
      var a, ppn := first, pa / PGSIZE;
      MappedStart(s, root, first, ppn, perm);
      upto := first;
      r := Done;
      while true
        invariant first <= a && (first <= last ==> a <= last) && upto == a && r.Done?
        invariant ppn == pa / PGSIZE + (a - first)
        invariant Inv(St(), root) && Mapped(s, St(), root, first, a, pa / PGSIZE, perm)
        decreases if a < MAXPAGES then MAXPAGES - a else 0
      {
        ghost var t := St();
        var pte := Walk(root, a, true);
        MappedAfterWalk(s, t, St(), root, first, a, pa / PGSIZE, perm);
        if pte.Panicked? {
          r := Panic;
          return;
        }
        if pte.Null? {
          NoTableNoLeaf(t, root, a);
          r := Failed;
          return;
        }
        LeafEntry(St(), root, a, pte.table);
        if mem[pte.table][Px0(a)].valid {
          r := Panic;
          return;
        }
        MapOne(s, St(), root, first, a, pa / PGSIZE, perm);
        mem := mem[pte.table := mem[pte.table][Px0(a) := Pte(ppn, true, false, false, perm)]];
        upto := a + 1;
        if a == last { break; }
        a := a + 1;
        ppn := ppn + 1;
      }
      MappedTranslates(s, St(), root, va, size, pa, perm);
    }

    /** uvmunmap. Exactly the pages first..upto are cleared; it gets through the range iff
        every page of it is mapped or paged out, below MAXVA, and not a pointer to a
        table. `freed` are the frames it passes to kfree. */
    method Uvmunmap(root: nat, va: nat, npages: nat, doFree: bool)
      returns (ok: bool, ghost upto: nat, freed: seq<nat>)
      requires Inv(St(), root)
      modifies this
      ensures Inv(St(), root) && freelist == old(freelist) && mem.Keys == old(mem.Keys)
      ensures va / PGSIZE <= upto <= va / PGSIZE + npages
      ensures Cleared(old(St()), St(), root, va / PGSIZE, upto)
      ensures ok ==> upto == va / PGSIZE + npages
      ensures ok <==> va % PGSIZE == 0 && AllUnmappable(old(St()), root, va / PGSIZE, npages)
      ensures freed == if doFree then FramesFreed(old(St()), root, va / PGSIZE, upto) else []
    {
      hide Inv, Tab, Px0, Px1, Px2, Lookup, Need, SameLookups, Cleared;
      ghost var s := St();
      var first := va / PGSIZE;
      ClearedStart(s, root, first);
      upto, freed := first, [];
      if va % PGSIZE != 0 { return false, upto, freed; }
      var a := first;
      while a < first + npages
        invariant first <= a <= first + npages && upto == a
        invariant Inv(St(), root) && freelist == s.free && mem.Keys == s.mem.Keys
        invariant freed == if doFree then FramesFreed(s, root, first, a) else []
        invariant Cleared(s, St(), root, first, a) && AllUnmappable(s, root, first, a - first)
      {
        ghost var t := St();
        ClearedNot(s, t, root, first, a);
        if AllUnmappable(s, root, first, npages) {
          UnmappableAt(s, root, first, npages, a);
        }
        var pte := Walk(root, a, false);
        if pte.Panicked? { return false, upto, freed; }
        if pte.Null? {
          NoTableNoLeaf(t, root, a);
          return false, upto, freed;
        }
        LeafEntry(St(), root, a, pte.table);
        var e := mem[pte.table][Px0(a)];
        if !e.valid && !e.pg { return false, upto, freed; }
        if e.valid && !e.pg && !e.acc && e.perm == NO_PERM { return false, upto, freed; }
        if doFree && !e.valid {
          if e.ppn != 0 {
            freed := freed + [e.ppn];
          }
        }
        ClearOne(s, t, root, first, a);
        mem := mem[pte.table := mem[pte.table][Px0(a) := ZERO]];
        a := a + 1;
        upto := a;
      }
      ok := true;
    }

    /** freewalk: gets through iff no leaf is left; then every page of the tree has gone
        from memory to the free list, once for each time the tree reaches it. */
    method Freewalk(p: nat, ghost level: nat) returns (ok: bool)
      requires Well(St(), p, level) && Distinct(Subtree(St(), p, level))
      modifies this
      ensures ok <==> NoLeaf(old(St()), p, level, 0, ENTRIES)
      ensures ok ==> mem == Without(old(mem), Subtree(old(St()), p, level))
      ensures ok ==> multiset(freelist) == multiset(old(freelist)) + Subtree(old(St()), p, level)
      decreases level
    {
      hide Well, Subtree, Freed, NoLeaf, Distinct, Without, HasRwx;
      ghost var s := St();
      LoopStart(s, p, level);
      var k := 0;
      while k < ENTRIES
        invariant 0 <= k <= ENTRIES && p in s.mem && p in mem
        invariant Freed(s, St(), p, level, k) && NoLeaf(s, p, level, 0, k)
      {
        ghost var t := St();
        NextEntry(s, t, p, level, k);
        var e := mem[p][k];
        if e.valid && !HasRwx(e) {
          var done := Freewalk(e.ppn, level - 1);
          if !done { return false; }
          FreedChild(s, t, St(), p, level, k);
          mem := mem[p := mem[p][k := ZERO]];
        } else if e.valid {
          return false;
        } else {
          FreedSkip(s, t, p, level, k);
        }
        k := k + 1;
      }
      FreedEnd(s, St(), p, level, mem - {p}, [p] + freelist);
      mem := mem - {p};
      freelist := [p] + freelist;
      ok := true;
    }

    /** uvmfree after the trampoline pages are gone: it gets through iff all pages below sz
        can be unmapped and none above is valid; then every table page is on the free
        list exactly once more than before, and none is left in use. */
    method Uvmfree(root: nat, sz: nat) returns (ok: bool)
      requires Inv(St(), root) && RealLeaves(St(), root)
      modifies this
      ensures ok <==>
                AllUnmappable(old(St()), root, 0, (sz + PGSIZE - 1) / PGSIZE)
                && InvalidFrom(old(St()), root, (sz + PGSIZE - 1) / PGSIZE)
      ensures ok ==> mem == map[] && multiset(freelist) == multiset(old(freelist)) + multiset(old(mem.Keys))
    {
      hide Inv, RealLeaves, AllUnmappable, InvalidFrom, Cleared, Well, Subtree, Distinct, NoLeaf, AllInvalid, Without,
        Lookup;
      ghost var s := St();
      var n := (sz + PGSIZE - 1) / PGSIZE;
      ClearedStart(s, root, 0);
      NoneToUnmap(s, root);
      if sz > 0 {
        var done, _, _ := Uvmunmap(root, 0, n, true);
        if !done { return false; }
      }
      assert n == 0 <==> sz == 0;
      AfterUnmap(s, St(), root, n);
      ReadyToFree(St(), root);
      TreePages(St(), root);
      ghost var m := mem;
      ok := Freewalk(root, 2);
      NothingLeft(m);
    }
  }

  // ---- walk, on values ---------------------------------------------------------------------------

  lemma SameSelf(s: Vm, root: nat)
    ensures SameLookups(s, s, root)
  {
  }

  lemma {:induction false} RootFacts(s: Vm, root: nat, v: nat)
    requires Inv(s, root)
    ensures root != 0 && root in s.mem && root == Tab(s, root, Root)
  {
  }

  /** Following a valid entry goes one level down. */
  lemma {:induction false} StepDown(s: Vm, root: nat, v: nat, level: nat, p: nat)
    requires Inv(s, root) && v < MAXPAGES && 1 <= level <= 2 && p == Tab(s, root, NodeAt(level, v)) && p != 0
             && p in s.mem
    ensures Px(level, v) < ENTRIES
    ensures var e := s.mem[p][Px(level, v)];
            && (e.valid ==> e.ppn != 0 && e.ppn in s.mem && e.ppn == Tab(s, root, NodeAt(level - 1, v)))
            && (!e.valid ==> Tab(s, root, NodeAt(level - 1, v)) == 0 && Need(s, root, v) > 0)
            && (!e.valid && s.free != [] ==> EmptyAt(s, root, NodeAt(level - 1, v), p, Px(level, v)))
  {
    hide OnePlace, NothingElse;
    assert level == 1 ==> Interior(s, p);
    assert s.mem[p][Px(level, v)] == Entry(s, p, Px(level, v));
  }

  lemma {:induction false} StepAdd(s0: Vm, s: Vm, root: nat, v: nat, level: nat, p: nat)
    requires Inv(s, root) && SameLookups(s0, s, root) && 1 <= level <= 2
    requires Px(level, v) < ENTRIES && EmptyAt(s, root, NodeAt(level - 1, v), p, Px(level, v))
    ensures var t := AddTable(s, p, Px(level, v));
            && Inv(t, root) && SameLookups(s0, t, root) && s.free[0] != 0 && s.free[0] !in s.mem && s.free[0] in t.mem
            && s.free[0] == Tab(t, root, NodeAt(level - 1, v)) && Need(t, root, v) == Need(s, root, v) - 1
  {
    hide Tree, OnePlace, NothingElse, EmptyTable, Lookup;
    var k, n := Px(level, v), NodeAt(level - 1, v);
    AddTableInv(s, root, n, p, k);
    AddTableLookups(s, root, n, p, k);
    LeafIndices(v);
    AddTableTabs(s, root, n, p, k, Mid(Px2(v)));
    AddTableTabs(s, root, n, p, k, Low(Px2(v), Px1(v)));
  }

  lemma {:induction false} FoundFacts(s: Vm, root: nat, v: nat)
    requires Inv(s, root) && Tab(s, root, Low(Px2(v), Px1(v))) != 0
    ensures Need(s, root, v) == 0
  {
  }

  // ---- mappages, on values -----------------------------------------------------------------------

  /** Pages first..a have their new PTEs; all others are as in s. */
  ghost predicate Mapped(s: Vm, t: Vm, root: nat, first: nat, a: nat, ppn: nat, perm: Perm) {
    forall w: nat :: w < MAXPAGES ==>
      Lookup(t, root, w)
      == if first <= w < a then Pte(ppn + w - first, true, false, false, perm) else Lookup(s, root, w)
  }

  lemma MappedStart(s: Vm, root: nat, first: nat, ppn: nat, perm: Perm)
    ensures Mapped(s, s, root, first, first, ppn, perm)
  {
  }

  lemma {:induction false} MappedAfterWalk(s: Vm, t: Vm, u: Vm, root: nat, first: nat, a: nat, ppn: nat, perm: Perm)
    requires Mapped(s, t, root, first, a, ppn, perm) && SameLookups(t, u, root)
    ensures Mapped(s, u, root, first, a, ppn, perm)
    ensures a < MAXPAGES ==> Lookup(u, root, a) == Lookup(s, root, a) && Lookup(t, root, a) == Lookup(s, root, a)
  {
    hide Lookup;
  }

  lemma {:induction false} NoTableNoLeaf(s: Vm, root: nat, v: nat)
    requires Need(s, root, v) > 0
    ensures Lookup(s, root, v) == ZERO
  {
    hide Px0, Px1, Px2;
  }

  lemma {:induction false} LeafEntry(s: Vm, root: nat, v: nat, p: nat)
    requires p != 0 && p in s.mem && p == Tab(s, root, Low(Px2(v), Px1(v)))
    ensures Px0(v) < ENTRIES && s.mem[p][Px0(v)] == Lookup(s, root, v)
  {
    hide Px1, Px2, Tab;
  }

  lemma {:induction false} MapOne(s: Vm, u: Vm, root: nat, first: nat, a: nat, ppn: nat, perm: Perm)
    requires Inv(u, root) && Mapped(s, u, root, first, a, ppn, perm) && first <= a < MAXPAGES
    requires Tab(u, root, Low(Px2(a), Px1(a))) != 0
    ensures Tab(u, root, Low(Px2(a), Px1(a))) in u.mem
    ensures var t := SetLeaf(u, root, a, Pte(ppn + (a - first), true, false, false, perm));
            Inv(t, root) && Mapped(s, t, root, first, a + 1, ppn, perm)
  {
    hide Inv, Lookup, Tab, Px0, Px1, Px2;
    SetLeafInv(u, root, a, Pte(ppn + (a - first), true, false, false, perm));
  }

  /** For the MMU each byte of va..va+size is at its place in the frames from pa on, with
      the permissions that were passed. */
  ghost predicate Translates(t: Vm, root: nat, va: nat, size: nat, pa: nat, perm: Perm) {
    forall x: nat :: va <= x < va + size ==>
      Sv39(t, root, x, 2) == Some((pa - pa % PGSIZE + (x - (va - va % PGSIZE)), perm))
  }

  lemma {:induction false} MappedTranslates(s: Vm, t: Vm, root: nat, va: nat, size: nat, pa: nat, perm: Perm)
    requires Inv(t, root) && va < U64 && va / PGSIZE <= LastPage(va, size) < MAXPAGES
    requires Mapped(s, t, root, va / PGSIZE, LastPage(va, size) + 1, pa / PGSIZE, perm)
    ensures va + size <= U64 && (perm.r || perm.x) ==> Translates(t, root, va, size, pa, perm)
  {
    hide Inv, Lookup, Sv39;
    if va + size <= U64 && (perm.r || perm.x) {
      forall x: nat | va <= x < va + size
        ensures Sv39(t, root, x, 2) == Some((pa - pa % PGSIZE + (x - (va - va % PGSIZE)), perm))
      {
        assert va / PGSIZE <= x / PGSIZE <= LastPage(va, size);
        Sv39IsLookup(t, root, x);
      }
    }
  }

  // ---- uvmunmap, on values -----------------------------------------------------------------------

  ghost predicate Cleared(s: Vm, t: Vm, root: nat, first: nat, a: nat) {
    forall w: nat :: w < MAXPAGES ==> Lookup(t, root, w) == if first <= w < a then ZERO else Lookup(s, root, w)
  }

  /** Each page of the range is in memory or in the file, and no pointer to a table. */
  ghost predicate AllUnmappable(s: Vm, root: nat, first: nat, n: nat) {
    forall w: nat :: first <= w < first + n ==>
      && w < MAXPAGES
      && (Lookup(s, root, w).valid || Lookup(s, root, w).pg)
      && Lookup(s, root, w) != TablePte(Lookup(s, root, w).ppn)
  }

  lemma UnmappableAt(s: Vm, root: nat, first: nat, n: nat, w: nat)
    requires first <= w < first + n && AllUnmappable(s, root, first, n)
    ensures var e := Lookup(s, root, w); w < MAXPAGES && (e.valid || e.pg) && e != TablePte(e.ppn)
  {
  }

  /** The frames that uvmunmap frees with do_free set: those of PTEs that are not valid. */
  ghost function FramesFreed(s: Vm, root: nat, first: nat, a: nat): seq<nat> {
    if a <= first then []
    else
      var e := Lookup(s, root, a - 1);
      FramesFreed(s, root, first, a - 1) + if !e.valid && e.ppn != 0 then [e.ppn] else []
  }

  /** A frame is freed exactly if a PTE that is not valid names it. update_page_out_pte
      leaves no frame number in a PTE, so nothing is: the frames of all pages that were
      in memory are lost. */
  lemma {:induction false} FreedAreInvalid(s: Vm, root: nat, first: nat, a: nat)
    ensures forall f :: f in FramesFreed(s, root, first, a) <==>
              f != 0 && exists w: nat :: first <= w < a && !Lookup(s, root, w).valid && Lookup(s, root, w).ppn == f
    ensures FramesFreed(s, root, first, a) == [] <==>
              forall w: nat :: first <= w < a && !Lookup(s, root, w).valid ==> Lookup(s, root, w).ppn == 0
    decreases a
  {
    hide Lookup;
    if a > first {
      FreedAreInvalid(s, root, first, a - 1);
      var before, now := FramesFreed(s, root, first, a - 1), FramesFreed(s, root, first, a);
      forall f ensures f in now <==>
                f != 0 && exists w: nat :: first <= w < a && !Lookup(s, root, w).valid && Lookup(s, root, w).ppn == f
      {
        if f in now && f !in before {
          assert f == Lookup(s, root, a - 1).ppn;
        }
        if f != 0 && f !in before
           && exists w: nat :: first <= w < a && !Lookup(s, root, w).valid && Lookup(s, root, w).ppn == f {
          var w: nat :| first <= w < a && !Lookup(s, root, w).valid && Lookup(s, root, w).ppn == f;
          assert w == a - 1;
        }
      }
    }
  }

  lemma ClearedStart(s: Vm, root: nat, first: nat)
    ensures Cleared(s, s, root, first, first)
  {
  }

  lemma {:induction false} ClearedNot(s: Vm, t: Vm, root: nat, first: nat, a: nat)
    requires Cleared(s, t, root, first, a)
    ensures a < MAXPAGES ==> Lookup(t, root, a) == Lookup(s, root, a)
  {
    hide Lookup;
  }

  lemma {:induction false} ClearOne(s: Vm, u: Vm, root: nat, first: nat, a: nat)
    requires Inv(u, root) && Cleared(s, u, root, first, a) && first <= a < MAXPAGES
    requires Tab(u, root, Low(Px2(a), Px1(a))) != 0
    ensures Tab(u, root, Low(Px2(a), Px1(a))) in u.mem
    ensures var t := SetLeaf(u, root, a, ZERO); Inv(t, root) && Cleared(s, t, root, first, a + 1)
  {
    hide Inv, Lookup, Tab, Px0, Px1, Px2;
    SetLeafInv(u, root, a, ZERO);
  }

  // ---- freewalk, on values -----------------------------------------------------------------------

  lemma {:induction false} LoopStart(s: Vm, p: nat, level: nat)
    requires Well(s, p, level)
    ensures p in s.mem && Freed(s, s, p, level, 0) && NoLeaf(s, p, level, 0, 0)
  {
    FreedStart(s, p, level);
  }

  /** What the entry that the loop looks at means. */
  lemma {:induction false} NextEntry(s: Vm, t: Vm, p: nat, level: nat, k: nat)
    requires Freed(s, t, p, level, k) && Well(s, p, level) && Distinct(Subtree(s, p, level)) && k < ENTRIES
             && p in s.mem && p in t.mem
    requires NoLeaf(s, p, level, 0, k)
    ensures var e := t.mem[p][k];
            && e == s.mem[p][k]
            && (e.valid && !HasRwx(e) ==>
                  && level > 0 && Well(t, e.ppn, level - 1) && Distinct(Subtree(t, e.ppn, level - 1))
                  && Subtree(t, e.ppn, level - 1) == Subtree(s, e.ppn, level - 1)
                  && (NoLeaf(t, e.ppn, level - 1, 0, ENTRIES) <==> NoLeaf(s, p, level, 0, k + 1))
                  && (!NoLeaf(s, p, level, 0, k + 1) ==> !NoLeaf(s, p, level, 0, ENTRIES)))
            && (e.valid && HasRwx(e) ==> !NoLeaf(s, p, level, 0, ENTRIES))
            && (!e.valid ==> NoLeaf(s, p, level, 0, k + 1))
  {
    hide Subtree, Distinct;
    var e := t.mem[p][k];
    assert Entry(s, p, k) == s.mem[p][k] == e;
    if e.valid && !HasRwx(e) {
      ChildUntouched(s, t, p, level, k);
    }
  }

  // ---- uvmfree, on values ------------------------------------------------------------------------

  ghost predicate InvalidFrom(s: Vm, root: nat, n: nat) {
    forall w: nat :: n <= w < MAXPAGES ==> !Lookup(s, root, w).valid
  }

  lemma NoneToUnmap(s: Vm, root: nat)
    ensures AllUnmappable(s, root, 0, 0)
  {
  }

  lemma {:induction false} AfterUnmap(s: Vm, t: Vm, root: nat, n: nat)
    requires RealLeaves(s, root) && Cleared(s, t, root, 0, n)
    ensures RealLeaves(t, root) && (AllInvalid(t, root) <==> InvalidFrom(s, root, n))
  {
    hide Lookup;
  }

  lemma NothingLeft(m: map<nat, Table>)
    ensures Without(m, multiset(m.Keys)) == map[]
  {
  }
}
