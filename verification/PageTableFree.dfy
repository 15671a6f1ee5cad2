/** Taking a page table apart (freewalk, kernel/vm.c:326-341): which pages it frees. */
module PageTableFree {
  import opened Basics
  import opened PageTableSpec

  predicate HasRwx(e: Pte) {
    e.perm.r || e.perm.w || e.perm.x
  }

  /** The table pages below entries 0..k of table p, each as often as it is reached. */
  ghost function Pages(s: Vm, p: nat, level: nat, k: nat): multiset<nat>
    decreases level, k
  {
    if level == 0 || k == 0 then multiset{}
    else
      var e := Entry(s, p, k - 1);
      Pages(s, p, level, k - 1) + if e.valid then Subtree(s, e.ppn, level - 1) else multiset{}
  }

  ghost function Subtree(s: Vm, p: nat, level: nat): multiset<nat>
    decreases level, ENTRIES + 1
  {
    Pages(s, p, level, ENTRIES) + multiset{p}
  }

  ghost predicate Distinct(m: multiset<nat>) {
    forall x :: m[x] <= 1
  }

  /** Table p on this level: interior entries lead to tables, bottom entries to frames. */
  ghost predicate Well(s: Vm, p: nat, level: nat)
    decreases level
  {
    && p in s.mem
    && forall k: nat :: k < ENTRIES && Entry(s, p, k).valid ==>
         if level == 0 then HasRwx(Entry(s, p, k))
         else !HasRwx(Entry(s, p, k)) && Well(s, Entry(s, p, k).ppn, level - 1)
  }

  /** Among entries from..to no leaf is left. */
  ghost predicate NoLeaf(s: Vm, p: nat, level: nat, from: nat, to: nat)
    decreases level
  {
    forall k: nat :: from <= k < to && k < ENTRIES && Entry(s, p, k).valid ==>
        level > 0 && NoLeaf(s, Entry(s, p, k).ppn, level - 1, 0, ENTRIES)
  }

  /** s and t have the same tables on the pages of m. */
  ghost predicate AgreeOn(s: Vm, t: Vm, m: multiset<nat>) {
    forall x :: x in m ==> (x in s.mem <==> x in t.mem) && (x in s.mem ==> s.mem[x] == t.mem[x])
  }

  lemma {:induction false} PagesGrow(s: Vm, p: nat, level: nat, j: nat, k: nat)
    requires j <= k
    ensures Pages(s, p, level, j) <= Pages(s, p, level, k)
    decreases k
  {
    if j < k {
      PagesGrow(s, p, level, j, k - 1);
    }
  }

  lemma {:induction false} PagesUnfold(s: Vm, p: nat, level: nat, k: nat)
    requires level > 0
    ensures Pages(s, p, level, k + 1) == Pages(s, p, level, k)
            + if Entry(s, p, k).valid then Subtree(s, Entry(s, p, k).ppn, level - 1) else multiset{}
  {
    hide Subtree;
    assert Entry(s, p, k) == Entry(s, p, k + 1 - 1);
  }

  lemma NoneBelow(s: Vm, p: nat, level: nat, k: nat)
    requires level == 0 || k == 0
    ensures Pages(s, p, level, k) == multiset{}
  {
  }

  lemma {:induction false} SamePages(s: Vm, t: Vm, p: nat, level: nat, k: nat)
    requires p in s.mem && p in t.mem && s.mem[p] == t.mem[p] && AgreeOn(s, t, Pages(s, p, level, k))
    ensures Pages(t, p, level, k) == Pages(s, p, level, k)
    decreases level, k
  {
    hide Pages, Subtree;
    if level == 0 || k == 0 {
      NoneBelow(s, p, level, k);
      NoneBelow(t, p, level, k);
    } else {
      PagesUnfold(s, p, level, k - 1);
      PagesUnfold(t, p, level, k - 1);
      SamePages(s, t, p, level, k - 1);
      var e := Entry(s, p, k - 1);
      assert Entry(t, p, k - 1) == e;
      if e.valid {
        SameSubtree(s, t, e.ppn, level - 1);
      }
    }
  }

  lemma {:induction false} SameSubtree(s: Vm, t: Vm, p: nat, level: nat)
    requires AgreeOn(s, t, Subtree(s, p, level))
    ensures Subtree(t, p, level) == Subtree(s, p, level)
    decreases level, ENTRIES + 1
  {
    assert p in Subtree(s, p, level);
    if p in s.mem {
      SamePages(s, t, p, level, ENTRIES);
    } else {
      NoPages(s, p, level, ENTRIES);
      NoPages(t, p, level, ENTRIES);
    }
  }

  lemma {:induction false} NoPages(s: Vm, p: nat, level: nat, k: nat)
    requires p !in s.mem
    ensures Pages(s, p, level, k) == multiset{}
    decreases k
  {
    if k > 0 {
      NoPages(s, p, level, k - 1);
    }
  }

  lemma {:induction false} ChildPages(s: Vm, p: nat, level: nat, k: nat)
    requires level > 0 && k < ENTRIES && Entry(s, p, k).valid
    ensures Subtree(s, Entry(s, p, k).ppn, level - 1) <= Subtree(s, p, level)
  {
    hide Subtree;
    PagesUnfold(s, p, level, k);
    PagesGrow(s, p, level, k + 1, ENTRIES);
    PagesInSubtree(s, p, level);
  }

  lemma PagesInSubtree(s: Vm, p: nat, level: nat)
    ensures Pages(s, p, level, ENTRIES) <= Subtree(s, p, level) && p in Subtree(s, p, level)
  {
  }

  lemma {:induction false} SameWell(s: Vm, t: Vm, p: nat, level: nat)
    requires Well(s, p, level) && AgreeOn(s, t, Subtree(s, p, level))
    ensures Well(t, p, level)
    ensures NoLeaf(t, p, level, 0, ENTRIES) == NoLeaf(s, p, level, 0, ENTRIES)
    decreases level
  {
    hide Subtree;
    PagesInSubtree(s, p, level);
    assert forall k: nat :: Entry(t, p, k) == Entry(s, p, k);
    forall k: nat | k < ENTRIES && level > 0 && Entry(s, p, k).valid
      ensures Well(t, Entry(s, p, k).ppn, level - 1)
      ensures NoLeaf(t, Entry(s, p, k).ppn, level - 1, 0, ENTRIES) == NoLeaf(s, Entry(s, p, k).ppn, level - 1, 0,
                  ENTRIES)
    {
      ChildPages(s, p, level, k);
      SameWell(s, t, Entry(s, p, k).ppn, level - 1);
    }
  }

  // ---- One round of the loop -------------------------------------------------------------------

  ghost function Without(s: map<nat, Table>, m: multiset<nat>): map<nat, Table> {
    map x | x in s && x !in m :: s[x]
  }

  /** What the loop has done after entries 0..k: freed what hangs there, cleared them. */
  ghost predicate Freed(s: Vm, t: Vm, p: nat, level: nat, k: nat) {
    && multiset(t.free) == multiset(s.free) + Pages(s, p, level, k)
    && p in s.mem && p in t.mem
    && (forall x :: x in t.mem <==> x in s.mem && x !in Pages(s, p, level, k))
    && (forall x :: x in t.mem && x != p ==> t.mem[x] == s.mem[x])
    && (forall j: nat :: k <= j < ENTRIES ==> t.mem[p][j] == s.mem[p][j])
  }

  lemma {:induction false} FreedStart(s: Vm, p: nat, level: nat)
    requires p in s.mem
    ensures Freed(s, s, p, level, 0)
  {
  }

  /** The subtree at entry k is still as it was. */
  lemma {:induction false} ChildUntouched(s: Vm, t: Vm, p: nat, level: nat, k: nat)
    requires Freed(s, t, p, level, k) && Well(s, p, level) && Distinct(Subtree(s, p, level)) && k < ENTRIES
             && level > 0 && s.mem[p][k].valid
    ensures var c := s.mem[p][k].ppn;
            && Well(t, c, level - 1) && Subtree(t, c, level - 1) == Subtree(s, c, level - 1)
              && Distinct(Subtree(t, c, level - 1))
            && NoLeaf(t, c, level - 1, 0, ENTRIES) == NoLeaf(s, c, level - 1, 0, ENTRIES)
  {
    hide Subtree, NoLeaf;
    var c := s.mem[p][k].ppn;
    assert Entry(s, p, k) == s.mem[p][k];
    ChildDisjoint(s, p, level, k);
    assert AgreeOn(s, t, Subtree(s, c, level - 1)) by {
      hide Well, Distinct;
    }
    SameSubtree(s, t, c, level - 1);
    SameWell(s, t, c, level - 1);
  }

  lemma {:induction false} ChildDisjoint(s: Vm, p: nat, level: nat, k: nat)
    requires Distinct(Subtree(s, p, level)) && k < ENTRIES && level > 0 && Entry(s, p, k).valid
    ensures var c := Subtree(s, Entry(s, p, k).ppn, level - 1);
            p !in c && c !! Pages(s, p, level, k) && Distinct(c) && p !in Pages(s, p, level, k)
              && p !in Pages(s, p, level, k + 1)
  {
    hide Pages, Subtree;
    var c, a, b, w := Subtree(s, Entry(s, p, k).ppn, level - 1), Pages(s, p, level, k), Pages(s, p, level, k + 1),
      Pages(s, p, level, ENTRIES);
    PagesGrow(s, p, level, k + 1, ENTRIES);
    forall x: nat ensures a[x] + c[x] + (if x == p then 1 else 0) <= 1 && b[x] == a[x] + c[x] {
      PagesCount(s, p, level, k, x);
      SubtreeCount(s, p, level, x);
      assert b[x] <= w[x];
    }
  }

  lemma {:induction false} FreedChild(s: Vm, t: Vm, u: Vm, p: nat, level: nat, k: nat)
    requires Freed(s, t, p, level, k) && Distinct(Subtree(s, p, level)) && k < ENTRIES && level > 0 && s.mem[p][k].valid
    requires u.mem == Without(t.mem, Subtree(s, s.mem[p][k].ppn, level - 1))
    requires multiset(u.free) == multiset(t.free) + Subtree(s, s.mem[p][k].ppn, level - 1)
    ensures p in u.mem && u.mem[p] == t.mem[p]
    ensures Freed(s, u.(mem := u.mem[p := t.mem[p][k := ZERO]]), p, level, k + 1)
  {
    hide Subtree, Distinct;
    assert Entry(s, p, k) == s.mem[p][k];
    ChildDisjoint(s, p, level, k);
    PagesUnfold(s, p, level, k);
  }

  lemma {:induction false} FreedSkip(s: Vm, t: Vm, p: nat, level: nat, k: nat)
    requires Freed(s, t, p, level, k) && k < ENTRIES && !s.mem[p][k].valid
    ensures Freed(s, t, p, level, k + 1)
  {
    assert Entry(s, p, k + 1 - 1) == s.mem[p][k];
    assert Pages(s, p, level, k + 1) == Pages(s, p, level, k);
  }

  lemma {:induction false} FreedEnd(s: Vm, t: Vm, p: nat, level: nat, m: map<nat, Table>, f: seq<nat>)
    requires Freed(s, t, p, level, ENTRIES) && m == t.mem - {p} && f == [p] + t.free
    ensures m == Without(s.mem, Subtree(s, p, level)) && multiset(f) == multiset(s.free) + Subtree(s, p, level)
  {
    hide Pages;
    forall x | x in m ensures m[x] == s.mem[x] && x !in Subtree(s, p, level) {
    }
  }

  // ---- A whole tree ----------------------------------------------------------------------------

  /** A well-formed tree reaches every table page exactly once. */
  lemma {:induction false} TreePages(s: Vm, root: nat)
    requires Inv(s, root)
    ensures Subtree(s, root, 2) == multiset(s.mem.Keys)
  {
    hide Inv, Pages, Subtree, HangsBelow;
    forall x: nat ensures Subtree(s, root, 2)[x] == if x in s.mem then 1 else 0 {
      MidPages(s, root, ENTRIES, x);
      RootPage(s, root, x);
      SubtreeCount(s, root, 2, x);
    }
  }

  /** x hangs below root entries 0..k. */
  ghost predicate HangsBelow(s: Vm, root: nat, k: nat, x: nat) {
    x != 0 && exists n :: IsNode(n) && !n.Root? && n.i < k && Tab(s, root, n) == x
  }

  ghost predicate HangsLow(s: Vm, root: nat, i: nat, k: nat, x: nat) {
    x != 0 && exists j: nat :: j < k && Tab(s, root, Low(i, j)) == x
  }

  lemma {:induction false} LowPages(s: Vm, root: nat, i: nat, k: nat, x: nat)
    requires Inv(s, root) && i < ENTRIES && k <= ENTRIES && Tab(s, root, Mid(i)) != 0
    ensures Pages(s, Tab(s, root, Mid(i)), 1, k)[x] == if HangsLow(s, root, i, k, x) then 1 else 0
    decreases k
  {
    hide NothingElse, FreeList, OnePlace, HangsLow, Pages, Subtree;
    var p := Tab(s, root, Mid(i));
    if k == 0 {
      assert !HangsLow(s, root, i, 0, x) by { NoneLow(s, root, i, x); }
      NoneBelow(s, p, 1, 0);
    } else {
      LowPages(s, root, i, k - 1, x);
      LowStep(s, root, i, k - 1, x);
      PagesCount(s, p, 1, k - 1, x);
      var e := Entry(s, p, k - 1);
      assert Interior(s, p);
      assert Tab(s, root, Low(i, k - 1)) == Below(e);
      NoLower(s, e.ppn, ENTRIES);
    }
  }

  lemma NoneLow(s: Vm, root: nat, i: nat, x: nat)
    ensures !HangsLow(s, root, i, 0, x)
  {
  }

  lemma NoLower(s: Vm, p: nat, k: nat)
    ensures Pages(s, p, 0, k) == multiset{} && Subtree(s, p, 0) == multiset{p}
  {
  }

  lemma {:induction false} LowStep(s: Vm, root: nat, i: nat, j: nat, x: nat)
    requires OnePlace(s, root) && i < ENTRIES && j < ENTRIES
    ensures var c := Tab(s, root, Low(i, j));
            && (HangsLow(s, root, i, j + 1, x) <==> HangsLow(s, root, i, j, x) || (c != 0 && c == x))
            && !(HangsLow(s, root, i, j, x) && c == x)
  {
    hide Tab;
    assert IsNode(Low(i, j));
    if HangsLow(s, root, i, j, x) {
      var h: nat :| h < j && Tab(s, root, Low(i, h)) == x;
      assert IsNode(Low(i, h));
    }
  }

  lemma {:induction false} PagesCount(s: Vm, p: nat, level: nat, k: nat, x: nat)
    requires level > 0
    ensures Pages(s, p, level, k + 1)[x] == Pages(s, p, level, k)[x]
            + if Entry(s, p, k).valid then Subtree(s, Entry(s, p, k).ppn, level - 1)[x] else 0
  {
    hide Subtree;
    assert Entry(s, p, k) == Entry(s, p, k + 1 - 1);
  }

  lemma {:induction false} SubtreeCount(s: Vm, p: nat, level: nat, x: nat)
    ensures Subtree(s, p, level)[x] == Pages(s, p, level, ENTRIES)[x] + if x == p then 1 else 0
  {
    hide Pages;
  }

  lemma {:induction false} MidPages(s: Vm, root: nat, k: nat, x: nat)
    requires Inv(s, root) && k <= ENTRIES
    ensures Pages(s, root, 2, k)[x] == if HangsBelow(s, root, k, x) then 1 else 0
    decreases k
  {
    hide NothingElse, FreeList, OnePlace, HangsBelow, HangsLow, Interior, Pages, Subtree;
    if k == 0 {
      NothingHangs(s, root, x);
      NoneBelow(s, root, 2, 0);
    } else {
      MidPages(s, root, k - 1, x);
      MidStep(s, root, k - 1, x);
      PagesCount(s, root, 2, k - 1, x);
      var e := Entry(s, root, k - 1);
      assert Tab(s, root, Mid(k - 1)) == Below(e);
      if e.valid {
        MidPresent(s, root, k - 1);
        LowPages(s, root, k - 1, ENTRIES, x);
        SubtreeCount(s, e.ppn, 1, x);
      }
    }
  }

  lemma NothingHangs(s: Vm, root: nat, x: nat)
    ensures !HangsBelow(s, root, 0, x)
  {
  }

  lemma {:induction false} MidPresent(s: Vm, root: nat, i: nat)
    requires Tree(s, root) && i < ENTRIES && Entry(s, root, i).valid
    ensures Tab(s, root, Mid(i)) != 0 && Tab(s, root, Mid(i)) == Entry(s, root, i).ppn
  {
  }

  /** One more root entry: its table and the tables below that, and no page twice. */
  lemma {:induction false} MidStep(s: Vm, root: nat, i: nat, x: nat)
    requires Inv(s, root) && i < ENTRIES
    ensures var c := Tab(s, root, Mid(i)); var low := c != 0 && HangsLow(s, root, i, ENTRIES, x);
            && (HangsBelow(s, root, i + 1, x) <==> HangsBelow(s, root, i, x) || (c != 0 && c == x) || low)
            && !(HangsBelow(s, root, i, x) && ((c != 0 && c == x) || low)) && !(c == x && low)
  {
    hide NothingElse, FreeList, Tree, Entry;
    var c := Tab(s, root, Mid(i));
    assert IsNode(Mid(i));
    if c != 0 && HangsLow(s, root, i, ENTRIES, x) {
      var j: nat :| j < ENTRIES && Tab(s, root, Low(i, j)) == x;
      assert IsNode(Low(i, j));
      assert HangsBelow(s, root, i + 1, x);
    }
    if HangsBelow(s, root, i + 1, x) {
      var n :| IsNode(n) && !n.Root? && n.i < i + 1 && Tab(s, root, n) == x;
      if n.i == i && n.Low? {
        assert HangsLow(s, root, i, ENTRIES, x);
      }
    }
  }

  lemma {:induction false} RootPage(s: Vm, root: nat, x: nat)
    requires Inv(s, root)
    ensures !HangsBelow(s, root, ENTRIES, root)
    ensures x in s.mem <==> x == root || HangsBelow(s, root, ENTRIES, x)
  {
    hide Tab, FreeList;
    RootTab(s, root);
    if x in s.mem {
      var n :| IsNode(n) && Tab(s, root, n) == x;
    }
    if HangsBelow(s, root, ENTRIES, x) {
      var n :| IsNode(n) && !n.Root? && n.i < ENTRIES && Tab(s, root, n) == x;
      TabsInMemory(s, root, n);
    }
  }

  lemma RootTab(s: Vm, root: nat)
    ensures IsNode(Root) && Tab(s, root, Root) == root
  {
  }

  /** A valid page gives some access; a valid entry without R, W and X is a table pointer. */
  ghost predicate RealLeaves(s: Vm, root: nat) {
    forall v: nat :: v < MAXPAGES && Lookup(s, root, v).valid ==>
      Lookup(s, root, v).perm.r || Lookup(s, root, v).perm.w || Lookup(s, root, v).perm.x
  }

  ghost predicate AllInvalid(s: Vm, root: nat) {
    forall v: nat :: v < MAXPAGES ==> !Lookup(s, root, v).valid
  }

  /** A tree meets freewalk's needs, and has a leaf left iff some page is still valid. */
  lemma {:induction false} ReadyToFree(s: Vm, root: nat)
    requires Inv(s, root) && RealLeaves(s, root)
    ensures Well(s, root, 2) && Distinct(Subtree(s, root, 2))
    ensures NoLeaf(s, root, 2, 0, ENTRIES) <==> AllInvalid(s, root)
  {
    hide NothingElse, FreeList, OnePlace, Interior, Subtree, Lookup, AllInvalid, RealLeaves;
    TreePages(s, root);
    forall i: nat | i < ENTRIES && Entry(s, root, i).valid
      ensures Entry(s, root, i) == TablePte(Entry(s, root, i).ppn)
      ensures Well(s, Entry(s, root, i).ppn, 1)
      ensures AllInvalid(s, root) ==> NoLeaf(s, Entry(s, root, i).ppn, 1, 0, ENTRIES)
    {
      RootEntry(s, root, i);
      MidReady(s, root, i);
    }
    if NoLeaf(s, root, 2, 0, ENTRIES) {
      NoLeafNoPage(s, root);
    }
  }

  lemma {:induction false} RootEntry(s: Vm, root: nat, i: nat)
    requires Tree(s, root) && i < ENTRIES && Entry(s, root, i).valid
    ensures Entry(s, root, i) == TablePte(Entry(s, root, i).ppn) && i < TOP
    ensures Tab(s, root, Mid(i)) == Entry(s, root, i).ppn && Tab(s, root, Mid(i)) != 0 && Tab(s, root, Mid(i)) in s.mem
  {
  }

  lemma {:induction false} MidReady(s: Vm, root: nat, i: nat)
    requires Tree(s, root) && i < TOP && Tab(s, root, Mid(i)) != 0 && Tab(s, root, Mid(i)) in s.mem
             && RealLeaves(s, root)
    ensures Well(s, Tab(s, root, Mid(i)), 1)
    ensures AllInvalid(s, root) ==> NoLeaf(s, Tab(s, root, Mid(i)), 1, 0, ENTRIES)
  {
    hide Lookup, Px0, Px1, Px2;
    var c := Tab(s, root, Mid(i));
    assert Interior(s, c);
    forall j: nat | j < ENTRIES && Entry(s, c, j).valid
      ensures Entry(s, c, j) == TablePte(Entry(s, c, j).ppn)
      ensures Well(s, Entry(s, c, j).ppn, 0) && (AllInvalid(s, root) ==> NoLeaf(s, Entry(s, c, j).ppn, 0, 0, ENTRIES))
    {
      var p := Entry(s, c, j).ppn;
      forall k: nat | k < ENTRIES
        ensures Entry(s, p, k).valid ==> HasRwx(Entry(s, p, k)) && !AllInvalid(s, root)
      {
        LeafOf(s, root, i, j, k);
      }
    }
  }

  /** Every entry of a bottom table is the PTE of some page. */
  lemma {:induction false} LeafOf(s: Vm, root: nat, i: nat, j: nat, k: nat)
    requires i < TOP && j < ENTRIES && k < ENTRIES && Tab(s, root, Low(i, j)) != 0
    ensures var v := 0x40000 * i + 0x200 * j + k;
            v < MAXPAGES && Lookup(s, root, v) == Entry(s, Tab(s, root, Low(i, j)), k)
  {
    hide Tab, Entry;
    var v := 0x40000 * i + 0x200 * j + k;
    assert v / 0x200 == 0x200 * i + j;
    assert v / 0x40000 == i;
  }

  lemma {:induction false} NoLeafNoPage(s: Vm, root: nat)
    requires Tree(s, root) && NoLeaf(s, root, 2, 0, ENTRIES)
    ensures AllInvalid(s, root)
  {
    hide Px0, Px1, Px2;
    forall v: nat | v < MAXPAGES ensures !Lookup(s, root, v).valid {
      LeafIndices(v);
      var e := Entry(s, root, Px2(v));
      if e.valid {
        assert NoLeaf(s, e.ppn, 1, 0, ENTRIES);
        var f := Entry(s, e.ppn, Px1(v));
        if f.valid {
          assert NoLeaf(s, f.ppn, 0, 0, ENTRIES);
        }
      }
    }
  }
}
