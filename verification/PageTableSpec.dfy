/** The three-level Sv39 page table of kernel/vm.c as a tree of table pages, and the
    flat map from page number to PTE that it stands for. */
module PageTableSpec {
  import opened Basics

  const ENTRIES: nat := 512
  const MAXPAGES: nat := 0x400_0000  // MAXVA / PGSIZE
  const TOP: nat := 256  // root entries that addresses below MAXVA can reach

  const NO_PERM: Perm := Perm(false, false, false, false)
  const ZERO: Pte := Pte(0, false, false, false, NO_PERM)

  /** A PTE that points to a lower-level table: only V is set. */
  function TablePte(p: nat): Pte {
    Pte(p, true, false, false, NO_PERM)
  }

  type Table = t: seq<Pte> | |t| == ENTRIES witness seq(ENTRIES, _ =>
        Pte(0, false, false, false, Perm(false, false, false, false)))

  function EmptyTable(): Table {
    seq(ENTRIES, _ => ZERO)
  }

  /** The table pages by frame number, and kalloc's free list. */
  datatype Vm = Vm(mem: map<nat, Table>, free: seq<nat>)

  // ---- Indices --------------------------------------------------------------------------

  /** PX(2, va), PX(1, va) and PX(0, va) for the page number of va. */
  function Px2(v: nat): nat { v / 0x40000 % ENTRIES }
  function Px1(v: nat): nat { v / 0x200 % ENTRIES }
  function Px0(v: nat): nat { v % ENTRIES }

  lemma {:induction false} IndicesDetermine(v: nat, w: nat)
    requires v < MAXPAGES && w < MAXPAGES && Px2(v) == Px2(w) && Px1(v) == Px1(w) && Px0(v) == Px0(w)
    ensures v == w
  {
    PartsOf(v);
    PartsOf(w);
  }

  lemma PartsOf(v: nat)
    requires v < MAXPAGES
    ensures v == 0x40000 * Px2(v) + 0x200 * Px1(v) + Px0(v)
  {
    var a := v / 0x200;
    assert v == 0x200 * a + v % 0x200;
    assert a == 0x200 * (a / 0x200) + a % 0x200;
    assert a / 0x200 == v / 0x40000;
  }

  // ---- The tree -------------------------------------------------------------------------

  /** A place in the tree where a table page may hang. */
  datatype Node = Root | Mid(i: nat) | Low(i: nat, j: nat)

  ghost predicate IsNode(n: Node) {
    (n.Mid? ==> n.i < ENTRIES) && (n.Low? ==> n.i < ENTRIES && n.j < ENTRIES)
  }

  function Entry(s: Vm, p: nat, k: nat): Pte {
    if p in s.mem && k < ENTRIES then s.mem[p][k] else ZERO
  }

  function Below(e: Pte): nat {
    if e.valid then e.ppn else 0
  }

  /** The table page at a place of the tree rooted at root, 0 if there is none. */
  function Tab(s: Vm, root: nat, n: Node): nat {
    match n
    case Root => root
    case Mid(i) => Below(Entry(s, root, i))
    case Low(i, j) =>
      var p := Below(Entry(s, root, i));
      if p == 0 then 0 else Below(Entry(s, p, j))
  }

  /** What the page table says about page v: the flat map it stands for. */
  function Lookup(s: Vm, root: nat, v: nat): Pte {
    var p := Tab(s, root, Low(Px2(v), Px1(v)));
    if p == 0 then ZERO else Entry(s, p, Px0(v))
  }

  /** What the MMU does with an address, by the Sv39 scheme of the RISC-V privileged
      architecture: nine bits of it choose the entry on each level, and the low twelve, or
      more for a leaf higher up, are the offset. */
  function Sv39(s: Vm, table: nat, va: nat, level: nat): Option<(nat, Perm)>
    decreases level
  {
    var reach := PGSIZE * if level == 0 then 1 else if level == 1 then 512 else 512 * 512;
    if table !in s.mem then None
    else
      var e := s.mem[table][va / reach % 512];
      if !e.valid then None
      else if e.perm.r || e.perm.x then Some((e.ppn * PGSIZE + va % reach, e.perm))
      else if e.perm.w || level == 0 then None
      else Sv39(s, e.ppn, va, level - 1)
  }

  ghost predicate SameLookups(s: Vm, t: Vm, root: nat) {
    forall v: nat :: v < MAXPAGES ==> Lookup(t, root, v) == Lookup(s, root, v)
  }

  /** An interior entry is empty or points to a table page. */
  ghost predicate Interior(s: Vm, p: nat) {
    forall k: nat :: k < ENTRIES && Entry(s, p, k).valid ==>
      Entry(s, p, k) == TablePte(Entry(s, p, k).ppn) && Entry(s, p, k).ppn != 0 && Entry(s, p, k).ppn in s.mem
  }

  ghost predicate Tree(s: Vm, root: nat) {
    && root != 0 && root in s.mem && Interior(s, root)
    && (forall i: nat :: TOP <= i < ENTRIES ==> !Entry(s, root, i).valid)
    && (forall i: nat :: i < ENTRIES && Tab(s, root, Mid(i)) != 0 ==> Interior(s, Tab(s, root, Mid(i))))
  }

  /** No table page hangs in two places. */
  ghost predicate OnePlace(s: Vm, root: nat) {
    forall m, n :: IsNode(m) && IsNode(n) && Tab(s, root, m) != 0 && Tab(s, root, m) == Tab(s, root, n) ==> m == n
  }

  /** The pages in memory are exactly those of the tree. */
  ghost predicate NothingElse(s: Vm, root: nat) {
    forall p :: p in s.mem ==> p != 0 && exists n :: IsNode(n) && Tab(s, root, n) == p
  }

  /** The free list holds distinct pages, none of which is a table page. */
  ghost predicate FreeList(s: Vm) {
    && (forall i :: 0 <= i < |s.free| ==> s.free[i] != 0 && s.free[i] !in s.mem)
    && (forall i, j :: 0 <= i < j < |s.free| ==> s.free[i] != s.free[j])
  }

  ghost predicate Inv(s: Vm, root: nat) {
    Tree(s, root) && OnePlace(s, root) && NothingElse(s, root) && FreeList(s)
  }

  /** The flat map is what the MMU sees. */
  lemma {:induction false} Sv39IsLookup(s: Vm, root: nat, va: nat)
    requires Inv(s, root) && va < MAXPAGES * PGSIZE
    ensures var e := Lookup(s, root, va / PGSIZE);
            Sv39(s, root, va, 2)
            == if e.valid && (e.perm.r || e.perm.x) then Some((e.ppn * PGSIZE + va % PGSIZE, e.perm)) else None
  {
    hide OnePlace, NothingElse, FreeList;
    var v := va / PGSIZE;
    assert va / (PGSIZE * 512) == v / 0x200 && va / (PGSIZE * 512 * 512) == v / 0x40000;
    var e := Entry(s, root, Px2(v));
    if e.valid {
      assert Tab(s, root, Mid(Px2(v))) == e.ppn;
      assert Sv39(s, root, va, 2) == Sv39(s, e.ppn, va, 1);
      var d := Entry(s, e.ppn, Px1(v));
      if d.valid {
        assert Sv39(s, e.ppn, va, 1) == Sv39(s, d.ppn, va, 0);
      }
    }
  }

  // ---- Adding a table ---------------------------------------------------------------------

  /** kalloc, memset, and the store into entry k of table p. */
  function AddTable(s: Vm, p: nat, k: nat): Vm
    requires s.free != [] && p in s.mem && k < ENTRIES
  {
    var f := s.free[0];
    s.(mem := s.mem[f := EmptyTable()][p := s.mem[p][k := TablePte(f)]], free := s.free[1..])
  }

  /** Where the new page hangs. */
  ghost predicate EmptyAt(s: Vm, root: nat, n: Node, p: nat, k: nat) {
    && p in s.mem && k < ENTRIES && !Entry(s, p, k).valid && s.free != []
    && ((n == Mid(k) && p == root && k < TOP)
          || (n.Low? && n.i < ENTRIES && n.j == k && p == Tab(s, root, Mid(n.i)) && p != 0))
  }

  lemma {:induction false} AddTableTabs(s: Vm, root: nat, n: Node, p: nat, k: nat, m: Node)
    requires Inv(s, root) && EmptyAt(s, root, n, p, k) && IsNode(m)
    ensures Tab(AddTable(s, p, k), root, m) == if m == n then s.free[0] else Tab(s, root, m)
  {
    hide NothingElse, EmptyTable;
    var t, f := AddTable(s, p, k), s.free[0];
    assert f !in s.mem && f != 0;
    EmptyEntries(t, f);
    if n.Low? {
      MidIsNotRoot(s, root, n.i);
    }
    match m
    case Root =>
    case Mid(i) =>
    case Low(i, j) =>
      if Tab(s, root, Mid(i)) != 0 {
        MidIsNotRoot(s, root, i);
        if n.Low? && n.i != i {
          MidsDiffer(s, root, i, n.i);
        }
      }
  }

  lemma {:induction false} MidIsNotRoot(s: Vm, root: nat, i: nat)
    requires OnePlace(s, root) && i < ENTRIES && Tab(s, root, Mid(i)) != 0
    ensures Tab(s, root, Mid(i)) != root
  {
    assert IsNode(Root) && IsNode(Mid(i)) && Tab(s, root, Root) == root;
  }

  lemma {:induction false} MidsDiffer(s: Vm, root: nat, i: nat, j: nat)
    requires OnePlace(s, root) && i < ENTRIES && j < ENTRIES && i != j && Tab(s, root, Mid(i)) != 0
    ensures Tab(s, root, Mid(i)) != Tab(s, root, Mid(j))
  {
    assert IsNode(Mid(i)) && IsNode(Mid(j));
  }

  lemma EmptyEntries(s: Vm, p: nat)
    requires p in s.mem && s.mem[p] == EmptyTable()
    ensures forall k: nat :: Entry(s, p, k) == ZERO
  {
  }

  lemma {:induction false} AddTableInterior(s: Vm, p: nat, k: nat, q: nat)
    requires s.free != [] && p in s.mem && k < ENTRIES && FreeList(s) && q in s.mem && Interior(s, q)
    ensures Interior(AddTable(s, p, k), q)
  {
    hide EmptyTable;
    var t, f := AddTable(s, p, k), s.free[0];
    assert f !in s.mem && f != 0;
    forall e: nat | e < ENTRIES && Entry(t, q, e).valid
      ensures Entry(t, q, e) == TablePte(Entry(t, q, e).ppn) && Entry(t, q, e).ppn != 0 && Entry(t, q, e).ppn in t.mem
    {
      if !(q == p && e == k) {
        assert Entry(t, q, e) == Entry(s, q, e);
      }
    }
  }

  lemma {:induction false} AddTableTree(s: Vm, root: nat, n: Node, p: nat, k: nat)
    requires Inv(s, root) && EmptyAt(s, root, n, p, k)
    ensures Tree(AddTable(s, p, k), root)
  {
    hide NothingElse, EmptyTable, OnePlace, Interior;
    var t, f := AddTable(s, p, k), s.free[0];
    AddTableInterior(s, p, k, root);
    forall i: nat | TOP <= i < ENTRIES ensures !Entry(t, root, i).valid {
      AddTableTop(s, root, n, p, k, i);
    }
    forall i: nat | i < ENTRIES && Tab(t, root, Mid(i)) != 0 ensures Interior(t, Tab(t, root, Mid(i))) {
      AddTableTabs(s, root, n, p, k, Mid(i));
      var q := Tab(t, root, Mid(i));
      if q == f {
        NewInterior(s, p, k);
      } else {
        TabsInMemory(s, root, Mid(i));
        AddTableInterior(s, p, k, q);
      }
    }
  }

  lemma {:induction false} AddTableTop(s: Vm, root: nat, n: Node, p: nat, k: nat, i: nat)
    requires Inv(s, root) && EmptyAt(s, root, n, p, k) && TOP <= i < ENTRIES
    ensures !Entry(AddTable(s, p, k), root, i).valid
  {
    hide NothingElse, EmptyTable, Interior;
    assert !Entry(s, root, i).valid;
    assert s.free[0] !in s.mem;
    if n.Low? {
      MidIsNotRoot(s, root, n.i);
    }
  }

  lemma {:induction false} NewInterior(s: Vm, p: nat, k: nat)
    requires s.free != [] && p in s.mem && k < ENTRIES && FreeList(s)
    ensures Interior(AddTable(s, p, k), s.free[0])
  {
    hide EmptyTable;
    EmptyEntries(AddTable(s, p, k), s.free[0]);
  }

  lemma {:induction false} AddTableInv(s: Vm, root: nat, n: Node, p: nat, k: nat)
    requires Inv(s, root) && EmptyAt(s, root, n, p, k)
    ensures Inv(AddTable(s, p, k), root) && Tab(AddTable(s, p, k), root, n) == s.free[0]
  {
    hide EmptyTable, Tree, Tab;
    var t, f := AddTable(s, p, k), s.free[0];
    AddTableTree(s, root, n, p, k);
    assert IsNode(n);
    EmptyMeansNone(s, root, n, p, k);
    forall m | IsNode(m) ensures Tab(t, root, m) == if m == n then f else Tab(s, root, m) {
      AddTableTabs(s, root, n, p, k, m);
    }
    forall m | IsNode(m) ensures Tab(s, root, m) != f {
      TabsInMemory(s, root, m);
    }
    forall q | q in t.mem ensures q != 0 && exists m :: IsNode(m) && Tab(t, root, m) == q {
      if q == f {
        assert Tab(t, root, n) == f;
      } else {
        var m :| IsNode(m) && Tab(s, root, m) == q;
        assert Tab(t, root, m) == q;
      }
    }
  }

  lemma EmptyMeansNone(s: Vm, root: nat, n: Node, p: nat, k: nat)
    requires EmptyAt(s, root, n, p, k)
    ensures Tab(s, root, n) == 0
  {
  }

  lemma {:induction false} TabsInMemory(s: Vm, root: nat, m: Node)
    requires Inv(s, root) && IsNode(m)
    ensures Tab(s, root, m) == 0 || Tab(s, root, m) in s.mem
    ensures s.free != [] ==> Tab(s, root, m) != s.free[0]
  {
    hide NothingElse, OnePlace;
    if m.Mid? {
      assert Entry(s, root, m.i) == Entry(s, root, m.i);
    } else if m.Low? && Tab(s, root, Mid(m.i)) != 0 {
      var q := Tab(s, root, Mid(m.i));
      assert Interior(s, q);
      assert Entry(s, q, m.j) == Entry(s, q, m.j);
    }
  }

  /** A new table is empty, so it adds nothing to the map. */
  lemma {:induction false} AddTableLookups(s: Vm, root: nat, n: Node, p: nat, k: nat)
    requires Inv(s, root) && EmptyAt(s, root, n, p, k)
    ensures SameLookups(s, AddTable(s, p, k), root)
  {
    hide EmptyTable, Tree, NothingElse, OnePlace;
    var t, f := AddTable(s, p, k), s.free[0];
    EmptyEntries(t, f);
    forall v: nat | v < MAXPAGES ensures Lookup(t, root, v) == Lookup(s, root, v) {
      var m := Low(Px2(v), Px1(v));
      AddTableTabs(s, root, n, p, k, m);
      if m != n && Tab(s, root, m) != 0 {
        TabsInMemory(s, root, m);
        LowIsNotInterior(s, root, Px2(v), Px1(v), n, p, k);
      }
    }
  }

  lemma {:induction false} LowIsNotInterior(s: Vm, root: nat, i: nat, j: nat, n: Node, p: nat, k: nat)
    requires OnePlace(s, root) && EmptyAt(s, root, n, p, k) && i < ENTRIES && j < ENTRIES
             && Tab(s, root, Low(i, j)) != 0
    ensures Tab(s, root, Low(i, j)) != p
  {
    assert IsNode(Low(i, j)) && IsNode(Root) && Tab(s, root, Root) == root;
    if n.Low? {
      assert IsNode(Mid(n.i));
    }
  }

  // ---- Writing a leaf -----------------------------------------------------------------------

  /** *pte = e for page v. */
  function SetLeaf(s: Vm, root: nat, v: nat, e: Pte): Vm
    requires Tab(s, root, Low(Px2(v), Px1(v))) in s.mem
  {
    var p := Tab(s, root, Low(Px2(v), Px1(v)));
    s.(mem := s.mem[p := s.mem[p][Px0(v) := e]])
  }

  lemma {:induction false} SetLeafTabs(s: Vm, root: nat, v: nat, e: Pte, m: Node)
    requires Inv(s, root) && IsNode(m) && Tab(s, root, Low(Px2(v), Px1(v))) != 0
    ensures Tab(s, root, Low(Px2(v), Px1(v))) in s.mem
    ensures Tab(SetLeaf(s, root, v, e), root, m) == Tab(s, root, m)
  {
    hide NothingElse;
    var n := Low(Px2(v), Px1(v));
    TabsInMemory(s, root, n);
    assert IsNode(n) && IsNode(Root) && Tab(s, root, Root) == root;
    if m.Low? {
      assert IsNode(Mid(m.i));
    }
  }

  /** Storing one leaf changes the map at that page and nowhere else. */
  lemma {:induction false} SetLeafInv(s: Vm, root: nat, v: nat, e: Pte)
    requires Inv(s, root) && v < MAXPAGES && Tab(s, root, Low(Px2(v), Px1(v))) != 0
    ensures Tab(s, root, Low(Px2(v), Px1(v))) in s.mem
    ensures Inv(SetLeaf(s, root, v, e), root)
    ensures forall w: nat :: w < MAXPAGES ==>
              Lookup(SetLeaf(s, root, v, e), root, w) == if w == v then e else Lookup(s, root, w)
    ensures forall m :: IsNode(m) ==> Tab(SetLeaf(s, root, v, e), root, m) == Tab(s, root, m)
  {
    hide Tab, Interior, Px0, Px1, Px2;
    var n := Low(Px2(v), Px1(v));
    LeafIndices(v);
    TabsInMemory(s, root, n);
    var t := SetLeaf(s, root, v, e);
    forall m | IsNode(m) ensures Tab(t, root, m) == Tab(s, root, m) {
      SetLeafTabs(s, root, v, e, m);
    }
    SetLeafTree(s, root, v, e);
    forall w: nat | w < MAXPAGES ensures Lookup(t, root, w) == if w == v then e else Lookup(s, root, w) {
      LeafIndices(w);
      var m := Low(Px2(w), Px1(w));
      assert Tab(t, root, m) == Tab(s, root, m);
      if w != v && Tab(s, root, m) == Tab(s, root, n) {
        assert m == n;
        if Px0(w) == Px0(v) {
          IndicesDetermine(v, w);
        }
      }
    }
    assert NothingElse(t, root);
  }

  lemma LeafIndices(v: nat)
    ensures Px2(v) < ENTRIES && Px1(v) < ENTRIES && Px0(v) < ENTRIES
    ensures v < MAXPAGES ==> Px2(v) < TOP
  {
  }

  lemma {:induction false} SetLeafTree(s: Vm, root: nat, v: nat, e: Pte)
    requires Inv(s, root) && Tab(s, root, Low(Px2(v), Px1(v))) != 0
    ensures Tab(s, root, Low(Px2(v), Px1(v))) in s.mem
    ensures Tree(SetLeaf(s, root, v, e), root)
  {
    hide NothingElse, Interior, Px0, Px1, Px2;
    var n := Low(Px2(v), Px1(v));
    LeafIndices(v);
    TabsInMemory(s, root, n);
    var t := SetLeaf(s, root, v, e);
    var p := Tab(s, root, n);
    assert IsNode(n) && IsNode(Root) && Tab(s, root, Root) == root;
    InteriorFrame(s, t, root);
    assert forall i: nat :: i < ENTRIES ==> Entry(t, root, i) == Entry(s, root, i);
    forall i: nat | i < ENTRIES && Tab(t, root, Mid(i)) != 0 ensures Interior(t, Tab(t, root, Mid(i))) {
      assert IsNode(Mid(i));
      SetLeafTabs(s, root, v, e, Mid(i));
      TabsInMemory(s, root, Mid(i));
      InteriorFrame(s, t, Tab(s, root, Mid(i)));
    }
  }

  lemma {:induction false} InteriorFrame(s: Vm, t: Vm, q: nat)
    requires Interior(s, q) && q in s.mem && q in t.mem && t.mem[q] == s.mem[q] && s.mem.Keys <= t.mem.Keys
    ensures Interior(t, q)
  {
    forall e: nat | e < ENTRIES && Entry(t, q, e).valid
      ensures Entry(t, q, e) == TablePte(Entry(t, q, e).ppn) && Entry(t, q, e).ppn != 0 && Entry(t, q, e).ppn in t.mem
    {
      assert Entry(t, q, e) == Entry(s, q, e);
    }
  }
}
