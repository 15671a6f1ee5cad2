/** The paging state of one process (struct proc, kernel/proc.h) and the steps that
    move its pages between memory and the swap file (kernel/vm.c, kernel/fs.c). */
module SwapSpec {
  import opened Basics

  const MAX_PYSC_PAGES: nat := 16
  const MAX_FILE_PAGES: nat := 16   // MAX_TOTAL_PAGES - MAX_PYSC_PAGES
  const MAX_TOTAL_PAGES: nat := 32
  const UINT_MAX: nat := 0xFFFF_FFFF
  const TOP_BIT: nat := 0x8000_0000

  type Page = seq<int>

  function ZeroPage(): Page {
    seq(4096, _ => 0)
  }

  /** An entry of memory_pages or file_pages; the page is named by its number. */
  datatype Meta = Meta(used: bool, vpn: nat, order: nat, count: nat)

  const RWXU: Perm := Perm(true, true, true, true)

  datatype Policy = SCFIFO | NFUA | LAPA

  datatype State = State(
    mem: seq<Meta>,          // memory_pages
    file: seq<Meta>,         // file_pages
    clock: nat,              // page_order_counter
    inFile: nat,             // pages_in_file_counter
    inMem: nat,              // pages_in_memory_counter
    pt: map<nat, Pte>,       // user PTEs by page number
    frames: map<nat, Page>,  // physical memory by frame number
    swap: seq<Page>)         // the swap file, page by page

  // ---- Tables -------------------------------------------------------------------

  function CountUsed(ms: seq<Meta>): (n: nat)
    ensures n <= |ms|
  {
    if ms == [] then 0 else CountUsed(ms[..|ms| - 1]) + if ms[|ms| - 1].used then 1 else 0
  }

  lemma {:induction false} CountUpdate(ms: seq<Meta>, i: nat, m: Meta)
    requires i < |ms|
    ensures CountUsed(ms[i := m]) == CountUsed(ms) + (if m.used then 1 else 0) - (if ms[i].used then 1 else 0)
  {
    var n := |ms| - 1;
    if i < n {
      CountUpdate(ms[..n], i, m);
      assert ms[i := m][..n] == ms[..n][i := m];
    } else {
      assert ms[i := m][..n] == ms[..n];
    }
  }

  /** get_free_file_index and get_free_memory_page_index: the lowest unused entry,
      or the table size if there is none. */
  function LowestFree(ms: seq<Meta>): (f: nat)
    ensures f <= |ms|
    ensures forall i :: 0 <= i < f ==> ms[i].used
    ensures f < |ms| ==> !ms[f].used
  {
    LowestFreeFrom(ms, 0)
  }

  function LowestFreeFrom(ms: seq<Meta>, k: nat): (f: nat)
    requires k <= |ms|
    ensures k <= f <= |ms|
    ensures forall i :: k <= i < f ==> ms[i].used
    ensures f < |ms| ==> !ms[f].used
    decreases |ms| - k
  {
    if k < |ms| && ms[k].used then LowestFreeFrom(ms, k + 1) else k
  }

  /** A table that is not full has a free entry. */
  lemma {:induction false} FreeIffNotFull(ms: seq<Meta>)
    ensures LowestFree(ms) < |ms| <==> CountUsed(ms) < |ms|
  {
    CountFull(ms, |ms|);
  }

  lemma {:induction false} CountFull(ms: seq<Meta>, k: nat)
    requires k <= |ms|
    ensures CountUsed(ms[..k]) == k <==> forall i :: 0 <= i < k ==> ms[i].used
    ensures k == |ms| ==> ms[..k] == ms
  {
    if k > 0 {
      CountFull(ms, k - 1);
      assert ms[..k][..k - 1] == ms[..k - 1];
    }
  }

  /** read_page_from_file's search, which does not look at the state of an entry. */
  function FirstWith(ms: seq<Meta>, vpn: nat): (f: nat)
    ensures f <= |ms|
    ensures forall i :: 0 <= i < f ==> ms[i].vpn != vpn
    ensures f < |ms| ==> ms[f].vpn == vpn
  {
    FirstWithFrom(ms, vpn, 0)
  }

  function FirstWithFrom(ms: seq<Meta>, vpn: nat, k: nat): (f: nat)
    requires k <= |ms|
    ensures k <= f <= |ms|
    ensures forall i :: k <= i < f ==> ms[i].vpn != vpn
    ensures f < |ms| ==> ms[f].vpn == vpn
    decreases |ms| - k
  {
    if k < |ms| && ms[k].vpn != vpn then FirstWithFrom(ms, vpn, k + 1) else k
  }

  // ---- The invariant --------------------------------------------------------------

  ghost predicate InMemory(s: State, v: nat) {
    exists i :: 0 <= i < |s.mem| && s.mem[i].used && s.mem[i].vpn == v
  }

  ghost predicate InFile(s: State, v: nat) {
    exists i :: 0 <= i < |s.file| && s.file[i].used && s.file[i].vpn == v
  }

  /** The PTE of a page in memory: valid, not paged out, with a frame behind it. */
  ghost predicate Resident(s: State, v: nat) {
    v in s.pt && s.pt[v].valid && !s.pt[v].pg && s.pt[v].ppn != 0 && s.pt[v].ppn in s.frames
  }

  /** The PTE of a page in the file: paged out, not valid, no frame number left. */
  ghost predicate PagedOut(s: State, v: nat) {
    v in s.pt && !s.pt[v].valid && s.pt[v].pg && s.pt[v].ppn == 0
  }

  ghost predicate MemTable(s: State) {
    && |s.mem| == MAX_PYSC_PAGES && s.inMem == CountUsed(s.mem)
    && (forall i :: 0 <= i < |s.mem| && s.mem[i].used ==> Resident(s, s.mem[i].vpn))
    && (forall i, j :: 0 <= i < j < |s.mem| && s.mem[i].used && s.mem[j].used ==> s.mem[i].vpn != s.mem[j].vpn)
  }

  /** The last clause is what makes the state-blind search find the live entry: no
      entry below a live one, in use or stale, names the same page. */
  ghost predicate FileTable(s: State) {
    && |s.file| == MAX_FILE_PAGES && s.inFile == CountUsed(s.file) && |s.swap| <= MAX_FILE_PAGES
    && (forall j :: 0 <= j < |s.file| && s.file[j].used ==> j < |s.swap| && PagedOut(s, s.file[j].vpn))
    && (forall i, j :: 0 <= i < j < |s.file| && s.file[j].used ==> s.file[i].vpn != s.file[j].vpn)
  }

  ghost predicate FramesDistinct(s: State) {
    forall v, w :: v in s.pt && w in s.pt && v != w && s.pt[v].valid && s.pt[w].valid ==> s.pt[v].ppn != s.pt[w].ppn
  }

  /** Every page is in exactly one table, except those in `limbo`, which are mapped
      but in no table while an operation moves pages around. */
  ghost predicate InvBut(s: State, limbo: set<nat>) {
    && MemTable(s) && FileTable(s) && FramesDistinct(s)
    && (forall v :: v in limbo ==> Resident(s, v) && !InMemory(s, v))
    && (forall v :: v in s.pt && v !in limbo ==> InMemory(s, v) || InFile(s, v))
  }

  ghost predicate Inv(s: State) {
    InvBut(s, {})
  }

  /** What the process sees: the flat memory in which nothing is ever swapped. */
  ghost predicate Shows(s: State, flat: map<nat, Page>) {
    && flat.Keys == s.pt.Keys
    && (forall v :: v in s.pt && Resident(s, v) ==> s.frames[s.pt[v].ppn] == flat[v])
    && (forall j :: 0 <= j < |s.file| && s.file[j].used && s.file[j].vpn in flat && j < |s.swap| ==>
          s.swap[j] == flat[s.file[j].vpn])
  }

  // ---- Moving pages -----------------------------------------------------------------

  /** A frame kalloc may hand out: none of the pages in memory uses it. */
  ghost predicate FreshFrame(s: State, frame: nat) {
    frame != 0 && forall v :: v in s.pt && s.pt[v].valid ==> s.pt[v].ppn != frame
  }

  /** mappages of one zeroed page. */
  function MapPage(s: State, v: nat, frame: nat): State {
    s.(pt := s.pt[v := Pte(frame, true, false, false, RWXU)], frames := s.frames[frame := ZeroPage()])
  }

  function StartCount(pol: Policy): nat {
    if pol.LAPA? then UINT_MAX else 0
  }

  /** add_to_memory_page_metadata: the first free entry takes the page. Under SCFIFO
      the access count is left as it is. */
  function AddMeta(pol: Policy, s: State, v: nat): State
    requires LowestFree(s.mem) < |s.mem|
  {
    var f := LowestFree(s.mem);
    var count := if pol.SCFIFO? then s.mem[f].count else StartCount(pol);
    s.(mem := s.mem[f := Meta(true, v, s.clock % (UINT_MAX + 1), count)], clock := s.clock + 1, inMem := s.inMem + 1)
  }

  /** Drop entry k of the memory table. */
  function Release(s: State, k: nat): State
    requires k < |s.mem| && s.inMem > 0
  {
    s.(mem := s.mem[k := s.mem[k].(used := false)], inMem := s.inMem - 1)
  }

  /** write_page_to_file and update_page_out_pte for page v, which no longer has an
      entry in the memory table. */
  function PageOut(s: State, v: nat): State
    requires v in s.pt && s.pt[v].ppn in s.frames && LowestFree(s.file) < |s.file| && LowestFree(s.file) <= |s.swap|
  {
    var f := LowestFree(s.file);
    var data := s.frames[s.pt[v].ppn];
    s.(swap := if f < |s.swap| then s.swap[f := data] else s.swap + [data],
       file := s.file[f := s.file[f].(used := true, vpn := v, order := 0)],
       inFile := s.inFile + 1,
       pt := s.pt[v := s.pt[v].(ppn := 0, pg := true, valid := false)])
  }

  /** update_page_in_pte and read_page_from_file into entry k: the whole file entry,
      access count included, replaces the memory entry. */
  function PageIn(s: State, k: nat, v: nat, frame: nat): State
    requires k < |s.mem| && v in s.pt && FirstWith(s.file, v) < |s.file| && FirstWith(s.file, v) < |s.swap|
             && s.inFile > 0
  {
    var f := FirstWith(s.file, v);
    s.(pt := s.pt[v := s.pt[v].(ppn := frame, valid := true, pg := false, perm := RWXU)],
       frames := s.frames[frame := s.swap[f]],
       mem := s.mem[k := s.file[f].(order := s.clock % (UINT_MAX + 1))],
       clock := s.clock + 1,
       file := s.file[f := s.file[f].(used := false)],
       inFile := s.inFile - 1,
       inMem := s.inMem + 1)
  }

  // ---- Each move keeps the invariant and what the process sees ------------------------

  lemma {:induction false} MapPageInv(s: State, v: nat, frame: nat)
    requires Inv(s) && v !in s.pt && FreshFrame(s, frame)
    ensures InvBut(MapPage(s, v, frame), {v})
  {
    hide CountUsed, ZeroPage;
    var t := MapPage(s, v, frame);
    forall i | 0 <= i < |s.mem| && s.mem[i].used ensures Resident(t, t.mem[i].vpn) {
      assert Resident(s, s.mem[i].vpn);
    }
    forall j | 0 <= j < |s.file| && s.file[j].used ensures PagedOut(t, t.file[j].vpn) {
      assert PagedOut(s, s.file[j].vpn);
    }
    forall w | w in t.pt && w != v ensures InMemory(t, w) || InFile(t, w) {
      assert InMemory(s, w) || InFile(s, w);
    }
  }

  lemma {:induction false} MapPageShows(s: State, v: nat, frame: nat, flat: map<nat, Page>)
    requires Inv(s) && Shows(s, flat) && v !in s.pt && FreshFrame(s, frame)
    ensures Shows(MapPage(s, v, frame), flat[v := ZeroPage()])
  {
    hide CountUsed, ZeroPage, InMemory, InFile, FramesDistinct, MemTable;
    var t := MapPage(s, v, frame);
    forall w | w in t.pt && Resident(t, w) ensures t.frames[t.pt[w].ppn] == flat[v := ZeroPage()][w] {
      if w != v {
        assert Resident(s, w);
      }
    }
  }

  lemma {:induction false} AddMetaInv(pol: Policy, s: State, v: nat)
    requires InvBut(s, {v}) && s.inMem < MAX_PYSC_PAGES
    ensures LowestFree(s.mem) < |s.mem| && Inv(AddMeta(pol, s, v))
  {
    hide CountUsed, LowestFree, FramesDistinct;
    FreeIffNotFull(s.mem);
    var f := LowestFree(s.mem);
    var t := AddMeta(pol, s, v);
    CountUpdate(s.mem, f, t.mem[f]);
    forall w | w in t.pt ensures InMemory(t, w) || InFile(t, w) {
      if w == v {
        assert t.mem[f].vpn == v;
      } else if InMemory(s, w) {
        var i :| 0 <= i < |s.mem| && s.mem[i].used && s.mem[i].vpn == w;
        assert t.mem[i] == s.mem[i];
      } else {
        assert InFile(s, w);
      }
    }
    forall i | 0 <= i < |t.mem| && t.mem[i].used ensures Resident(t, t.mem[i].vpn) {
      assert Resident(s, t.mem[i].vpn);
    }
    assert FileTable(t);
    SamePtDistinct(s, t);
  }

  lemma SamePtDistinct(s: State, t: State)
    requires FramesDistinct(s) && s.pt == t.pt
    ensures FramesDistinct(t)
  {
  }

  lemma {:induction false} ReleaseInv(s: State, k: nat, limbo: set<nat>)
    requires InvBut(s, limbo) && k < |s.mem| && s.mem[k].used
    ensures s.inMem > 0 && InvBut(Release(s, k), limbo + {s.mem[k].vpn})
    ensures s.mem[k].vpn !in limbo
  {
    hide CountUsed, FramesDistinct;
    var w := s.mem[k].vpn;
    assert Resident(s, w);
    CountUpdate(s.mem, k, s.mem[k].(used := false));
    var t := Release(s, k);
    assert InMemory(s, w);
    forall x | x in t.pt && x !in limbo + {w} ensures InMemory(t, x) || InFile(t, x) {
      if InMemory(s, x) {
        var i :| 0 <= i < |s.mem| && s.mem[i].used && s.mem[i].vpn == x;
        assert t.mem[i] == s.mem[i];
      } else {
        assert InFile(s, x);
      }
    }
    forall x | x in limbo + {w} ensures Resident(t, x) && !InMemory(t, x) {
      if x in limbo {
        assert Resident(s, x) && !InMemory(s, x);
      }
    }
    forall i | 0 <= i < |t.mem| && t.mem[i].used ensures Resident(t, t.mem[i].vpn) {
      assert Resident(s, t.mem[i].vpn);
    }
    assert FileTable(t);
    SamePtDistinct(s, t);
  }

  /** The lowest free slot is never past the end of the swap file. */
  lemma {:induction false} SlotInReach(s: State)
    requires FileTable(s) && s.inFile < MAX_FILE_PAGES
    ensures LowestFree(s.file) < |s.file| && LowestFree(s.file) <= |s.swap|
  {
    hide CountUsed, LowestFree;
    FreeIffNotFull(s.file);
    var f := LowestFree(s.file);
    assert 0 < f ==> s.file[f - 1].used;
  }

  lemma {:induction false} PageOutFile(s: State, v: nat)
    requires FileTable(s) && s.inFile < MAX_FILE_PAGES && Resident(s, v)
    ensures LowestFree(s.file) < |s.file| && LowestFree(s.file) <= |s.swap|
    ensures FileTable(PageOut(s, v)) && InFile(PageOut(s, v), v)
    ensures forall w :: w != v && InFile(s, w) ==> InFile(PageOut(s, v), w)
  {
    hide CountUsed, LowestFree;
    SlotInReach(s);
    var f := LowestFree(s.file);
    var t := PageOut(s, v);
    CountUpdate(s.file, f, t.file[f]);
    forall j | 0 <= j < |t.file| && t.file[j].used ensures PagedOut(t, t.file[j].vpn) && j < |t.swap| {
      if j != f {
        assert PagedOut(s, s.file[j].vpn);
      }
    }
    forall w | w != v && InFile(s, w) ensures InFile(t, w) {
      var j :| 0 <= j < |s.file| && s.file[j].used && s.file[j].vpn == w;
      assert t.file[j] == s.file[j];
    }
    assert t.file[f].used && t.file[f].vpn == v;
  }

  lemma {:induction false} PageOutInv(s: State, v: nat, limbo: set<nat>)
    requires InvBut(s, limbo) && v in limbo && s.inFile < MAX_FILE_PAGES
    ensures LowestFree(s.file) < |s.file| && LowestFree(s.file) <= |s.swap|
    ensures InvBut(PageOut(s, v), limbo - {v})
  {
    hide CountUsed, LowestFree, FileTable;
    assert Resident(s, v) && !InMemory(s, v);
    PageOutFile(s, v);
    var t := PageOut(s, v);
    forall w | w in t.pt && w !in limbo - {v} ensures InMemory(t, w) || InFile(t, w) {
      if w != v {
        assert InMemory(s, w) || InFile(s, w);
      }
    }
    forall i | 0 <= i < |t.mem| && t.mem[i].used ensures Resident(t, t.mem[i].vpn) {
      assert Resident(s, s.mem[i].vpn);
      assert InMemory(s, s.mem[i].vpn);
    }
    forall w | w in limbo - {v} ensures Resident(t, w) && !InMemory(t, w) {
      assert Resident(s, w) && !InMemory(s, w);
    }
  }

  lemma {:induction false} PageOutShows(s: State, v: nat, flat: map<nat, Page>)
    requires FileTable(s) && Resident(s, v) && Shows(s, flat) && s.inFile < MAX_FILE_PAGES
    ensures LowestFree(s.file) < |s.file| && LowestFree(s.file) <= |s.swap|
    ensures Shows(PageOut(s, v), flat)
  {
    hide CountUsed, LowestFree;
    SlotInReach(s);
    var t := PageOut(s, v);
    forall w | w in t.pt && Resident(t, w) ensures t.frames[t.pt[w].ppn] == flat[w] {
      assert Resident(s, w);
    }
    forall j | 0 <= j < |t.file| && t.file[j].used && t.file[j].vpn in flat && j < |t.swap|
      ensures t.swap[j] == flat[t.file[j].vpn]
    {
      if j != LowestFree(s.file) {
        assert s.file[j].used && j < |s.swap|;
      }
    }
  }

  /** The state-blind search finds the live entry of a page that is in the file. */
  lemma {:induction false} SearchHitsLive(s: State, v: nat)
    requires FileTable(s) && InFile(s, v)
    ensures FirstWith(s.file, v) < |s.file| && s.file[FirstWith(s.file, v)].used && FirstWith(s.file, v) < |s.swap|
    ensures s.inFile > 0
  {
    hide CountUsed, FirstWith;
    var j :| 0 <= j < |s.file| && s.file[j].used && s.file[j].vpn == v;
    var f := FirstWith(s.file, v);
    assert f <= j;
    CountUpdate(s.file, j, s.file[j].(used := false));
  }

  lemma {:induction false} PageInFile(s: State, k: nat, v: nat, frame: nat)
    requires FileTable(s) && InFile(s, v) && k < |s.mem|
    ensures FirstWith(s.file, v) < |s.file| && FirstWith(s.file, v) < |s.swap| && s.inFile > 0
    ensures var t := PageIn(s, k, v, frame);
            FileTable(t) && t.mem[k].used && t.mem[k].vpn == v && forall w :: w != v && InFile(s, w) ==> InFile(t, w)
  {
    hide CountUsed, FirstWith;
    SearchHitsLive(s, v);
    var f := FirstWith(s.file, v);
    var t := PageIn(s, k, v, frame);
    CountUpdate(s.file, f, t.file[f]);
    forall j | 0 <= j < |t.file| && t.file[j].used ensures PagedOut(t, t.file[j].vpn) {
      assert PagedOut(s, s.file[j].vpn);
      assert j != f;
    }
    forall w | w != v && InFile(s, w) ensures InFile(t, w) {
      var j :| 0 <= j < |s.file| && s.file[j].used && s.file[j].vpn == w;
      assert t.file[j] == s.file[j];
    }
  }

  lemma {:induction false} PageInInv(s: State, k: nat, v: nat, frame: nat, limbo: set<nat>)
    requires InvBut(s, limbo) && InFile(s, v) && k < |s.mem| && !s.mem[k].used && FreshFrame(s, frame)
    ensures FirstWith(s.file, v) < |s.file| && FirstWith(s.file, v) < |s.swap| && s.inFile > 0
    ensures InvBut(PageIn(s, k, v, frame), limbo)
  {
    hide CountUsed, FirstWith, FileTable;
    PageInFile(s, k, v, frame);
    PagedOutNotResident(s, v);
    var t := PageIn(s, k, v, frame);
    CountUpdate(s.mem, k, t.mem[k]);
    forall i | 0 <= i < |t.mem| && t.mem[i].used ensures Resident(t, t.mem[i].vpn) {
      if i != k {
        assert Resident(s, s.mem[i].vpn);
      }
    }
    forall w | w in t.pt && w !in limbo ensures InMemory(t, w) || InFile(t, w) {
      if w == v {
        assert t.mem[k].vpn == v;
      } else if InMemory(s, w) {
        var i :| 0 <= i < |s.mem| && s.mem[i].used && s.mem[i].vpn == w;
        assert t.mem[i] == s.mem[i];
      } else {
        assert InFile(s, w);
      }
    }
    forall w | w in limbo ensures Resident(t, w) && !InMemory(t, w) {
      assert Resident(s, w) && !InMemory(s, w);
    }
  }

  lemma {:induction false} PagedOutNotResident(s: State, v: nat)
    requires FileTable(s) && InFile(s, v)
    ensures PagedOut(s, v) && !Resident(s, v)
  {
    var j :| 0 <= j < |s.file| && s.file[j].used && s.file[j].vpn == v;
    assert PagedOut(s, s.file[j].vpn);
  }

  lemma {:induction false} PageInShows(s: State, k: nat, v: nat, frame: nat, flat: map<nat, Page>)
    requires FileTable(s) && InFile(s, v) && k < |s.mem| && FreshFrame(s, frame) && Shows(s, flat)
    ensures FirstWith(s.file, v) < |s.file| && FirstWith(s.file, v) < |s.swap| && s.inFile > 0
    ensures Shows(PageIn(s, k, v, frame), flat)
  {
    hide CountUsed, FirstWith;
    SearchHitsLive(s, v);
    PagedOutNotResident(s, v);
    var t := PageIn(s, k, v, frame);
    forall w | w in t.pt && Resident(t, w) ensures t.frames[t.pt[w].ppn] == flat[w] {
      if w != v {
        assert Resident(s, w);
      }
    }
    forall j | 0 <= j < |t.file| && t.file[j].used && t.file[j].vpn in flat && j < |t.swap|
      ensures t.swap[j] == flat[t.file[j].vpn]
    {
      assert s.file[j].used;
    }
  }
}
