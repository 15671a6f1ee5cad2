/** The split queue between kernel/virtio_disk.c and its device: descriptors, the two
    rings, requests in flight, and the steps that either side can take. */
module VirtioSpec {
  import opened Basics

  const NUM: nat := 8
  const WRAP: nat := 0x1_0000  // ring indices are 16 bits wide

  // ---- A ring with wrapping indices ---------------------------------------------------------

  /** How far index b is ahead of index a. */
  function Ahead(a: nat, b: nat): nat
    requires a < WRAP && b < WRAP
  {
    if a <= b then b - a else b + WRAP - a
  }

  /** The entries between the consumer's index and the producer's. */
  function Items(ring: seq<nat>, from: nat, to: nat): seq<nat>
    requires |ring| == NUM && from < WRAP && to < WRAP
  {
    seq(Ahead(from, to), (i: nat) => ring[Slot(from, i)])
  }

  function Slot(from: nat, i: nat): nat {
    (from + i) % NUM
  }

  lemma {:induction false} PushItems(ring: seq<nat>, from: nat, to: nat, x: nat)
    requires |ring| == NUM && from < WRAP && to < WRAP && |Items(ring, from, to)| < NUM
    ensures Items(ring[to % NUM := x], from, (to + 1) % WRAP) == Items(ring, from, to) + [x]
  {
    var n := Ahead(from, to);
    assert to % NUM == Slot(from, n);
    forall i: nat | i < n ensures Slot(from, i) != Slot(from, n) {
    }
  }

  lemma {:induction false} PopItems(ring: seq<nat>, from: nat, to: nat)
    requires |ring| == NUM && from < WRAP && to < WRAP && from != to
    ensures Items(ring, from, to) != [] && Items(ring, from, to)[0] == ring[from % NUM]
    ensures Items(ring, (from + 1) % WRAP, to) == Items(ring, from, to)[1..]
  {
    var next := (from + 1) % WRAP;
    forall i: nat | i < Ahead(next, to) ensures Slot(next, i) == Slot(from, i + 1) {
    }
  }

  // ---- The shared memory -----------------------------------------------------------------------

  type Block = seq<int>

  datatype Addr = Nowhere | Cmd(i: nat) | Data(b: nat) | Status(i: nat)

  /** A descriptor; more and deviceWrites are the flag bits NEXT and WRITE. */
  datatype Desc = Desc(addr: Addr, more: bool, deviceWrites: bool, next: nat)

  const EMPTY: Desc := Desc(Nowhere, false, false, 0)

  datatype Request = Request(write: bool, sector: nat)
  datatype Info = Info(b: Option<nat>, status: int)

  /** The driver's and the device's state. busy are the buffers with b->disk set; taken are
      the heads the device works on; data and sectors hold the contents. */
  datatype Disk = Disk(
    free: seq<bool>, desc: seq<Desc>, avail: seq<nat>, availIdx: nat, used: seq<nat>, usedIdx: nat, seen: nat,
    info: seq<Info>, ops: seq<Request>, busy: set<nat>,
    devNext: nat, taken: set<nat>, data: map<nat, Block>, sectors: map<nat, Block>)

  /** A request in flight: its buffer, its second and third descriptor, and what it asks for. */
  datatype Flight = Flight(b: nat, i1: nat, i2: nat, write: bool, sector: nat)

  /** All requests by head descriptor; fin are those the interrupt handler has finished. */
  datatype Ghost = Ghost(fl: map<nat, Flight>, fin: set<nat>)

  function CountFree(free: seq<bool>): nat {
    if free == [] then 0 else CountFree(free[..|free| - 1]) + if free[|free| - 1] then 1 else 0
  }

  ghost predicate Shape(s: Disk) {
    && |s.free| == NUM && |s.desc| == NUM && |s.avail| == NUM && |s.used| == NUM && |s.info| == NUM && |s.ops| == NUM
    && s.availIdx < WRAP && s.usedIdx < WRAP && s.seen < WRAP && s.devNext < WRAP
  }

  function Queue(s: Disk): seq<nat>
    requires Shape(s)
  {
    Items(s.avail, s.devNext, s.availIdx)
  }

  function Done(s: Disk): seq<nat>
    requires Shape(s)
  {
    Items(s.used, s.seen, s.usedIdx)
  }

  // ---- The invariant ---------------------------------------------------------------------------

  predicate OnChain(h: nat, f: Flight, i: nat) {
    i == h || i == f.i1 || i == f.i2
  }

  /** The three descriptors of a request are as virtio_disk_rw formatted them. */
  ghost predicate ChainOk(s: Disk, h: nat, f: Flight)
    requires Shape(s)
  {
    && h < NUM && f.i1 < NUM && f.i2 < NUM && h != f.i1 && h != f.i2 && f.i1 != f.i2
    && !s.free[h] && !s.free[f.i1] && !s.free[f.i2]
    && s.desc[h] == Desc(Cmd(h), true, false, f.i1)
    && s.desc[f.i1] == Desc(Data(f.b), true, !f.write, f.i2)
    && s.desc[f.i2] == Desc(Status(h), false, true, 0)
    && s.ops[h] == Request(f.write, f.sector) && s.info[h].b == Some(f.b)
  }

  ghost predicate Chains(s: Disk, fl: map<nat, Flight>)
    requires Shape(s)
  {
    && (forall h :: h in fl ==> ChainOk(s, h, fl[h]))
    && (forall h, k, i: nat :: h in fl && k in fl && h != k && OnChain(h, fl[h], i) ==> !OnChain(k, fl[k], i))
    && (forall h, k :: h in fl && k in fl && h != k ==> fl[h].b != fl[k].b)
  }

  /** A free descriptor is blank; the rest are exactly those on chains. */
  ghost predicate FreeOk(s: Disk, fl: map<nat, Flight>)
    requires Shape(s)
  {
    && (forall i: nat :: i < NUM && s.free[i] ==> s.desc[i] == EMPTY)
    && (forall i: nat :: i < NUM && !s.free[i] ==> exists h :: h in fl && OnChain(h, fl[h], i))
    && (forall h: nat :: h < NUM && h !in fl ==> s.info[h].b.None?)
    && CountFree(s.free) + 3 * |fl| == NUM
  }

  /** Each request is queued, with the device, completed, or finished: exactly one of these. */
  ghost predicate Places(q: seq<nat>, taken: set<nat>, d: seq<nat>, g: Ghost) {
    multiset(q) + multiset(taken) + multiset(d) + multiset(g.fin) == multiset(g.fl.Keys)
  }

  /** The status byte of a request says 0 from its completion on, and 0xff before. */
  ghost predicate StatusOk(s: Disk, g: Ghost)
    requires Shape(s)
  {
    forall h :: h in g.fl ==> h < NUM && s.info[h].status == if h in Done(s) || h in g.fin then 0 else 0xff
  }

  /** b->disk is set exactly while b's request is not finished. */
  ghost predicate BusyOk(busy: set<nat>, g: Ghost) {
    && (forall h :: h in g.fl ==> (g.fl[h].b in busy <==> h !in g.fin))
    && (forall b :: b in busy ==> exists h :: h in g.fl && g.fl[h].b == b)
  }

  ghost predicate Inv(s: Disk, g: Ghost) {
    Shape(s) && Chains(s, g.fl) && FreeOk(s, g.fl) && Places(Queue(s), s.taken, Done(s), g) && StatusOk(s, g)
      && BusyOk(s.busy, g)
  }

  // ---- Steps -------------------------------------------------------------------------------------

  ghost predicate CanStart(s: Disk, g: Ghost, i0: nat, i1: nat, i2: nat, b: nat) {
    && Shape(s) && i0 < NUM && i1 < NUM && i2 < NUM && i0 != i1 && i0 != i2 && i1 != i2
    && s.free[i0] && s.free[i1] && s.free[i2]
    && forall h :: h in g.fl ==> g.fl[h].b != b  // the caller holds b's sleep lock
  }

  /** virtio_disk_rw up to the wait: format the chain and publish it. */
  function Start(s: Disk, i0: nat, i1: nat, i2: nat, b: nat, write: bool, sector: nat): Disk
    requires Shape(s) && i0 < NUM && i1 < NUM && i2 < NUM
  {
    s.(free := s.free[i0 := false][i1 := false][i2 := false],
       ops := s.ops[i0 := Request(write, sector)],
       desc := s.desc[i0 := Desc(Cmd(i0), true, false, i1)][i1 := Desc(Data(b), true, !write,
             i2)][i2 := Desc(Status(i0), false, true, 0)],
       info := s.info[i0 := Info(Some(b), 0xff)],
       busy := s.busy + {b},
       avail := s.avail[s.availIdx % NUM := i0],
       availIdx := (s.availIdx + 1) % WRAP)
  }

  ghost function Started(g: Ghost, i0: nat, i1: nat, i2: nat, b: nat, write: bool, sector: nat): Ghost {
    g.(fl := g.fl[i0 := Flight(b, i1, i2, write, sector)])
  }

  /** The device takes the next entry of the avail ring. */
  function Take(s: Disk): Disk
    requires Shape(s)
  {
    s.(devNext := (s.devNext + 1) % WRAP, taken := s.taken + {s.avail[s.devNext % NUM]})
  }

  /** The device carries out request h as its descriptors say, sets the status, and puts h
      on the used ring. */
  function Complete(s: Disk, h: nat): Disk
    requires Shape(s) && h < NUM
  {
    var d0 := s.desc[h];
    var d1 := if d0.more && d0.next < NUM then s.desc[d0.next] else EMPTY;
    var d2 := if d1.more && d1.next < NUM then s.desc[d1.next] else EMPTY;
    var moved :=
      if d0.addr.Cmd? && !d0.deviceWrites && d0.addr.i < NUM && d1.addr.Data?
         && d1.deviceWrites == !s.ops[d0.addr.i].write then Moved(s, s.ops[d0.addr.i], d1.addr.b)
      else s;
    var told :=
      if d2.addr.Status? && d2.deviceWrites && !d2.more && d2.addr.i < NUM then
        moved.(info := s.info[d2.addr.i := s.info[d2.addr.i].(status := 0)])
      else moved;
    told.(taken := s.taken - {h}, used := s.used[s.usedIdx % NUM := h], usedIdx := (s.usedIdx + 1) % WRAP)
  }

  function Moved(s: Disk, op: Request, b: nat): Disk {
    if op.write then (if b in s.data then s.(sectors := s.sectors[op.sector := s.data[b]]) else s)
    else if op.sector in s.sectors then s.(data := s.data[b := s.sectors[op.sector]])
    else s
  }

  /** One round of virtio_disk_intr's loop; None is a null buffer or the status panic. */
  function Handle(s: Disk): Option<Disk>
    requires Shape(s)
  {
    var id := s.used[s.seen % NUM];
    if id >= NUM || s.info[id].status != 0 || s.info[id].b.None? then None
    else Some(s.(busy := s.busy - {s.info[id].b.value}, seen := (s.seen + 1) % WRAP))
  }

  /** virtio_disk_rw after the wait: forget the buffer and free the chain. */
  function Finish(s: Disk, h: nat, i1: nat, i2: nat): Disk
    requires Shape(s) && h < NUM && i1 < NUM && i2 < NUM
  {
    s.(info := s.info[h := s.info[h].(b := None)],
       desc := s.desc[h := EMPTY][i1 := EMPTY][i2 := EMPTY],
       free := s.free[h := true][i1 := true][i2 := true])
  }

  // ---- Every step keeps the invariant ------------------------------------------------------------

  lemma {:induction false} CountSet(free: seq<bool>, i: nat, v: bool)
    requires i < |free| && free[i] != v
    ensures CountFree(free[i := v]) == CountFree(free) + if v then 1 else -1
    decreases |free|
  {
    var n := |free| - 1;
    if i < n {
      assert free[i := v][..n] == free[..n][i := v];
      CountSet(free[..n], i, v);
    } else {
      assert free[i := v][..n] == free[..n];
    }
  }

  /** Where a request can be. */
  lemma {:induction false} PlaceOf(q: seq<nat>, taken: set<nat>, d: seq<nat>, g: Ghost, h: nat)
    requires Places(q, taken, d, g)
    ensures h in q || h in taken || h in d || h in g.fin <==> h in g.fl
    ensures h in g.fin ==> h !in q && h !in taken && h !in d
    ensures h in d ==> h !in q && h !in taken
    ensures |q| + |taken| + |d| + |g.fin| == |g.fl|
  {
    var all := multiset(q) + multiset(taken) + multiset(d) + multiset(g.fin);
    assert all[h] == multiset(g.fl.Keys)[h];
    assert |all| == |multiset(g.fl.Keys)|;
  }

  /** With eight descriptors at most two requests are in flight, so no ring is ever full. */
  lemma {:induction false} RingsNeverFull(s: Disk, g: Ghost)
    requires Inv(s, g)
    ensures |g.fl| <= 2 && |Queue(s)| <= 2 && |Done(s)| <= 2
  {
    hide Chains, BusyOk, Queue, Done, Places;
    PlaceOf(Queue(s), s.taken, Done(s), g, 0);
  }

  // Starting a request.

  lemma {:induction false} OldChain(s: Disk, g: Ghost, i0: nat, i1: nat, i2: nat, b: nat, write: bool, sector: nat,
                                    h: nat)
    requires Shape(s) && CanStart(s, g, i0, i1, i2, b) && h in g.fl && ChainOk(s, h, g.fl[h])
    ensures ChainOk(Start(s, i0, i1, i2, b, write, sector), h, g.fl[h]) && h != i0
    ensures forall i: nat :: OnChain(h, g.fl[h], i) ==> i != i0 && i != i1 && i != i2
  {
  }

  lemma {:induction false} StartChains(s: Disk, g: Ghost, i0: nat, i1: nat, i2: nat, b: nat, write: bool, sector: nat)
    requires Shape(s) && Chains(s, g.fl) && CanStart(s, g, i0, i1, i2, b)
    ensures Chains(Start(s, i0, i1, i2, b, write, sector), Started(g, i0, i1, i2, b, write, sector).fl)
  {
    hide ChainOk, Start, CanStart;
    NewChain(s, g, i0, i1, i2, b, write, sector);
    var t, u := Start(s, i0, i1, i2, b, write, sector), Started(g, i0, i1, i2, b, write, sector);
    forall h | h in g.fl
      ensures ChainOk(t, h, g.fl[h]) && h != i0 && forall i: nat :: OnChain(h, g.fl[h], i) ==>
                i != i0 && i != i1 && i != i2
    {
      OldChain(s, g, i0, i1, i2, b, write, sector, h);
    }
  }

  lemma {:induction false} NewChain(s: Disk, g: Ghost, i0: nat, i1: nat, i2: nat, b: nat, write: bool, sector: nat)
    requires CanStart(s, g, i0, i1, i2, b)
    ensures Shape(s) && i0 < NUM && i1 < NUM && i2 < NUM && forall h :: h in g.fl ==> g.fl[h].b != b
    ensures var t := Start(s, i0, i1, i2, b, write, sector);
            Shape(t) && ChainOk(t, i0, Flight(b, i1, i2, write, sector))
  {
  }

  lemma {:induction false} StartCount(free: seq<bool>, i0: nat, i1: nat, i2: nat)
    requires |free| == NUM && i0 < NUM && i1 < NUM && i2 < NUM && i0 != i1 && i0 != i2 && i1 != i2 && free[i0]
             && free[i1] && free[i2]
    ensures CountFree(free[i0 := false][i1 := false][i2 := false]) == CountFree(free) - 3
  {
    hide CountFree;
    CountSet(free, i0, false);
    CountSet(free[i0 := false], i1, false);
    CountSet(free[i0 := false][i1 := false], i2, false);
  }

  lemma {:induction false} NewHead(s: Disk, g: Ghost, i0: nat, i1: nat, i2: nat, b: nat)
    requires Shape(s) && Chains(s, g.fl) && CanStart(s, g, i0, i1, i2, b)
    ensures i0 !in g.fl
  {
    assert i0 in g.fl ==> ChainOk(s, i0, g.fl[i0]);
  }

  lemma {:induction false} StartFree(s: Disk, g: Ghost, i0: nat, i1: nat, i2: nat, b: nat, write: bool, sector: nat)
    requires Shape(s) && Chains(s, g.fl) && FreeOk(s, g.fl) && CanStart(s, g, i0, i1, i2, b)
    ensures FreeOk(Start(s, i0, i1, i2, b, write, sector), Started(g, i0, i1, i2, b, write, sector).fl)
  {
    hide CountFree, Chains;
    var t, u := Start(s, i0, i1, i2, b, write, sector), Started(g, i0, i1, i2, b, write, sector);
    StartCount(s.free, i0, i1, i2);
    NewHead(s, g, i0, i1, i2, b);
    assert |u.fl| == |g.fl| + 1 by {
      assert u.fl.Keys == g.fl.Keys + {i0};
    }
    forall i: nat | i < NUM && !t.free[i] ensures exists h :: h in u.fl && OnChain(h, u.fl[h], i) {
      InUseOnChain(s, g, i0, Flight(b, i1, i2, write, sector), u.fl, i);
    }
  }

  lemma {:induction false} InUseOnChain(s: Disk, g: Ghost, i0: nat, f: Flight, fl: map<nat, Flight>, i: nat)
    requires Shape(s) && FreeOk(s, g.fl) && i0 !in g.fl && i < NUM && (!s.free[i] || OnChain(i0, f, i))
    requires fl == g.fl[i0 := f]
    ensures exists h :: h in fl && OnChain(h, fl[h], i)
  {
    hide CountFree;
    if OnChain(i0, f, i) {
      assert i0 in fl && fl[i0] == f;
    } else {
      var h :| h in g.fl && OnChain(h, g.fl[h], i);
      assert h in fl && fl[h] == g.fl[h];
    }
  }

  lemma {:induction false} StartPlaces(s: Disk, g: Ghost, i0: nat, i1: nat, i2: nat, b: nat, write: bool, sector: nat)
    requires Inv(s, g) && CanStart(s, g, i0, i1, i2, b) && i0 !in g.fl
    ensures var t, u := Start(s, i0, i1, i2, b, write, sector), Started(g, i0, i1, i2, b, write, sector);
            Places(Queue(t), t.taken, Done(t), u) && StatusOk(t, u) && Queue(t) == Queue(s) + [i0]
  {
    hide FreeOk, Items, Chains, BusyOk, CanStart, Places;
    NewChain(s, g, i0, i1, i2, b, write, sector);
    RingsNeverFull(s, g);
    PushItems(s.avail, s.devNext, s.availIdx, i0);
    AddPlaces(Queue(s), s.taken, Done(s), g, i0, Flight(b, i1, i2, write, sector));
    PlaceOf(Queue(s), s.taken, Done(s), g, i0);
  }

  lemma {:induction false} StartBusy(s: Disk, g: Ghost, i0: nat, i1: nat, i2: nat, b: nat, write: bool, sector: nat)
    requires Inv(s, g) && CanStart(s, g, i0, i1, i2, b) && i0 !in g.fl
    ensures BusyOk(Start(s, i0, i1, i2, b, write, sector).busy, Started(g, i0, i1, i2, b, write, sector))
  {
    hide FreeOk, Queue, Done, Chains, Places, StatusOk;
    var t, u := Start(s, i0, i1, i2, b, write, sector), Started(g, i0, i1, i2, b, write, sector);
    PlaceOf(Queue(s), s.taken, Done(s), g, i0);
    assert u.fl[i0].b == b;
    forall c | c in t.busy ensures exists h :: h in u.fl && u.fl[h].b == c {
      if c != b {
        var h :| h in g.fl && g.fl[h].b == c;
        assert u.fl[h] == g.fl[h];
      }
    }
  }

  lemma {:induction false} StartInv(s: Disk, g: Ghost, i0: nat, i1: nat, i2: nat, b: nat, write: bool, sector: nat)
    requires Inv(s, g) && CanStart(s, g, i0, i1, i2, b)
    ensures Inv(Start(s, i0, i1, i2, b, write, sector), Started(g, i0, i1, i2, b, write, sector))
  {
    hide FreeOk, Places, BusyOk, StatusOk, Queue, Done, CanStart, Start, ChainOk;
    NewChain(s, g, i0, i1, i2, b, write, sector);
    StartChains(s, g, i0, i1, i2, b, write, sector);
    NewHead(s, g, i0, i1, i2, b);
    StartFree(s, g, i0, i1, i2, b, write, sector);
    StartPlaces(s, g, i0, i1, i2, b, write, sector);
    StartBusy(s, g, i0, i1, i2, b, write, sector);
  }

  // The device's steps and the handler's.

  lemma {:induction false} ChainsFrame(s: Disk, t: Disk, g: Ghost)
    requires Shape(s) && Shape(t) && t.free == s.free && t.desc == s.desc && t.ops == s.ops && Chains(s, g.fl)
             && FreeOk(s, g.fl)
    requires forall i: nat :: i < NUM ==> t.info[i].b == s.info[i].b
    ensures Chains(t, g.fl) && FreeOk(t, g.fl)
  {
    forall h | h in g.fl ensures ChainOk(t, h, g.fl[h]) {
      assert ChainOk(s, h, g.fl[h]);
    }
  }

  lemma {:induction false} TakePlaces(q: seq<nat>, taken: set<nat>, d: seq<nat>, g: Ghost)
    requires Places(q, taken, d, g) && q != []
    ensures Places(q[1..], taken + {q[0]}, d, g)
  {
    NotTwice(q, taken, d, g);
    assert q == [q[0]] + q[1..];
    assert multiset(q) == multiset{q[0]} + multiset(q[1..]);
    assert multiset(taken + {q[0]}) == multiset(taken) + multiset{q[0]};
  }

  lemma {:induction false} CompletePlaces(q: seq<nat>, taken: set<nat>, d: seq<nat>, g: Ghost, h: nat)
    requires Places(q, taken, d, g) && h in taken
    ensures Places(q, taken - {h}, d + [h], g)
  {
    assert multiset(taken) == multiset(taken - {h}) + multiset{h};
    assert multiset(d + [h]) == multiset(d) + multiset{h};
  }

  lemma {:induction false} HandlePlaces(q: seq<nat>, taken: set<nat>, d: seq<nat>, g: Ghost)
    requires Places(q, taken, d, g) && d != []
    ensures d[0] in g.fl && d[0] !in g.fin && Places(q, taken, d[1..], g.(fin := g.fin + {d[0]}))
  {
    hide Places;
    PlaceOf(q, taken, d, g, d[0]);
    HandlePlacesB(q, taken, d, g);
  }

  lemma {:induction false} HandlePlacesB(q: seq<nat>, taken: set<nat>, d: seq<nat>, g: Ghost)
    requires Places(q, taken, d, g) && d != [] && d[0] !in g.fin
    ensures Places(q, taken, d[1..], g.(fin := g.fin + {d[0]}))
  {
    assert d == [d[0]] + d[1..];
    assert multiset(d) == multiset{d[0]} + multiset(d[1..]);
    assert multiset(g.fin + {d[0]}) == multiset(g.fin) + multiset{d[0]};
  }

  lemma {:induction false} AddPlaces(q: seq<nat>, taken: set<nat>, d: seq<nat>, g: Ghost, h: nat, f: Flight)
    requires Places(q, taken, d, g) && h !in g.fl
    ensures Places(q + [h], taken, d, g.(fl := g.fl[h := f]))
  {
    assert g.fl[h := f].Keys == g.fl.Keys + {h};
    assert multiset(g.fl.Keys + {h}) == multiset(g.fl.Keys) + multiset{h};
    assert multiset(q + [h]) == multiset(q) + multiset{h};
  }

  lemma {:induction false} NotTwice(q: seq<nat>, taken: set<nat>, d: seq<nat>, g: Ghost)
    requires Places(q, taken, d, g) && q != []
    ensures q[0] !in taken
  {
    var all := multiset(q) + multiset(taken) + multiset(d) + multiset(g.fin);
    assert all[q[0]] == multiset(g.fl.Keys)[q[0]];
  }

  lemma {:induction false} TakeInv(s: Disk, g: Ghost)
    requires Inv(s, g) && s.devNext != s.availIdx
    ensures Inv(Take(s), g)
  {
    hide Items, FreeOk, Chains, Places;
    var t := Take(s);
    PopItems(s.avail, s.devNext, s.availIdx);
    TakePlaces(Queue(s), s.taken, Done(s), g);
    ChainsFrame(s, t, g);
  }

  /** The device finds exactly what was asked for: it moves the request's block between its
      buffer and its sector, and reports to its own status byte. */
  lemma {:induction false} CompleteMoves(s: Disk, g: Ghost, h: nat)
    requires Shape(s) && Chains(s, g.fl) && h in g.fl
    ensures h < NUM
    ensures var t, f := Complete(s, h), g.fl[h]; var m := Moved(s, Request(f.write, f.sector), f.b);
            t == m.(info := s.info[h := s.info[h].(status := 0)], taken := s.taken - {h},
                  used := s.used[s.usedIdx % NUM := h], usedIdx := (s.usedIdx + 1) % WRAP)
  {
    hide Moved;
    assert ChainOk(s, h, g.fl[h]);
  }

  lemma MovedKeeps(s: Disk, op: Request, b: nat)
    ensures var m := Moved(s, op, b); m == s.(data := m.data, sectors := m.sectors)
  {
  }

  lemma {:induction false} CompleteInv(s: Disk, g: Ghost, h: nat)
    requires Inv(s, g) && h in s.taken
    ensures h < NUM && Inv(Complete(s, h), g)
  {
    hide Items, FreeOk, Complete, Chains, Places, Moved, BusyOk;
    PlaceOf(Queue(s), s.taken, Done(s), g, h);
    CompleteMoves(s, g, h);
    var t := Complete(s, h);
    MovedKeeps(s, Request(g.fl[h].write, g.fl[h].sector), g.fl[h].b);
    RingsNeverFull(s, g);
    PushItems(s.used, s.seen, s.usedIdx, h);
    CompletePlaces(Queue(s), s.taken, Done(s), g, h);
    ChainsFrame(s, t, g);
  }

  /** The handler always finds a buffer and a good status. */
  lemma {:induction false} HandleInv(s: Disk, g: Ghost)
    requires Inv(s, g) && s.seen != s.usedIdx
    ensures Handle(s).Some? && Inv(Handle(s).value, g.(fin := g.fin + {s.used[s.seen % NUM]}))
  {
    hide Items, FreeOk, Places, BusyOk, ChainOk;
    PopItems(s.used, s.seen, s.usedIdx);
    var id, q := s.used[s.seen % NUM], Done(s);
    assert q[0] in q;
    HandlePlaces(Queue(s), s.taken, q, g);
    HeadInfo(s, g, id);
    var t := Handle(s).value;
    ChainsFrame(s, t, g);
    HandleBusy(s, g, id);
    assert forall h :: h in Done(t) ==> h in Done(s);
  }

  lemma {:induction false} HeadInfo(s: Disk, g: Ghost, h: nat)
    requires Shape(s) && Chains(s, g.fl) && h in g.fl
    ensures h < NUM && s.info[h].b == Some(g.fl[h].b)
  {
    assert ChainOk(s, h, g.fl[h]);
  }

  lemma {:induction false} HandleBusy(s: Disk, g: Ghost, id: nat)
    requires Shape(s) && Chains(s, g.fl) && BusyOk(s.busy, g) && id in g.fl
    ensures BusyOk(s.busy - {g.fl[id].b}, g.(fin := g.fin + {id}))
  {
    hide ChainOk;
  }

  // Finishing a request.

  ghost function Finished(g: Ghost, h: nat): Ghost {
    g.(fl := g.fl - {h}, fin := g.fin - {h})
  }

  /** The wait of request h is over: b->disk is clear. */
  ghost predicate CanFinish(s: Disk, g: Ghost, h: nat) {
    h in g.fl && g.fl[h].b !in s.busy
  }

  lemma {:induction false} OtherChain(s: Disk, g: Ghost, h: nat, k: nat)
    requires Shape(s) && Chains(s, g.fl) && h in g.fl && k in g.fl && h != k
    ensures h < NUM && g.fl[h].i1 < NUM && g.fl[h].i2 < NUM
    ensures ChainOk(Finish(s, h, g.fl[h].i1, g.fl[h].i2), k, g.fl[k])
    ensures forall i: nat :: OnChain(k, g.fl[k], i) ==> !OnChain(h, g.fl[h], i)
  {
    assert ChainOk(s, h, g.fl[h]) && ChainOk(s, k, g.fl[k]);
    assert OnChain(k, g.fl[k], k) && OnChain(k, g.fl[k], g.fl[k].i1) && OnChain(k, g.fl[k], g.fl[k].i2);
  }

  lemma {:induction false} FinishChains(s: Disk, g: Ghost, h: nat)
    requires Shape(s) && Chains(s, g.fl) && h in g.fl
    ensures h < NUM && g.fl[h].i1 < NUM && g.fl[h].i2 < NUM && Chains(Finish(s, h, g.fl[h].i1, g.fl[h].i2), g.fl - {h})
  {
    hide ChainOk, Finish;
    ThisChain(s, g, h);
    forall k | k in g.fl && k != h ensures ChainOk(Finish(s, h, g.fl[h].i1, g.fl[h].i2), k, g.fl[k]) {
      OtherChain(s, g, h, k);
    }
  }

  lemma ThisChain(s: Disk, g: Ghost, h: nat)
    requires Shape(s) && Chains(s, g.fl) && h in g.fl
    ensures ChainOk(s, h, g.fl[h]) && h < NUM && g.fl[h].i1 < NUM && g.fl[h].i2 < NUM
            && Shape(Finish(s, h, g.fl[h].i1, g.fl[h].i2))
  {
  }

  lemma {:induction false} FinishCount(free: seq<bool>, i0: nat, i1: nat, i2: nat)
    requires |free| == NUM && i0 < NUM && i1 < NUM && i2 < NUM && i0 != i1 && i0 != i2 && i1 != i2 && !free[i0]
             && !free[i1] && !free[i2]
    ensures CountFree(free[i0 := true][i1 := true][i2 := true]) == CountFree(free) + 3
  {
    hide CountFree;
    CountSet(free, i0, true);
    CountSet(free[i0 := true], i1, true);
    CountSet(free[i0 := true][i1 := true], i2, true);
  }

  lemma {:induction false} FinishFree(s: Disk, g: Ghost, h: nat)
    requires h in g.fl && h < NUM && g.fl[h].i1 < NUM && g.fl[h].i2 < NUM && Shape(s) && FreeOk(s, g.fl)
             && ChainOk(s, h, g.fl[h])
    ensures FreeOk(Finish(s, h, g.fl[h].i1, g.fl[h].i2), g.fl - {h})
  {
    hide CountFree;
    var f, fl := g.fl[h], g.fl - {h};
    var t := Finish(s, h, f.i1, f.i2);
    FinishCount(s.free, h, f.i1, f.i2);
    assert fl.Keys == g.fl.Keys - {h};
    forall i: nat | i < NUM && !t.free[i] ensures exists k :: k in fl && OnChain(k, fl[k], i) {
      var k :| k in g.fl && OnChain(k, g.fl[k], i);
      assert k in fl && fl[k] == g.fl[k];
    }
  }

  lemma {:induction false} FinishPlaces(q: seq<nat>, taken: set<nat>, d: seq<nat>, g: Ghost, h: nat)
    requires Places(q, taken, d, g) && h in g.fin && h in g.fl
    ensures Places(q, taken, d, Finished(g, h))
  {
    assert (g.fl - {h}).Keys == g.fl.Keys - {h};
    var a, fin, keys := multiset(q) + multiset(taken) + multiset(d), multiset(g.fin - {h}), multiset(g.fl.Keys - {h});
    assert multiset(g.fl.Keys) == keys + multiset{h};
    assert multiset(g.fin) == fin + multiset{h};
    assert a + fin + multiset{h} == keys + multiset{h};
    forall x ensures (a + fin)[x] == keys[x] {
      assert (a + fin + multiset{h})[x] == (keys + multiset{h})[x];
    }
  }

  lemma {:induction false} FinishBusy(s: Disk, g: Ghost, h: nat)
    requires BusyOk(s.busy, g) && CanFinish(s, g, h)
    ensures h in g.fin && BusyOk(s.busy, Finished(g, h))
  {
    var u := Finished(g, h);
    forall b | b in s.busy ensures exists k :: k in u.fl && u.fl[k].b == b {
      var k :| k in g.fl && g.fl[k].b == b;
      assert k in u.fl && u.fl[k] == g.fl[k];
    }
  }

  /** A call comes back only when its own request is finished: completed by the device and
      seen by the handler. Its three descriptors are free again, blank, and no one else's. */
  lemma {:induction false} FinishInv(s: Disk, g: Ghost, h: nat)
    requires Inv(s, g) && CanFinish(s, g, h)
    ensures h in g.fin && h !in Queue(s) && h !in s.taken && h !in Done(s)
    ensures h < NUM && g.fl[h].i1 < NUM && g.fl[h].i2 < NUM && Inv(Finish(s, h, g.fl[h].i1, g.fl[h].i2), Finished(g, h))
  {
    hide Items, Chains, FreeOk, Places, BusyOk, ChainOk;
    ThisChain(s, g, h);
    FinishBusy(s, g, h);
    FinishChains(s, g, h);
    FinishFree(s, g, h);
    PlaceOf(Queue(s), s.taken, Done(s), g, h);
    FinishPlaces(Queue(s), s.taken, Done(s), g, h);
  }
}
