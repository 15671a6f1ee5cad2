/** The driver of kernel/virtio_disk.c as it runs: descriptor allocation, the two halves of
    virtio_disk_rw around its wait, and the interrupt handler. */
module VirtioDisk {
  import opened Basics
  import opened VirtioSpec
  import FsSpec

  const BSIZE: nat := FsSpec.BSIZE
  const UINT: nat := FsSpec.UINT
  const SECTOR: nat := 512  // bytes in a sector

  class Driver {
    var free: seq<bool>
    var desc: seq<Desc>
    var avail: seq<nat>
    var availIdx: nat
    var used: seq<nat>
    var usedIdx: nat
    var seen: nat
    var info: seq<Info>
    var ops: seq<Request>
    var busy: set<nat>
    ghost var device: Disk
    ghost var g: Ghost

    /** The driver's memory together with the device's own state. */
    ghost function St(): Disk
      reads this
    {
      Disk(free, desc, avail, availIdx, used, usedIdx, seen, info, ops, busy, device.devNext, device.taken, device.data,
            device.sectors)
    }

    ghost predicate Valid()
      reads this
    {
      Inv(St(), g)
    }

    /** alloc_desc: the lowest free descriptor, or -1 if there is none. */
    method AllocDesc() returns (r: int)
      requires Shape(St())
      modifies this`free
      ensures r == -1 <==> forall i: nat :: i < NUM ==> !old(free)[i]
      ensures r != -1 ==>
                0 <= r < NUM && old(free)[r] && (forall i: nat :: i < r ==> !old(free)[i])
                && free == old(free)[r := false]
      ensures r == -1 ==> free == old(free)
    {
      var i := 0;
      while i < NUM
        invariant 0 <= i <= NUM && free == old(free) && forall j: nat :: j < i ==> !free[j]
      {
        if free[i] {
          free := free[i := false];
          return i;
        }
        i := i + 1;
      }
      r := -1;
    }

    /** free_desc: false is a panic, on a bad index or a free descriptor. */
    method FreeDesc(i: nat) returns (ok: bool)
      requires Shape(St())
      modifies this`free, this`desc
      ensures ok <==> i < NUM && !old(free)[i]
      ensures ok ==> free == old(free)[i := true] && desc == old(desc)[i := EMPTY]
      ensures !ok ==> free == old(free) && desc == old(desc)
    {
      if i >= NUM || free[i] { return false; }
      desc := desc[i := EMPTY];
      free := free[i := true];
      ok := true;
    }

    /** alloc3_desc: three different free descriptors, or nothing changed because fewer
        than three are free. */
    method Alloc3Desc() returns (ok: bool, idx: seq<nat>)
      requires Shape(St()) && Blank(free, desc)
      modifies this`free, this`desc
      ensures ok <==> CountFree(old(free)) >= 3
      ensures desc == old(desc)
      ensures !ok ==> free == old(free)
      ensures ok ==> |idx| == 3 && TakenSome(old(free), free, idx)
    {
      hide CountFree, Blank, TakenSome;
      idx := [];
      ghost var f0 := free;
      NoneTaken(f0);
      while |idx| < 3
        invariant |idx| <= 3 && |free| == NUM && desc == old(desc)
        invariant TakenSome(f0, free, idx) && CountFree(free) + |idx| == CountFree(f0)
      {
        ghost var f1 := free;
        var r := AllocDesc();
        if r < 0 {
          NoneFree(free);
          FreeTaken(f0, idx);
          return false, idx;
        }
        OneMore(f0, f1, idx, r);
        idx := idx + [r];
      }
      ok := true;
    }

    /** The clean-up loop of alloc3_desc. */
    method FreeTaken(ghost f0: seq<bool>, idx: seq<nat>)
      requires Shape(St()) && TakenSome(f0, free, idx) && Blank(f0, desc)
      modifies this`free, this`desc
      ensures free == f0 && desc == old(desc)
    {
      hide TakenSome, Blank;
      var j := 0;
      ghost var f1 := free;
      GiveBackStart(f0, free, idx);
      while j < |idx|
        invariant 0 <= j <= |idx| && |free| == NUM && Shape(St()) && desc == old(desc) && GivenBack(f0, free, idx, j)
      {
        TakenAt(f0, f1, idx, j);
        GiveBackStep(f0, free, desc, idx, j);
        var done := FreeDesc(idx[j]);
        j := j + 1;
      }
    }

    /** free_chain over the three descriptors of a request. */
    method FreeChain(h: nat, ghost i1: nat, ghost i2: nat) returns (ok: bool)
      requires Shape(St()) && h < NUM && i1 < NUM && i2 < NUM && h != i1 && h != i2 && i1 != i2
      requires !free[h] && !free[i1] && !free[i2]
      requires desc[h].more && desc[h].next == i1 && desc[i1].more && desc[i1].next == i2 && !desc[i2].more
      modifies this`free, this`desc
      ensures ok && free == old(free)[h := true][i1 := true][i2 := true]
              && desc == old(desc)[h := EMPTY][i1 := EMPTY][i2 := EMPTY]
    {
      var i := h;
      ghost var n := 0;
      while true
        invariant 0 <= n <= 2 && Shape(St())
        invariant n == 0 ==> i == h && free == old(free) && desc == old(desc)
        invariant n == 1 ==> i == i1 && free == old(free)[h := true] && desc == old(desc)[h := EMPTY]
        invariant n == 2 ==>
                    i == i2 && free == old(free)[h := true][i1 := true] && desc == old(desc)[h := EMPTY][i1 := EMPTY]
        decreases 2 - n
      {
        var flag, nxt := desc[i].more, desc[i].next;
        var done := FreeDesc(i);
        if !done { return false; }
        if flag {
          i := nxt;
          n := n + 1;
        } else {
          break;
        }
      }
      ok := true;
    }

    /** Fill in the three descriptors, record the buffer, and publish the head. */
    method Format(i0: nat, i1: nat, i2: nat, b: nat, write: bool, sector: nat)
      requires Shape(St()) && i0 < NUM && i1 < NUM && i2 < NUM
      modifies this`ops, this`desc, this`info, this`busy, this`avail, this`availIdx
      ensures ops == old(ops)[i0 := Request(write, sector)]
      ensures desc == old(desc)[i0 := Desc(Cmd(i0), true, false, i1)][i1 := Desc(Data(b), true, !write,
                  i2)][i2 := Desc(Status(i0), false, true, 0)]
      ensures info == old(info)[i0 := Info(Some(b), 0xff)] && busy == old(busy) + {b}
      ensures avail == old(avail)[old(availIdx) % NUM := i0] && availIdx == (old(availIdx) + 1) % WRAP
    {
      ops := ops[i0 := Request(write, sector)];
      desc := desc[i0 := Desc(Cmd(i0), true, false, i1)];
      desc := desc[i1 := Desc(Data(b), true, !write, i2)];
      info := info[i0 := info[i0].(status := 0xff)];
      desc := desc[i2 := Desc(Status(i0), false, true, 0)];
      busy := busy + {b};
      info := info[i0 := info[i0].(b := Some(b))];
      avail := avail[availIdx % NUM := i0];
      availIdx := (availIdx + 1) % WRAP;
    }

    /** virtio_disk_rw up to the wait for b. The request goes to the sector where block
        blockno starts, exactly for the block numbers for which 32 bits hold that sector.
        false: fewer than three descriptors are free, nothing has changed, and the caller
        sleeps and tries again. */
    method RwStart(b: nat, blockno: nat, write: bool)
      returns (started: bool, ghost idx: seq<nat>, ghost sector: nat)
      requires Valid() && blockno < UINT && forall h :: h in g.fl ==> g.fl[h].b != b
      modifies this
      ensures Valid()
      ensures sector * SECTOR == blockno * BSIZE <==> blockno < UINT / 2
      ensures started <==> CountFree(old(free)) >= 3
      ensures !started ==> St() == old(St()) && g == old(g)
      ensures started ==> |idx| == 3 && CanStart(old(St()), old(g), idx[0], idx[1], idx[2], b)
      ensures started ==>
                St() == Start(old(St()), idx[0], idx[1], idx[2], b, write, sector)
                && g == Started(old(g), idx[0], idx[1], idx[2], b, write, sector)
    {
      hide Inv, CountFree, TakenSome, CanStart, Start, Blank;
      ghost var s := St();
      BlankOf(s, g);
      var at := blockno * (BSIZE / SECTOR) % UINT;  // in 32 bits
      sector := at;
      var ok, ix := Alloc3Desc();
      idx := ix;
      if !ok { return false, idx, sector; }
      StartFields(s, g, free, ix, b, write, at);
      StartInv(s, g, ix[0], ix[1], ix[2], b, write, at);
      Format(ix[0], ix[1], ix[2], b, write, at);
      g := Started(g, ix[0], ix[1], ix[2], b, write, at);
      started := true;
    }

    /** virtio_disk_rw after the wait for b: no panic in free_desc. */
    method RwFinish(h: nat) returns (ok: bool)
      requires Valid() && CanFinish(St(), g, h)
      modifies this
      ensures Valid() && ok
      ensures h < NUM && old(g).fl[h].i1 < NUM && old(g).fl[h].i2 < NUM
      ensures St() == Finish(old(St()), h, old(g).fl[h].i1, old(g).fl[h].i2) && g == Finished(old(g), h)
    {
      hide Inv;
      ghost var s, i1, i2 := St(), g.fl[h].i1, g.fl[h].i2;
      FinishInv(s, g, h);
      FinishFields(s, g, h);
      info := info[h := info[h].(b := None)];
      ok := FreeChain(h, i1, i2);
      g := Finished(g, h);
    }

    /** virtio_disk_intr: no panic and no null buffer; every request on the used ring is
        finished, and its buffer is no longer busy. */
    method Intr() returns (ok: bool)
      requires Valid()
      modifies this`busy, this`seen, this`g
      ensures Valid() && ok && seen == usedIdx
      ensures g.fl == old(g).fl && forall h :: h in g.fin <==> h in old(g).fin || h in Done(old(St()))
      ensures Unbusied(old(busy), busy, g.fl, Done(old(St())))
    {
      hide Inv, Done, Handle, Unbusied;
      ghost var s, g0 := St(), g;
      ValidShape(s, g);
      ghost var todo := Done(s);
      ghost var gone: seq<nat> := [];
      while seen != usedIdx
        invariant Valid() && Shape(St()) && St() == s.(busy := busy, seen := seen) && g == g0.(fin := g.fin)
        invariant todo == gone + Done(St())
        invariant forall h :: h in g.fin <==> h in g0.fin || h in gone
        decreases |Done(St())|
      {
        HandleInv(St(), g);
        HandleFields(St(), g);
        var id := used[seen % NUM];
        if id >= NUM || info[id].status != 0 || info[id].b.None? { return false; }
        busy := busy - {info[id].b.value};
        g := g.(fin := g.fin + {id});
        seen := (seen + 1) % WRAP;
        gone := gone + [id];
      }
      NoneLeft(St());
      IntrEnd(s, g0, St(), g);
      ok := true;
    }
  }

  // ---- The same on values --------------------------------------------------------------------------

  ghost predicate Blank(free: seq<bool>, desc: seq<Desc>) {
    |free| == NUM && |desc| == NUM && forall i: nat :: i < NUM && free[i] ==> desc[i] == EMPTY
  }

  /** idx are different free descriptors of f0, and f1 is f0 without them. */
  ghost predicate TakenSome(f0: seq<bool>, f1: seq<bool>, idx: seq<nat>) {
    && |f0| == NUM && |f1| == NUM
    && (forall n: nat :: n < |idx| ==> idx[n] < NUM && f0[idx[n]])
    && (forall m: nat, n: nat :: m < n < |idx| ==> idx[m] != idx[n])
    && (forall i: nat :: i < NUM ==> f1[i] == (f0[i] && i !in idx))
  }

  ghost predicate GivenBack(f0: seq<bool>, f: seq<bool>, idx: seq<nat>, j: nat)
    requires j <= |idx|
  {
    |f0| == NUM && |f| == NUM && forall i: nat :: i < NUM ==> f[i] == (f0[i] && i !in idx[j..])
  }

  lemma NoneTaken(f0: seq<bool>)
    requires |f0| == NUM
    ensures TakenSome(f0, f0, [])
  {
  }

  lemma {:induction false} NoneFree(free: seq<bool>)
    requires forall i: nat :: i < |free| ==> !free[i]
    ensures CountFree(free) == 0
    decreases |free|
  {
    if free != [] {
      NoneFree(free[..|free| - 1]);
    }
  }

  lemma {:induction false} OneMore(f0: seq<bool>, f1: seq<bool>, idx: seq<nat>, r: nat)
    requires TakenSome(f0, f1, idx) && r < NUM && f1[r]
    ensures TakenSome(f0, f1[r := false], idx + [r]) && CountFree(f1[r := false]) == CountFree(f1) - 1
  {
    hide CountFree;
    CountSet(f1, r, false);
  }

  lemma {:induction false} GiveBackStart(f0: seq<bool>, f: seq<bool>, idx: seq<nat>)
    requires TakenSome(f0, f, idx)
    ensures |f| == NUM && GivenBack(f0, f, idx, 0)
    ensures forall n: nat :: n < |idx| ==> idx[n] < NUM
  {
    assert idx[0..] == idx;
  }

  lemma {:induction false} GiveBackStep(f0: seq<bool>, f: seq<bool>, desc: seq<Desc>, idx: seq<nat>, j: nat)
    requires j < |idx| && GivenBack(f0, f, idx, j) && Blank(f0, desc) && idx[j] < NUM && f0[idx[j]]
             && idx[j] !in idx[j + 1..]
    ensures !f[idx[j]] && GivenBack(f0, f[idx[j] := true], idx, j + 1) && desc[idx[j] := EMPTY] == desc
  {
    assert idx[j..] == [idx[j]] + idx[j + 1..];
  }

  lemma {:induction false} TakenAt(f0: seq<bool>, f: seq<bool>, idx: seq<nat>, j: nat)
    requires TakenSome(f0, f, idx) && j < |idx|
    ensures idx[j] < NUM && f0[idx[j]] && idx[j] !in idx[j + 1..]
  {
  }

  lemma {:induction false} BlankOf(s: Disk, g: Ghost)
    requires Inv(s, g)
    ensures Shape(s) && Blank(s.free, s.desc)
  {
    hide Chains, Places, BusyOk, StatusOk, Items;
  }

  /** Three descriptors from alloc3_desc are what a request needs. */
  lemma {:induction false} StartFields(s: Disk, g: Ghost, f1: seq<bool>, idx: seq<nat>, b: nat, write: bool,
                                       sector: nat)
    requires Shape(s) && |idx| == 3 && TakenSome(s.free, f1, idx) && forall h :: h in g.fl ==> g.fl[h].b != b
    ensures CanStart(s, g, idx[0], idx[1], idx[2], b) && idx[0] < NUM && idx[1] < NUM && idx[2] < NUM
    ensures f1 == s.free[idx[0] := false][idx[1] := false][idx[2] := false]
    ensures Start(s, idx[0], idx[1], idx[2], b, write, sector) ==
            s.(free := f1,
               ops := s.ops[idx[0] := Request(write, sector)],
               desc := s.desc[idx[0] := Desc(Cmd(idx[0]), true, false, idx[1])][idx[1] := Desc(Data(b), true, !write,
                     idx[2])][idx[2] := Desc(Status(idx[0]), false, true, 0)],
               info := s.info[idx[0] := Info(Some(b), 0xff)],
               busy := s.busy + {b},
               avail := s.avail[s.availIdx % NUM := idx[0]],
               availIdx := (s.availIdx + 1) % WRAP)
  {
    assert idx == [idx[0], idx[1], idx[2]];
  }

  lemma {:induction false} FinishFields(s: Disk, g: Ghost, h: nat)
    requires Inv(s, g) && h in g.fl
    ensures Shape(s) && ChainOk(s, h, g.fl[h])
    ensures h < NUM && g.fl[h].i1 < NUM && g.fl[h].i2 < NUM
  {
    hide Places, BusyOk, StatusOk, Items, FreeOk;
  }

  lemma ValidShape(s: Disk, g: Ghost)
    requires Inv(s, g)
    ensures Shape(s)
  {
  }

  lemma {:induction false} HandleFields(s: Disk, g: Ghost)
    requires Shape(s) && s.seen != s.usedIdx && Handle(s).Some?
    ensures var id := s.used[s.seen % NUM];
            && id < NUM && s.info[id].status == 0 && s.info[id].b.Some?
            && Handle(s).value == s.(busy := s.busy - {s.info[id].b.value}, seen := (s.seen + 1) % WRAP)
    ensures Done(s) != [] && Done(s)[0] == s.used[s.seen % NUM] && Done(Handle(s).value) == Done(s)[1..]
  {
    hide Items;
    PopItems(s.used, s.seen, s.usedIdx);
  }

  lemma NoneLeft(s: Disk)
    requires Shape(s) && s.seen == s.usedIdx
    ensures Done(s) == []
  {
  }

  /** The buffers of the requests in d, and no others, have left busy. */
  ghost predicate Unbusied(busy0: set<nat>, busy1: set<nat>, fl: map<nat, Flight>, d: seq<nat>) {
    && (forall h :: h in d ==> h in fl && fl[h].b in busy0 && fl[h].b !in busy1)
    && (forall b :: b in busy1 ==> b in busy0)
    && (forall b :: b in busy0 && b !in busy1 ==> exists h :: h in d && h in fl && fl[h].b == b)
  }

  lemma {:induction false} IntrEnd(s: Disk, g: Ghost, t: Disk, u: Ghost)
    requires Inv(s, g) && Inv(t, u) && u.fl == g.fl && Shape(s)
    requires forall h :: h in u.fin <==> h in g.fin || h in Done(s)
    ensures Unbusied(s.busy, t.busy, u.fl, Done(s))
  {
    hide Chains, FreeOk, StatusOk, Items, Places;
    forall h | h in Done(s) ensures h in g.fl && g.fl[h].b in s.busy && g.fl[h].b !in t.busy {
      PlaceOf(Queue(s), s.taken, Done(s), g, h);
    }
    forall b | b in s.busy && b !in t.busy ensures exists h :: h in Done(s) && h in u.fl && u.fl[h].b == b {
      var h :| h in g.fl && g.fl[h].b == b;
    }
  }
}
