/** When commit and recovery find the buffers that they need. */
module CacheProgress {
  import opened LogSpec
  import opened BufferCache
  import opened CacheRuns
  import opened CacheInv
  import opened CacheWork
  import LogRuns

  // ---- Finding a buffer ----------------------------------------------------------------------

  /** bget returns a buffer for b exactly if one caches it or fewer than NBUF blocks are in
      use. */
  lemma {:induction false} TakeIff(c: State, view: Image, b: nat)
    requires Buffers(c, view)
    ensures (exists i :: CanTake(c.buf, i, b)) <==> Cached(c.buf, b) || Busy(Refs(c)) < NBUF
  {
    hide Busy, Refs, Coherent;
    FreeIffNotAllBusy(c.buf, StoreOf(c, view));
    CoherentLength(c.buf, StoreOf(c, view));
    if Cached(c.buf, b) {
      var i: nat :| i < |c.buf| && c.buf[i].dev == ROOTDEV && c.buf[i].blockno == b;
      assert CanTake(c.buf, i, b);
    } else if HasFree(c.buf) {
      var i: nat :| i < NBUF && c.buf[i].refcnt == 0;
      assert CanTake(c.buf, i, b);
    }
  }

  /** A block that someone holds, or that is pinned, has its buffer. */
  lemma {:induction false} HeldIsCached(c: State, view: Image, b: nat) returns (i: nat)
    requires Buffers(c, view) && b < |c.holders| && (c.holders[b] > 0 || b in Pinned(c))
    ensures IsFor(c.buf, i, b)
  {
    hide Pinned;
    assert Refs(c)[b] > 0;
    i :| i < |c.buf| && c.buf[i].dev == ROOTDEV && c.buf[i].blockno == b;
  }

  lemma {:induction false} MineIsHeld(l: Layout, c: State, b: nat)
    requires Region(l, c) && b in Mine(l, c)
    ensures b < |c.holders| && c.holders[b] > 0
  {
    hide Mine;
  }

  /** In a commit the home block of a turn is pinned until it is unpinned there. */
  lemma {:induction false} HomeIsPinned(l: Layout, c: State)
    requires Busily(c) && c.mode.Committing? && c.mode.sub.TakeB? && !Now(l, c).HeadTurn?
    requires forall i :: 0 <= i < |c.lh| ==> c.lh[i] >= 0
    ensures BlockB(l, Now(l, c)) in Pinned(c)
  {
    var k := if c.mode.turn < |c.lh| then c.mode.turn else c.mode.turn - |c.lh| - 1;
    assert Pinned(c)[k - Unpinned(c.lh, c.mode)] == c.lh[k];
  }

  // ---- The next step of a turn -----------------------------------------------------------------

  /** A step of a turn that takes no new buffer finds those that it works on. */
  lemma {:induction false} HeldWork(l: Layout, base: Image, c: State, view: Image, a: LogRuns.State)
    returns (i: nat, j: nat)
    requires Inv(l, base, c, view, a) && Busily(c) && !c.mode.sub.TakeA? && !c.mode.sub.TakeB?
    ensures CanWork(l, c, Now(l, c), c.mode.sub, i, j)
  {
    hide LogRuns.Inv, Buffers, Dirty, Sim, Region, TurnOf, LoggableBlocks;
    TurnBlocks(l, base, c, view, a);
    BuffersParts(c, view);
    ShortList(l, c);
    var t := Now(l, c);
    match c.mode.sub {
      case DropY =>
        i := TurnBuffer(l, c, view, BlockY(l, t));
        j := i;
      case _ =>
        i := TurnBuffer(l, c, view, BlockA(l, t));
        j := TurnBuffer(l, c, view, BlockB(l, t));
    }
  }

  lemma {:induction false} TurnBuffer(l: Layout, c: State, view: Image, b: nat) returns (i: nat)
    requires Buffers(c, view) && Region(l, c) && b in Mine(l, c)
    ensures IsFor(c.buf, i, b)
  {
    hide Buffers, Region, Mine;
    MineIsHeld(l, c, b);
    i := HeldIsCached(c, view, b);
  }

  lemma ShortList(l: Layout, c: State)
    requires LoggableBlocks(l, |c.disk|, c.lh)
    ensures |c.lh| <= LOGSIZE && forall i :: 0 <= i < |c.lh| ==> 0 <= c.lh[i] < |c.disk|
  {
  }

  lemma {:induction false} TakeWork(l: Layout, base: Image, c: State, view: Image, a: LogRuns.State)
    requires Inv(l, base, c, view, a) && Busily(c) && (c.mode.sub.TakeA? || c.mode.sub.TakeB?)
    ensures var b := if c.mode.sub.TakeA? then BlockA(l, Now(l, c)) else BlockB(l, Now(l, c));
            (exists i, j :: CanWork(l, c, Now(l, c), c.mode.sub, i, j)) <==>
              Cached(c.buf, b) || Busy(Refs(c)) < NBUF
  {
    hide LogRuns.Inv, Buffers, Dirty, Sim, Region, TurnOf, LoggableBlocks, CanTake, Busy, Refs, Cached;
    TurnBlocks(l, base, c, view, a);
    BuffersParts(c, view);
    ShortList(l, c);
    var t, sub := Now(l, c), c.mode.sub;
    var b := if sub.TakeA? then BlockA(l, t) else BlockB(l, t);
    TakeIff(c, view, b);
    if x: nat :| CanTake(c.buf, x, b) {
      assert CanWork(l, c, t, sub, x, x);
    }
    if i: nat, j: nat :| CanWork(l, c, t, sub, i, j) {
      assert CanTake(c.buf, if sub.TakeA? then i else j, b);
    }
  }

  /** The one thing that can hold a commit up: the next block of the log region is not
      cached, and every buffer is in use. */
  ghost predicate OutOfBuffers(l: Layout, c: State) {
    && c.mode.Committing? && Busily(c) && c.mode.sub.TakeA?
    && !Cached(c.buf, BlockA(l, Now(l, c))) && Busy(Refs(c)) >= NBUF
  }

  lemma {:induction false} CommitGoesOn(l: Layout, base: Image, c: State, view: Image, a: LogRuns.State)
    requires Inv(l, base, c, view, a) && c.mode.Committing?
    ensures (exists i, j :: Enabled(l, c, Work(i, j))) <==> !OutOfBuffers(l, c)
  {
    hide LogRuns.Inv, Buffers, Dirty, Sim, Region, TurnOf, LoggableBlocks, CanWork, Busy, Refs, Cached;
    if !Busily(c) {
      assert Enabled(l, c, Work(0, 0));
    } else if !c.mode.sub.TakeA? && !c.mode.sub.TakeB? {
      var i, j := HeldWork(l, base, c, view, a);
      assert Enabled(l, c, Work(i, j));
    } else {
      TakeWork(l, base, c, view, a);
      if c.mode.sub.TakeB? {
        PinnedHome(l, base, c, view, a);
      }
      if i: nat, j: nat :| CanWork(l, c, Now(l, c), c.mode.sub, i, j) {
        assert Enabled(l, c, Work(i, j));
      }
    }
  }

  lemma {:induction false} PinnedHome(l: Layout, base: Image, c: State, view: Image, a: LogRuns.State)
    requires Inv(l, base, c, view, a) && Busily(c) && c.mode.Committing? && c.mode.sub.TakeB?
    ensures Cached(c.buf, BlockB(l, Now(l, c)))
  {
    hide LogRuns.Inv, Buffers, Dirty, Region, TurnOf, LoggableBlocks, Pinned;
    TurnBlocks(l, base, c, view, a);
    BuffersParts(c, view);
    ShortList(l, c);
    HomeIsPinned(l, c);
    var i := HeldIsCached(c, view, BlockB(l, Now(l, c)));
  }

  // ---- Recovery has the cache to itself ----------------------------------------------------------

  lemma {:induction false} AloneInUse(l: Layout, c: State)
    requires Region(l, c) && (c.mode.Recovering? || c.mode.ReadingHead?) && (c.mode.ReadingHead? ==> c.lh == [])
    ensures BusyBlocks(Refs(c)) <= Mine(l, c)
  {
    hide Mine;
    assert Pinned(c) == [];
  }

  lemma {:induction false} FewInUse(l: Layout, c: State)
    requires Region(l, c) && (c.mode.Recovering? || c.mode.ReadingHead?) && (c.mode.ReadingHead? ==> c.lh == [])
    ensures Busy(Refs(c)) < NBUF
  {
    hide Region, Refs, Busy, TurnOf;
    AloneInUse(l, c);
    BusyIsSize(Refs(c));
    SmallSubset(BusyBlocks(Refs(c)), Mine(l, c));
    assert |Mine(l, c)| <= 2;
  }

  lemma {:induction false} SmallSubset(x: set<nat>, y: set<nat>)
    requires x <= y
    ensures |x| <= |y|
  {
    if x != {} {
      var e :| e in x;
      SmallSubset(x - {e}, y - {e});
    }
  }

  lemma {:induction false} RecoveryGoesOn(l: Layout, base: Image, c: State, view: Image, a: LogRuns.State)
    requires Inv(l, base, c, view, a) && (c.mode.Recovering? || c.mode.ReadingHead?)
    ensures exists i, j :: Enabled(l, c, Work(i, j))
  {
    hide LogRuns.Inv, Buffers, Dirty, Region, TurnOf, LoggableBlocks, CanWork, Busy, Refs, Cached, CanTake;
    FewInUse(l, c);
    if c.mode.ReadingHead? {
      BuffersParts(c, view);
      TakeIff(c, view, l.start);
      var i: nat :| CanTake(c.buf, i, l.start);
      assert Enabled(l, c, Work(i, i));
    } else if !Busily(c) {
      assert Enabled(l, c, Work(0, 0));
    } else if !c.mode.sub.TakeA? && !c.mode.sub.TakeB? {
      var i, j := HeldWork(l, base, c, view, a);
      assert Enabled(l, c, Work(i, j));
    } else {
      TakeWork(l, base, c, view, a);
      var i: nat, j: nat :| CanWork(l, c, Now(l, c), c.mode.sub, i, j);
      assert Enabled(l, c, Work(i, j));
    }
  }

  // ---- Every run -----------------------------------------------------------------------------------

  /** On every run a commit under way can go on exactly if it is not out of buffers, and a
      recovery always can. Nothing but the log's blocks can be what a commit waits for: the
      home blocks are pinned. */
  lemma {:induction false} WorkGoesOn(l: Layout, base: Image, states: seq<State>, events: seq<Event>, i: nat)
    requires IsRun(l, base, states, events) && i < |states| && !states[i].mode.Running?
    ensures (exists x, y :: Enabled(l, states[i], Work(x, y))) <==> !OutOfBuffers(l, states[i])
  {
    hide IsRun, LatestAt, Inv, Enabled, OutOfBuffers;
    var logStates, logEvents := Refines(l, base, states, events, i);
    var c, view, a := states[i], LatestAt(l, base, states, events, i), logStates[|logEvents|];
    if c.mode.Committing? {
      CommitGoesOn(l, base, c, view, a);
    } else {
      RecoveryGoesOn(l, base, c, view, a);
      NotCommitting(l, c);
    }
  }

  lemma NotCommitting(l: Layout, c: State)
    requires !c.mode.Committing?
    ensures !OutOfBuffers(l, c)
  {
  }
}
