/** What the users of log and cache can always do, and that a commit comes to its end. */
module CacheLiveness {
  import opened LogSpec
  import opened BufferCache
  import opened CacheRuns
  import opened CacheInv
  import opened CacheWork
  import opened CacheTheorems
  import opened CacheProgress
  import LogRuns

  // ---- Users ---------------------------------------------------------------------------------

  /** begin_op waits exactly while 10 blocks for each open operation and for this one do not
      fit beside those logged; never if no operation is open. */
  lemma {:induction false} BeginWaitsIff(l: Layout, base: Image, states: seq<State>, events: seq<Event>, n: nat)
    requires IsRun(l, base, states, events) && n < |states| && states[n].mode.Running?
    ensures Enabled(l, states[n], BeginOp) <==> |states[n].lh| + 10 * |states[n].ops| <= 20
    ensures states[n].ops == map[] ==> Enabled(l, states[n], BeginOp)
  {
    hide IsRun;
    if states[n].ops == map[] {
      var _, _ := QuietMeansCommitted(l, base, states, events, n);
    }
  }

  /** A home block can be read exactly if it is cached or fewer than NBUF blocks are in use,
      also while a commit is under way. */
  lemma {:induction false} BreadIff(l: Layout, base: Image, states: seq<State>, events: seq<Event>, n: nat, b: nat)
    requires IsRun(l, base, states, events) && n < |states| && b < |base| && !InLog(l, b)
    requires states[n].mode.Running? || states[n].mode.Committing?
    ensures var c := states[n];
            (exists i :: Enabled(l, c, Bread(b, i))) <==> Cached(c.buf, b) || Busy(Refs(c)) < NBUF
  {
    hide IsRun, LatestAt, LogRuns.Inv, Dirty, Region, Buffers, Busy, Refs, Cached, CanTake;
    var logStates, logEvents := Refines(l, base, states, events, n);
    var c, view := states[n], LatestAt(l, base, states, events, n);
    HoldersAreCounted(l, base, states, events, n, b);
    BuffersParts(c, view);
    TakeIff(c, view, b);
    if i: nat :| CanTake(c.buf, i, b) {
      assert Enabled(l, c, Bread(b, i));
    }
    if i: nat :| Enabled(l, c, Bread(b, i)) {
      assert CanTake(c.buf, i, b);
    }
  }

  /** Who holds a block inside an operation can change it; then log it, exactly if the log
      has room and the operation has not used up its blocks; and then let go of it. */
  lemma {:induction false} HolderWrites(l: Layout, base: Image, states: seq<State>, events: seq<Event>, n: nat,
                                        op: OpId, b: nat, data: Block)
    returns (i: nat)
    requires IsRun(l, base, states, events) && n < |states|
    requires var c := states[n];
             && c.mode.Running? && op in c.ops && b < |c.holders| && c.holders[b] > 0 && !InLog(l, b) && b !in c.dirty
    ensures var c := states[n];
            && Enabled(l, c, Modify(op, b, i, data))
            && var d := Step(l, c, Modify(op, b, i, data));
               && i < |d.buf| && d.buf[i].blockno == b && d.buf[i].data == data
               && !Enabled(l, d, Brelse(b, i)) && !Enabled(l, d, EndOp(op))
               && (Enabled(l, d, LogWrite(op, b, i)) <==>
                     |c.lh| < LOGSIZE && |c.lh| < l.size - 1 && (b in c.lh || c.ops[op] < MAXOPBLOCKS))
               && (Enabled(l, d, LogWrite(op, b, i)) ==>
                     var e := Step(l, d, LogWrite(op, b, i));
                     b in e.lh && e.buf[i].data == data && Enabled(l, e, Brelse(b, i)))
  {
    hide IsRun, LatestAt, LogRuns.Inv, Dirty, Region, Buffers, CanTake;
    var logStates, logEvents := Refines(l, base, states, events, n);
    i := HeldIsCached(states[n], LatestAt(l, base, states, events, n), b);
  }

  // ---- Commits ---------------------------------------------------------------------------------

  /** Blocks in use by others than the steps of the log under way: held or pinned. */
  ghost function InUse(l: Layout, c: State): set<nat> {
    set b: nat | b < |c.holders| && (c.holders[b] > MineCount(l, c, b) || Pins(c, b) > 0)
  }

  /** How many steps a commit has left. */
  function StepsLeft(c: State): nat {
    if !c.mode.Committing? || c.mode.turn >= Total(c.lh, true) then 1
    else
      var done :=
        match c.mode.sub
        case TakeA => 0
        case TakeB => 1
        case Copy => 2
        case Unpin => 3
        case DropX => 4
        case DropY => 5;
      1 + 6 * (Total(c.lh, true) - c.mode.turn) - done
  }

  lemma {:induction false} NextIsCloser(l: Layout, c: State, t: State)
    requires Busily(c) && c.mode.Committing? && t.lh == c.lh && t.mode == NextMode(l, c)
    ensures t.mode.Committing? && StepsLeft(t) < StepsLeft(c)
  {
    hide TurnOf;
  }

  lemma {:induction false} PinsShrink(l: Layout, c: State, t: State, b: nat)
    requires Busily(c) && c.mode.Committing? && t.lh == c.lh && t.mode == NextMode(l, c)
    ensures Pins(t, b) <= Pins(c, b)
  {
    hide TurnOf;
    var x, y := Unpinned(c.lh, c.mode), Unpinned(c.lh, t.mode);
    assert x <= y;
    assert c.lh[y..] == c.lh[x..][y - x..];
  }

  lemma {:induction false} UseShrinks(l: Layout, base: Image, c: State, view: Image, a: LogRuns.State, i: nat, j: nat)
    requires Inv(l, base, c, view, a) && c.mode.Committing? && Busily(c) && Enabled(l, c, Work(i, j))
    ensures var t := Step(l, c, Work(i, j)); t.lh == c.lh && t.mode == NextMode(l, c) && InUse(l, t) <= InUse(l, c)
  {
    hide Inv, Enabled, Step, Pins, Mine, NextMode, CanWork;
    var t := Step(l, c, Work(i, j));
    WorkFields(l, c, i, j);
    SameList(l, c, i, j, t);
    SomeBlock(l, base, c, view, a);
    WorkHolds(l, base, c, view, a, i, j, 0);
    forall b | b in InUse(l, t) ensures b in InUse(l, c) {
      WorkHolds(l, base, c, view, a, i, j, b);
      PinsShrink(l, c, t, b);
    }
  }

  lemma SomeBlock(l: Layout, base: Image, c: State, view: Image, a: LogRuns.State)
    requires Inv(l, base, c, view, a)
    ensures |c.holders| > 0
  {
  }

  lemma {:induction false} SameList(l: Layout, c: State, i: nat, j: nat, t: State)
    requires Busily(c) && CanWork(l, c, Now(l, c), c.mode.sub, i, j)
    requires Now(l, c).HeadTurn? ==> |Now(l, c).list| <= LOGSIZE
    requires t == Worked(l, c, Now(l, c), c.mode.sub, i, j).(mode := NextMode(l, c))
    ensures t.lh == c.lh
  {
    hide TurnOf, NextMode, EncodeHeader, CanWork, BlockA, BlockB, BlockX, BlockY, IndexX, IndexY;
  }

  /** At the start of a turn what is in use is what is referred to. */
  lemma {:induction false} UseIsBusy(l: Layout, c: State)
    requires c.mode.Committing? && c.mode.sub.TakeA?
    ensures Busy(Refs(c)) == |InUse(l, c)|
  {
    hide Busy, Pins;
    BusyIsSize(Refs(c));
    assert BusyBlocks(Refs(c)) == InUse(l, c);
  }

  lemma {:induction false} RoomGoesOn(l: Layout, base: Image, c: State, view: Image, a: LogRuns.State)
    requires Inv(l, base, c, view, a) && c.mode.Committing? && |InUse(l, c)| < NBUF
    ensures exists i, j :: Enabled(l, c, Work(i, j))
  {
    hide Inv, Enabled, Busy, Refs, InUse, Cached;
    CommitGoesOn(l, base, c, view, a);
    if c.mode.sub.TakeA? {
      UseIsBusy(l, c);
    }
  }

  lemma {:induction false} OneMoreStep(l: Layout, base: Image, states: seq<State>, events: seq<Event>, e: Event)
    requires IsRun(l, base, states, events) && Enabled(l, states[|events|], e)
    ensures IsRun(l, base, states + [Step(l, states[|events|], e)], events + [e])
  {
    hide Enabled, Step, Init;
  }

  lemma NoOpsLeft(l: Layout, base: Image, c: State, view: Image, a: LogRuns.State)
    requires Inv(l, base, c, view, a) && c.mode.Committing?
    ensures c.ops == map[]
  {
  }

  /** A commit comes to its end: on every run, as long as other threads use fewer than NBUF
      blocks, its own steps lead to a state without a commit or an operation, in which
      nothing is logged. What is on disk then, QuietMeansCommitted says. */
  lemma {:induction false} CommitFinishes(l: Layout, base: Image, states: seq<State>, events: seq<Event>)
    returns (more: seq<State>, moreEvents: seq<Event>)
    requires IsRun(l, base, states, events) && |states| == |events| + 1
    requires states[|events|].mode.Committing? && |InUse(l, states[|events|])| < NBUF
    ensures IsRun(l, base, more, moreEvents) && |more| == |moreEvents| + 1 && states <= more && events <= moreEvents
    ensures forall k :: |events| <= k < |moreEvents| ==> moreEvents[k].Work?
    ensures var t := more[|moreEvents|]; t.mode.Running? && t.ops == map[] && t.lh == []
    decreases StepsLeft(states[|events|])
  {
    hide IsRun, Inv, Enabled, Step, InUse, LatestAt, StepsLeft, Total;
    var c, view := states[|events|], LatestAt(l, base, states, events, |events|);
    var logStates, logEvents := Refines(l, base, states, events, |events|);
    var a := logStates[|logEvents|];
    NoOpsLeft(l, base, c, view, a);
    RoomGoesOn(l, base, c, view, a);
    var i: nat, j: nat :| Enabled(l, c, Work(i, j));
    var t := Step(l, c, Work(i, j));
    OneMoreStep(l, base, states, events, Work(i, j));
    more, moreEvents := states + [t], events + [Work(i, j)];
    if !Busily(c) {
      FinishFields(l, c, i, j);
    } else {
      UseShrinks(l, base, c, view, a, i, j);
      NextIsCloser(l, c, t);
      SmallSubset(InUse(l, t), InUse(l, c));
      more, moreEvents := CommitFinishes(l, base, more, moreEvents);
    }
  }
}
