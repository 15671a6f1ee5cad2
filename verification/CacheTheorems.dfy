/** What holds of the log and the buffer cache together, on every run. */
module CacheTheorems {
  import opened LogSpec
  import opened BufferCache
  import opened CacheRuns
  import opened CacheInv
  import opened CacheWork
  import LogRuns

  lemma {:induction false} AtState(l: Layout, base: Image, states: seq<State>, events: seq<Event>, i: nat)
    requires IsRun(l, base, states, events) && i < |states|
    ensures var c, view := states[i], LatestAt(l, base, states, events, i);
            && Buffers(c, view) && Dirty(l, c) && LoggableBlocks(l, |c.disk|, c.lh)
  {
    hide IsRun, LatestAt, Buffers, Dirty;
    var logStates, logEvents := Refines(l, base, states, events, i);
  }

  /** In every reachable state a buffer is counted for the holders of its block and for the
      pin that log_write took, and shows the latest version of the block. */
  lemma {:induction false} CountsAddUp(l: Layout, base: Image, states: seq<State>, events: seq<Event>, i: nat, x: nat)
    requires IsRun(l, base, states, events) && i < |states| && x < NBUF
    ensures var c, view := states[i], LatestAt(l, base, states, events, i);
            && |c.buf| == NBUF
            && (c.buf[x].dev == ROOTDEV ==>
                  var b := c.buf[x].blockno;
                    b < |view| == |c.holders| && c.buf[x] == Buf(true, ROOTDEV, b, c.holders[b] + Pins(c, b), view[b]))
  {
    hide IsRun, LatestAt, Buffers, Pins;
    AtState(l, base, states, events, i);
    var c, view := states[i], LatestAt(l, base, states, events, i);
    BuffersParts(c, view);
    if c.buf[x].dev == ROOTDEV {
      BufferHolds(c, view, x, c.buf[x].blockno);
    }
  }

  /** Every block of the transaction that is not yet installed and unpinned has exactly one
      buffer, and that buffer is pinned, so bget cannot recycle it. */
  lemma {:induction false} LoggedIsPinned(l: Layout, base: Image, states: seq<State>, events: seq<Event>, i: nat,
                                          k: nat) returns (x: nat)
    requires IsRun(l, base, states, events) && i < |states|
             && Unpinned(states[i].lh, states[i].mode) <= k < |states[i].lh|
    ensures var c := states[i]; var b := c.lh[k];
            && 0 <= b < |c.holders| && IsFor(c.buf, x, b) && c.buf[x].refcnt == c.holders[b] + 1
            && forall y: nat :: IsFor(c.buf, y, b) ==> y == x
  {
    hide IsRun, LatestAt;
    AtState(l, base, states, events, i);
    var c, view := states[i], LatestAt(l, base, states, events, i);
    var b := c.lh[k];
    assert Pinned(c)[k - Unpinned(c.lh, c.mode)] == b;
    assert Refs(c)[b] == c.holders[b] + 1;
    x :| 0 <= x < |c.buf| && c.buf[x].dev == ROOTDEV && c.buf[x].blockno == b;
    BufferHolds(c, view, x, b);
  }

  /** In every reachable state a buffer that nobody refers to is as the disk: the release that
      left it so, and any recycling to come, lose nothing. */
  lemma {:induction false} UnreferencedIsClean(l: Layout, base: Image, states: seq<State>, events: seq<Event>, i: nat,
                                               x: nat)
    requires IsRun(l, base, states, events) && i < |states| && x < |states[i].buf|
    requires states[i].buf[x].dev == ROOTDEV && states[i].buf[x].refcnt == 0
    ensures var c := states[i]; c.buf[x].blockno < |c.disk| && c.buf[x].data == c.disk[c.buf[x].blockno]
  {
    hide IsRun, LatestAt, Coherent;
    AtState(l, base, states, events, i);
    BufferHolds(states[i], LatestAt(l, base, states, events, i), x, states[i].buf[x].blockno);
  }

  /** A buffer that stops caching a block, other than in a crash, was unreferenced, and the
      disk has what it held. */
  lemma {:induction false} EvictedIsClean(l: Layout, base: Image, states: seq<State>, events: seq<Event>, i: nat,
                                          x: nat)
    requires IsRun(l, base, states, events) && i < |events| && !events[i].Crash? && x < |states[i].buf|
    requires states[i].buf[x].dev == ROOTDEV && !IsFor(states[i + 1].buf, x, states[i].buf[x].blockno)
    ensures var c := states[i];
            c.buf[x].refcnt == 0 && c.buf[x].blockno < |c.disk| && c.buf[x].data == c.disk[c.buf[x].blockno]
  {
    hide IsRun, LatestAt;
    RunStep(l, base, states, events, i);
    OnlyFreeOnesGo(l, states[i], events[i], x);
    UnreferencedIsClean(l, base, states, events, i, x);
  }

  /** Whatever step gives up a reference, be it brelse, bunpin or the log's own, exposes
      nothing: the buffer is still for its block and still referred to, or the disk has the
      latest version. */
  lemma {:induction false} ReleasesAreSafe(l: Layout, base: Image, states: seq<State>, events: seq<Event>, i: nat,
                                           x: nat)
    requires IsRun(l, base, states, events) && i < |events| && !events[i].Crash? && x < NBUF
    requires |states[i].buf| == |states[i + 1].buf| == NBUF
    requires states[i].buf[x].dev == ROOTDEV && states[i + 1].buf[x].refcnt < states[i].buf[x].refcnt
    ensures var c, d, view := states[i], states[i + 1], LatestAt(l, base, states, events, i + 1);
            var b := c.buf[x].blockno;
            && IsFor(d.buf, x, b) && b < |view| == |d.disk| && d.buf[x].data == view[b]
            && (d.buf[x].refcnt == 0 ==> view[b] == d.disk[b])
  {
    hide IsRun, LatestAt;
    RunStep(l, base, states, events, i);
    if !IsFor(states[i + 1].buf, x, states[i].buf[x].blockno) {
      OnlyFreeOnesGo(l, states[i], events[i], x);
      assert false;
    }
    CountsAddUp(l, base, states, events, i + 1, x);
    AtState(l, base, states, events, i + 1);
    if states[i + 1].buf[x].refcnt == 0 {
      UnreferencedIsClean(l, base, states, events, i + 1, x);
    }
  }

  lemma RunStep(l: Layout, base: Image, states: seq<State>, events: seq<Event>, i: nat)
    requires IsRun(l, base, states, events) && i < |events|
    ensures |states| == |events| + 1
    ensures Enabled(l, states[i], events[i]) && states[i + 1] == Step(l, states[i], events[i])
  {
  }

  lemma {:induction false} OnlyFreeOnesGo(l: Layout, c: State, e: Event, x: nat)
    requires Enabled(l, c, e) && !e.Crash? && x < |c.buf| && c.buf[x].dev == ROOTDEV
    requires !IsFor(Step(l, c, e).buf, x, c.buf[x].blockno)
    ensures c.buf[x].refcnt == 0
  {
    hide Taken, Dropped, Stored, Logged, CanTake, Enabled, TurnOf, CanWork;
    match e
    case Bread(b, i) => BreadFields(l, c, b, i); TakenGoes(c, i, b, x);
    case Work(i, j) => WorkGoes(l, c, i, j, x);
    case _ => OthersStay(l, c, e, x);
  }

  lemma BreadFields(l: Layout, c: State, b: nat, i: nat)
    requires Enabled(l, c, Bread(b, i))
    ensures CanTake(c.buf, i, b) && b < |c.disk| == |c.holders|
  {
  }

  lemma {:induction false} TakenGoes(c: State, i: nat, b: nat, x: nat)
    requires CanTake(c.buf, i, b) && b < |c.disk| == |c.holders| && x < |c.buf|
    ensures i < |c.buf| && |Taken(c, i, b).buf| == |c.buf|
    ensures c.buf[x].dev == ROOTDEV && !IsFor(Taken(c, i, b).buf, x, c.buf[x].blockno) ==> c.buf[x].refcnt == 0
  {
    hide Cached;
  }

  /** Buffer x is for the same block in both. */
  predicate SameBlock(c: State, t: State, x: nat) {
    x < |c.buf| == |t.buf| && t.buf[x].dev == c.buf[x].dev && t.buf[x].blockno == c.buf[x].blockno
  }

  lemma {:induction false} OthersStay(l: Layout, c: State, e: Event, x: nat)
    requires Enabled(l, c, e) && !e.Crash? && !e.Bread? && !e.Work? && x < |c.buf|
    ensures SameBlock(c, Step(l, c, e), x)
  {
    hide Cached, LogRuns.TooBig, Mine;
  }

  lemma {:induction false} WorkGoes(l: Layout, c: State, i: nat, j: nat, x: nat)
    requires Enabled(l, c, Work(i, j)) && x < |c.buf| && c.buf[x].dev == ROOTDEV
    requires !IsFor(Step(l, c, Work(i, j)).buf, x, c.buf[x].blockno)
    ensures c.buf[x].refcnt == 0
  {
    hide Taken, Dropped, Stored, CanTake, Enabled, Step, TurnOf;
    WorkModes(l, c, i, j);
    if c.mode.ReadingHead? {
      ReadHeadFields(l, c, i, j);
      TakenGoes(c, i, l.start, x);
      DroppedStays(Taken(c, i, l.start), i, l.start, x);
    } else if !Busily(c) {
      FinishFields(l, c, i, j);
    } else {
      WorkFields(l, c, i, j);
      WorkedGoes(l, c, Now(l, c), c.mode.sub, i, j, x);
    }
  }

  lemma DroppedStays(c: State, i: nat, b: nat, x: nat)
    requires i < |c.buf| && b < |c.holders| && x < |c.buf|
    ensures SameBlock(c, Dropped(c, i, b), x)
  {
  }

  lemma {:induction false} WorkedGoes(l: Layout, c: State, t: Turn, sub: Sub, i: nat, j: nat, x: nat)
    requires CanWork(l, c, t, sub, i, j) && (t.HeadTurn? ==> |t.list| <= LOGSIZE) && x < |c.buf|
             && c.buf[x].dev == ROOTDEV
    requires !IsFor(Worked(l, c, t, sub, i, j).buf, x, c.buf[x].blockno)
    ensures c.buf[x].refcnt == 0
  {
    hide Taken, CanTake;
    match sub
    case TakeA => TakenGoes(c, i, BlockA(l, t), x);
    case TakeB => TakenGoes(c, j, BlockB(l, t), x);
    case _ =>
  }

  /** bread returns the latest version of the block. */
  lemma {:induction false} BreadIsLatest(l: Layout, base: Image, states: seq<State>, events: seq<Event>, i: nat)
    requires IsRun(l, base, states, events) && i < |events| && events[i].Bread?
    ensures |states| == |events| + 1
    ensures var e, c, view := events[i], states[i + 1], LatestAt(l, base, states, events, i);
            && IsFor(c.buf, e.i, e.b) && e.b < |view| && c.buf[e.i].data == view[e.b]
            && LatestAt(l, base, states, events, i + 1) == view
  {
    hide IsRun, Buffers, Dirty;
    RunStep(l, base, states, events, i);
    AtState(l, base, states, events, i);
    BuffersParts(states[i], LatestAt(l, base, states, events, i));
    TakenBuffers(l, states[i], LatestAt(l, base, states, events, i), events[i].i, events[i].b);
  }

  /** Until the header is written the home blocks on disk are those of the last commit; and
      the latest versions, but for blocks changed and not yet logged, are every log_write so far. */
  lemma {:induction false} NoSteal(l: Layout, base: Image, states: seq<State>, events: seq<Event>, i: nat)
    returns (logStates: seq<LogRuns.State>, logEvents: seq<LogRuns.Event>)
    requires IsRun(l, base, states, events) && i < |states|
    requires var m := states[i].mode; m.Running? || (m.Committing? && m.turn + Past(m.sub) <= |states[i].lh|)
    ensures logEvents == LogRun(l, base, states, events, i)
    ensures LogRuns.IsRun(l, base, logStates, logEvents) && |logStates| == |logEvents| + 1
    ensures var c, a, view := states[i], logStates[|logEvents|], LatestAt(l, base, states, events, i);
            && a.durable <= |a.hist| && SameHome(l, c.disk, LogRuns.Replay(base, a.hist[..a.durable]))
            && |view| == |base|
            && forall b: nat :: b < |base| && !InLog(l, b) && b !in c.dirty ==>
                view[b] == LogRuns.Replay(base, a.hist)[b]
  {
    hide IsRun, LatestAt, LogRun, Buffers, Dirty, Region, LogRuns.IsRun, Apply, LogRuns.Replay, LogRuns.OpInv,
      LogRuns.SpaceInv;
    logStates, logEvents := Refines(l, base, states, events, i);
    var c, a := states[i], logStates[|logEvents|];
    if c.mode.Committing? {
      BeforeHeader(l, base, a);
    }
  }

  lemma {:induction false} BeforeHeader(l: Layout, base: Image, a: LogRuns.State)
    requires LogRuns.Inv(l, base, a) && a.mode.Committing? && a.mode.pos <= |a.lh|
    ensures a.durable <= |a.hist| && SameHome(l, a.disk, LogRuns.Replay(base, a.hist[..a.durable]))
    ensures SameHome(l, a.view, LogRuns.Replay(base, a.hist))
  {
    hide LogRuns.Replay, LogRuns.OpInv, LogRuns.SpaceInv, Apply;
    if a.lh != [] {
      CommitPhases(l, a.lh, a.view, a.mode.origin, a.mode.pos);
      AfterLogWrites(l, a.lh, a.view, a.mode.origin, a.mode.pos);
    } else {
      NoWrites(a.mode.origin);
    }
  }

  lemma NoWrites(d: Image)
    ensures Apply(d, []) == d
  {
  }

  /** commit drops exactly the pins that log_write took: afterwards nothing is logged, and
      every buffer is counted for its holders alone. */
  lemma {:induction false} CommitDropsThePins(l: Layout, base: Image, states: seq<State>, events: seq<Event>, i: nat,
                                              x: nat)
    requires IsRun(l, base, states, events) && i < |events| && x < NBUF
    requires states[i].mode.Committing? && states[i + 1].mode.Running?
    ensures var c := states[i + 1];
            && c.lh == [] && |c.buf| == NBUF
            && (c.buf[x].dev == ROOTDEV ==>
                    c.buf[x].blockno < |c.holders| && c.buf[x].refcnt == c.holders[c.buf[x].blockno])
  {
    hide IsRun, LatestAt;
    RunStep(l, base, states, events, i);
    CommitEnds(l, states[i], events[i]);
    CountsAddUp(l, base, states, events, i + 1, x);
  }

  lemma {:induction false} CommitEnds(l: Layout, c: State, e: Event)
    requires Enabled(l, c, e) && c.mode.Committing? && Step(l, c, e).mode.Running?
    ensures Step(l, c, e).lh == []
  {
    if e.Work? && Busily(c) {
      WorkFields(l, c, e.i, e.j);
    }
  }

  /** Without an operation, a commit or a recovery under way, every log_write of the run has
      been committed, the disk has it in its home block, and nothing is logged or dirty. */
  lemma {:induction false} QuietMeansCommitted(l: Layout, base: Image, states: seq<State>, events: seq<Event>, i: nat)
    returns (logStates: seq<LogRuns.State>, logEvents: seq<LogRuns.Event>)
    requires IsRun(l, base, states, events) && i < |states| && states[i].mode.Running? && states[i].ops == map[]
    ensures logEvents == LogRun(l, base, states, events, i)
    ensures LogRuns.IsRun(l, base, logStates, logEvents) && |logStates| == |logEvents| + 1
    ensures var c, hist := states[i], LogRuns.Writes(logStates, logEvents, |logEvents|);
            && logStates[|logEvents|].durable == |hist| && SameHome(l, c.disk, LogRuns.Replay(base, hist))
            && c.lh == [] && c.dirty == map[]
  {
    hide IsRun, LatestAt, LogRun, Buffers, Region, LogRuns.IsRun, Apply, LogRuns.Replay, LogRuns.OpInv, LogRuns.Writes,
      LogRuns.SpaceInv, LogRuns.DiskInv;
    logStates, logEvents := Refines(l, base, states, events, i);
    LogRuns.HistIsTheWrites(l, base, logStates, logEvents, |logEvents|);
    LogRuns.QuietMeansCommitted(l, base, logStates, logEvents, |logEvents|);
    assert forall b :: b !in states[i].dirty;
  }

  // ---- Who holds what --------------------------------------------------------------------------

  /** How often a block has been read and not released by the clients since the last crash. */
  function Held(events: seq<Event>, b: nat): int {
    if events == [] then 0
    else
      var n := |events| - 1;
      match events[n]
      case Bread(x, _) => Held(events[..n], b) + if x == b then 1 else 0
      case Brelse(x, _) => Held(events[..n], b) - if x == b then 1 else 0
      case Crash => 0
      case _ => Held(events[..n], b)
  }

  function MineCount(l: Layout, c: State, b: nat): nat {
    if b in Mine(l, c) then 1 else 0
  }

  lemma {:induction false} WorkHolds(l: Layout, base: Image, c: State, view: Image, a: LogRuns.State, i: nat, j: nat,
                                     b: nat)
    requires Inv(l, base, c, view, a) && Enabled(l, c, Work(i, j)) && b < |c.holders|
    ensures var t := Step(l, c, Work(i, j));
            |t.holders| == |c.holders| && t.holders[b] - MineCount(l, t, b) == c.holders[b] - MineCount(l, c, b)
  {
    hide LogRuns.Inv, Buffers, Dirty, Sim, TurnOf, Pinned, Enabled, Step, Region, Mine;
    WorkModes(l, c, i, j);
    if c.mode.ReadingHead? {
      ReadHeadFields(l, c, i, j);
      NothingMine(l, c, Step(l, c, Work(i, j)));
    } else if !Busily(c) {
      FinishFields(l, c, i, j);
      FinishedMine(l, base, c, view, a, Step(l, c, Work(i, j)));
    } else {
      TurnBlocks(l, base, c, view, a);
      WorkFields(l, c, i, j);
      WorkedHolds(l, c, i, j, Step(l, c, Work(i, j)), b);
    }
  }

  lemma NothingMine(l: Layout, c: State, t: State)
    requires c.mode.ReadingHead? && t.mode == Recovering(0, TakeA)
    ensures Mine(l, c) == {} && Mine(l, t) == {}
  {
  }

  lemma {:induction false} FinishedMine(l: Layout, base: Image, c: State, view: Image, a: LogRuns.State, t: State)
    requires Inv(l, base, c, view, a) && !Busily(c) && (c.mode.Committing? || c.mode.Recovering?) && t.mode.Running?
    ensures Mine(l, c) == {} && Mine(l, t) == {}
  {
    hide LogRuns.Inv, Buffers, Dirty, Region;
  }

  /** A step of a turn takes what it adds to its blocks, and drops what it takes off them. */
  lemma {:induction false} WorkedHolds(l: Layout, c: State, i: nat, j: nat, t: State, b: nat)
    requires Busily(c) && b < |c.holders| && Region(l, c)
    requires CanWork(l, c, Now(l, c), c.mode.sub, i, j)
    requires Now(l, c).HeadTurn? ==> |Now(l, c).list| <= LOGSIZE
    requires !Now(l, c).HeadTurn? ==> BlockA(l, Now(l, c)) != BlockB(l, Now(l, c))
    requires SubOk(Now(l, c), c.mode.sub, c.mode.Committing?)
    requires t == Worked(l, c, Now(l, c), c.mode.sub, i, j).(mode := NextMode(l, c))
    ensures |t.holders| == |c.holders| && t.holders[b] - MineCount(l, t, b) == c.holders[b] - MineCount(l, c, b)
  {
    hide CanTake, EncodeHeader, Mine, Region, TurnOf, NextMode, BlockA, BlockB, BlockX, BlockY, IndexX, IndexY;
    MineMoves(l, c);
    SameMine(l, t, c.(mode := NextMode(l, c)));
    MineHeld(l, c);
  }

  lemma MineHeld(l: Layout, c: State)
    requires Region(l, c)
    ensures forall x :: x in Mine(l, c) ==> x < |c.holders| && c.holders[x] > 0
  {
  }

  /** holders counts the threads between bread and brelse: the clients' and the log's own. */
  lemma {:induction false} HoldersAreCounted(l: Layout, base: Image, states: seq<State>, events: seq<Event>, i: nat,
                                             b: nat)
    requires IsRun(l, base, states, events) && i < |states| && b < |base|
    ensures |states[i].holders| == |base| && states[i].holders[b] == Held(events[..i], b) + MineCount(l, states[i], b)
  {
    hide IsRun, LatestAt, Inv, Enabled, Step, Mine;
    RunSize(l, base, states, events);
    if i == 0 {
      StartHolds(l, base, states, events, b);
    } else {
      HoldersAreCounted(l, base, states, events, i - 1, b);
      RunStep(l, base, states, events, i - 1);
      assert events[..i][..i - 1] == events[..i - 1];
      var logStates, logEvents := Refines(l, base, states, events, i - 1);
      HoldersStep(l, base, states[i - 1], LatestAt(l, base, states, events, i - 1), logStates[|logEvents|],
                  events[i - 1], b);
    }
  }

  lemma RunSize(l: Layout, base: Image, states: seq<State>, events: seq<Event>)
    requires IsRun(l, base, states, events)
    ensures |states| == |events| + 1
  {
  }

  lemma StartHolds(l: Layout, base: Image, states: seq<State>, events: seq<Event>, b: nat)
    requires IsRun(l, base, states, events) && b < |base|
    ensures |states[0].holders| == |base| && states[0].holders[b] == 0 && Mine(l, states[0]) == {}
  {
  }

  lemma {:induction false} HoldersStep(l: Layout, base: Image, c: State, view: Image, a: LogRuns.State, e: Event,
                                       b: nat)
    requires Inv(l, base, c, view, a) && Enabled(l, c, e) && b < |c.holders|
    ensures var t := Step(l, c, e);
            && |t.holders| == |c.holders|
            && t.holders[b] - MineCount(l, t, b)
               == match e
                  case Bread(x, _) => c.holders[b] - MineCount(l, c, b) + if x == b then 1 else 0
                  case Brelse(x, _) => c.holders[b] - MineCount(l, c, b) - if x == b then 1 else 0
                  case Crash => 0
                  case _ => c.holders[b] - MineCount(l, c, b)
  {
    hide Inv, Mine, CanTake, CanLog;
    if e.Work? {
      WorkHolds(l, base, c, view, a, e.i, e.j, b);
    } else {
      DiskIsHeld(l, base, c, view, a);
      EventMine(l, base, c, view, a, e);
    }
  }

  lemma DiskIsHeld(l: Layout, base: Image, c: State, view: Image, a: LogRuns.State)
    requires Inv(l, base, c, view, a)
    ensures |c.disk| == |c.holders|
  {
  }

  /** Outside its own steps the log's blocks stay the same, or are none. */
  lemma {:induction false} EventMine(l: Layout, base: Image, c: State, view: Image, a: LogRuns.State, e: Event)
    requires Inv(l, base, c, view, a) && Enabled(l, c, e) && !e.Work?
    ensures e.Crash? ==> Mine(l, Step(l, c, e)) == {}
    ensures !e.Crash? ==> Mine(l, Step(l, c, e)) == Mine(l, c)
  {
    hide LogRuns.Inv, Buffers, Dirty, Region, CanTake;
  }

  /** Crash atomicity of the log over the cache: at every moment of every run the disk recovers
      to exactly the committed log_writes, with all of an operation's or none. */
  lemma {:induction false} CrashAtomicity(l: Layout, base: Image, states: seq<State>, events: seq<Event>, i: nat)
    returns (logStates: seq<LogRuns.State>, logEvents: seq<LogRuns.Event>)
    requires IsRun(l, base, states, events) && i < |states|
    ensures logEvents == LogRun(l, base, states, events, i)
    ensures LogRuns.IsRun(l, base, logStates, logEvents) && |logStates| == |logEvents| + 1
    ensures var a := logStates[|logEvents|];
            && a.durable <= |a.hist| && RecoversTo(l, states[i].disk, LogRuns.Replay(base, a.hist[..a.durable]))
              && LogRuns.AllOrNothing(a)
  {
    hide IsRun, LatestAt, LogRun, Buffers, Dirty, Region, LogRuns.IsRun, LogRuns.Inv, RecoversTo, LogRuns.Replay;
    logStates, logEvents := Refines(l, base, states, events, i);
    LogRuns.CrashAtomicity(l, base, logStates, logEvents, |logEvents|);
  }
}
