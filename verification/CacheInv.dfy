/** Every run of the log over the cache keeps the buffers in step with one latest version
    of each block, and is a run of LogRuns. */
module CacheInv {
  import opened LogSpec
  import opened BufferCache
  import opened CacheRuns
  import LogRuns

  // ---- The invariant ---------------------------------------------------------------------

  function Pins(c: State, b: int): nat {
    if b in Pinned(c) then 1 else 0
  }

  /** The reference count that each block should have: its holders and its pin. */
  ghost function Refs(c: State): seq<nat> {
    seq(|c.holders|, (b: nat) requires b < |c.holders| => c.holders[b] + Pins(c, b))
  }

  ghost function StoreOf(c: State, view: Image): Store {
    Store(c.disk, view, Refs(c), [])
  }

  /** view is the latest version of every block: buffers show it, with the reference counts
      that holders and pins make up; where it differs from the disk, its block is pinned or
      is held by the operation that changed it. */
  ghost predicate Buffers(c: State, view: Image) {
    && |c.disk| == |view| == |c.holders|
    && Coherent(c.buf, StoreOf(c, view))
    && forall b: nat :: b < |view| && view[b] != c.disk[b] ==> b in c.dirty || b in Pinned(c)
  }

  ghost predicate Dirty(l: Layout, c: State) {
    && (forall b :: b in c.dirty ==> b < |c.holders| && c.holders[b] > 0 && !InLog(l, b) && c.dirty[b] in c.ops)
    && (!c.mode.Running? ==> c.ops == map[])
  }

  /** Nobody but the log holds blocks of the log region, and each at most once. */
  ghost predicate Region(l: Layout, c: State) {
    Claims(l, c.holders, Mine(l, c), c.mode.Recovering? || c.mode.ReadingHead?)
  }

  ghost predicate Claims(l: Layout, holders: seq<nat>, mine: set<nat>, alone: bool) {
    && (forall b: nat :: b < |holders| && (InLog(l, b) || alone) ==> holders[b] == if b in mine then 1 else 0)
    && (forall b :: b in mine ==> b < |holders| && holders[b] > 0)
  }

  function Past(sub: Sub): nat {
    if sub.Unpin? || sub.DropX? || sub.DropY? then 1 else 0
  }

  /** c is at the place of log.c that a is at. */
  ghost predicate Sim(l: Layout, c: State, view: Image, a: LogRuns.State) {
    && c.disk == a.disk && c.ops == a.ops && c.next == a.next && |a.view| == |c.disk| == |view|
    && (c.mode.Running? || c.mode.Committing? ==>
          && c.lh == a.lh
          && forall b: nat :: b < |view| && !InLog(l, b) && b !in c.dirty ==> view[b] == a.view[b])
    && match c.mode
       case Running => a.mode.Running?
       case Committing(turn, sub) =>
         && a.mode.Committing? && a.mode.pos == turn + Past(sub)
         && turn <= Total(c.lh, true) && (turn == Total(c.lh, true) ==> sub.TakeA?)
         && SubOk(TurnOf(l, c.lh, turn, true), sub, true)
       case ReadingHead => a.mode.Recovering? && a.mode.pos == 0 && a.mode.origin == c.disk && c.lh == []
       case Recovering(turn, sub) =>
         && a.mode.Recovering? && a.mode.pos == turn + Past(sub)
         && WellFormed(l, a.mode.origin) && c.lh == HeaderBlocks(a.mode.origin[l.start])
         && turn <= Total(c.lh, false) && (turn == Total(c.lh, false) ==> sub.TakeA?)
         && SubOk(TurnOf(l, c.lh, turn, false), sub, false)
  }

  ghost predicate Inv(l: Layout, base: Image, c: State, view: Image, a: LogRuns.State) {
    && LogRuns.Inv(l, base, a)
    && Buffers(c, view) && Dirty(l, c) && Region(l, c) && Sim(l, c, view, a)
    && FitsDisk(l, c.disk) && LoggableBlocks(l, |c.disk|, c.lh)
  }

  /** Blocks that differ from the disk are in use. */
  lemma {:induction false} IsSettled(l: Layout, c: State, view: Image)
    requires Buffers(c, view) && Dirty(l, c)
    ensures SameSizes(StoreOf(c, view)) && Settled(StoreOf(c, view))
  {
  }

  // ---- One buffer changes -----------------------------------------------------------------

  /** bread: nothing that the disk does not have is lost, and the buffer shows the latest. */
  lemma {:induction false} TakenBuffers(l: Layout, c: State, view: Image, i: nat, b: nat)
    requires Buffers(c, view) && Dirty(l, c) && b < |c.disk| && CanTake(c.buf, i, b)
    ensures i < |c.buf| && Buffers(Taken(c, i, b), view)
    ensures IsFor(Taken(c, i, b).buf, i, b) && Taken(c, i, b).buf[i].data == view[b]
    ensures !IsFor(c.buf, i, b) && c.buf[i].dev == ROOTDEV ==>
              c.buf[i].blockno < |c.disk| && c.buf[i].data == c.disk[c.buf[i].blockno]
  {
    hide Coherent, Dirty, Recycled;
    var st := StoreOf(c, view);
    IsSettled(l, c, view);
    CoherentLength(c.buf, st);
    OneBuffer(c.buf, st, i);
    BufferOf(c, view, i, b);
    BreadKeeps(c.buf, st, i, b);
    var t := Taken(c, i, b);
    assert StoreOf(t, view).refs == AddRefs(st, b, 1).refs;
  }

  lemma CoherentLength(buf: seq<Buf>, st: Store)
    requires Coherent(buf, st)
    ensures |buf| == NBUF
  {
  }

  /** A buffer for b means b is cached, and it is the only one. */
  lemma {:induction false} BufferOf(c: State, view: Image, i: nat, b: nat)
    requires Buffers(c, view) && CanTake(c.buf, i, b)
    ensures i < NBUF == |c.buf|
    ensures Cached(c.buf, b) <==> IsFor(c.buf, i, b)
    ensures !Cached(c.buf, b) ==> c.buf[i].refcnt == 0
  {
  }

  /** One buffer's count and contents, and its block's disk copy, change together. */
  lemma {:induction false} ChangedBuffers(c: State, view: Image, i: nat, b: nat, r: nat, data: Block, home: Block,
                                          t: State)
    requires Buffers(c, view) && IsFor(c.buf, i, b)
    requires t.buf == c.buf[i := c.buf[i].(refcnt := r, data := data)] && b < |c.disk| == |t.holders|
    requires t.disk == c.disk[b := home] && Refs(t) == Refs(c)[b := r]
    requires forall x: nat :: x < |view| && view[b := data][x] != t.disk[x] ==> x in t.dirty || x in Pinned(t)
    ensures Buffers(t, view[b := data])
  {
    hide Coherent, Pinned;
    CoherentLength(c.buf, StoreOf(c, view));
    ChangeKeepsCoherent(c.buf, StoreOf(c, view), i, r, data, home);
  }

  /** What the buffer for b holds, and how often it is counted. */
  lemma {:induction false} BufferHolds(c: State, view: Image, i: nat, b: nat)
    requires Buffers(c, view) && IsFor(c.buf, i, b)
    ensures i < NBUF == |c.buf| && b < |view| && c.buf[i] == Buf(true, ROOTDEV, b, c.holders[b] + Pins(c, b), view[b])
  {
    OneBuffer(c.buf, StoreOf(c, view), i);
  }

  lemma {:induction false} DroppedBuffers(c: State, view: Image, i: nat, b: nat)
    requires Buffers(c, view) && IsFor(c.buf, i, b) && b < |c.holders| && c.holders[b] > 0
    ensures i < |c.buf| && Buffers(Dropped(c, i, b), view)
  {
    hide Coherent, Buffers;
    BufferHolds(c, view, i, b);
    var t := Dropped(c, i, b);
    BuffersParts(c, view);
    assert view[b := view[b]] == view && c.disk[b := c.disk[b]] == c.disk;
    assert Refs(t) == Refs(c)[b := Refs(c)[b] - 1];
    ChangedBuffers(c, view, i, b, Refs(c)[b] - 1, view[b], c.disk[b], t);
  }

  lemma BuffersParts(c: State, view: Image)
    requires Buffers(c, view)
    ensures |c.disk| == |view| == |c.holders| && |c.buf| == NBUF
    ensures forall b: nat :: b < |view| && view[b] != c.disk[b] ==> b in c.dirty || b in Pinned(c)
  {
  }

  lemma {:induction false} ModifiedBuffers(c: State, view: Image, op: OpId, b: nat, i: nat, data: Block)
    requires Buffers(c, view) && IsFor(c.buf, i, b)
    ensures b < |view| && i < |c.buf|
    ensures Buffers(c.(buf := c.buf[i := c.buf[i].(data := data)], dirty := c.dirty[b := op]), view[b := data])
  {
    hide Coherent, Buffers;
    BufferHolds(c, view, i, b);
    BuffersParts(c, view);
    var t := c.(buf := c.buf[i := c.buf[i].(data := data)], dirty := c.dirty[b := op]);
    assert c.disk[b := c.disk[b]] == c.disk;
    assert Refs(t) == Refs(c)[b := Refs(c)[b]];
    ChangedBuffers(c, view, i, b, Refs(c)[b], data, c.disk[b], t);
  }

  /** A logged block gets a pin with its place in the list. */
  lemma {:induction false} PinnedBuffers(c: State, view: Image, b: nat, i: nat, t: State)
    requires Buffers(c, view) && IsFor(c.buf, i, b) && b !in Pinned(c) && Pinned(t) == Pinned(c) + [b]
    requires t.buf == c.buf[i := c.buf[i].(refcnt := c.buf[i].refcnt + 1)] && t.disk == c.disk && t.holders == c.holders
    requires t.dirty == c.dirty - {b}
    ensures Buffers(t, view)
  {
    hide Coherent, Buffers, Pinned;
    BufferHolds(c, view, i, b);
    BuffersParts(c, view);
    assert view[b := view[b]] == view && c.disk[b := c.disk[b]] == c.disk;
    assert forall x: nat :: x < |c.holders| ==> Pins(t, x) == if x == b then 1 else Pins(c, x);
    assert Refs(t) == Refs(c)[b := Refs(c)[b] + 1];
    ChangedBuffers(c, view, i, b, Refs(c)[b] + 1, view[b], c.disk[b], t);
  }

  lemma {:induction false} AbsorbedBuffers(c: State, view: Image, b: nat)
    requires Buffers(c, view) && b in Pinned(c)
    ensures Buffers(c.(dirty := c.dirty - {b}), view)
  {
    hide Coherent;
    assert Refs(c.(dirty := c.dirty - {b})) == Refs(c);
  }

  lemma {:induction false} LoggedBuffers(l: Layout, c: State, view: Image, op: OpId, b: nat, i: nat)
    requires Buffers(c, view) && CanLog(l, c, op, b, i)
    ensures Buffers(Logged(c, op, b, i), view)
  {
    hide Buffers, Pinned, LogRuns.TooBig, InLog;
    var t := Logged(c, op, b, i);
    RunningPins(c);
    RunningPins(t);
    if b in c.lh {
      AbsorbedBuffers(c, view, b);
    } else {
      PinnedBuffers(c, view, b, i, t);
    }
  }

  lemma RunningPins(c: State)
    requires c.mode.Running?
    ensures Pinned(c) == c.lh
  {
  }

  lemma {:induction false} StoredBuffers(c: State, view: Image, i: nat, b: nat, data: Block)
    requires Buffers(c, view) && IsFor(c.buf, i, b)
    ensures b < |view| && i < |c.buf| && Buffers(Stored(c, i, b, data), view[b := data])
  {
    hide Coherent, Buffers;
    BufferHolds(c, view, i, b);
    BuffersParts(c, view);
    var t := Stored(c, i, b, data);
    assert Refs(t) == Refs(c)[b := Refs(c)[b]];
    ChangedBuffers(c, view, i, b, Refs(c)[b], data, data, t);
  }

  /** bunpin of the first pinned block, once the disk has it. */
  lemma {:induction false} UnpinnedBuffers(c: State, view: Image, j: nat, b: nat, m: Mode)
    requires Buffers(c, view) && IsFor(c.buf, j, b) && b < |view| && view[b] == c.disk[b]
    requires Pinned(c) != [] && Pinned(c)[0] == b && b !in Pinned(c)[1..] && Pinned(c.(mode := m)) == Pinned(c)[1..]
    ensures j < |c.buf|
    ensures Buffers(c.(buf := c.buf[j := c.buf[j].(refcnt := Dec(c.buf[j].refcnt))], mode := m), view)
  {
    hide Coherent, Buffers, Unpinned;
    BufferHolds(c, view, j, b);
    BuffersParts(c, view);
    var t := c.(buf := c.buf[j := c.buf[j].(refcnt := Dec(c.buf[j].refcnt))], mode := m);
    assert view[b := view[b]] == view && c.disk[b := c.disk[b]] == c.disk;
    var p := Pinned(c);
    assert p == [p[0]] + p[1..];
    assert forall x: nat :: x < |c.holders| ==> Pins(t, x) == if x == b then 0 else Pins(c, x);
    assert Refs(t) == Refs(c)[b := Refs(c)[b] - 1];
    ChangedBuffers(c, view, j, b, Refs(c)[b] - 1, view[b], c.disk[b], t);
  }

  /** A step that moves only the mode, or clears what is no longer pinned. */
  lemma {:induction false} MovedBuffers(c: State, view: Image, t: State)
    requires Buffers(c, view) && t.buf == c.buf && t.disk == c.disk && t.holders == c.holders
    requires Pinned(t) == Pinned(c) && t.dirty == c.dirty
    ensures Buffers(t, view)
  {
    hide Coherent;
    assert Refs(t) == Refs(c);
  }

  // ---- What clients do --------------------------------------------------------------------

  lemma {:induction false} LogStep(l: Layout, base: Image, a: LogRuns.State, e: LogRuns.Event)
    requires LogRuns.Inv(l, base, a) && LogRuns.Enabled(l, a, e)
    ensures LogRuns.Inv(l, base, LogRuns.Step(l, a, e))
  {
    LogRuns.StepKeepsDisk(l, base, a, e);
    LogRuns.StepKeepsOps(l, a, e);
    LogRuns.StepKeepsSpace(l, a, e);
  }

  /** Outside the log's own steps nothing of the log's is touched. */
  lemma {:induction false} OtherRegion(l: Layout, c: State, t: State, b: nat, n: nat)
    requires Region(l, c) && t.lh == c.lh && t.mode == c.mode && !InLog(l, b) && b < |c.holders|
    requires !c.mode.Recovering? && !c.mode.ReadingHead?
    requires t.holders == c.holders[b := n] && (b in Mine(l, c) ==> n > 0)
    ensures Region(l, t)
  {
    assert Mine(l, t) == Mine(l, c);
  }

  lemma {:induction false} IdleRegion(l: Layout, c: State, t: State)
    requires Region(l, c) && c.mode.Running? && (t.mode.Running? || t.mode == Committing(0, TakeA))
             && t.holders == c.holders
    ensures Region(l, t)
  {
  }

  lemma {:induction false} BreadInv(l: Layout, base: Image, c: State, view: Image, a: LogRuns.State, e: Event)
    requires Inv(l, base, c, view, a) && e.Bread? && Enabled(l, c, e)
    ensures Inv(l, base, Step(l, c, e), view, a)
  {
    hide LogRuns.Inv, Buffers, Region, FitsDisk, LoggableBlocks, Mine;
    TakenBuffers(l, c, view, e.i, e.b);
    var t := Step(l, c, e);
    OtherRegion(l, c, t, e.b, c.holders[e.b] + 1);
  }

  lemma {:induction false} BrelseInv(l: Layout, base: Image, c: State, view: Image, a: LogRuns.State, e: Event)
    requires Inv(l, base, c, view, a) && e.Brelse? && Enabled(l, c, e)
    ensures Inv(l, base, Step(l, c, e), view, a)
  {
    hide LogRuns.Inv, Buffers, FitsDisk, LoggableBlocks, Mine;
    DroppedBuffers(c, view, e.i, e.b);
    var t := Step(l, c, e);
    OtherRegion(l, c, t, e.b, c.holders[e.b] - 1);
  }

  lemma {:induction false} ModifyInv(l: Layout, base: Image, c: State, view: Image, a: LogRuns.State, e: Event)
    requires Inv(l, base, c, view, a) && e.Modify? && Enabled(l, c, e)
    ensures e.b < |view| && Inv(l, base, Step(l, c, e), view[e.b := e.data], a)
  {
    hide LogRuns.Inv, Buffers, Region, FitsDisk, LoggableBlocks;
    ModifiedBuffers(c, view, e.op, e.b, e.i, e.data);
    IdleRegion(l, c, Step(l, c, e));
  }

  /** log_write logs what the buffer holds, and that is the latest version of the block. */
  lemma {:induction false} LogWriteInv(l: Layout, base: Image, c: State, view: Image, a: LogRuns.State, e: Event)
    requires Inv(l, base, c, view, a) && e.LogWrite? && Enabled(l, c, e)
    ensures e.b < |view| && c.buf[e.i].data == view[e.b]
    ensures var ev := LogRuns.LogWrite(e.op, e.b, c.buf[e.i].data);
            LogRuns.Enabled(l, a, ev) && Inv(l, base, Step(l, c, e), view, LogRuns.Step(l, a, ev))
  {
    hide LogRuns.Inv, Buffers, Region, FitsDisk, LoggableBlocks;
    IdleRegion(l, c, Step(l, c, e));
    LoggedBuffers(l, c, view, e.op, e.b, e.i);
    BufferHolds(c, view, e.i, e.b);
    var ev := LogRuns.LogWrite(e.op, e.b, c.buf[e.i].data);
    LogStep(l, base, a, ev);
    LogRunsParts(l, base, LogRuns.Step(l, a, ev));
  }

  lemma LogRunsParts(l: Layout, base: Image, a: LogRuns.State)
    requires LogRuns.Inv(l, base, a)
    ensures |a.disk| == |base| && LoggableBlocks(l, |a.disk|, a.lh) && a.durable <= |a.hist|
  {
  }

  lemma {:induction false} BeginInv(l: Layout, base: Image, c: State, view: Image, a: LogRuns.State)
    requires Inv(l, base, c, view, a) && Enabled(l, c, BeginOp)
    ensures LogRuns.Enabled(l, a, LogRuns.BeginOp)
            && Inv(l, base, Step(l, c, BeginOp), view, LogRuns.Step(l, a, LogRuns.BeginOp))
  {
    hide LogRuns.Inv, Buffers, Region, FitsDisk, LoggableBlocks;
    IdleRegion(l, c, Step(l, c, BeginOp));
    LogStep(l, base, a, LogRuns.BeginOp);
    MovedBuffers(c, view, Step(l, c, BeginOp));
  }

  lemma {:induction false} EndInv(l: Layout, base: Image, c: State, view: Image, a: LogRuns.State, e: Event)
    requires Inv(l, base, c, view, a) && e.EndOp? && Enabled(l, c, e)
    ensures var ev := LogRuns.EndOp(e.op);
            LogRuns.Enabled(l, a, ev) && Inv(l, base, Step(l, c, e), view, LogRuns.Step(l, a, ev))
  {
    hide LogRuns.Inv, Buffers, Region, FitsDisk, LoggableBlocks, Sim, Dirty;
    var t := Step(l, c, e);
    IdleRegion(l, c, t);
    EndDirty(l, c, e);
    EndSim(l, c, view, a, e);
    LogStep(l, base, a, LogRuns.EndOp(e.op));
    MovedBuffers(c, view, t);
  }

  /** The last operation to end leaves nothing changed and unlogged. */
  lemma {:induction false} EndDirty(l: Layout, c: State, e: Event)
    requires Dirty(l, c) && e.EndOp? && Enabled(l, c, e)
    ensures Dirty(l, Step(l, c, e)) && (Step(l, c, e).mode.Committing? ==> c.dirty == map[])
    ensures Pinned(Step(l, c, e)) == Pinned(c)
  {
    var t := Step(l, c, e);
    assert forall b :: b in c.dirty ==> c.dirty[b] in t.ops;
    if |t.ops| == 0 {
      assert t.ops == map[];
    }
  }

  lemma {:induction false} EndSim(l: Layout, c: State, view: Image, a: LogRuns.State, e: Event)
    requires Sim(l, c, view, a) && e.EndOp? && Enabled(l, c, e)
    ensures LogRuns.Enabled(l, a, LogRuns.EndOp(e.op))
            && Sim(l, Step(l, c, e), view, LogRuns.Step(l, a, LogRuns.EndOp(e.op)))
    ensures LogRuns.Step(l, a, LogRuns.EndOp(e.op)).disk == a.disk
  {
    hide TurnOf;
  }
}
