/** Commit and recovery over the cache, step by step: each block they write is the one that
    LogRuns says, taken from the buffers as they are. */
module CacheWork {
  import opened LogSpec
  import opened BufferCache
  import opened CacheRuns
  import opened CacheInv
  import LogRuns

  // ---- Where a turn is --------------------------------------------------------------------

  /** The thread at work, in a commit or in a recovery, has a turn to make. */
  ghost predicate Busily(c: State) {
    (c.mode.Committing? || c.mode.Recovering?) && c.mode.turn < Total(c.lh, c.mode.Committing?)
  }

  function Now(l: Layout, c: State): Turn
    requires c.mode.Committing? || c.mode.Recovering?
  {
    TurnOf(l, c.lh, c.mode.turn, c.mode.Committing?)
  }

  function NextMode(l: Layout, c: State): Mode
    requires c.mode.Committing? || c.mode.Recovering?
  {
    var sub := NextSub(Now(l, c), c.mode.sub, c.mode.Committing?);
    var turn := if c.mode.sub.DropY? then c.mode.turn + 1 else c.mode.turn;
    if c.mode.Committing? then Committing(turn, sub) else Recovering(turn, sub)
  }

  /** Blocks A and B of a turn: A in the log region, B a home block, if there is one. */
  lemma {:induction false} TurnBlocks(l: Layout, base: Image, c: State, view: Image, a: LogRuns.State)
    requires Inv(l, base, c, view, a) && Busily(c)
    ensures var t := Now(l, c);
            && InLog(l, BlockA(l, t)) && BlockA(l, t) < |c.disk| && BlockB(l, t) < |c.disk|
            && (!t.HeadTurn? ==> !InLog(l, BlockB(l, t)) && BlockA(l, t) != BlockB(l, t))
            && (t.HeadTurn? ==> |t.list| <= LOGSIZE) && SubOk(t, c.mode.sub, c.mode.Committing?)
  {
    hide LogRuns.Inv, Buffers, Region, Dirty;
  }

  lemma {:induction false} PinsMove(l: Layout, c: State)
    requires Busily(c) && SubOk(Now(l, c), c.mode.sub, c.mode.Committing?)
    ensures !c.mode.sub.Unpin? ==> Pinned(c.(mode := NextMode(l, c))) == Pinned(c)
    ensures c.mode.sub.Unpin? ==>
              && Pinned(c) != [] && Pinned(c.(mode := NextMode(l, c))) == Pinned(c)[1..]
              && var k := c.mode.turn - |c.lh| - 1;
                0 <= k < |c.lh| && Pinned(c) == c.lh[k..] && Now(l, c).home == Home(c.lh, k)
  {
  }

  // ---- Who holds what ---------------------------------------------------------------------

  lemma {:induction false} Claimed(l: Layout, holders: seq<nat>, mine: set<nat>, alone: bool, b: nat)
    requires Claims(l, holders, mine, alone) && b < |holders| && b !in mine
    ensures Claims(l, holders[b := holders[b] + 1], mine + {b}, alone)
  {
  }

  lemma {:induction false} Released(l: Layout, holders: seq<nat>, mine: set<nat>, alone: bool, b: nat)
    requires Claims(l, holders, mine, alone) && b in mine
    ensures b < |holders| && holders[b] > 0 && Claims(l, holders[b := holders[b] - 1], mine - {b}, alone)
  {
  }

  /** What the thread at work holds after its step. */
  lemma {:induction false} MineMoves(l: Layout, c: State)
    requires Busily(c) && SubOk(Now(l, c), c.mode.sub, c.mode.Committing?)
    requires !Now(l, c).HeadTurn? ==> BlockA(l, Now(l, c)) != BlockB(l, Now(l, c))
    ensures var t, mine, next := Now(l, c), Mine(l, c), Mine(l, c.(mode := NextMode(l, c)));
            match c.mode.sub
            case TakeA => BlockA(l, t) !in mine && next == mine + {BlockA(l, t)}
            case TakeB => BlockB(l, t) !in mine && next == mine + {BlockB(l, t)}
            case Copy => next == mine && BlockA(l, t) in mine && BlockB(l, t) in mine
            case Unpin => next == mine && BlockB(l, t) in mine
            case DropX => BlockX(l, t) in mine && next == mine - {BlockX(l, t)}
            case DropY => BlockY(l, t) in mine && next == mine - {BlockY(l, t)}
  {
    hide TurnOf;
  }

  lemma {:induction false} WorkFields(l: Layout, c: State, i: nat, j: nat)
    requires Busily(c) && Enabled(l, c, Work(i, j))
    ensures var t, sub := Now(l, c), c.mode.sub;
            && CanWork(l, c, t, sub, i, j) && (t.HeadTurn? ==> |t.list| <= LOGSIZE)
            && Step(l, c, Work(i, j)) == Worked(l, c, t, sub, i, j).(mode := NextMode(l, c))
  {
    hide TurnOf, Worked;
    HeadFits(l, c.lh, c.mode.turn, c.mode.Committing?);
  }

  lemma {:induction false} WorkRegion(l: Layout, base: Image, c: State, view: Image, a: LogRuns.State, i: nat, j: nat)
    requires Inv(l, base, c, view, a) && Busily(c) && Enabled(l, c, Work(i, j))
    ensures Region(l, Step(l, c, Work(i, j)))
  {
    hide LogRuns.Inv, Buffers, Dirty, Sim, TurnOf, Pinned, Claims, Mine, Enabled, Step;
    TurnBlocks(l, base, c, view, a);
    WorkFields(l, c, i, j);
    MineMoves(l, c);
    var s := Step(l, c, Work(i, j));
    var t, mine, alone := Now(l, c), Mine(l, c), c.mode.Recovering?;
    SameMine(l, s, c.(mode := NextMode(l, c)));
    match c.mode.sub
    case TakeA => Claimed(l, c.holders, mine, alone, BlockA(l, t));
    case TakeB => Claimed(l, c.holders, mine, alone, BlockB(l, t));
    case DropX => Released(l, c.holders, mine, alone, BlockX(l, t));
    case DropY => Released(l, c.holders, mine, alone, BlockY(l, t));
    case _ =>
  }

  lemma SameMine(l: Layout, c: State, d: State)
    requires c.lh == d.lh && c.mode == d.mode
    ensures Mine(l, c) == Mine(l, d) && Pinned(c) == Pinned(d)
  {
  }

  // ---- The steps that write nothing ---------------------------------------------------------

  lemma {:induction false} SimMoves(l: Layout, c: State, view: Image, a: LogRuns.State, t: State)
    requires Sim(l, c, view, a) && Busily(c) && !c.mode.sub.Copy?
    requires t.disk == c.disk && t.lh == c.lh && t.ops == c.ops && t.next == c.next && t.dirty == c.dirty
             && t.mode == NextMode(l, c)
    ensures Sim(l, t, view, a)
  {
  }

  /** Once install_trans has written a home block, the disk has its latest version. */
  lemma {:induction false} InstalledIsLatest(l: Layout, base: Image, c: State, view: Image, a: LogRuns.State, k: nat)
    requires Inv(l, base, c, view, a) && c.mode.Committing? && |c.lh| + 2 + k <= a.mode.pos <= 2 * |c.lh| + 1
             && k < |c.lh|
    ensures 0 <= c.lh[k] < |view| && view[c.lh[k]] == c.disk[c.lh[k]] == a.view[c.lh[k]]
  {
    hide Buffers, Region, Apply, CommitWrites, LogRuns.OpInv, LogRuns.SpaceInv, LogRuns.Replay;
    AfterHeader(l, c.lh, a.view, a.mode.origin, a.mode.pos - |c.lh| - 1);
    NotDirty(l, c);
  }

  lemma NotDirty(l: Layout, c: State)
    requires Dirty(l, c) && !c.mode.Running?
    ensures c.dirty == map[]
  {
    if b :| b in c.dirty {
      assert false;
    }
  }

  lemma {:induction false} WorkBuffers(l: Layout, base: Image, c: State, view: Image, a: LogRuns.State, i: nat, j: nat)
    requires Inv(l, base, c, view, a) && Busily(c) && Enabled(l, c, Work(i, j)) && !c.mode.sub.Copy?
    ensures Buffers(Step(l, c, Work(i, j)), view)
  {
    hide LogRuns.Inv, Buffers, Dirty, Sim, TurnOf, Pinned, Mine, Enabled, Step;
    TurnBlocks(l, base, c, view, a);
    WorkFields(l, c, i, j);
    MineMoves(l, c);
    BuffersParts(c, view);
    PinsMove(l, c);
    var s, t, w := Step(l, c, Work(i, j)), Now(l, c), Worked(l, c, Now(l, c), c.mode.sub, i, j);
    SameMine(l, s, c.(mode := NextMode(l, c)));
    SameMine(l, w, c);
    match c.mode.sub
    case TakeA => TakenBuffers(l, c, view, i, BlockA(l, t)); MovedBuffers(w, view, s);
    case TakeB => TakenBuffers(l, c, view, j, BlockB(l, t)); MovedBuffers(w, view, s);
    case DropX => DroppedBuffers(c, view, IndexX(t, i, j), BlockX(l, t)); MovedBuffers(w, view, s);
    case DropY => DroppedBuffers(c, view, IndexY(t, i, j), BlockY(l, t)); MovedBuffers(w, view, s);
    case Unpin => UnpinWork(l, base, c, view, a, j);
  }

  lemma {:induction false} UnpinWork(l: Layout, base: Image, c: State, view: Image, a: LogRuns.State, j: nat)
    requires Inv(l, base, c, view, a) && Busily(c) && c.mode.sub.Unpin? && IsFor(c.buf, j, BlockB(l, Now(l, c)))
    ensures j < |c.buf|
            && Buffers(c.(buf := c.buf[j := c.buf[j].(refcnt := Dec(c.buf[j].refcnt))], mode := NextMode(l, c)), view)
  {
    hide LogRuns.Inv, Buffers, Dirty, Pinned, Mine, Region;
    PinsMove(l, c);
    var k := c.mode.turn - |c.lh| - 1;
    InstalledIsLatest(l, base, c, view, a, k);
    assert Pinned(c)[0] == c.lh[k];
    assert forall m :: 0 <= m < |Pinned(c)[1..]| ==> Pinned(c)[1..][m] == c.lh[k + 1 + m];
    UnpinnedBuffers(c, view, j, c.lh[k], NextMode(l, c));
  }

  lemma {:induction false} QuietWorkInv(l: Layout, base: Image, c: State, view: Image, a: LogRuns.State, i: nat, j: nat)
    requires Inv(l, base, c, view, a) && Busily(c) && Enabled(l, c, Work(i, j)) && !c.mode.sub.Copy?
    ensures Inv(l, base, Step(l, c, Work(i, j)), view, a)
  {
    hide LogRuns.Inv, Buffers, Dirty, Sim, TurnOf, Pinned, Mine, Enabled, Step, Region;
    WorkBuffers(l, base, c, view, a, i, j);
    WorkRegion(l, base, c, view, a, i, j);
    WorkFields(l, c, i, j);
    var s := Step(l, c, Work(i, j));
    SimMoves(l, c, view, a, s);
    NoOpsDirty(l, c, s);
  }

  lemma NoOpsDirty(l: Layout, c: State, t: State)
    requires Dirty(l, c) && !c.mode.Running? && t.dirty == c.dirty && t.ops == c.ops
    ensures Dirty(l, t)
  {
    NotDirty(l, c);
  }

  // ---- The steps that write a block -----------------------------------------------------------

  /** The n-th write of a commit, in terms of the disk that the writes before it have left. */
  lemma {:induction false} CommitWriteAt(l: Layout, lh: seq<int>, view: Image, d: Image, n: nat)
    requires FitsDisk(l, d) && LoggableBlocks(l, |d|, lh) && |view| == |d| && n < Total(lh, true)
    ensures var ws := CommitWrites(l, lh, view, d);
            && n < |ws| == Total(lh, true)
            && var e := Apply(d, ws[..n]);
               match TurnOf(l, lh, n, true)
               case LogTurn(slot, home) => home < |view| && slot < |d| && ws[n] == Write(slot, view[home])
               case HeadTurn(list) => |list| <= LOGSIZE && ws[n] == Write(l.start, EncodeHeader(e[l.start], list))
               case InstallTurn(slot, home) =>
                 slot < |d| && home < |view| && ws[n] == Write(home, e[slot]) && e[slot] == view[home]
  {
    hide Apply, CommitWrites, EncodeHeader, FitsDisk, LoggableBlocks;
    LoggedAt(l, lh, d, if n < |lh| then n else if |lh| < n <= 2 * |lh| then n - |lh| - 1 else 0);
    if n < |lh| {
      LogAt(l, lh, view, d, n);
    } else if n == |lh| {
      HeadAt(l, lh, view, d);
    } else if n <= 2 * |lh| {
      InstallStep(l, lh, view, d, n - |lh| - 1);
    } else {
      ClearAt(l, lh, view, d);
    }
  }

  lemma LoggedAt(l: Layout, lh: seq<int>, d: Image, k: nat)
    requires FitsDisk(l, d) && LoggableBlocks(l, |d|, lh) && k < |lh|
    ensures |lh| <= LOGSIZE && 0 <= lh[k] < |d| && l.start + 1 + k < |d| && l.start < |d|
  {
  }

  lemma {:induction false} InstallStep(l: Layout, lh: seq<int>, view: Image, d: Image, k: nat)
    requires FitsDisk(l, d) && LoggableBlocks(l, |d|, lh) && |view| == |d| && k < |lh|
    ensures |CommitWrites(l, lh, view, d)| == 2 * |lh| + 2
    ensures var ws := CommitWrites(l, lh, view, d);
            var e := Apply(d, ws[..|lh| + 1 + k]);
            ws[|lh| + 1 + k] == Write(lh[k], e[l.start + 1 + k]) && e[l.start + 1 + k] == view[lh[k]]
  {
    hide Apply, CommitWrites, EncodeHeader;
    InstallAt(l, lh, view, d, k);
    AfterHeader(l, lh, view, d, k);
  }

  lemma {:induction false} ClearAt(l: Layout, lh: seq<int>, view: Image, d: Image)
    requires FitsDisk(l, d) && LoggableBlocks(l, |d|, lh) && |view| == |d| && lh != []
    ensures |CommitWrites(l, lh, view, d)| == 2 * |lh| + 2
    ensures var ws := CommitWrites(l, lh, view, d);
            ws[2 * |lh| + 1] == Write(l.start, EncodeHeader(Apply(d, ws[..2 * |lh| + 1])[l.start], []))
  {
    hide Apply, CommitWrites, EncodeHeader;
    CommitPhases(l, lh, view, d, 0);
    AfterHeader(l, lh, view, d, |lh|);
  }

  lemma {:induction false} LogAt(l: Layout, lh: seq<int>, view: Image, d: Image, n: nat)
    requires FitsDisk(l, d) && LoggableBlocks(l, |d|, lh) && |view| == |d| && n < |lh|
    ensures |CommitWrites(l, lh, view, d)| == 2 * |lh| + 2
    ensures CommitWrites(l, lh, view, d)[n] == Write(l.start + 1 + n, view[lh[n]])
  {
    hide Apply, EncodeHeader;
  }

  lemma {:induction false} HeadAt(l: Layout, lh: seq<int>, view: Image, d: Image)
    requires FitsDisk(l, d) && LoggableBlocks(l, |d|, lh) && |view| == |d| && lh != []
    ensures |CommitWrites(l, lh, view, d)| == 2 * |lh| + 2
    ensures var ws := CommitWrites(l, lh, view, d);
            ws[|lh|] == Write(l.start, EncodeHeader(Apply(d, ws[..|lh|])[l.start], lh))
  {
    hide Apply, CommitWrites, EncodeHeader;
    CommitPhases(l, lh, view, d, 0);
    AfterLogWrites(l, lh, view, d, |lh|);
    assert LogWrites(l, lh, view)[..|lh|] == LogWrites(l, lh, view);
  }

  lemma {:induction false} InstallAt(l: Layout, lh: seq<int>, view: Image, d: Image, k: nat)
    requires FitsDisk(l, d) && LoggableBlocks(l, |d|, lh) && |view| == |d| && k < |lh|
    ensures |CommitWrites(l, lh, view, d)| == 2 * |lh| + 2
    ensures CommitWrites(l, lh, view, d)[|lh| + 1 + k] == Write(lh[k], view[lh[k]])
  {
    hide Apply;
    AfterLogWrites(l, lh, view, d, |lh|);
    assert LogWrites(l, lh, view)[..|lh|] == LogWrites(l, lh, view);
  }

  lemma {:induction false} RecoveryWriteAt(l: Layout, d: Image, n: nat)
    requires WellFormed(l, d) && n < Total(HeaderBlocks(d[l.start]), false)
    ensures var ws, lh := RecoveryWrites(l, d), HeaderBlocks(d[l.start]);
            && n < |ws| == Total(lh, false)
            && var e := Apply(d, ws[..n]);
               match TurnOf(l, lh, n, false)
               case LogTurn(slot, home) => false
               case HeadTurn(list) => |list| <= LOGSIZE && ws[n] == Write(l.start, EncodeHeader(e[l.start], list))
               case InstallTurn(slot, home) => slot < |d| && home < |d| && ws[n] == Write(home, e[slot])
  {
    hide Apply;
    var lh := HeaderBlocks(d[l.start]);
    var ws := RecoveryWrites(l, d);
    assert ws[..n] == InstallWrites(l, lh, d)[..n];
    AfterInstalls(l, lh, d, d, n);
  }

  /** What a copying turn writes, and where, as the buffers are. */
  ghost function WriteOf(l: Layout, c: State, i: nat, j: nat): Write
    requires (c.mode.Committing? || c.mode.Recovering?) && CanWork(l, c, Now(l, c), Copy, i, j)
  {
    var t := Now(l, c);
    match t
    case HeadTurn(list) =>
      Write(l.start, if |list| <= LOGSIZE then EncodeHeader(c.buf[i].data, list) else c.buf[i].data)
    case LogTurn(slot, home) => Write(slot, c.buf[j].data)
    case InstallTurn(slot, home) => Write(home, c.buf[i].data)
  }

  lemma {:induction false} CopyBuffers(l: Layout, base: Image, c: State, view: Image, a: LogRuns.State, i: nat, j: nat)
    requires Inv(l, base, c, view, a) && Busily(c) && Enabled(l, c, Work(i, j)) && c.mode.sub.Copy?
    ensures CanWork(l, c, Now(l, c), Copy, i, j)
    ensures var w, s := WriteOf(l, c, i, j), Step(l, c, Work(i, j));
            && w.bno < |view| && s.disk == c.disk[w.bno := w.data] && Buffers(s, view[w.bno := w.data])
            && s.lh == c.lh && s.ops == c.ops && s.next == c.next && s.dirty == c.dirty && s.mode == NextMode(l, c)
  {
    hide LogRuns.Inv, Buffers, Dirty, Sim, TurnOf, Pinned, Mine, Enabled, Step, Region;
    TurnBlocks(l, base, c, view, a);
    WorkFields(l, c, i, j);
    PinsMove(l, c);
    BuffersParts(c, view);
    var w, s, d := WriteOf(l, c, i, j), Step(l, c, Work(i, j)), Worked(l, c, Now(l, c), Copy, i, j);
    SameMine(l, s, c.(mode := NextMode(l, c)));
    SameMine(l, d, c);
    StoredBuffers(c, view, if Now(l, c).InstallTurn? then j else i, w.bno, w.data);
    MovedBuffers(d, view[w.bno := w.data], s);
  }

  /** The commit writes what LogRuns says: slots from the latest versions, home blocks from
      slots that have them. */
  lemma {:induction false} CommitCopies(l: Layout, base: Image, c: State, view: Image, a: LogRuns.State, i: nat, j: nat)
    requires Inv(l, base, c, view, a) && Busily(c) && c.mode.Committing? && c.mode.sub.Copy?
    requires CanWork(l, c, Now(l, c), Copy, i, j)
    ensures LogRuns.Enabled(l, a, LogRuns.CommitStep)
    ensures var w := WriteOf(l, c, i, j);
            && w.bno < |c.disk| && LogRuns.Step(l, a, LogRuns.CommitStep).disk == c.disk[w.bno := w.data]
            && (!InLog(l, w.bno) ==> w.data == a.view[w.bno])
  {
    hide Buffers, Region, Apply, CommitWrites, LogRuns.OpInv, LogRuns.SpaceInv, LogRuns.Replay, TurnOf, SameHome;
    CommitWriteAt(l, c.lh, a.view, a.mode.origin, c.mode.turn);
    TurnBlocks(l, base, c, view, a);
    NotDirty(l, c);
    RegionIsClean(l, c, view);
    BufferHolds(c, view, i, BlockA(l, Now(l, c)));
    if !Now(l, c).HeadTurn? {
      BufferHolds(c, view, j, BlockB(l, Now(l, c)));
    }
  }

  /** Blocks of the log region never differ from the disk. */
  lemma {:induction false} RegionIsClean(l: Layout, c: State, view: Image)
    requires Buffers(c, view) && Dirty(l, c) && LoggableBlocks(l, |c.disk|, c.lh)
    ensures forall b: nat :: b < |view| && InLog(l, b) ==> view[b] == c.disk[b]
    ensures c.mode.Recovering? || c.mode.ReadingHead? ==> view == c.disk
  {
    hide Coherent;
    forall b: nat | b < |view| && view[b] != c.disk[b] ensures !InLog(l, b) && (c.mode.Running? || c.mode.Committing?) {
      if b in Pinned(c) {
        assert b in c.lh;
      }
    }
  }

  lemma {:induction false} CommitSim(l: Layout, c: State, view: Image, a: LogRuns.State, s: State, w: Write)
    requires Sim(l, c, view, a) && Busily(c) && c.mode.Committing? && c.mode.sub.Copy? && c.dirty == map[]
    requires LogRuns.Enabled(l, a, LogRuns.CommitStep) && w.bno < |c.disk|
    requires LogRuns.Step(l, a, LogRuns.CommitStep).disk == c.disk[w.bno := w.data] == s.disk
    requires !InLog(l, w.bno) ==> w.data == a.view[w.bno]
    requires s.lh == c.lh && s.ops == c.ops && s.next == c.next && s.dirty == c.dirty && s.mode == NextMode(l, c)
    ensures Sim(l, s, view[w.bno := w.data], LogRuns.Step(l, a, LogRuns.CommitStep))
  {
    hide CommitWrites;
  }

  lemma {:induction false} CommitCopyInv(l: Layout, base: Image, c: State, view: Image, a: LogRuns.State, i: nat,
                                         j: nat)
    requires Inv(l, base, c, view, a) && Busily(c) && Enabled(l, c, Work(i, j)) && c.mode.sub.Copy?
             && c.mode.Committing?
    ensures CanWork(l, c, Now(l, c), Copy, i, j) && LogRuns.Enabled(l, a, LogRuns.CommitStep)
    ensures var w := WriteOf(l, c, i, j);
            w.bno < |view|
              && Inv(l, base, Step(l, c, Work(i, j)), view[w.bno := w.data], LogRuns.Step(l, a, LogRuns.CommitStep))
  {
    hide LogRuns.Inv, Buffers, Dirty, Sim, TurnOf, Pinned, Mine, Enabled, Step, Region, LogRuns.Enabled, LogRuns.Step,
      WriteOf, CanWork;
    CopyBuffers(l, base, c, view, a, i, j);
    CommitCopies(l, base, c, view, a, i, j);
    WorkRegion(l, base, c, view, a, i, j);
    NotDirty(l, c);
    SimParts(l, c, view, a);
    var s := Step(l, c, Work(i, j));
    CommitSim(l, c, view, a, s, WriteOf(l, c, i, j));
    NoOpsDirty(l, c, s);
    LogStep(l, base, a, LogRuns.CommitStep);
  }

  lemma SimParts(l: Layout, c: State, view: Image, a: LogRuns.State)
    requires Sim(l, c, view, a)
    ensures |c.disk| == |view| && c.disk == a.disk
  {
  }

  lemma {:induction false} RecoverCopies(l: Layout, base: Image, c: State, view: Image, a: LogRuns.State, i: nat,
                                         j: nat)
    requires Inv(l, base, c, view, a) && Busily(c) && c.mode.Recovering? && c.mode.sub.Copy?
    requires CanWork(l, c, Now(l, c), Copy, i, j)
    ensures LogRuns.Enabled(l, a, LogRuns.RecoverStep)
    ensures var w := WriteOf(l, c, i, j);
            w.bno < |c.disk| && LogRuns.Step(l, a, LogRuns.RecoverStep).disk == c.disk[w.bno := w.data]
  {
    hide Buffers, Region, Apply, RecoveryWrites, LogRuns.OpInv, LogRuns.SpaceInv, LogRuns.Replay, TurnOf, SameHome;
    RecoveryWriteAt(l, a.mode.origin, c.mode.turn);
    TurnBlocks(l, base, c, view, a);
    RegionIsClean(l, c, view);
    BufferHolds(c, view, i, BlockA(l, Now(l, c)));
    if !Now(l, c).HeadTurn? {
      BufferHolds(c, view, j, BlockB(l, Now(l, c)));
    }
  }

  lemma {:induction false} RecoverSim(l: Layout, c: State, view: Image, a: LogRuns.State, s: State, w: Write)
    requires Sim(l, c, view, a) && Busily(c) && c.mode.Recovering? && c.mode.sub.Copy?
    requires LogRuns.Enabled(l, a, LogRuns.RecoverStep) && w.bno < |c.disk|
    requires LogRuns.Step(l, a, LogRuns.RecoverStep).disk == c.disk[w.bno := w.data] == s.disk
    requires s.lh == c.lh && s.ops == c.ops && s.next == c.next && s.dirty == c.dirty && s.mode == NextMode(l, c)
    ensures Sim(l, s, view[w.bno := w.data], LogRuns.Step(l, a, LogRuns.RecoverStep))
  {
    hide RecoveryWrites;
  }

  lemma {:induction false} RecoverCopyInv(l: Layout, base: Image, c: State, view: Image, a: LogRuns.State, i: nat,
                                          j: nat)
    requires Inv(l, base, c, view, a) && Busily(c) && Enabled(l, c, Work(i, j)) && c.mode.sub.Copy?
             && c.mode.Recovering?
    ensures CanWork(l, c, Now(l, c), Copy, i, j) && LogRuns.Enabled(l, a, LogRuns.RecoverStep)
    ensures var w := WriteOf(l, c, i, j);
            w.bno < |view|
              && Inv(l, base, Step(l, c, Work(i, j)), view[w.bno := w.data], LogRuns.Step(l, a, LogRuns.RecoverStep))
  {
    hide LogRuns.Inv, Buffers, Dirty, Sim, TurnOf, Pinned, Mine, Enabled, Step, Region, LogRuns.Enabled, LogRuns.Step,
      WriteOf, CanWork;
    CopyBuffers(l, base, c, view, a, i, j);
    RecoverCopies(l, base, c, view, a, i, j);
    WorkRegion(l, base, c, view, a, i, j);
    SimParts(l, c, view, a);
    var s := Step(l, c, Work(i, j));
    RecoverSim(l, c, view, a, s, WriteOf(l, c, i, j));
    NoOpsDirty(l, c, s);
    LogStep(l, base, a, LogRuns.RecoverStep);
  }

  // ---- The end of a commit or a recovery, and crashes -------------------------------------------

  /** After a commit or a recovery nothing is pinned, and the cache is as the disk. */
  lemma {:induction false} FinishInv(l: Layout, base: Image, c: State, view: Image, a: LogRuns.State, i: nat, j: nat)
    requires Inv(l, base, c, view, a) && (c.mode.Committing? || c.mode.Recovering?) && !Busily(c)
    ensures var ev := if c.mode.Committing? then LogRuns.CommitEnd else LogRuns.RecoverEnd;
            && Enabled(l, c, Work(i, j)) && LogRuns.Enabled(l, a, ev)
            && Inv(l, base, Step(l, c, Work(i, j)), view, LogRuns.Step(l, a, ev))
  {
    hide LogRuns.Inv, Buffers, Region, Sim, Dirty, Pinned, Enabled, Step, LogRuns.Enabled, LogRuns.Step;
    var ev := if c.mode.Committing? then LogRuns.CommitEnd else LogRuns.RecoverEnd;
    var s := c.(lh := [], mode := Running);
    FinishFields(l, c, i, j);
    FinishEnabled(l, base, c, view, a);
    LogStep(l, base, a, ev);
    FinishPins(l, c, view, a);
    FinishSim(l, base, c, view, a);
    MovedBuffers(c, view, s);
    FinishRegion(l, c, s);
    NoOpsDirty(l, c, s);
  }

  lemma {:induction false} FinishFields(l: Layout, c: State, i: nat, j: nat)
    requires (c.mode.Committing? || c.mode.Recovering?) && !Busily(c)
    ensures Enabled(l, c, Work(i, j)) && Step(l, c, Work(i, j)) == c.(lh := [], mode := Running)
  {
    hide TurnOf, CanWork;
  }

  lemma {:induction false} FinishPins(l: Layout, c: State, view: Image, a: LogRuns.State)
    requires Sim(l, c, view, a) && (c.mode.Committing? || c.mode.Recovering?) && !Busily(c)
    ensures Pinned(c) == [] == Pinned(c.(lh := [], mode := Running))
  {
    hide TurnOf;
  }

  lemma {:induction false} FinishSim(l: Layout, base: Image, c: State, view: Image, a: LogRuns.State)
    requires Inv(l, base, c, view, a) && (c.mode.Committing? || c.mode.Recovering?) && !Busily(c)
    requires LogRuns.Enabled(l, a, if c.mode.Committing? then LogRuns.CommitEnd else LogRuns.RecoverEnd)
    ensures var ev := if c.mode.Committing? then LogRuns.CommitEnd else LogRuns.RecoverEnd;
            Sim(l, c.(lh := [], mode := Running), view, LogRuns.Step(l, a, ev))
  {
    hide LogRuns.Inv, Buffers, Region, TurnOf, LogRuns.Enabled;
    RegionIsClean(l, c, view);
    if c.mode.Recovering? {
      HeadIsDisks(l, base, a);
    }
  }

  lemma {:induction false} FinishRegion(l: Layout, c: State, s: State)
    requires Region(l, c) && Mine(l, c) == {} && s == c.(lh := [], mode := Running)
    ensures Region(l, s)
  {
  }

  lemma {:induction false} FinishEnabled(l: Layout, base: Image, c: State, view: Image, a: LogRuns.State)
    requires Inv(l, base, c, view, a) && (c.mode.Committing? || c.mode.Recovering?) && !Busily(c)
    ensures LogRuns.Enabled(l, a, if c.mode.Committing? then LogRuns.CommitEnd else LogRuns.RecoverEnd)
    ensures Mine(l, c) == {}
  {
    hide Buffers, Region, Apply, LogRuns.OpInv, LogRuns.SpaceInv, LogRuns.Replay, SameHome;
  }

  lemma {:induction false} CrashEnabled(l: Layout, base: Image, c: State, view: Image, a: LogRuns.State)
    requires Inv(l, base, c, view, a)
    ensures LogRuns.Enabled(l, a, LogRuns.Crash)
  {
    hide LogRuns.Inv, Buffers, Dirty, Region, Sim;
    LogRunsParts(l, base, a);
  }

  lemma {:induction false} CrashInv(l: Layout, base: Image, c: State, view: Image, a: LogRuns.State)
    requires Inv(l, base, c, view, a) && Enabled(l, c, Crash) && LogRuns.Enabled(l, a, LogRuns.Crash)
    ensures Inv(l, base, Step(l, c, Crash), c.disk, LogRuns.Step(l, a, LogRuns.Crash))
  {
    hide LogRuns.Inv;
    LogStep(l, base, a, LogRuns.Crash);
    FreshBuffers(c.disk, Step(l, c, Crash));
  }

  lemma {:induction false} FreshBuffers(disk: Image, s: State)
    requires s.buf == Fresh() && s.disk == disk && s.holders == seq(|disk|, _ => 0) && s.lh == [] && s.dirty == map[]
    ensures Buffers(s, disk)
  {
    assert Refs(s) == seq(|disk|, _ => 0);
  }

  /** read_head reads the header through a buffer, which shows the disk's. */
  lemma {:induction false} ReadHeadInv(l: Layout, base: Image, c: State, view: Image, a: LogRuns.State, i: nat, j: nat)
    requires Inv(l, base, c, view, a) && c.mode.ReadingHead? && Enabled(l, c, Work(i, j))
    ensures Inv(l, base, Step(l, c, Work(i, j)), view, a)
  {
    hide LogRuns.Inv, Buffers, Dirty, Region, Sim, Enabled, Step, Pinned, Taken, Dropped;
    ReadHeadFields(l, c, i, j);
    SimParts(l, c, view, a);
    BuffersParts(c, view);
    TakenBuffers(l, c, view, i, l.start);
    var t := Taken(c, i, l.start);
    DroppedBuffers(t, view, i, l.start);
    var s := Step(l, c, Work(i, j));
    RegionIsClean(l, c, view);
    ReadHeadSim(l, base, c, view, a, s);
    AloneMoves(l, c, s);
    NoOpsDirty(l, c, s);
    MovedBuffers(Dropped(t, i, l.start), view, s);
  }

  lemma {:induction false} ReadHeadFields(l: Layout, c: State, i: nat, j: nat)
    requires c.mode.ReadingHead? && Enabled(l, c, Work(i, j))
    ensures i < |c.buf| && l.start < |c.disk| == |c.holders| && CanTake(c.buf, i, l.start)
    ensures var t := Taken(c, i, l.start);
            && |t.buf| == |c.buf| && |t.holders| == |c.holders| && t.holders[l.start] > 0
            && var d, s := Dropped(t, i, l.start), Step(l, c, Work(i, j));
               && s == d.(lh := HeadList(t.buf[i].data), mode := Recovering(0, TakeA))
               && d.holders == c.holders && d.dirty == c.dirty && d.ops == c.ops && d.disk == c.disk && d.next == c.next
               && Pinned(s) == [] && Pinned(d) == Pinned(c)
  {
    hide Cached;
  }

  lemma {:induction false} ReadHeadSim(l: Layout, base: Image, c: State, view: Image, a: LogRuns.State, s: State)
    requires Inv(l, base, c, view, a) && c.mode.ReadingHead? && view == c.disk && l.start < |c.disk|
    requires s.disk == c.disk && s.ops == c.ops && s.next == c.next
    requires s.lh == HeadList(view[l.start]) && s.mode == Recovering(0, TakeA)
    ensures Sim(l, s, view, a) && LoggableBlocks(l, |s.disk|, s.lh) && Pinned(c) == []
  {
    hide LogRuns.Inv, Buffers, Region;
    HeadIsDisks(l, base, a);
  }

  lemma {:induction false} HeadIsDisks(l: Layout, base: Image, a: LogRuns.State)
    requires LogRuns.Inv(l, base, a) && a.mode.Recovering?
    ensures WellFormed(l, a.mode.origin) && |a.mode.origin| == |base| && a.lh == []
  {
    hide Apply, LogRuns.OpInv, LogRuns.SpaceInv, LogRuns.Replay;
  }

  lemma {:induction false} AloneMoves(l: Layout, c: State, s: State)
    requires Region(l, c) && c.mode.ReadingHead? && s.mode == Recovering(0, TakeA) && s.holders == c.holders
    ensures Region(l, s)
  {
  }

  // ---- Every run -----------------------------------------------------------------------------------

  /** The latest version of every block after an event: only a holder's change, and a write of
      the log's own, make a new one; a crash falls back to the disk. */
  ghost function NextView(l: Layout, c: State, view: Image, e: Event): Image
    requires Enabled(l, c, e)
  {
    match e
    case Modify(_, b, _, data) => if b < |view| then view[b := data] else view
    case Work(i, j) =>
      if Busily(c) && c.mode.sub.Copy? && CanWork(l, c, Now(l, c), Copy, i, j) && WriteOf(l, c, i, j).bno < |view| then
        view[WriteOf(l, c, i, j).bno := WriteOf(l, c, i, j).data]
      else view
    case Crash => c.disk
    case _ => view
  }

  /** The event of LogRuns that an event amounts to, if any. */
  ghost function LogEvents(l: Layout, c: State, e: Event): seq<LogRuns.Event>
    requires Enabled(l, c, e)
  {
    match e
    case BeginOp => [LogRuns.BeginOp]
    case LogWrite(op, b, i) => [LogRuns.LogWrite(op, b, c.buf[i].data)]
    case EndOp(op) => [LogRuns.EndOp(op)]
    case Crash => [LogRuns.Crash]
    case Work(i, j) =>
      if c.mode.Committing?
        then (if !Busily(c) then [LogRuns.CommitEnd] else if c.mode.sub.Copy? then [LogRuns.CommitStep] else [])
      else if c.mode.Recovering?
        then (if !Busily(c) then [LogRuns.RecoverEnd] else if c.mode.sub.Copy? then [LogRuns.RecoverStep] else [])
      else []
    case _ => []
  }

  ghost predicate CanAll(l: Layout, a: LogRuns.State, es: seq<LogRuns.Event>) {
    es == [] || (|es| == 1 && LogRuns.Enabled(l, a, es[0]))
  }

  ghost function DoAll(l: Layout, a: LogRuns.State, es: seq<LogRuns.Event>): LogRuns.State
    requires CanAll(l, a, es)
  {
    if es == [] then a else LogRuns.Step(l, a, es[0])
  }

  /** Every event keeps the invariant and is an event of LogRuns, or none. */
  lemma {:induction false} StepInv(l: Layout, base: Image, c: State, view: Image, a: LogRuns.State, e: Event)
    requires Inv(l, base, c, view, a) && Enabled(l, c, e)
    ensures CanAll(l, a, LogEvents(l, c, e))
    ensures Inv(l, base, Step(l, c, e), NextView(l, c, view, e), DoAll(l, a, LogEvents(l, c, e)))
  {
    hide Inv, Step, LogRuns.Enabled, LogRuns.Step, CanWork, WriteOf, Busily;
    match e
    case BeginOp => BeginInv(l, base, c, view, a);
    case Bread(_, _) => BreadInv(l, base, c, view, a, e);
    case Modify(_, _, _, _) => ModifyInv(l, base, c, view, a, e);
    case LogWrite(_, _, _) => LogWriteInv(l, base, c, view, a, e);
    case Brelse(_, _) => BrelseInv(l, base, c, view, a, e);
    case EndOp(_) => EndInv(l, base, c, view, a, e);
    case Crash =>
      CrashEnabled(l, base, c, view, a);
      CrashInv(l, base, c, view, a);
    case Work(i, j) => WorkInv(l, base, c, view, a, i, j);
  }

  lemma {:induction false} WorkInv(l: Layout, base: Image, c: State, view: Image, a: LogRuns.State, i: nat, j: nat)
    requires Inv(l, base, c, view, a) && Enabled(l, c, Work(i, j))
    ensures var e := Work(i, j); CanAll(l, a, LogEvents(l, c, e))
    ensures var e := Work(i, j); Inv(l, base, Step(l, c, e), NextView(l, c, view, e), DoAll(l, a, LogEvents(l, c, e)))
  {
    hide Inv, Step, LogRuns.Enabled, LogRuns.Step, CanWork, WriteOf, Busily;
    WorkModes(l, c, i, j);
    if c.mode.ReadingHead? {
      ReadHeadInv(l, base, c, view, a, i, j);
    } else if !Busily(c) {
      FinishInv(l, base, c, view, a, i, j);
    } else if !c.mode.sub.Copy? {
      QuietWorkInv(l, base, c, view, a, i, j);
    } else if c.mode.Committing? {
      CommitCopyInv(l, base, c, view, a, i, j);
    } else {
      RecoverCopyInv(l, base, c, view, a, i, j);
    }
  }

  lemma WorkModes(l: Layout, c: State, i: nat, j: nat)
    requires Enabled(l, c, Work(i, j))
    ensures c.mode.ReadingHead? || c.mode.Committing? || c.mode.Recovering?
    ensures Busily(c) ==> c.mode.Committing? || c.mode.Recovering?
  {
  }

  lemma {:induction false} InitInv(l: Layout, base: Image, c: State, a: LogRuns.State)
    requires Init(l, base, c) && LogRuns.Init(l, base, a)
    ensures Inv(l, base, c, base, a)
  {
    hide LogRuns.Inv;
    LogRuns.RunKeepsInv(l, base, [a], [], 0);
    FreshBuffers(base, c);
  }

  /** The latest version of every block at state i of a run. */
  ghost function LatestAt(l: Layout, base: Image, states: seq<State>, events: seq<Event>, i: nat): Image
    requires IsRun(l, base, states, events) && i < |states|
    decreases i
  {
    if i == 0 then base else NextView(l, states[i - 1], LatestAt(l, base, states, events, i - 1), events[i - 1])
  }

  /** What the first i events of a run amount to. */
  ghost function LogRun(l: Layout, base: Image, states: seq<State>, events: seq<Event>, i: nat): seq<LogRuns.Event>
    requires IsRun(l, base, states, events) && i < |states|
    decreases i
  {
    if i == 0 then [] else LogRun(l, base, states, events, i - 1) + LogEvents(l, states[i - 1], events[i - 1])
  }

  /** A run over the cache is the run of LogRuns with the same log operations and block
      writes. */
  lemma {:induction false} Refines(l: Layout, base: Image, states: seq<State>, events: seq<Event>, i: nat)
    returns (logStates: seq<LogRuns.State>, logEvents: seq<LogRuns.Event>)
    requires IsRun(l, base, states, events) && i < |states|
    ensures LogRuns.IsRun(l, base, logStates, logEvents) && |logStates| == |logEvents| + 1
    ensures logEvents == LogRun(l, base, states, events, i)
    ensures Inv(l, base, states[i], LatestAt(l, base, states, events, i), logStates[|logEvents|])
    decreases i
  {
    hide Inv, Step, LogRuns.Step, Enabled, LogRuns.Enabled, Init, LogRuns.Init, NextView;
    if i == 0 {
      var a := LogRuns.State(base, base, [], map[], LogRuns.Running, [], 0, 0);
      logStates, logEvents := [a], [];
      StartsClear(l, base, states[0], a);
      InitInv(l, base, states[0], a);
    } else {
      var c, e, view := states[i - 1], events[i - 1], LatestAt(l, base, states, events, i - 1);
      logStates, logEvents := Refines(l, base, states, events, i - 1);
      var a, es := logStates[|logEvents|], LogEvents(l, c, e);
      StepInv(l, base, c, view, a, e);
      assert logEvents + [] == logEvents;
      if es != [] {
        logStates, logEvents := logStates + [LogRuns.Step(l, a, es[0])], logEvents + es;
      }
    }
  }

  lemma StartsClear(l: Layout, base: Image, c: State, a: LogRuns.State)
    requires Init(l, base, c) && a == LogRuns.State(base, base, [], map[], LogRuns.Running, [], 0, 0)
    ensures LogRuns.Init(l, base, a)
  {
  }
}
