/** The log over the buffer cache, buffer by buffer: clients that read, change, log and
    release blocks, readers that run beside a commit, the commit and the recovery in their
    smallest steps, and crashes. Nothing is assumed of a buffer but what the code stores. */
module CacheRuns {
  import opened LogSpec
  import opened BufferCache
  import LogRuns

  type OpId = nat

  /** Places in one turn of write_log, write_head or install_trans. */
  datatype Sub = TakeA | TakeB | Copy | Unpin | DropX | DropY

  /** Committing and Recovering count the block writes of log.c; a turn makes one of them. */
  datatype Mode = Running | Committing(turn: nat, sub: Sub) | ReadingHead | Recovering(turn: nat, sub: Sub)

  /** holders counts the threads between bget and brelse of each block; dirty names, for a
      block that its holder has changed and not logged yet, the operation that did. */
  datatype State = State(
    buf: seq<Buf>, disk: Image, lh: seq<int>, holders: seq<nat>, dirty: map<nat, OpId>,
    ops: map<OpId, nat>, next: OpId, mode: Mode)

  datatype Event =
    | BeginOp
    | Bread(b: nat, i: nat)
    | Modify(op: OpId, b: nat, i: nat, data: Block)
    | LogWrite(op: OpId, b: nat, i: nat)
    | Brelse(b: nat, i: nat)
    | EndOp(op: OpId)
    | Work(i: nat, j: nat)
    | Crash

  // ---- Turns -----------------------------------------------------------------------------

  /** One block write: a slot from its home block, the header, or a home block from its slot. */
  datatype Turn = LogTurn(slot: nat, home: nat) | HeadTurn(list: seq<int>) | InstallTurn(slot: nat, home: nat)

  function Home(lh: seq<int>, k: nat): nat {
    if k < |lh| && lh[k] >= 0 then lh[k] else 0
  }

  function TurnOf(l: Layout, lh: seq<int>, n: nat, commit: bool): Turn {
    if !commit then
      if n < |lh| then InstallTurn(l.start + 1 + n, Home(lh, n)) else HeadTurn([])
    else if n < |lh| then LogTurn(l.start + 1 + n, Home(lh, n))
    else if n == |lh| then HeadTurn(lh)
    else if n <= 2 * |lh| then InstallTurn(l.start + 1 + (n - |lh| - 1), Home(lh, n - |lh| - 1))
    else HeadTurn([])
  }

  function Total(lh: seq<int>, commit: bool): nat {
    if !commit then |lh| + 1 else if lh == [] then 0 else 2 * |lh| + 2
  }

  /** The buffers of a turn in the order in which it takes and drops them. */
  function BlockA(l: Layout, t: Turn): nat {
    if t.HeadTurn? then l.start else t.slot
  }

  function BlockB(l: Layout, t: Turn): nat {
    if t.HeadTurn? then l.start else t.home
  }

  function BlockX(l: Layout, t: Turn): nat {
    if t.LogTurn? then t.home else if t.InstallTurn? then t.slot else l.start
  }

  function BlockY(l: Layout, t: Turn): nat {
    if t.LogTurn? then t.slot else if t.InstallTurn? then t.home else l.start
  }

  function NextSub(t: Turn, sub: Sub, commit: bool): Sub {
    match sub
    case TakeA => if t.HeadTurn? then Copy else TakeB
    case TakeB => Copy
    case Copy => if t.HeadTurn? then DropY else if t.InstallTurn? && commit then Unpin else DropX
    case Unpin => DropX
    case DropX => DropY
    case DropY => TakeA
  }

  /** The places that a turn has. */
  predicate SubOk(t: Turn, sub: Sub, commit: bool) {
    match sub
    case TakeB => !t.HeadTurn?
    case Unpin => t.InstallTurn? && commit
    case DropX => !t.HeadTurn?
    case _ => true
  }

  /** The blocks that the committing or recovering thread holds. */
  function Mine(l: Layout, c: State): set<nat> {
    if !c.mode.Committing? && !c.mode.Recovering? then {}
    else
      var t := TurnOf(l, c.lh, c.mode.turn, c.mode.Committing?);
      match c.mode.sub
      case TakeA => {}
      case TakeB => {BlockA(l, t)}
      case DropY => {BlockY(l, t)}
      case _ => {BlockA(l, t), BlockB(l, t)}
  }

  /** How many of the logged blocks have been unpinned. */
  function Unpinned(lh: seq<int>, mode: Mode): (k: nat)
    ensures k <= |lh|
  {
    if mode.Running? then 0
    else if !mode.Committing? then |lh|
    else if mode.turn <= |lh| then 0
    else if mode.turn > 2 * |lh| then |lh|
    else mode.turn - |lh| - 1 + if mode.sub.DropX? || mode.sub.DropY? then 1 else 0
  }

  /** The logged blocks that are pinned. */
  function Pinned(c: State): seq<int> {
    c.lh[Unpinned(c.lh, c.mode)..]
  }

  // ---- Steps -----------------------------------------------------------------------------

  predicate IsFor(buf: seq<Buf>, i: nat, b: nat) {
    i < |buf| && buf[i].dev == ROOTDEV && buf[i].blockno == b
  }

  /** bget may return buffer i for block b: it caches b, or nothing does and it is free. */
  ghost predicate CanTake(buf: seq<Buf>, i: nat, b: nat) {
    IsFor(buf, i, b) || (i < |buf| && !Cached(buf, b) && buf[i].refcnt == 0)
  }

  function Taken(c: State, i: nat, b: nat): State
    requires i < |c.buf| && b < |c.disk| && b < |c.holders|
  {
    var x := c.buf[i];
    c.(buf := c.buf[i := if IsFor(c.buf, i, b) then x.(refcnt := x.refcnt + 1)
          else Buf(true, ROOTDEV, b, 1, c.disk[b])],
       holders := c.holders[b := c.holders[b] + 1])
  }

  function Dec(n: nat): nat {
    if n > 0 then n - 1 else 0
  }

  function Dropped(c: State, i: nat, b: nat): State
    requires i < |c.buf| && b < |c.holders|
  {
    c.(buf := c.buf[i := c.buf[i].(refcnt := Dec(c.buf[i].refcnt))], holders := c.holders[b := Dec(c.holders[b])])
  }

  /** memmove into buffer i and bwrite. */
  function Stored(c: State, i: nat, b: nat, data: Block): State
    requires i < |c.buf| && b < |c.disk|
  {
    c.(buf := c.buf[i := c.buf[i].(data := data)], disk := c.disk[b := data])
  }

  function HeadList(b: Block): seq<int> {
    if 0 <= HeaderCount(b) <= LOGSIZE then HeaderBlocks(b) else []
  }

  /** Which of the event's two buffers is X, and which is Y. */
  function IndexX(t: Turn, i: nat, j: nat): nat {
    if t.LogTurn? then j else i
  }

  function IndexY(t: Turn, i: nat, j: nat): nat {
    if t.InstallTurn? then j else i
  }

  ghost predicate CanWork(l: Layout, c: State, t: Turn, sub: Sub, i: nat, j: nat) {
    var a, b := BlockA(l, t), BlockB(l, t);
    && |c.holders| == |c.disk| && a < |c.disk| && b < |c.disk| && |c.lh| <= LOGSIZE
    && match sub
       case TakeA => CanTake(c.buf, i, a)
       case TakeB => CanTake(c.buf, j, b)
       case Copy => IsFor(c.buf, i, a) && (t.HeadTurn? || IsFor(c.buf, j, b))
       case Unpin => IsFor(c.buf, j, b)
       case DropX => IsFor(c.buf, IndexX(t, i, j), BlockX(l, t))
       case DropY => IsFor(c.buf, IndexY(t, i, j), BlockY(l, t))
  }

  ghost function Worked(l: Layout, c: State, t: Turn, sub: Sub, i: nat, j: nat): State
    requires CanWork(l, c, t, sub, i, j) && (t.HeadTurn? ==> |t.list| <= LOGSIZE)
  {
    match sub
    case TakeA => Taken(c, i, BlockA(l, t))
    case TakeB => Taken(c, j, BlockB(l, t))
    case Copy =>
      if t.HeadTurn? then Stored(c, i, l.start, EncodeHeader(c.buf[i].data, t.list))
      else if t.LogTurn? then Stored(c, i, t.slot, c.buf[j].data)
      else Stored(c, j, t.home, c.buf[i].data)
    case Unpin => c.(buf := c.buf[j := c.buf[j].(refcnt := Dec(c.buf[j].refcnt))])
    case DropX => Dropped(c, IndexX(t, i, j), BlockX(l, t))
    case DropY => Dropped(c, IndexY(t, i, j), BlockY(l, t))
  }

  lemma HeadFits(l: Layout, lh: seq<int>, n: nat, commit: bool)
    requires |lh| <= LOGSIZE
    ensures TurnOf(l, lh, n, commit).HeadTurn? ==> |TurnOf(l, lh, n, commit).list| <= LOGSIZE
  {
  }

  ghost predicate CanLog(l: Layout, c: State, op: OpId, b: nat, i: nat) {
    && c.mode.Running? && op in c.ops && IsFor(c.buf, i, b) && b < |c.holders| && c.holders[b] > 0 && !InLog(l, b)
    && (b in c.dirty ==> c.dirty[b] == op)
    && !LogRuns.TooBig(l, c.lh) && (b in c.lh || c.ops[op] < MAXOPBLOCKS)
  }

  /** log_write: absorbed, or pinned and added to the list. */
  function Logged(c: State, op: OpId, b: nat, i: nat): State
    requires op in c.ops && i < |c.buf|
  {
    var t := c.(dirty := c.dirty - {b});
    if b in c.lh then t
    else
      var x := c.buf[i];
      t.(buf := c.buf[i := x.(refcnt := x.refcnt + 1)], lh := c.lh + [b], ops := c.ops[op := c.ops[op] + 1])
  }

  /** What a thread may do. A client changes and logs blocks inside an operation only, logs
      what it has changed before it releases it, and stays within its reservation; the
      panics of log_write and bget end a run. Anyone may read blocks outside the log, also
      while a commit goes on; recovery has the cache to itself. */
  ghost predicate Enabled(l: Layout, c: State, e: Event) {
    match e
    case BeginOp => c.mode.Running? && |c.lh| + (|c.ops| + 1) * MAXOPBLOCKS <= LOGSIZE
    case Bread(b, i) =>
      && (c.mode.Running? || c.mode.Committing?) && b < |c.disk| == |c.holders| && !InLog(l, b) && CanTake(c.buf, i, b)
    case Modify(op, b, i, _) =>
      && c.mode.Running? && op in c.ops && IsFor(c.buf, i, b) && b < |c.holders| && c.holders[b] > 0 && !InLog(l, b)
      && (b in c.dirty ==> c.dirty[b] == op)
    case LogWrite(op, b, i) => CanLog(l, c, op, b, i)
    case Brelse(b, i) =>
      && (c.mode.Running? || c.mode.Committing?) && IsFor(c.buf, i, b) && b < |c.holders|
      && c.holders[b] > (if b in Mine(l, c) then 1 else 0) && b !in c.dirty
    case EndOp(op) => c.mode.Running? && op in c.ops && forall b :: b in c.dirty ==> c.dirty[b] != op
    case Work(i, j) =>
      match c.mode {
        case Running => false
        case ReadingHead => l.start < |c.disk| == |c.holders| && CanTake(c.buf, i, l.start)
        case Committing(turn, sub) =>
          turn >= Total(c.lh, true) || CanWork(l, c, TurnOf(l, c.lh, turn, true), sub, i, j)
        case Recovering(turn, sub) =>
          turn >= Total(c.lh, false) || CanWork(l, c, TurnOf(l, c.lh, turn, false), sub, i, j)
      }
    case Crash => true
  }

  function Fresh(): seq<Buf> {
    seq(NBUF, _ => Buf(false, 0, 0, 0, seq(BWORDS, _ => 0)))
  }

  ghost function WorkStep(l: Layout, c: State, i: nat, j: nat): State
    requires Enabled(l, c, Work(i, j))
  {
    match c.mode
    case ReadingHead =>
      var t := Taken(c, i, l.start);
      Dropped(t, i, l.start).(lh := HeadList(t.buf[i].data), mode := Recovering(0, TakeA))
    case Committing(turn, sub) =>
      if turn >= Total(c.lh, true) then c.(lh := [], mode := Running)
      else
        var t := TurnOf(l, c.lh, turn, true);
        HeadFits(l, c.lh, turn, true);
        Worked(l, c, t, sub, i, j).(mode := Committing(if sub.DropY? then turn + 1 else turn, NextSub(t, sub, true)))
    case Recovering(turn, sub) =>
      if turn >= Total(c.lh, false) then c.(lh := [], mode := Running)
      else
        var t := TurnOf(l, c.lh, turn, false);
        HeadFits(l, c.lh, turn, false);
        Worked(l, c, t, sub, i, j).(mode := Recovering(if sub.DropY? then turn + 1 else turn, NextSub(t, sub, false)))
  }

  ghost function Step(l: Layout, c: State, e: Event): State
    requires Enabled(l, c, e)
  {
    match e
    case BeginOp => c.(ops := c.ops[c.next := 0], next := c.next + 1)
    case Bread(b, i) => Taken(c, i, b)
    case Modify(op, b, i, data) => c.(buf := c.buf[i := c.buf[i].(data := data)], dirty := c.dirty[b := op])
    case LogWrite(op, b, i) => Logged(c, op, b, i)
    case Brelse(b, i) => Dropped(c, i, b)
    case EndOp(op) =>
      var t := c.(ops := c.ops - {op});
      if |t.ops| == 0 then t.(mode := Committing(0, TakeA)) else t
    case Work(i, j) => WorkStep(l, c, i, j)
    case Crash =>
      State(Fresh(), c.disk, [], seq(|c.disk|, _ => 0), map[], map[], c.next, ReadingHead)
  }

  ghost predicate Init(l: Layout, base: Image, c: State) {
    Clear(l, base) && c == State(Fresh(), base, [], seq(|base|, _ => 0), map[], map[], 0, Running)
  }

  ghost predicate IsRun(l: Layout, base: Image, states: seq<State>, events: seq<Event>) {
    && |states| == |events| + 1 && Init(l, base, states[0])
    && forall i :: 0 <= i < |events| ==>
        Enabled(l, states[i], events[i]) && states[i + 1] == Step(l, states[i], events[i])
  }
}
