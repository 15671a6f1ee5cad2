/** Whole runs of the logging system: concurrent operations, group commit one
    block write at a time, and crashes at any moment, recovery included. */
module LogRuns {
  import opened LogSpec

  type OpId = nat

  /** One log_write: operation op gave block bno the contents data. */
  datatype Update = Update(op: OpId, bno: nat, data: Block)

  /** `origin` is the disk when the commit or the recovery began, and `pos` the
      number of its block writes that have reached the disk. */
  datatype Mode =
    | Running
    | Committing(origin: Image, pos: nat)
    | Recovering(origin: Image, pos: nat)

  datatype State = State(
    disk: Image,           // what survives a crash
    view: Image,           // what bread returns: the cache over the disk
    lh: seq<int>,          // log.lh: the blocks logged since the last commit
    ops: map<OpId, nat>,   // operations between begin_op and end_op, with the new blocks each has added
    mode: Mode,
    hist: seq<Update>,     // every log_write that is not lost
    durable: nat,          // how many of them have been committed
    next: OpId)            // the next operation's name

  datatype Event =
    | BeginOp
    | LogWrite(op: OpId, bno: nat, data: Block)
    | EndOp(op: OpId)
    | CommitStep
    | CommitEnd
    | Crash
    | RecoverStep
    | RecoverEnd

  /** The home blocks that a list of log_writes asks for. */
  function Replay(base: Image, hist: seq<Update>): (r: Image)
    ensures |r| == |base|
  {
    if hist == [] then base
    else
      var u := hist[|hist| - 1];
      ApplyOne(Replay(base, hist[..|hist| - 1]), Write(u.bno, u.data))
  }

  /** The guards of log_write at which the kernel panics. */
  predicate TooBig(l: Layout, lh: seq<int>) {
    |lh| >= LOGSIZE || |lh| >= l.size - 1
  }

  ghost predicate CommitDefined(l: Layout, s: State) {
    && s.mode.Committing?
    && FitsDisk(l, s.mode.origin)
    && LoggableBlocks(l, |s.mode.origin|, s.lh)
    && |s.view| == |s.mode.origin|
  }

  /** The condition of begin_op's loop under which it stops waiting. */
  predicate HasRoom(s: State) {
    s.mode.Running? && |s.lh| + (|s.ops| + 1) * MAXOPBLOCKS <= LOGSIZE
  }

  ghost predicate Enabled(l: Layout, s: State, e: Event) {
    match e
    case BeginOp => HasRoom(s)
    case LogWrite(op, bno, _) =>
      && s.mode.Running? && op in s.ops && !TooBig(l, s.lh)
      && bno < |s.view| && !InLog(l, bno)
      && (bno in s.lh || s.ops[op] < MAXOPBLOCKS)
    case EndOp(op) => s.mode.Running? && op in s.ops
    case CommitStep =>
      CommitDefined(l, s) && s.mode.pos < |CommitWrites(l, s.lh, s.view, s.mode.origin)|
    case CommitEnd =>
      CommitDefined(l, s) && s.mode.pos == |CommitWrites(l, s.lh, s.view, s.mode.origin)|
    case Crash => s.durable <= |s.hist|
    case RecoverStep =>
      s.mode.Recovering? && WellFormed(l, s.mode.origin) && s.mode.pos < |RecoveryWrites(l, s.mode.origin)|
    case RecoverEnd =>
      s.mode.Recovering? && WellFormed(l, s.mode.origin) && s.mode.pos == |RecoveryWrites(l, s.mode.origin)|
  }

  ghost function Step(l: Layout, s: State, e: Event): State
    requires Enabled(l, s, e)
  {
    match e
    case BeginOp => s.(ops := s.ops[s.next := 0], next := s.next + 1)
    case LogWrite(op, bno, data) =>
      var t := s.(view := s.view[bno := data], hist := s.hist + [Update(op, bno, data)]);
      if bno in s.lh then t  // absorbed
      else t.(lh := s.lh + [bno], ops := s.ops[op := s.ops[op] + 1])
    case EndOp(op) =>
      var t := s.(ops := s.ops - {op});
      if |t.ops| == 0 then t.(mode := Committing(s.disk, 0)) else t
    case CommitStep =>
      s.(disk := ApplyOne(s.disk, CommitWrites(l, s.lh, s.view, s.mode.origin)[s.mode.pos]),
         mode := Committing(s.mode.origin, s.mode.pos + 1),
         // the header write is the commit point
         durable := if s.mode.pos == |s.lh| then |s.hist| else s.durable)
    case CommitEnd => s.(lh := [], mode := Running)
    case Crash =>
      // memory is lost, and with it every update that has not been committed
      s.(view := s.disk, lh := [], ops := map[], mode := Recovering(s.disk, 0), hist := s.hist[..s.durable])
    case RecoverStep =>
      s.(disk := ApplyOne(s.disk, RecoveryWrites(l, s.mode.origin)[s.mode.pos]),
         mode := Recovering(s.mode.origin, s.mode.pos + 1))
    case RecoverEnd => s.(view := s.disk, mode := Running)
  }

  ghost predicate Init(l: Layout, base: Image, s: State) {
    && Clear(l, base)
    && s == State(base, base, [], map[], Running, [], 0, 0)
  }

  ghost predicate IsRun(l: Layout, base: Image, states: seq<State>, events: seq<Event>) {
    && |states| == |events| + 1
    && Init(l, base, states[0])
    && forall i :: 0 <= i < |events| ==>
         Enabled(l, states[i], events[i]) && states[i + 1] == Step(l, states[i], events[i])
  }

  // ---- What every reachable state satisfies ---------------------------------

  ghost function Committed(base: Image, s: State): Image
    requires s.durable <= |s.hist|
  {
    Replay(base, s.hist[..s.durable])
  }

  ghost predicate ModeInv(l: Layout, base: Image, s: State)
    requires s.durable <= |s.hist|
  {
    match s.mode
    case Running =>
      && Clear(l, s.disk)
      && AgreeOff(l, s.lh, s.view, s.disk)
      && SameHome(l, s.disk, Committed(base, s))
      && SameHome(l, s.view, Replay(base, s.hist))
    case Committing(origin, pos) =>
      && s.ops == map[]
      && Clear(l, origin) && LoggableBlocks(l, |origin|, s.lh)
      && AgreeOff(l, s.lh, s.view, origin)
      && SameHome(l, s.view, Replay(base, s.hist))
      && pos <= |CommitWrites(l, s.lh, s.view, origin)|
      && s.disk == Apply(origin, CommitWrites(l, s.lh, s.view, origin)[..pos])
      && (pos <= |s.lh| ==> SameHome(l, origin, Committed(base, s)))
      && (pos > |s.lh| ==> s.durable == |s.hist|)
    case Recovering(origin, pos) =>
      && s.ops == map[] && s.lh == [] && s.durable == |s.hist|
      && RecoversTo(l, origin, Committed(base, s))
      && pos <= |RecoveryWrites(l, origin)|
      && s.disk == Apply(origin, RecoveryWrites(l, origin)[..pos])
  }

  ghost predicate DiskInv(l: Layout, base: Image, s: State) {
    && s.durable <= |s.hist|
    && |s.disk| == |base|
    && LoggableBlocks(l, |base|, s.lh)
    && (s.lh == [] ==> s.durable == |s.hist|)
    && ModeInv(l, base, s)
  }

  /** No operation has some of its updates committed and others not. */
  ghost predicate AllOrNothing(s: State) {
    forall i, j :: 0 <= i < s.durable <= j < |s.hist| ==> s.hist[i].op != s.hist[j].op
  }

  ghost predicate OpInv(s: State) {
    && s.durable <= |s.hist|
    && (forall i :: 0 <= i < |s.hist| ==> s.hist[i].op < s.next)
    && (forall op :: op in s.ops ==> op < s.next)
    && (forall i :: 0 <= i < s.durable ==> s.hist[i].op !in s.ops)
    && AllOrNothing(s)
    && (s.mode.Running? || s.ops == map[])
  }

  // ---- The disk ---------------------------------------------------------------

  lemma SameHomeTrans(l: Layout, a: Image, b: Image, c: Image)
    requires SameHome(l, a, b) && SameHome(l, b, c)
    ensures SameHome(l, a, c) && SameHome(l, b, a)
  {
  }

  lemma {:induction false} LogWriteKeepsDisk(l: Layout, base: Image, s: State, e: Event)
    requires DiskInv(l, base, s) && e.LogWrite? && Enabled(l, s, e)
    ensures DiskInv(l, base, Step(l, s, e))
  {
    var t := Step(l, s, e);
    assert t.hist[..|t.hist| - 1] == s.hist;
    assert t.hist[..t.durable] == s.hist[..s.durable];
    assert LoggableBlocks(l, |base|, t.lh);
  }

  lemma {:induction false} OpsKeepDisk(l: Layout, base: Image, s: State, e: Event)
    requires DiskInv(l, base, s) && (e.BeginOp? || e.EndOp?) && Enabled(l, s, e)
    ensures DiskInv(l, base, Step(l, s, e))
  {
    if e.EndOp? && |s.ops - {e.op}| == 0 {
      assert s.ops - {e.op} == map[];
      assert CommitWrites(l, s.lh, s.view, s.disk)[..0] == [];
    }
  }

  lemma {:induction false} CommitStepKeepsDisk(l: Layout, base: Image, s: State)
    requires DiskInv(l, base, s) && Enabled(l, s, CommitStep)
    ensures DiskInv(l, base, Step(l, s, CommitStep))
  {
    hide CommitWrites, Apply, Replay, SameHome, AgreeOff, LoggableBlocks;
    ApplyNext(s.mode.origin, CommitWrites(l, s.lh, s.view, s.mode.origin), s.mode.pos);
  }

  lemma {:induction false} CommitEndKeepsDisk(l: Layout, base: Image, s: State)
    requires DiskInv(l, base, s) && Enabled(l, s, CommitEnd)
    ensures DiskInv(l, base, Step(l, s, CommitEnd))
  {
    hide CommitWrites, Apply, Replay;
    var ws := CommitWrites(l, s.lh, s.view, s.mode.origin);
    assert ws[..s.mode.pos] == ws;
    CommitDone(l, s.lh, s.view, s.mode.origin);
    if s.lh != [] {
      CommitPhases(l, s.lh, s.view, s.mode.origin, 0);
    }
    assert s.durable == |s.hist|;
    assert s.hist[..s.durable] == s.hist;
    SameHomeTrans(l, s.disk, s.view, Committed(base, s));
    assert AgreeOff(l, [], s.view, s.disk);
  }

  lemma {:induction false} CommittingRecovers(l: Layout, base: Image, s: State)
    requires DiskInv(l, base, s) && s.mode.Committing?
    ensures RecoversTo(l, s.disk, Committed(base, s))
  {
    var origin, pos := s.mode.origin, s.mode.pos;
    CommitCrash(l, s.lh, s.view, origin, pos);
    if pos <= |s.lh| {
      SameHomeTrans(l, Recovered(l, s.disk), origin, Committed(base, s));
    } else {
      assert s.hist[..s.durable] == s.hist;
      SameHomeTrans(l, Recovered(l, s.disk), s.view, Committed(base, s));
    }
  }

  /** Whatever the state, a disk that loses power now recovers to exactly the
      committed updates. */
  lemma {:induction false} DiskRecovers(l: Layout, base: Image, s: State)
    requires DiskInv(l, base, s)
    ensures RecoversTo(l, s.disk, Committed(base, s))
  {
    match s.mode
    case Running =>
      ClearIsWellFormed(l, s.disk);
      SameHomeTrans(l, Recovered(l, s.disk), s.disk, Committed(base, s));
    case Committing(_, _) => CommittingRecovers(l, base, s);
    case Recovering(origin, pos) =>
      RecoveryCrash(l, origin, pos);
      SameHomeTrans(l, Recovered(l, s.disk), Recovered(l, origin), Committed(base, s));
  }

  lemma {:induction false} CrashKeepsDisk(l: Layout, base: Image, s: State)
    requires DiskInv(l, base, s)
    ensures DiskInv(l, base, Step(l, s, Crash))
  {
    hide RecoveryWrites, Replay, SameHome, Recovered, WellFormed, AgreeOff;
    DiskRecovers(l, base, s);
    var t := Step(l, s, Crash);
    assert t.hist[..t.durable] == s.hist[..s.durable];
    assert RecoveryWrites(l, s.disk)[..0] == [];
  }

  lemma {:induction false} RecoverStepKeepsDisk(l: Layout, base: Image, s: State)
    requires DiskInv(l, base, s) && Enabled(l, s, RecoverStep)
    ensures DiskInv(l, base, Step(l, s, RecoverStep))
  {
    hide RecoveryWrites, Apply, Replay, RecoversTo;
    ApplyNext(s.mode.origin, RecoveryWrites(l, s.mode.origin), s.mode.pos);
  }

  lemma {:induction false} RecoverEndKeepsDisk(l: Layout, base: Image, s: State)
    requires DiskInv(l, base, s) && Enabled(l, s, RecoverEnd)
    ensures DiskInv(l, base, Step(l, s, RecoverEnd))
  {
    var ws := RecoveryWrites(l, s.mode.origin);
    assert ws[..s.mode.pos] == ws;
    RecoveredContents(l, s.mode.origin);
    assert s.hist[..s.durable] == s.hist;
  }

  lemma {:induction false} StepKeepsDisk(l: Layout, base: Image, s: State, e: Event)
    requires DiskInv(l, base, s) && Enabled(l, s, e)
    ensures DiskInv(l, base, Step(l, s, e))
  {
    match e
    case BeginOp => OpsKeepDisk(l, base, s, e);
    case LogWrite(_, _, _) => LogWriteKeepsDisk(l, base, s, e);
    case EndOp(_) => OpsKeepDisk(l, base, s, e);
    case CommitStep => CommitStepKeepsDisk(l, base, s);
    case CommitEnd => CommitEndKeepsDisk(l, base, s);
    case Crash => CrashKeepsDisk(l, base, s);
    case RecoverStep => RecoverStepKeepsDisk(l, base, s);
    case RecoverEnd => RecoverEndKeepsDisk(l, base, s);
  }

  // ---- Operations ---------------------------------------------------------------

  lemma {:induction false} LogWriteKeepsOps(l: Layout, s: State, e: Event)
    requires OpInv(s) && e.LogWrite? && Enabled(l, s, e)
    ensures OpInv(Step(l, s, e))
  {
  }

  lemma {:induction false} StepKeepsOps(l: Layout, s: State, e: Event)
    requires OpInv(s) && Enabled(l, s, e)
    ensures OpInv(Step(l, s, e))
  {
    hide Apply, CommitWrites, RecoveryWrites, ApplyOne, WellFormed, LoggableBlocks, OpInv;
    match e
    case BeginOp => BeginKeepsOps(s, Step(l, s, e));
    case EndOp(op) => EndKeepsOps(s, op, Step(l, s, e));
    case LogWrite(_, _, _) => LogWriteKeepsOps(l, s, e);
    case Crash => CrashKeepsOps(s, Step(l, s, e));
    case _ => WritesKeepOps(s, Step(l, s, e));
  }

  lemma BeginKeepsOps(s: State, t: State)
    requires OpInv(s) && s.mode.Running? && t == s.(ops := s.ops[s.next := 0], next := s.next + 1)
    ensures OpInv(t)
  {
  }

  lemma EndKeepsOps(s: State, op: OpId, t: State)
    requires OpInv(s) && s.mode.Running? && t == s.(ops := s.ops - {op}, mode := t.mode)
    requires t.mode.Running? || |t.ops| == 0
    ensures OpInv(t)
  {
    assert |t.ops| == 0 ==> t.ops == map[];
  }

  lemma CrashKeepsOps(s: State, t: State)
    requires OpInv(s) && t.ops == map[] && t.next == s.next && t.durable == s.durable && t.hist == s.hist[..s.durable]
    ensures OpInv(t)
  {
  }

  /** Steps of commit and recovery, with no operation open. */
  lemma WritesKeepOps(s: State, t: State)
    requires OpInv(s) && !s.mode.Running? && t.ops == s.ops && t.next == s.next && t.hist == s.hist
    requires t.durable == s.durable || t.durable == |s.hist|
    ensures OpInv(t)
  {
  }

  /** Everything committed in s is committed in t, in the same order. */
  ghost predicate KeepsCommitted(s: State, t: State) {
    && s.durable <= |s.hist| && t.durable <= |t.hist|
    && s.hist[..s.durable] <= t.hist[..t.durable]
  }

  lemma {:induction false} StepKeepsCommitted(l: Layout, s: State, e: Event)
    requires s.durable <= |s.hist| && Enabled(l, s, e)
    ensures KeepsCommitted(s, Step(l, s, e))
  {
  }

  lemma KeepsCommittedTrans(s: State, t: State, u: State)
    requires KeepsCommitted(s, t) && KeepsCommitted(t, u)
    ensures KeepsCommitted(s, u)
  {
  }

  // ---- Log space --------------------------------------------------------------

  /** Blocks the outstanding operations may still add. */
  ghost function Unused(ops: map<OpId, nat>): int {
    if ops == map[] then 0
    else
      var op :| op in ops;
      MAXOPBLOCKS - ops[op] + Unused(ops - {op})
  }

  lemma {:induction false} UnusedSplit(ops: map<OpId, nat>, op: OpId)
    requires op in ops
    ensures Unused(ops) == MAXOPBLOCKS - ops[op] + Unused(ops - {op})
    decreases |ops|
  {
    var x :| x in ops && Unused(ops) == MAXOPBLOCKS - ops[x] + Unused(ops - {x});
    if x != op {
      UnusedSplit(ops - {x}, op);
      UnusedSplit(ops - {op}, x);
      assert ops - {x} - {op} == ops - {op} - {x};
    }
  }

  lemma {:induction false} UnusedBounds(ops: map<OpId, nat>)
    requires forall op :: op in ops ==> ops[op] <= MAXOPBLOCKS
    ensures 0 <= Unused(ops) <= MAXOPBLOCKS * |ops|
    decreases |ops|
  {
    if ops != map[] {
      var op :| op in ops && Unused(ops) == MAXOPBLOCKS - ops[op] + Unused(ops - {op});
      UnusedBounds(ops - {op});
    }
  }

  /** log.lh plus everything still promised to outstanding operations fits. */
  ghost predicate SpaceInv(s: State) {
    && (forall op :: op in s.ops ==> op < s.next && s.ops[op] <= MAXOPBLOCKS)
    && (s.mode.Running? || s.ops == map[])
    && |s.lh| + Unused(s.ops) <= LOGSIZE
  }

  lemma {:induction false} StepKeepsSpace(l: Layout, s: State, e: Event)
    requires SpaceInv(s) && Enabled(l, s, e)
    ensures SpaceInv(Step(l, s, e))
  {
    var t := Step(l, s, e);
    match e
    case BeginOp =>
      UnusedBounds(s.ops);
      UnusedSplit(t.ops, s.next);
      assert t.ops - {s.next} == s.ops;
    case LogWrite(op, bno, _) =>
      if bno !in s.lh {
        UnusedSplit(s.ops, op);
        UnusedSplit(t.ops, op);
        assert t.ops - {op} == s.ops - {op};
      }
    case EndOp(op) =>
      UnusedSplit(s.ops, op);
      assert |t.ops| == 0 ==> t.ops == map[];
    case CommitEnd =>
      UnusedBounds(t.ops);
    case _ =>
  }

  // ---- Whole runs ---------------------------------------------------------------

  ghost predicate Inv(l: Layout, base: Image, s: State) {
    DiskInv(l, base, s) && OpInv(s) && SpaceInv(s)
  }

  lemma {:induction false} RunKeepsInv(l: Layout, base: Image, states: seq<State>, events: seq<Event>, i: nat)
    requires IsRun(l, base, states, events) && i < |states|
    ensures Inv(l, base, states[i])
  {
    if i == 0 {
      var s := states[0];
      assert s.hist[..0] == [];
      UnusedBounds(s.ops);
    } else {
      RunKeepsInv(l, base, states, events, i - 1);
      StepKeepsDisk(l, base, states[i - 1], events[i - 1]);
      StepKeepsOps(l, states[i - 1], events[i - 1]);
      StepKeepsSpace(l, states[i - 1], events[i - 1]);
    }
  }

  /** Crash atomicity. At every moment of every run, whatever crashes came before
      and however often recovery was cut short, recovering the disk gives exactly
      the committed log_writes replayed over the initial disk; and no operation
      is only partly among them. */
  lemma {:induction false} CrashAtomicity(l: Layout, base: Image, states: seq<State>, events: seq<Event>, i: nat)
    requires IsRun(l, base, states, events) && i < |states|
    ensures states[i].durable <= |states[i].hist|
    ensures RecoversTo(l, states[i].disk, Replay(base, states[i].hist[..states[i].durable]))
    ensures AllOrNothing(states[i])
  {
    RunKeepsInv(l, base, states, events, i);
    DiskRecovers(l, base, states[i]);
  }

  /** Durability. What has been committed at one moment is committed, in the same
      order, at every later one. */
  lemma {:induction false} CommittedIsForever(l: Layout, base: Image, states: seq<State>, events: seq<Event>, i: nat,
                                              j: nat)
    requires IsRun(l, base, states, events) && i <= j < |states|
    ensures KeepsCommitted(states[i], states[j])
    decreases j
  {
    if i == j {
      assert states[i].durable <= |states[i].hist| by { RunKeepsInv(l, base, states, events, i); }
    } else {
      CommittedIsForever(l, base, states, events, i, j - 1);
      StepKeepsCommitted(l, states[j - 1], events[j - 1]);
      KeepsCommittedTrans(states[i], states[j - 1], states[j]);
    }
  }

  /** What the events of a run have written: every log_write in its order, less those that a
      crash found uncommitted. */
  ghost function Writes(states: seq<State>, events: seq<Event>, i: nat): seq<Update>
    requires i <= |events| && i < |states|
  {
    if i == 0 then []
    else
      var before := Writes(states, events, i - 1);
      match events[i - 1]
      case LogWrite(op, bno, data) => before + [Update(op, bno, data)]
      case Crash => if states[i - 1].durable <= |before| then before[..states[i - 1].durable] else before
      case _ => before
  }

  lemma HistStep(l: Layout, s: State, e: Event)
    requires Enabled(l, s, e)
    ensures var t := Step(l, s, e);
            match e
            case LogWrite(op, bno, data) => t.hist == s.hist + [Update(op, bno, data)]
            case Crash => s.durable <= |s.hist| && t.hist == s.hist[..s.durable]
            case _ => t.hist == s.hist
  {
    hide Apply, CommitWrites, RecoveryWrites, ApplyOne, WellFormed, LoggableBlocks;
  }

  /** hist is what the calls of log_write have written, absorbed ones included. */
  lemma {:induction false} HistIsTheWrites(l: Layout, base: Image, states: seq<State>, events: seq<Event>, i: nat)
    requires IsRun(l, base, states, events) && i < |states|
    ensures states[i].hist == Writes(states, events, i)
  {
    hide Step, Enabled;
    if i > 0 {
      HistIsTheWrites(l, base, states, events, i - 1);
      HistStep(l, states[i - 1], events[i - 1]);
    }
  }

  /** The last end_op commits. In every state of every run in which no operation and no
      commit or recovery is under way, every log_write has been committed and is in its home
      block on disk, and nothing is left in the log. */
  lemma {:induction false} QuietMeansCommitted(l: Layout, base: Image, states: seq<State>, events: seq<Event>, i: nat)
    requires IsRun(l, base, states, events) && i < |states| && states[i].mode.Running? && states[i].ops == map[]
    ensures var s := states[i];
            s.lh == [] && s.durable == |s.hist| && SameHome(l, s.disk, Replay(base, s.hist))
  {
    hide Apply, CommitWrites, RecoveryWrites, Replay;
    RunKeepsInv(l, base, states, events, i);
    QuietIsClear(l, base, states, events, i);
    var s := states[i];
    assert s.hist[..s.durable] == s.hist;
  }

  lemma {:induction false} QuietIsClear(l: Layout, base: Image, states: seq<State>, events: seq<Event>, i: nat)
    requires IsRun(l, base, states, events) && i < |states| && states[i].mode.Running? && states[i].ops == map[]
    ensures states[i].lh == []
  {
    hide Step, Enabled, Inv;
    if i > 0 {
      RunKeepsInv(l, base, states, events, i - 1);
      QuietStep(l, base, states[i - 1], events[i - 1]);
    }
  }

  /** Only the end of a commit or of a recovery leads to such a state. */
  lemma {:induction false} QuietStep(l: Layout, base: Image, s: State, e: Event)
    requires Inv(l, base, s) && Enabled(l, s, e)
    ensures var t := Step(l, s, e); t.mode.Running? && t.ops == map[] ==> (e.CommitEnd? || e.RecoverEnd?) && t.lh == []
  {
    hide Apply, CommitWrites, RecoveryWrites, ApplyOne, WellFormed, LoggableBlocks, Replay, SameHome, SpaceInv;
    var t := Step(l, s, e);
    assert e.BeginOp? ==> s.next in t.ops;
    assert e.LogWrite? ==> e.op in t.ops;
  }

  /** Durability of end_op: what has been written by a moment at which no operation and no
      commit is under way is committed at every later one, whatever crashes come between. */
  lemma {:induction false} EndedIsForever(l: Layout, base: Image, states: seq<State>, events: seq<Event>, i: nat,
                                          j: nat)
    requires IsRun(l, base, states, events) && i <= j < |states|
    requires states[i].mode.Running? && states[i].ops == map[]
    ensures states[j].durable <= |states[j].hist| && Writes(states, events, i) <= states[j].hist[..states[j].durable]
  {
    hide IsRun, Writes;
    HistIsTheWrites(l, base, states, events, i);
    QuietMeansCommitted(l, base, states, events, i);
    CommittedIsForever(l, base, states, events, i, j);
    assert states[i].hist[..states[i].durable] == states[i].hist;
  }

  function Begun(events: seq<Event>): nat {
    if events == [] then 0
    else Begun(events[..|events| - 1]) + if events[|events| - 1].BeginOp? then 1 else 0
  }

  /** The operations, numbered as they begin, that have not ended and not crashed. */
  function Open(events: seq<Event>): set<OpId> {
    if events == [] then {}
    else
      var n := |events| - 1;
      match events[n]
      case BeginOp => Open(events[..n]) + {Begun(events[..n])}
      case EndOp(op) => Open(events[..n]) - {op}
      case Crash => {}
      case _ => Open(events[..n])
  }

  lemma OpsStep(l: Layout, s: State, e: Event)
    requires Enabled(l, s, e)
    ensures var t := Step(l, s, e);
            && t.next == s.next + (if e.BeginOp? then 1 else 0)
            && t.ops.Keys == match e
                             case BeginOp => s.ops.Keys + {s.next}
                             case EndOp(op) => s.ops.Keys - {op}
                             case Crash => {}
                             case _ => s.ops.Keys
  {
    hide Apply, CommitWrites, RecoveryWrites, ApplyOne, WellFormed, LoggableBlocks;
  }

  /** ops are the operations between begin_op and end_op. */
  lemma {:induction false} OpsAreOpen(l: Layout, base: Image, states: seq<State>, events: seq<Event>, i: nat)
    requires IsRun(l, base, states, events) && i < |states|
    ensures states[i].next == Begun(events[..i]) && states[i].ops.Keys == Open(events[..i])
  {
    hide Step, Enabled;
    if i > 0 {
      OpsAreOpen(l, base, states, events, i - 1);
      OpsStep(l, states[i - 1], events[i - 1]);
      assert events[..i][..i - 1] == events[..i - 1];
    }
  }

  ghost predicate Extends(l: Layout, base: Image, states: seq<State>, events: seq<Event>,
                          more: seq<State>, moreEvents: seq<Event>) {
    IsRun(l, base, more, moreEvents) && states <= more && events <= moreEvents
  }

  lemma {:induction false} OneMore(l: Layout, base: Image, states: seq<State>, events: seq<Event>, e: Event)
    requires IsRun(l, base, states, events) && Enabled(l, states[|events|], e)
    ensures Extends(l, base, states, events, states + [Step(l, states[|events|], e)], events + [e])
  {
    hide Step, Enabled, Init;
  }

  lemma {:induction false} LaterStill(l: Layout, base: Image, a: seq<State>, x: seq<Event>,
                                      b: seq<State>, y: seq<Event>, c: seq<State>, z: seq<Event>)
    requires Extends(l, base, a, x, b, y) && Extends(l, base, b, y, c, z)
    ensures Extends(l, base, a, x, c, z)
  {
    hide IsRun;
  }

  /** A commit under way, left alone, completes. */
  lemma {:induction false} CommitCompletes(l: Layout, base: Image, states: seq<State>, events: seq<Event>)
    returns (more: seq<State>, moreEvents: seq<Event>)
    requires IsRun(l, base, states, events) && states[|events|].mode.Committing?
    ensures Extends(l, base, states, events, more, moreEvents)
    ensures var s, t := states[|events|], more[|moreEvents|];
            t.mode.Running? && t.ops == map[] && t.hist == s.hist
    decreases var s := states[|events|];
              if CommitDefined(l, s) then |CommitWrites(l, s.lh, s.view, s.mode.origin)| - s.mode.pos else 0
  {
    hide IsRun, Apply, CommitWrites, ApplyOne, SameHome, Inv;
    RunLength(l, base, states, events);
    var s := states[|events|];
    NeverStuck(l, base, states, events, |events|);
    NoOpsInCommit(l, base, states, events);
    if Enabled(l, s, CommitEnd) {
      OneMore(l, base, states, events, CommitEnd);
      more, moreEvents := states + [Step(l, s, CommitEnd)], events + [CommitEnd];
    } else {
      OneMore(l, base, states, events, CommitStep);
      var b, y := states + [Step(l, s, CommitStep)], events + [CommitStep];
      more, moreEvents := CommitCompletes(l, base, b, y);
      LaterStill(l, base, states, events, b, y, more, moreEvents);
    }
  }

  lemma RunLength(l: Layout, base: Image, states: seq<State>, events: seq<Event>)
    requires IsRun(l, base, states, events)
    ensures |states| == |events| + 1
  {
  }

  lemma NoOpsInCommit(l: Layout, base: Image, states: seq<State>, events: seq<Event>)
    requires IsRun(l, base, states, events) && states[|events|].mode.Committing?
    ensures states[|events|].ops == map[]
  {
    hide Replay, Apply, CommitWrites;
    RunKeepsInv(l, base, states, events, |events|);
  }

  /** end_op of the last operation goes straight into a commit, and that completes: there
      every log_write so far is committed and in its home block. */
  lemma {:induction false} LastEndOpCommits(l: Layout, base: Image, states: seq<State>, events: seq<Event>, op: OpId)
    returns (more: seq<State>, moreEvents: seq<Event>)
    requires IsRun(l, base, states, events) && states[|events|].mode.Running? && states[|events|].ops.Keys == {op}
    ensures Extends(l, base, states, events + [EndOp(op)], more, moreEvents) && |events| + 1 < |more| - 1
    ensures more[|events| + 1].mode.Committing?
    ensures var s, t := states[|events|], more[|moreEvents|];
            && t.mode.Running? && t.ops == map[] && t.hist == s.hist
            && t.durable == |t.hist| && SameHome(l, t.disk, Replay(base, t.hist))
  {
    hide IsRun, Apply, CommitWrites, ApplyOne, SameHome, Replay;
    RunLength(l, base, states, events);
    var s := states[|events|];
    assert Enabled(l, s, EndOp(op));
    OneMore(l, base, states, events, EndOp(op));
    var b, y := states + [Step(l, s, EndOp(op))], events + [EndOp(op)];
    assert s.ops - {op} == map[];
    more, moreEvents := CommitCompletes(l, base, b, y);
    RunLength(l, base, more, moreEvents);
    assert more[|events| + 1] == b[|events| + 1];
    QuietMeansCommitted(l, base, more, moreEvents, |moreEvents|);
  }

  /** No steal. While operations run, the home blocks on disk are still those of
      the last commit, and reads see every log_write made so far. */
  lemma {:induction false} NoSteal(l: Layout, base: Image, states: seq<State>, events: seq<Event>, i: nat)
    requires IsRun(l, base, states, events) && i < |states| && states[i].mode.Running?
    ensures var s := states[i];
            && s.durable <= |s.hist|
            && SameHome(l, s.disk, Replay(base, s.hist[..s.durable]))
            && SameHome(l, s.view, Replay(base, s.hist))
  {
    RunKeepsInv(l, base, states, events, i);
  }

  /** Commit and recovery never get stuck half way. */
  lemma {:induction false} NeverStuck(l: Layout, base: Image, states: seq<State>, events: seq<Event>, i: nat)
    requires IsRun(l, base, states, events) && i < |states|
    ensures states[i].mode.Committing? ==> Enabled(l, states[i], CommitStep) || Enabled(l, states[i], CommitEnd)
    ensures states[i].mode.Recovering? ==> Enabled(l, states[i], RecoverStep) || Enabled(l, states[i], RecoverEnd)
  {
    hide Apply, CommitWrites, RecoveryWrites, IsRun, OpInv, SpaceInv, SameHome;
    RunKeepsInv(l, base, states, events, i);
  }

  /** Reservation. Logged blocks and unused reservations together never exceed
      the log; the logged blocks are distinct home blocks whose slots lie inside
      the log region. */
  lemma {:induction false} ReservationHolds(l: Layout, base: Image, states: seq<State>, events: seq<Event>, i: nat)
    requires IsRun(l, base, states, events) && i < |states|
    ensures |states[i].lh| + Unused(states[i].ops) <= LOGSIZE
    ensures LoggableBlocks(l, |base|, states[i].lh)
    ensures |states[i].lh| > 0 ==> InLog(l, l.start + |states[i].lh|)
  {
    RunKeepsInv(l, base, states, events, i);
  }

  // ---- When log_write panics ------------------------------------------------------

  /** An operation within its limits may call log_write and panic the kernel. */
  ghost predicate PanicsWithinLimits(l: Layout, s: State) {
    s.mode.Running? && TooBig(l, s.lh) && exists op :: op in s.ops && s.ops[op] < MAXOPBLOCKS
  }

  /** With more than LOGSIZE blocks in the log region it cannot happen. */
  lemma {:induction false} LargeLogNeverPanics(l: Layout, base: Image, states: seq<State>, events: seq<Event>, i: nat)
    requires IsRun(l, base, states, events) && i < |states| && l.size > LOGSIZE
    ensures !PanicsWithinLimits(l, states[i])
  {
    RunKeepsInv(l, base, states, events, i);
    var s := states[i];
    if op :| op in s.ops && s.ops[op] < MAXOPBLOCKS {
      UnusedSplit(s.ops, op);
      UnusedBounds(s.ops - {op});
    }
  }

  function Clamp(x: int): (r: nat) {
    if x < 0 then 0 else if x > MAXOPBLOCKS then MAXOPBLOCKS else x
  }

  /** Three operations are open and have logged k blocks, one after the other. */
  function Filled(l: Layout, base: Image, k: nat): State
    requires l.start + l.size + k <= |base|
  {
    State(base, base, seq(k, i requires 0 <= i < k => l.start + l.size + i),
          map[0 := Clamp(k), 1 := Clamp(k - MAXOPBLOCKS), 2 := Clamp(k - 2 * MAXOPBLOCKS)],
          Running,
          seq(k, i requires 0 <= i < k => FillUpdate(l, base, i)), 0, 3)
  }

  function FillUpdate(l: Layout, base: Image, i: nat): Update
    requires l.start + l.size + i < |base|
  {
    Update(i / MAXOPBLOCKS, l.start + l.size + i, base[l.start + l.size + i])
  }

  ghost predicate Reachable(l: Layout, base: Image, s: State) {
    exists states, events :: IsRun(l, base, states, events) && states[|states| - 1] == s
  }

  lemma {:induction false} ReachStep(l: Layout, base: Image, s: State, e: Event)
    requires Reachable(l, base, s) && Enabled(l, s, e)
    ensures Reachable(l, base, Step(l, s, e))
  {
    hide Enabled, Step, Init;
    var states, events :| IsRun(l, base, states, events) && states[|states| - 1] == s;
    OneMore(l, base, states, events, e);
  }

  lemma {:induction false} FilledStep(l: Layout, base: Image, k: nat)
    requires k < LOGSIZE && k + 1 < l.size && l.start + l.size + k < |base|
    ensures var u := FillUpdate(l, base, k);
            var e := LogWrite(u.op, u.bno, u.data);
            Enabled(l, Filled(l, base, k), e) && Step(l, Filled(l, base, k), e) == Filled(l, base, k + 1)
  {
    var u := FillUpdate(l, base, k);
    var s, t := Filled(l, base, k), Filled(l, base, k + 1);
    assert base[u.bno := u.data] == base;
    assert s.lh + [u.bno] == t.lh;
    assert s.hist + [u] == t.hist;
    assert s.ops[u.op := s.ops[u.op] + 1] == t.ops;
  }

  lemma {:induction false} FilledReachable(l: Layout, base: Image, k: nat)
    requires Clear(l, base) && k <= LOGSIZE && k + 1 <= l.size && l.start + l.size + k <= |base|
    ensures Reachable(l, base, Filled(l, base, k))
  {
    if k == 0 {
      var s0 := State(base, base, [], map[], Running, [], 0, 0);
      assert IsRun(l, base, [s0], []);
      var s1, s2, s3 := Step(l, s0, BeginOp), Step(l, Step(l, s0, BeginOp), BeginOp), Filled(l, base, 0);
      assert s3.ops == s2.ops[2 := 0];
      ReachStep(l, base, s0, BeginOp);
      ReachStep(l, base, s1, BeginOp);
      ReachStep(l, base, s2, BeginOp);
    } else {
      FilledReachable(l, base, k - 1);
      var u := FillUpdate(l, base, k - 1);
      FilledStep(l, base, k - 1);
      ReachStep(l, base, Filled(l, base, k - 1), LogWrite(u.op, u.bno, u.data));
    }
  }

  /** With a log region of LOGSIZE blocks or fewer, which is what mkfs makes,
      operations that keep to their limits do reach the panic. */
  lemma {:induction false} SmallLogPanics(l: Layout, base: Image)
    requires Clear(l, base) && l.size <= LOGSIZE && l.start + 2 * l.size <= |base|
    ensures exists s :: Reachable(l, base, s) && PanicsWithinLimits(l, s)
  {
    var k := l.size - 1;
    FilledReachable(l, base, k);
    var s := Filled(l, base, k);
    assert 2 in s.ops && s.ops[2] < MAXOPBLOCKS;
    assert PanicsWithinLimits(l, s);
  }

  /** So the panic is out of reach exactly when the region is larger than LOGSIZE. */
  lemma {:induction false} PanicIffSmallLog(l: Layout, base: Image)
    requires Clear(l, base) && l.start + 2 * l.size <= |base|
    ensures (exists s :: Reachable(l, base, s) && PanicsWithinLimits(l, s)) <==> l.size <= LOGSIZE
  {
    if l.size <= LOGSIZE {
      SmallLogPanics(l, base);
    } else if s :| Reachable(l, base, s) && PanicsWithinLimits(l, s) {
      var states, events :| IsRun(l, base, states, events) && states[|states| - 1] == s;
      LargeLogNeverPanics(l, base, states, events, |states| - 1);
    }
  }

  /** In a log of any size, a log_write that would only be absorbed panics once the log
      is as full as log_write lets it become. */
  lemma {:induction false} FullLogRefusesAbsorption(l: Layout, base: Image)
    requires Clear(l, base) && l.size >= 2 && l.start + l.size + LOGSIZE <= |base|
    ensures exists s, op, b :: Reachable(l, base, s) && op in s.ops && b in s.lh && TooBig(l, s.lh)
  {
    var k := if l.size > LOGSIZE then LOGSIZE else l.size - 1;
    FilledReachable(l, base, k);
    var s := Filled(l, base, k);
    assert 2 in s.ops && s.lh[0] in s.lh;
  }
}
