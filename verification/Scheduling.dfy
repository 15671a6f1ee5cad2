/** Sleep, wakeup, wait, exit and the scheduler of kernel/proc.c with the sleep locks of
    kernel/sleeplock.c, as steps of CPUs that run kernel threads. A step is one acquire,
    one release, one store, one table entry looked at under its lock, or one swtch. */
module Scheduling {

  datatype PState = UNUSED | USED | SLEEPING | RUNNABLE | RUNNING | ZOMBIE

  /** What a process can sleep on: a sleep lock, or (in wait) itself. */
  datatype Chan = NoChan | LockChan(l: nat) | ChildChan(q: int)

  /** The spinlocks: one per process, wait_lock, and the inner lock of each sleep lock. */
  datatype LockId = PLock(p: nat) | WaitLock | SLock(l: nat)

  /** Who calls sleep. */
  datatype Client = Acq(l: nat) | Waiting

  /** Where a process's kernel thread is; Yd... keep the place where it was preempted. */
  datatype Pc =
    | User | ForkRet | Dead
    | AsAcquire(l: nat) | AsTest(l: nat) | AsTake(l: nat) | AsRelease(l: nat)
    | RsAcquire(l: nat) | RsClear(l: nat) | RsRelease(l: nat)
    | SlTakeP(k: Client) | SlDropLk(k: Client) | SlMark(k: Client) | SlSwtch(k: Client) | SlResumed(k: Client)
    | SlDropP(k: Client) | SlRetake(k: Client)
    | Waking(ch: Chan, j: nat, ret: Pc)
    | WtAcquire | WtScan(i: nat, have: bool) | WtRelease
    | ExAcquire | ExReparent(i: nat) | ExTakeP | ExMark | ExDropWait | ExSwtch
    | FkParent(q: nat) | FkReady(q: nat)
    | YdTakeP(saved: Pc) | YdMark(saved: Pc) | YdSwtch(saved: Pc) | YdResumed(saved: Pc)

  datatype Proc = Proc(state: PState, chan: Chan, parent: int, killed: bool, pc: Pc)

  /** A CPU scans the table at i, runs process p, or is back in the scheduler after p. */
  datatype Cpu = Scan(i: nat) | Run(p: nat) | Back(p: nat)

  /** owner says which CPU holds a spinlock; locked are the sleep locks that are taken. */
  datatype State = State(procs: seq<Proc>, cpus: seq<Cpu>, owner: map<LockId, nat>, locked: set<nat>)

  /** What a thread in user or interruptible kernel code does next. */
  datatype Op =
    | Stay | Preempt | DoAcquire(l: nat) | DoRelease(l: nat) | DoWait | DoExit | DoKill(q: nat) | DoFork(q: nat)

  const INIT: nat := 0

  // ---- Threads ---------------------------------------------------------------------------------

  datatype Instr =
    | Spin
    | Goto(next: Pc)
    | Acquire(lock: LockId, next: Pc)
    | Release(lock: LockId, next: Pc)
    | SetLocked(l: nat, on: bool, next: Pc)
    | Put(i: nat, proc: Proc, next: Pc)
    | Swtch(next: Pc)

  function LkOf(k: Client): LockId {
    match k case Acq(l) => SLock(l) case Waiting => WaitLock
  }

  function ChanOf(k: Client, p: nat): Chan {
    match k case Acq(l) => LockChan(l) case Waiting => ChildChan(p)
  }

  /** The locks that a thread at its pc holds. */
  function Held(pc: Pc, p: nat): set<LockId> {
    match pc
    case AsTest(l) => {SLock(l)}
    case AsTake(l) => {SLock(l)}
    case AsRelease(l) => {SLock(l)}
    case RsClear(l) => {SLock(l)}
    case RsRelease(l) => {SLock(l)}
    case SlTakeP(k) => {LkOf(k)}
    case SlDropLk(k) => {LkOf(k), PLock(p)}
    case SlMark(_) => {PLock(p)}
    case SlSwtch(_) => {PLock(p)}
    case SlResumed(_) => {PLock(p)}
    case SlDropP(_) => {PLock(p)}
    case Waking(_, _, ret) => Held(ret, p)
    case WtScan(_, _) => {WaitLock}
    case WtRelease => {WaitLock}
    case ExReparent(_) => {WaitLock}
    case ExTakeP => {WaitLock}
    case ExMark => {WaitLock, PLock(p)}
    case ExDropWait => {WaitLock, PLock(p)}
    case ExSwtch => {PLock(p)}
    case YdMark(_) => {PLock(p)}
    case YdSwtch(_) => {PLock(p)}
    case YdResumed(_) => {PLock(p)}
    case ForkRet => {PLock(p)}
    case _ => {}
  }

  function ChoiceOf(s: State, p: nat, op: Op): Instr
    requires p < |s.procs|
  {
    match op
    case DoAcquire(l) => Goto(AsAcquire(l))
    case DoRelease(l) => Goto(RsAcquire(l))
    case DoWait => Goto(WtAcquire)
    case DoExit => if p == INIT then Spin else Goto(ExAcquire)  // "init exiting" is a panic
    case DoKill(q) =>
      if q >= |s.procs| then Goto(User)
      else if PLock(q) in s.owner then Spin
      else
        var st := if s.procs[q].state == SLEEPING then RUNNABLE else s.procs[q].state;
        Put(q, s.procs[q].(killed := true, state := st), User)
    case DoFork(q) =>
      if q < |s.procs| && PLock(q) !in s.owner && s.procs[q].state == UNUSED then
        Put(q, Proc(USED, NoChan, -1, false, ForkRet), FkParent(q))
      else Goto(User)
    case _ => Spin
  }

  /** One entry of the loop in wakeup: entry j, under its lock, unless it is the caller's. */
  function WakeOne(s: State, p: nat, ch: Chan, j: nat, ret: Pc): Instr {
    if j >= |s.procs| then Goto(ret)
    else if j == p then Goto(Waking(ch, j + 1, ret))
    else if PLock(j) in s.owner then Spin
    else if s.procs[j].state == SLEEPING && s.procs[j].chan == ch then
      Put(j, s.procs[j].(state := RUNNABLE), Waking(ch, j + 1, ret))
    else Goto(Waking(ch, j + 1, ret))
  }

  /** One entry of the loop in wait. */
  function ScanOne(s: State, p: nat, i: nat, have: bool): Instr
    requires p < |s.procs|
  {
    if i >= |s.procs| then (if !have || s.procs[p].killed then Goto(WtRelease) else Goto(SlTakeP(Waiting)))
    else if s.procs[i].parent != p then Goto(WtScan(i + 1, have))
    else if PLock(i) in s.owner then Spin
    else if s.procs[i].state == ZOMBIE then Put(i, Proc(UNUSED, NoChan, -1, false, Dead), WtRelease)
    else Goto(WtScan(i + 1, true))
  }

  /** One entry of the loop in reparent, or the wakeup of the parent after it. */
  function ReparentOne(s: State, p: nat, i: nat): Instr
    requires p < |s.procs|
  {
    if i >= |s.procs| then Goto(Waking(ChildChan(s.procs[p].parent), 0, ExTakeP))
    else if s.procs[i].parent == p then
      Put(i, s.procs[i].(parent := INIT), Waking(ChildChan(INIT), 0, ExReparent(i + 1)))
    else Goto(ExReparent(i + 1))
  }

  /** fork after allocproc: set the parent under wait_lock, then make the child RUNNABLE. */
  function ForkOne(s: State, p: nat, q: nat, pc: Pc): Instr {
    if pc.FkParent? then
      if WaitLock in s.owner || q >= |s.procs| then Spin else Put(q, s.procs[q].(parent := p), FkReady(q))
    else if q >= |s.procs| || PLock(q) in s.owner then Spin
    else Put(q, s.procs[q].(state := RUNNABLE), User)
  }

  /** Straight-line code: acquiresleep, releasesleep, sleep, wait, exit and yield. */
  function Line(s: State, p: nat, me: Proc): Instr {
    match me.pc
    case AsAcquire(l) => Acquire(SLock(l), AsTest(l))
    case AsTest(l) => if l in s.locked then Goto(SlTakeP(Acq(l))) else Goto(AsTake(l))
    case AsTake(l) => SetLocked(l, true, AsRelease(l))
    case AsRelease(l) => Release(SLock(l), User)
    case RsAcquire(l) => Acquire(SLock(l), RsClear(l))
    case RsClear(l) => SetLocked(l, false, Waking(LockChan(l), 0, RsRelease(l)))
    case RsRelease(l) => Release(SLock(l), User)
    case SlTakeP(k) => Acquire(PLock(p), SlDropLk(k))
    case SlDropLk(k) => Release(LkOf(k), SlMark(k))
    case SlMark(k) => Put(p, me.(chan := ChanOf(k, p), state := SLEEPING), SlSwtch(k))
    case SlSwtch(k) => Swtch(SlResumed(k))
    case SlResumed(k) => Put(p, me.(chan := NoChan), SlDropP(k))
    case SlDropP(k) => Release(PLock(p), SlRetake(k))
    case SlRetake(k) => if k.Acq? then Acquire(SLock(k.l), AsTest(k.l)) else Acquire(WaitLock, WtScan(0, false))
    case WtAcquire => Acquire(WaitLock, WtScan(0, false))
    case WtRelease => Release(WaitLock, User)
    case ExAcquire => Acquire(WaitLock, ExReparent(0))
    case ExTakeP => Acquire(PLock(p), ExMark)
    case ExMark => Put(p, me.(state := ZOMBIE), ExDropWait)
    case ExDropWait => Release(WaitLock, ExSwtch)
    case ExSwtch => Swtch(Dead)
    case YdTakeP(saved) => Acquire(PLock(p), YdMark(saved))
    case YdMark(saved) => Put(p, me.(state := RUNNABLE), YdSwtch(saved))
    case YdSwtch(saved) => Swtch(YdResumed(saved))
    case YdResumed(saved) => Release(PLock(p), saved)
    case ForkRet => Release(PLock(p), User)
    case _ => Spin  // Dead: "zombie exit" is a panic
  }

  /** Places where a thread holds no spinlock and so may be preempted. */
  predicate Saved(pc: Pc) {
    pc.User? || pc.AsAcquire? || pc.RsAcquire? || pc.SlRetake? || pc.WtAcquire? || pc.ExAcquire? || pc.FkParent?
      || pc.FkReady?
  }

  function InstrOf(s: State, p: nat, op: Op): Instr
    requires p < |s.procs|
  {
    var me := s.procs[p];
    if Saved(me.pc) && op.Preempt? then Goto(YdTakeP(me.pc))
    else
      match me.pc
      case User => ChoiceOf(s, p, op)
      case Waking(ch, j, ret) => WakeOne(s, p, ch, j, ret)
      case WtScan(i, have) => ScanOne(s, p, i, have)
      case ExReparent(i) => ReparentOne(s, p, i)
      case FkParent(q) => ForkOne(s, p, q, me.pc)
      case FkReady(q) => ForkOne(s, p, q, me.pc)
      case _ => Line(s, p, me)
  }

  function SetPc(s: State, p: nat, pc: Pc): State
    requires p < |s.procs|
  {
    s.(procs := s.procs[p := s.procs[p].(pc := pc)])
  }

  function Exec(s: State, c: nat, p: nat, ins: Instr): State
    requires p < |s.procs| && c < |s.cpus| && (ins.Put? ==> ins.i < |s.procs|)
  {
    match ins
    case Spin => s
    case Goto(next) => SetPc(s, p, next)
    case Acquire(lock, next) => if lock in s.owner then s else SetPc(s, p, next).(owner := s.owner[lock := c])
    case Release(lock, next) => SetPc(s, p, next).(owner := s.owner - {lock})
    case SetLocked(l, on, next) => SetPc(s, p, next).(locked := if on then s.locked + {l} else s.locked - {l})
    case Put(i, proc, next) => SetPc(s.(procs := s.procs[i := proc]), p, next)
    case Swtch(next) => SetPc(s, p, next).(cpus := s.cpus[c := Back(p)])
  }

  lemma PutInRange(s: State, p: nat, op: Op)
    requires p < |s.procs|
    ensures InstrOf(s, p, op).Put? ==> InstrOf(s, p, op).i < |s.procs|
  {
  }

  /** One step of CPU c. */
  function Step(s: State, c: nat, op: Op): State {
    if c >= |s.cpus| then s
    else
      match s.cpus[c]
      case Scan(i) =>
        if i >= |s.procs| then s.(cpus := s.cpus[c := Scan(0)])
        else if PLock(i) in s.owner then s
        else if s.procs[i].state == RUNNABLE then
          s.(procs := s.procs[i := s.procs[i].(state := RUNNING)], owner := s.owner[PLock(i) := c],
                cpus := s.cpus[c := Run(i)])
        else s.(cpus := s.cpus[c := Scan(i + 1)])
      case Back(p) => s.(owner := s.owner - {PLock(p)}, cpus := s.cpus[c := Scan(p + 1)])
      case Run(p) =>
        if p >= |s.procs| then s
        else
          PutInRange(s, p, op);
          Exec(s, c, p, InstrOf(s, p, op))
  }

  function Boot(n: nat, m: nat): State {
    State(
      seq(n, (i: nat) =>
            if i == INIT then Proc(RUNNABLE, NoChan, -1, false, ForkRet) else Proc(UNUSED, NoChan, -1, false, Dead)),
      seq(m, _ => Scan(0)), map[], {})
  }

  function After(s: State, run: seq<(nat, Op)>): State
    decreases |run|
  {
    if run == [] then s else After(Step(s, run[0].0, run[0].1), run[1..])
  }
}
