/** What every step of the scheduling model keeps: who holds which lock, which CPU runs
    which process, and how a process's state follows from where its thread is. */
module SchedulingInv {
  import opened Scheduling

  // ---- Locks and CPUs -----------------------------------------------------------------------

  function HeldBy(s: State, c: nat): set<LockId> {
    if c >= |s.cpus| then {}
    else
      match s.cpus[c]
      case Scan(_) => {}
      case Back(p) => {PLock(p)}
      case Run(p) => if p < |s.procs| then Held(s.procs[p].pc, p) else {}
  }

  /** The owner recorded in a lock is the CPU whose current thread holds it. */
  ghost predicate Owners(s: State) {
    && (forall x :: x in s.owner ==> x in HeldBy(s, s.owner[x]))
    && (forall c: nat, x :: x in HeldBy(s, c) ==> x in s.owner && s.owner[x] == c)
  }

  /** No process is on two CPUs. */
  ghost predicate OneCpu(s: State) {
    && (forall c: nat :: c < |s.cpus| && !s.cpus[c].Scan? ==> s.cpus[c].p < |s.procs|)
    && (forall c: nat, d: nat :: c < d < |s.cpus| && !s.cpus[c].Scan? && !s.cpus[d].Scan? ==>
            s.cpus[c].p != s.cpus[d].p)
  }

  /** How Held changes along an instruction. */
  ghost predicate HoldsAfter(ins: Instr, pc: Pc, p: nat) {
    match ins
    case Spin => true
    case Goto(next) => Held(next, p) == Held(pc, p)
    case Put(_, _, next) => Held(next, p) == Held(pc, p)
    case SetLocked(_, _, next) => Held(next, p) == Held(pc, p)
    case Acquire(lock, next) => Held(next, p) == Held(pc, p) + {lock} && lock !in Held(pc, p)
    case Release(lock, next) => Held(next, p) == Held(pc, p) - {lock} && lock in Held(pc, p)
    case Swtch(_) => Held(pc, p) == {PLock(p)}
  }

  /** A thread's place makes sense: where a preempted thread was, and what a wakeup is for. */
  predicate PcOk(pc: Pc, parent: int) {
    match pc
    case YdTakeP(saved) => Saved(saved)
    case YdMark(saved) => Saved(saved)
    case YdSwtch(saved) => Saved(saved)
    case YdResumed(saved) => Saved(saved)
    case Waking(ch, _, ret) =>
      || (ret.RsRelease? && ch == LockChan(ret.l))
      || (ret.ExReparent? && ch == ChildChan(INIT))
      || (ret.ExTakeP? && ch == ChildChan(parent))
    case _ => true
  }

  lemma {:induction false} InstrHolds(s: State, p: nat, op: Op)
    requires p < |s.procs| && PcOk(s.procs[p].pc, s.procs[p].parent)
    ensures HoldsAfter(InstrOf(s, p, op), s.procs[p].pc, p)
  {
    hide ChoiceOf, WakeOne, ScanOne, ReparentOne, ForkOne, Line, HoldsAfter;
    match s.procs[p].pc
    case User => ChoiceHolds(s, p, op); PreemptHolds(User, p);
    case Waking(ch, j, ret) => WakeHolds(s, p, ch, j, ret);
    case WtScan(i, have) => ScanHolds(s, p, i, have);
    case ExReparent(i) => ReparentHolds(s, p, i);
    case FkParent(q) => ForkHolds(s, p, q, s.procs[p].pc); PreemptHolds(s.procs[p].pc, p);
    case FkReady(q) => ForkHolds(s, p, q, s.procs[p].pc); PreemptHolds(s.procs[p].pc, p);
    case _ => LineHolds(s, p, s.procs[p]); PreemptHolds(s.procs[p].pc, p);
  }

  lemma PreemptHolds(pc: Pc, p: nat)
    ensures Saved(pc) ==> HoldsAfter(Goto(YdTakeP(pc)), pc, p)
  {
  }

  lemma ForkHolds(s: State, p: nat, q: nat, pc: Pc)
    requires pc.FkParent? || pc.FkReady?
    ensures HoldsAfter(ForkOne(s, p, q, pc), pc, p)
  {
  }

  lemma LineHolds(s: State, p: nat, me: Proc)
    requires PcOk(me.pc, me.parent)
    ensures HoldsAfter(Line(s, p, me), me.pc, p)
  {
    match me.pc
    case YdResumed(saved) => assert Held(saved, p) == {};
    case RsClear(l) => assert Held(RsRelease(l), p) == {SLock(l)};
    case _ =>
  }

  lemma ChoiceHolds(s: State, p: nat, op: Op)
    requires p < |s.procs|
    ensures HoldsAfter(ChoiceOf(s, p, op), User, p)
  {
  }

  lemma WakeHolds(s: State, p: nat, ch: Chan, j: nat, ret: Pc)
    ensures HoldsAfter(WakeOne(s, p, ch, j, ret), Waking(ch, j, ret), p)
  {
  }

  lemma ScanHolds(s: State, p: nat, i: nat, have: bool)
    requires p < |s.procs|
    ensures HoldsAfter(ScanOne(s, p, i, have), WtScan(i, have), p)
  {
  }

  lemma ReparentHolds(s: State, p: nat, i: nat)
    requires p < |s.procs|
    ensures HoldsAfter(ReparentOne(s, p, i), ExReparent(i), p)
  {
  }

  // ---- States -------------------------------------------------------------------------------

  /** The state of a process whose thread runs. */
  predicate OnOk(pr: Proc, p: nat) {
    && PcOk(pr.pc, pr.parent)
    && match pr.pc
       case SlSwtch(k) => pr.state == SLEEPING && pr.chan == ChanOf(k, p)
       case YdSwtch(_) => pr.state == RUNNABLE
       case ExDropWait => pr.state == ZOMBIE
       case ExSwtch => pr.state == ZOMBIE
       case Dead => false
       case _ => pr.state == RUNNING
  }

  /** The state of a process whose thread does not run, and where it will go on. */
  predicate OffOk(pr: Proc, p: nat) {
    && PcOk(pr.pc, pr.parent)
    && match pr.pc
       case YdResumed(_) => pr.state == RUNNABLE
       case SlResumed(k) => (pr.state == SLEEPING || pr.state == RUNNABLE) && pr.chan == ChanOf(k, p)
       case ForkRet => pr.state == USED || pr.state == RUNNABLE
       case Dead => pr.state == ZOMBIE || pr.state == UNUSED
       case _ => false
  }

  ghost predicate Runs(s: State, p: nat) {
    exists c: nat :: c < |s.cpus| && s.cpus[c] == Run(p)
  }

  predicate StateOk(pr: Proc, p: nat, runs: bool) {
    if runs then OnOk(pr, p) else OffOk(pr, p)
  }

  ghost predicate States(s: State) {
    forall p: nat :: p < |s.procs| ==> StateOk(s.procs[p], p, Runs(s, p))
  }

  /** The process that a thread in fork is making. */
  function Making(pc: Pc): int {
    match pc
    case FkParent(q) => q
    case FkReady(q) => q
    case YdTakeP(saved) => Making(saved)
    case YdMark(saved) => Making(saved)
    case YdSwtch(saved) => Making(saved)
    case YdResumed(saved) => Making(saved)
    case _ => -1
  }

  /** A process being made is USED, and has one maker. */
  ghost predicate Makers(s: State) {
    && (forall p: nat :: p < |s.procs| && Making(s.procs[p].pc) >= 0 ==>
          Making(s.procs[p].pc) < |s.procs| && s.procs[Making(s.procs[p].pc)].state == USED)
    && (forall p: nat, q: nat :: p < q < |s.procs| && Making(s.procs[p].pc) >= 0 ==>
            Making(s.procs[p].pc) != Making(s.procs[q].pc))
  }

  ghost predicate Basic(s: State) {
    Owners(s) && OneCpu(s) && States(s) && Makers(s)
  }

  // ---- Locks are kept ------------------------------------------------------------------------

  /** A CPU takes or gives up locks; all other CPUs keep theirs. */
  lemma {:induction false} OwnersMove(s: State, t: State, c: nat)
    requires Owners(s) && c < |s.cpus|
    requires forall d: nat :: d != c ==> HeldBy(t, d) == HeldBy(s, d)
    requires forall x :: x in t.owner && t.owner[x] == c <==> x in HeldBy(t, c)
    requires forall x :: x in t.owner && t.owner[x] != c ==> x in s.owner && s.owner[x] == t.owner[x]
    requires forall x :: x in s.owner && s.owner[x] != c ==> x in t.owner && s.owner[x] == t.owner[x]
    ensures Owners(t)
  {
    hide HeldBy;
    forall d: nat, x | x in HeldBy(t, d) ensures x in t.owner && t.owner[x] == d {
      if d != c {
        assert x in HeldBy(s, d);
      }
    }
  }

  /** The locks of the other CPUs do not depend on what p's thread does. */
  lemma {:induction false} OthersHold(s: State, t: State, c: nat, p: nat, d: nat)
    requires OneCpu(s) && c < |s.cpus| && s.cpus[c] == Run(p) && p < |s.procs| && d != c
    requires |t.cpus| == |s.cpus| && |t.procs| == |s.procs| && (d < |s.cpus| ==> t.cpus[d] == s.cpus[d])
    requires forall q: nat :: q < |s.procs| && q != p && Runs(s, q) ==> t.procs[q].pc == s.procs[q].pc
    ensures HeldBy(t, d) == HeldBy(s, d)
  {
    hide Held;
    if d < |s.cpus| && s.cpus[d].Run? {
      var q := s.cpus[d].p;
      assert Runs(s, q);
      assert q != p;
    }
  }

  lemma {:induction false} ThreadOwners(s: State, c: nat, p: nat, op: Op)
    requires Basic(s) && c < |s.cpus| && s.cpus[c] == Run(p) && p < |s.procs|
    ensures Owners(Step(s, c, op))
  {
    hide Makers, Held, InstrOf, OneCpu, Owners, Runs;
    var t, ins := Step(s, c, op), InstrOf(s, p, op);
    PutInRange(s, p, op);
    RunningOk(s, c, p);
    InstrHolds(s, p, op);
    PutKeepsPcs(s, p, op);
    forall d: nat | d != c ensures HeldBy(t, d) == HeldBy(s, d) {
      OthersHold(s, t, c, p, d);
    }
    MyLocks(s, c);
    OwnersMove(s, t, c);
  }

  lemma {:induction false} RunningOk(s: State, c: nat, p: nat)
    requires States(s) && c < |s.cpus| && s.cpus[c] == Run(p) && p < |s.procs|
    ensures Runs(s, p) && OnOk(s.procs[p], p) && PcOk(s.procs[p].pc, s.procs[p].parent)
  {
  }

  lemma {:induction false} MyLocks(s: State, c: nat)
    requires Owners(s)
    ensures forall x :: x in s.owner && s.owner[x] == c <==> x in HeldBy(s, c)
  {
    hide HeldBy;
  }

  /** A thread that runs while its process's lock is free is RUNNING. */
  lemma {:induction false} FreeMeansRunning(s: State, q: nat)
    requires Owners(s) && States(s) && q < |s.procs| && Runs(s, q) && PLock(q) !in s.owner
    ensures s.procs[q].state == RUNNING
  {
    var c: nat :| c < |s.cpus| && s.cpus[c] == Run(q);
    assert StateOk(s.procs[q], q, Runs(s, q));
    assert PLock(q) !in HeldBy(s, c);
  }

  /** No step moves another running thread. */
  lemma {:induction false} PutKeepsPcs(s: State, p: nat, op: Op)
    requires Basic(s) && p < |s.procs|
    ensures var ins := InstrOf(s, p, op); ins.Put? && ins.i != p && ins.i < |s.procs| && Runs(s, ins.i) ==>
              ins.proc.pc == s.procs[ins.i].pc
  {
    hide Runs, Owners, OneCpu, Makers, States;
    var ins := InstrOf(s, p, op);
    if ins.Put? && ins.i != p && ins.i < |s.procs| && Runs(s, ins.i) && PLock(ins.i) !in s.owner {
      FreeMeansRunning(s, ins.i);
    }
  }

  // ---- States are kept -----------------------------------------------------------------------

  /** Two running threads that hold the same lock are one. */
  lemma {:induction false} OneHolder(s: State, p: nat, q: nat, x: LockId)
    requires Owners(s) && p < |s.procs| && q < |s.procs| && Runs(s, p) && Runs(s, q)
    requires x in Held(s.procs[p].pc, p) && x in Held(s.procs[q].pc, q)
    ensures p == q
  {
    hide Held;
    var c: nat :| c < |s.cpus| && s.cpus[c] == Run(p);
    var d: nat :| d < |s.cpus| && s.cpus[d] == Run(q);
    assert x in HeldBy(s, c) && x in HeldBy(s, d);
    assert s.owner[x] == c && s.owner[x] == d;
  }

  /** What a step does to another process leaves that process in order. */
  lemma {:induction false} PutOk(s: State, p: nat, op: Op)
    requires Basic(s) && p < |s.procs| && Runs(s, p)
    ensures var ins := InstrOf(s, p, op); ins.Put? && ins.i != p ==>
              ins.i < |s.procs| && StateOk(ins.proc, ins.i, Runs(s, ins.i))
  {
    hide Runs, Owners, OneCpu, Held, States, Makers, ChoiceOf, WakeOne, ScanOne, ReparentOne, ForkOne;
    var ins := InstrOf(s, p, op);
    PutInRange(s, p, op);
    if ins.Put? && ins.i != p {
      var i := ins.i;
      ThisOk(s, i);
      if Runs(s, i) && PLock(i) !in s.owner {
        FreeMeansRunning(s, i);
      }
      match s.procs[p].pc
      case User => ChoicePut(s, p, op);
      case Waking(ch, j, ret) => WakePut(s, p, ch, j, ret);
      case WtScan(k, have) => ScanPut(s, p, k, have);
      case ExReparent(k) => ReparentPut(s, p, k);
      case FkParent(q) => MadeIsUsed(s, p, q); ThisOk(s, q); ForkPut(s, p, q);
      case FkReady(q) => MadeIsUsed(s, p, q); ThisOk(s, q); ForkPut(s, p, q);
      case _ =>
    }
  }

  lemma ThisOk(s: State, i: nat)
    requires States(s) && i < |s.procs|
    ensures StateOk(s.procs[i], i, Runs(s, i))
  {
  }

  lemma MadeIsUsed(s: State, p: nat, q: nat)
    requires Makers(s) && p < |s.procs| && Making(s.procs[p].pc) == q
    ensures q < |s.procs| && s.procs[q].state == USED
  {
  }

  /** In a step that looks at a process under its free lock, a running process is RUNNING. */
  ghost predicate Settled(s: State, i: nat) {
    i < |s.procs| && StateOk(s.procs[i], i, Runs(s, i))
      && (Runs(s, i) && PLock(i) !in s.owner ==> s.procs[i].state == RUNNING)
  }

  lemma {:induction false} ChoicePut(s: State, p: nat, op: Op)
    requires p < |s.procs| && ChoiceOf(s, p, op).Put? && Settled(s, ChoiceOf(s, p, op).i)
    ensures var ins := ChoiceOf(s, p, op); StateOk(ins.proc, ins.i, Runs(s, ins.i))
  {
    hide Runs;
  }

  lemma {:induction false} WakePut(s: State, p: nat, ch: Chan, j: nat, ret: Pc)
    requires WakeOne(s, p, ch, j, ret).Put? && Settled(s, WakeOne(s, p, ch, j, ret).i)
    ensures var ins := WakeOne(s, p, ch, j, ret); StateOk(ins.proc, ins.i, Runs(s, ins.i))
  {
    hide Runs;
  }

  lemma {:induction false} ScanPut(s: State, p: nat, k: nat, have: bool)
    requires p < |s.procs| && ScanOne(s, p, k, have).Put? && Settled(s, ScanOne(s, p, k, have).i)
    ensures var ins := ScanOne(s, p, k, have); StateOk(ins.proc, ins.i, Runs(s, ins.i))
  {
    hide Runs;
  }

  /** A child in the middle of exit would hold wait_lock, which its parent holds here. */
  lemma {:induction false} ReparentPut(s: State, p: nat, k: nat)
    requires Owners(s) && p < |s.procs| && Runs(s, p) && s.procs[p].pc == ExReparent(k)
    requires var ins := ReparentOne(s, p, k); ins.Put? && ins.i != p && Settled(s, ins.i)
    ensures var ins := ReparentOne(s, p, k); StateOk(ins.proc, ins.i, Runs(s, ins.i))
  {
    hide Runs, Owners;
    var i := ReparentOne(s, p, k).i;
    var pc := s.procs[i].pc;
    if Runs(s, i) && pc.Waking? && pc.ret.ExTakeP? {
      assert WaitLock in Held(ExTakeP, i);
      assert WaitLock in Held(pc, i);
      assert WaitLock in Held(s.procs[p].pc, p);
      OneHolder(s, p, i, WaitLock);
    }
  }

  lemma {:induction false} ForkPut(s: State, p: nat, q: nat)
    requires p < |s.procs| && q < |s.procs| && s.procs[q].state == USED && StateOk(s.procs[q], q, Runs(s, q))
    requires s.procs[p].pc == FkParent(q) || s.procs[p].pc == FkReady(q)
    ensures var ins := ForkOne(s, p, q, s.procs[p].pc); ins.Put? ==> ins.i == q && StateOk(ins.proc, q, Runs(s, q))
  {
    hide Runs;
  }

  /** The stepping process after its instruction. */
  function Own(ins: Instr, me: Proc, p: nat): Proc {
    match ins
    case Spin => me
    case Put(i, proc, next) => (if i == p then proc else me).(pc := next)
    case _ => me.(pc := ins.next)
  }

  /** The thread that steps is in order afterwards, running or switched out. */
  ghost predicate OwnOk(ins: Instr, me: Proc, p: nat) {
    StateOk(Own(ins, me, p), p, !ins.Swtch?)
  }

  lemma {:induction false} SelfOk(s: State, p: nat, op: Op)
    requires p < |s.procs| && OnOk(s.procs[p], p) && Making(s.procs[p].pc) != p
    ensures OwnOk(InstrOf(s, p, op), s.procs[p], p)
  {
    hide ChoiceOf, WakeOne, ScanOne, ReparentOne, ForkOne, Line, OwnOk;
    var me := s.procs[p];
    PreemptOwn(me, p);
    match me.pc
    case User => ChoiceOwn(s, p, op);
    case Waking(ch, j, ret) => WakeOwn(s, p, ch, j, ret);
    case WtScan(i, have) => ScanOwn(s, p, i, have);
    case ExReparent(i) => ReparentOwn(s, p, i);
    case FkParent(q) => ForkOwn(s, p, q);
    case FkReady(q) => ForkOwn(s, p, q);
    case _ => LineOwn(s, p);
  }

  lemma PreemptOwn(me: Proc, p: nat)
    requires OnOk(me, p)
    ensures Saved(me.pc) ==> OwnOk(Goto(YdTakeP(me.pc)), me, p)
  {
  }

  lemma ChoiceOwn(s: State, p: nat, op: Op)
    requires p < |s.procs| && s.procs[p].pc.User? && OnOk(s.procs[p], p)
    ensures OwnOk(ChoiceOf(s, p, op), s.procs[p], p)
  {
  }

  lemma WakeOwn(s: State, p: nat, ch: Chan, j: nat, ret: Pc)
    requires p < |s.procs| && s.procs[p].pc == Waking(ch, j, ret) && OnOk(s.procs[p], p)
    ensures OwnOk(WakeOne(s, p, ch, j, ret), s.procs[p], p)
  {
  }

  lemma ScanOwn(s: State, p: nat, i: nat, have: bool)
    requires p < |s.procs| && s.procs[p].pc == WtScan(i, have) && OnOk(s.procs[p], p)
    ensures OwnOk(ScanOne(s, p, i, have), s.procs[p], p)
  {
  }

  lemma ReparentOwn(s: State, p: nat, i: nat)
    requires p < |s.procs| && s.procs[p].pc == ExReparent(i) && OnOk(s.procs[p], p)
    ensures OwnOk(ReparentOne(s, p, i), s.procs[p], p)
  {
  }

  lemma ForkOwn(s: State, p: nat, q: nat)
    requires p < |s.procs| && q != p && (s.procs[p].pc == FkParent(q) || s.procs[p].pc == FkReady(q))
             && OnOk(s.procs[p], p)
    ensures OwnOk(ForkOne(s, p, q, s.procs[p].pc), s.procs[p], p)
  {
  }

  lemma LineOwn(s: State, p: nat)
    requires p < |s.procs| && OnOk(s.procs[p], p)
    ensures OwnOk(Line(s, p, s.procs[p]), s.procs[p], p)
  {
  }

  // ---- A thread's step keeps everything --------------------------------------------------------

  lemma {:induction false} OwnAfter(s: State, c: nat, p: nat, op: Op)
    requires p < |s.procs| && c < |s.cpus| && s.cpus[c] == Run(p)
    ensures var t, ins := Step(s, c, op), InstrOf(s, p, op);
            && |t.procs| == |s.procs| && |t.cpus| == |s.cpus|
            && t.cpus == (if ins.Swtch? then s.cpus[c := Back(p)] else s.cpus)
            && t.procs[p] == (if ins.Acquire? && ins.lock in s.owner then s.procs[p] else Own(ins, s.procs[p], p))
            && (ins.Put? ==> ins.i < |s.procs|)
            && (forall q: nat :: q < |s.procs| && q != p ==>
                    t.procs[q] == if ins.Put? && ins.i == q then ins.proc else s.procs[q])
  {
    hide InstrOf;
    PutInRange(s, p, op);
  }

  lemma {:induction false} RunsAfter(s: State, c: nat, p: nat, op: Op, q: nat)
    requires OneCpu(s) && p < |s.procs| && c < |s.cpus| && s.cpus[c] == Run(p)
    ensures Runs(Step(s, c, op), q) <==> Runs(s, q) && !(q == p && InstrOf(s, p, op).Swtch?)
  {
    hide InstrOf, Step;
    var t := Step(s, c, op);
    OwnAfter(s, c, p, op);
    if Runs(s, q) && q != p {
      var d: nat :| d < |s.cpus| && s.cpus[d] == Run(q);
      assert t.cpus[d] == Run(q);
    }
    if Runs(t, q) {
      var d: nat :| d < |t.cpus| && t.cpus[d] == Run(q);
      assert d != c ==> s.cpus[d] == Run(q);
    }
    if q == p && !InstrOf(s, p, op).Swtch? {
      assert t.cpus[c] == Run(p);
    }
  }

  lemma {:induction false} ThreadStates(s: State, c: nat, p: nat, op: Op)
    requires Basic(s) && c < |s.cpus| && s.cpus[c] == Run(p) && p < |s.procs|
    ensures States(Step(s, c, op)) && OneCpu(Step(s, c, op))
  {
    hide InstrOf, Step, Runs, StateOk, Owners, Makers, Own;
    var t := Step(s, c, op);
    RunningOk(s, c, p);
    MakesAnother(s, p);
    SelfOk(s, p, op);
    OwnAfter(s, c, p, op);
    PutOk(s, p, op);
    forall q: nat | q < |t.procs| ensures StateOk(t.procs[q], q, Runs(t, q)) {
      RunsAfter(s, c, p, op, q);
      ThisOk(s, q);
    }
  }

  lemma MakesAnother(s: State, p: nat)
    requires Makers(s) && p < |s.procs| && OnOk(s.procs[p], p)
    ensures Making(s.procs[p].pc) != p
  {
  }

  /** Processes under construction along one instruction. */
  ghost predicate MakeOk(s: State, p: nat, ins: Instr)
    requires p < |s.procs|
  {
    var m, n := Making(s.procs[p].pc), Making(Own(ins, s.procs[p], p).pc);
    && (n == m || n == -1
          || (m == -1 && ins.Put? && ins.i == n && n < |s.procs| && s.procs[n].state == UNUSED
          && ins.proc.state == USED))
    && (ins.Put? && ins.i < |s.procs| && ins.i != p ==>
          && (s.procs[ins.i].state == USED ==> ins.proc.state == USED || (m == ins.i && n == -1))
          && (Making(ins.proc.pc) == -1 || Making(ins.proc.pc) == Making(s.procs[ins.i].pc)))
  }

  lemma {:induction false} MakeStep(s: State, p: nat, op: Op)
    requires p < |s.procs| && OnOk(s.procs[p], p) && Making(s.procs[p].pc) != p
    ensures MakeOk(s, p, InstrOf(s, p, op))
  {
    hide ChoiceOf, WakeOne, ScanOne, ReparentOne, ForkOne, Line, MakeOk;
    var me := s.procs[p];
    PreemptMakes(s, p);
    match me.pc
    case User => ChoiceMakes(s, p, op);
    case Waking(ch, j, ret) => LoopMakes(s, p);
    case WtScan(i, have) => LoopMakes(s, p);
    case ExReparent(i) => LoopMakes(s, p);
    case FkParent(q) => ForkMakes(s, p, q);
    case FkReady(q) => ForkMakes(s, p, q);
    case _ => LineMakes(s, p);
  }

  lemma PreemptMakes(s: State, p: nat)
    requires p < |s.procs| && OnOk(s.procs[p], p)
    ensures Saved(s.procs[p].pc) ==> MakeOk(s, p, Goto(YdTakeP(s.procs[p].pc)))
  {
  }

  lemma ChoiceMakes(s: State, p: nat, op: Op)
    requires p < |s.procs| && s.procs[p].pc.User? && OnOk(s.procs[p], p)
    ensures MakeOk(s, p, ChoiceOf(s, p, op))
  {
  }

  lemma {:induction false} LoopMakes(s: State, p: nat)
    requires p < |s.procs| && OnOk(s.procs[p], p)
    ensures match s.procs[p].pc
            case Waking(ch, j, ret) => MakeOk(s, p, WakeOne(s, p, ch, j, ret))
            case WtScan(i, have) => MakeOk(s, p, ScanOne(s, p, i, have))
            case ExReparent(i) => MakeOk(s, p, ReparentOne(s, p, i))
            case _ => true
  {
  }

  lemma ForkMakes(s: State, p: nat, q: nat)
    requires p < |s.procs| && q != p && (s.procs[p].pc == FkParent(q) || s.procs[p].pc == FkReady(q))
    ensures MakeOk(s, p, ForkOne(s, p, q, s.procs[p].pc))
  {
  }

  lemma LineMakes(s: State, p: nat)
    requires p < |s.procs| && OnOk(s.procs[p], p)
    ensures MakeOk(s, p, Line(s, p, s.procs[p]))
  {
  }

  lemma {:induction false} ThreadMakers(s: State, c: nat, p: nat, op: Op)
    requires Basic(s) && c < |s.cpus| && s.cpus[c] == Run(p) && p < |s.procs|
    ensures Makers(Step(s, c, op))
  {
    hide InstrOf, Step, Runs, Owners, OneCpu, States, OffOk, Own, Held, PcOk;
    RunningOk(s, c, p);
    MakesAnother(s, p);
    MakeStep(s, p, op);
    OwnAfter(s, c, p, op);
    SelfOk(s, p, op);
  }

  // ---- The scheduler's own steps -----------------------------------------------------------------

  /** CPU c takes up process i. */
  ghost predicate Dispatches(s: State, c: nat) {
    c < |s.cpus| && s.cpus[c].Scan? && s.cpus[c].i < |s.procs| && PLock(s.cpus[c].i) !in s.owner
      && s.procs[s.cpus[c].i].state == RUNNABLE
  }

  /** A RUNNABLE process with a free lock is on no CPU. */
  lemma {:induction false} RunnableIsOff(s: State, i: nat)
    requires Basic(s) && i < |s.procs| && PLock(i) !in s.owner && s.procs[i].state == RUNNABLE
    ensures forall c: nat :: c < |s.cpus| && !s.cpus[c].Scan? ==> s.cpus[c].p != i
    ensures !Runs(s, i)
  {
    hide Makers;
    if Runs(s, i) {
      FreeMeansRunning(s, i);
      assert false;
    }
    forall c: nat | c < |s.cpus| && !s.cpus[c].Scan? ensures s.cpus[c].p != i {
      if s.cpus[c].Back? {
        assert PLock(s.cpus[c].p) in HeldBy(s, c);
      }
    }
  }

  lemma {:induction false} DispatchKeepsBasic(s: State, c: nat, op: Op)
    requires Basic(s) && Dispatches(s, c)
    ensures Basic(Step(s, c, op))
  {
    hide PcOk, Making;
    var t, i := Step(s, c, op), s.cpus[c].i;
    RunnableIsOff(s, i);
    ThisOk(s, i);
    DispatchOwners(s, c, op);
    forall q: nat | q < |s.procs| ensures StateOk(t.procs[q], q, Runs(t, q)) {
      ThisOk(s, q);
      if q == i {
        assert t.cpus[c] == Run(i);
      } else {
        DispatchRuns(s, c, op, q);
      }
    }
  }

  lemma {:induction false} DispatchRuns(s: State, c: nat, op: Op, q: nat)
    requires Dispatches(s, c) && q != s.cpus[c].i
    ensures Runs(Step(s, c, op), q) == Runs(s, q)
  {
    var t := Step(s, c, op);
    if Runs(s, q) {
      var d: nat :| d < |s.cpus| && s.cpus[d] == Run(q);
      assert t.cpus[d] == Run(q);
    }
    if Runs(t, q) {
      var d: nat :| d < |t.cpus| && t.cpus[d] == Run(q);
      assert s.cpus[d] == Run(q);
    }
  }

  lemma {:induction false} DispatchOwners(s: State, c: nat, op: Op)
    requires Basic(s) && Dispatches(s, c)
    requires forall d: nat :: d < |s.cpus| && !s.cpus[d].Scan? ==> s.cpus[d].p != s.cpus[c].i
    requires OffOk(s.procs[s.cpus[c].i], s.cpus[c].i)
    ensures Owners(Step(s, c, op))
  {
    hide Makers, States, PcOk, Owners;
    var t, i := Step(s, c, op), s.cpus[c].i;
    assert HeldBy(t, c) == {PLock(i)};
    MyLocks(s, c);
    forall d: nat | d != c ensures HeldBy(t, d) == HeldBy(s, d) {
    }
    OwnersMove(s, t, c);
  }

  lemma {:induction false} BackKeepsBasic(s: State, c: nat, op: Op)
    requires Basic(s) && c < |s.cpus| && !s.cpus[c].Run? && !Dispatches(s, c)
    ensures Basic(Step(s, c, op))
  {
    hide PcOk, Making, Owners, StateOk;
    var t := Step(s, c, op);
    assert t.procs == s.procs;
    assert Owners(t) by {
      MyLocks(s, c);
      assert forall d: nat :: d != c ==> HeldBy(t, d) == HeldBy(s, d);
      OwnersMove(s, t, c);
    }
    forall q: nat ensures Runs(t, q) == Runs(s, q) {
      SameRuns(s, t, c, q);
    }
  }

  lemma {:induction false} SameRuns(s: State, t: State, c: nat, q: nat)
    requires c < |s.cpus| == |t.cpus| && !s.cpus[c].Run? && !t.cpus[c].Run? && forall d: nat ::
               d < |s.cpus| && d != c ==> t.cpus[d] == s.cpus[d]
    ensures Runs(t, q) == Runs(s, q)
  {
    if Runs(s, q) {
      var d: nat :| d < |s.cpus| && s.cpus[d] == Run(q);
      assert t.cpus[d] == Run(q);
    }
    if Runs(t, q) {
      var d: nat :| d < |t.cpus| && t.cpus[d] == Run(q);
      assert s.cpus[d] == Run(q);
    }
  }

  /** Every step of every CPU keeps the basic invariant. */
  lemma {:induction false} StepKeepsBasic(s: State, c: nat, op: Op)
    requires Basic(s)
    ensures Basic(Step(s, c, op)) && |Step(s, c, op).procs| == |s.procs| && |Step(s, c, op).cpus| == |s.cpus|
  {
    hide Owners, States, Makers, InstrOf, Exec;
    if c < |s.cpus| {
      if s.cpus[c].Run? {
        var p := s.cpus[c].p;
        ThreadOwners(s, c, p, op);
        ThreadStates(s, c, p, op);
        ThreadMakers(s, c, p, op);
        OwnAfter(s, c, p, op);
      } else if Dispatches(s, c) {
        DispatchKeepsBasic(s, c, op);
      } else {
        BackKeepsBasic(s, c, op);
      }
    }
  }

  lemma {:induction false} BootIsBasic(n: nat, m: nat)
    ensures Basic(Boot(n, m))
  {
    var s := Boot(n, m);
    forall q: nat | q < n ensures StateOk(s.procs[q], q, Runs(s, q)) {
      assert !Runs(s, q);
    }
  }
}
