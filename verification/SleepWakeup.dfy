/** No wakeup is lost, on every run of the scheduling model. */
module SleepWakeup {
  import opened Scheduling
  import opened SchedulingInv

  // ---- The invariant ------------------------------------------------------------------------

  /** p has given up its lock in sleep and has not been woken since. */
  predicate Asleep(s: State, p: nat, k: Client) {
    p < |s.procs| && Sleeps(s.procs[p], k)
  }

  predicate Sleeps(pr: Proc, k: Client) {
    pr.pc == SlMark(k) || (pr.state == SLEEPING && (pr.pc == SlSwtch(k) || pr.pc == SlResumed(k)))
  }

  /** The holder of lock x is in a wakeup of ch that has not passed p yet. */
  predicate WakerAt(s: State, x: LockId, ch: Chan, p: nat) {
    x in s.owner && s.owner[x] < |s.cpus| && s.cpus[s.owner[x]].Run? &&
    var r := s.cpus[s.owner[x]].p;
    r < |s.procs| && s.procs[r].pc.Waking? && s.procs[r].pc.ch == ch && s.procs[r].pc.j <= p
  }

  /** Sleep lock l, as p sees it. */
  ghost predicate SleepOk(s: State, p: nat, l: nat)
    requires p < |s.procs|
  {
    && (s.procs[p].pc == SlTakeP(Acq(l)) || s.procs[p].pc == SlDropLk(Acq(l)) ==> l in s.locked)
    && (Asleep(s, p, Acq(l)) && l !in s.locked ==> WakerAt(s, SLock(l), LockChan(l), p))
  }

  predicate ZombieOf(s: State, p: nat, j: nat) {
    j < |s.procs| && s.procs[j].parent == p && s.procs[j].state == ZOMBIE
  }

  ghost predicate NoZombie(s: State, p: nat, n: nat) {
    forall j: nat :: j < n ==> !ZombieOf(s, p, j)
  }

  /** wait and exit, as p sees them. */
  ghost predicate WaitOk(s: State, p: nat)
    requires p < |s.procs|
  {
    var pr := s.procs[p];
    && (pr.pc.WtScan? ==> NoZombie(s, p, pr.pc.i))
    && (pr.pc == SlTakeP(Waiting) || pr.pc == SlDropLk(Waiting) ==> NoZombie(s, p, |s.procs|))
    && (Asleep(s, p, Waiting) && !NoZombie(s, p, |s.procs|) ==> WakerAt(s, WaitLock, ChildChan(p), p))
    && (pr.pc.Waking? && pr.pc.ch.ChildChan? && 0 <= pr.pc.ch.q < pr.pc.j ==> !Asleep(s, pr.pc.ch.q, Waiting))
    && ((pr.pc.ExTakeP? || pr.pc.ExMark?) && 0 <= pr.parent ==> !Asleep(s, pr.parent, Waiting))
  }

  ghost predicate Inv(s: State) {
    && Basic(s)
    && (forall p: nat, l: nat :: p < |s.procs| ==> SleepOk(s, p, l))
    && (forall p: nat :: p < |s.procs| ==> WaitOk(s, p))
  }

  // ---- Wakers -------------------------------------------------------------------------------

  /** A step of p's thread on CPU c. */
  ghost predicate Steps(s: State, c: nat, p: nat) {
    Basic(s) && c < |s.cpus| && s.cpus[c] == Run(p) && p < |s.procs|
  }

  lemma {:induction false} OwnerStays(s: State, c: nat, p: nat, op: Op, x: LockId)
    requires Steps(s, c, p) && x in s.owner && s.owner[x] != c
    ensures var t := Step(s, c, op); x in t.owner && t.owner[x] == s.owner[x]
  {
    hide InstrOf, States, Makers, OneCpu, Held, Runs;
    PutInRange(s, p, op);
    RunningOk(s, c, p);
    InstrHolds(s, p, op);
    MyLocks(s, c);
  }

  /** A waker stays at work until it passes q. */
  lemma {:induction false} WakerStays(s: State, c: nat, p: nat, op: Op, x: LockId, ch: Chan, q: nat)
    requires Steps(s, c, p) && q < |s.procs| && WakerAt(s, x, ch, q)
    ensures WakerAt(Step(s, c, op), x, ch, q) || Passes(s, c, p, op, ch, q)
  {
    hide InstrOf, States, Makers, Owners, Held, Runs, Step;
    var t := Step(s, c, op);
    OwnAfter(s, c, p, op);
    if s.owner[x] == c {
      WakingStep(s, c, p, op, x);
    } else {
      OwnerStays(s, c, p, op, x);
      OtherPc(s, c, p, op, s.owner[x]);
    }
  }

  ghost predicate Passes(s: State, c: nat, p: nat, op: Op, ch: Chan, q: nat) {
    p < |s.procs| && s.procs[p].pc.Waking? && s.procs[p].pc.ch == ch && s.procs[p].pc.j == q &&
    var t := Step(s, c, op);
    p < |t.procs| && t.procs[p].pc == Waking(ch, q + 1, s.procs[p].pc.ret)
  }

  lemma {:induction false} WakingStep(s: State, c: nat, p: nat, op: Op, x: LockId)
    requires Steps(s, c, p) && s.procs[p].pc.Waking? && x in s.owner && s.owner[x] == c && s.procs[p].pc.j < |s.procs|
    ensures var t, pc := Step(s, c, op), s.procs[p].pc;
            && x in t.owner && t.owner[x] == c && t.cpus == s.cpus && |t.procs| == |s.procs|
            && (t.procs[p].pc == pc || t.procs[p].pc == Waking(pc.ch, pc.j + 1, pc.ret))
  {
    hide States, Makers, Owners, Held, Runs, OneCpu;
    PutInRange(s, p, op);
  }

  lemma {:induction false} OtherPc(s: State, c: nat, p: nat, op: Op, d: nat)
    requires Steps(s, c, p) && d < |s.cpus| && d != c && s.cpus[d].Run? && s.cpus[d].p < |s.procs|
    ensures var t := Step(s, c, op); |t.cpus| == |s.cpus| && t.cpus[d] == s.cpus[d] && |t.procs| == |s.procs|
    ensures s.cpus[d].p != p && Step(s, c, op).procs[s.cpus[d].p].pc == s.procs[s.cpus[d].p].pc
  {
    hide InstrOf, States, Makers, Owners, Held, Step;
    var r := s.cpus[d].p;
    assert Runs(s, r);
    OwnAfter(s, c, p, op);
    PutKeepsPcs(s, p, op);
  }

  /** A wakeup that passes q leaves q awake on its channel. */
  lemma {:induction false} PassedIsAwake(s: State, c: nat, p: nat, op: Op, q: nat, k: Client)
    requires Steps(s, c, p) && q < |s.procs| && Passes(s, c, p, op, ChanOf(k, q), q)
    ensures !Asleep(Step(s, c, op), q, k)
  {
    hide States, Makers, Owners, Held, Runs, OneCpu;
    var t := Step(s, c, op);
    PutInRange(s, p, op);
    ThisOk(s, q);
    if q != p && Asleep(s, q, k) {
      AsleepIsOff(s, q, k);
    }
  }

  /** With its lock free, a sleeper is off the CPU and shows its channel. */
  lemma {:induction false} AsleepIsOff(s: State, q: nat, k: Client)
    requires Basic(s) && Asleep(s, q, k)
    ensures PLock(q) !in s.owner ==>
              s.procs[q].state == SLEEPING && s.procs[q].pc == SlResumed(k) && s.procs[q].chan == ChanOf(k, q)
    ensures s.procs[q].pc == SlMark(k) ==> Runs(s, q)
  {
    hide Makers, Owners, Runs, OneCpu;
    ThisOk(s, q);
    if Runs(s, q) && PLock(q) !in s.owner {
      FreeMeansRunning(s, q);
      RunningHeld(s, q);
    }
  }

  lemma {:induction false} RunningHeld(s: State, q: nat)
    requires Owners(s) && q < |s.procs| && Runs(s, q)
    ensures Held(s.procs[q].pc, q) <= s.owner.Keys
  {
    var c: nat :| c < |s.cpus| && s.cpus[c] == Run(q);
    forall x | x in Held(s.procs[q].pc, q) ensures x in s.owner.Keys {
      assert x in HeldBy(s, c);
    }
  }

  // ---- What one step can change -----------------------------------------------------------------

  /** A step touches another process only by waking, killing, adopting, making or reaping it. */
  lemma {:induction false} OtherAfter(s: State, c: nat, p: nat, op: Op, q: nat)
    requires Steps(s, c, p) && q < |s.procs| && q != p
    ensures var t := Step(s, c, op);
            && |t.procs| == |s.procs|
            && (t.procs[q].pc == s.procs[q].pc || t.procs[q].pc.ForkRet? || t.procs[q].pc.Dead?)
            && (t.procs[q].state == s.procs[q].state || (t.procs[q].state != SLEEPING && t.procs[q].state != ZOMBIE))
            && (t.procs[q].parent == s.procs[q].parent || s.procs[p].pc == FkParent(q)
                  || s.procs[p].pc == ExReparent(q) || t.procs[q].parent == -1)
            && (s.procs[p].pc == ExReparent(q) && t.procs[q].parent != s.procs[q].parent ==>
                  t.procs[q].parent == INIT && t.procs[p].pc.Waking? && t.procs[p].pc.ch == ChildChan(INIT)
                    && t.procs[p].pc.j == 0)
  {
    hide States, Makers, Owners, Held, Runs, OneCpu, Line, Step;
    OwnAfter(s, c, p, op);
    LinePutsSelf(s, p);
  }

  lemma LinePutsSelf(s: State, p: nat)
    requires p < |s.procs|
    ensures var ins := Line(s, p, s.procs[p]); ins.Put? ==> ins.i == p
  {
  }

  lemma {:induction false} LockedAfter(s: State, c: nat, p: nat, op: Op)
    requires Steps(s, c, p)
    ensures var t, pc := Step(s, c, op), s.procs[p].pc;
            && (pc.AsTake? ==> t.locked == s.locked + {pc.l})
            && (pc.RsClear? ==>
                  && t.locked == s.locked - {pc.l} && t.procs[p].pc == Waking(LockChan(pc.l), 0, RsRelease(pc.l))
                  && t.owner == s.owner && t.cpus == s.cpus)
            && (!pc.AsTake? && !pc.RsClear? ==> t.locked == s.locked)
  {
    hide States, Makers, Owners, Held, Runs, OneCpu, ChoiceOf, WakeOne, ScanOne, ReparentOne, ForkOne;
    PutInRange(s, p, op);
    LoopsKeepLocked(s, p, op);
  }

  lemma {:induction false} LoopsKeepLocked(s: State, p: nat, op: Op)
    requires p < |s.procs|
    ensures !ChoiceOf(s, p, op).SetLocked?
    ensures forall ch, j, ret :: !WakeOne(s, p, ch, j, ret).SetLocked?
    ensures forall i, have :: !ScanOne(s, p, i, have).SetLocked?
    ensures forall i :: !ReparentOne(s, p, i).SetLocked?
    ensures forall q, pc :: !ForkOne(s, p, q, pc).SetLocked?
  {
  }

  /** How a thread comes to the places that the invariant speaks of, loops aside. */
  ghost predicate Comes(locked: set<nat>, a: Proc, b: Proc) {
    && b.parent == a.parent
    && (forall k :: b.pc == SlTakeP(k) ==> b == a || (k.Acq? && k.l in locked))
    && (forall k :: b.pc == SlDropLk(k) ==> b == a || a.pc == SlTakeP(k))
    && (forall k :: Sleeps(b, k) ==> Sleeps(a, k) || a.pc == SlDropLk(k))
    && (b.pc.WtScan? ==> b == a || b.pc.i == 0)
    && (b.pc.Waking? ==> b == a || (b.pc.ch.LockChan? && b.pc.j == 0))
    && (b.pc.ExTakeP? ==> b == a) && (b.pc.ExMark? ==> b == a || a.pc.ExTakeP?)
    && (b.state == ZOMBIE ==> a.state == ZOMBIE || a.pc.ExMark?)
  }

  lemma {:induction false} SelfAfter(s: State, c: nat, p: nat, op: Op)
    requires Steps(s, c, p) && !s.procs[p].pc.Waking? && !s.procs[p].pc.WtScan? && !s.procs[p].pc.ExReparent?
    ensures |Step(s, c, op).procs| == |s.procs| && Comes(s.locked, s.procs[p], Step(s, c, op).procs[p])
  {
    hide States, Makers, Owners, Held, Runs, OneCpu, Comes, Own, Line, ForkOne, ChoiceOf, Step;
    var me := s.procs[p];
    RunningOk(s, c, p);
    MakesAnother(s, p);
    OwnAfter(s, c, p, op);
    ComesNone(s.locked, me);
    ComesPreempted(s.locked, me, p);
    match me.pc
    case User => ComesChoice(s, p, op);
    case FkParent(q) => ComesFork(s, p, q);
    case FkReady(q) => ComesFork(s, p, q);
    case _ => ComesLine(s, p);
  }

  lemma ComesNone(locked: set<nat>, a: Proc)
    ensures Comes(locked, a, a)
  {
  }

  lemma ComesPreempted(locked: set<nat>, a: Proc, p: nat)
    requires OnOk(a, p)
    ensures Saved(a.pc) ==> Comes(locked, a, Own(Goto(YdTakeP(a.pc)), a, p))
  {
  }

  lemma ComesChoice(s: State, p: nat, op: Op)
    requires p < |s.procs| && s.procs[p].pc.User? && OnOk(s.procs[p], p)
    ensures Comes(s.locked, s.procs[p], Own(ChoiceOf(s, p, op), s.procs[p], p))
  {
  }

  lemma ComesFork(s: State, p: nat, q: nat)
    requires p < |s.procs| && q != p && (s.procs[p].pc == FkParent(q) || s.procs[p].pc == FkReady(q))
             && OnOk(s.procs[p], p)
    ensures Comes(s.locked, s.procs[p], Own(ForkOne(s, p, q, s.procs[p].pc), s.procs[p], p))
  {
  }

  lemma {:induction false} ComesLine(s: State, p: nat)
    requires p < |s.procs| && OnOk(s.procs[p], p)
    ensures Comes(s.locked, s.procs[p], Own(Line(s, p, s.procs[p]), s.procs[p], p))
  {
  }

  /** The three loops: wakeup, wait's scan and reparent. */
  lemma {:induction false} LoopAfter(s: State, c: nat, p: nat, op: Op)
    requires Steps(s, c, p)
    ensures var t, a := Step(s, c, op), s.procs[p]; |t.procs| == |s.procs| && var b := t.procs[p];
            match a.pc
            case Waking(ch, j, ret) =>
              b == a || b == a.(pc := Waking(ch, j + 1, ret)) || (j >= |s.procs| && b == a.(pc := ret))
            case WtScan(i, have) =>
              || b == a || b == a.(pc := WtRelease) || (i >= |s.procs| && b == a.(pc := SlTakeP(Waiting)))
              || (b.pc.WtScan? && b.pc.i == i + 1 && b == a.(pc := b.pc) && !ZombieOf(s, p, i))
            case ExReparent(i) =>
              b.state == a.state && ((b.pc.Waking? && b.pc.j == 0) || b == a.(pc := ExReparent(i + 1)))
            case _ => true
  {
    hide States, Makers, Owners, Held, Runs, OneCpu, Line, Step, ChoiceOf;
    RunningOk(s, c, p);
    OwnAfter(s, c, p, op);
  }

  // ---- Sleep locks -----------------------------------------------------------------------------

  lemma {:induction false} PlacedRuns(s: State, q: nat)
    requires States(s) && q < |s.procs|
    requires var pc := s.procs[q].pc; !pc.YdResumed? && !pc.SlResumed? && !pc.ForkRet? && !pc.Dead?
    ensures Runs(s, q)
  {
    hide Runs;
    ThisOk(s, q);
  }

  /** A sleeper was asleep before, or p has just let go of its lock. */
  lemma {:induction false} AsleepBefore(s: State, c: nat, p: nat, op: Op, q: nat, k: Client)
    requires Steps(s, c, p) && Asleep(Step(s, c, op), q, k)
    ensures Asleep(s, q, k) || (q == p && s.procs[p].pc == SlDropLk(k))
  {
    hide States, Makers, Owners, Held, Runs, OneCpu, Step, InstrOf;
    LoopAfter(s, c, p, op);
    if q != p {
      OtherAfterAny(s, c, p, op, q);
    } else if !s.procs[p].pc.Waking? && !s.procs[p].pc.WtScan? && !s.procs[p].pc.ExReparent? {
      SelfAfter(s, c, p, op);
    } else {
      RunningOk(s, c, p);
    }
  }

  lemma {:induction false} OtherAfterAny(s: State, c: nat, p: nat, op: Op, q: nat)
    requires Steps(s, c, p) && q != p
    ensures |Step(s, c, op).procs| == |s.procs|
    ensures q < |s.procs| ==> forall k :: Sleeps(Step(s, c, op).procs[q], k) ==> Sleeps(s.procs[q], k)
  {
    hide States, Makers, Owners, Held, Runs, OneCpu, Step, InstrOf;
    LoopAfter(s, c, p, op);
    if q < |s.procs| {
      OtherAfter(s, c, p, op, q);
    }
  }

  lemma {:induction false} KeepsSleepOk(s: State, c: nat, p: nat, op: Op, q: nat, l: nat)
    requires Inv(s) && Steps(s, c, p) && q < |s.procs|
    ensures |Step(s, c, op).procs| == |s.procs| && SleepOk(Step(s, c, op), q, l)
  {
    hide Basic, States, Makers, Owners, Held, Runs, OneCpu, Step, InstrOf, WaitOk, Sleeps, Passes, WakerAt;
    var t := Step(s, c, op);
    LoopAfter(s, c, p, op);
    LockedAfter(s, c, p, op);
    assert SleepOk(s, q, l);
    if t.procs[q].pc == SlTakeP(Acq(l)) || t.procs[q].pc == SlDropLk(Acq(l)) {
      KeepsLocked(s, c, p, op, q, l);
    }
    if Asleep(t, q, Acq(l)) && l !in t.locked {
      AsleepBefore(s, c, p, op, q, Acq(l));
      if l in s.locked {
        ClearedWaker(s, c, p, op, q, l);
      } else {
        WakerStays(s, c, p, op, SLock(l), LockChan(l), q);
        if Passes(s, c, p, op, LockChan(l), q) {
          PassedIsAwake(s, c, p, op, q, Acq(l));
        }
      }
    }
  }

  /** Whoever clears the lock holds its spinlock and goes on to wake everyone. */
  lemma {:induction false} ClearedWaker(s: State, c: nat, p: nat, op: Op, q: nat, l: nat)
    requires Steps(s, c, p) && q < |s.procs| && l in s.locked && l !in Step(s, c, op).locked
    ensures WakerAt(Step(s, c, op), SLock(l), LockChan(l), q)
  {
    hide States, Makers, OneCpu, Step, InstrOf, Runs;
    LockedAfter(s, c, p, op);
    OwnAfter(s, c, p, op);
    assert SLock(l) in HeldBy(s, c);
  }

  /** On its way to sleep in acquiresleep, a thread has the spinlock and sees the lock taken. */
  lemma {:induction false} KeepsLocked(s: State, c: nat, p: nat, op: Op, q: nat, l: nat)
    requires Steps(s, c, p) && q < |s.procs| == |Step(s, c, op).procs| && SleepOk(s, q, l)
    requires var pc := Step(s, c, op).procs[q].pc; pc == SlTakeP(Acq(l)) || pc == SlDropLk(Acq(l))
    ensures l in Step(s, c, op).locked
  {
    hide States, Makers, OneCpu, Step, InstrOf, Runs, Owners;
    LockedAfter(s, c, p, op);
    if q == p {
      RunningOk(s, c, p);
      LoopAfter(s, c, p, op);
      if !s.procs[p].pc.Waking? && !s.procs[p].pc.WtScan? && !s.procs[p].pc.ExReparent? {
        SelfAfter(s, c, p, op);
      }
    } else {
      OtherAfter(s, c, p, op, q);
      if s.procs[p].pc == RsClear(l) {
        PlacedRuns(s, q);
        RunningOk(s, c, p);
        OneHolder(s, p, q, SLock(l));
      }
    }
  }

  // ---- wait and exit -----------------------------------------------------------------------------

  predicate Loops(pc: Pc) {
    pc.Waking? || pc.WtScan? || pc.ExReparent?
  }

  /** p has children by exit or by adoption only in sections under wait_lock. */
  lemma {:induction false} ZombieBefore(s: State, c: nat, p: nat, op: Op, q: nat, j: nat)
    requires Steps(s, c, p) && ZombieOf(Step(s, c, op), q, j)
    ensures || ZombieOf(s, q, j)
            || (j == p && s.procs[p].pc.ExMark? && s.procs[p].parent == q)
            || (s.procs[p].pc == ExReparent(j) && q == INIT && Step(s, c, op).procs[p].pc.Waking?
                && Step(s, c, op).procs[p].pc.ch == ChildChan(INIT) && Step(s, c, op).procs[p].pc.j == 0)
  {
    hide States, Makers, Owners, Held, Runs, OneCpu, Step, InstrOf, Basic;
    LoopAfter(s, c, p, op);
    RunningOkB(s, c, p);
    if j != p {
      OtherAfter(s, c, p, op, j);
      if s.procs[p].pc == FkParent(j) {
        MadeIsUsedB(s, p, j);
      }
    } else if !Loops(s.procs[p].pc) {
      SelfAfter(s, c, p, op);
    }
  }

  lemma RunningOkB(s: State, c: nat, p: nat)
    requires Steps(s, c, p)
    ensures Runs(s, p) && OnOk(s.procs[p], p)
  {
    RunningOk(s, c, p);
  }

  lemma MadeIsUsedB(s: State, p: nat, q: nat)
    requires Basic(s) && p < |s.procs| && Making(s.procs[p].pc) == q
    ensures q < |s.procs| && s.procs[q].state == USED
  {
    MadeIsUsed(s, p, q);
  }

  /** Two threads are never both in sections under wait_lock. */
  lemma {:induction false} OneUnderWait(s: State, c: nat, p: nat, q: nat)
    requires Steps(s, c, p) && q < |s.procs| && q != p
    ensures !(WaitLock in Held(s.procs[p].pc, p) && WaitLock in Held(s.procs[q].pc, q) && !s.procs[q].pc.ForkRet?)
  {
    hide Owners, OneCpu, Makers, Runs;
    RunningOk(s, c, p);
    if WaitLock in Held(s.procs[p].pc, p) && WaitLock in Held(s.procs[q].pc, q) {
      PlacedRuns(s, q);
      OneHolder(s, p, q, WaitLock);
    }
  }

  /** While q is in such a section, a step of another thread gives it no zombie child. */
  lemma {:induction false} NoNewZombie(s: State, c: nat, p: nat, op: Op, q: nat, n: nat)
    requires Steps(s, c, p) && q < |s.procs| && NoZombie(s, q, n) && WaitLock in Held(s.procs[q].pc, q)
    requires q == p ==> !s.procs[p].pc.ExMark? && !s.procs[p].pc.ExReparent?
    ensures NoZombie(Step(s, c, op), q, n)
  {
    hide States, Makers, Owners, Runs, OneCpu, Step, InstrOf, Basic;
    var t := Step(s, c, op);
    forall j: nat | j < n ensures !ZombieOf(t, q, j) {
      if ZombieOf(t, q, j) {
        ZombieBefore(s, c, p, op, q, j);
        if q != p {
          OneUnderWait(s, c, p, q);
        }
      }
    }
  }

  lemma {:induction false} KeepsScan(s: State, c: nat, p: nat, op: Op, q: nat)
    requires Steps(s, c, p) && q < |s.procs| == |Step(s, c, op).procs| && WaitOk(s, q)
    ensures var t := Step(s, c, op); var pc := t.procs[q].pc;
            && (pc.WtScan? ==> NoZombie(t, q, pc.i))
            && (pc == SlTakeP(Waiting) || pc == SlDropLk(Waiting) ==> NoZombie(t, q, |t.procs|))
  {
    hide Basic, Step, InstrOf, Asleep, WakerAt, ZombieOf;
    var t := Step(s, c, op);
    LoopAfter(s, c, p, op);
    RunningOkB(s, c, p);
    if q != p {
      OtherAfter(s, c, p, op, q);
      if t.procs[q].pc == s.procs[q].pc && s.procs[q].pc.WtScan? {
        NoNewZombie(s, c, p, op, q, s.procs[q].pc.i);
      }
    } else if !Loops(s.procs[p].pc) {
      SelfAfter(s, c, p, op);
    } else if s.procs[p].pc.WtScan? {
      NoNewZombie(s, c, p, op, q, s.procs[q].pc.i);
      if t.procs[p].pc.WtScan? && t.procs[p].pc != s.procs[p].pc {
        ScannedIsNone(s, c, p, op);
      }
    }
    if s.procs[q].pc == SlTakeP(Waiting) || s.procs[q].pc == SlDropLk(Waiting) {
      NoNewZombie(s, c, p, op, q, |s.procs|);
    }
  }

  lemma {:induction false} ScannedIsNone(s: State, c: nat, p: nat, op: Op)
    requires Steps(s, c, p) && s.procs[p].pc.WtScan? && !ZombieOf(s, p, s.procs[p].pc.i)
    ensures !ZombieOf(Step(s, c, op), p, s.procs[p].pc.i)
  {
    hide Basic, Step, InstrOf, ZombieOf;
    var j := s.procs[p].pc.i;
    if ZombieOf(Step(s, c, op), p, j) {
      ZombieBefore(s, c, p, op, p, j);
    }
  }

  /** A process asleep in wait with a zombie child is about to be woken. */
  lemma {:induction false} KeepsWoken(s: State, c: nat, p: nat, op: Op, q: nat)
    requires Inv(s) && Steps(s, c, p) && q < |s.procs| == |Step(s, c, op).procs|
    ensures var t := Step(s, c, op); Asleep(t, q, Waiting) && !NoZombie(t, q, |t.procs|) ==>
              WakerAt(t, WaitLock, ChildChan(q), q)
  {
    hide Basic, Step, InstrOf, WakerAt, ZombieOf, SleepOk, Sleeps, Passes, Held;
    var t := Step(s, c, op);
    assert WaitOk(s, q) && WaitOk(s, p);
    if Asleep(t, q, Waiting) && !NoZombie(t, q, |t.procs|) {
      AsleepBefore(s, c, p, op, q, Waiting);
      var j: nat :| j < |t.procs| && ZombieOf(t, q, j);
      ZombieBefore(s, c, p, op, q, j);
      if s.procs[p].pc == ExReparent(j) && !ZombieOf(s, q, j) {
        AdoptedWaker(s, c, p, op);
      } else if ZombieOf(s, q, j) && Asleep(s, q, Waiting) {
        WakerStays(s, c, p, op, WaitLock, ChildChan(q), q);
        if Passes(s, c, p, op, ChildChan(q), q) {
          PassedIsAwake(s, c, p, op, q, Waiting);
        }
      }
    }
  }

  lemma {:induction false} AdoptedWaker(s: State, c: nat, p: nat, op: Op)
    requires Steps(s, c, p) && s.procs[p].pc.ExReparent? && |Step(s, c, op).procs| == |s.procs|
    requires var pc := Step(s, c, op).procs[p].pc; pc.Waking? && pc.ch == ChildChan(INIT) && pc.j == 0
    ensures WakerAt(Step(s, c, op), WaitLock, ChildChan(INIT), INIT)
  {
    hide States, Makers, OneCpu, Runs, ChoiceOf, WakeOne, ScanOne, ForkOne, Line;
    PutInRange(s, p, op);
    assert WaitLock in HeldBy(s, c);
  }

  /** exit's wakeup, and what it has done by the time the process becomes a zombie. */
  lemma {:induction false} KeepsWaking(s: State, c: nat, p: nat, op: Op, r: nat)
    requires Inv(s) && Steps(s, c, p) && r < |s.procs| == |Step(s, c, op).procs|
    ensures var t := Step(s, c, op); var pr := t.procs[r];
            pr.pc.Waking? && pr.pc.ch.ChildChan? && 0 <= pr.pc.ch.q < pr.pc.j ==> !Asleep(t, pr.pc.ch.q, Waiting)
  {
    hide Basic, Step, InstrOf, WakerAt, ZombieOf, SleepOk, Sleeps, Held, NoZombie;
    var t := Step(s, c, op);
    var pr := t.procs[r];
    assert WaitOk(s, r);
    LoopAfter(s, c, p, op);
    if pr.pc.Waking? && pr.pc.ch.ChildChan? && 0 <= pr.pc.ch.q < pr.pc.j && Asleep(t, pr.pc.ch.q, Waiting) {
      AsleepBefore(s, c, p, op, pr.pc.ch.q, Waiting);
      if r != p {
        OtherAfter(s, c, p, op, r);
        WakingHolds(s, r);
        DroppingHolds(s, p);
        OneUnderWait(s, c, p, r);
      } else {
        if !Loops(s.procs[p].pc) {
          SelfAfter(s, c, p, op);
        }
        RunningOkB(s, c, p);
        if Passes(s, c, p, op, ChildChan(pr.pc.ch.q), pr.pc.ch.q) {
          PassedIsAwake(s, c, p, op, pr.pc.ch.q, Waiting);
        }
      }
    }
  }

  lemma WakingHolds(s: State, r: nat)
    requires Basic(s) && r < |s.procs| && s.procs[r].pc.Waking? && s.procs[r].pc.ch.ChildChan?
    ensures WaitLock in Held(s.procs[r].pc, r)
  {
    ThisOk(s, r);
    assert WaitLock in Held(ExTakeP, r);
  }

  lemma DroppingHolds(s: State, p: nat)
    requires p < |s.procs|
    ensures s.procs[p].pc == SlDropLk(Waiting) ==> WaitLock in Held(s.procs[p].pc, p)
    ensures s.procs[p].pc.ExReparent? || s.procs[p].pc.ExTakeP? || s.procs[p].pc.ExMark? ==>
              WaitLock in Held(s.procs[p].pc, p)
  {
  }

  lemma {:induction false} KeepsExit(s: State, c: nat, p: nat, op: Op, r: nat)
    requires Inv(s) && Steps(s, c, p) && r < |s.procs| == |Step(s, c, op).procs|
    ensures var t := Step(s, c, op); var pr := t.procs[r];
            (pr.pc.ExTakeP? || pr.pc.ExMark?) && 0 <= pr.parent ==> !Asleep(t, pr.parent, Waiting)
  {
    hide Basic, Step, InstrOf, WakerAt, ZombieOf, SleepOk, Sleeps, Held, NoZombie;
    var t := Step(s, c, op);
    var pr := t.procs[r];
    assert WaitOk(s, r);
    LoopAfter(s, c, p, op);
    if (pr.pc.ExTakeP? || pr.pc.ExMark?) && 0 <= pr.parent && Asleep(t, pr.parent, Waiting) {
      AsleepBefore(s, c, p, op, pr.parent, Waiting);
      if r != p {
        OtherAfter(s, c, p, op, r);
        DroppingHolds(s, p);
        DroppingHolds(s, r);
        OneUnderWait(s, c, p, r);
        ExitingIsNotMade(s, p, r);
      } else {
        RunningOkB(s, c, p);
        if !Loops(s.procs[p].pc) {
          SelfAfter(s, c, p, op);
        }
      }
    }
  }

  lemma ExitingIsNotMade(s: State, p: nat, r: nat)
    requires Basic(s) && p < |s.procs| && r < |s.procs| && (s.procs[r].pc.ExTakeP? || s.procs[r].pc.ExMark?)
    ensures s.procs[p].pc != FkParent(r)
  {
    ThisOk(s, r);
  }

  lemma {:induction false} KeepsWaitOk(s: State, c: nat, p: nat, op: Op, q: nat)
    requires Inv(s) && Steps(s, c, p) && q < |s.procs|
    ensures |Step(s, c, op).procs| == |s.procs| && WaitOk(Step(s, c, op), q)
  {
    hide Basic, Step, InstrOf, WakerAt, Asleep, NoZombie, SleepOk;
    LoopAfter(s, c, p, op);
    assert WaitOk(s, q);
    KeepsScan(s, c, p, op, q);
    KeepsWoken(s, c, p, op, q);
    KeepsWaking(s, c, p, op, q);
    KeepsExit(s, c, p, op, q);
  }

  // ---- The scheduler's own steps -----------------------------------------------------------------

  /** A step of a scheduler thread changes no pc, parent or lock flag, and only RUNNABLE to RUNNING. */
  lemma {:induction false} SchedulerStep(s: State, c: nat, op: Op)
    requires c < |s.cpus| && !s.cpus[c].Run?
    ensures var t := Step(s, c, op);
            && t.locked == s.locked && |t.procs| == |s.procs|
            && (forall q: nat :: q < |s.procs| ==>
                  || t.procs[q] == s.procs[q]
                  || (s.procs[q].state == RUNNABLE && t.procs[q] == s.procs[q].(state := RUNNING)))
  {
    hide InstrOf, Exec;
  }

  lemma {:induction false} SchedulerKeepsWaker(s: State, c: nat, op: Op, x: LockId, ch: Chan, q: nat)
    requires Basic(s) && c < |s.cpus| && !s.cpus[c].Run? && WakerAt(s, x, ch, q)
    ensures WakerAt(Step(s, c, op), x, ch, q)
  {
    hide InstrOf, Exec, States, Makers, OneCpu, Held;
    MyLocks(s, c);
    SchedulerStep(s, c, op);
  }

  lemma {:induction false} SchedulerKeeps(s: State, c: nat, op: Op, q: nat)
    requires Inv(s) && c < |s.cpus| && !s.cpus[c].Run? && q < |s.procs|
    ensures |Step(s, c, op).procs| == |s.procs| && WaitOk(Step(s, c, op), q) && forall l: nat ::
              SleepOk(Step(s, c, op), q, l)
  {
    hide Step, Basic, WakerAt;
    var t := Step(s, c, op);
    SchedulerStep(s, c, op);
    assert forall k, r: nat :: Asleep(t, r, k) == Asleep(s, r, k);
    assert forall r: nat, j: nat :: ZombieOf(t, r, j) == ZombieOf(s, r, j);
    assert WaitOk(s, q);
    forall x, ch | WakerAt(s, x, ch, q) ensures WakerAt(t, x, ch, q) {
      SchedulerKeepsWaker(s, c, op, x, ch, q);
    }
    forall l: nat ensures SleepOk(t, q, l) {
      assert SleepOk(s, q, l);
    }
  }

  // ---- Every run -----------------------------------------------------------------------------------

  lemma {:induction false} StepKeepsInv(s: State, c: nat, op: Op)
    requires Inv(s)
    ensures Inv(Step(s, c, op)) && |Step(s, c, op).procs| == |s.procs| && |Step(s, c, op).cpus| == |s.cpus|
  {
    hide Basic, SleepOk, WaitOk, Step;
    var t := Step(s, c, op);
    StepKeepsBasic(s, c, op);
    forall q: nat, l: nat | q < |t.procs| ensures SleepOk(t, q, l) {
      StepKeepsOk(s, c, op, q, l);
    }
    forall q: nat | q < |t.procs| ensures WaitOk(t, q) {
      StepKeepsOk(s, c, op, q, 0);
    }
  }

  lemma {:induction false} StepKeepsOk(s: State, c: nat, op: Op, q: nat, l: nat)
    requires Inv(s) && q < |s.procs|
    ensures |Step(s, c, op).procs| == |s.procs| && WaitOk(Step(s, c, op), q) && SleepOk(Step(s, c, op), q, l)
  {
    hide Basic, SleepOk, WaitOk, InstrOf, Exec;
    StepKeepsBasic(s, c, op);
    if c >= |s.cpus| {
      assert WaitOk(s, q) && SleepOk(s, q, l);
    } else if s.cpus[c].Run? {
      CpuInRange(s, c);
      KeepsWaitOk(s, c, s.cpus[c].p, op, q);
      KeepsSleepOk(s, c, s.cpus[c].p, op, q, l);
    } else {
      SchedulerKeeps(s, c, op, q);
    }
  }

  lemma CpuInRange(s: State, c: nat)
    requires Basic(s) && c < |s.cpus| && s.cpus[c].Run?
    ensures s.cpus[c].p < |s.procs|
  {
  }

  lemma {:induction false} RunKeepsInv(s: State, run: seq<(nat, Op)>)
    requires Inv(s)
    ensures Inv(After(s, run)) && |After(s, run).procs| == |s.procs| && |After(s, run).cpus| == |s.cpus|
    decreases |run|
  {
    hide Inv, Step;
    if run != [] {
      StepKeepsInv(s, run[0].0, run[0].1);
      RunKeepsInv(Step(s, run[0].0, run[0].1), run[1..]);
    }
  }

  /** Everything that holds after every run of n processes on m CPUs from boot. */
  lemma {:induction false} ReachableInv(n: nat, m: nat, run: seq<(nat, Op)>)
    ensures var s := After(Boot(n, m), run); Inv(s) && |s.procs| == n && |s.cpus| == m
  {
    hide Basic, Step, After;
    BootIsBasic(n, m);
    RunKeepsInv(Boot(n, m), run);
  }

  /** No wakeup is lost. After any run: while a sleep lock is free and its spinlock is too,
      no process is SLEEPING on it; while wait_lock is free, no process SLEEPING in wait
      has a ZOMBIE child. */
  lemma {:induction false} NoLostWakeup(n: nat, m: nat, run: seq<(nat, Op)>, p: nat)
    requires p < n
    ensures var s := After(Boot(n, m), run); p < |s.procs| && var pr := s.procs[p];
            && (pr.state == SLEEPING && pr.chan.LockChan? && SLock(pr.chan.l) !in s.owner ==> pr.chan.l in s.locked)
            && (pr.state == SLEEPING && pr.chan == ChildChan(p) && WaitLock !in s.owner ==> NoZombie(s, p, |s.procs|))
  {
    hide After, Basic, Boot;
    var s := After(Boot(n, m), run);
    ReachableInv(n, m, run);
    assert WaitOk(s, p);
    if s.procs[p].state == SLEEPING {
      SleepingIsAsleep(s, p);
      if s.procs[p].chan.LockChan? {
        assert SleepOk(s, p, s.procs[p].chan.l);
      }
    }
  }

  lemma {:induction false} SleepingIsAsleep(s: State, p: nat)
    requires Basic(s) && p < |s.procs| && s.procs[p].state == SLEEPING
    ensures var ch := s.procs[p].chan;
            (ch.LockChan? && Asleep(s, p, Acq(ch.l))) || (ch == ChildChan(p) && Asleep(s, p, Waiting))
  {
    hide Runs;
    ThisOk(s, p);
  }

  /** No process is RUNNING on two CPUs: after any run, one that is RUNNING is on exactly
      one CPU, and one that is on a CPU while its lock is free is RUNNING. */
  lemma {:induction false} RunningOnOneCpu(n: nat, m: nat, run: seq<(nat, Op)>, p: nat)
    requires p < n
    ensures var s := After(Boot(n, m), run);
            && p < |s.procs|
            && (s.procs[p].state == RUNNING ==> exists c: nat :: c < |s.cpus| && s.cpus[c] == Run(p))
            && (forall c: nat, d: nat :: c < d < |s.cpus| && s.cpus[c] == Run(p) ==>
                    s.cpus[d] != Run(p) && s.cpus[d] != Back(p))
            && (PLock(p) !in s.owner ==> (s.procs[p].state == RUNNING <==> Runs(s, p)))
  {
    hide After, Boot, SleepOk, WaitOk, Makers, Held;
    var s := After(Boot(n, m), run);
    ReachableInv(n, m, run);
    ThisOk(s, p);
    if Runs(s, p) && PLock(p) !in s.owner {
      FreeMeansRunning(s, p);
    }
  }

  /** sched never panics and no zombie runs again: after any run, a thread about to swtch
      has changed its state, and its CPU holds exactly the lock of its process. */
  lemma {:induction false} SchedNeverPanics(n: nat, m: nat, run: seq<(nat, Op)>, c: nat)
    requires c < m
    ensures var s := After(Boot(n, m), run); c < |s.cpus| && (s.cpus[c].Run? ==> var p := s.cpus[c].p;
            && p < |s.procs| && !s.procs[p].pc.Dead?
            && (s.procs[p].pc.SlSwtch? || s.procs[p].pc.ExSwtch? || s.procs[p].pc.YdSwtch? ==>
                  s.procs[p].state != RUNNING && forall x :: x in s.owner && s.owner[x] == c <==> x == PLock(p)))
  {
    hide After, Boot, SleepOk, WaitOk, Makers;
    var s := After(Boot(n, m), run);
    ReachableInv(n, m, run);
    if s.cpus[c].Run? {
      RunningOk(s, c, s.cpus[c].p);
      MyLocks(s, c);
    }
  }
}
