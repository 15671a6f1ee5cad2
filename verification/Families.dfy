/** Parents and children on every run of the scheduling model: what wait sees and when it
    returns, whom exit leaves behind, and what fork makes. */
module Families {
  import opened Scheduling
  import opened SchedulingInv
  import opened SleepWakeup

  // ---- The invariant ----------------------------------------------------------------------------

  ghost predicate HasChild(s: State, p: nat, n: nat) {
    exists j: nat :: j < n && j < |s.procs| && s.procs[j].parent == p
  }

  /** exit is past its loop over the children. */
  predicate Leaving(pc: Pc) {
    pc.ExTakeP? || pc.ExMark? || pc.ExDropWait? || pc.ExSwtch? || (pc.Waking? && pc.ret.ExTakeP?)
  }

  /** exit has begun, or the thread was preempted at its very start. */
  predicate Exits(pc: Pc) {
    || Leaving(pc) || pc.ExAcquire? || Reparented(pc) >= 0
    || ((pc.YdTakeP? || pc.YdMark? || pc.YdSwtch? || pc.YdResumed?) && pc.saved.ExAcquire?)
  }

  /** How many entries exit's loop has given to init, or -1. */
  function Reparented(pc: Pc): int {
    match pc
    case ExReparent(i) => i
    case Waking(_, _, ret) => if ret.ExReparent? then ret.i else -1
    case _ => -1
  }

  /** The child that fork has made and given a parent, or -1. */
  function Fathered(pc: Pc): int {
    match pc
    case FkReady(q) => q
    case YdTakeP(saved) => if saved.FkReady? then saved.q else -1
    case YdMark(saved) => if saved.FkReady? then saved.q else -1
    case YdSwtch(saved) => if saved.FkReady? then saved.q else -1
    case YdResumed(saved) => if saved.FkReady? then saved.q else -1
    case _ => -1
  }

  /** Nobody's parent: not in use, not yet running, or gone. */
  predicate Barren(pr: Proc) {
    pr.state == UNUSED || pr.state == USED || pr.state == ZOMBIE || Leaving(pr.pc)
  }

  /** Process p and its children. */
  ghost predicate FamilyOk(s: State, p: nat)
    requires p < |s.procs|
  {
    var pr := s.procs[p];
    && pr.parent < |s.procs| && pr.parent != p
    && (Barren(pr) ==> !HasChild(s, p, |s.procs|))
    && (Reparented(pr.pc) >= 0 ==> !HasChild(s, p, Reparented(pr.pc)))
    && (p == INIT ==> pr.parent < 0 && pr.state !in {UNUSED, USED, ZOMBIE} && !Exits(pr.pc))
    && (pr.state == UNUSED ==> pr.parent == -1)
    && (pr.pc.WtScan? ==> (pr.pc.have <==> HasChild(s, p, pr.pc.i)))
    && (0 <= Fathered(pr.pc) < |s.procs| ==> s.procs[Fathered(pr.pc)].parent == p)
  }

  ghost predicate Families(s: State) {
    forall p: nat :: p < |s.procs| ==> FamilyOk(s, p)
  }

  // ---- What a step does to parents ----------------------------------------------------------------

  /** The four ways in which process p's step gives process j another parent. */
  ghost predicate ParentMoves(s: State, p: nat, j: nat, t: State)
    requires p < |s.procs| && j < |s.procs| == |t.procs|
  {
    var was, now, pc := s.procs[j].parent, t.procs[j].parent, s.procs[p].pc;
    || now == was
    || (pc == FkParent(j) && WaitLock !in s.owner && now == p)
    || (pc == ExReparent(j) && was == p && now == INIT)
    || (pc.WtScan? && pc.i == j && ZombieOf(s, p, j) && now == -1)
    || (pc.User? && s.procs[j].state == UNUSED && now == -1)
  }

  ghost predicate PutMoves(s: State, p: nat, ins: Instr)
    requires p < |s.procs|
  {
    ins.Put? && ins.i < |s.procs| ==>
      var j, now, pc := ins.i, ins.proc.parent, s.procs[p].pc;
      || now == s.procs[j].parent
      || (pc == FkParent(j) && WaitLock !in s.owner && now == p)
      || (pc == ExReparent(j) && s.procs[j].parent == p && now == INIT)
      || (pc.WtScan? && pc.i == j && ZombieOf(s, p, j) && now == -1)
      || (pc.User? && s.procs[j].state == UNUSED && now == -1)
  }

  lemma {:induction false} InstrMoves(s: State, p: nat, op: Op)
    requires p < |s.procs|
    ensures PutMoves(s, p, InstrOf(s, p, op))
  {
    hide Line;
    LineMoves(s, p);
  }

  lemma LineMoves(s: State, p: nat)
    requires p < |s.procs|
    ensures PutMoves(s, p, Line(s, p, s.procs[p]))
  {
  }

  lemma {:induction false} ParentsAfter(s: State, c: nat, p: nat, op: Op, j: nat)
    requires Steps(s, c, p) && j < |s.procs|
    ensures |Step(s, c, op).procs| == |s.procs| && ParentMoves(s, p, j, Step(s, c, op))
  {
    hide Basic, InstrOf, Step;
    OwnAfter(s, c, p, op);
    InstrMoves(s, p, op);
  }

  /** While another thread holds wait_lock no parent changes. */
  lemma {:induction false} ParentsFixed(s: State, c: nat, p: nat, op: Op, q: nat)
    requires Steps(s, c, p) && Families(s) && q < |s.procs| && q != p
    requires WaitLock in Held(s.procs[q].pc, q) && Runs(s, q)
    ensures |Step(s, c, op).procs| == |s.procs|
    ensures forall j: nat :: j < |s.procs| ==> Step(s, c, op).procs[j].parent == s.procs[j].parent
  {
    hide States, Makers, OneCpu, InstrOf, Step, FamilyOk, Owners, Runs;
    NotUnderWait(s, c, p, q);
    OwnAfter(s, c, p, op);
    forall j: nat | j < |s.procs| ensures Step(s, c, op).procs[j].parent == s.procs[j].parent {
      ParentsAfter(s, c, p, op, j);
      UnusedHasNone(s, j);
    }
  }

  lemma {:induction false} NotUnderWait(s: State, c: nat, p: nat, q: nat)
    requires Steps(s, c, p) && q < |s.procs| && q != p && WaitLock in Held(s.procs[q].pc, q) && Runs(s, q)
    ensures WaitLock in s.owner && !s.procs[p].pc.WtScan? && !s.procs[p].pc.ExReparent?
  {
    hide States, Makers, OneCpu;
    RunningHeld(s, q);
    assert Runs(s, p);
    if WaitLock in Held(s.procs[p].pc, p) {
      OneHolder(s, p, q, WaitLock);
    }
  }

  lemma UnusedHasNone(s: State, j: nat)
    requires Families(s) && j < |s.procs|
    ensures s.procs[j].state == UNUSED ==> s.procs[j].parent == -1
  {
    assert FamilyOk(s, j);
  }

  // ---- What a step does to the other processes --------------------------------------------------------

  /** A process becomes barren, or UNUSED, only from such a state. */
  ghost predicate OthersMove(a: Proc, b: Proc) {
    && (Barren(b) ==> Barren(a))
    && (b.state == UNUSED ==> b.parent == -1 || (a.state == UNUSED && b.parent == a.parent))
    && (b.pc == a.pc || b.pc.ForkRet? || b.pc.Dead?)
    && (b.state in {UNUSED, USED, ZOMBIE} ==> a.state in {UNUSED, USED, ZOMBIE})
  }

  lemma {:induction false} InstrOthers(s: State, p: nat, op: Op)
    requires p < |s.procs| && (Making(s.procs[p].pc) >= 0 ==> MakesUsed(s, Making(s.procs[p].pc)))
    requires forall j: nat :: j < |s.procs| && s.procs[j].state == UNUSED ==> s.procs[j].parent == -1
    ensures var ins := InstrOf(s, p, op);
            ins.Put? && ins.i != p && ins.i < |s.procs| ==> OthersMove(s.procs[ins.i], ins.proc)
  {
    hide Line;
    LinePutsSelf(s, p);
  }

  predicate MakesUsed(s: State, q: int) {
    0 <= q < |s.procs| && s.procs[q].state == USED
  }

  lemma OthersSame(a: Proc)
    ensures OthersMove(a, a)
  {
  }

  lemma {:induction false} OthersAfter(s: State, c: nat, p: nat, op: Op, q: nat)
    requires Steps(s, c, p) && Families(s) && q < |s.procs| && q != p
    ensures |Step(s, c, op).procs| == |s.procs| && OthersMove(s.procs[q], Step(s, c, op).procs[q])
  {
    hide Owners, States, OneCpu, InstrOf, Step, OthersMove, FamilyOk;
    OwnAfter(s, c, p, op);
    forall j: nat | j < |s.procs| && s.procs[j].state == UNUSED ensures s.procs[j].parent == -1 {
      UnusedHasNone(s, j);
    }
    InstrOthers(s, p, op);
    OthersSame(s.procs[q]);
  }

  // ---- What a step does to the process itself ---------------------------------------------------------

  /** How a thread comes to the places that FamilyOk speaks of. */
  ghost predicate SelfMoves(s: State, p: nat, b: Proc)
    requires p < |s.procs|
  {
    var a, n := s.procs[p], |s.procs|;
    && b.parent == a.parent
    && (b.state in {UNUSED, USED} ==> a.state in {UNUSED, USED})
    && (b.state == ZOMBIE ==> Leaving(a.pc) || a.state == ZOMBIE)
    && (Leaving(b.pc) ==> Leaving(a.pc) || (a.pc.ExReparent? && a.pc.i >= n))
    && (Reparented(b.pc) >= 0 ==>
          || Reparented(b.pc) == Reparented(a.pc) || (a.pc.ExAcquire? && b.pc == ExReparent(0))
          || (a.pc.ExReparent? && a.pc.i < n && Reparented(b.pc) == a.pc.i + 1))
    && (Exits(b.pc) ==> Exits(a.pc) || p != INIT)
    && (b.pc.WtScan? ==>
          || b.pc == a.pc || b.pc == WtScan(0, false)
          || (a.pc.WtScan? && a.pc.i < n && b.pc.i == a.pc.i + 1
              && b.pc.have == (a.pc.have || s.procs[a.pc.i].parent == p)))
    && (Fathered(b.pc) >= 0 ==> Fathered(b.pc) == Fathered(a.pc) || a.pc == FkParent(Fathered(b.pc)))
  }

  lemma {:induction false} SelfSame(s: State, p: nat)
    requires p < |s.procs|
    ensures SelfMoves(s, p, s.procs[p])
  {
  }

  lemma {:induction false} LineSelf(s: State, p: nat)
    requires p < |s.procs| && OnOk(s.procs[p], p)
    ensures SelfMoves(s, p, Own(Line(s, p, s.procs[p]), s.procs[p], p))
  {
  }

  lemma {:induction false} ChoiceSelf(s: State, p: nat, op: Op)
    requires p < |s.procs| && s.procs[p].pc.User? && OnOk(s.procs[p], p)
    ensures SelfMoves(s, p, Own(ChoiceOf(s, p, op), s.procs[p], p))
  {
  }

  lemma {:induction false} WakeSelf(s: State, p: nat, ch: Chan, j: nat, ret: Pc)
    requires p < |s.procs| && s.procs[p].pc == Waking(ch, j, ret) && OnOk(s.procs[p], p)
    ensures SelfMoves(s, p, Own(WakeOne(s, p, ch, j, ret), s.procs[p], p))
  {
  }

  lemma {:induction false} ScanSelf(s: State, p: nat, i: nat, have: bool)
    requires p < |s.procs| && s.procs[p].pc == WtScan(i, have) && OnOk(s.procs[p], p)
    ensures SelfMoves(s, p, Own(ScanOne(s, p, i, have), s.procs[p], p))
  {
  }

  lemma {:induction false} ReparentSelf(s: State, p: nat, i: nat)
    requires p < |s.procs| && s.procs[p].pc == ExReparent(i) && OnOk(s.procs[p], p) && s.procs[p].parent != p
    ensures SelfMoves(s, p, Own(ReparentOne(s, p, i), s.procs[p], p))
  {
  }

  lemma {:induction false} ForkSelf(s: State, p: nat, q: nat)
    requires p < |s.procs| && q != p && (s.procs[p].pc == FkParent(q) || s.procs[p].pc == FkReady(q))
    requires OnOk(s.procs[p], p)
    ensures SelfMoves(s, p, Own(ForkOne(s, p, q, s.procs[p].pc), s.procs[p], p))
  {
  }

  lemma {:induction false} PreemptSelf(s: State, p: nat)
    requires p < |s.procs| && OnOk(s.procs[p], p) && Saved(s.procs[p].pc)
    ensures SelfMoves(s, p, Own(Goto(YdTakeP(s.procs[p].pc)), s.procs[p], p))
  {
  }

  lemma {:induction false} SelfStep(s: State, c: nat, p: nat, op: Op)
    requires Steps(s, c, p) && Families(s)
    ensures |Step(s, c, op).procs| == |s.procs| && SelfMoves(s, p, Step(s, c, op).procs[p]) && OnOk(s.procs[p], p)
  {
    hide States, Makers, Owners, OneCpu, Held, SelfMoves, Own, Line, ForkOne, ChoiceOf, ScanOne, ReparentOne, WakeOne,
      Step, OnOk, FamilyOk;
    RunningOk(s, c, p);
    MakesAnother(s, p);
    NotOwnParent(s, p);
    OwnAfter(s, c, p, op);
    SelfSame(s, p);
    if Saved(s.procs[p].pc) {
      PreemptSelf(s, p);
    }
    match s.procs[p].pc
    case User => ChoiceSelf(s, p, op);
    case Waking(ch, j, ret) => WakeSelf(s, p, ch, j, ret);
    case WtScan(i, have) => ScanSelf(s, p, i, have);
    case ExReparent(i) => ReparentSelf(s, p, i);
    case FkParent(q) => ForkSelf(s, p, q);
    case FkReady(q) => ForkSelf(s, p, q);
    case _ => LineSelf(s, p);
  }

  lemma NotOwnParent(s: State, p: nat)
    requires Families(s) && p < |s.procs|
    ensures s.procs[p].parent != p
  {
    assert FamilyOk(s, p);
  }

  /** Two steps that move a parent with the thread: fork's, and none in wait's scan. */
  lemma {:induction false} ScanKeepsParents(s: State, c: nat, p: nat, op: Op)
    requires Steps(s, c, p) && s.procs[p].pc.WtScan?
    ensures |Step(s, c, op).procs| == |s.procs|
    ensures Step(s, c, op).procs[p].pc.WtScan? ==>
              forall j: nat :: j < |s.procs| ==> Step(s, c, op).procs[j].parent == s.procs[j].parent
  {
    hide Basic, Step;
    OwnAfter(s, c, p, op);
  }

  lemma {:induction false} FatherNow(s: State, c: nat, p: nat, op: Op, f: nat)
    requires Steps(s, c, p) && s.procs[p].pc == FkParent(f) && f < |s.procs| && f != p
    ensures |Step(s, c, op).procs| == |s.procs|
    ensures Fathered(Step(s, c, op).procs[p].pc) == f ==> Step(s, c, op).procs[f].parent == p
  {
    hide Basic, Step;
    OwnAfter(s, c, p, op);
  }

  // ---- Each step keeps families in order ----------------------------------------------------------------

  lemma {:induction false} KeepsRange(s: State, c: nat, p: nat, op: Op, q: nat)
    requires Steps(s, c, p) && Families(s) && q < |s.procs|
    ensures var t := Step(s, c, op);
            && |t.procs| == |s.procs| && t.procs[q].parent < |t.procs| && t.procs[q].parent != q
            && (q == INIT ==> t.procs[q].parent < 0)
  {
    hide Owners, States, OneCpu, Step, Held;
    assert FamilyOk(s, q) && FamilyOk(s, INIT);
    ParentsAfter(s, c, p, op, q);
    RunningOk(s, c, p);
    MakesAnother(s, p);
    if s.procs[p].pc == FkParent(q) {
      MadeIsUsed(s, p, q);
    }
  }

  lemma {:induction false} KeepsBarren(s: State, c: nat, p: nat, op: Op, q: nat)
    requires Steps(s, c, p) && Families(s) && q < |s.procs|
    ensures var t := Step(s, c, op); |t.procs| == |s.procs| && (Barren(t.procs[q]) ==> !HasChild(t, q, |t.procs|))
  {
    hide Basic, Step, Held, OnOk;
    var t := Step(s, c, op);
    SelfStep(s, c, p, op);
    assert FamilyOk(s, q) && FamilyOk(s, INIT) && FamilyOk(s, p);
    if q != p {
      OthersAfter(s, c, p, op, q);
    } else {
      RunnerStates(s.procs[p], p);
    }
    if Barren(t.procs[q]) {
      forall j: nat | j < |t.procs| ensures t.procs[j].parent != q {
        ParentsAfter(s, c, p, op, j);
      }
    }
  }

  lemma RunnerStates(pr: Proc, p: nat)
    requires OnOk(pr, p)
    ensures pr.state !in {UNUSED, USED} && (pr.state == ZOMBIE ==> Leaving(pr.pc))
  {
  }

  lemma {:induction false} KeepsReparented(s: State, c: nat, p: nat, op: Op, q: nat)
    requires Steps(s, c, p) && Families(s) && q < |s.procs|
    ensures var t := Step(s, c, op);
            |t.procs| == |s.procs| && (Reparented(t.procs[q].pc) >= 0 ==> !HasChild(t, q, Reparented(t.procs[q].pc)))
  {
    hide Owners, Makers, OneCpu, Step, OnOk, OffOk;
    var t := Step(s, c, op);
    SelfStep(s, c, p, op);
    assert FamilyOk(s, q);
    if q != p {
      OthersAfter(s, c, p, op, q);
      if Reparented(s.procs[q].pc) >= 0 {
        PlacedRuns(s, q);
        assert WaitLock in Held(s.procs[q].pc, q);
        ParentsFixed(s, c, p, op, q);
      }
    } else if Reparented(t.procs[p].pc) >= 0 {
      forall j: nat | j < Reparented(t.procs[p].pc) && j < |t.procs| ensures t.procs[j].parent != p {
        ParentsAfter(s, c, p, op, j);
        if j == Reparented(s.procs[p].pc) {
          ReparentedOne(s, c, p, op);
        }
      }
    }
  }

  /** One turn of exit's loop: the entry is not, or no longer, a child. */
  lemma {:induction false} ReparentedOne(s: State, c: nat, p: nat, op: Op)
    requires Steps(s, c, p) && Families(s) && s.procs[p].pc.ExReparent? && s.procs[p].pc.i < |s.procs|
    ensures |Step(s, c, op).procs| == |s.procs| && Step(s, c, op).procs[s.procs[p].pc.i].parent != p
  {
    hide Basic, Step;
    assert FamilyOk(s, p);
    OwnAfter(s, c, p, op);
  }

  lemma {:induction false} KeepsInit(s: State, c: nat, p: nat, op: Op, q: nat)
    requires Steps(s, c, p) && Families(s) && q < |s.procs|
    ensures var t := Step(s, c, op);
            && |t.procs| == |s.procs|
            && (q == INIT ==> t.procs[q].state !in {UNUSED, USED, ZOMBIE} && !Exits(t.procs[q].pc))
            && (t.procs[q].state == UNUSED ==> t.procs[q].parent == -1)
  {
    hide Basic, Step, Held, OnOk;
    SelfStep(s, c, p, op);
    assert FamilyOk(s, q);
    if q != p {
      OthersAfter(s, c, p, op, q);
    } else {
      RunnerStates(s.procs[p], p);
    }
  }

  lemma {:induction false} KeepsHave(s: State, c: nat, p: nat, op: Op, q: nat)
    requires Steps(s, c, p) && Families(s) && q < |s.procs|
    ensures var t := Step(s, c, op);
            && |t.procs| == |s.procs|
            && var pc := t.procs[q].pc; pc.WtScan? ==> (pc.have <==> HasChild(t, q, pc.i))
  {
    hide Owners, Makers, OneCpu, Step, OnOk, OffOk;
    var t := Step(s, c, op);
    SelfStep(s, c, p, op);
    assert FamilyOk(s, q);
    if q != p {
      OthersAfter(s, c, p, op, q);
      if s.procs[q].pc.WtScan? {
        PlacedRuns(s, q);
        ParentsFixed(s, c, p, op, q);
        SameChildren(s, t, q, s.procs[q].pc.i);
      }
    } else if t.procs[p].pc.WtScan? {
      if s.procs[p].pc.WtScan? {
        ScanKeepsParents(s, c, p, op);
        SameChildren(s, t, p, s.procs[p].pc.i);
        NextChild(s, t, p, s.procs[p].pc.i);
      }
    }
  }

  lemma {:induction false} SameChildren(s: State, t: State, q: nat, n: nat)
    requires |t.procs| == |s.procs| && forall j: nat :: j < |s.procs| ==> t.procs[j].parent == s.procs[j].parent
    ensures HasChild(t, q, n) <==> HasChild(s, q, n)
  {
  }

  lemma {:induction false} NextChild(s: State, t: State, q: nat, n: nat)
    requires |t.procs| == |s.procs| && forall j: nat :: j < |s.procs| ==> t.procs[j].parent == s.procs[j].parent
    ensures HasChild(t, q, n + 1) <==> HasChild(s, q, n) || (n < |s.procs| && s.procs[n].parent == q)
  {
    if n < |s.procs| && s.procs[n].parent == q {
      assert t.procs[n].parent == q;
    }
    if HasChild(s, q, n) {
      var j: nat :| j < n && j < |s.procs| && s.procs[j].parent == q;
      assert t.procs[j].parent == q;
    }
  }

  lemma {:induction false} KeepsFathered(s: State, c: nat, p: nat, op: Op, q: nat)
    requires Steps(s, c, p) && Families(s) && q < |s.procs|
    ensures var t := Step(s, c, op);
            && |t.procs| == |s.procs|
            && var f := Fathered(t.procs[q].pc); 0 <= f < |t.procs| ==> t.procs[f].parent == q
  {
    hide Owners, States, OneCpu, Step, OnOk, Held;
    var t := Step(s, c, op);
    SelfStep(s, c, p, op);
    MakesAnother(s, p);
    assert FamilyOk(s, q);
    if q != p {
      OthersAfter(s, c, p, op, q);
    }
    var f := Fathered(t.procs[q].pc);
    if 0 <= f < |t.procs| {
      ParentsAfter(s, c, p, op, f);
      if q == p && s.procs[p].pc == FkParent(f) {
        FatherNow(s, c, p, op, f);
      } else {
        assert Making(s.procs[q].pc) == f;
        MadeIsUsed(s, q, f);
      }
    }
  }

  lemma {:induction false} ThreadKeepsFamilies(s: State, c: nat, p: nat, op: Op)
    requires Steps(s, c, p) && Families(s)
    ensures Families(Step(s, c, op))
  {
    hide Basic, Step, HasChild, Barren, Exits, Reparented, Fathered;
    SelfStep(s, c, p, op);
    forall q: nat | q < |Step(s, c, op).procs| ensures FamilyOk(Step(s, c, op), q) {
      KeepsRange(s, c, p, op, q);
      KeepsBarren(s, c, p, op, q);
      KeepsReparented(s, c, p, op, q);
      KeepsInit(s, c, p, op, q);
      KeepsHave(s, c, p, op, q);
      KeepsFathered(s, c, p, op, q);
    }
  }

  lemma {:induction false} SchedulerKeepsFamilies(s: State, c: nat, op: Op)
    requires Families(s) && c < |s.cpus| && !s.cpus[c].Run?
    ensures Families(Step(s, c, op))
  {
    hide Step, Leaving, Exits, Reparented, Fathered;
    var t := Step(s, c, op);
    SchedulerStep(s, c, op);
    forall q: nat | q < |t.procs| ensures FamilyOk(t, q) {
      assert FamilyOk(s, q);
      forall n: nat ensures HasChild(t, q, n) <==> HasChild(s, q, n) {
        SameChildren(s, t, q, n);
      }
    }
  }

  // ---- Every run ----------------------------------------------------------------------------------------

  lemma {:induction false} StepKeepsFamilies(s: State, c: nat, op: Op)
    requires Inv(s) && Families(s)
    ensures Families(Step(s, c, op))
  {
    hide Basic, SleepOk, WaitOk, InstrOf, Exec, FamilyOk;
    if c < |s.cpus| {
      if s.cpus[c].Run? {
        CpuInRange(s, c);
        ThreadKeepsFamilies(s, c, s.cpus[c].p, op);
      } else {
        SchedulerKeepsFamilies(s, c, op);
      }
    }
  }

  lemma {:induction false} RunKeepsFamilies(s: State, run: seq<(nat, Op)>)
    requires Inv(s) && Families(s)
    ensures Families(After(s, run))
    decreases |run|
  {
    hide Inv, Step, Families;
    if run != [] {
      StepKeepsInv(s, run[0].0, run[0].1);
      StepKeepsFamilies(s, run[0].0, run[0].1);
      RunKeepsFamilies(Step(s, run[0].0, run[0].1), run[1..]);
    }
  }

  lemma {:induction false} ReachableFamilies(n: nat, m: nat, run: seq<(nat, Op)>)
    ensures var s := After(Boot(n, m), run); Inv(s) && Families(s) && |s.procs| == n && |s.cpus| == m
  {
    hide Inv, After, Families;
    ReachableInv(n, m, run);
    ReachableInv(n, m, []);
    AfterNothing(Boot(n, m));
    BootFamilies(n, m);
    RunKeepsFamilies(Boot(n, m), run);
  }

  lemma AfterNothing(s: State)
    ensures After(s, []) == s
  {
  }

  lemma BootFamilies(n: nat, m: nat)
    ensures Families(Boot(n, m))
  {
  }

  /** No orphans: after any run a process has no parent, or one that is alive. */
  lemma {:induction false} ParentsLive(n: nat, m: nat, run: seq<(nat, Op)>, j: nat)
    requires j < n
    ensures var s := After(Boot(n, m), run);
            && j < |s.procs| == n
            && var q := s.procs[j].parent;
               0 <= q ==>
                 q < n && q != j && s.procs[q].state in {SLEEPING, RUNNABLE, RUNNING} && !Leaving(s.procs[q].pc)
  {
    hide After, Inv, Boot;
    ReachableFamilies(n, m, run);
    var s := After(Boot(n, m), run);
    assert FamilyOk(s, j);
    var q := s.procs[j].parent;
    if 0 <= q {
      assert FamilyOk(s, q);
      assert HasChild(s, q, n);
    }
  }

  /** What wait does at the end of its scan, after any run: it returns exactly if the process
      has no children or has been killed; otherwise it goes to sleep, and then none of the
      children is a ZOMBIE. */
  lemma {:induction false} WaitSleepsIff(n: nat, m: nat, run: seq<(nat, Op)>, c: nat, p: nat, op: Op)
    requires var s := After(Boot(n, m), run);
             && c < |s.cpus| && s.cpus[c] == Run(p) && p < |s.procs| == n
             && s.procs[p].pc.WtScan? && s.procs[p].pc.i >= n
    ensures var s := After(Boot(n, m), run);
            var t := Step(s, c, op);
            && |t.procs| == n
            && t.procs[p].pc == (if !HasChild(s, p, n) || s.procs[p].killed then WtRelease else SlTakeP(Waiting))
            && NoZombie(s, p, n)
  {
    hide After, Basic, Boot, Step;
    ReachableFamilies(n, m, run);
    var s := After(Boot(n, m), run);
    assert FamilyOk(s, p) && WaitOk(s, p);
    var i := s.procs[p].pc.i;
    assert HasChild(s, p, i) <==> HasChild(s, p, n) by {
      if HasChild(s, p, i) {
        var j: nat :| j < i && j < |s.procs| && s.procs[j].parent == p;
      }
    }
    OwnAfter(s, c, p, op);
  }

  /** fork: after any run, the process that fork makes RUNNABLE is a new child of the caller. */
  lemma {:induction false} ForkMakesChild(n: nat, m: nat, run: seq<(nat, Op)>, c: nat, p: nat, q: nat, op: Op)
    requires var s := After(Boot(n, m), run);
             && c < |s.cpus| && s.cpus[c] == Run(p) && p < |s.procs| == n && s.procs[p].pc == FkReady(q)
             && !op.Preempt?
    ensures var s := After(Boot(n, m), run);
            var t := Step(s, c, op);
            && q < n == |t.procs| && s.procs[q].state == USED && s.procs[q].parent == p
            && (PLock(q) !in s.owner ==> t.procs[q].state == RUNNABLE && t.procs[q].parent == p && t.procs[p].pc.User?)
  {
    hide After, Boot, Step, SleepOk, WaitOk, Owners, States, OneCpu;
    ReachableFamilies(n, m, run);
    var s := After(Boot(n, m), run);
    assert FamilyOk(s, p);
    MadeIsUsed(s, p, q);
    RunningOk(s, c, p);
    MakesAnother(s, p);
    OwnAfter(s, c, p, op);
  }

  /** kill marks the process and makes it RUNNABLE if it sleeps; nobody else changes. */
  lemma {:induction false} KillWakes(s: State, c: nat, p: nat, q: nat)
    requires Steps(s, c, p) && s.procs[p].pc.User? && q < |s.procs| && q != p && PLock(q) !in s.owner
    ensures var t := Step(s, c, DoKill(q));
            && |t.procs| == |s.procs| && t.procs[q].killed && t.procs[q].pc == s.procs[q].pc
            && t.procs[q].state == (if s.procs[q].state == SLEEPING then RUNNABLE else s.procs[q].state)
            && forall r: nat :: r < |s.procs| && r != q ==> t.procs[r] == s.procs[r]
  {
    hide Basic, Step;
    OwnAfter(s, c, p, DoKill(q));
  }
}
