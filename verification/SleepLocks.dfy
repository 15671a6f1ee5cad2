/** A sleep lock has at most one holder, on every run of the scheduling model. */
module SleepLocks {
  import opened Scheduling
  import opened SchedulingInv
  import opened SleepWakeup

  /** (p, l): process p has come through acquiresleep(l) and not released l since. */
  type Holds = set<(nat, nat)>

  function NextHolds(s: State, h: Holds, c: nat): Holds {
    if c < |s.cpus| && s.cpus[c].Run? && s.cpus[c].p < |s.procs| then
      var p := s.cpus[c].p;
      match s.procs[p].pc
      case AsTake(l) => h + {(p, l)}
      case RsClear(l) => h - {(p, l)}
      case _ => h
    else h
  }

  /** Whoever releases a sleep lock holds it. */
  predicate Releases(s: State, h: Holds, c: nat) {
    c < |s.cpus| && s.cpus[c].Run? && s.cpus[c].p < |s.procs| && s.procs[s.cpus[c].p].pc.RsClear? ==>
      (s.cpus[c].p, s.procs[s.cpus[c].p].pc.l) in h
  }

  function HoldersAfter(s: State, h: Holds, run: seq<(nat, Op)>): Holds
    decreases |run|
  {
    if run == [] then h
    else HoldersAfter(Step(s, run[0].0, run[0].1), NextHolds(s, h, run[0].0), run[1..])
  }

  /** A run in which every sleep lock is released by its holder. */
  predicate Orderly(s: State, h: Holds, run: seq<(nat, Op)>)
    decreases |run|
  {
    run == [] ||
    (Releases(s, h, run[0].0) && Orderly(Step(s, run[0].0, run[0].1), NextHolds(s, h, run[0].0), run[1..]))
  }

  // ---- The invariant ----------------------------------------------------------------------------

  ghost predicate OneEach(h: Holds) {
    forall p: nat, q: nat, l: nat :: (p, l) in h && (q, l) in h ==> p == q
  }

  ghost predicate HoldInv(s: State, h: Holds) {
    && OneEach(h)
    && (forall l: nat :: l in s.locked <==> exists p: nat :: (p, l) in h)
    && (forall p: nat :: p < |s.procs| && s.procs[p].pc.AsTake? ==> s.procs[p].pc.l !in s.locked)
  }

  /** A thread comes to the store that takes l only from the test, with l free. */
  ghost predicate ComesToTake(locked: set<nat>, a: Proc, b: Proc) {
    b.pc.AsTake? ==> b.pc == a.pc || (a.pc == AsTest(b.pc.l) && b.pc.l !in locked)
  }

  lemma TakePreempted(locked: set<nat>, a: Proc, p: nat)
    ensures Saved(a.pc) ==> ComesToTake(locked, a, Own(Goto(YdTakeP(a.pc)), a, p))
  {
  }

  lemma TakeChoice(s: State, p: nat, op: Op)
    requires p < |s.procs| && s.procs[p].pc.User?
    ensures ComesToTake(s.locked, s.procs[p], Own(ChoiceOf(s, p, op), s.procs[p], p))
  {
  }

  lemma TakeFork(s: State, p: nat, q: nat)
    requires p < |s.procs| && q != p && (s.procs[p].pc == FkParent(q) || s.procs[p].pc == FkReady(q))
    ensures ComesToTake(s.locked, s.procs[p], Own(ForkOne(s, p, q, s.procs[p].pc), s.procs[p], p))
  {
  }

  lemma {:induction false} TakeLine(s: State, p: nat)
    requires p < |s.procs| && OnOk(s.procs[p], p)
    ensures ComesToTake(s.locked, s.procs[p], Own(Line(s, p, s.procs[p]), s.procs[p], p))
    ensures s.procs[p].pc.AsTake? ==> !Own(Line(s, p, s.procs[p]), s.procs[p], p).pc.AsTake?
    ensures s.procs[p].pc.AsTake? ==> !Line(s, p, s.procs[p]).Acquire?
  {
  }

  lemma {:induction false} TakeLoops(s: State, c: nat, p: nat, op: Op)
    requires Steps(s, c, p) && (s.procs[p].pc.Waking? || s.procs[p].pc.WtScan? || s.procs[p].pc.ExReparent?)
    ensures |Step(s, c, op).procs| == |s.procs| && !Step(s, c, op).procs[p].pc.AsTake?
  {
    hide States, Makers, Owners, Held, Runs, OneCpu, Step;
    RunningOk(s, c, p);
    LoopAfter(s, c, p, op);
  }

  lemma {:induction false} TakeSelf(s: State, c: nat, p: nat, op: Op)
    requires Steps(s, c, p)
    ensures var t := Step(s, c, op);
            && |t.procs| == |s.procs|
            && (t.procs[p].pc.AsTake? ==>
                  s.procs[p].pc == AsTest(t.procs[p].pc.l) && t.procs[p].pc.l !in s.locked)
  {
    hide States, Makers, Owners, Held, Runs, OneCpu, Own, Line, ForkOne, ChoiceOf, Step;
    var me := s.procs[p];
    if me.pc.Waking? || me.pc.WtScan? || me.pc.ExReparent? {
      TakeLoops(s, c, p, op);
    } else {
      RunningOk(s, c, p);
      MakesAnother(s, p);
      OwnAfter(s, c, p, op);
      TakePreempted(s.locked, me, p);
      match me.pc
      case User => TakeChoice(s, p, op);
      case FkParent(q) => TakeFork(s, p, q);
      case FkReady(q) => TakeFork(s, p, q);
      case _ => TakeLine(s, p);
    }
  }

  /** Two threads are never both about to take the same sleep lock. */
  lemma {:induction false} OneTaker(s: State, p: nat, q: nat, l: nat)
    requires Basic(s) && p < |s.procs| && q < |s.procs| && s.procs[p].pc == s.procs[q].pc == AsTake(l)
    ensures p == q
  {
    hide Owners, Makers, OneCpu, Runs;
    PlacedRuns(s, p);
    PlacedRuns(s, q);
    OneHolder(s, p, q, SLock(l));
  }

  lemma {:induction false} HoldsMove(h: Holds, p: nat, l: nat)
    requires OneEach(h)
    ensures OneEach(h - {(p, l)})
    ensures (forall q: nat :: (q, l) !in h) ==> OneEach(h + {(p, l)})
  {
  }

  /** The lock flags follow the holders. */
  lemma {:induction false} FlagsMove(s: State, h: Holds, c: nat, p: nat, op: Op)
    requires Steps(s, c, p) && HoldInv(s, h) && Releases(s, h, c)
    ensures OneEach(NextHolds(s, h, c))
    ensures forall l: nat :: l in Step(s, c, op).locked <==> exists q: nat :: (q, l) in NextHolds(s, h, c)
  {
    hide Basic, Step;
    LockedAfter(s, c, p, op);
    var k, t := NextHolds(s, h, c), Step(s, c, op);
    var pc := s.procs[p].pc;
    if pc.AsTake? {
      HoldsMove(h, p, pc.l);
      assert (p, pc.l) in k;
      forall l: nat ensures l in t.locked <==> exists q: nat :: (q, l) in k {
        if l != pc.l && l in s.locked {
          var q: nat :| (q, l) in h;
          assert (q, l) in k;
        }
        if l != pc.l && exists q: nat :: (q, l) in k {
          var q: nat :| (q, l) in k;
          assert (q, l) in h;
        }
      }
    } else if pc.RsClear? {
      HoldsMove(h, p, pc.l);
      forall l: nat ensures l in t.locked <==> exists q: nat :: (q, l) in k {
        if l != pc.l && l in s.locked {
          var q: nat :| (q, l) in h;
          assert (q, l) in k;
        }
        if exists q: nat :: (q, l) in k {
          var q: nat :| (q, l) in k;
          assert (q, l) in h && (q, l) != (p, pc.l);
        }
      }
    }
  }

  lemma {:induction false} ThreadKeeps(s: State, h: Holds, c: nat, p: nat, op: Op)
    requires Steps(s, c, p) && HoldInv(s, h) && Releases(s, h, c)
    ensures HoldInv(Step(s, c, op), NextHolds(s, h, c))
  {
    hide Basic, Step, NextHolds, OneEach;
    FlagsMove(s, h, c, p, op);
    LockedAfter(s, c, p, op);
    TakeSelf(s, c, p, op);
    var t := Step(s, c, op);
    forall q: nat | q < |t.procs| && t.procs[q].pc.AsTake? ensures t.procs[q].pc.l !in t.locked {
      if q != p {
        OtherAfter(s, c, p, op, q);
        if s.procs[p].pc == s.procs[q].pc {
          OneTaker(s, p, q, s.procs[q].pc.l);
        }
      }
    }
  }

  lemma {:induction false} StepKeepsHolds(s: State, h: Holds, c: nat, op: Op)
    requires Inv(s) && HoldInv(s, h) && Releases(s, h, c)
    ensures HoldInv(Step(s, c, op), NextHolds(s, h, c))
  {
    hide Basic, SleepOk, WaitOk, InstrOf, Exec;
    if c < |s.cpus| {
      if s.cpus[c].Run? {
        CpuInRange(s, c);
        ThreadKeeps(s, h, c, s.cpus[c].p, op);
      } else {
        SchedulerStep(s, c, op);
      }
    }
  }

  lemma {:induction false} RunKeepsHolds(s: State, h: Holds, run: seq<(nat, Op)>)
    requires Inv(s) && HoldInv(s, h) && Orderly(s, h, run)
    ensures HoldInv(After(s, run), HoldersAfter(s, h, run))
    decreases |run|
  {
    hide Inv, HoldInv, Step, NextHolds, Releases;
    if run != [] {
      StepKeepsHolds(s, h, run[0].0, run[0].1);
      StepKeepsInv(s, run[0].0, run[0].1);
      RunKeepsHolds(Step(s, run[0].0, run[0].1), NextHolds(s, h, run[0].0), run[1..]);
    }
  }

  /** Mutual exclusion: after any run in which sleep locks are released by their holders, a
      sleep lock has at most one holder, and is marked as locked exactly if it has one. */
  lemma {:induction false} OneSleepLockHolder(n: nat, m: nat, run: seq<(nat, Op)>, l: nat)
    requires Orderly(Boot(n, m), {}, run)
    ensures var h := HoldersAfter(Boot(n, m), {}, run);
            && (forall p: nat, q: nat :: (p, l) in h && (q, l) in h ==> p == q)
            && (l in After(Boot(n, m), run).locked <==> exists p: nat :: (p, l) in h)
  {
    hide Inv, After, HoldersAfter, Orderly;
    ReachableInv(n, m, []);
    NoRun(Boot(n, m));
    BootHolds(n, m);
    RunKeepsHolds(Boot(n, m), {}, run);
  }

  lemma NoRun(s: State)
    ensures After(s, []) == s
  {
  }

  lemma BootHolds(n: nat, m: nat)
    ensures HoldInv(Boot(n, m), {})
  {
  }
}
