/** Each operation of the scheduling model, on a CPU that nobody gets in the way of, does what
    its callers expect of it. */
module Undisturbed {
  import opened Scheduling

  /** CPU c alone takes k steps. */
  ghost function Turns(s: State, c: nat, k: nat): State
    decreases k
  {
    if k == 0 then s else Turns(Step(s, c, Stay), c, k - 1)
  }

  /** CPU c alone gets from s to t. */
  ghost predicate Leads(s: State, c: nat, t: State) {
    exists k: nat :: Turns(s, c, k) == t
  }

  lemma Here(s: State, c: nat)
    ensures Leads(s, c, s)
  {
    assert Turns(s, c, 0) == s;
  }

  lemma {:induction false} First(s: State, c: nat, t: State)
    requires Leads(Step(s, c, Stay), c, t)
    ensures Leads(s, c, t)
  {
    hide Step;
    var k: nat :| Turns(Step(s, c, Stay), c, k) == t;
    assert Turns(s, c, k + 1) == t;
  }

  lemma {:induction false} Then(s: State, c: nat, t: State, u: State)
    requires Leads(s, c, t) && Leads(t, c, u)
    ensures Leads(s, c, u)
  {
    hide Step;
    var a: nat :| Turns(s, c, a) == t;
    var b: nat :| Turns(t, c, b) == u;
    TurnsAdd(s, c, a, b);
    assert Turns(s, c, a + b) == u;
  }

  lemma {:induction false} Through(c: nat, run: seq<State>)
    requires |run| > 0 && forall i :: 0 <= i < |run| - 1 ==> Leads(run[i], c, run[i + 1])
    ensures Leads(run[0], c, run[|run| - 1])
  {
    hide Leads;
    if |run| == 1 {
      Here(run[0], c);
    } else {
      Through(c, run[1..]);
      Then(run[0], c, run[1], run[|run| - 1]);
    }
  }

  lemma {:induction false} TurnsAdd(s: State, c: nat, a: nat, b: nat)
    ensures Turns(s, c, a + b) == Turns(Turns(s, c, a), c, b)
    decreases a
  {
    hide Step;
    if a > 0 {
      TurnsAdd(Step(s, c, Stay), c, a - 1, b);
    }
  }

  // ---- One instruction ------------------------------------------------------------------------------

  /** CPU c runs process p. */
  predicate Runs(s: State, c: nat, p: nat) {
    c < |s.cpus| && s.cpus[c] == Run(p) && p < |s.procs|
  }

  /** s, but for the entry of p and the owners of locks. */
  function With(s: State, p: nat, pr: Proc, owner: map<LockId, nat>): State
    requires p < |s.procs|
  {
    s.(procs := s.procs[p := pr], owner := owner)
  }

  /** The thread has given up the CPU, with its lock held. */
  function Off(s: State, c: nat, p: nat, pr: Proc): State
    requires p < |s.procs| && c < |s.cpus|
  {
    With(s, p, pr, s.owner[PLock(p) := c]).(cpus := s.cpus[c := Back(p)])
  }

  lemma {:induction false} Goes(s: State, c: nat, p: nat, pr: Proc, o: map<LockId, nat>, ins: Instr)
    requires Runs(s, c, p) && ins == InstrOf(With(s, p, pr, o), p, Stay)
    ensures ins.Goto? ==> Leads(With(s, p, pr, o), c, With(s, p, pr.(pc := ins.next), o))
    ensures ins.Acquire? && ins.lock !in o ==>
              Leads(With(s, p, pr, o), c, With(s, p, pr.(pc := ins.next), o[ins.lock := c]))
    ensures ins.Release? ==> Leads(With(s, p, pr, o), c, With(s, p, pr.(pc := ins.next), o - {ins.lock}))
    ensures ins.Put? && ins.i == p ==> Leads(With(s, p, pr, o), c, With(s, p, ins.proc.(pc := ins.next), o))
    ensures ins.SetLocked? ==>
              var l := if ins.on then s.locked + {ins.l} else s.locked - {ins.l};
              Leads(With(s, p, pr, o), c, With(s.(locked := l), p, pr.(pc := ins.next), o))
    ensures ins.Swtch? ==>
              Leads(With(s, p, pr, o), c, With(s, p, pr.(pc := ins.next), o).(cpus := s.cpus[c := Back(p)]))
  {
    hide InstrOf, Leads;
    var x := With(s, p, pr, o);
    var t := Step(x, c, Stay);
    assert x.procs[p] == pr;
    PutInRange(x, p, Stay);
    assert t == Exec(x, c, p, ins);
    if !ins.Spin? {
      var next := if ins.Put? then ins.proc.(pc := ins.next) else pr.(pc := ins.next);
      assert x.procs[p := next] == s.procs[p := next];
      if ins.Put? && ins.i == p {
        assert x.procs[p := ins.proc][p := next] == s.procs[p := next];
      }
      Here(t, c);
      First(x, c, t);
    }
  }

  /** Places where a thread is in straight-line code. */
  predicate Straight(pc: Pc) {
    !pc.User? && !pc.Waking? && !pc.WtScan? && !pc.ExReparent? && !pc.FkParent? && !pc.FkReady?
  }

  lemma {:induction false} Does(s: State, c: nat, p: nat, pr: Proc, o: map<LockId, nat>, ins: Instr)
    requires Runs(s, c, p) && Straight(pr.pc) && ins == Line(With(s, p, pr, o), p, pr)
    ensures ins.Goto? ==> Leads(With(s, p, pr, o), c, With(s, p, pr.(pc := ins.next), o))
    ensures ins.Acquire? && ins.lock !in o ==>
              Leads(With(s, p, pr, o), c, With(s, p, pr.(pc := ins.next), o[ins.lock := c]))
    ensures ins.Release? ==> Leads(With(s, p, pr, o), c, With(s, p, pr.(pc := ins.next), o - {ins.lock}))
    ensures ins.Put? && ins.i == p ==> Leads(With(s, p, pr, o), c, With(s, p, ins.proc.(pc := ins.next), o))
    ensures ins.SetLocked? ==>
              var l := if ins.on then s.locked + {ins.l} else s.locked - {ins.l};
              Leads(With(s, p, pr, o), c, With(s.(locked := l), p, pr.(pc := ins.next), o))
    ensures ins.Swtch? ==>
              Leads(With(s, p, pr, o), c, With(s, p, pr.(pc := ins.next), o).(cpus := s.cpus[c := Back(p)]))
  {
    hide Leads, Line, Step, Exec;
    Goes(s, c, p, pr, o, ins);
  }

  lemma {:induction false} Starts(s: State, c: nat, p: nat, op: Op, pc: Pc)
    requires Runs(s, c, p) && s.procs[p].pc.User? && !op.Preempt? && ChoiceOf(s, p, op) == Goto(pc)
    ensures Step(s, c, op) == With(s, p, s.procs[p].(pc := pc), s.owner)
  {
    hide Line, WakeOne, ScanOne, ReparentOne, ForkOne, ChoiceOf;
  }

  // ---- acquiresleep and sleep -----------------------------------------------------------------------

  /** An open sleep lock is taken, and nothing else changes. */
  lemma {:induction false} AcquireOpen(s: State, c: nat, p: nat, l: nat)
    requires Runs(s, c, p) && s.procs[p].pc.User? && l !in s.locked && SLock(l) !in s.owner
    ensures Leads(Step(s, c, DoAcquire(l)), c, s.(locked := s.locked + {l}))
  {
    hide Leads, Step, InstrOf, Exec;
    var me, o, held := s.procs[p], s.owner, s.owner[SLock(l) := c];
    var t := s.(locked := s.locked + {l});
    Does(s, c, p, me.(pc := AsAcquire(l)), o, Acquire(SLock(l), AsTest(l)));
    Does(s, c, p, me.(pc := AsTest(l)), held, Goto(AsTake(l)));
    Does(s, c, p, me.(pc := AsTake(l)), held, SetLocked(l, true, AsRelease(l)));
    Does(t, c, p, me.(pc := AsRelease(l)), held, Release(SLock(l), User));
    assert held - {SLock(l)} == o && With(t, p, me.(pc := User), o) == t;
    Starts(s, c, p, DoAcquire(l), AsAcquire(l));
    Through(c, [With(s, p, me.(pc := AsAcquire(l)), o), With(s, p, me.(pc := AsTest(l)), held),
                With(s, p, me.(pc := AsTake(l)), held), With(t, p, me.(pc := AsRelease(l)), held), t]);
  }

  /** A process that sleeps, as sleep leaves it. */
  function Asleep(me: Proc, p: nat, k: Client): Proc {
    me.(state := SLEEPING, chan := ChanOf(k, p), pc := SlResumed(k))
  }

  /** sleep lets go of the caller's lock and of the CPU, and of nothing else. */
  lemma {:induction false} Sleeps(s: State, c: nat, p: nat, k: Client)
    requires Runs(s, c, p) && s.procs[p].pc == SlTakeP(k) && LkOf(k) in s.owner && PLock(p) !in s.owner
    ensures Leads(s, c, Off(s.(owner := s.owner - {LkOf(k)}), c, p, Asleep(s.procs[p], p, k)))
  {
    hide Leads, Step, InstrOf, Exec, ChanOf;
    var me, o := s.procs[p], s.owner;
    var both := o[PLock(p) := c];
    var mine := both - {LkOf(k)};
    var asleep := Asleep(me, p, k);
    Does(s, c, p, me, o, Acquire(PLock(p), SlDropLk(k)));
    Does(s, c, p, me.(pc := SlDropLk(k)), both, Release(LkOf(k), SlMark(k)));
    Does(s, c, p, me.(pc := SlMark(k)), mine,
         Put(p, me.(pc := SlMark(k), chan := ChanOf(k, p), state := SLEEPING), SlSwtch(k)));
    Does(s, c, p, asleep.(pc := SlSwtch(k)), mine, Swtch(SlResumed(k)));
    assert With(s, p, me, o) == s;
    var off := Off(s.(owner := o - {LkOf(k)}), c, p, asleep);
    assert mine == (o - {LkOf(k)})[PLock(p) := c];
    assert off == With(s, p, asleep, mine).(cpus := s.cpus[c := Back(p)]);
    Through(c, [s, With(s, p, me.(pc := SlDropLk(k)), both), With(s, p, me.(pc := SlMark(k)), mine),
                With(s, p, asleep.(pc := SlSwtch(k)), mine), off]);
  }

  /** At a closed sleep lock the caller goes to sleep on it, and nothing else changes. */
  lemma {:induction false} AcquireClosed(s: State, c: nat, p: nat, l: nat)
    requires Runs(s, c, p) && s.procs[p].pc.User? && l in s.locked && SLock(l) !in s.owner && PLock(p) !in s.owner
    ensures Leads(Step(s, c, DoAcquire(l)), c, Off(s, c, p, Asleep(s.procs[p], p, Acq(l))))
  {
    hide Leads, Step, InstrOf, Exec, Off;
    var me, o, held := s.procs[p], s.owner, s.owner[SLock(l) := c];
    Does(s, c, p, me.(pc := AsAcquire(l)), o, Acquire(SLock(l), AsTest(l)));
    Does(s, c, p, me.(pc := AsTest(l)), held, Goto(SlTakeP(Acq(l))));
    var t := With(s, p, me.(pc := SlTakeP(Acq(l))), held);
    Sleeps(t, c, p, Acq(l));
    assert held - {SLock(l)} == o;
    OffAgain(s, c, p, t, Asleep(me, p, Acq(l)));
    Starts(s, c, p, DoAcquire(l), AsAcquire(l));
    Through(c, [With(s, p, me.(pc := AsAcquire(l)), o), With(s, p, me.(pc := AsTest(l)), held), t,
                Off(s, c, p, Asleep(me, p, Acq(l)))]);
  }

  /** What the entry of p and the owners were on the way does not matter. */
  lemma OffAgain(s: State, c: nat, p: nat, t: State, pr: Proc)
    requires p < |s.procs| && c < |s.cpus| && |t.procs| == |s.procs| && t == With(s, p, t.procs[p], t.owner)
    ensures Off(t.(owner := s.owner), c, p, pr) == Off(s, c, p, pr)
  {
    assert t.procs[p := pr] == s.procs[p := pr];
  }

  // ---- wakeup and releasesleep ----------------------------------------------------------------------

  /** Everybody from entry j on who sleeps on ch is RUNNABLE, but for the caller. */
  function Woken(procs: seq<Proc>, p: nat, ch: Chan, j: nat): (r: seq<Proc>)
    ensures |r| == |procs| && (p < |procs| ==> r[p] == procs[p])
  {
    seq(|procs|, q requires 0 <= q < |procs| =>
          if q >= j && q != p && procs[q].state == SLEEPING && procs[q].chan == ch then procs[q].(state := RUNNABLE)
          else procs[q])
  }

  lemma {:induction false} WakesAll(s: State, c: nat, p: nat, ch: Chan, j: nat, ret: Pc)
    requires Runs(s, c, p) && s.procs[p].pc == Waking(ch, j, ret)
    requires forall q: nat :: q < |s.procs| && q != p ==> PLock(q) !in s.owner
    ensures Leads(s, c, s.(procs := Woken(s.procs, p, ch, j)[p := s.procs[p].(pc := ret)]))
    decreases |s.procs| - j
  {
    hide Leads, Line, ScanOne, ReparentOne, ForkOne;
    var t := Step(s, c, Stay);
    var end := s.(procs := Woken(s.procs, p, ch, j)[p := s.procs[p].(pc := ret)]);
    if j >= |s.procs| {
      assert t.procs == end.procs;
      Here(t, c);
    } else {
      WakesAll(t, c, p, ch, j + 1, ret);
      assert Woken(t.procs, p, ch, j + 1)[p := t.procs[p].(pc := ret)] == end.procs;
    }
    First(s, c, end);
  }

  /** releasesleep opens the lock and wakes everybody who sleeps on it. */
  lemma {:induction false} ReleaseWakes(s: State, c: nat, p: nat, l: nat)
    requires Runs(s, c, p) && s.procs[p].pc.User? && SLock(l) !in s.owner
    requires forall q: nat :: q < |s.procs| && q != p ==> PLock(q) !in s.owner
    ensures Leads(Step(s, c, DoRelease(l)), c,
                  s.(procs := Woken(s.procs, p, LockChan(l), 0), locked := s.locked - {l}))
  {
    hide Leads, Step, InstrOf, Exec;
    var me, o, held := s.procs[p], s.owner, s.owner[SLock(l) := c];
    var t := s.(locked := s.locked - {l});
    var wake := Waking(LockChan(l), 0, RsRelease(l));
    Does(s, c, p, me.(pc := RsAcquire(l)), o, Acquire(SLock(l), RsClear(l)));
    Does(s, c, p, me.(pc := RsClear(l)), held, SetLocked(l, false, wake));
    var u := With(t, p, me.(pc := wake), held);
    WakesAll(u, c, p, LockChan(l), 0, RsRelease(l));
    var end := s.(procs := Woken(s.procs, p, LockChan(l), 0), locked := s.locked - {l});
    var v := With(end, p, me.(pc := RsRelease(l)), held);
    SameWoken(s, u, p, LockChan(l), me.(pc := RsRelease(l)));
    Does(end, c, p, me.(pc := RsRelease(l)), held, Release(SLock(l), User));
    assert held - {SLock(l)} == o && With(end, p, me.(pc := User), o).procs == end.procs;
    Starts(s, c, p, DoRelease(l), RsAcquire(l));
    Through(c, [With(s, p, me.(pc := RsAcquire(l)), o), With(s, p, me.(pc := RsClear(l)), held), u, v, end]);
  }

  // ---- wait -----------------------------------------------------------------------------------------

  ghost predicate IsChild(s: State, p: nat, j: nat) {
    j < |s.procs| && s.procs[j].parent == p
  }

  ghost predicate ChildBelow(s: State, p: nat, i: nat, n: nat) {
    exists j: nat :: i <= j < n && IsChild(s, p, j)
  }

  /** The scan gets past entries that are not ZOMBIE children. */
  lemma {:induction false} ScansTo(s: State, c: nat, p: nat, i: nat, have: bool, n: nat)
    requires Runs(s, c, p) && s.procs[p].pc == WtScan(i, have) && i <= n <= |s.procs|
    requires forall q: nat :: q < |s.procs| ==> PLock(q) !in s.owner
    requires forall q: nat :: i <= q < n && IsChild(s, p, q) ==> s.procs[q].state != ZOMBIE
    ensures Leads(s, c, With(s, p, s.procs[p].(pc := WtScan(n, have || ChildBelow(s, p, i, n))), s.owner))
    decreases n - i
  {
    hide Leads, Line, WakeOne, ReparentOne, ForkOne;
    var end := With(s, p, s.procs[p].(pc := WtScan(n, have || ChildBelow(s, p, i, n))), s.owner);
    if i == n {
      assert end.procs == s.procs;
      Here(s, c);
    } else {
      var now := have || IsChild(s, p, i);
      var t := Step(s, c, Stay);
      assert t == With(s, p, s.procs[p].(pc := WtScan(i + 1, now)), s.owner);
      forall q: nat | q < |s.procs| ensures IsChild(t, p, q) <==> IsChild(s, p, q) {
      }
      ScansTo(t, c, p, i + 1, now, n);
      assert have || ChildBelow(s, p, i, n) <==> now || ChildBelow(t, p, i + 1, n);
      assert With(t, p, t.procs[p].(pc := WtScan(n, have || ChildBelow(s, p, i, n))), s.owner).procs == end.procs;
      First(s, c, end);
    }
  }

  /** Nobody gets in the way of wait and exit. */
  ghost predicate Clear(s: State) {
    WaitLock !in s.owner && forall q: nat :: q < |s.procs| ==> PLock(q) !in s.owner
  }

  lemma {:induction false} WaitScans(s: State, c: nat, p: nat, n: nat)
    requires Runs(s, c, p) && s.procs[p].pc.User? && Clear(s) && n <= |s.procs|
    requires forall q: nat :: q < n && IsChild(s, p, q) ==> s.procs[q].state != ZOMBIE
    ensures Leads(Step(s, c, DoWait), c,
                  With(s, p, s.procs[p].(pc := WtScan(n, ChildBelow(s, p, 0, n))), s.owner[WaitLock := c]))
  {
    hide Leads, Step, InstrOf, Exec;
    var me, o, held := s.procs[p], s.owner, s.owner[WaitLock := c];
    Does(s, c, p, me.(pc := WtAcquire), o, Acquire(WaitLock, WtScan(0, false)));
    var t := With(s, p, me.(pc := WtScan(0, false)), held);
    forall q: nat | q < |s.procs| ensures IsChild(t, p, q) <==> IsChild(s, p, q) {
    }
    ScansTo(t, c, p, 0, false, n);
    assert ChildBelow(t, p, 0, n) <==> ChildBelow(s, p, 0, n);
    var end := With(s, p, me.(pc := WtScan(n, ChildBelow(s, p, 0, n))), held);
    assert With(t, p, me.(pc := WtScan(n, ChildBelow(s, p, 0, n))), held).procs == end.procs;
    Starts(s, c, p, DoWait, WtAcquire);
    Through(c, [With(s, p, me.(pc := WtAcquire), o), t, end]);
  }

  lemma {:induction false} Reaps(s: State, c: nat, p: nat, z: nat, me: Proc, o: map<LockId, nat>)
    requires Runs(s, c, p) && z != p && IsChild(s, p, z) && s.procs[z].state == ZOMBIE && PLock(z) !in o
    requires me.pc.WtScan? && me.pc.i == z
    ensures Leads(With(s, p, me, o), c,
                  With(s.(procs := s.procs[z := Proc(UNUSED, NoChan, -1, false, Dead)]), p, me.(pc := WtRelease), o))
  {
    hide Leads, Line, WakeOne, ReparentOne, ForkOne;
    var t := With(s.(procs := s.procs[z := Proc(UNUSED, NoChan, -1, false, Dead)]), p, me.(pc := WtRelease), o);
    assert Step(With(s, p, me, o), c, Stay).procs == t.procs;
    Here(t, c);
    First(With(s, p, me, o), c, t);
  }

  /** wait frees the first ZOMBIE child, and nothing else changes. */
  lemma {:induction false} WaitReapsFirst(s: State, c: nat, p: nat, z: nat)
    requires Runs(s, c, p) && s.procs[p].pc.User? && Clear(s)
    requires z != p && IsChild(s, p, z) && s.procs[z].state == ZOMBIE
    requires forall q: nat :: q < z && IsChild(s, p, q) ==> s.procs[q].state != ZOMBIE
    ensures Leads(Step(s, c, DoWait), c, s.(procs := s.procs[z := Proc(UNUSED, NoChan, -1, false, Dead)]))
  {
    hide Leads, Step, Exec, InstrOf;
    var me, held := s.procs[p], s.owner[WaitLock := c];
    WaitScans(s, c, p, z);
    var t := With(s, p, me.(pc := WtScan(z, ChildBelow(s, p, 0, z))), held);
    var end := s.(procs := s.procs[z := Proc(UNUSED, NoChan, -1, false, Dead)]);
    var u := With(end, p, me.(pc := WtRelease), held);
    Reaps(s, c, p, z, me.(pc := WtScan(z, ChildBelow(s, p, 0, z))), held);
    Does(end, c, p, me.(pc := WtRelease), held, Release(WaitLock, User));
    assert held - {WaitLock} == s.owner && With(end, p, me.(pc := User), s.owner).procs == end.procs;
    Through(c, [Step(s, c, DoWait), t, u, end]);
  }

  /** Without a ZOMBIE child wait returns at once if the caller has no child or is killed,
      with nothing changed; otherwise the caller goes to sleep on itself. */
  lemma {:induction false} WaitWithoutZombie(s: State, c: nat, p: nat)
    requires Runs(s, c, p) && s.procs[p].pc.User? && Clear(s)
    requires forall q: nat :: q < |s.procs| && IsChild(s, p, q) ==> s.procs[q].state != ZOMBIE
    ensures if s.procs[p].killed || !ChildBelow(s, p, 0, |s.procs|) then Leads(Step(s, c, DoWait), c, s)
            else Leads(Step(s, c, DoWait), c, Off(s, c, p, Asleep(s.procs[p], p, Waiting)))
  {
    hide Leads, Step, Exec, Off;
    var me, n, held := s.procs[p], |s.procs|, s.owner[WaitLock := c];
    WaitScans(s, c, p, n);
    var t := With(s, p, me.(pc := WtScan(n, ChildBelow(s, p, 0, n))), held);
    assert held - {WaitLock} == s.owner;
    if me.killed || !ChildBelow(s, p, 0, n) {
      Goes(s, c, p, me.(pc := WtScan(n, ChildBelow(s, p, 0, n))), held, Goto(WtRelease));
      Does(s, c, p, me.(pc := WtRelease), held, Release(WaitLock, User));
      assert With(s, p, me.(pc := User), s.owner).procs == s.procs;
      Through(c, [Step(s, c, DoWait), t, With(s, p, me.(pc := WtRelease), held), s]);
    } else {
      Goes(s, c, p, me.(pc := WtScan(n, true)), held, Goto(SlTakeP(Waiting)));
      var u := With(s, p, me.(pc := SlTakeP(Waiting)), held);
      Sleeps(u, c, p, Waiting);
      OffAgain(s, c, p, u, Asleep(me, p, Waiting));
      Through(c, [Step(s, c, DoWait), t, u, Off(s, c, p, Asleep(me, p, Waiting))]);
    }
  }

  // ---- exit -----------------------------------------------------------------------------------------

  /** The children from entry i on have gone to init, which wakes if there were any. */
  ghost function Adopted(s: State, p: nat, i: nat): (r: seq<Proc>)
    ensures |r| == |s.procs| && (p < |s.procs| && s.procs[p].parent != p ==> r[p] == s.procs[p])
  {
    seq(|s.procs|, q requires 0 <= q < |s.procs| =>
          var pr := s.procs[q];
          var wakes := q != p && pr.state == SLEEPING && pr.chan == ChildChan(INIT) && ChildBelow(s, p, i, |s.procs|);
          pr.(parent := if q >= i && pr.parent == p then INIT else pr.parent,
              state := if wakes then RUNNABLE else pr.state))
  }

  lemma {:induction false} Reparents(s: State, c: nat, p: nat, i: nat)
    requires Runs(s, c, p) && s.procs[p].pc == ExReparent(i) && s.procs[p].parent != p && p != INIT && i <= |s.procs|
    requires forall q: nat :: q < |s.procs| ==> PLock(q) !in s.owner
    ensures Leads(s, c, s.(procs := Adopted(s, p, i)[p := s.procs[p].(pc := ExReparent(|s.procs|))]))
    decreases |s.procs| - i
  {
    hide Leads, Line, WakeOne, ScanOne, ForkOne;
    var n := |s.procs|;
    var end := s.(procs := Adopted(s, p, i)[p := s.procs[p].(pc := ExReparent(n))]);
    if i == n {
      assert end.procs == s.procs;
      Here(s, c);
    } else if !IsChild(s, p, i) {
      var t := Step(s, c, Stay);
      assert t == With(s, p, s.procs[p].(pc := ExReparent(i + 1)), s.owner);
      Reparents(t, c, p, i + 1);
      PassedBy(s, t, p, i);
      First(s, c, end);
    } else {
      var t := Step(s, c, Stay);
      WakesAll(t, c, p, ChildChan(INIT), 0, ExReparent(i + 1));
      var u := t.(procs := Woken(t.procs, p, ChildChan(INIT), 0)[p := t.procs[p].(pc := ExReparent(i + 1))]);
      Reparents(u, c, p, i + 1);
      GivenAway(s, u, p, i);
      Then(t, c, u, end);
      First(s, c, end);
    }
  }

  lemma {:induction false} PassedBy(s: State, t: State, p: nat, i: nat)
    requires p < |s.procs| && i < |s.procs| && !IsChild(s, p, i)
    requires t == With(s, p, s.procs[p].(pc := ExReparent(i + 1)), s.owner)
    ensures var n := |s.procs|;
            Adopted(t, p, i + 1)[p := t.procs[p].(pc := ExReparent(n))]
            == Adopted(s, p, i)[p := s.procs[p].(pc := ExReparent(n))]
  {
    var n := |s.procs|;
    forall q: nat | q < n ensures IsChild(t, p, q) <==> IsChild(s, p, q) {
    }
    assert ChildBelow(t, p, i + 1, n) <==> ChildBelow(s, p, i, n);
  }

  lemma {:induction false} GivenAway(s: State, u: State, p: nat, i: nat)
    requires p < |s.procs| == |u.procs| && p != INIT && i < |s.procs| && IsChild(s, p, i) && i != p
    requires forall q: nat :: q < |s.procs| && q != p ==>
               u.procs[q] == Woken(s.procs[i := s.procs[i].(parent := INIT)], p, ChildChan(INIT), 0)[q]
    requires u.procs[p] == s.procs[p].(pc := ExReparent(i + 1))
    ensures var n := |s.procs|;
            Adopted(u, p, i + 1)[p := u.procs[p].(pc := ExReparent(n))]
            == Adopted(s, p, i)[p := s.procs[p].(pc := ExReparent(n))]
  {
    var n := |s.procs|;
    assert ChildBelow(s, p, i, n);
  }

  lemma {:induction false} ExitGivesAway(s: State, c: nat, p: nat, held: map<LockId, nat>)
    requires Runs(s, c, p) && s.procs[p].pc.User? && Clear(s) && p != INIT && s.procs[p].parent != p
    requires held == s.owner[WaitLock := c]
    ensures var t := s.(procs := Adopted(s, p, 0));
            Leads(Step(s, c, DoExit), c, With(t, p, s.procs[p].(pc := ExReparent(|s.procs|)), held))
  {
    hide Leads, Step, Exec, InstrOf, Adopted;
    var me, o := s.procs[p], s.owner;
    Does(s, c, p, me.(pc := ExAcquire), o, Acquire(WaitLock, ExReparent(0)));
    var a := With(s, p, me.(pc := ExReparent(0)), held);
    Reparents(a, c, p, 0);
    var b := With(s.(procs := Adopted(s, p, 0)), p, me.(pc := ExReparent(|s.procs|)), held);
    SameAdopted(s, a, p, 0, me.(pc := ExReparent(|s.procs|)));
    Starts(s, c, p, DoExit, ExAcquire);
    Through(c, [Step(s, c, DoExit), a, b]);
  }

  /** exit: the children go to init, who wakes if there were any, the parent wakes, and the
      caller is a ZOMBIE that gives up the CPU; nothing else changes. */
  lemma {:induction false} ExitLeavesZombie(s: State, c: nat, p: nat)
    requires Runs(s, c, p) && s.procs[p].pc.User? && Clear(s) && p != INIT && s.procs[p].parent != p
    ensures var me := s.procs[p];
            var left := s.(procs := Woken(Adopted(s, p, 0), p, ChildChan(me.parent), 0));
            Leads(Step(s, c, DoExit), c, Off(left, c, p, me.(state := ZOMBIE, pc := Dead)))
  {
    hide Leads, Step, Exec, InstrOf, Off, Woken, Adopted;
    var me, n, held := s.procs[p], |s.procs|, s.owner[WaitLock := c];
    var given := s.(procs := Adopted(s, p, 0));
    var left := s.(procs := Woken(Adopted(s, p, 0), p, ChildChan(me.parent), 0));
    ExitGivesAway(s, c, p, held);
    var wake := Waking(ChildChan(me.parent), 0, ExTakeP);
    LoopEnds(given, c, p, me.(pc := ExReparent(n)), held);
    var d := With(given, p, me.(pc := wake), held);
    WakesAll(d, c, p, ChildChan(me.parent), 0, ExTakeP);
    var e := With(left, p, me.(pc := ExTakeP), held);
    SameWoken(given, d, p, ChildChan(me.parent), me.(pc := ExTakeP));
    assert held - {WaitLock} == s.owner;
    Dies(left, c, p, me, held);
    Through(c, [Step(s, c, DoExit), With(given, p, me.(pc := ExReparent(n)), held), d, e,
                Off(left, c, p, me.(state := ZOMBIE, pc := Dead))]);
  }

  /** exit's loop ends with the wakeup of the parent. */
  lemma {:induction false} LoopEnds(s: State, c: nat, p: nat, me: Proc, o: map<LockId, nat>)
    requires Runs(s, c, p) && me.pc == ExReparent(|s.procs|)
    ensures Leads(With(s, p, me, o), c, With(s, p, me.(pc := Waking(ChildChan(me.parent), 0, ExTakeP)), o))
  {
    hide Leads, Step, Exec, Line, ScanOne, WakeOne, ForkOne;
    Goes(s, c, p, me, o, Goto(Waking(ChildChan(me.parent), 0, ExTakeP)));
  }

  lemma {:induction false} SameAdopted(s: State, a: State, p: nat, i: nat, pr: Proc)
    requires p < |s.procs| == |a.procs| && a == With(s, p, s.procs[p].(pc := a.procs[p].pc), a.owner)
    ensures Adopted(a, p, i)[p := pr] == Adopted(s, p, i)[p := pr]
  {
    forall q: nat | q < |s.procs| ensures IsChild(a, p, q) <==> IsChild(s, p, q) {
    }
    assert ChildBelow(a, p, i, |s.procs|) <==> ChildBelow(s, p, i, |s.procs|);
  }

  lemma {:induction false} SameWoken(s: State, d: State, p: nat, ch: Chan, pr: Proc)
    requires p < |s.procs| == |d.procs| && d.procs == s.procs[p := d.procs[p]]
    ensures Woken(d.procs, p, ch, 0)[p := pr] == Woken(s.procs, p, ch, 0)[p := pr]
  {
  }

  lemma {:induction false} Dies(s: State, c: nat, p: nat, me: Proc, o: map<LockId, nat>)
    requires Runs(s, c, p) && PLock(p) !in o && WaitLock in o && s.owner == o - {WaitLock}
    ensures Leads(With(s, p, me.(pc := ExTakeP), o), c, Off(s, c, p, me.(state := ZOMBIE, pc := Dead)))
  {
    hide Leads, Step, InstrOf, Exec;
    var both := o[PLock(p) := c];
    Does(s, c, p, me.(pc := ExTakeP), o, Acquire(PLock(p), ExMark));
    Does(s, c, p, me.(pc := ExMark), both, Put(p, me.(pc := ExMark, state := ZOMBIE), ExDropWait));
    Does(s, c, p, me.(pc := ExDropWait, state := ZOMBIE), both, Release(WaitLock, ExSwtch));
    Does(s, c, p, me.(pc := ExSwtch, state := ZOMBIE), both - {WaitLock}, Swtch(Dead));
    assert both - {WaitLock} == s.owner[PLock(p) := c];
    Through(c, [With(s, p, me.(pc := ExTakeP), o), With(s, p, me.(pc := ExMark), both),
                With(s, p, me.(pc := ExDropWait, state := ZOMBIE), both),
                With(s, p, me.(pc := ExSwtch, state := ZOMBIE), both - {WaitLock}),
                Off(s, c, p, me.(state := ZOMBIE, pc := Dead))]);
  }

  // ---- fork, yield and the way back -----------------------------------------------------------------

  /** fork: an UNUSED entry becomes a RUNNABLE child of the caller, and nothing else changes. */
  lemma {:induction false} ForkMakesRunnable(s: State, c: nat, p: nat, q: nat)
    requires Runs(s, c, p) && s.procs[p].pc.User? && Clear(s) && q < |s.procs| && q != p && s.procs[q].state == UNUSED
    ensures Leads(Step(s, c, DoFork(q)), c, s.(procs := s.procs[q := Proc(RUNNABLE, NoChan, p, false, ForkRet)]))
  {
    hide Leads, Line, ScanOne, WakeOne, ReparentOne;
    var me := s.procs[p];
    var child := Proc(USED, NoChan, -1, false, ForkRet);
    var a := s.(procs := s.procs[q := child][p := me.(pc := FkParent(q))]);
    var b := s.(procs := s.procs[q := child.(parent := p)][p := me.(pc := FkReady(q))]);
    var d := s.(procs := s.procs[q := child.(parent := p, state := RUNNABLE)]);
    assert Step(s, c, DoFork(q)).procs == a.procs;
    ForkGoesOn(s, a, c, p, q, FkParent(q), b);
    ForkGoesOn(s, b, c, p, q, FkReady(q), d);
    Here(d, c);
    First(b, c, d);
    First(a, c, d);
  }

  lemma {:induction false} ForkGoesOn(s: State, a: State, c: nat, p: nat, q: nat, pc: Pc, b: State)
    requires Runs(s, c, p) && Clear(s) && q < |s.procs| == |a.procs| && q != p && pc in {FkParent(q), FkReady(q)}
    requires a == s.(procs := a.procs) && a.procs[p].pc == pc
    requires var child, me := a.procs[q], a.procs[p];
             b == a.(procs := if pc.FkParent? then a.procs[q := child.(parent := p)][p := me.(pc := FkReady(q))]
                              else a.procs[q := child.(state := RUNNABLE)][p := me.(pc := User)])
    ensures Step(a, c, Stay) == b
  {
    hide Line, ScanOne, WakeOne, ReparentOne, ChoiceOf;
  }

  /** A preempted thread is RUNNABLE and will go on where it was. */
  lemma {:induction false} PreemptYields(s: State, c: nat, p: nat)
    requires Runs(s, c, p) && Saved(s.procs[p].pc) && PLock(p) !in s.owner
    ensures var me := s.procs[p];
            Leads(Step(s, c, Preempt), c, Off(s, c, p, me.(state := RUNNABLE, pc := YdResumed(me.pc))))
  {
    hide Leads, Step, InstrOf, Exec, Saved;
    var me, o, held := s.procs[p], s.owner, s.owner[PLock(p) := c];
    var saved := me.pc;
    Does(s, c, p, me.(pc := YdTakeP(saved)), o, Acquire(PLock(p), YdMark(saved)));
    Does(s, c, p, me.(pc := YdMark(saved)), held,
         Put(p, me.(pc := YdMark(saved), state := RUNNABLE), YdSwtch(saved)));
    Does(s, c, p, me.(pc := YdSwtch(saved), state := RUNNABLE), held, Swtch(YdResumed(saved)));
    Preempted(s, c, p);
    Through(c, [With(s, p, me.(pc := YdTakeP(saved)), o), With(s, p, me.(pc := YdMark(saved)), held),
                With(s, p, me.(pc := YdSwtch(saved), state := RUNNABLE), held),
                Off(s, c, p, me.(state := RUNNABLE, pc := YdResumed(saved)))]);
  }

  lemma {:induction false} Preempted(s: State, c: nat, p: nat)
    requires Runs(s, c, p) && Saved(s.procs[p].pc)
    ensures Step(s, c, Preempt) == With(s, p, s.procs[p].(pc := YdTakeP(s.procs[p].pc)), s.owner)
  {
    hide Line, WakeOne, ScanOne, ReparentOne, ForkOne, ChoiceOf, Saved;
  }

  /** Where a process goes on that the scheduler runs again. */
  function ResumesAt(pc: Pc): Pc {
    match pc
    case YdResumed(saved) => saved
    case SlResumed(k) => SlRetake(k)
    case _ => User
  }

  /** The scheduler's CPU is free again with p's lock, and scans on from the next entry. */
  lemma {:induction false} BackToScan(s: State, c: nat, p: nat, pr: Proc)
    requires p < |s.procs| && c < |s.cpus| && PLock(p) !in s.owner
    ensures Leads(Off(s, c, p, pr), c, s.(procs := s.procs[p := pr], cpus := s.cpus[c := Scan(p + 1)]))
  {
    hide Leads, InstrOf, Exec;
    var x := Off(s, c, p, pr);
    var t := s.(procs := s.procs[p := pr], cpus := s.cpus[c := Scan(p + 1)]);
    assert s.owner[PLock(p) := c] - {PLock(p)} == s.owner;
    assert x.cpus[c := Scan(p + 1)] == t.cpus;
    Here(t, c);
    First(x, c, t);
  }

  /** A RUNNABLE process that the scan comes to runs on from where it gave up the CPU: a
      sleeper about to take its lock again, a preempted one where it was, a new one in
      user code. */
  lemma {:induction false} RunsOn(s: State, c: nat, p: nat)
    requires c < |s.cpus| && s.cpus[c] == Scan(p) && p < |s.procs| && PLock(p) !in s.owner
    requires s.procs[p].state == RUNNABLE
    requires s.procs[p].pc.YdResumed? || s.procs[p].pc.SlResumed? || s.procs[p].pc.ForkRet?
    ensures var pr := s.procs[p];
            var chan := if pr.pc.SlResumed? then NoChan else pr.chan;
            Leads(s, c, s.(procs := s.procs[p := pr.(state := RUNNING, chan := chan, pc := ResumesAt(pr.pc))],
                           cpus := s.cpus[c := Run(p)]))
  {
    hide Leads, ScanOne, WakeOne, ReparentOne, ForkOne;
    var pr, held := s.procs[p], s.owner[PLock(p) := c];
    var up := pr.(state := RUNNING);
    var t := s.(cpus := s.cpus[c := Run(p)]);
    var a := With(t, p, up, held);
    assert Step(s, c, Stay) == a;
    assert held - {PLock(p)} == s.owner;
    Here(a, c);
    First(s, c, a);
    if pr.pc.SlResumed? {
      var k := pr.pc.k;
      Does(t, c, p, up, held, Put(p, up.(chan := NoChan), SlDropP(k)));
      Does(t, c, p, up.(chan := NoChan, pc := SlDropP(k)), held, Release(PLock(p), SlRetake(k)));
      Through(c, [s, a, With(t, p, up.(chan := NoChan, pc := SlDropP(k)), held),
                  With(t, p, up.(chan := NoChan, pc := SlRetake(k)), s.owner)]);
    } else {
      Does(t, c, p, up, held, Release(PLock(p), ResumesAt(pr.pc)));
      Through(c, [s, a, With(t, p, up.(pc := ResumesAt(pr.pc)), s.owner)]);
    }
  }

  /** A sleeper that runs on looks again: acquiresleep tests its lock, wait scans from the
      start, each under the lock it slept on. */
  lemma {:induction false} LooksAgain(s: State, c: nat, p: nat, k: Client)
    requires Runs(s, c, p) && s.procs[p].pc == SlRetake(k) && LkOf(k) !in s.owner
    ensures Leads(s, c, With(s, p, s.procs[p].(pc := if k.Acq? then AsTest(k.l) else WtScan(0, false)),
                             s.owner[LkOf(k) := c]))
  {
    hide Leads, Step, InstrOf, Exec;
    var next := if k.Acq? then AsTest(k.l) else WtScan(0, false);
    Does(s, c, p, s.procs[p], s.owner, Acquire(LkOf(k), next));
    assert With(s, p, s.procs[p], s.owner) == s;
  }

  // ---- The scheduler --------------------------------------------------------------------------------

  /** Entries that the scan of CPU c looks at before j. */
  function Ahead(s: State, c: nat, j: nat): nat {
    if c >= |s.cpus| || !s.cpus[c].Scan? then 0
    else
      var i, n := s.cpus[c].i, |s.procs|;
      if i <= j then j - i else if i < n then n - i + 1 + j else 1 + j
  }

  /** An idle CPU does not pass by: with all process locks free, its scheduler runs a
      RUNNABLE process, if there is one, within one round of the table. */
  lemma {:induction false} IdleCpuFindsWork(s: State, c: nat, j: nat) returns (k: nat)
    requires c < |s.cpus| && s.cpus[c].Scan? && j < |s.procs| && s.procs[j].state == RUNNABLE
    requires forall q: nat :: q < |s.procs| ==> PLock(q) !in s.owner
    ensures k <= Ahead(s, c, j) + 1
    ensures var t := Turns(s, c, k);
            && |t.cpus| == |s.cpus| && |t.procs| == |s.procs| && t.cpus[c].Run?
            && var p := t.cpus[c].p;
               p < |s.procs| && s.procs[p].state == RUNNABLE && t.procs[p] == s.procs[p].(state := RUNNING)
               && PLock(p) in t.owner && t.owner[PLock(p)] == c
    decreases Ahead(s, c, j)
  {
    hide InstrOf, Exec;
    var i := s.cpus[c].i;
    var t := Step(s, c, Stay);
    if i < |s.procs| && s.procs[i].state == RUNNABLE {
      k := 1;
      assert Turns(t, c, 0) == t;
    } else {
      k := IdleCpuFindsWork(t, c, j);
      k := k + 1;
    }
  }
}
