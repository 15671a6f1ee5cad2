/** Runs of driver and device in any order, and what a caller of virtio_disk_rw gets. */
module VirtioRuns {
  import opened Basics
  import opened VirtioSpec

  datatype Event =
    | EStart(i0: nat, i1: nat, i2: nat, b: nat, write: bool, sector: nat)
    | ETake
    | EComplete(h: nat)
    | EHandle
    | EFinish(h: nat)

  datatype State = State(s: Disk, g: Ghost)

  /** Every request in flight names a buffer and a sector that exist. */
  ghost predicate KeysOk(x: State) {
    forall h :: h in x.g.fl ==> x.g.fl[h].b in x.s.data && x.g.fl[h].sector in x.s.sectors
  }

  ghost predicate RunInv(x: State) {
    Inv(x.s, x.g) && KeysOk(x)
  }

  ghost predicate Enabled(x: State, e: Event) {
    match e
    case EStart(i0, i1, i2, b, _, sector) => CanStart(x.s, x.g, i0, i1, i2, b) && b in x.s.data && sector in x.s.sectors
    case ETake => x.s.devNext != x.s.availIdx
    case EComplete(h) => h in x.s.taken
    case EHandle => x.s.seen != x.s.usedIdx
    case EFinish(h) => CanFinish(x.s, x.g, h)
  }

  /** The state after an event. None is a panic of the handler, or an access outside the
      descriptor table or the rings. */
  ghost function Next(x: State, e: Event): Option<State> {
    if !Shape(x.s) then None
    else
      match e
      case EStart(i0, i1, i2, b, write, sector) =>
        if i0 < NUM && i1 < NUM && i2 < NUM then
          Some(State(Start(x.s, i0, i1, i2, b, write, sector), Started(x.g, i0, i1, i2, b, write, sector)))
        else None
      case ETake => Some(State(Take(x.s), x.g))
      case EComplete(h) => if h < NUM then Some(State(Complete(x.s, h), x.g)) else None
      case EHandle =>
        var t := Handle(x.s);
        if t.None? then None else Some(State(t.value, x.g.(fin := x.g.fin + {x.s.used[x.s.seen % NUM]})))
      case EFinish(h) =>
        if h in x.g.fl && h < NUM && x.g.fl[h].i1 < NUM && x.g.fl[h].i2 < NUM then
          Some(State(Finish(x.s, h, x.g.fl[h].i1, x.g.fl[h].i2), Finished(x.g, h)))
        else None
  }

  /** No enabled step panics, and each keeps the invariant. */
  lemma {:induction false} StepInv(x: State, e: Event)
    requires RunInv(x) && Enabled(x, e)
    ensures Next(x, e).Some? && RunInv(Next(x, e).value)
  {
    hide Inv, Start, Take, Complete, Handle, Finish, CanStart, CanFinish;
    ShapeOf(x);
    match e
    case EStart(i0, i1, i2, b, write, sector) =>
      StartInv(x.s, x.g, i0, i1, i2, b, write, sector);
      StartData(x.s, x.g, i0, i1, i2, b, write, sector);
    case ETake =>
      TakeInv(x.s, x.g);
      TakeData(x.s);
    case EComplete(h) =>
      CompleteInv(x.s, x.g, h);
      CompleteKeys(x, h);
    case EHandle =>
      HandleInv(x.s, x.g);
      HandleData(x.s);
    case EFinish(h) =>
      FinishInv(x.s, x.g, h);
      FinishData(x.s, x.g, h);
  }

  lemma ShapeOf(x: State)
    requires RunInv(x)
    ensures Shape(x.s)
  {
  }

  lemma StartData(s: Disk, g: Ghost, i0: nat, i1: nat, i2: nat, b: nat, write: bool, sector: nat)
    requires CanStart(s, g, i0, i1, i2, b)
    ensures Shape(s) && i0 < NUM && i1 < NUM && i2 < NUM
    ensures var t := Start(s, i0, i1, i2, b, write, sector); t.data == s.data && t.sectors == s.sectors
  {
  }

  lemma TakeData(s: Disk)
    requires Shape(s)
    ensures Take(s).data == s.data && Take(s).sectors == s.sectors
  {
  }

  lemma HandleData(s: Disk)
    requires Shape(s) && Handle(s).Some?
    ensures Handle(s).value.data == s.data && Handle(s).value.sectors == s.sectors
  {
  }

  lemma FinishData(s: Disk, g: Ghost, h: nat)
    requires CanFinish(s, g, h) && Shape(s) && h < NUM && g.fl[h].i1 < NUM && g.fl[h].i2 < NUM
    ensures h in g.fl && var t := Finish(s, h, g.fl[h].i1, g.fl[h].i2); t.data == s.data && t.sectors == s.sectors
  {
  }

  /** What the device moves for a request: sector to buffer or buffer to sector. */
  lemma {:induction false} CompleteData(x: State, h: nat)
    requires RunInv(x) && h in x.s.taken
    ensures h in x.g.fl && h < NUM
    ensures var t, f := Complete(x.s, h), x.g.fl[h];
            && f.b in x.s.data && f.sector in x.s.sectors
            && t.data == (if f.write then x.s.data else x.s.data[f.b := x.s.sectors[f.sector]])
            && t.sectors == (if f.write then x.s.sectors[f.sector := x.s.data[f.b]] else x.s.sectors)
  {
    hide Chains, FreeOk, Items, BusyOk, StatusOk, Complete, Places;
    PlaceOf(Queue(x.s), x.s.taken, Done(x.s), x.g, h);
    CompleteMoves(x.s, x.g, h);
  }

  lemma {:induction false} CompleteKeys(x: State, h: nat)
    requires RunInv(x) && h in x.s.taken && h < NUM
    ensures KeysOk(State(Complete(x.s, h), x.g))
  {
    hide Inv, Complete;
    ShapeOf(x);
    CompleteData(x, h);
  }

  // ---- Runs --------------------------------------------------------------------------------------

  /** Events that are each enabled when their turn comes, up to a panic if there is one. */
  ghost predicate IsRun(x: State, run: seq<Event>)
    decreases |run|
  {
    run != [] ==> Enabled(x, run[0]) && (Next(x, run[0]).Some? ==> IsRun(Next(x, run[0]).value, run[1..]))
  }

  /** The state a run ends in; None if it ends in a panic. */
  ghost function After(x: State, run: seq<Event>): Option<State>
    decreases |run|
  {
    if run == [] then Some(x)
    else if Next(x, run[0]).None? then None
    else After(Next(x, run[0]).value, run[1..])
  }

  lemma {:induction false} RunKeepsInv(x: State, run: seq<Event>)
    requires RunInv(x) && IsRun(x, run)
    ensures After(x, run).Some? && RunInv(After(x, run).value)
    decreases |run|
  {
    hide RunInv, Enabled, Next;
    if run != [] {
      StepInv(x, run[0]);
      RunKeepsInv(Next(x, run[0]).value, run[1..]);
    }
  }

  /** After virtio_disk_init. */
  ghost function Boot(data: map<nat, Block>, sectors: map<nat, Block>): State {
    State(
      Disk(seq(NUM, _ => true), seq(NUM, _ => EMPTY), seq(NUM, _ => 0), 0, seq(NUM, _ => 0), 0, 0,
           seq(NUM, _ => Info(None, 0)), seq(NUM, _ => Request(false, 0)), {}, 0, {}, data, sectors),
      Ghost(map[], {}))
  }

  lemma {:induction false} BootInv(data: map<nat, Block>, sectors: map<nat, Block>)
    ensures RunInv(Boot(data, sectors))
  {
    AllFree(NUM);
  }

  lemma {:induction false} AllFree(n: nat)
    ensures CountFree(seq(n, _ => true)) == n
    decreases n
  {
    if n > 0 {
      AllFree(n - 1);
      assert seq(n, _ => true)[..n - 1] == seq(n - 1, _ => true);
    }
  }

  /** No run from boot panics. After each of them free descriptors and three for each
      request add up to NUM, chains are disjoint, neither ring is overrun, whatever the
      handler finds on the used ring has a buffer and a good status, and no request that
      is not complete has one. */
  lemma {:induction false} ProtocolHolds(data: map<nat, Block>, sectors: map<nat, Block>, run: seq<Event>)
    requires IsRun(Boot(data, sectors), run)
    ensures After(Boot(data, sectors), run).Some?
    ensures var x := After(Boot(data, sectors), run).value;
            && Shape(x.s) && CountFree(x.s.free) + 3 * |x.g.fl| == NUM && |Queue(x.s)| < NUM && |Done(x.s)| < NUM
            && (forall h, k, i: nat :: h in x.g.fl && k in x.g.fl && h != k && OnChain(h, x.g.fl[h], i) ==>
                    !OnChain(k, x.g.fl[k], i))
            && (x.s.seen != x.s.usedIdx ==> Handle(x.s).Some?)
            && (forall h :: h in x.g.fl ==> h < NUM && x.s.info[h].status == if IsComplete(x, h) then 0 else 0xff)
  {
    hide ChainOk, Places, BusyOk, Items, Handle, IsRun, After, Boot, KeysOk;
    BootInv(data, sectors);
    RunKeepsInv(Boot(data, sectors), run);
    var x := After(Boot(data, sectors), run).value;
    RingsNeverFull(x.s, x.g);
    if x.s.seen != x.s.usedIdx {
      HandleInv(x.s, x.g);
    }
  }

  // ---- What a caller gets ------------------------------------------------------------------------

  /** The device has put h on the used ring since it was started. */
  predicate IsComplete(x: State, h: nat)
    requires Shape(x.s)
  {
    h in Done(x.s) || h in x.g.fin
  }

  /** Only its own completion moves a request on, and only that touches its buffer. */
  ghost predicate Stays(x: State, y: State, h: nat, completed: bool)
    requires Shape(x.s) && Shape(y.s) && h in x.g.fl && x.g.fl[h].b in x.s.data
  {
    var b := x.g.fl[h].b;
    && h in y.g.fl && y.g.fl[h] == x.g.fl[h]
    && (IsComplete(y, h) <==> IsComplete(x, h) || completed)
    && b in y.s.data && (!completed ==> y.s.data[b] == x.s.data[b])
  }

  lemma {:induction false} StayStart(x: State, e: Event, y: State, h: nat)
    requires RunInv(x) && e.EStart? && Enabled(x, e) && Next(x, e) == Some(y) && h in x.g.fl
    ensures Shape(y.s) && x.g.fl[h].b in x.s.data && Stays(x, y, h, false)
  {
    hide FreeOk, Items, BusyOk, StatusOk, Places, Chains;
    OldChainB(x, e, h);
  }

  lemma {:induction false} OldChainB(x: State, e: Event, h: nat)
    requires RunInv(x) && e.EStart? && Enabled(x, e) && h in x.g.fl
    ensures h != e.i0
  {
    hide FreeOk, Items, BusyOk, StatusOk, Places;
    assert ChainOk(x.s, h, x.g.fl[h]);
  }

  lemma {:induction false} StayTakeHandle(x: State, e: Event, h: nat)
    requires RunInv(x) && (e.ETake? || e.EHandle?) && Enabled(x, e) && h in x.g.fl
    ensures Next(x, e).Some?
    ensures var y := Next(x, e).value; Shape(y.s) && x.g.fl[h].b in x.s.data && Stays(x, y, h, false)
  {
    hide FreeOk, Items, BusyOk, StatusOk, Places, Chains;
    if e.EHandle? {
      HandleInv(x.s, x.g);
      PopItems(x.s.used, x.s.seen, x.s.usedIdx);
      var d := Done(x.s);
      assert d == [d[0]] + d[1..];
    }
  }

  lemma {:induction false} StayComplete(x: State, e: Event, h: nat)
    requires RunInv(x) && e.EComplete? && Enabled(x, e) && h in x.g.fl
    ensures Next(x, e).Some?
    ensures var y := Next(x, e).value; Shape(y.s) && x.g.fl[h].b in x.s.data && Stays(x, y, h, e.h == h)
    ensures e.h == h ==> !IsComplete(x, h)
  {
    hide FreeOk, Items, BusyOk, StatusOk, Places, Complete, ChainOk;
    CompleteInv(x.s, x.g, e.h);
    CompleteData(x, e.h);
    CompleteMoves(x.s, x.g, e.h);
    MovedKeeps(x.s, Request(x.g.fl[e.h].write, x.g.fl[e.h].sector), x.g.fl[e.h].b);
    RingsNeverFull(x.s, x.g);
    PushItems(x.s.used, x.s.seen, x.s.usedIdx, e.h);
    PlaceOf(Queue(x.s), x.s.taken, Done(x.s), x.g, h);
    TakenIsNotDone(Queue(x.s), x.s.taken, Done(x.s), x.g, e.h);
  }

  lemma {:induction false} TakenIsNotDone(q: seq<nat>, taken: set<nat>, d: seq<nat>, g: Ghost, h: nat)
    requires Places(q, taken, d, g) && h in taken
    ensures h !in d && h !in g.fin
  {
    hide Places;
    PlaceOf(q, taken, d, g, h);
  }

  lemma {:induction false} StayFinish(x: State, e: Event, h: nat)
    requires RunInv(x) && e.EFinish? && e.h != h && Enabled(x, e) && h in x.g.fl
    ensures Next(x, e).Some?
    ensures var y := Next(x, e).value; Shape(y.s) && x.g.fl[h].b in x.s.data && Stays(x, y, h, false)
  {
    hide FreeOk, Items, BusyOk, StatusOk, Places, Chains;
    FinishInv(x.s, x.g, e.h);
  }

  lemma {:induction false} StepStays(x: State, e: Event, h: nat)
    requires RunInv(x) && Enabled(x, e) && h in x.g.fl && e != EFinish(h)
    ensures Next(x, e).Some? && RunInv(Next(x, e).value)
    ensures var y := Next(x, e).value; Shape(y.s) && x.g.fl[h].b in x.s.data && Stays(x, y, h, e == EComplete(h))
    ensures e == EComplete(h) ==> !IsComplete(x, h)
  {
    hide RunInv, Enabled, Next, Stays, IsComplete;
    StepInv(x, e);
    match e
    case EStart(_, _, _, _, _, _) => StayStart(x, e, Next(x, e).value, h);
    case ETake => StayTakeHandle(x, e, h);
    case EHandle => StayTakeHandle(x, e, h);
    case EComplete(_) => StayComplete(x, e, h);
    case EFinish(_) => StayFinish(x, e, h);
  }

  /** Once complete, a request is not completed again, and its buffer stays as it is. */
  lemma {:induction false} CompleteOnce(x: State, run: seq<Event>, h: nat)
    requires RunInv(x) && IsRun(x, run) && h in x.g.fl && EFinish(h) !in run && IsComplete(x, h)
    ensures EComplete(h) !in run && x.g.fl[h].b in x.s.data
    ensures After(x, run).Some?
    ensures var y := After(x, run).value;
            && h in y.g.fl && y.g.fl[h] == x.g.fl[h]
            && y.g.fl[h].b in y.s.data && y.s.data[x.g.fl[h].b] == x.s.data[x.g.fl[h].b]
    decreases |run|
  {
    hide Inv, Enabled, Next;
    if run != [] {
      ShapeOf(x);
      StepStays(x, run[0], h);
      CompleteOnce(Next(x, run[0]).value, run[1..], h);
    }
  }

  /** A call returns only after the device has carried out its own request, exactly once,
      on the buffer as the caller left it: run is what happens from the start of request h
      until its wait is over, and step k is the completion. A read returns what the sector
      held at that step; a write has stored there what the caller passed. */
  lemma {:induction false} CallCompletes(x: State, run: seq<Event>, h: nat) returns (k: nat)
    requires RunInv(x) && IsRun(x, run) && h in x.g.fl && EFinish(h) !in run && !IsComplete(x, h)
    requires After(x, run).Some? ==> CanFinish(After(x, run).value.s, After(x, run).value.g, h)
    ensures k < |run| && run[k] == EComplete(h) && EComplete(h) !in run[..k] && EComplete(h) !in run[k + 1..]
    ensures After(x, run[..k]).Some? && After(x, run[..k + 1]).Some? && After(x, run).Some?
    ensures var f, mid, done, y := x.g.fl[h], After(x, run[..k]).value, After(x, run[..k + 1]).value,
            After(x, run).value;
            && f.b in x.s.data && f.b in mid.s.data && f.b in y.s.data && f.sector in mid.s.sectors
              && f.sector in done.s.sectors
            && mid.s.data[f.b] == x.s.data[f.b]
            && y.s.data[f.b] == (if f.write then x.s.data[f.b] else mid.s.sectors[f.sector])
            && done.s.sectors == (if f.write then mid.s.sectors[f.sector := x.s.data[f.b]] else mid.s.sectors)
    decreases |run|
  {
    hide Inv, Enabled, Next, Stays;
    ShapeOf(x);
    k := 0;
    if run == [] {
      FinishIsComplete(x, h);
    } else {
      var e := run[0];
      StepStays(x, e, h);
      StaysMeans(x, Next(x, e).value, h, e == EComplete(h));
      var y := Next(x, e).value;
      if e == EComplete(h) {
        CompletedNow(x, h);
        CompleteOnce(y, run[1..], h);
        assert run[..1][1..] == [];
      } else {
        k := CallCompletes(y, run[1..], h);
        k := k + 1;
        assert run[..k][1..] == run[1..][..k - 1] && run[k + 1..] == run[1..][k..]
               && run[..k + 1][1..] == run[1..][..k];
      }
    }
  }

  lemma StaysMeans(x: State, y: State, h: nat, completed: bool)
    requires Shape(x.s) && Shape(y.s) && h in x.g.fl && x.g.fl[h].b in x.s.data && Stays(x, y, h, completed)
    ensures h in y.g.fl && y.g.fl[h] == x.g.fl[h] && (IsComplete(y, h) <==> IsComplete(x, h) || completed)
    ensures x.g.fl[h].b in y.s.data && (!completed ==> y.s.data[x.g.fl[h].b] == x.s.data[x.g.fl[h].b])
  {
  }

  lemma {:induction false} FinishIsComplete(x: State, h: nat)
    requires RunInv(x) && CanFinish(x.s, x.g, h)
    ensures Shape(x.s) && IsComplete(x, h)
  {
    hide Items, Chains, FreeOk, Places, StatusOk;
  }

  lemma {:induction false} CompletedNow(x: State, h: nat)
    requires RunInv(x) && h in x.g.fl && Enabled(x, EComplete(h))
    ensures Next(x, EComplete(h)).Some?
    ensures var f, y := x.g.fl[h], Next(x, EComplete(h)).value;
            && f.b in x.s.data && f.sector in x.s.sectors && f.b in y.s.data
            && y.s.data[f.b] == (if f.write then x.s.data[f.b] else x.s.sectors[f.sector])
            && y.s.sectors == (if f.write then x.s.sectors[f.sector := x.s.data[f.b]] else x.s.sectors)
  {
    hide Inv, Complete;
    ShapeOf(x);
    CompleteData(x, h);
  }
}
