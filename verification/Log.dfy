/** The log of kernel/log.c as it runs over the buffer cache. */
module Log {
  import opened LogSpec
  import opened BufferCache

  // ---- What the log asks of the cache, and does to it -----------------------------

  /** A block written through the cache. */
  ghost function Put(st: Store, w: Write): Store {
    st.(disk := ApplyOne(st.disk, w), view := ApplyOne(st.view, w), writes := st.writes + [w])
  }

  ghost function PutAll(st: Store, ws: seq<Write>): Store {
    st.(disk := Apply(st.disk, ws), view := Apply(st.view, ws), writes := st.writes + ws)
  }

  /** Nobody else uses the log region, and memory and disk agree on it. */
  ghost predicate Quiet(l: Layout, st: Store) {
    && SameSizes(st) && FitsDisk(l, st.disk)
    && forall b :: 0 <= b < |st.disk| && InLog(l, b) ==> st.refs[b] == 0 && st.view[b] == st.disk[b]
  }

  ghost predicate Pinned(lh: seq<int>, st: Store) {
    forall i :: 0 <= i < |lh| ==> 0 <= lh[i] < |st.refs| && st.refs[lh[i]] > 0
  }

  /** No transaction on disk; every logged block pinned; every block that differs
      from the disk logged, except perhaps one that its holder has just changed. */
  ghost predicate Consistent(l: Layout, lh: seq<int>, st: Store, dirty: set<int>) {
    && Quiet(l, st) && Clear(l, st.disk)
    && LoggableBlocks(l, |st.disk|, lh) && Pinned(lh, st)
    && forall b :: 0 <= b < |st.disk| && st.view[b] != st.disk[b] ==> b in lh || b in dirty
  }

  /** Reference counts with one taken away from each of the first k blocks of lh. */
  ghost function Unpinned(refs: seq<nat>, lh: seq<int>, k: nat): (r: seq<nat>)
    requires k <= |lh| && forall i :: 0 <= i < |lh| ==> 0 <= lh[i] < |refs| && refs[lh[i]] > 0
  {
    seq(|refs|, b requires 0 <= b < |refs| => if b in lh[..k] then refs[b] - 1 else refs[b])
  }

  /** k home blocks have been installed; outside recovery their pins are gone. */
  ghost function Installed(l: Layout, lh: seq<int>, st: Store, k: nat, recovering: bool): Store
    requires FitsDisk(l, st.disk) && LoggableBlocks(l, |st.disk|, lh) && k <= |lh|
    requires recovering || Pinned(lh, st)
  {
    var done := PutAll(st, InstallWrites(l, lh, st.disk)[..k]);
    if recovering then done else done.(refs := Unpinned(st.refs, lh, k))
  }

  /** Buffers enough for install_trans: at boot nothing is in use. */
  ghost predicate CanInstall(l: Layout, lh: seq<int>, st: Store, recovering: bool) {
    && Quiet(l, st) && LoggableBlocks(l, |st.disk|, lh) && Busy(st.refs) < NBUF
    && (if recovering then Busy(st.refs) == 0 else Pinned(lh, st))
  }

  class LogManager {
    const l: Layout
    const cache: Bcache
    var lh: seq<int>
    var outstanding: nat
    var committing: bool

    ghost predicate ValidBut(dirty: set<int>)
      reads this, cache
    {
      cache.Valid() && Consistent(l, lh, cache.st, dirty)
    }

    ghost predicate Valid()
      reads this, cache
    {
      ValidBut({})
    }

    constructor (l: Layout, cache: Bcache)
      ensures this.l == l && this.cache == cache && lh == [] && outstanding == 0 && !committing
    {
      this.l, this.cache := l, cache;
      lh, outstanding, committing := [], 0, false;
    }

    /** One turn of begin_op's waiting loop; on false the caller sleeps and tries again. */
    method TryBeginOp() returns (granted: bool)
      modifies this`outstanding
      ensures granted <==> !committing && |lh| + (old(outstanding) + 1) * MAXOPBLOCKS <= LOGSIZE
      ensures outstanding == old(outstanding) + (if granted then 1 else 0)
    {
      if committing {
        granted := false;
      } else if |lh| + (outstanding + 1) * MAXOPBLOCKS > LOGSIZE {
        granted := false;
      } else {
        outstanding := outstanding + 1;
        granted := true;
      }
    }

    /** The holder of buffer i, who may have changed its contents, adds it to the
        transaction. A block already there is absorbed; a new one is pinned. False
        is one of log_write's two panics. */
    method LogWrite(i: nat, ghost b: nat) returns (ok: bool)
      requires ValidBut({b}) && Holds(cache.buf, cache.st, i, b) && cache.st.refs[b] > 0 && !InLog(l, b)
      modifies this`lh, cache`buf, cache`st
      ensures ok <==> |old(lh)| < LOGSIZE && |old(lh)| < l.size - 1 && outstanding >= 1
      ensures !ok ==> lh == old(lh) && cache.st == old(cache.st)
      ensures ok ==> Valid() && Holds(cache.buf, cache.st, i, b)
      ensures ok && b in old(lh) ==> lh == old(lh) && cache.st == old(cache.st)
      ensures ok && b !in old(lh) ==> lh == old(lh) + [b] && cache.st == AddRefs(old(cache.st), b, 1)
    {
      if |lh| >= LOGSIZE || |lh| >= l.size - 1 { return false; }
      if outstanding < 1 { return false; }
      ghost var lh0, st0 := lh, cache.st;
      var bno := cache.buf[i].blockno;
      var k := 0;
      while k < |lh|
        invariant k <= |lh| && bno !in lh[..k]
      {
        if lh[k] == bno { break; }
        k := k + 1;
      }
      if k < |lh| {
        lh := lh[k := bno];
        assert lh == lh0;
        AbsorbedIsConsistent(l, lh, cache.st, b);
      } else {
        assert lh[..k] == lh;
        cache.Bpin(i, b);
        lh := lh + [bno];
        LoggedIsConsistent(l, lh0, st0, b);
      }
      ok := true;
    }

    /** Hold blocks a and b at once. */
    method BreadPair(a: nat, b: nat) returns (ok: bool, i: nat, j: nat)
      requires cache.Valid() && a < |cache.disk| && b < |cache.disk| && a != b
      modifies cache`buf, cache`st
      ensures ok ==> cache.Valid() && cache.st == AddRefs(AddRefs(old(cache.st), a, 1), b, 1)
      ensures ok ==> Holds(cache.buf, cache.st, i, a) && Holds(cache.buf, cache.st, j, b)
      ensures old(cache.st).refs[b] > 0 ==> (ok <==> old(cache.st).refs[a] > 0 || Busy(old(cache.st).refs) < NBUF)
      ensures Busy(old(cache.st).refs) + 1 < NBUF ==> ok
    {
      hide Coherent, Linked, Busy;
      BusyUpdate(cache.st.refs, a, cache.st.refs[a] + 1);
      j := 0;
      ok, i := cache.Bread(a);
      if !ok { return; }
      ok, j := cache.Bread(b);
    }

    /** memmove into a held buffer, then bwrite. */
    method WriteThrough(i: nat, ghost b: nat, data: Block)
      requires cache.Valid() && Holds(cache.buf, cache.st, i, b) && cache.st.refs[b] > 0
      modifies cache`buf, cache`st, cache`disk
      ensures cache.Valid() && cache.st == Put(old(cache.st), Write(b, data))
      ensures cache.buf == old(cache.buf)[i := old(cache.buf)[i].(data := data)]
    {
      hide Coherent, Linked;
      cache.SetData(i, b, data);
      cache.Bwrite(i, b);
    }

    /** Release two held buffers whose contents are on disk or that stay in use. */
    method ReleasePair(i: nat, ghost a: nat, j: nat, ghost b: nat)
      requires cache.Valid() && a != b
      requires Holds(cache.buf, cache.st, i, a) && Holds(cache.buf, cache.st, j, b)
      requires cache.st.refs[a] > 1 || (cache.st.refs[a] == 1 && cache.st.view[a] == cache.st.disk[a])
      requires cache.st.refs[b] > 1 || (cache.st.refs[b] == 1 && cache.st.view[b] == cache.st.disk[b])
      modifies cache`buf, cache`st, cache`next, cache`prev, cache`order, cache`uses
      ensures cache.Valid()
      ensures cache.st == AddRefs(AddRefs(old(cache.st), a, -1), b, -1)
    {
      hide Coherent, Linked;
      cache.Brelse(i, a);
      cache.Brelse(j, b);
    }

    /** One turn of write_log: slot `tail` gets its block from the cache. */
    method LogOne(tail: nat) returns (ok: bool)
      requires cache.Valid() && Quiet(l, cache.st) && LoggableBlocks(l, |cache.st.disk|, lh) && Pinned(lh, cache.st)
      requires tail < |lh|
      modifies cache
      ensures ok <==> Busy(old(cache.st).refs) < NBUF
      ensures ok ==>
                cache.Valid() && cache.st == Put(old(cache.st), Write(l.start + 1 + tail, old(cache.st).view[lh[tail]]))
    {
      hide Coherent, Linked, Busy;
      var slot, home := l.start + tail + 1, lh[tail];
      var to, from;
      ok, to, from := BreadPair(slot, home);
      if !ok { return; }
      WriteThrough(to, slot, cache.buf[from].data);
      ReleasePair(from, home, to, slot);
      assert cache.st.refs == old(cache.st).refs;
    }

    /** Copy each logged block from the cache to its slot. */
    method WriteLog() returns (ok: bool)
      requires cache.Valid() && Quiet(l, cache.st) && LoggableBlocks(l, |cache.st.disk|, lh) && Pinned(lh, cache.st)
      modifies cache
      ensures ok <==> lh == [] || Busy(old(cache.st).refs) < NBUF
      ensures ok ==> cache.Valid() && cache.st == PutAll(old(cache.st), LogWrites(l, lh, old(cache.st).view))
    {
      hide Coherent, Linked;
      ghost var st0, ws := cache.st, LogWrites(l, lh, cache.st.view);
      assert |ws| == |lh|;
      assert PutAll(st0, ws[..0]) == st0;
      var tail := 0;
      while tail < |lh|
        invariant tail <= |lh| && cache.Valid() && cache.st == PutAll(st0, ws[..tail])
        invariant tail > 0 ==> Busy(st0.refs) < NBUF
      {
        NextLogOne(l, lh, st0, tail);
        ok := LogOne(tail);
        if !ok { return; }
        tail := tail + 1;
      }
      assert ws[..|lh|] == ws;
      ok := true;
    }

    /** The header block gets the in-memory header; the words after it stay. */
    method WriteHead()
      requires cache.Valid() && Quiet(l, cache.st) && |lh| <= LOGSIZE && Busy(cache.st.refs) < NBUF
      modifies cache
      ensures cache.Valid()
      ensures cache.st == Put(old(cache.st), Write(l.start, EncodeHeader(old(cache.st).disk[l.start], lh)))
    {
      hide Coherent, Linked, Busy;
      var ok, h := cache.Bread(l.start);
      var hb: seq<int> := cache.buf[h].data[0 := |lh|];
      var i := 0;
      while i < |lh|
        invariant 0 <= i <= |lh| && |hb| == BWORDS
        invariant hb == [|lh|] + lh[..i] + cache.st.view[l.start][1 + i..]
      {
        hb := hb[1 + i := lh[i]];
        i := i + 1;
      }
      assert hb == EncodeHeader(cache.st.view[l.start], lh);
      WriteThrough(h, l.start, hb);
      cache.Brelse(h, l.start);
      assert cache.st.refs == old(cache.st).refs;
    }

    /** The in-memory header becomes the one on disk. */
    method ReadHead()
      requires cache.Valid() && Quiet(l, cache.st) && WellFormed(l, cache.disk) && Busy(cache.st.refs) < NBUF
      modifies cache, this`lh
      ensures cache.Valid() && cache.st == old(cache.st)
      ensures lh == HeaderBlocks(cache.st.disk[l.start])
    {
      hide Coherent, Linked, Busy;
      var ok, h := cache.Bread(l.start);
      var hb := cache.buf[h].data;
      var block := [];
      while |block| < hb[0]
        invariant |block| <= hb[0] && block == hb[1..1 + |block|]
      {
        block := block + [hb[1 + |block|]];
      }
      lh := block;
      cache.Brelse(h, l.start);
      assert cache.st.refs == old(cache.st).refs;
    }

    /** One turn of install_trans: home block lh[tail] gets its slot, and when this is
        a commit rather than a recovery the pin taken by log_write is dropped. */
    method InstallOne(tail: nat, recovering: bool)
      requires cache.Valid() && Quiet(l, cache.st) && LoggableBlocks(l, |cache.st.disk|, lh) && tail < |lh|
      requires Busy(cache.st.refs) < NBUF
      requires if recovering then Busy(cache.st.refs) + 1 < NBUF else cache.st.refs[lh[tail]] > 0
      modifies cache
      ensures cache.Valid()
      ensures var put := Put(old(cache.st), Write(lh[tail], old(cache.st).disk[l.start + 1 + tail]));
              cache.st == if recovering then put else AddRefs(put, lh[tail], -1)
    {
      hide Coherent, Linked, Busy;
      var slot, home := l.start + tail + 1, lh[tail];
      var ok, lbuf, dbuf := BreadPair(slot, home);
      WriteThrough(dbuf, home, cache.buf[lbuf].data);
      if !recovering {
        cache.Bunpin(dbuf, home);
      }
      ReleasePair(lbuf, slot, dbuf, home);
      assert recovering ==> cache.st.refs == old(cache.st).refs;
      assert !recovering ==> cache.st.refs == old(cache.st).refs[home := old(cache.st).refs[home] - 1];
    }

    /** Copy every slot to its home block. */
    method InstallTrans(recovering: bool)
      requires cache.Valid() && CanInstall(l, lh, cache.st, recovering)
      modifies cache
      ensures cache.Valid() && cache.st == Installed(l, lh, old(cache.st), |lh|, recovering)
    {
      hide Coherent, Linked, Apply, Busy;
      ghost var st0 := cache.st;
      InstalledNone(l, lh, st0, recovering);
      var tail := 0;
      while tail < |lh|
        invariant tail <= |lh| && cache.Valid()
        invariant cache.st == Installed(l, lh, st0, tail, recovering)
      {
        NextInstallOne(l, lh, st0, tail, recovering);
        InstallOne(tail, recovering);
        tail := tail + 1;
      }
    }

    /** Commit the transaction: the block writes are exactly CommitWrites, in order,
        and exactly the pins taken by log_write are dropped. False is the panic for
        want of a buffer. */
    method Commit() returns (ok: bool)
      requires Valid()
      modifies this`lh, cache
      ensures ok <==> old(lh) == [] || Busy(old(cache.st).refs) < NBUF
      ensures ok ==> Valid() && lh == [] && cache.st == AfterCommit(l, old(lh), old(cache.st))
    {
      hide Bcache.Valid, Consistent, AfterCommit, Quiet, CanInstall, Put, PutAll, Installed, LoggableBlocks, Busy;
      ghost var st0, lh0 := cache.st, lh;
      if |lh| > 0 {
        CommitPrepares(l, lh, st0);
        ok := WriteLog();
        if !ok { return; }
        WriteHead();
        CommitInstalls(l, lh, st0);
        InstallTrans(false);
        lh := [];
        WriteHead();
      } else {
        NothingCommitted(l, lh, st0);
        ok := true;
      }
    }

    /** recover_from_log, at boot: the block writes are exactly RecoveryWrites. */
    method RecoverFromLog()
      requires cache.Valid() && WellFormed(l, cache.disk)
      requires cache.st.view == cache.st.disk && forall b :: 0 <= b < |cache.st.refs| ==> cache.st.refs[b] == 0
      modifies this`lh, cache
      ensures Valid() && lh == []
      ensures cache.st == PutAll(old(cache.st), RecoveryWrites(l, old(cache.st).disk))
      ensures cache.st.disk == Recovered(l, old(cache.st).disk)
    {
      hide Coherent, Linked, Consistent, Quiet, CanInstall, Put, Installed, LoggableBlocks, Busy, RecoveryWrites;
      ghost var st0 := cache.st;
      RecoveryPrepares(l, st0);
      ReadHead();
      RecoveryInstalls(l, st0);
      InstallTrans(true);
      lh := [];
      WriteHead();
    }

    /** end_op, with the commit that the last operation out performs. */
    method EndOp() returns (ok: bool)
      requires Valid() && outstanding >= 1 && !committing
      modifies this`lh, this`outstanding, this`committing, cache
      ensures outstanding == old(outstanding) - 1
      ensures old(outstanding) > 1 ==> ok && lh == old(lh) && cache.st == old(cache.st) && Valid()
      ensures old(outstanding) == 1 ==> (ok <==> old(lh) == [] || Busy(old(cache.st).refs) < NBUF)
      ensures old(outstanding) == 1 && ok ==> Valid() && lh == [] && cache.st == AfterCommit(l, old(lh), old(cache.st))
      ensures ok ==> !committing
    {
      hide Bcache.Valid, Consistent, AfterCommit, Busy;
      outstanding := outstanding - 1;
      ok := true;
      if outstanding == 0 {
        committing := true;
        ok := Commit();
        if ok {
          committing := false;
        }
      }
    }
  }

  // ---- Commit and recovery, on values -----------------------------------------------------

  ghost function AfterCommit(l: Layout, lh: seq<int>, st: Store): Store
    requires Consistent(l, lh, st, {})
  {
    PutAll(st, CommitWrites(l, lh, st.view, st.disk)).(refs := Unpinned(st.refs, lh, |lh|))
  }

  ghost function Head(l: Layout, st: Store, lh: seq<int>): Write
    requires FitsDisk(l, st.disk) && |lh| <= LOGSIZE
  {
    Write(l.start, EncodeHeader(st.disk[l.start], lh))
  }

  /** A header write keeps the region quiet. */
  lemma {:induction false} HeadIsQuiet(l: Layout, st: Store, w: Write)
    requires Quiet(l, st) && w.bno == l.start
    ensures Quiet(l, Put(st, w)) && Put(st, w).refs == st.refs && |Put(st, w).disk| == |st.disk|
  {
  }

  /** What write_log and the first write_head leave. */
  ghost function Logged(l: Layout, lh: seq<int>, st: Store): Store
    requires FitsDisk(l, st.disk) && LoggableBlocks(l, |st.disk|, lh) && SameSizes(st)
  {
    var logged := PutAll(st, LogWrites(l, lh, st.view));
    Put(logged, Head(l, logged, lh))
  }

  lemma {:induction false} LogWritesAreQuiet(l: Layout, lh: seq<int>, st: Store)
    requires Quiet(l, st) && LoggableBlocks(l, |st.disk|, lh)
    ensures Quiet(l, PutAll(st, LogWrites(l, lh, st.view)))
  {
    hide Apply, LogWrites;
    var ws := LogWrites(l, lh, st.view);
    forall b: nat | b < |st.disk| && InLog(l, b) ensures Apply(st.view, ws)[b] == Apply(st.disk, ws)[b] {
      ApplyAgree(st.view, st.disk, ws, b);
    }
  }

  lemma {:induction false} CommitPrepares(l: Layout, lh: seq<int>, st: Store)
    requires Consistent(l, lh, st, {})
    ensures Quiet(l, st) && LoggableBlocks(l, |st.disk|, lh) && Pinned(lh, st) && |lh| <= LOGSIZE
    ensures var logged := PutAll(st, LogWrites(l, lh, st.view));
            && Quiet(l, logged) && logged.refs == st.refs
            && Quiet(l, Logged(l, lh, st)) && Logged(l, lh, st).refs == st.refs
            && (Busy(st.refs) < NBUF ==> CanInstall(l, lh, Logged(l, lh, st), false))
  {
    hide Apply, LogWrites, Busy;
    LogWritesAreQuiet(l, lh, st);
    var logged := PutAll(st, LogWrites(l, lh, st.view));
    HeadIsQuiet(l, logged, Head(l, logged, lh));
  }

  lemma {:induction false} CommitInstalls(l: Layout, lh: seq<int>, st: Store)
    requires Consistent(l, lh, st, {}) && lh != [] && Busy(st.refs) < NBUF
    requires CanInstall(l, lh, Logged(l, lh, st), false)
    ensures var done := Installed(l, lh, Logged(l, lh, st), |lh|, false);
            && Quiet(l, done) && Busy(done.refs) < NBUF
            && Put(done, Head(l, done, [])) == AfterCommit(l, lh, st)
            && Consistent(l, [], AfterCommit(l, lh, st), {})
  {
    hide Apply, LogWrites, Busy, InstallWrites, CommitWrites;
    InstalledQuiet(l, lh, Logged(l, lh, st), |lh|, false);
    InstalledAddsUp(l, lh, st);
    AfterCommitIsConsistent(l, lh, st);
  }

  lemma {:induction false} InstalledAddsUp(l: Layout, lh: seq<int>, st: Store)
    requires Consistent(l, lh, st, {}) && lh != []
    ensures var done := Installed(l, lh, Logged(l, lh, st), |lh|, false);
            |done.disk| == |st.disk| && Put(done, Head(l, done, [])) == AfterCommit(l, lh, st)
  {
    hide Apply, LogWrites, Busy, CommitWrites, Unpinned;
    CommitAddsUp(l, lh, st.view, st.disk, st.disk);
    CommitAddsUp(l, lh, st.view, st.disk, st.view);
    var log := LogWrites(l, lh, st.view);
    var head := Write(l.start, EncodeHeader(st.disk[l.start], lh));
    HeaderStays(l, lh, st.view, st.disk, st.disk);
    var logged := Logged(l, lh, st);
    assert logged == Put(PutAll(st, log), head);
    var ins := InstallWrites(l, lh, logged.disk);
    HeaderStays(l, lh, st.view, logged.disk, logged.disk);
    assert ins[..|lh|] == ins;
    var clear := Write(l.start, EncodeHeader(head.data, []));
    assert st.writes + log + [head] + ins + [clear] == st.writes + (log + [head] + ins + [clear]);
  }

  lemma {:induction false} AfterCommitIsConsistent(l: Layout, lh: seq<int>, st: Store)
    requires Consistent(l, lh, st, {}) && lh != []
    ensures Consistent(l, [], AfterCommit(l, lh, st), {})
  {
    hide Apply, LogWrites, Busy, InstallWrites, CommitWrites;
    CommittedState(l, lh, st.view, st.disk);
  }

  lemma {:induction false} NothingCommitted(l: Layout, lh: seq<int>, st: Store)
    requires Consistent(l, lh, st, {}) && lh == []
    ensures AfterCommit(l, lh, st) == st
  {
    assert Unpinned(st.refs, lh, 0) == st.refs;
  }

  /** After a commit the cache shows what the disk holds, and the log is empty. */
  lemma {:induction false} CommittedState(l: Layout, lh: seq<int>, v: Image, d: Image)
    requires Clear(l, d) && LoggableBlocks(l, |d|, lh) && |v| == |d|
    requires forall b :: 0 <= b < |d| && v[b] != d[b] ==> b in lh
    ensures var ws := CommitWrites(l, lh, v, d);
            Clear(l, Apply(d, ws)) && Apply(v, ws) == Apply(d, ws)
  {
    hide Apply, CommitWrites;
    var ws := CommitWrites(l, lh, v, d);
    assert AgreeOff(l, lh, v, d);
    CommitDone(l, lh, v, d);
    forall b: nat | b < |d| ensures Apply(v, ws)[b] == Apply(d, ws)[b] {
      if v[b] != d[b] {
        var i :| 0 <= i < |lh| && lh[i] == b;
        CommitWritesHome(l, lh, v, d, i);
      }
      ApplyAgree(v, d, ws, b);
    }
  }

  lemma {:induction false} CommitWritesHome(l: Layout, lh: seq<int>, v: Image, d: Image, i: nat)
    requires FitsDisk(l, d) && LoggableBlocks(l, |d|, lh) && |v| == |d| && i < |lh|
    ensures var ws := CommitWrites(l, lh, v, d); exists k :: 0 <= k < |ws| && ws[k].bno == lh[i]
  {
    assert CommitWrites(l, lh, v, d)[|lh| + 1 + i].bno == lh[i];
  }

  lemma {:induction false} NobodyIsBusy(refs: seq<nat>)
    requires forall b :: 0 <= b < |refs| ==> refs[b] == 0
    ensures Busy(refs) == 0
  {
    if refs != [] {
      NobodyIsBusy(refs[..|refs| - 1]);
    }
  }

  lemma {:induction false} RecoveryPrepares(l: Layout, st: Store)
    requires SameSizes(st) && WellFormed(l, st.disk)
    requires st.view == st.disk && forall b :: 0 <= b < |st.refs| ==> st.refs[b] == 0
    ensures Quiet(l, st) && Busy(st.refs) == 0
  {
    NobodyIsBusy(st.refs);
  }

  lemma {:induction false} RecoveryAddsUp(l: Layout, st: Store)
    requires SameSizes(st) && WellFormed(l, st.disk) && st.view == st.disk
    ensures var done := Installed(l, HeaderBlocks(st.disk[l.start]), st, |HeaderBlocks(st.disk[l.start])|, true);
            |done.disk| == |st.disk| && Put(done, Head(l, done, [])) == PutAll(st, RecoveryWrites(l, st.disk))
  {
    hide Apply;
    var lh := HeaderBlocks(st.disk[l.start]);
    var ws := RecoveryWrites(l, st.disk);
    var ins := InstallWrites(l, lh, st.disk);
    HeaderStays(l, lh, st.disk, st.disk, st.disk);
    assert ins[..|lh|] == ins == ws[..|lh|];
    PutAllNext(st, ws, |lh|);
    assert ws[..|lh| + 1] == ws;
  }

  lemma {:induction false} RecoveryInstalls(l: Layout, st: Store)
    requires SameSizes(st) && WellFormed(l, st.disk)
    requires st.view == st.disk && forall b :: 0 <= b < |st.refs| ==> st.refs[b] == 0
    ensures var lh := HeaderBlocks(st.disk[l.start]);
            && CanInstall(l, lh, st, true)
            && var done := Installed(l, lh, st, |lh|, true);
               && Quiet(l, done) && Busy(done.refs) < NBUF
               && Put(done, Head(l, done, [])) == PutAll(st, RecoveryWrites(l, st.disk))
               && Consistent(l, [], Put(done, Head(l, done, [])), {})
  {
    hide Busy;
    var lh := HeaderBlocks(st.disk[l.start]);
    RecoveryPrepares(l, st);
    InstalledQuiet(l, lh, st, |lh|, true);
    RecoveredContents(l, st.disk);
    RecoveryAddsUp(l, st);
  }

  // ---- Steps of the loops, on values ---------------------------------------------------

  lemma {:induction false} AbsorbedIsConsistent(l: Layout, lh: seq<int>, st: Store, b: nat)
    requires Consistent(l, lh, st, {b}) && b in lh
    ensures Consistent(l, lh, st, {})
  {
  }

  lemma {:induction false} LoggedIsConsistent(l: Layout, lh: seq<int>, st: Store, b: nat)
    requires Consistent(l, lh, st, {b}) && b !in lh && b < |st.refs| && !InLog(l, b)
    requires |lh| < LOGSIZE && |lh| < l.size - 1
    ensures Consistent(l, lh + [b], AddRefs(st, b, 1), {})
  {
  }

  lemma {:induction false} PutAllNext(st: Store, ws: seq<Write>, k: nat)
    requires k < |ws|
    ensures PutAll(st, ws[..k + 1]) == Put(PutAll(st, ws[..k]), ws[k])
  {
    ApplyNext(st.disk, ws, k);
    ApplyNext(st.view, ws, k);
    AppendNext(st.writes, ws, k);
  }

  lemma {:induction false} NextLogOne(l: Layout, lh: seq<int>, st: Store, k: nat)
    requires Quiet(l, st) && LoggableBlocks(l, |st.disk|, lh) && Pinned(lh, st) && k < |lh|
    ensures var ws := LogWrites(l, lh, st.view);
            var now := PutAll(st, ws[..k]);
            && Quiet(l, now) && |now.disk| == |st.disk| && Pinned(lh, now) && now.refs == st.refs
            && PutAll(st, ws[..k + 1]) == Put(now, Write(l.start + 1 + k, now.view[lh[k]]))
  {
    var ws := LogWrites(l, lh, st.view);
    AfterLogWrites(l, lh, st.view, st.view, k);
    PutAllNext(st, ws, k);
    hide Apply, LogWrites;
    forall b: nat | b < |st.disk| && InLog(l, b) ensures Apply(st.view, ws[..k])[b] == Apply(st.disk, ws[..k])[b] {
      ApplyAgree(st.view, st.disk, ws[..k], b);
    }
  }

  lemma {:induction false} InstalledNone(l: Layout, lh: seq<int>, st: Store, recovering: bool)
    requires CanInstall(l, lh, st, recovering)
    ensures Installed(l, lh, st, 0, recovering) == st
  {
    assert InstallWrites(l, lh, st.disk)[..0] == [];
    assert !recovering ==> Unpinned(st.refs, lh, 0) == st.refs;
  }

  lemma {:induction false} UnpinNext(refs: seq<nat>, lh: seq<int>, k: nat)
    requires k < |lh|
    requires forall i :: 0 <= i < |lh| ==> 0 <= lh[i] < |refs| && refs[lh[i]] > 0
    requires forall i, j :: 0 <= i < j < |lh| ==> lh[i] != lh[j]
    ensures Unpinned(refs, lh, k)[lh[k]] == refs[lh[k]]
    ensures Unpinned(refs, lh, k + 1) == Unpinned(refs, lh, k)[lh[k] := refs[lh[k]] - 1]
  {
    assert lh[..k + 1] == lh[..k] + [lh[k]];
  }

  lemma {:induction false} UnpinnedBusy(refs: seq<nat>, lh: seq<int>, k: nat)
    requires k <= |lh|
    requires forall i :: 0 <= i < |lh| ==> 0 <= lh[i] < |refs| && refs[lh[i]] > 0
    requires forall i, j :: 0 <= i < j < |lh| ==> lh[i] != lh[j]
    ensures Busy(Unpinned(refs, lh, k)) <= Busy(refs)
  {
    if k == 0 {
      assert Unpinned(refs, lh, 0) == refs;
    } else {
      UnpinnedBusy(refs, lh, k - 1);
      UnpinNext(refs, lh, k - 1);
      BusyUpdate(Unpinned(refs, lh, k - 1), lh[k - 1], refs[lh[k - 1]] - 1);
    }
  }

  /** Installing home blocks leaves the log region alone. */
  lemma {:induction false} InstalledQuiet(l: Layout, lh: seq<int>, st: Store, k: nat, recovering: bool)
    requires CanInstall(l, lh, st, recovering) && k <= |lh|
    ensures var now := Installed(l, lh, st, k, recovering);
            && Quiet(l, now) && |now.disk| == |st.disk| && Busy(now.refs) <= Busy(st.refs)
            && (forall b :: 0 <= b < |st.disk| && InLog(l, b) ==> now.disk[b] == st.disk[b])
  {
    AfterInstalls(l, lh, st.disk, st.disk, k);
    AfterInstalls(l, lh, st.disk, st.view, k);
    if !recovering {
      UnpinnedBusy(st.refs, lh, k);
    }
  }

  lemma {:induction false} NextInstallOne(l: Layout, lh: seq<int>, st: Store, k: nat, recovering: bool)
    requires CanInstall(l, lh, st, recovering) && k < |lh|
    ensures var now := Installed(l, lh, st, k, recovering);
            && Quiet(l, now) && |now.disk| == |st.disk| && Busy(now.refs) < NBUF
            && (if recovering then Busy(now.refs) + 1 < NBUF else now.refs[lh[k]] > 0)
            && var put := Put(now, Write(lh[k], now.disk[l.start + 1 + k]));
               Installed(l, lh, st, k + 1, recovering) == if recovering then put else AddRefs(put, lh[k], -1)
  {
    hide Busy, Apply;
    InstalledQuiet(l, lh, st, k, recovering);
    PutAllNext(st, InstallWrites(l, lh, st.disk), k);
    if !recovering {
      UnpinNext(st.refs, lh, k);
    }
  }

  /** When nothing but the pins of log_write is held, as many blocks are in use as
      are logged; so commit finds a buffer exactly while fewer than NBUF blocks are
      logged, and a log large enough for all LOGSIZE reservations (see
      LogRuns.PanicIffSmallLog) would let commit itself panic. */
  lemma {:induction false} PinsInUse(refs: seq<nat>, lh: seq<int>)
    requires forall i :: 0 <= i < |lh| ==> 0 <= lh[i] < |refs|
    requires forall i, j :: 0 <= i < j < |lh| ==> lh[i] != lh[j]
    requires forall b :: 0 <= b < |refs| ==> (refs[b] > 0 <==> b in lh)
    ensures Busy(refs) == |lh|
    ensures |lh| <= LOGSIZE ==> (Busy(refs) < NBUF <==> |lh| < LOGSIZE)
    decreases |lh|
  {
    if lh == [] {
      NobodyIsBusy(refs);
    } else {
      var n := |lh| - 1;
      var b := lh[n];
      BusyUpdate(refs, b, 0);
      assert lh == lh[..n] + [b];
      PinsInUse(refs[b := 0], lh[..n]);
    }
  }
}
