/** The redo log of kernel/log.c seen from the disk: what one commit and one
    recovery write, block by block, and what is left if the machine stops after
    any prefix of those writes. */
module LogSpec {

  const MAXOPBLOCKS: nat := 10
  const LOGSIZE: nat := 30
  const BWORDS: nat := 256  // BSIZE / sizeof(uint)

  /** One disk block, as the uint words it holds. */
  type Block = b: seq<int> | |b| == BWORDS witness seq(BWORDS, _ => 0)

  /** The whole disk. */
  type Image = seq<Block>

  /** One bwrite: the unit that either happens or does not. */
  datatype Write = Write(bno: nat, data: Block)

  /** Where the log lives: the header block `start`, then `size - 1` slots. */
  datatype Layout = Layout(start: nat, size: nat)

  predicate InLog(l: Layout, b: int) {
    l.start <= b < l.start + l.size
  }

  function ApplyOne(d: Image, w: Write): (r: Image)
    ensures |r| == |d|
  {
    if w.bno < |d| then d[w.bno := w.data] else d
  }

  /** The disk after a list of writes. */
  function Apply(d: Image, ws: seq<Write>): (r: Image)
    ensures |r| == |d|
  {
    if ws == [] then d else ApplyOne(Apply(d, ws[..|ws| - 1]), ws[|ws| - 1])
  }

  // The header block: a count, then that many block numbers. The words after
  // them are left over from earlier transactions.

  function HeaderCount(b: Block): int {
    b[0]
  }

  function HeaderBlocks(b: Block): (r: seq<int>)
    requires 0 <= HeaderCount(b) <= LOGSIZE
  {
    b[1..1 + b[0]]
  }

  function EncodeHeader(was: Block, lh: seq<int>): (r: Block)
    requires |lh| <= LOGSIZE
    ensures HeaderCount(r) == |lh| && HeaderBlocks(r) == lh
  {
    [|lh|] + lh + was[1 + |lh|..]
  }

  /** The header block on disk: word 0 is the count, the words after it the block numbers,
      and what follows them is left as it was. */
  lemma {:induction false} HeaderOnDisk(was: Block, lh: seq<int>, k: nat)
    requires |lh| <= LOGSIZE && k < BWORDS
    ensures EncodeHeader(was, lh)[k] == if k == 0 then |lh| else if k <= |lh| then lh[k - 1] else was[k]
  {
    assert |[|lh|] + lh| == 1 + |lh|;
  }


  /** A list of home blocks that the log can hold: distinct, on the disk, outside
      the log, and no longer than the slots. */
  ghost predicate LoggableBlocks(l: Layout, diskSize: nat, lh: seq<int>) {
    && |lh| <= LOGSIZE
    && |lh| + 1 <= l.size
    && (forall i :: 0 <= i < |lh| ==> 0 <= lh[i] < diskSize && !InLog(l, lh[i]))
    && (forall i, j :: 0 <= i < j < |lh| ==> lh[i] != lh[j])
  }

  ghost predicate FitsDisk(l: Layout, d: Image) {
    1 <= l.size && l.start + l.size <= |d|
  }

  ghost predicate WellFormed(l: Layout, d: Image) {
    && FitsDisk(l, d)
    && 0 <= HeaderCount(d[l.start]) <= LOGSIZE
    && LoggableBlocks(l, |d|, HeaderBlocks(d[l.start]))
  }

  ghost predicate Clear(l: Layout, d: Image) {
    FitsDisk(l, d) && HeaderCount(d[l.start]) == 0
  }

  /** The two disks agree on every block outside the log. */
  ghost predicate SameHome(l: Layout, d: Image, e: Image) {
    && |d| == |e|
    && forall b :: 0 <= b < |d| && !InLog(l, b) ==> d[b] == e[b]
  }

  /** Blocks outside the log that are not logged are the same in the cache and on d. */
  ghost predicate AgreeOff(l: Layout, lh: seq<int>, view: Image, d: Image) {
    |view| == |d| && forall b :: 0 <= b < |d| && !InLog(l, b) && b !in lh ==> view[b] == d[b]
  }

  // ---- What commit and recovery write -------------------------------------

  function LogWrites(l: Layout, lh: seq<int>, view: Image): (ws: seq<Write>)
    requires forall i :: 0 <= i < |lh| ==> 0 <= lh[i] < |view|
  {
    seq(|lh|, i requires 0 <= i < |lh| => Write(l.start + 1 + i, view[lh[i]]))
  }

  function InstallWrites(l: Layout, lh: seq<int>, d: Image): (ws: seq<Write>)
    requires FitsDisk(l, d) && |lh| + 1 <= l.size
    requires forall i :: 0 <= i < |lh| ==> 0 <= lh[i]
  {
    seq(|lh|, i requires 0 <= i < |lh| => Write(lh[i], d[l.start + 1 + i]))
  }

  /** write_log, write_head, install_trans, write_head: everything commit() puts
      on disk d, in order, when `view` is what the cache holds. */
  function CommitWrites(l: Layout, lh: seq<int>, view: Image, d: Image): (ws: seq<Write>)
    requires FitsDisk(l, d) && LoggableBlocks(l, |d|, lh) && |view| == |d|
  {
    if lh == [] then []
    else
      var full := EncodeHeader(d[l.start], lh);
      LogWrites(l, lh, view)
      + [Write(l.start, full)]
      + InstallWrites(l, lh, Apply(d, LogWrites(l, lh, view)))
      + [Write(l.start, EncodeHeader(full, []))]
  }

  /** Everything recover_from_log() writes when it starts from disk d. */
  function RecoveryWrites(l: Layout, d: Image): (ws: seq<Write>)
    requires WellFormed(l, d)
  {
    InstallWrites(l, HeaderBlocks(d[l.start]), d)
    + [Write(l.start, EncodeHeader(d[l.start], []))]
  }

  function Recovered(l: Layout, d: Image): (r: Image)
    requires WellFormed(l, d)
    ensures |r| == |d|
  {
    Apply(d, RecoveryWrites(l, d))
  }

  /** Running recovery to its end on disk e yields the home blocks of h. */
  ghost predicate RecoversTo(l: Layout, e: Image, h: Image) {
    WellFormed(l, e) && SameHome(l, Recovered(l, e), h)
  }

  // ---- Lists of writes ------------------------------------------------------

  lemma {:induction false} ApplyConcat(d: Image, xs: seq<Write>, ys: seq<Write>)
    ensures Apply(d, xs + ys) == Apply(Apply(d, xs), ys)
    decreases |ys|
  {
    if ys == [] {
      assert xs + ys == xs;
    } else {
      var n := |ys| - 1;
      assert (xs + ys)[..|xs + ys| - 1] == xs + ys[..n];
      ApplyConcat(d, xs, ys[..n]);
    }
  }

  lemma AppendNext(xs: seq<Write>, ws: seq<Write>, k: nat)
    requires k < |ws|
    ensures xs + ws[..k + 1] == xs + ws[..k] + [ws[k]]
  {
  }

  /** One more write of a list. */
  lemma {:induction false} ApplyNext(d: Image, ws: seq<Write>, k: nat)
    requires k < |ws|
    ensures Apply(d, ws[..k + 1]) == ApplyOne(Apply(d, ws[..k]), ws[k])
    ensures ws[..k + 1] == ws[..k] + [ws[k]]
  {
    assert ws[..k + 1][..k] == ws[..k];
  }

  /** Slots written so far hold the logged blocks; nothing else has changed. */
  lemma {:induction false} AfterLogWrites(l: Layout, lh: seq<int>, view: Image, d: Image, k: nat)
    requires FitsDisk(l, d) && LoggableBlocks(l, |d|, lh) && |view| == |d| && k <= |lh|
    ensures forall i :: 0 <= i < k ==> Apply(d, LogWrites(l, lh, view)[..k])[l.start + 1 + i] == view[lh[i]]
    ensures forall b :: 0 <= b < |d| && !(l.start + 1 <= b < l.start + 1 + k) ==>
              Apply(d, LogWrites(l, lh, view)[..k])[b] == d[b]
  {
    if k > 0 {
      AfterLogWrites(l, lh, view, d, k - 1);
      ApplyNext(d, LogWrites(l, lh, view), k - 1);
    }
  }

  /** Home blocks installed so far hold their slot; nothing else has changed. */
  lemma {:induction false} AfterInstalls(l: Layout, lh: seq<int>, src: Image, d: Image, k: nat)
    requires FitsDisk(l, src) && LoggableBlocks(l, |d|, lh) && |src| == |d| && k <= |lh|
    ensures forall i :: 0 <= i < k ==> Apply(d, InstallWrites(l, lh, src)[..k])[lh[i]] == src[l.start + 1 + i]
    ensures forall b :: 0 <= b < |d| && b !in lh[..k] ==>
              Apply(d, InstallWrites(l, lh, src)[..k])[b] == d[b]
  {
    if k > 0 {
      AfterInstalls(l, lh, src, d, k - 1);
      ApplyNext(d, InstallWrites(l, lh, src), k - 1);
      assert lh[..k] == lh[..k - 1] + [lh[k - 1]];
    }
  }

  /** What a completed recovery does, stated without its list of writes: home
      blocks named by the header take their slot's contents, all others stay, and
      the log is empty afterwards. */
  lemma {:induction false} RecoveredContents(l: Layout, d: Image)
    requires WellFormed(l, d)
    ensures Clear(l, Recovered(l, d)) && WellFormed(l, Recovered(l, d))
    ensures var lh := HeaderBlocks(d[l.start]);
            forall i :: 0 <= i < |lh| ==> Recovered(l, d)[lh[i]] == d[l.start + 1 + i]
    ensures forall b :: 0 <= b < |d| && b !in HeaderBlocks(d[l.start]) && b != l.start ==>
              Recovered(l, d)[b] == d[b]
  {
    var lh := HeaderBlocks(d[l.start]);
    var ws := InstallWrites(l, lh, d);
    AfterInstalls(l, lh, d, d, |lh|);
    assert ws[..|lh|] == ws;
    assert lh[..|lh|] == lh;
    ApplyNext(d, RecoveryWrites(l, d), |lh|);
    assert RecoveryWrites(l, d)[..|lh|] == ws;
    assert RecoveryWrites(l, d)[..|lh| + 1] == RecoveryWrites(l, d);
  }

  // ---- Crash atomicity of one recovery and of one commit ------------------

  /** A disk on which commit has written the whole log and the header, and j home
      blocks: recovery completes the transaction. */
  lemma {:induction false} RedoCompletes(l: Layout, lh: seq<int>, view: Image, e: Image)
    requires WellFormed(l, e) && HeaderBlocks(e[l.start]) == lh && |view| == |e|
    requires forall i :: 0 <= i < |lh| ==> e[l.start + 1 + i] == view[lh[i]]
    requires forall b :: 0 <= b < |e| && !InLog(l, b) && b !in lh ==> e[b] == view[b]
    ensures RecoversTo(l, e, view)
  {
    RecoveredContents(l, e);
    forall b | 0 <= b < |e| && !InLog(l, b)
      ensures Recovered(l, e)[b] == view[b]
    {
      if b in lh {
        var i :| 0 <= i < |lh| && lh[i] == b;
        assert Recovered(l, e)[lh[i]] == e[l.start + 1 + i];
      }
    }
  }

  /** Recovery can itself be cut short after any number of writes, and starting
      again gives the same home blocks. */
  lemma {:induction false} RecoveryCrash(l: Layout, d: Image, k: nat)
    requires WellFormed(l, d) && k <= |RecoveryWrites(l, d)|
    ensures RecoversTo(l, Apply(d, RecoveryWrites(l, d)[..k]), Recovered(l, d))
  {
    var lh := HeaderBlocks(d[l.start]);
    var ws := RecoveryWrites(l, d);
    RecoveredContents(l, d);
    if k <= |lh| {
      assert ws[..k] == InstallWrites(l, lh, d)[..k];
      AfterInstalls(l, lh, d, d, k);
      hide Apply, Recovered, InstallWrites, RecoveryWrites;
      RedoCompletes(l, lh, Recovered(l, d), Apply(d, ws[..k]));
    } else {
      assert ws[..k] == ws;
      ClearIsWellFormed(l, Recovered(l, d));
    }
  }

  /** How the list of commit writes falls into its four phases. */
  lemma {:induction false} CommitPhases(l: Layout, lh: seq<int>, view: Image, d: Image, k: nat)
    requires FitsDisk(l, d) && LoggableBlocks(l, |d|, lh) && |view| == |d| && lh != [] && k <= |lh|
    ensures var ws := CommitWrites(l, lh, view, d);
            var log := LogWrites(l, lh, view);
            var full := EncodeHeader(d[l.start], lh);
            && |ws| == 2 * |lh| + 2
            && ws[..|lh|] == log && ws[..k] == log[..k]
            && ws[|lh|] == Write(l.start, full)
            && ws[..|lh| + 1 + k] == ws[..|lh| + 1] + InstallWrites(l, lh, Apply(d, log))[..k]
            && ws[2 * |lh| + 1] == Write(l.start, EncodeHeader(full, []))
  {
  }

  /** The disk when the header has just been written. */
  lemma {:induction false} AfterHeadWrite(l: Layout, lh: seq<int>, view: Image, d: Image)
    requires FitsDisk(l, d) && LoggableBlocks(l, |d|, lh) && |view| == |d| && lh != []
    ensures var e := Apply(d, CommitWrites(l, lh, view, d)[..|lh| + 1]);
            && e[l.start] == EncodeHeader(d[l.start], lh)
            && (forall i :: 0 <= i < |lh| ==> e[l.start + 1 + i] == view[lh[i]])
            && (forall b :: 0 <= b < |d| && !InLog(l, b) ==> e[b] == d[b])
  {
    AfterLogWrites(l, lh, view, d, |lh|);
    CommitPhases(l, lh, view, d, 0);
    ApplyNext(d, CommitWrites(l, lh, view, d), |lh|);
    assert LogWrites(l, lh, view)[..|lh|] == LogWrites(l, lh, view);
  }

  /** The disk after a full log, its header and the first k home blocks. */
  lemma {:induction false} AfterHeader(l: Layout, lh: seq<int>, view: Image, d: Image, k: nat)
    requires FitsDisk(l, d) && LoggableBlocks(l, |d|, lh) && |view| == |d| && lh != [] && k <= |lh|
    ensures var e := Apply(d, CommitWrites(l, lh, view, d)[..|lh| + 1 + k]);
            && e[l.start] == EncodeHeader(d[l.start], lh)
            && (forall i :: 0 <= i < |lh| ==> e[l.start + 1 + i] == view[lh[i]])
            && (forall i :: 0 <= i < k ==> e[lh[i]] == view[lh[i]])
            && (forall b :: 0 <= b < |d| && !InLog(l, b) && b !in lh ==> e[b] == d[b])
  {
    hide CommitWrites, Apply;
    CommitPhases(l, lh, view, d, k);
    var ws := CommitWrites(l, lh, view, d);
    var d1 := Apply(d, LogWrites(l, lh, view));
    var d2 := Apply(d, ws[..|lh| + 1]);
    AfterHeadWrite(l, lh, view, d);
    ApplyConcat(d, ws[..|lh| + 1], InstallWrites(l, lh, d1)[..k]);
    AfterInstalls(l, lh, d1, d2, k);
    AfterLogWrites(l, lh, view, d, |lh|);
    assert LogWrites(l, lh, view)[..|lh|] == LogWrites(l, lh, view);
  }

  /** The home blocks after a completed commit. */
  lemma {:induction false} CommitDone(l: Layout, lh: seq<int>, view: Image, d: Image)
    requires Clear(l, d) && LoggableBlocks(l, |d|, lh) && |view| == |d|
    requires AgreeOff(l, lh, view, d)
    ensures var e := Apply(d, CommitWrites(l, lh, view, d)); Clear(l, e) && SameHome(l, e, view)
  {
    if lh != [] {
      LastWrite(l, lh, view, d);
    }
  }

  lemma {:induction false} LastWrite(l: Layout, lh: seq<int>, view: Image, d: Image)
    requires Clear(l, d) && LoggableBlocks(l, |d|, lh) && |view| == |d| && lh != []
    requires AgreeOff(l, lh, view, d)
    ensures var e := Apply(d, CommitWrites(l, lh, view, d)); Clear(l, e) && SameHome(l, e, view)
  {
    hide CommitWrites, Apply, EncodeHeader, LogWrites, InstallWrites;
    var ws := CommitWrites(l, lh, view, d);
    CommitPhases(l, lh, view, d, |lh|);
    AfterHeader(l, lh, view, d, |lh|);
    ApplyNext(d, ws, 2 * |lh| + 1);
    assert ws[..2 * |lh| + 2] == ws;
    var e := Apply(d, ws);
    forall b | 0 <= b < |d| && !InLog(l, b) ensures e[b] == view[b] {
      if b in lh {
        var i :| 0 <= i < |lh| && lh[i] == b;
      }
    }
  }

  /** The four phases of commit, run one after the other on image x, add up to
      CommitWrites; x is the disk or what the cache shows. */
  lemma {:induction false} CommitAddsUp(l: Layout, lh: seq<int>, view: Image, d: Image, x: Image)
    requires FitsDisk(l, d) && LoggableBlocks(l, |d|, lh) && |view| == |d| == |x| && lh != []
    ensures var ws := CommitWrites(l, lh, view, d);
            var log := LogWrites(l, lh, view);
            var head := Write(l.start, EncodeHeader(d[l.start], lh));
            var ins := InstallWrites(l, lh, ApplyOne(Apply(d, log), head));
            var clear := Write(l.start, EncodeHeader(head.data, []));
            && ws == log + [head] + ins + [clear]
            && Apply(x, ws) == ApplyOne(Apply(ApplyOne(Apply(x, log), head), ins), clear)
  {
    var log := LogWrites(l, lh, view);
    var head := Write(l.start, EncodeHeader(d[l.start], lh));
    var ins := InstallWrites(l, lh, ApplyOne(Apply(d, log), head));
    var clear := Write(l.start, EncodeHeader(head.data, []));
    assert ins == InstallWrites(l, lh, Apply(d, log));
    assert (log + [head] + ins + [clear])[..|log| + 1 + |ins|] == log + [head] + ins;
    ApplyConcat(x, log + [head], ins);
    assert (log + [head])[..|log|] == log;
  }

  /** Neither the log blocks nor the home blocks are the header block. */
  lemma {:induction false} HeaderStays(l: Layout, lh: seq<int>, view: Image, src: Image, x: Image)
    requires FitsDisk(l, x) && LoggableBlocks(l, |x|, lh) && |view| == |src| == |x|
    ensures Apply(x, LogWrites(l, lh, view))[l.start] == x[l.start]
    ensures Apply(x, InstallWrites(l, lh, src))[l.start] == x[l.start]
  {
    AfterLogWrites(l, lh, view, x, |lh|);
    AfterInstalls(l, lh, src, x, |lh|);
    assert LogWrites(l, lh, view)[..|lh|] == LogWrites(l, lh, view);
    assert InstallWrites(l, lh, src)[..|lh|] == InstallWrites(l, lh, src);
    assert lh[..|lh|] == lh;
  }

  /** Two images given the same writes agree wherever they did before or were written. */
  lemma {:induction false} ApplyAgree(x: Image, y: Image, ws: seq<Write>, b: nat)
    requires |x| == |y| && b < |x|
    requires x[b] == y[b] || exists i :: 0 <= i < |ws| && ws[i].bno == b
    ensures Apply(x, ws)[b] == Apply(y, ws)[b]
  {
    if ws != [] {
      var n := |ws| - 1;
      if ws[n].bno != b {
        assert x[b] != y[b] ==> exists i :: 0 <= i < n && ws[..n][i].bno == b;
        ApplyAgree(x, y, ws[..n], b);
      }
    }
  }

  lemma {:induction false} ClearIsWellFormed(l: Layout, d: Image)
    requires Clear(l, d)
    ensures RecoversTo(l, d, d)
  {
    RecoveredContents(l, d);
  }

  /** Cut short while the log is being written: nothing has happened. */
  lemma {:induction false} CrashBeforeHeader(l: Layout, lh: seq<int>, view: Image, d: Image, k: nat)
    requires Clear(l, d) && LoggableBlocks(l, |d|, lh) && |view| == |d| && lh != [] && k <= |lh|
    ensures var e := Apply(d, CommitWrites(l, lh, view, d)[..k]);
            RecoversTo(l, e, d)
  {
    CommitPhases(l, lh, view, d, k);
    AfterLogWrites(l, lh, view, d, k);
    ClearIsWellFormed(l, Apply(d, CommitWrites(l, lh, view, d)[..k]));
  }

  /** Cut short after the header and k home blocks: recovery does the rest. */
  lemma {:induction false} CrashAfterHeader(l: Layout, lh: seq<int>, view: Image, d: Image, k: nat)
    requires Clear(l, d) && LoggableBlocks(l, |d|, lh) && |view| == |d| && lh != [] && k <= |lh|
    requires AgreeOff(l, lh, view, d)
    ensures var e := Apply(d, CommitWrites(l, lh, view, d)[..|lh| + 1 + k]);
            RecoversTo(l, e, view)
  {
    AfterHeader(l, lh, view, d, k);
    RedoCompletes(l, lh, view, Apply(d, CommitWrites(l, lh, view, d)[..|lh| + 1 + k]));
  }

  /** Stopped only once the log is empty again: nothing is left to do. */
  lemma {:induction false} CrashAfterAll(l: Layout, lh: seq<int>, view: Image, d: Image)
    requires Clear(l, d) && LoggableBlocks(l, |d|, lh) && |view| == |d| && lh != []
    requires AgreeOff(l, lh, view, d)
    ensures var ws := CommitWrites(l, lh, view, d);
            |ws| == 2 * |lh| + 2 && RecoversTo(l, Apply(d, ws[..|ws|]), view)
  {
    var ws := CommitWrites(l, lh, view, d);
    CommitPhases(l, lh, view, d, 0);
    assert ws[..|ws|] == ws;
    CommitDone(l, lh, view, d);
    ClearIsWellFormed(l, Apply(d, ws));
  }

  /** A commit cut short after k of its writes: recovery yields the old home
      blocks up to and including the last log slot, and all of the transaction
      from the header write on. Nothing in between is possible. */
  lemma {:induction false} CommitCrash(l: Layout, lh: seq<int>, view: Image, d: Image, k: nat)
    requires Clear(l, d) && LoggableBlocks(l, |d|, lh) && |view| == |d|
    requires AgreeOff(l, lh, view, d)
    requires k <= |CommitWrites(l, lh, view, d)|
    ensures var e := Apply(d, CommitWrites(l, lh, view, d)[..k]);
            RecoversTo(l, e, if k <= |lh| then d else view)
  {
    hide CommitWrites, RecoversTo, Apply, LoggableBlocks, AgreeOff;
    var ws := CommitWrites(l, lh, view, d);
    var n := |lh|;
    if n == 0 {
      NothingToCommit(l, lh, view, d);
    } else {
      assert |ws| == 2 * n + 2 by { CommitPhases(l, lh, view, d, 0); }
      if k <= n {
        CrashBeforeHeader(l, lh, view, d, k);
      } else if k <= 2 * n + 1 {
        var j := k - n - 1;
        assert ws[..k] == ws[..n + 1 + j];
        CrashAfterHeader(l, lh, view, d, j);
      } else {
        CrashAfterAll(l, lh, view, d);
      }
    }
  }

  lemma {:induction false} NothingToCommit(l: Layout, lh: seq<int>, view: Image, d: Image)
    requires Clear(l, d) && LoggableBlocks(l, |d|, lh) && |view| == |d| && lh == []
    ensures var ws := CommitWrites(l, lh, view, d);
            |ws| == 0 && RecoversTo(l, Apply(d, ws[..0]), d)
  {
    ClearIsWellFormed(l, d);
  }
}
