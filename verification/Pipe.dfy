/** kernel/pipe.c: a ring of PIPESIZE bytes under two 32-bit counters that wrap. */
module Pipe {
  import opened Basics

  const PIPESIZE: nat := 512
  const WRAP: nat := 0x1_0000_0000

  datatype Ring = Ring(data: seq<Byte>, nread: nat, nwrite: nat)

  /** How many bytes are held, whatever the counters have wrapped. */
  function Held(r: Ring): nat
    requires r.nread < WRAP && r.nwrite < WRAP
  {
    if r.nread <= r.nwrite then r.nwrite - r.nread else r.nwrite + WRAP - r.nread
  }

  ghost predicate Valid(r: Ring) {
    |r.data| == PIPESIZE && r.nread < WRAP && r.nwrite < WRAP && Held(r) <= PIPESIZE
  }

  function Slot(from: nat, i: nat): nat {
    (from + i) % PIPESIZE
  }

  /** The bytes held, oldest first. */
  function Contents(r: Ring): seq<Byte>
    requires |r.data| == PIPESIZE && r.nread < WRAP && r.nwrite < WRAP
  {
    seq(Held(r), (i: nat) => r.data[Slot(r.nread, i)])
  }

  /** pipewrite's test: nwrite == nread + PIPESIZE in 32 bits. */
  predicate Full(r: Ring) {
    r.nwrite == (r.nread + PIPESIZE) % WRAP
  }

  predicate Empty(r: Ring) {
    r.nread == r.nwrite
  }

  function Put(r: Ring, b: Byte): Ring
    requires |r.data| == PIPESIZE
  {
    r.(data := r.data[r.nwrite % PIPESIZE := b], nwrite := (r.nwrite + 1) % WRAP)
  }

  function Get(r: Ring): Ring {
    r.(nread := (r.nread + 1) % WRAP)
  }

  /** The tests on the wrapped counters are right: full and empty mean what they say. */
  lemma {:induction false} FullAndEmpty(r: Ring)
    requires Valid(r)
    ensures Full(r) <==> |Contents(r)| == PIPESIZE
    ensures Empty(r) <==> Contents(r) == []
  {
  }

  lemma {:induction false} PutContents(r: Ring, b: Byte)
    requires Valid(r) && !Full(r)
    ensures Valid(Put(r, b)) && Contents(Put(r, b)) == Contents(r) + [b]
  {
    hide Slot;
    var t, n := Put(r, b), Held(r);
    assert Held(t) == n + 1;
    WriteSlot(r);
    forall i: nat | i < n ensures Slot(r.nread, i) != Slot(r.nread, n) && Slot(r.nread, i) < PIPESIZE {
      SlotsDiffer(r.nread, i, n);
    }
  }

  lemma {:induction false} WriteSlot(r: Ring)
    requires Valid(r)
    ensures r.nwrite % PIPESIZE == Slot(r.nread, Held(r))
  {
    assert WRAP % PIPESIZE == 0;
  }

  lemma {:induction false} SlotsDiffer(from: nat, i: nat, n: nat)
    requires i < n < PIPESIZE
    ensures Slot(from, i) != Slot(from, n) && Slot(from, i) < PIPESIZE
  {
    var a, b := (from + i) / PIPESIZE, (from + n) / PIPESIZE;
    assert from + i == PIPESIZE * a + Slot(from, i) && from + n == PIPESIZE * b + Slot(from, n);
  }

  lemma {:induction false} GetContents(r: Ring)
    requires Valid(r) && !Empty(r)
    ensures Valid(Get(r)) && Contents(r) == [r.data[r.nread % PIPESIZE]] + Contents(Get(r))
  {
    var t, n := Get(r), Held(r);
    assert Held(t) == n - 1;
    forall i: nat | i < n - 1 ensures Slot(t.nread, i) == Slot(r.nread, i + 1) {
    }
  }

  // ---- Runs of any readers and writers --------------------------------------------------------------

  datatype Event = Write(b: Byte) | Read

  /** Writes happen when there is room, reads when there is something to read. */
  ghost predicate IsRun(r: Ring, run: seq<Event>)
    requires Valid(r)
    decreases |run|
  {
    run == [] ||
    match run[0]
    case Write(b) => !Full(r) && (PutContents(r, b); IsRun(Put(r, b), run[1..]))
    case Read => !Empty(r) && (GetContents(r); IsRun(Get(r), run[1..]))
  }

  ghost function After(r: Ring, run: seq<Event>): Ring
    requires Valid(r) && IsRun(r, run)
    decreases |run|
  {
    if run == [] then r
    else
      match run[0]
      case Write(b) => PutContents(r, b); After(Put(r, b), run[1..])
      case Read => GetContents(r); After(Get(r), run[1..])
  }

  /** The bytes accepted, and the bytes consumed, in order. */
  function Accepted(run: seq<Event>): seq<Byte> {
    if run == [] then [] else (if run[0].Write? then [run[0].b] else []) + Accepted(run[1..])
  }

  ghost function Consumed(r: Ring, run: seq<Event>): seq<Byte>
    requires Valid(r) && IsRun(r, run)
    decreases |run|
  {
    if run == [] then []
    else
      match run[0]
      case Write(b) => PutContents(r, b); Consumed(Put(r, b), run[1..])
      case Read => GetContents(r); [r.data[r.nread % PIPESIZE]] + Consumed(Get(r), run[1..])
  }

  /** First in, first out, over every run: what was held and what is written come out in
      order, the rest is still held, and never more than PIPESIZE bytes are. */
  lemma {:induction false} Fifo(r: Ring, run: seq<Event>)
    requires Valid(r) && IsRun(r, run)
    ensures Valid(After(r, run)) && |Contents(After(r, run))| <= PIPESIZE
    ensures Contents(r) + Accepted(run) == Consumed(r, run) + Contents(After(r, run))
    decreases |run|
  {
    hide Contents, Put, Get, Full, Empty;
    if run == [] {
      HeldIs(r);
      assert Contents(r) + [] == Contents(r) && [] + Contents(r) == Contents(r);
    } else {
      match run[0]
      case Write(b) =>
        PutContents(r, b);
        Fifo(Put(r, b), run[1..]);
        assert Contents(r) + ([b] + Accepted(run[1..])) == Contents(r) + [b] + Accepted(run[1..]);
      case Read =>
        GetContents(r);
        Fifo(Get(r), run[1..]);
        var x := r.data[r.nread % PIPESIZE];
        assert [x] + Contents(Get(r)) + Accepted(run[1..]) == [x] + (Contents(Get(r)) + Accepted(run[1..]));
        assert [] + Accepted(run[1..]) == Accepted(run[1..]);
    }
  }

  lemma HeldIs(r: Ring)
    requires Valid(r)
    ensures |Contents(r)| <= PIPESIZE
  {
  }

  /** From an empty pipe: what has been consumed is a prefix of what was accepted. */
  lemma {:induction false} ConsumedIsPrefix(r: Ring, run: seq<Event>)
    requires Valid(r) && Empty(r) && IsRun(r, run)
    ensures Consumed(r, run) <= Accepted(run)
  {
    hide Accepted, Consumed, After, IsRun;
    Fifo(r, run);
    FullAndEmpty(r);
    assert Contents(r) + Accepted(run) == Accepted(run);
  }

  /** A run of one more write, or one more read. */
  lemma {:induction false} OneMore(r: Ring, run: seq<Event>, e: Event)
    requires Valid(r) && IsRun(r, run) && Valid(After(r, run))
    requires if e.Write? then !Full(After(r, run)) else !Empty(After(r, run))
    ensures IsRun(r, run + [e])
    ensures var t := After(r, run);
            && After(r, run + [e]) == (if e.Write? then Put(t, e.b) else Get(t))
            && Consumed(r, run + [e]) == Consumed(r, run) + (if e.Write? then [] else [t.data[t.nread % PIPESIZE]])
    decreases |run|
  {
    hide Contents, Put, Get, Full, Empty;
    if run == [] {
      assert run + [e] == [e] && [e][1..] == [];
    } else {
      assert (run + [e])[0] == run[0] && (run + [e])[1..] == run[1..] + [e];
      match run[0]
      case Write(b) =>
        PutContents(r, b);
        OneMore(Put(r, b), run[1..], e);
      case Read =>
        GetContents(r);
        OneMore(Get(r), run[1..], e);
    }
  }

  /** The events of a stretch of pipewrite or piperead. */
  function Writes(bytes: seq<Byte>): (run: seq<Event>)
    ensures Accepted(run) == bytes
  {
    if bytes == [] then [] else [Write(bytes[0])] + Writes(bytes[1..])
  }

  function Reads(n: nat): (run: seq<Event>)
    ensures |run| == n && Accepted(run) == []
  {
    if n == 0 then [] else [Read] + Reads(n - 1)
  }

  lemma {:induction false} WritesMore(bytes: seq<Byte>, b: Byte)
    ensures Writes(bytes + [b]) == Writes(bytes) + [Write(b)]
    decreases |bytes|
  {
    if bytes != [] {
      WritesMore(bytes[1..], b);
      assert (bytes + [b])[1..] == bytes[1..] + [b];
    }
  }

  lemma {:induction false} ReadsMore(n: nat)
    ensures Reads(n + 1) == Reads(n) + [Read]
  {
    if n > 0 {
      ReadsMore(n - 1);
    }
  }

  // ---- The pipe's own loops -------------------------------------------------------------------------

  /** From `was`, writing these bytes one by one leads to r. */
  ghost predicate Wrote(was: Ring, bytes: seq<Byte>, r: Ring) {
    Valid(was) && IsRun(was, Writes(bytes)) && After(was, Writes(bytes)) == r
  }

  /** From `was`, reading leads to r and takes out these bytes. */
  ghost predicate Took(was: Ring, bytes: seq<Byte>, r: Ring) {
    && Valid(was) && IsRun(was, Reads(|bytes|))
    && After(was, Reads(|bytes|)) == r && Consumed(was, Reads(|bytes|)) == bytes
  }

  lemma {:induction false} WroteMore(was: Ring, bytes: seq<Byte>, r: Ring, b: Byte)
    requires Wrote(was, bytes, r) && Valid(r) && !Full(r)
    ensures Wrote(was, bytes + [b], Put(r, b))
  {
    hide Put, Full, IsRun, After;
    OneMore(was, Writes(bytes), Write(b));
    WritesMore(bytes, b);
  }

  lemma {:induction false} TookMore(was: Ring, bytes: seq<Byte>, r: Ring)
    requires Took(was, bytes, r) && Valid(r) && !Empty(r)
    ensures Took(was, bytes + [r.data[r.nread % PIPESIZE]], Get(r))
  {
    hide Get, Empty, IsRun, After, Consumed;
    OneMore(was, Reads(|bytes|), Read);
    ReadsMore(|bytes|);
  }

  lemma NothingYet(r: Ring)
    requires Valid(r)
    ensures Wrote(r, [], r) && Took(r, [], r)
  {
  }

  /** How a stretch of pipewrite or piperead under the lock ends. */
  datatype Outcome = Finished | Sleeps | Refused

  class PipeObject {
    var data: seq<Byte>
    var nread: nat
    var nwrite: nat
    var readopen: bool
    var writeopen: bool

    ghost function St(): Ring
      reads this
    {
      Ring(data, nread, nwrite)
    }

    /** pipewrite from byte i until it has written all, has to sleep, or is refused. */
    method Pipewrite(src: seq<Byte>, i: nat, killed: bool) returns (j: nat, how: Outcome)
      requires Valid(St()) && i <= |src|
      modifies this`data, this`nwrite
      ensures Valid(St()) && i <= j <= |src| && Contents(St()) == old(Contents(St())) + src[i..j]
      ensures how.Finished? <==> j == |src|
      ensures how.Sleeps? ==> |Contents(St())| == PIPESIZE && readopen && !killed
      ensures how.Refused? <==> i < |src| && (!readopen || killed)
      ensures how.Refused? ==> j == i
      ensures Wrote(old(St()), src[i..j], St())
    {
      hide Contents, Wrote, Took;
      ghost var s := St();
      NothingYet(s);
      j := i;
      ghost var was := Contents(St());
      assert src[i..i] == [] && was + [] == was;
      while j < |src|
        invariant i <= j <= |src| && Valid(St()) && Contents(St()) == was + src[i..j]
        invariant j > i ==> readopen && !killed
        invariant Wrote(s, src[i..j], St())
      {
        if !readopen || killed { return j, Refused; }
        FullAndEmpty(St());
        if nwrite == (nread + PIPESIZE) % WRAP {
          return j, Sleeps;
        }
        PutContents(St(), src[j]);
        WroteMore(s, src[i..j], St(), src[j]);
        data := data[nwrite % PIPESIZE := src[j]];
        nwrite := (nwrite + 1) % WRAP;
        assert src[i..j + 1] == src[i..j] + [src[j]];
        j := j + 1;
      }
      how := Finished;
    }

    /** piperead of up to n bytes: sleeps or is refused only on an empty pipe that can still
        be written; otherwise it takes the oldest bytes there are. */
    method Piperead(n: nat, killed: bool) returns (out: seq<Byte>, how: Outcome)
      requires Valid(St())
      modifies this`nread
      ensures Valid(St()) && old(Contents(St())) == out + Contents(St())
      ensures how.Finished? <==> old(Contents(St())) != [] || !writeopen
      ensures how.Finished? ==> |out| == n || (|out| < n && Contents(St()) == [])
      ensures !how.Finished? ==> out == [] && (how.Refused? <==> killed)
      ensures Took(old(St()), out, St())
    {
      hide Contents, Wrote, Took;
      ghost var s := St();
      NothingYet(s);
      out := [];
      ghost var was := Contents(St());
      assert was == [] + was;
      FullAndEmpty(St());
      if nread == nwrite && writeopen {
        return [], if killed then Refused else Sleeps;
      }
      while |out| < n
        invariant |out| <= n && Valid(St()) && was == out + Contents(St()) && Took(s, out, St())
      {
        FullAndEmpty(St());
        if nread == nwrite { break; }
        GetContents(St());
        TookMore(s, out, St());
        var ch := data[nread % PIPESIZE];
        nread := (nread + 1) % WRAP;
        assert out + ([ch] + Contents(St())) == out + [ch] + Contents(St());
        out := out + [ch];
      }
      how := Finished;
    }
  }
}
