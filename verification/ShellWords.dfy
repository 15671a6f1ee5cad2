/** Where the words of a parsed command lie in the line, and what nulterminate of
    user/sh.c makes of them. */
module ShellWords {
  import opened ShellSpec
  import opened ShellLex

  const NUL: char := 0 as char

  /** A maximal run of word characters. */
  predicate GoodWord(s: string, w: Span) {
    w.lo < w.hi <= |s| && (forall k: nat :: w.lo <= k < w.hi ==> IsWordChar(s[k]))
      && (w.hi < |s| ==> !IsWordChar(s[w.hi]))
  }

  ghost predicate GoodToks(s: string, ts: seq<Tok<Span>>) {
    forall i :: 0 <= i < |ts| && ts[i].Word? ==> GoodWord(s, ts[i].w)
  }

  ghost predicate GoodRedirs(s: string, rs: seq<Rd<Span>>) {
    forall i :: 0 <= i < |rs| ==> GoodWord(s, rs[i].file)
  }

  ghost predicate GoodCmd(s: string, c: Cmd<Span>) {
    match c
    case Exec(args) => forall i :: 0 <= i < |args| ==> GoodWord(s, args[i])
    case Redir(d, _, file) => GoodWord(s, file) && GoodCmd(s, d)
    case Pipe(l, r) => GoodCmd(s, l) && GoodCmd(s, r)
    case List(l, r) => GoodCmd(s, l) && GoodCmd(s, r)
    case Back(d) => GoodCmd(s, d)
  }

  ghost predicate GoodResult(s: string, r: Result<Span>) {
    r.Ok? ==> GoodCmd(s, r.cmd) && GoodToks(s, r.rest)
  }

  lemma {:induction false} LexGood(s: string, i: nat)
    requires i <= |s|
    ensures GoodToks(s, Lex(s, i))
    decreases |s| - i
  {
    var j := Skip(s, i);
    if j < |s| {
      LexGood(s, TokenEnd(s, j));
    }
  }

  // ---- The parser's words are the line's --------------------------------------------------------------

  lemma {:induction false} RedirsGood(s: string, ts: seq<Tok<Span>>)
    requires GoodToks(s, ts)
    ensures var r := PRedirs(ts); r.Found? ==> GoodRedirs(s, r.rs) && GoodToks(s, r.rest)
    decreases |ts|
  {
    if |ts| >= 2 {
      RedirsGood(s, ts[2..]);
    }
  }

  lemma {:induction false} WrapGood(s: string, c: Cmd<Span>, rs: seq<Rd<Span>>)
    requires GoodCmd(s, c) && GoodRedirs(s, rs)
    ensures GoodCmd(s, Wrap(c, rs))
    decreases |rs|
  {
    if rs != [] {
      WrapGood(s, c, rs[..|rs| - 1]);
    }
  }

  lemma {:induction false} SimpleGood(s: string, ts: seq<Tok<Span>>, args: seq<Span>, rs: seq<Rd<Span>>)
    requires GoodToks(s, ts) && GoodCmd(s, Exec(args)) && GoodRedirs(s, rs)
    ensures GoodResult(s, PSimple(ts, args, rs))
    decreases |ts|
  {
    hide GoodWord;
    RedirsGood(s, ts);
    var r := PRedirs(ts);
    if r.Found? {
      WrapGood(s, Exec(args), rs + r.rs);
      if r.rest != [] && r.rest[0].Word? {
        assert GoodWord(s, r.rest[0].w);
        SimpleGood(s, r.rest[1..], args + [r.rest[0].w], rs + r.rs);
      }
    }
  }

  lemma {:induction false} ExecGood(s: string, ts: seq<Tok<Span>>)
    requires GoodToks(s, ts)
    ensures GoodResult(s, PExec(ts))
    decreases |ts|, 1
  {
    hide PSimple, PLine, PRedirs, GoodWord;
    SimpleGood(s, ts, [], []);
    if Heads(ts, '(') {
      LineGood(s, ts[1..]);
      var r := PLine(ts[1..]);
      if r.Ok? && Heads(r.rest, ')') {
        RedirsGood(s, r.rest[1..]);
        var q := PRedirs(r.rest[1..]);
        if q.Found? {
          WrapGood(s, r.cmd, q.rs);
        }
      }
    }
  }

  lemma {:induction false} PipeGood(s: string, ts: seq<Tok<Span>>)
    requires GoodToks(s, ts)
    ensures GoodResult(s, PPipe(ts))
    decreases |ts|, 2
  {
    hide PExec, GoodWord;
    ExecGood(s, ts);
    var r := PExec(ts);
    if r.Ok? && Heads(r.rest, '|') {
      PipeGood(s, r.rest[1..]);
    }
  }

  lemma {:induction false} AmpsGood(s: string, c: Cmd<Span>, ts: seq<Tok<Span>>)
    requires GoodCmd(s, c) && GoodToks(s, ts)
    ensures GoodResult(s, PAmps(c, ts))
    decreases |ts|
  {
    hide GoodWord;
    if Heads(ts, '&') {
      AmpsGood(s, Back(c), ts[1..]);
    }
  }

  lemma {:induction false} LineGood(s: string, ts: seq<Tok<Span>>)
    requires GoodToks(s, ts)
    ensures GoodResult(s, PLine(ts))
    decreases |ts|, 3
  {
    hide PPipe, PAmps, GoodWord;
    PipeGood(s, ts);
    var r := PPipe(ts);
    if r.Ok? {
      AmpsGood(s, r.cmd, r.rest);
      var q := PAmps(r.cmd, r.rest);
      if Heads(q.rest, ';') {
        LineGood(s, q.rest[1..]);
      }
    }
  }

  // ---- nulterminate -------------------------------------------------------------------------------------

  ghost predicate InTree(c: Cmd<Span>, w: Span) {
    match c
    case Exec(args) => w in args
    case Redir(d, _, file) => w == file || InTree(d, w)
    case Pipe(l, r) => InTree(l, w) || InTree(r, w)
    case List(l, r) => InTree(l, w) || InTree(r, w)
    case Back(d) => InTree(d, w)
  }

  /** Position i ends some word of c. */
  ghost predicate IsEnd(c: Cmd<Span>, i: nat) {
    exists w :: InTree(c, w) && w.hi == i
  }

  /** The line with its NUL, and with a NUL at the end of every word of c. */
  ghost predicate Terminated(before: seq<char>, after: seq<char>, c: Cmd<Span>) {
    |after| == |before| && forall i: nat :: i < |before| ==> after[i] == if IsEnd(c, i) then NUL else before[i]
  }

  lemma {:induction false} TreeIsGood(s: string, c: Cmd<Span>, w: Span)
    requires GoodCmd(s, c) && InTree(c, w)
    ensures GoodWord(s, w)
    decreases c
  {
    hide GoodWord;
    match c
    case Exec(args) =>
    case Redir(d, _, file) => if w != file { TreeIsGood(s, d, w); }
    case Pipe(l, r) => if InTree(l, w) { TreeIsGood(s, l, w); } else { TreeIsGood(s, r, w); }
    case List(l, r) => if InTree(l, w) { TreeIsGood(s, l, w); } else { TreeIsGood(s, r, w); }
    case Back(d) => TreeIsGood(s, d, w);
  }

  /** After nulterminate each word of the command reads as its own characters and then a
      NUL: no end mark falls on a character of any word. */
  lemma {:induction false} WordsReadBack(s: string, c: Cmd<Span>, after: seq<char>, w: Span)
    requires GoodCmd(s, c) && InTree(c, w) && Terminated(s + [NUL], after, c)
    ensures w.lo < w.hi < |after| && after[w.lo..w.hi] == Text(s, w) && after[w.hi] == NUL
  {
    TreeIsGood(s, c, w);
    assert IsEnd(c, w.hi);
    forall k: nat | w.lo <= k < w.hi ensures after[k] == s[k] {
      if IsEnd(c, k) {
        var v :| InTree(c, v) && v.hi == k;
        TreeIsGood(s, c, v);
      }
    }
  }

  /** nulterminate. */
  method NulTerminate(buf: array<char>, c: Cmd<Span>, ghost s: string)
    requires GoodCmd(s, c) && buf.Length == |s| + 1
    modifies buf
    ensures Terminated(old(buf[..]), buf[..], c)
    decreases c
  {
    hide GoodWord;
    match c {
      case Exec(args) =>
        var i := 0;
        while i < |args|
          invariant 0 <= i <= |args|
          invariant forall k: nat :: k < buf.Length ==>
                      buf[k] == if exists j :: 0 <= j < i && args[j].hi == k then NUL else old(buf[k])
        {
          InBounds(s, args[i]);
          buf[args[i].hi] := NUL;
          i := i + 1;
        }
        ExecEnds(args);
      case Redir(d, kind, file) =>
        NulTerminate(buf, d, s);
        InBounds(s, file);
        buf[file.hi] := NUL;
        RedirEnds(d, kind, file);
      case Pipe(l, r) =>
        NulTerminate(buf, l, s);
        NulTerminate(buf, r, s);
        TwoEnds(c, l, r);
      case List(l, r) =>
        NulTerminate(buf, l, s);
        NulTerminate(buf, r, s);
        TwoEnds(c, l, r);
      case Back(d) =>
        NulTerminate(buf, d, s);
        OneEnds(d);
    }
  }

  lemma InBounds(s: string, w: Span)
    requires GoodWord(s, w)
    ensures w.hi <= |s|
  {
  }

  lemma {:induction false} ExecEnds(args: seq<Span>)
    ensures forall k: nat :: IsEnd(Exec(args), k) <==> exists j :: 0 <= j < |args| && args[j].hi == k
  {
    forall k: nat ensures IsEnd(Exec(args), k) <==> exists j :: 0 <= j < |args| && args[j].hi == k {
      if IsEnd(Exec(args), k) {
        var w :| InTree(Exec(args), w) && w.hi == k;
        assert w in args;
      }
      if j :| 0 <= j < |args| && args[j].hi == k {
        assert InTree(Exec(args), args[j]);
      }
    }
  }

  lemma {:induction false} RedirEnds(d: Cmd<Span>, kind: char, file: Span)
    ensures forall k: nat :: IsEnd(Redir(d, kind, file), k) <==> IsEnd(d, k) || file.hi == k
  {
    forall k: nat ensures IsEnd(Redir(d, kind, file), k) <==> IsEnd(d, k) || file.hi == k {
      if w :| InTree(d, w) && w.hi == k {
        assert InTree(Redir(d, kind, file), w);
      }
      assert InTree(Redir(d, kind, file), file);
    }
  }

  lemma {:induction false} TwoEnds(c: Cmd<Span>, l: Cmd<Span>, r: Cmd<Span>)
    requires c == Pipe(l, r) || c == List(l, r)
    ensures forall k: nat :: IsEnd(c, k) <==> IsEnd(l, k) || IsEnd(r, k)
  {
    forall k: nat ensures IsEnd(c, k) <==> IsEnd(l, k) || IsEnd(r, k) {
      if w :| InTree(l, w) && w.hi == k {
        assert InTree(c, w);
      }
      if w :| InTree(r, w) && w.hi == k {
        assert InTree(c, w);
      }
    }
  }

  lemma {:induction false} OneEnds(d: Cmd<Span>)
    ensures forall k: nat :: IsEnd(Back(d), k) <==> IsEnd(d, k)
  {
    forall k: nat ensures IsEnd(Back(d), k) <==> IsEnd(d, k) {
      if w :| InTree(d, w) && w.hi == k {
        assert InTree(Back(d), w);
      }
    }
  }
}
