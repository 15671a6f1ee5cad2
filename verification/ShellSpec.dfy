/** The language of user/sh.c: tokens, command trees, and the parser as a function from
    tokens to trees. Words are of any type W: spans of the input, or strings. */
module ShellSpec {

  const MAXARGS: nat := 10

  /** A word, or one of | ( ) ; & < > and '+' for >>. */
  datatype Tok<W> = Word(w: W) | Sym(c: char)

  datatype Cmd<W> =
    | Exec(args: seq<W>)
    | Redir(cmd: Cmd<W>, kind: char, file: W)
    | Pipe(left: Cmd<W>, right: Cmd<W>)
    | List(left: Cmd<W>, right: Cmd<W>)
    | Back(cmd: Cmd<W>)

  /** A redirection before it is wrapped around its command. */
  datatype Rd<W> = Rd(kind: char, file: W)

  datatype Result<W> = Ok(cmd: Cmd<W>, rest: seq<Tok<W>>) | Panic
  datatype Redirs<W> = Found(rs: seq<Rd<W>>, rest: seq<Tok<W>>) | Missing

  predicate IsRedir(c: char) {
    c == '<' || c == '>' || c == '+'
  }

  predicate Stops(c: char) {
    c == '|' || c == ')' || c == '&' || c == ';'
  }

  predicate Heads<W>(ts: seq<Tok<W>>, c: char) {
    ts != [] && ts[0].Sym? && ts[0].c == c
  }

  /** cmd with redirections rs around it, the first innermost. */
  function Wrap<W>(cmd: Cmd<W>, rs: seq<Rd<W>>): Cmd<W> {
    if rs == [] then cmd
    else var last := rs[|rs| - 1]; Redir(Wrap(cmd, rs[..|rs| - 1]), last.kind, last.file)
  }

  /** parseredirs. */
  function PRedirs<W>(ts: seq<Tok<W>>): (r: Redirs<W>)
    ensures r.Found? ==> |r.rest| <= |ts|
    decreases |ts|
  {
    if ts == [] || !ts[0].Sym? || !IsRedir(ts[0].c) then Found([], ts)
    else if |ts| < 2 || !ts[1].Word? then Missing
    else
      var more := PRedirs(ts[2..]);
      if more.Missing? then Missing else Found([Rd(ts[0].c, ts[1].w)] + more.rs, more.rest)
  }

  /** The loop of parseexec, with args and redirections collected so far. */
  function PSimple<W>(ts: seq<Tok<W>>, args: seq<W>, rs: seq<Rd<W>>): (r: Result<W>)
    ensures r.Ok? ==> |r.rest| <= |ts|
    decreases |ts|
  {
    match PRedirs(ts)
    case Missing => Panic
    case Found(more, rest) =>
      if rest == [] || (rest[0].Sym? && Stops(rest[0].c)) then Ok(Wrap(Exec(args), rs + more), rest)
      else if rest[0].Sym? || |args| + 1 >= MAXARGS then Panic
      else PSimple(rest[1..], args + [rest[0].w], rs + more)
  }

  function PExec<W>(ts: seq<Tok<W>>): (r: Result<W>)
    ensures r.Ok? ==> |r.rest| <= |ts|
    decreases |ts|, 1
  {
    if Heads(ts, '(') then PBlock(ts) else PSimple(ts, [], [])
  }

  function PBlock<W>(ts: seq<Tok<W>>): (r: Result<W>)
    requires Heads(ts, '(')
    ensures r.Ok? ==> |r.rest| <= |ts|
    decreases |ts|, 0
  {
    match PLine(ts[1..])
    case Panic => Panic
    case Ok(cmd, rest) =>
      if !Heads(rest, ')') then Panic
      else
        match PRedirs(rest[1..])
        case Missing => Panic
        case Found(rs, more) => Ok(Wrap(cmd, rs), more)
  }

  function PPipe<W>(ts: seq<Tok<W>>): (r: Result<W>)
    ensures r.Ok? ==> |r.rest| <= |ts|
    decreases |ts|, 2
  {
    match PExec(ts)
    case Panic => Panic
    case Ok(cmd, rest) =>
      if !Heads(rest, '|') then Ok(cmd, rest)
      else
        match PPipe(rest[1..])
        case Panic => Panic
        case Ok(right, more) => Ok(Pipe(cmd, right), more)
  }

  /** The loop of parseline over '&'. */
  function PAmps<W>(cmd: Cmd<W>, ts: seq<Tok<W>>): (r: Result<W>)
    ensures r.Ok? && |r.rest| <= |ts|
    decreases |ts|
  {
    if Heads(ts, '&') then PAmps(Back(cmd), ts[1..]) else Ok(cmd, ts)
  }

  function PLine<W>(ts: seq<Tok<W>>): (r: Result<W>)
    ensures r.Ok? ==> |r.rest| <= |ts|
    decreases |ts|, 3
  {
    match PPipe(ts)
    case Panic => Panic
    case Ok(first, rest) =>
      var amps := PAmps(first, rest);
      if !Heads(amps.rest, ';') then amps
      else
        match PLine(amps.rest[1..])
        case Panic => Panic
        case Ok(right, more) => Ok(List(amps.cmd, right), more)
  }

  // ---- Printing ----------------------------------------------------------------------------------

  function Words<W>(args: seq<W>): seq<Tok<W>> {
    seq(|args|, (i: nat) requires i < |args| => Word(args[i]))
  }

  /** The tokens of a line that makes up a pipe, a list or a background command. */
  function Inner<W>(t: Cmd<W>): seq<Tok<W>>
    decreases t, 0
  {
    match t
    case Pipe(l, r) => ShowExec(l) + [Sym('|')] + ShowPipe(r)
    case List(l, r) => ShowBack(l) + [Sym(';')] + ShowLine(r)
    case Back(c) => ShowBack(c) + [Sym('&')]
    case _ => []
  }

  /** Print t where the grammar wants a command; anything larger goes in parentheses. */
  function ShowExec<W>(t: Cmd<W>): seq<Tok<W>>
    decreases t, 1
  {
    match t
    case Exec(args) => Words(args)
    case Redir(c, kind, file) => ShowExec(c) + [Sym(kind), Word(file)]
    case _ => [Sym('(')] + Inner(t) + [Sym(')')]
  }

  function ShowPipe<W>(t: Cmd<W>): seq<Tok<W>>
    decreases t, 2
  {
    if t.Pipe? then Inner(t) else ShowExec(t)
  }

  function ShowBack<W>(t: Cmd<W>): seq<Tok<W>>
    decreases t, 3
  {
    if t.Back? then Inner(t)
    else if t.List? then [Sym('(')] + Inner(t) + [Sym(')')]
    else ShowPipe(t)
  }

  /** Print t as a whole line, with parentheses only where they are needed. */
  function ShowLine<W>(t: Cmd<W>): seq<Tok<W>>
    decreases t, 4
  {
    if t.List? then Inner(t) else ShowBack(t)
  }

  /** At most nine arguments to each command; the three kinds of redirection. */
  ghost predicate Printable<W>(t: Cmd<W>) {
    match t
    case Exec(args) => |args| < MAXARGS
    case Redir(c, kind, _) => IsRedir(kind) && Printable(c)
    case Pipe(l, r) => Printable(l) && Printable(r)
    case List(l, r) => Printable(l) && Printable(r)
    case Back(c) => Printable(c)
  }

  // ---- Parsing what was printed --------------------------------------------------------------------

  /** What may follow a command, a pipe, a background command, a line. */
  predicate AfterExec<W>(ts: seq<Tok<W>>) {
    ts == [] || (ts[0].Sym? && Stops(ts[0].c))
  }

  predicate AfterPipe<W>(ts: seq<Tok<W>>) {
    AfterExec(ts) && !Heads(ts, '|')
  }

  predicate AfterLine<W>(ts: seq<Tok<W>>) {
    ts == [] || Heads(ts, ')')
  }

  function RedirToks<W>(rs: seq<Rd<W>>): seq<Tok<W>> {
    if rs == [] then [] else [Sym(rs[0].kind), Word(rs[0].file)] + RedirToks(rs[1..])
  }

  ghost predicate Kinds<W>(rs: seq<Rd<W>>) {
    forall i :: 0 <= i < |rs| ==> IsRedir(rs[i].kind)
  }

  lemma {:induction false} RedirsBack<W>(rs: seq<Rd<W>>, rest: seq<Tok<W>>)
    requires Kinds(rs) && AfterExec(rest)
    ensures PRedirs(RedirToks(rs) + rest) == Found(rs, rest)
    decreases |rs|
  {
    hide PRedirs, IsRedir, AfterExec;
    if rs == [] {
      assert RedirToks(rs) + rest == rest;
      NoRedirs(rest);
    } else {
      RedirsBack(rs[1..], rest);
      RedirsStep(rs, rest);
      assert rs == [rs[0]] + rs[1..];
    }
  }

  lemma NoRedirs<W>(rest: seq<Tok<W>>)
    requires AfterExec(rest)
    ensures PRedirs(rest) == Found([], rest)
  {
  }

  lemma {:induction false} RedirsStep<W>(rs: seq<Rd<W>>, rest: seq<Tok<W>>)
    requires rs != [] && IsRedir(rs[0].kind)
    ensures var ts, more := RedirToks(rs) + rest, PRedirs(RedirToks(rs[1..]) + rest);
            more.Found? ==> PRedirs(ts) == Found([rs[0]] + more.rs, more.rest)
  {
    var ts := RedirToks(rs) + rest;
    assert ts[0] == Sym(rs[0].kind) && ts[1] == Word(rs[0].file);
    assert ts[2..] == RedirToks(rs[1..]) + rest;
  }

  lemma {:induction false} SimpleBack<W>(words: seq<W>, args: seq<W>, rs: seq<Rd<W>>, rest: seq<Tok<W>>)
    requires |args| + |words| < MAXARGS && Kinds(rs) && AfterExec(rest)
    ensures PSimple(Words(words) + RedirToks(rs) + rest, args, []) == Ok(Wrap(Exec(args + words), rs), rest)
    decreases |words|
  {
    var ts := Words(words) + RedirToks(rs) + rest;
    if words == [] {
      assert ts == RedirToks(rs) + rest;
      RedirsBack(rs, rest);
      assert [] + rs == rs && args + words == args;
    } else {
      var none: seq<Rd<W>> := [];
      assert ts[0] == Word(words[0]) && PRedirs(ts) == Found(none, ts) && none + none == none;
      assert ts[1..] == Words(words[1..]) + RedirToks(rs) + rest;
      SimpleBack(words[1..], args + [words[0]], rs, rest);
      assert args + [words[0]] + words[1..] == args + words;
    }
  }

  lemma {:induction false} WrapInner<W>(c: Cmd<W>, r: Rd<W>, rs: seq<Rd<W>>)
    ensures Wrap(Redir(c, r.kind, r.file), rs) == Wrap(c, [r] + rs)
    decreases |rs|
  {
    if rs == [] {
      assert [r] + rs == [r];
      assert [r][..0] == [];
    } else {
      WrapInner(c, r, rs[..|rs| - 1]);
      assert ([r] + rs)[..|rs|] == [r] + rs[..|rs| - 1];
    }
  }

  lemma NotParen<W>(words: seq<W>, rs: seq<Rd<W>>, rest: seq<Tok<W>>)
    requires Kinds(rs) && AfterExec(rest)
    ensures !Heads(Words(words) + RedirToks(rs) + rest, '(')
  {
  }

  lemma {:induction false} ParenBack<W>(inner: seq<Tok<W>>, t: Cmd<W>, rs: seq<Rd<W>>, rest: seq<Tok<W>>)
    requires Kinds(rs) && AfterExec(rest)
    requires var tail := [Sym(')')] + RedirToks(rs) + rest; PLine(inner + tail) == Ok(t, tail)
    ensures PExec([Sym('(')] + inner + [Sym(')')] + RedirToks(rs) + rest) == Ok(Wrap(t, rs), rest)
  {
    hide PLine, PRedirs, RedirToks, Wrap;
    var ts, tail := [Sym('(')] + inner + [Sym(')')] + RedirToks(rs) + rest, [Sym(')')] + RedirToks(rs) + rest;
    assert ts[1..] == inner + tail;
    RedirsBack(rs, rest);
    assert tail[1..] == RedirToks(rs) + rest;
  }

  lemma {:induction false} RedirExec<W>(c: Cmd<W>, kind: char, file: W, rs: seq<Rd<W>>, rest: seq<Tok<W>>)
    ensures ShowExec(Redir(c, kind, file)) + RedirToks(rs) + rest
            == ShowExec(c) + RedirToks([Rd(kind, file)] + rs) + rest
  {
    var r := Rd(kind, file);
    assert ([r] + rs)[1..] == rs;
    assert RedirToks([r] + rs) == [Sym(kind), Word(file)] + RedirToks(rs);
  }

  lemma {:induction false} WordsBack<W>(args: seq<W>, rs: seq<Rd<W>>, rest: seq<Tok<W>>)
    requires |args| < MAXARGS && Kinds(rs) && AfterExec(rest)
    ensures PExec(Words(args) + RedirToks(rs) + rest) == Ok(Wrap(Exec(args), rs), rest)
  {
    hide PSimple, RedirToks, Wrap;
    NotParen(args, rs, rest);
    SimpleBack(args, [], rs, rest);
    assert [] + args == args;
  }

  /** A printed command, with redirections rs still to come, parses back. */
  lemma {:induction false} ExecBack<W>(t: Cmd<W>, rs: seq<Rd<W>>, rest: seq<Tok<W>>)
    requires Printable(t) && Kinds(rs) && AfterExec(rest)
    ensures PExec(ShowExec(t) + RedirToks(rs) + rest) == Ok(Wrap(t, rs), rest)
    decreases t, 1
  {
    hide PExec, RedirToks, Wrap, Words, Inner;
    match t
    case Exec(args) =>
      WordsBack(args, rs, rest);
    case Redir(c, kind, file) =>
      RedirExec(c, kind, file, rs, rest);
      ExecBack(c, [Rd(kind, file)] + rs, rest);
      WrapInner(c, Rd(kind, file), rs);
    case _ =>
      InnerBack(t, [Sym(')')] + RedirToks(rs) + rest);
      ParenBack(Inner(t), t, rs, rest);
  }

  lemma {:induction false} PipeBack<W>(t: Cmd<W>, rest: seq<Tok<W>>)
    requires Printable(t) && AfterPipe(rest)
    ensures PPipe(ShowPipe(t) + rest) == Ok(t, rest)
    decreases t, 2
  {
    hide PExec;
    if t.Pipe? {
      var tail := [Sym('|')] + ShowPipe(t.right) + rest;
      assert ShowPipe(t) + rest == ShowExec(t.left) + RedirToks<W>([]) + tail;
      ExecBack(t.left, [], tail);
      assert tail[1..] == ShowPipe(t.right) + rest;
      PipeBack(t.right, rest);
    } else {
      assert ShowPipe(t) + rest == ShowExec(t) + RedirToks<W>([]) + rest;
      ExecBack(t, [], rest);
    }
  }

  /** Up to its '&'s a printed line parses to t, whatever '&'s follow. */
  lemma {:induction false} AmpsBack<W>(t: Cmd<W>, rest: seq<Tok<W>>) returns (c: Cmd<W>, ts: seq<Tok<W>>)
    requires Printable(t) && AfterPipe(rest)
    ensures PPipe(ShowBack(t) + rest) == Ok(c, ts) && PAmps(c, ts) == PAmps(t, rest)
    decreases t, 3
  {
    hide PPipe;
    if t.Back? {
      assert ShowBack(t) + rest == ShowBack(t.cmd) + ([Sym('&')] + rest);
      c, ts := AmpsBack(t.cmd, [Sym('&')] + rest);
      assert ([Sym('&')] + rest)[1..] == rest;
    } else if t.List? {
      c, ts := t, rest;
      assert ShowBack(t) + rest == ShowExec(t) + RedirToks<W>([]) + rest;
      ExecBack(t, [], rest);
      PipeOfExec(ShowBack(t) + rest, t, rest);
    } else {
      c, ts := t, rest;
      PipeBack(t, rest);
    }
  }

  lemma PipeOfExec<W>(ts: seq<Tok<W>>, t: Cmd<W>, rest: seq<Tok<W>>)
    requires PExec(ts) == Ok(t, rest) && !Heads(rest, '|')
    ensures PPipe(ts) == Ok(t, rest)
  {
  }

  lemma {:induction false} InnerBack<W>(t: Cmd<W>, rest: seq<Tok<W>>)
    requires Printable(t) && AfterLine(rest) && (t.Pipe? || t.List? || t.Back?)
    ensures PLine(Inner(t) + rest) == Ok(t, rest)
    decreases t, 0
  {
    hide PPipe;
    match t
    case Pipe(l, r) =>
      var tail := [Sym('|')] + ShowPipe(r) + rest;
      assert Inner(t) + rest == ShowExec(l) + RedirToks<W>([]) + tail;
      ExecBack(l, [], tail);
      assert tail[1..] == ShowPipe(r) + rest;
      PipeBack(r, rest);
      PipeOfTwo(Inner(t) + rest, l, r, tail, rest);
    case List(l, r) =>
      var tail := [Sym(';')] + ShowLine(r) + rest;
      assert Inner(t) + rest == ShowBack(l) + tail;
      var c, ts := AmpsBack(l, tail);
      assert tail[1..] == ShowLine(r) + rest;
      LineBack(r, rest);
    case Back(b) =>
      var tail := [Sym('&')] + rest;
      assert Inner(t) + rest == ShowBack(b) + tail;
      var c, ts := AmpsBack(b, tail);
      assert tail[1..] == rest;
  }

  lemma PipeOfTwo<W>(ts: seq<Tok<W>>, l: Cmd<W>, r: Cmd<W>, tail: seq<Tok<W>>, rest: seq<Tok<W>>)
    requires PExec(ts) == Ok(l, tail) && Heads(tail, '|') && PPipe(tail[1..]) == Ok(r, rest)
    ensures PPipe(ts) == Ok(Pipe(l, r), rest)
  {
  }

  /** Printing any tree and parsing it back gives the same tree and uses up all of it. */
  lemma {:induction false} LineBack<W>(t: Cmd<W>, rest: seq<Tok<W>>)
    requires Printable(t) && AfterLine(rest)
    ensures PLine(ShowLine(t) + rest) == Ok(t, rest)
    decreases t, 4
  {
    hide PPipe;
    if t.List? {
      InnerBack(t, rest);
    } else {
      var c, ts := AmpsBack(t, rest);
    }
  }
}
