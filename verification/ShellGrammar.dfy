/** The grammar of user/sh.c as a relation between tokens and trees, and the proof that the
    parser decides it. */
module ShellGrammar {
  import opened ShellSpec
  import opened ShellLex

  // ---- The grammar ----------------------------------------------------------------------------------

  /** Words and redirections in any order. */
  ghost predicate GSimple<W>(ts: seq<Tok<W>>, args: seq<W>, rs: seq<Rd<W>>)
    decreases |ts|
  {
    if ts == [] then args == [] && rs == []
    else if ts[0].Word? then args != [] && args[0] == ts[0].w && GSimple(ts[1..], args[1..], rs)
    else
      && IsRedir(ts[0].c) && |ts| >= 2 && ts[1].Word?
      && rs != [] && rs[0] == Rd(ts[0].c, ts[1].w) && GSimple(ts[2..], args, rs[1..])
  }

  /** command: words and redirections, at most nine words, or ( line ) redirections. */
  ghost predicate GExec<W(!new)>(ts: seq<Tok<W>>, t: Cmd<W>)
    decreases |ts|, 0
  {
    || (exists args, rs :: GSimple(ts, args, rs) && |args| < MAXARGS && t == Wrap(Exec(args), rs))
    || (exists inner, c, rs ::
          InParens(ts, inner, rs) && GLine(inner, c) && t == Wrap(c, rs))
  }

  ghost predicate InParens<W>(ts: seq<Tok<W>>, inner: seq<Tok<W>>, rs: seq<Rd<W>>) {
    |inner| < |ts| && Kinds(rs) && ts == [Sym('(')] + inner + [Sym(')')] + RedirToks(rs)
  }

  /** pipeline: command | pipeline, or a command. */
  ghost predicate GPipe<W(!new)>(ts: seq<Tok<W>>, t: Cmd<W>)
    decreases |ts|, 1
  {
    || GExec(ts, t)
    || (t.Pipe? && exists a, b :: Joins(ts, a, '|', b) && GExec(a, t.left) && GPipe(b, t.right))
  }

  ghost predicate Joins<W>(ts: seq<Tok<W>>, a: seq<Tok<W>>, c: char, b: seq<Tok<W>>) {
    |a| < |ts| && |b| < |ts| && ts == a + [Sym(c)] + b
  }

  /** A pipeline with any number of & after it. */
  ghost predicate GBack<W(!new)>(ts: seq<Tok<W>>, t: Cmd<W>)
    decreases |ts|, 2
  {
    GPipe(ts, t) || (t.Back? && exists a :: Joins(ts, a, '&', []) && GBack(a, t.cmd))
  }

  /** line: pipeline &... ; line, or without the ; and what follows. */
  ghost predicate GLine<W(!new)>(ts: seq<Tok<W>>, t: Cmd<W>)
    decreases |ts|, 3
  {
    || GBack(ts, t)
    || (t.List? && exists a, b :: Joins(ts, a, ';', b) && GBack(a, t.left) && GLine(b, t.right))
  }

  // ---- Whatever the parser returns is in the grammar ---------------------------------------------------

  lemma {:induction false} RedirToksCons<W>(r: Rd<W>, rs: seq<Rd<W>>)
    ensures RedirToks([r] + rs) == [Sym(r.kind), Word(r.file)] + RedirToks(rs)
    ensures IsRedir(r.kind) && Kinds(rs) ==> Kinds([r] + rs)
  {
    assert ([r] + rs)[1..] == rs;
  }

  lemma {:induction false} RedirsSound<W>(ts: seq<Tok<W>>)
    requires PRedirs(ts).Found?
    ensures Kinds(PRedirs(ts).rs) && ts == RedirToks(PRedirs(ts).rs) + PRedirs(ts).rest
    decreases |ts|
  {
    hide Kinds, RedirToks, PRedirs;
    RedirsCases(ts);
    if ts != [] && ts[0].Sym? && IsRedir(ts[0].c) {
      RedirsCons(ts);
      RedirsSound(ts[2..]);
      var r, more := Rd(ts[0].c, ts[1].w), PRedirs(ts[2..]);
      RedirToksCons(r, more.rs);
      TwoFirst(ts, r, RedirToks(more.rs), more.rest);
    } else {
      NoneFound<W>();
      assert [] + ts == ts;
    }
  }

  lemma RedirsCases<W>(ts: seq<Tok<W>>)
    requires PRedirs(ts).Found?
    ensures if ts != [] && ts[0].Sym? && IsRedir(ts[0].c) then |ts| >= 2 && ts[1].Word?
            else PRedirs(ts) == Found([], ts)
  {
  }

  lemma {:induction false} TwoFirst<W>(ts: seq<Tok<W>>, r: Rd<W>, a: seq<Tok<W>>, b: seq<Tok<W>>)
    requires |ts| >= 2 && ts[0] == Sym(r.kind) && ts[1] == Word(r.file) && ts[2..] == a + b
    ensures ts == [Sym(r.kind), Word(r.file)] + a + b
  {
    assert ts == [ts[0], ts[1]] + ts[2..];
  }

  lemma NoneFound<W>()
    ensures RedirToks<W>([]) == [] && Kinds<W>([])
  {
  }

  lemma RedirsCons<W>(ts: seq<Tok<W>>)
    requires |ts| >= 2 && ts[0].Sym? && IsRedir(ts[0].c) && ts[1].Word?
    ensures var more := PRedirs(ts[2..]);
            PRedirs(ts) == if more.Missing? then Missing else Found([Rd(ts[0].c, ts[1].w)] + more.rs, more.rest)
  {
  }

  /** A redirection that comes first can be collected before the others. */
  lemma {:induction false} RedirFirst<W>(ts: seq<Tok<W>>, args: seq<W>, rs: seq<Rd<W>>)
    requires |ts| >= 2 && ts[0].Sym? && IsRedir(ts[0].c) && ts[1].Word?
    ensures PSimple(ts, args, rs) == PSimple(ts[2..], args, rs + [Rd(ts[0].c, ts[1].w)])
  {
    hide PRedirs, Wrap, Stops;
    RedirsCons(ts);
    var r, more := Rd(ts[0].c, ts[1].w), PRedirs(ts[2..]);
    if more.Found? {
      assert rs + ([r] + more.rs) == rs + [r] + more.rs;
    }
  }

  lemma {:induction false} WordFirst<W>(ts: seq<Tok<W>>, args: seq<W>, rs: seq<Rd<W>>)
    requires ts != [] && ts[0].Word?
    ensures PSimple(ts, args, rs) == if |args| + 1 >= MAXARGS then Panic else PSimple(ts[1..], args + [ts[0].w], rs)
  {
    assert rs + [] == rs;
  }

  lemma {:induction false} NeitherFirst<W>(ts: seq<Tok<W>>, args: seq<W>, rs: seq<Rd<W>>)
    requires ts == [] || (ts[0].Sym? && !IsRedir(ts[0].c))
    ensures PSimple(ts, args, rs) == if AfterExec(ts) then Ok(Wrap(Exec(args), rs), ts) else Panic
  {
    assert rs + [] == rs;
  }

  lemma MissingFile<W>(ts: seq<Tok<W>>, args: seq<W>, rs: seq<Rd<W>>)
    requires ts != [] && ts[0].Sym? && IsRedir(ts[0].c) && (|ts| < 2 || !ts[1].Word?)
    ensures PSimple(ts, args, rs).Panic?
  {
  }

  lemma {:induction false} AddWord<W>(t: Tok<W>, used: seq<Tok<W>>, words: seq<W>, more: seq<Rd<W>>)
    requires t.Word? && GSimple(used, words, more)
    ensures GSimple([t] + used, [t.w] + words, more)
  {
    assert ([t] + used)[1..] == used && ([t.w] + words)[1..] == words;
  }

  lemma {:induction false} AddRedir<W>(a: Tok<W>, b: Tok<W>, used: seq<Tok<W>>, words: seq<W>, more: seq<Rd<W>>)
    requires a.Sym? && IsRedir(a.c) && b.Word? && GSimple(used, words, more)
    ensures GSimple([a, b] + used, words, [Rd(a.c, b.w)] + more)
  {
    assert ([a, b] + used)[2..] == used && ([Rd(a.c, b.w)] + more)[1..] == more;
  }

  lemma {:induction false} SimpleSound<W>(ts: seq<Tok<W>>, args: seq<W>, rs: seq<Rd<W>>)
    returns (used: seq<Tok<W>>, words: seq<W>, more: seq<Rd<W>>)
    requires PSimple(ts, args, rs).Ok? && |args| < MAXARGS
    ensures var r := PSimple(ts, args, rs);
            && ts == used + r.rest && GSimple(used, words, more)
            && |args + words| < MAXARGS && r.cmd == Wrap(Exec(args + words), rs + more)
    decreases |ts|
  {
    hide PSimple, Wrap, GSimple;
    if ts != [] && ts[0].Word? {
      WordFirst(ts, args, rs);
      var u, ws;
      u, ws, more := SimpleSound(ts[1..], args + [ts[0].w], rs);
      AddWord(ts[0], u, ws, more);
      used, words := [ts[0]] + u, [ts[0].w] + ws;
      assert args + [ts[0].w] + ws == args + words;
      assert ts == [ts[0]] + ts[1..];
    } else if ts != [] && IsRedir(ts[0].c) {
      MissingFileNot(ts, args, rs);
      RedirFirst(ts, args, rs);
      var r := Rd(ts[0].c, ts[1].w);
      var u, m;
      u, words, m := SimpleSound(ts[2..], args, rs + [r]);
      AddRedir(ts[0], ts[1], u, words, m);
      used, more := [ts[0], ts[1]] + u, [r] + m;
      assert rs + [r] + m == rs + more;
      assert ts == [ts[0], ts[1]] + ts[2..];
    } else {
      NeitherFirst(ts, args, rs);
      EmptySimple<W>();
      used, words, more := [], [], [];
      assert args + words == args && rs + more == rs && ts == used + ts;
    }
  }

  lemma EmptySimple<W>()
    ensures GSimple<W>([], [], [])
  {
  }

  lemma {:induction false} MissingFileNot<W>(ts: seq<Tok<W>>, args: seq<W>, rs: seq<Rd<W>>)
    requires ts != [] && ts[0].Sym? && IsRedir(ts[0].c) && PSimple(ts, args, rs).Ok?
    ensures |ts| >= 2 && ts[1].Word?
  {
    if |ts| < 2 || !ts[1].Word? {
      MissingFile(ts, args, rs);
    }
  }

  lemma {:induction false} ExecSound<W(!new)>(ts: seq<Tok<W>>) returns (used: seq<Tok<W>>)
    requires PExec(ts).Ok?
    ensures ts == used + PExec(ts).rest && GExec(used, PExec(ts).cmd)
    decreases |ts|, 1
  {
    hide PSimple, PLine, GLine, GSimple, Wrap, PRedirs;
    if Heads(ts, '(') {
      var r := PLine(ts[1..]);
      var inner := LineSound(ts[1..]);
      RedirsSound(r.rest[1..]);
      var q := PRedirs(r.rest[1..]);
      used := [Sym('(')] + inner + [Sym(')')] + RedirToks(q.rs);
      assert ts == [Sym('(')] + ts[1..] && r.rest == [Sym(')')] + r.rest[1..];
      assert InParens(used, inner, q.rs);
    } else {
      var words, more;
      used, words, more := SimpleSound(ts, [], []);
      assert [] + words == words && [] + more == more;
    }
  }

  lemma {:induction false} PipeSound<W(!new)>(ts: seq<Tok<W>>) returns (used: seq<Tok<W>>)
    requires PPipe(ts).Ok?
    ensures ts == used + PPipe(ts).rest && GPipe(used, PPipe(ts).cmd)
    decreases |ts|, 2
  {
    hide PExec, GExec;
    used := ExecSound(ts);
    var r := PExec(ts);
    if Heads(r.rest, '|') {
      var b := PipeSound(r.rest[1..]);
      assert r.rest == [Sym('|')] + r.rest[1..];
      assert Joins(used + [Sym('|')] + b, used, '|', b);
      used := used + [Sym('|')] + b;
    }
  }

  lemma {:induction false} AmpsSound<W(!new)>(c: Cmd<W>, a: seq<Tok<W>>, ts: seq<Tok<W>>) returns (used: seq<Tok<W>>)
    requires GBack(a, c)
    ensures a + ts == used + PAmps(c, ts).rest && GBack(used, PAmps(c, ts).cmd)
    decreases |ts|
  {
    hide GPipe;
    if Heads(ts, '&') {
      var b := a + [Sym('&')];
      assert Joins(b, a, '&', []) by { assert b + [] == b; }
      assert GBack(b, Back(c));
      used := AmpsSound(Back(c), b, ts[1..]);
      assert ts == [Sym('&')] + ts[1..];
      assert a + ts == b + ts[1..];
    } else {
      used := a;
    }
  }

  lemma {:induction false} LineSound<W(!new)>(ts: seq<Tok<W>>) returns (used: seq<Tok<W>>)
    requires PLine(ts).Ok?
    ensures ts == used + PLine(ts).rest && GLine(used, PLine(ts).cmd)
    decreases |ts|, 3
  {
    hide PPipe, GBack, PAmps;
    var first := PipeSound(ts);
    var r := PPipe(ts);
    PipeIsBack(first, r.cmd);
    used := AmpsSound(r.cmd, first, r.rest);
    var q := PAmps(r.cmd, r.rest);
    if Heads(q.rest, ';') {
      var b := LineSound(q.rest[1..]);
      assert q.rest == [Sym(';')] + q.rest[1..];
      assert Joins(used + [Sym(';')] + b, used, ';', b);
      used := used + [Sym(';')] + b;
    }
  }

  lemma PipeIsBack<W(!new)>(ts: seq<Tok<W>>, t: Cmd<W>)
    requires GPipe(ts, t)
    ensures GBack(ts, t)
  {
  }

  // ---- Whatever is in the grammar is parsed ----------------------------------------------------------

  lemma StopHeads<W>(rest: seq<Tok<W>>)
    requires AfterExec(rest)
    ensures rest == [] || (rest[0].Sym? && !IsRedir(rest[0].c) && rest[0].c != '(')
  {
  }

  lemma {:induction false} SimpleHeads<W>(ts: seq<Tok<W>>, words: seq<W>, more: seq<Rd<W>>, rest: seq<Tok<W>>)
    requires GSimple(ts, words, more) && AfterExec(rest)
    ensures !Heads(ts + rest, '(')
  {
    hide AfterExec;
    StopHeads(rest);
    if ts == [] {
      assert ts + rest == rest;
    } else {
      assert (ts + rest)[0] == ts[0];
    }
  }

  lemma {:induction false} SimpleComplete<W>(ts: seq<Tok<W>>, words: seq<W>, more: seq<Rd<W>>, args: seq<W>,
                                             rs: seq<Rd<W>>,
                                             rest: seq<Tok<W>>)
    requires GSimple(ts, words, more) && |args| + |words| < MAXARGS && AfterExec(rest)
    ensures PSimple(ts + rest, args, rs) == Ok(Wrap(Exec(args + words), rs + more), rest)
    decreases |ts|
  {
    hide PSimple, Wrap, AfterExec;
    var all := ts + rest;
    if ts == [] {
      assert all == rest && args + words == args && rs + more == rs;
      StopHeads(rest);
      NeitherFirst(rest, args, rs);
    } else if ts[0].Word? {
      WordFirst(all, args, rs);
      assert all[1..] == ts[1..] + rest;
      SimpleComplete(ts[1..], words[1..], more, args + [ts[0].w], rs, rest);
      assert args + [ts[0].w] + words[1..] == args + words;
    } else {
      RedirFirst(all, args, rs);
      assert all[2..] == ts[2..] + rest;
      SimpleComplete(ts[2..], words, more[1..], args, rs + [more[0]], rest);
      assert rs + [more[0]] + more[1..] == rs + more;
    }
  }

  lemma {:induction false} ExecComplete<W(!new)>(ts: seq<Tok<W>>, t: Cmd<W>, rest: seq<Tok<W>>)
    requires GExec(ts, t) && AfterExec(rest)
    ensures PExec(ts + rest) == Ok(t, rest)
    decreases |ts|, 0
  {
    hide PSimple, Wrap, GSimple, GLine, PLine, AfterExec;
    if args, rs :| GSimple(ts, args, rs) && |args| < MAXARGS && t == Wrap(Exec(args), rs) {
      SimpleHeads(ts, args, rs, rest);
      SimpleComplete(ts, args, rs, [], [], rest);
      assert [] + args == args && [] + rs == rs;
    } else {
      var inner, c, rs :| InParens(ts, inner, rs) && GLine(inner, c) && t == Wrap(c, rs);
      var tail := [Sym(')')] + RedirToks(rs) + rest;
      LineComplete(inner, c, tail);
      ParenBack(inner, c, rs, rest);
    }
  }

  lemma {:induction false} PipeComplete<W(!new)>(ts: seq<Tok<W>>, t: Cmd<W>, rest: seq<Tok<W>>)
    requires GPipe(ts, t) && AfterPipe(rest)
    ensures PPipe(ts + rest) == Ok(t, rest)
    decreases |ts|, 1
  {
    hide PExec, GExec;
    if GExec(ts, t) {
      ExecComplete(ts, t, rest);
    } else {
      var a, b :| Joins(ts, a, '|', b) && GExec(a, t.left) && GPipe(b, t.right);
      var tail := [Sym('|')] + b + rest;
      assert ts + rest == a + tail && tail[1..] == b + rest;
      ExecComplete(a, t.left, tail);
      PipeComplete(b, t.right, rest);
    }
  }

  lemma {:induction false} BackComplete<W(!new)>(ts: seq<Tok<W>>, t: Cmd<W>, rest: seq<Tok<W>>)
    returns (c: Cmd<W>, more: seq<Tok<W>>)
    requires GBack(ts, t) && AfterPipe(rest)
    ensures PPipe(ts + rest) == Ok(c, more) && PAmps(c, more) == PAmps(t, rest)
    decreases |ts|, 2
  {
    hide PPipe, GPipe;
    if GPipe(ts, t) {
      c, more := t, rest;
      PipeComplete(ts, t, rest);
    } else {
      var a :| Joins(ts, a, '&', []) && GBack(a, t.cmd);
      var tail := [Sym('&')] + rest;
      assert ts + rest == a + tail && tail[1..] == rest;
      c, more := BackComplete(a, t.cmd, tail);
    }
  }

  lemma {:induction false} LineComplete<W(!new)>(ts: seq<Tok<W>>, t: Cmd<W>, rest: seq<Tok<W>>)
    requires GLine(ts, t) && AfterLine(rest)
    ensures PLine(ts + rest) == Ok(t, rest)
    decreases |ts|, 3
  {
    hide PPipe, GBack;
    if GBack(ts, t) {
      var c, more := BackComplete(ts, t, rest);
    } else {
      var a, b :| Joins(ts, a, ';', b) && GBack(a, t.left) && GLine(b, t.right);
      var tail := [Sym(';')] + b + rest;
      assert ts + rest == a + tail && tail[1..] == b + rest;
      var c, more := BackComplete(a, t.left, tail);
      LineComplete(b, t.right, rest);
    }
  }

  // ---- The parser decides the grammar -----------------------------------------------------------------

  /** Tokens parse to a tree exactly if the grammar derives it; so it derives at most one. */
  lemma {:induction false} ParserDecides<W(!new)>(ts: seq<Tok<W>>, t: Cmd<W>)
    ensures PLine(ts) == Ok(t, []) <==> GLine(ts, t)
  {
    hide PLine, GLine;
    assert ts + [] == ts;
    if PLine(ts) == Ok(t, []) {
      var used := LineSound(ts);
      assert used == ts;
    }
    if GLine(ts, t) {
      LineComplete(ts, t, []);
    }
  }

  /** parsecmd returns the tree that the grammar gives to the line, and panics exactly on a
      line that the grammar does not derive. */
  lemma {:induction false} ParseIsGrammar(s: string)
    ensures Parse(s).Ok? <==> exists t :: GLine(Lex(s, 0), t)
    ensures forall t :: GLine(Lex(s, 0), t) ==> Parse(s) == Ok(t, [])
    ensures Parse(s).Ok? ==> GLine(Lex(s, 0), Parse(s).cmd)
  {
    hide PLine, GLine, Lex;
    forall t ensures PLine(Lex(s, 0)) == Ok(t, []) <==> GLine(Lex(s, 0), t) {
      ParserDecides(Lex(s, 0), t);
    }
    if Parse(s).Ok? {
      assert PLine(Lex(s, 0)) == Ok(Parse(s).cmd, []);
      assert GLine(Lex(s, 0), Parse(s).cmd);
    }
  }
}
