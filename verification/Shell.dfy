/** The parser of user/sh.c as it runs: a cursor moved over the line by gettoken and peek,
    recursive descent, and nulterminate writing into the buffer. */
module Shell {
  import opened Basics
  import opened ShellSpec
  import opened ShellLex
  import opened ShellWords

  ghost predicate NoNul(s: string) {
    forall i :: 0 <= i < |s| ==> s[i] != NUL
  }

  /** The token code that gettoken returns. */
  function Code(t: Tok<Span>): char {
    if t.Word? then 'a' else t.c
  }

  /** What a parsing method returns and where it leaves the cursor, against the grammar. */
  ghost predicate Agrees(s: string, r: Option<Cmd<Span>>, at: nat, want: Result<Span>)
    requires at <= |s|
  {
    if want.Panic? then r.None? else r == Some(want.cmd) && Lex(s, at) == want.rest
  }

  class Parser {
    const s: string
    var ps: nat

    ghost predicate Valid()
      reads this
    {
      ps <= |s| && NoNul(s)
    }

    constructor (line: string)
      requires NoNul(line)
      ensures s == line && ps == 0 && Valid()
    {
      s, ps := line, 0;
    }

    /** *p, with the NUL that ends the line. */
    function At(i: nat): char {
      if i < |s| then s[i] else NUL
    }

    /** Move past white space. */
    method SkipSpace()
      requires Valid()
      modifies this
      ensures Valid() && ps == Skip(s, old(ps))
    {
      while ps < |s| && IsSpace(s[ps])
        invariant ps <= |s| && NoNul(s) && Skip(s, ps) == Skip(s, old(ps))
        decreases |s| - ps
      {
        ps := ps + 1;
      }
    }

    /** peek: skips white space, which is no token, and looks at the next token. */
    method Peek(toks: string) returns (b: bool)
      requires Valid() && forall i :: 0 <= i < |toks| ==> IsSymbol(toks[i])
      modifies this
      ensures Valid() && Lex(s, ps) == Lex(s, old(ps))
      ensures b <==> Peeks(Lex(s, ps), toks)
    {
      hide Lex;
      SkipSpace();
      SkipTwice(s, old(ps));
      LexAt(s, ps);
      b := At(ps) != NUL && At(ps) in toks;
    }

    /** gettoken: takes the next token off, or returns 0 at the end of the line. */
    method GetToken() returns (tok: char, q: nat, eq: nat)
      requires Valid()
      modifies this
      ensures Valid() && (tok == NUL <==> Lex(s, old(ps)) == [])
      ensures tok == NUL ==> Lex(s, ps) == []
      ensures tok != NUL ==> Lex(s, old(ps)) == [Lex(s, old(ps))[0]] + Lex(s, ps) && tok == Code(Lex(s, old(ps))[0])
      ensures tok != NUL && Lex(s, old(ps))[0].Word? ==> Lex(s, old(ps))[0] == Word(Span(q, eq))
    {
      hide Lex;
      SkipSpace();
      var i := ps;
      LexAt(s, old(ps));
      q := i;
      tok := At(i);
      match tok {
        case '|' => i := i + 1;
        case '(' => i := i + 1;
        case ')' => i := i + 1;
        case ';' => i := i + 1;
        case '&' => i := i + 1;
        case '<' => i := i + 1;
        case '>' =>
          i := i + 1;
          if At(i) == '>' {
            tok := '+';
            i := i + 1;
          }
        case _ =>
          if tok != NUL {
            tok := 'a';
            while i < |s| && !IsSpace(s[i]) && !IsSymbol(s[i])
              invariant q <= i <= |s| && WordEnd(s, i) == WordEnd(s, q)
            {
              i := i + 1;
            }
          }
      }
      eq := i;
      ps := i;
      SkipTwice(s, i);
      SkipSpace();
    }

    /** parseredirs. */
    method ParseRedirs() returns (r: Option<seq<Rd<Span>>>)
      requires Valid()
      modifies this
      ensures Valid()
      ensures var want := PRedirs(Lex(s, old(ps)));
              if want.Missing? then r.None? else r == Some(want.rs) && Lex(s, ps) == want.rest
    {
      hide Lex, PRedirs, Peeks;
      var rs: seq<Rd<Span>> := [];
      ghost var ts := Lex(s, ps);
      var b := Peek("<>");
      while b
        invariant Valid() && (b <==> Peeks(Lex(s, ps), "<>"))
        invariant RedirsSoFar(PRedirs(ts), rs, PRedirs(Lex(s, ps)))
        decreases |Lex(s, ps)|
      {
        ghost var us := Lex(s, ps);
        PeeksMeans(us);
        var tok, _, _ := GetToken();
        ghost var vs := Lex(s, ps);
        CodeMeans(s, ps);
        var word, q, eq := GetToken();
        RedirStep(us, vs);
        if word != 'a' { return None; }
        rs := rs + [Rd(tok, Span(q, eq))];
        b := Peek("<>");
      }
      PeeksMeans(Lex(s, ps));
      RedirsEnd(Lex(s, ps));
      assert rs + [] == rs;
      r := Some(rs);
    }

    /** parseexec. args and redirections are collected and put together at the end. */
    method ParseExec() returns (r: Option<Cmd<Span>>)
      requires Valid()
      modifies this
      ensures Valid() && Agrees(s, r, ps, PExec(Lex(s, old(ps))))
      decreases |Lex(s, ps)|, 1
    {
      hide Lex, PRedirs, PSimple, PBlock, Peeks, PLine;
      ghost var ts := Lex(s, ps);
      var b := Peek("(");
      PeeksMeans(ts);
      if b {
        r := ParseBlock();
        return;
      }
      var args: seq<Span> := [];
      var rs: seq<Rd<Span>> := [];
      SimpleMeans(Lex(s, ps), args, rs);
      var more := ParseRedirs();
      if more.None? { return None; }
      rs := rs + more.value;
      b := Peek("|)&;");
      while !b
        invariant Valid() && |args| < MAXARGS && (b <==> Peeks(Lex(s, ps), "|)&;"))
        invariant PExec(ts) == SimpleFrom(Lex(s, ps), args, rs)
        decreases |Lex(s, ps)|
      {
        ghost var us := Lex(s, ps);
        PeeksMeans(us);
        CodeMeans(s, ps);
        var tok, q, eq := GetToken();
        if tok == NUL { break; }
        if tok != 'a' { return None; }
        args := args + [Span(q, eq)];
        if |args| >= MAXARGS { return None; }
        SimpleMeans(Lex(s, ps), args, rs);
        more := ParseRedirs();
        if more.None? { return None; }
        rs := rs + more.value;
        b := Peek("|)&;");
      }
      PeeksMeans(Lex(s, ps));
      r := Some(Wrap(Exec(args), rs));
    }

    /** parseblock. */
    method ParseBlock() returns (r: Option<Cmd<Span>>)
      requires Valid() && Heads(Lex(s, ps), '(')
      modifies this
      ensures Valid() && Agrees(s, r, ps, PBlock(Lex(s, old(ps))))
      decreases |Lex(s, ps)|, 0
    {
      hide Lex, PRedirs, PLine, Peeks;
      ghost var ts := Lex(s, ps);
      var b := Peek("(");
      PeeksMeans(ts);
      var _, _, _ := GetToken();
      assert Lex(s, ps) == ts[1..];
      var line := ParseLine();
      if line.None? { return None; }
      ghost var us := Lex(s, ps);
      b := Peek(")");
      PeeksMeans(us);
      if !b { return None; }
      var _, _, _ := GetToken();
      assert Lex(s, ps) == us[1..];
      var rs := ParseRedirs();
      if rs.None? { return None; }
      r := Some(Wrap(line.value, rs.value));
    }

    /** parsepipe. */
    method ParsePipe() returns (r: Option<Cmd<Span>>)
      requires Valid()
      modifies this
      ensures Valid() && Agrees(s, r, ps, PPipe(Lex(s, old(ps))))
      decreases |Lex(s, ps)|, 2
    {
      hide Lex, PExec, Peeks;
      var left := ParseExec();
      if left.None? { return None; }
      ghost var us := Lex(s, ps);
      var b := Peek("|");
      PeeksMeans(us);
      if !b { return left; }
      var _, _, _ := GetToken();
      assert Lex(s, ps) == us[1..];
      var right := ParsePipe();
      if right.None? { return None; }
      r := Some(Pipe(left.value, right.value));
    }

    /** parseline. */
    method ParseLine() returns (r: Option<Cmd<Span>>)
      requires Valid()
      modifies this
      ensures Valid() && Agrees(s, r, ps, PLine(Lex(s, old(ps))))
      decreases |Lex(s, ps)|, 3
    {
      hide Lex, PPipe, Peeks;
      ghost var ts := Lex(s, ps);
      var first := ParsePipe();
      if first.None? { return None; }
      var cmd := first.value;
      ghost var amps := PAmps(cmd, Lex(s, ps));
      var b := Peek("&");
      while b
        invariant Valid() && (b <==> Peeks(Lex(s, ps), "&")) && PAmps(cmd, Lex(s, ps)) == amps
        decreases |Lex(s, ps)|
      {
        ghost var us := Lex(s, ps);
        PeeksMeans(us);
        var _, _, _ := GetToken();
        assert Lex(s, ps) == us[1..];
        cmd := Back(cmd);
        b := Peek("&");
      }
      ghost var us := Lex(s, ps);
      PeeksMeans(us);
      b := Peek(";");
      PeeksMeans(us);
      if !b { return Some(cmd); }
      var _, _, _ := GetToken();
      assert Lex(s, ps) == us[1..];
      var right := ParseLine();
      if right.None? { return None; }
      r := Some(List(cmd, right.value));
    }

    /** parsecmd up to nulterminate: a tree, or a panic on any text that is no command. */
    method ParseCmd() returns (r: Option<Cmd<Span>>)
      requires Valid() && ps == 0
      modifies this
      ensures r == if Parse(s).Ok? then Some(Parse(s).cmd) else None
    {
      hide Lex, PLine;
      r := ParseLine();
      if r.Some? {
        var _ := Peek("");
        LexAt(s, ps);
        SkipSpace();
        if ps != |s| { return None; }
      }
    }
  }

  /** parsecmd: the tree of the line, with every word of it NUL-terminated in the buffer
      and readable there as what the line says; on a panic the buffer is untouched. */
  method ParseCommand(buf: array<char>, line: string) returns (r: Option<Cmd<Span>>)
    requires NoNul(line) && buf[..] == line + [NUL]
    modifies buf
    ensures r == if Parse(line).Ok? then Some(Parse(line).cmd) else None
    ensures r.None? ==> buf[..] == old(buf[..])
    ensures r.Some? ==> forall w :: InTree(r.value, w) ==>
              w.lo < w.hi < buf.Length && buf[w.lo..w.hi] == Text(line, w) && buf[w.hi] == NUL
  {
    hide Lex, PLine, GoodCmd, Terminated, InTree;
    var parser := new Parser(line);
    r := parser.ParseCmd();
    if r.Some? {
      LexGood(line, 0);
      LineGood(line, Lex(line, 0));
      NulTerminate(buf, r.value, line);
      forall w | InTree(r.value, w)
        ensures w.lo < w.hi < buf.Length && buf[w.lo..w.hi] == Text(line, w)
                && buf[w.hi] == NUL
      {
        WordsReadBack(line, r.value, buf[..], w);
      }
    }
  }

  // ---- The cursor and the tokens ---------------------------------------------------------------------

  /** The next token is one of the symbols toks; >> starts like >. */
  predicate Peeks(ts: seq<Tok<Span>>, toks: string) {
    ts != [] && ts[0].Sym? && (ts[0].c in toks || (ts[0].c == '+' && '>' in toks))
  }

  lemma {:induction false} SkipTwice(s: string, i: nat)
    requires i <= |s|
    ensures Skip(s, Skip(s, i)) == Skip(s, i) && Lex(s, Skip(s, i)) == Lex(s, i)
  {
    var j := Skip(s, i);
    assert Skip(s, j) == j;
  }

  /** Either the rest of the line is white space, or a token starts after it. */
  lemma {:induction false} LexAt(s: string, i: nat)
    requires i <= |s|
    ensures var j := Skip(s, i);
            if j == |s| then Lex(s, i) == [] && Lex(s, j) == []
            else Lex(s, i) == [TokenAt(s, j)] + Lex(s, TokenEnd(s, j))
  {
    hide TokenAt, TokenEnd;
    SkipTwice(s, i);
  }

  lemma {:induction false} CodeMeans(s: string, i: nat)
    requires i <= |s|
    ensures Lex(s, i) != [] && Lex(s, i)[0].Sym? ==> IsSymbol(Lex(s, i)[0].c) || Lex(s, i)[0].c == '+'
  {
    hide Lex;
    LexAt(s, i);
  }

  lemma PeeksMeans(ts: seq<Tok<Span>>)
    ensures Peeks(ts, "<>") <==> ts != [] && ts[0].Sym? && IsRedir(ts[0].c)
    ensures Peeks(ts, "|)&;") <==> ts != [] && ts[0].Sym? && Stops(ts[0].c)
    ensures Peeks(ts, "(") <==> Heads(ts, '(')
    ensures Peeks(ts, ")") <==> Heads(ts, ')')
    ensures Peeks(ts, "|") <==> Heads(ts, '|')
    ensures Peeks(ts, "&") <==> Heads(ts, '&')
    ensures Peeks(ts, ";") <==> Heads(ts, ';')
  {
  }

  // ---- Redirections and simple commands ----------------------------------------------------------------

  /** Redirections rs have been read and left is what the rest of the tokens gives. */
  ghost predicate RedirsSoFar(want: Redirs<Span>, rs: seq<Rd<Span>>, left: Redirs<Span>) {
    if left.Missing? then want.Missing? else want.Found? && want.rs == rs + left.rs && want.rest == left.rest
  }

  lemma {:induction false} RedirStep(us: seq<Tok<Span>>, vs: seq<Tok<Span>>)
    requires us != [] && us == [us[0]] + vs && us[0].Sym? && IsRedir(us[0].c)
    ensures vs == [] || !vs[0].Word? ==> PRedirs(us).Missing?
    ensures vs != [] && vs[0].Word? ==>
              var more := PRedirs(vs[1..]);
              if more.Missing? then PRedirs(us).Missing?
                else PRedirs(us) == Found([Rd(us[0].c, vs[0].w)] + more.rs, more.rest)
  {
    if vs != [] {
      assert us[2..] == vs[1..];
    }
  }

  lemma RedirsEnd(ts: seq<Tok<Span>>)
    requires !(ts != [] && ts[0].Sym? && IsRedir(ts[0].c))
    ensures PRedirs(ts) == Found([], ts)
  {
  }

  /** What a simple command comes to once the redirections at the cursor are read. */
  function SimpleFrom(ts: seq<Tok<Span>>, args: seq<Span>, rs: seq<Rd<Span>>): Result<Span> {
    if ts == [] || (ts[0].Sym? && Stops(ts[0].c)) then Ok(Wrap(Exec(args), rs), ts)
    else if ts[0].Sym? || |args| + 1 >= MAXARGS then Panic
    else PSimple(ts[1..], args + [ts[0].w], rs)
  }

  lemma SimpleMeans(ts: seq<Tok<Span>>, args: seq<Span>, rs: seq<Rd<Span>>)
    ensures PSimple(ts, args, rs)
            == match PRedirs(ts) case Missing => Panic case Found(more, rest) => SimpleFrom(rest, args, rs + more)
  {
  }
}
