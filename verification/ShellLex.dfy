/** Tokens of a command line (gettoken and peek of user/sh.c), and the whole round trip:
    print a tree as text, cut the text into tokens, parse them. */
module ShellLex {
  import opened ShellSpec

  /** A word as a pair of positions in the input, as argv and eargv hold it. */
  datatype Span = Span(lo: nat, hi: nat)

  predicate IsSpace(c: char) {
    c == ' ' || c == '\t' || c == '\r' || c == '\n' || c == 11 as char
  }

  predicate IsSymbol(c: char) {
    c == '<' || c == '|' || c == '>' || c == '&' || c == ';' || c == '(' || c == ')'
  }

  predicate IsWordChar(c: char) {
    !IsSpace(c) && !IsSymbol(c)
  }

  function Skip(s: string, i: nat): (j: nat)
    requires i <= |s|
    ensures i <= j <= |s| && (j < |s| ==> !IsSpace(s[j]))
    decreases |s| - i
  {
    if i < |s| && IsSpace(s[i]) then Skip(s, i + 1) else i
  }

  function WordEnd(s: string, i: nat): (j: nat)
    requires i <= |s|
    ensures i <= j <= |s| && (j < |s| ==> !IsWordChar(s[j])) && forall k: nat :: i <= k < j ==> IsWordChar(s[k])
    ensures i < |s| && IsWordChar(s[i]) ==> i < j
    decreases |s| - i
  {
    if i < |s| && IsWordChar(s[i]) then WordEnd(s, i + 1) else i
  }

  /** Where the token that starts at i ends. */
  function TokenEnd(s: string, i: nat): (j: nat)
    requires i < |s| && !IsSpace(s[i])
    ensures i < j <= |s|
  {
    if s[i] == '>' && i + 1 < |s| && s[i + 1] == '>' then i + 2
    else if IsSymbol(s[i]) then i + 1
    else WordEnd(s, i)
  }

  function TokenAt(s: string, i: nat): Tok<Span>
    requires i < |s| && !IsSpace(s[i])
  {
    if s[i] == '>' && i + 1 < |s| && s[i + 1] == '>' then Sym('+')
    else if IsSymbol(s[i]) then Sym(s[i])
    else Word(Span(i, WordEnd(s, i)))
  }

  /** The tokens from position i on. */
  function Lex(s: string, i: nat): seq<Tok<Span>>
    requires i <= |s|
    decreases |s| - i
  {
    var j := Skip(s, i);
    if j == |s| then [] else [TokenAt(s, j)] + Lex(s, TokenEnd(s, j))
  }

  // ---- The words of a token, a tree, a result -------------------------------------------------------

  function Text(s: string, w: Span): string {
    if w.lo <= w.hi <= |s| then s[w.lo..w.hi] else []
  }

  function TextTok(s: string, t: Tok<Span>): Tok<string> {
    if t.Word? then Word(Text(s, t.w)) else Sym(t.c)
  }

  function TextToks(s: string, ts: seq<Tok<Span>>): seq<Tok<string>> {
    if ts == [] then [] else [TextTok(s, ts[0])] + TextToks(s, ts[1..])
  }

  function TextWords(s: string, ws: seq<Span>): seq<string> {
    if ws == [] then [] else TextWords(s, ws[..|ws| - 1]) + [Text(s, ws[|ws| - 1])]
  }

  function TextRedirs(s: string, rs: seq<Rd<Span>>): seq<Rd<string>> {
    if rs == [] then [] else TextRedirs(s, rs[..|rs| - 1]) + [Rd(rs[|rs| - 1].kind, Text(s, rs[|rs| - 1].file))]
  }

  /** The tree with the words themselves in place of their positions. */
  function TextCmd(s: string, c: Cmd<Span>): Cmd<string> {
    match c
    case Exec(args) => Exec(TextWords(s, args))
    case Redir(d, kind, file) => Redir(TextCmd(s, d), kind, Text(s, file))
    case Pipe(l, r) => Pipe(TextCmd(s, l), TextCmd(s, r))
    case List(l, r) => List(TextCmd(s, l), TextCmd(s, r))
    case Back(d) => Back(TextCmd(s, d))
  }

  function TextResult(s: string, r: Result<Span>): Result<string> {
    if r.Panic? then Panic else Ok(TextCmd(s, r.cmd), TextToks(s, r.rest))
  }

  // ---- The parser looks at words only to pass them on --------------------------------------------------

  lemma {:induction false} TextLength(s: string, ts: seq<Tok<Span>>)
    ensures |TextToks(s, ts)| == |ts|
    ensures ts != [] ==> TextToks(s, ts)[0] == TextTok(s, ts[0]) && TextToks(s, ts)[1..] == TextToks(s, ts[1..])
    decreases |ts|
  {
    if ts != [] {
      TextLength(s, ts[1..]);
    }
  }

  lemma {:induction false} TextHeads(s: string, ts: seq<Tok<Span>>, c: char)
    ensures Heads(TextToks(s, ts), c) == Heads(ts, c)
  {
    TextLength(s, ts);
  }

  lemma {:induction false} TextRedirsConcat(s: string, a: seq<Rd<Span>>, b: seq<Rd<Span>>)
    ensures TextRedirs(s, a + b) == TextRedirs(s, a) + TextRedirs(s, b)
    decreases |b|
  {
    if b == [] {
      assert a + b == a;
    } else {
      assert (a + b)[..|a + b| - 1] == a + b[..|b| - 1];
      TextRedirsConcat(s, a, b[..|b| - 1]);
    }
  }

  lemma {:induction false} TextPRedirs(s: string, ts: seq<Tok<Span>>)
    ensures var r, q := PRedirs(ts), PRedirs(TextToks(s, ts));
            r.Found? == q.Found? && (r.Found? ==> q == Found(TextRedirs(s, r.rs), TextToks(s, r.rest)))
    decreases |ts|
  {
    TextLength(s, ts);
    if |ts| >= 2 && ts[0].Sym? && IsRedir(ts[0].c) && ts[1].Word? {
      TextLength(s, ts[1..]);
      assert ts[1..][1..] == ts[2..] && TextToks(s, ts)[2..] == TextToks(s, ts)[1..][1..];
      TextPRedirs(s, ts[2..]);
      var more := PRedirs(ts[2..]);
      if more.Found? {
        TextRedirsConcat(s, [Rd(ts[0].c, ts[1].w)], more.rs);
        OneRedir(s, ts[0].c, ts[1].w);
      }
    } else if |ts| >= 2 {
      TextLength(s, ts[1..]);
    }
  }

  lemma OneRedir(s: string, kind: char, w: Span)
    ensures TextRedirs(s, [Rd(kind, w)]) == [Rd(kind, Text(s, w))]
  {
    assert [Rd(kind, w)][..0] == [];
  }

  lemma {:induction false} TextWrap(s: string, c: Cmd<Span>, rs: seq<Rd<Span>>)
    ensures TextCmd(s, Wrap(c, rs)) == Wrap(TextCmd(s, c), TextRedirs(s, rs))
    decreases |rs|
  {
    if rs != [] {
      TextWrap(s, c, rs[..|rs| - 1]);
      var ts := TextRedirs(s, rs);
      assert ts[..|ts| - 1] == TextRedirs(s, rs[..|rs| - 1]);
    }
  }

  lemma {:induction false} WordsLength(s: string, ws: seq<Span>)
    ensures |TextWords(s, ws)| == |ws|
    decreases |ws|
  {
    if ws != [] {
      WordsLength(s, ws[..|ws| - 1]);
    }
  }

  lemma OneMoreWord(s: string, ws: seq<Span>, w: Span)
    ensures TextWords(s, ws + [w]) == TextWords(s, ws) + [Text(s, w)]
  {
    assert (ws + [w])[..|ws|] == ws;
  }

  lemma {:induction false} TextPSimple(s: string, ts: seq<Tok<Span>>, args: seq<Span>, rs: seq<Rd<Span>>)
    ensures PSimple(TextToks(s, ts), TextWords(s, args), TextRedirs(s, rs)) == TextResult(s, PSimple(ts, args, rs))
    decreases |ts|
  {
    TextPRedirs(s, ts);
    WordsLength(s, args);
    var r := PRedirs(ts);
    if r.Found? {
      TextLength(s, r.rest);
      TextRedirsConcat(s, rs, r.rs);
      TextWrap(s, Exec(args), rs + r.rs);
      if r.rest != [] && r.rest[0].Word? && |args| + 1 < MAXARGS {
        OneMoreWord(s, args, r.rest[0].w);
        TextPSimple(s, r.rest[1..], args + [r.rest[0].w], rs + r.rs);
      }
    }
  }

  lemma {:induction false} TextPExec(s: string, ts: seq<Tok<Span>>)
    ensures PExec(TextToks(s, ts)) == TextResult(s, PExec(ts))
    decreases |ts|, 1
  {
    hide PSimple, PLine;
    TextHeads(s, ts, '(');
    TextPSimple(s, ts, [], []);
    if Heads(ts, '(') {
      TextLength(s, ts);
      TextPLine(s, ts[1..]);
      var r := PLine(ts[1..]);
      if r.Ok? && Heads(r.rest, ')') {
        TextLength(s, r.rest);
        TextPRedirs(s, r.rest[1..]);
        var q := PRedirs(r.rest[1..]);
        if q.Found? {
          TextWrap(s, r.cmd, q.rs);
        }
      }
      if r.Ok? {
        TextHeads(s, r.rest, ')');
      }
    }
  }

  lemma {:induction false} TextPPipe(s: string, ts: seq<Tok<Span>>)
    ensures PPipe(TextToks(s, ts)) == TextResult(s, PPipe(ts))
    decreases |ts|, 2
  {
    hide PExec;
    TextPExec(s, ts);
    var r := PExec(ts);
    if r.Ok? {
      TextHeads(s, r.rest, '|');
      if Heads(r.rest, '|') {
        TextLength(s, r.rest);
        TextPPipe(s, r.rest[1..]);
      }
    }
  }

  lemma {:induction false} TextPAmps(s: string, c: Cmd<Span>, ts: seq<Tok<Span>>)
    ensures PAmps(TextCmd(s, c), TextToks(s, ts)) == TextResult(s, PAmps(c, ts))
    decreases |ts|
  {
    TextHeads(s, ts, '&');
    if Heads(ts, '&') {
      TextLength(s, ts);
      TextPAmps(s, Back(c), ts[1..]);
    }
  }

  lemma {:induction false} TextPLine(s: string, ts: seq<Tok<Span>>)
    ensures PLine(TextToks(s, ts)) == TextResult(s, PLine(ts))
    decreases |ts|, 3
  {
    hide PPipe, PAmps;
    TextPPipe(s, ts);
    var r := PPipe(ts);
    if r.Ok? {
      TextPAmps(s, r.cmd, r.rest);
      var q := PAmps(r.cmd, r.rest);
      TextHeads(s, q.rest, ';');
      if Heads(q.rest, ';') {
        TextLength(s, q.rest);
        TextPLine(s, q.rest[1..]);
      }
    }
  }

  // ---- Text ---------------------------------------------------------------------------------------

  predicate WordOk(w: string) {
    w != [] && forall i :: 0 <= i < |w| ==> IsWordChar(w[i])
  }

  predicate TokOk(t: Tok<string>) {
    if t.Word? then WordOk(t.w) else IsSymbol(t.c) || t.c == '+'
  }

  ghost predicate ToksOk(ts: seq<Tok<string>>) {
    forall i :: 0 <= i < |ts| ==> TokOk(ts[i])
  }

  function ShowTok(t: Tok<string>): string {
    if t.Word? then t.w else if t.c == '+' then ">>" else [t.c]
  }

  /** Tokens as text, each with a space after it. */
  function ShowToks(ts: seq<Tok<string>>): string {
    if ts == [] then [] else ShowTok(ts[0]) + " " + ShowToks(ts[1..])
  }

  lemma {:induction false} WordEndIs(s: string, i: nat, n: nat)
    requires i <= n < |s| && !IsWordChar(s[n]) && forall k: nat :: i <= k < n ==> IsWordChar(s[k])
    ensures WordEnd(s, i) == n
    decreases n - i
  {
    if i < n {
      WordEndIs(s, i + 1, n);
    }
  }

  lemma {:induction false} SkipOne(s: string, i: nat)
    requires i < |s| && s[i] == ' '
    ensures Lex(s, i) == Lex(s, i + 1)
  {
    assert Skip(s, i) == Skip(s, i + 1);
  }

  /** The first token of a text that starts with a printed token. */
  lemma {:induction false} LexOne(s: string, i: nat, t: Tok<string>)
    requires TokOk(t) && i + |ShowTok(t)| < |s| && s[i..i + |ShowTok(t)|] == ShowTok(t) && s[i + |ShowTok(t)|] == ' '
    ensures !IsSpace(s[i]) && TextTok(s, TokenAt(s, i)) == t && TokenEnd(s, i) == i + |ShowTok(t)|
  {
    var n := i + |ShowTok(t)|;
    assert forall k: nat :: i <= k < n ==> s[k] == ShowTok(t)[k - i];
    if t.Word? {
      WordEndIs(s, i, n);
    }
  }

  lemma {:induction false} ShowFirst(s: string, i: nat, ts: seq<Tok<string>>)
    requires i <= |s| && s[i..] == ShowToks(ts) && ts != []
    ensures var n := i + |ShowTok(ts[0])|;
            n < |s| && s[i..n] == ShowTok(ts[0]) && s[n] == ' ' && s[n + 1..] == ShowToks(ts[1..])
  {
    hide ShowTok;
    var a, more := ShowTok(ts[0]), ShowToks(ts[1..]);
    var n := i + |a|;
    assert s[i..] == a + " " + more;
    assert s[i..n] == s[i..][..|a|];
    assert s[n] == s[i..][|a|];
    assert s[n + 1..] == s[i..][|a| + 1..];
  }

  lemma {:induction false} LexStep(s: string, i: nat)
    requires i < |s| && !IsSpace(s[i])
    ensures Lex(s, i) == [TokenAt(s, i)] + Lex(s, TokenEnd(s, i))
  {
    hide TokenAt, TokenEnd;
    assert Skip(s, i) == i;
  }

  lemma TextFirst(s: string, t: Tok<Span>, ts: seq<Tok<Span>>)
    ensures TextToks(s, [t] + ts) == [TextTok(s, t)] + TextToks(s, ts)
  {
    assert ([t] + ts)[1..] == ts;
  }

  /** Cutting printed tokens up again gives the tokens. */
  lemma {:induction false} LexShow(s: string, i: nat, ts: seq<Tok<string>>)
    requires i <= |s| && s[i..] == ShowToks(ts) && ToksOk(ts)
    ensures TextToks(s, Lex(s, i)) == ts
    decreases |ts|
  {
    hide TokenAt, TokenEnd, ShowTok, TokOk, TextTok;
    if ts == [] {
      assert i == |s|;
    } else {
      var n := i + |ShowTok(ts[0])|;
      ShowFirst(s, i, ts);
      LexOne(s, i, ts[0]);
      LexStep(s, i);
      SkipOne(s, n);
      LexShow(s, n + 1, ts[1..]);
      TextFirst(s, TokenAt(s, i), Lex(s, n));
      assert ts == [ts[0]] + ts[1..];
    }
  }

  /** Words of a tree that survive as text. */
  ghost predicate TextOk(t: Cmd<string>) {
    match t
    case Exec(args) => forall i :: 0 <= i < |args| ==> WordOk(args[i])
    case Redir(c, _, file) => WordOk(file) && TextOk(c)
    case Pipe(l, r) => TextOk(l) && TextOk(r)
    case List(l, r) => TextOk(l) && TextOk(r)
    case Back(c) => TextOk(c)
  }

  lemma {:induction false} ShowOk(t: Cmd<string>)
    requires TextOk(t) && Printable(t)
    ensures ToksOk(Inner(t)) && ToksOk(ShowExec(t)) && ToksOk(ShowPipe(t)) && ToksOk(ShowBack(t)) && ToksOk(ShowLine(t))
    decreases t
  {
    match t
    case Exec(args) =>
    case Redir(c, _, file) => ShowOk(c);
    case Pipe(l, r) => ShowOk(l); ShowOk(r);
    case List(l, r) => ShowOk(l); ShowOk(r);
    case Back(c) => ShowOk(c);
  }

  /** A command tree as text. */
  function Show(t: Cmd<string>): string {
    ShowToks(ShowLine(t))
  }

  /** parsecmd on a whole line: nothing may be left over. */
  function Parse(s: string): Result<Span> {
    var r := PLine(Lex(s, 0));
    if r.Ok? && r.rest == [] then r else Panic
  }

  /** The round trip: any tree with at most nine arguments to a command, printed with
      parentheses where needed and parsed back, gives the same tree. */
  lemma {:induction false} RoundTrip(t: Cmd<string>)
    requires Printable(t) && TextOk(t)
    ensures Parse(Show(t)).Ok? && TextCmd(Show(t), Parse(Show(t)).cmd) == t
  {
    hide Inner, ShowExec, PLine, Lex, ShowLine;
    var s, ts := Show(t), ShowLine(t);
    ShowOk(t);
    assert s[0..] == s;
    LexShow(s, 0, ts);
    assert ts + [] == ts;
    LineBack(t, []);
    TextPLine(s, Lex(s, 0));
    TextLength(s, PLine(Lex(s, 0)).rest);
  }
}
