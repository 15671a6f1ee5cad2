/** user/grep.c: the matcher against a language of strings, and the line loop against the
    list of matching lines. */
module Grep {

  const NUL: char := 0 as char
  const BUFSIZE: nat := 1024

  // ---- What a pattern means ------------------------------------------------------------------------

  /** One character, or any number of them; '.' stands for every character. */
  datatype Item = Lit(c: char) | Star(c: char)

  predicate Fits(c: char, x: char) {
    c == '.' || c == x
  }

  /** The items of a pattern without its ^; a $ at the very end is not an item. */
  function Body(re: string): seq<Item>
    decreases |re|
  {
    if re == [] then []
    else if |re| >= 2 && re[1] == '*' then [Star(re[0])] + Body(re[2..])
    else if re == "$" then []
    else [Lit(re[0])] + Body(re[1..])
  }

  /** The pattern ends in a $ that means the end of the text. */
  predicate Ends(re: string)
    decreases |re|
  {
    if re == [] then false
    else if |re| >= 2 && re[1] == '*' then Ends(re[2..])
    else if re == "$" then true
    else Ends(re[1..])
  }

  predicate AllFit(c: char, u: string) {
    forall i :: 0 <= i < |u| ==> Fits(c, u[i])
  }

  /** u is in the language of the items. */
  ghost predicate InLang(items: seq<Item>, u: string)
    decreases |items|
  {
    if items == [] then u == []
    else if items[0].Lit? then u != [] && Fits(items[0].c, u[0]) && InLang(items[1..], u[1..])
    else exists k: nat :: k <= |u| && AllFit(items[0].c, u[..k]) && InLang(items[1..], u[k..])
  }

  /** Some prefix of text is in the language; all of text if the pattern ends in $. */
  ghost predicate Here(re: string, text: string) {
    exists k: nat :: k <= |text| && (Ends(re) ==> k == |text|) && InLang(Body(re), text[..k])
  }

  /** Some part of text is in the language; from its start if the pattern begins with ^. */
  ghost predicate Matches(re: string, text: string) {
    if re != [] && re[0] == '^' then Here(re[1..], text)
    else exists i: nat :: i <= |text| && Here(re, text[i..])
  }

  // ---- Simple and starred patterns ------------------------------------------------------------------

  /** A pattern of ordinary characters and dots. */
  predicate Simple(p: string) {
    forall k :: 0 <= k < |p| ==> p[k] != '*' && p[k] != '$' && p[k] != '^'
  }

  /** The text has at i what p asks for: any character for a dot, else the same one. */
  predicate FoundAt(p: string, text: string, i: int) {
    0 <= i && i + |p| <= |text| && forall k :: 0 <= k < |p| ==> p[k] == '.' || p[k] == text[i + k]
  }

  function Literals(p: string): seq<Item> {
    if p == [] then [] else [Lit(p[0])] + Literals(p[1..])
  }

  lemma {:induction false} SimpleBody(p: string, tail: string)
    requires Simple(p) && (tail == "" || tail == "$")
    ensures Body(p + tail) == Literals(p) && (Ends(p + tail) <==> tail == "$")
    decreases |p|
  {
    if p == [] {
      assert p + tail == tail;
    } else {
      SimpleBody(p[1..], tail);
      assert (p + tail)[1..] == p[1..] + tail;
      assert |p + tail| >= 2 ==> (p + tail)[1] == if |p| > 1 then p[1] else tail[0];
    }
  }

  lemma {:induction false} LiteralsLang(p: string, u: string)
    ensures InLang(Literals(p), u) <==> |u| == |p| && FoundAt(p, u, 0)
    decreases |p|
  {
    if p != [] && u != [] {
      LiteralsLang(p[1..], u[1..]);
      assert Literals(p)[1..] == Literals(p[1..]);
      if FoundAt(p[1..], u[1..], 0) && |u| == |p| && Fits(p[0], u[0]) {
        forall k | 0 <= k < |p| ensures p[k] == '.' || p[k] == u[k] {
          if k > 0 {
            assert p[1..][k - 1] == p[k] && u[1..][k - 1] == u[k];
          }
        }
      }
    }
  }

  lemma {:induction false} SimpleHere(p: string, tail: string, text: string)
    requires Simple(p) && (tail == "" || tail == "$")
    ensures Here(p + tail, text) <==> FoundAt(p, text, 0) && (tail == "$" ==> |text| == |p|)
  {
    hide InLang;
    SimpleBody(p, tail);
    forall k: nat | k <= |text| ensures InLang(Literals(p), text[..k]) <==> k == |p| && FoundAt(p, text, 0) {
      LiteralsLang(p, text[..k]);
    }
    if FoundAt(p, text, 0) && (tail == "$" ==> |text| == |p|) {
      assert InLang(Literals(p), text[..|p|]);
    }
  }

  /** What a pattern of ordinary characters and dots matches, for every such pattern: a
      text that has it somewhere, at the start after ^, at the end before $, and alone
      between the two. */
  lemma {:induction false} SimplePatterns(p: string, text: string)
    requires Simple(p)
    ensures Matches(p, text) <==> exists i: nat :: FoundAt(p, text, i)
    ensures Matches("^" + p, text) <==> FoundAt(p, text, 0)
    ensures Matches(p + "$", text) <==> FoundAt(p, text, |text| - |p|)
    ensures Matches("^" + p + "$", text) <==> |text| == |p| && FoundAt(p, text, 0)
  {
    hide Here;
    assert ("^" + p)[1..] == p + "" && p + "" == p;
    assert ("^" + p + "$")[1..] == p + "$";
    SimpleHere(p, "", text);
    SimpleHere(p, "$", text);
    forall i: nat | i <= |text|
      ensures Here(p, text[i..]) <==> FoundAt(p, text, i)
      ensures Here(p + "$", text[i..]) <==> i == |text| - |p| && FoundAt(p, text, i)
    {
      SimpleHere(p, "", text[i..]);
      SimpleHere(p, "$", text[i..]);
      FoundFrom(p, text, i);
    }
    if FoundAt(p, text, |text| - |p|) {
      var i: nat := |text| - |p|;
      assert Here(p + "$", text[i..]);
    }
  }

  lemma {:induction false} FoundFrom(p: string, text: string, i: nat)
    requires i <= |text|
    ensures FoundAt(p, text[i..], 0) <==> FoundAt(p, text, i)
  {
    forall k | 0 <= k < |text| - i ensures text[i..][k] == text[i + k] {
    }
  }

  /** Between ^ and $ a starred character matches the texts of that character alone, and
      a starred dot every text. */
  lemma {:induction false} StarPatterns(c: char, text: string)
    ensures Matches("^" + [c] + "*$", text) <==> c == '.' || forall k :: 0 <= k < |text| ==> text[k] == c
  {
    var re := [c] + "*$";
    assert ("^" + [c] + "*$")[1..] == re && re[2..] == "$";
    assert Body("$") == [] && Ends("$");
    assert Body(re) == [Star(c)] && Ends(re);
    assert text[..|text|] == text && text[|text|..] == [];
    forall u: string ensures InLang([Star(c)], u) <==> AllFit(c, u) {
      OneStar(c, u);
    }
  }

  lemma {:induction false} OneStar(c: char, u: string)
    ensures InLang([Star(c)], u) <==> AllFit(c, u)
  {
    assert [Star(c)][1..] == [] && u[..|u|] == u;
    forall k: nat | k <= |u| ensures InLang([], u[k..]) <==> k == |u| {
    }
    if AllFit(c, u) {
      assert AllFit(c, u[..|u|]) && InLang([], u[|u|..]);
    }
  }


  // ---- The matcher ---------------------------------------------------------------------------------

  lemma {:induction false} HereEmpty(text: string)
    ensures Here([], text)
  {
    assert InLang(Body([]), text[..0]);
  }

  lemma {:induction false} HereEnd(text: string)
    ensures Here("$", text) <==> text == []
  {
    if text == [] {
      assert InLang(Body("$"), text[..0]);
    }
  }

  lemma {:induction false} HereLit(re: string, text: string)
    requires re != [] && !(|re| >= 2 && re[1] == '*') && re != "$"
    ensures Here(re, text) <==> text != [] && Fits(re[0], text[0]) && Here(re[1..], text[1..])
  {
    var items := Body(re);
    assert items[1..] == Body(re[1..]);
    if Here(re, text) {
      var k: nat :| k <= |text| && (Ends(re) ==> k == |text|) && InLang(items, text[..k]);
      assert text[1..][..k - 1] == text[..k][1..];
    }
    if text != [] && Fits(re[0], text[0]) && Here(re[1..], text[1..]) {
      var k: nat :| k <= |text[1..]| && (Ends(re[1..]) ==> k == |text[1..]|) && InLang(Body(re[1..]), text[1..][..k]);
      assert text[..k + 1][1..] == text[1..][..k];
      assert InLang(items, text[..k + 1]);
    }
  }

  lemma {:induction false} HereStar(re: string, text: string)
    requires |re| >= 2 && re[1] == '*'
    ensures Here(re, text) <==> StarHere(re[0], re[2..], text)
  {
    var items, rest := Body(re), re[2..];
    assert items[1..] == Body(rest);
    if Here(re, text) {
      var k: nat :| k <= |text| && (Ends(re) ==> k == |text|) && InLang(items, text[..k]);
      var i: nat :| i <= k && AllFit(re[0], text[..k][..i]) && InLang(items[1..], text[..k][i..]);
      assert text[..k][..i] == text[..i] && text[..k][i..] == text[i..][..k - i];
      assert Here(rest, text[i..]);
    }
    if StarHere(re[0], rest, text) {
      var i: nat :| i <= |text| && AllFit(re[0], text[..i]) && Here(rest, text[i..]);
      var k: nat :| k <= |text[i..]| && (Ends(rest) ==> k == |text[i..]|) && InLang(Body(rest), text[i..][..k]);
      assert text[..i + k][..i] == text[..i] && text[..i + k][i..] == text[i..][..k];
      assert InLang(items, text[..i + k]);
    }
  }

  /** Some number of c's and then re. */
  ghost predicate StarHere(c: char, re: string, text: string) {
    exists i: nat :: i <= |text| && AllFit(c, text[..i]) && Here(re, text[i..])
  }

  /** matchhere. */
  method MatchHere(re: string, text: string) returns (b: bool)
    ensures b <==> Here(re, text)
    decreases |re|, 0
  {
    hide Here, StarHere;
    if re == [] {
      HereEmpty(text);
      return true;
    }
    if |re| >= 2 && re[1] == '*' {
      HereStar(re, text);
      b := MatchStar(re[0], re[2..], text);
      return;
    }
    if re[0] == '$' && |re| == 1 {
      assert re == "$";
      HereEnd(text);
      return text == [];
    }
    HereLit(re, text);
    if text != [] && (re[0] == '.' || re[0] == text[0]) {
      b := MatchHere(re[1..], text[1..]);
      return;
    }
    b := false;
  }

  /** matchstar: tries re after zero, one, two ... characters that c allows. */
  method MatchStar(c: char, re: string, text: string) returns (b: bool)
    ensures b <==> StarHere(c, re, text)
    decreases |re|, 1
  {
    hide Here;
    var i := 0;
    while true
      invariant 0 <= i <= |text| && AllFit(c, text[..i])
      invariant forall j: nat :: j < i ==> !Here(re, text[j..])
      decreases |text| - i
    {
      b := MatchHere(re, text[i..]);
      if b { return; }
      if i == |text| || !(text[i] == c || c == '.') { break; }
      assert text[..i + 1] == text[..i] + [text[i]];
      i := i + 1;
    }
    NoFurther(c, text, i);
  }

  /** Where c stops fitting, no longer run of it fits. */
  lemma {:induction false} NoFurther(c: char, text: string, i: nat)
    requires i == |text| || (i < |text| && !Fits(c, text[i]))
    ensures forall j: nat :: i < j <= |text| ==> !AllFit(c, text[..j])
  {
    forall j: nat | i < j <= |text| ensures !AllFit(c, text[..j]) {
      assert text[..j][i] == text[i];
    }
  }

  /** match. */
  method Match(re: string, text: string) returns (b: bool)
    ensures b <==> Matches(re, text)
  {
    hide Here;
    if re != [] && re[0] == '^' {
      b := MatchHere(re[1..], text);
      return;
    }
    var i := 0;
    while true
      invariant 0 <= i <= |text| && forall j: nat :: j < i ==> !Here(re, text[j..])
      decreases |text| - i
    {
      b := MatchHere(re, text[i..]);
      if b { return; }
      if i == |text| { break; }
      i := i + 1;
    }
  }

  // ---- Lines ---------------------------------------------------------------------------------------

  /** strchr for a newline: the first one, if no NUL comes before it. */
  function Newline(u: string): int {
    if u == [] || u[0] == NUL then -1
    else if u[0] == '\n' then 0
    else var q := Newline(u[1..]); if q < 0 then -1 else q + 1
  }

  lemma {:induction false} NewlineAt(u: string)
    ensures var q := Newline(u); -1 <= q < |u|
    ensures var q := Newline(u); 0 <= q ==> u[q] == '\n' && forall i: nat :: i < q ==> u[i] != '\n' && u[i] != NUL
    decreases |u|
  {
    if u != [] {
      NewlineAt(u[1..]);
      var q := Newline(u);
      if 1 <= q {
        forall i: nat | i < q ensures u[i] != '\n' && u[i] != NUL {
          if i > 0 { assert u[i] == u[1..][i - 1]; }
        }
      }
    }
  }

  /** A newline is found exactly at the first position that holds one, with no NUL before. */
  lemma {:induction false} NewlineIs(u: string, q: nat)
    requires q < |u| && u[q] == '\n' && forall i: nat :: i < q ==> u[i] != '\n' && u[i] != NUL
    ensures Newline(u) == q
    decreases |u|
  {
    if q > 0 {
      assert u[0] != '\n' && u[0] != NUL;
      forall i: nat | i < q - 1 ensures u[1..][i] != '\n' && u[1..][i] != NUL {
        assert u[1..][i] == u[i + 1];
      }
      NewlineIs(u[1..], q - 1);
    }
  }

  /** What grep prints of u: its matching lines in order. It gives up at a line that does
      not fit into the buffer or has a NUL in it; an unfinished last line is not a line. */
  ghost function Output(re: string, u: string): string
    decreases |u|
  {
    NewlineAt(u);
    var q := Newline(u);
    if q < 0 || q + 1 > BUFSIZE - 1 then []
    else (if Matches(re, u[..q]) then u[..q + 1] else []) + Output(re, u[q + 1..])
  }

  /** Newline does not look beyond what it finds. */
  lemma {:induction false} NewlinePrefix(u: string, v: string)
    requires Newline(u) >= 0
    ensures Newline(u + v) == Newline(u)
  {
    NewlineAt(u);
    NewlineIs(u + v, Newline(u));
  }

  /** A buffer without a newline stays without one unless more text brings it. */
  lemma {:induction false} NoNewline(u: string, v: string)
    requires Newline(u) < 0
    ensures Newline(u + v) < 0 || Newline(u + v) >= |u|
  {
    NewlineAt(u + v);
    var q := Newline(u + v);
    if 0 <= q < |u| {
      assert u[q] == (u + v)[q];
      forall i: nat | i < q ensures u[i] != '\n' && u[i] != NUL {
        assert u[i] == (u + v)[i];
      }
      NewlineIs(u, q);
    }
  }

  /** strchr(p, '\n') in the buffer, which ends with a NUL at m. */
  method Strchr(buf: array<char>, p: nat, m: nat) returns (q: int)
    requires p <= m < buf.Length && buf[m] == NUL
    ensures Newline(buf[p..m]) < 0 ==> q == -1
    ensures Newline(buf[p..m]) >= 0 ==> q == p + Newline(buf[p..m])
  {
    var i := p;
    while buf[i] != NUL
      invariant p <= i <= m && forall k: nat :: k < i - p ==> buf[p..m][k] != '\n' && buf[p..m][k] != NUL
      decreases m - i
    {
      if buf[i] == '\n' {
        NewlineIs(buf[p..m], i - p);
        return i;
      }
      i := i + 1;
    }
    NewlineAt(buf[p..m]);
    q := -1;
  }

  /** One line, from p to the newline at q: cut off, matched, and put back if it matches. */
  method TryLine(re: string, buf: array<char>, p: nat, q: nat) returns (b: bool)
    requires p <= q < buf.Length && buf[q] == '\n'
    modifies buf
    ensures b <==> Matches(re, old(buf[p..q]))
    ensures b ==> buf[..] == old(buf[..])
    ensures forall i: nat :: i < buf.Length && i != q ==> buf[i] == old(buf[i])
  {
    hide Matches;
    buf[q] := NUL;
    assert buf[p..q] == old(buf[p..q]);
    b := Match(re, buf[p..q]);
    if b {
      buf[q] := '\n';
    }
  }

  lemma Slices(all: string, p: nat, q: nat)
    requires p <= q < |all|
    ensures all[p..][..q - p] == all[p..q] && all[p..][..q - p + 1] == all[p..q + 1]
            && all[p..][q - p + 1..] == all[q + 1..]
    ensures all[p..][q - p] == all[q]
  {
  }

  lemma {:induction false} SliceOf(b: string, all: string, p: nat, q: nat, m: nat)
    requires p <= q < m == |all| <= |b| && b[p..m] == all[p..]
    ensures b[p..q] == all[p..q] && b[q] == all[q] && b[p..q + 1] == all[p..q + 1]
    ensures forall i: nat :: p <= i < m ==> b[i] == all[i]
  {
    forall i: nat | p <= i < m ensures b[i] == all[i] {
      assert b[p..m][i - p] == all[p..][i - p];
    }
  }

  lemma {:induction false} SliceTail(b: string, all: string, p: nat, m: nat)
    requires p <= m == |all| <= |b| && forall i: nat :: p <= i < m ==> b[i] == all[i]
    ensures b[p..m] == all[p..]
  {
  }

  /** The inner loop: print the matching lines among the m bytes in the buffer. */
  method PrintLines(re: string, buf: array<char>, m: nat) returns (p: nat, printed: string)
    requires m < buf.Length == BUFSIZE && buf[m] == NUL
    modifies buf
    ensures p <= m && buf[p..m] == old(buf[p..m]) && Newline(buf[p..m]) < 0
    ensures SameOutput(re, old(buf[..m]), printed, buf[p..m])
  {
    hide Matches, Newline, Output, SameOutput;
    p, printed := 0, [];
    ghost var all := buf[..m];
    var q := Strchr(buf, p, m);
    assert all[0..] == all == buf[0..m];
    AnyOutput(re, all);
    while q >= 0
      invariant p <= m && buf[p..m] == all[p..] && buf[m] == NUL
      invariant if q < 0 then Newline(all[p..]) < 0 else Newline(all[p..]) >= 0 && q == p + Newline(all[p..])
      invariant SameOutput(re, all, printed, all[p..])
      decreases m - p
    {
      ghost var rest := all[p..];
      NewlineAt(rest);
      OneLine(re, all, printed, rest);
      Slices(all, p, q);
      SliceOf(buf[..], all, p, q, m);
      var b := TryLine(re, buf, p, q);
      if b {
        printed := printed + buf[p..q + 1];
      } else {
        assert printed + [] == printed;
      }
      p := q + 1;
      SliceTail(buf[..], all, p, m);
      q := Strchr(buf, p, m);
    }
  }

  /** What is left of all after printed gives the rest of its output, whatever follows. */
  ghost predicate SameOutput(re: string, all: string, printed: string, rest: string) {
    forall more :: Output(re, all + more) == printed + Output(re, rest + more)
  }

  lemma AnyOutput(re: string, all: string)
    ensures SameOutput(re, all, [], all)
  {
  }

  lemma {:induction false} OneLine(re: string, all: string, printed: string, rest: string)
    requires SameOutput(re, all, printed, rest) && 0 <= Newline(rest) < |rest| < BUFSIZE
    ensures var q := Newline(rest);
            SameOutput(re, all, printed + (if Matches(re, rest[..q]) then rest[..q + 1] else []), rest[q + 1..])
  {
    hide Matches, Newline;
    var q := Newline(rest);
    var line := if Matches(re, rest[..q]) then rest[..q + 1] else [];
    forall more ensures Output(re, all + more) == printed + line + Output(re, rest[q + 1..] + more) {
      NewlinePrefix(rest, more);
      var u := rest + more;
      assert u[..q] == rest[..q] && u[..q + 1] == rest[..q + 1] && u[q + 1..] == rest[q + 1..] + more;
      assert Output(re, u) == line + Output(re, u[q + 1..]);
    }
  }

  // ---- The whole file ------------------------------------------------------------------------------

  /** How many bytes a read of size request may bring when left are left. */
  function ReadSize(request: nat, left: nat, hint: nat): (n: nat)
    ensures n <= request && n <= left && (n == 0 <==> request == 0 || left == 0)
  {
    if hint + 1 <= request && hint + 1 <= left then hint + 1 else if request <= left then request else left
  }

  /** Nothing more can come of a buffer that is full, or of the end of the file. */
  lemma {:induction false} Stuck(re: string, held: string, left: string)
    requires Newline(held) < 0 && (|held| == BUFSIZE - 1 || left == [])
    ensures Output(re, held + left) == []
  {
    NoNewline(held, left);
    if left == [] {
      assert held + left == held;
    }
  }

  /** grep on one file, however its reads are cut up: the output is the matching lines. */
  method GrepFile(re: string, input: string, sizes: seq<nat>) returns (out: string)
    ensures out == Output(re, input)
  {
    hide Output, Newline, SameOutput;
    var buf := new char[BUFSIZE];
    var m, pos, j := 0, 0, 0;
    out := [];
    StartEmpty(re, input, buf[..0]);
    while true
      invariant 0 <= m < BUFSIZE && 0 <= pos <= |input| && Newline(buf[..m]) < 0
      invariant out + Output(re, buf[..m] + input[pos..]) == Output(re, input)
      decreases |input| - pos
    {
      var n := ReadSize(BUFSIZE - m - 1, |input| - pos, if j < |sizes| then sizes[j] else 0);
      j := j + 1;
      if n == 0 { break; }
      ghost var held := buf[..m];
      Fill(buf, m, input, pos, n);
      m, pos := m + n, pos + n;
      assert held + input[pos - n..] == buf[..m] + input[pos..];
      ghost var all := buf[..m];
      var p, printed := PrintLines(re, buf, m);
      Joined(re, all, printed, buf[p..m], input[pos..], out);
      out := out + printed;
      ghost var rest := buf[p..m];
      Memmove(buf, p, m);
      m := m - p;
      assert buf[..m] == rest;
    }
    Stuck(re, buf[..m], input[pos..]);
    assert out + [] == out;
  }

  lemma StartEmpty(re: string, input: string, u: string)
    requires u == []
    ensures Newline(u) < 0 && u + input[0..] == input
  {
  }

  lemma {:induction false} Joined(re: string, all: string, printed: string, rest: string, more: string, out: string)
    requires SameOutput(re, all, printed, rest)
    ensures out + Output(re, all + more) == out + printed + Output(re, rest + more)
  {
    assert Output(re, all + more) == printed + Output(re, rest + more);
  }

  /** read: n bytes of the file to buf + m, and the NUL after them. */
  method Fill(buf: array<char>, m: nat, input: string, pos: nat, n: nat)
    requires m + n < buf.Length && pos + n <= |input|
    modifies buf
    ensures buf[..m + n] == old(buf[..m]) + input[pos..pos + n] && buf[m + n] == NUL
  {
    var i := 0;
    while i < n
      invariant 0 <= i <= n && buf[..m + i] == old(buf[..m]) + input[pos..pos + i]
    {
      buf[m + i] := input[pos + i];
      assert buf[..m + i + 1] == buf[..m + i] + [input[pos + i]];
      assert input[pos..pos + i + 1] == input[pos..pos + i] + [input[pos + i]];
      i := i + 1;
    }
    buf[m + n] := NUL;
    assert buf[..m + n] == old(buf[..m]) + input[pos..pos + n];
  }

  /** memmove(buf, buf + p, m - p). */
  method Memmove(buf: array<char>, p: nat, m: nat)
    requires p <= m <= buf.Length
    modifies buf
    ensures buf[..m - p] == old(buf[p..m])
  {
    var i := 0;
    while i < m - p
      invariant 0 <= i <= m - p
      invariant forall k: nat :: k < i ==> buf[k] == old(buf[p + k])
      invariant forall k: nat :: p + i <= k < m ==> buf[k] == old(buf[k])
    {
      buf[i] := buf[p + i];
      i := i + 1;
    }
  }

  // ---- Against lines -------------------------------------------------------------------------------

  /** The newline-terminated lines of cur + u, where cur is the start of a line. */
  function Lines(cur: string, u: string): seq<string>
    decreases |u|
  {
    if u == [] then []
    else if u[0] == '\n' then [cur] + Lines([], u[1..])
    else Lines(cur + [u[0]], u[1..])
  }

  /** Those that match, each with its newline. */
  ghost function Printed(re: string, lines: seq<string>): string {
    if lines == [] then [] else (if Matches(re, lines[0]) then lines[0] + ['\n'] else []) + Printed(re, lines[1..])
  }

  /** The lines before the first one that has a NUL in it or does not fit into the buffer
      with its newline. */
  function Good(lines: seq<string>): (r: seq<string>)
    ensures |r| <= |lines| && forall i :: 0 <= i < |r| ==> r[i] == lines[i] && NUL !in r[i] && |r[i]| + 1 <= BUFSIZE - 1
    ensures |r| < |lines| ==> NUL in lines[|r|] || |lines[|r|]| + 1 > BUFSIZE - 1
  {
    if lines == [] || NUL in lines[0] || |lines[0]| + 1 > BUFSIZE - 1 then [] else [lines[0]] + Good(lines[1..])
  }

  /** The first line ends at the newline that is found; if none is, there is no line, or
      the first one has a NUL in it. */
  lemma {:induction false} FirstLine(cur: string, u: string)
    ensures var q := Newline(u);
            q >= 0 ==> q < |u| && Lines(cur, u) == [cur + u[..q]] + Lines([], u[q + 1..])
    ensures Newline(u) < 0 && NUL !in u ==> Lines(cur, u) == []
    ensures Newline(u) < 0 && NUL in u ==> Lines(cur, u) == [] || NUL in Lines(cur, u)[0]
    decreases |u|
  {
    if u != [] {
      if u[0] == '\n' {
        assert cur + u[..0] == cur;
      } else if u[0] == NUL {
        LineKeeps(cur + [u[0]], u[1..], NUL);
      } else {
        FirstLine(cur + [u[0]], u[1..]);
        var q := Newline(u[1..]);
        assert u == [u[0]] + u[1..];
        if q >= 0 {
          assert cur + [u[0]] + u[1..][..q] == cur + u[..q + 1];
          assert u[1..][q + 1..] == u[q + 2..];
        }
      }
    }
  }

  lemma {:induction false} LineKeeps(cur: string, u: string, c: char)
    requires c in cur
    ensures Lines(cur, u) == [] || c in Lines(cur, u)[0]
    decreases |u|
  {
    if u != [] && u[0] != '\n' {
      LineKeeps(cur + [u[0]], u[1..], c);
    }
  }

  /** grep prints the matching ones among the lines before the first that has a NUL in it
      or is too long for the buffer, whatever the text. */
  lemma {:induction false} OutputIsMatchingLines(re: string, u: string)
    ensures Output(re, u) == Printed(re, Good(Lines([], u)))
    decreases |u|
  {
    hide Matches;
    FirstLine([], u);
    NewlineAt(u);
    var q, ls := Newline(u), Lines([], u);
    if q >= 0 {
      assert [] + u[..q] == u[..q] && ls[0] == u[..q] && ls[1..] == Lines([], u[q + 1..]);
      assert u[..q + 1] == u[..q] + ['\n'];
      assert NUL !in ls[0];
      OutputIsMatchingLines(re, u[q + 1..]);
      GoodPrinted(re, ls);
    }
  }

  lemma {:induction false} GoodPrinted(re: string, lines: seq<string>)
    requires lines != []
    ensures NUL in lines[0] || |lines[0]| + 1 > BUFSIZE - 1 ==> Printed(re, Good(lines)) == []
    ensures !(NUL in lines[0] || |lines[0]| + 1 > BUFSIZE - 1) ==>
              Printed(re, Good(lines))
              == (if Matches(re, lines[0]) then lines[0] + ['\n'] else []) + Printed(re, Good(lines[1..]))
  {
    hide Matches;
    assert ([lines[0]] + Good(lines[1..]))[1..] == Good(lines[1..]);
  }

  /** All matching lines are printed exactly if none of them comes at or after the first
      line with a NUL or without room in the buffer. */
  lemma {:induction false} AllPrintedIff(re: string, u: string)
    ensures var ls := Lines([], u);
            Output(re, u) == Printed(re, ls) <==> forall i :: |Good(ls)| <= i < |ls| ==> !Matches(re, ls[i])
  {
    hide Matches, Good;
    var ls := Lines([], u);
    var n := |Good(ls)|;
    OutputIsMatchingLines(re, u);
    assert Good(ls) == ls[..n];
    PrintedSplit(re, ls, n);
    NothingPrintedIff(re, ls[n..]);
    forall i | 0 <= i < |ls[n..]| ensures ls[n..][i] == ls[n + i] {
    }
    if forall i :: 0 <= i < |ls[n..]| ==> !Matches(re, ls[n..][i]) {
      forall i | n <= i < |ls| ensures !Matches(re, ls[i]) {
        assert ls[i] == ls[n..][i - n];
      }
    }
  }

  lemma {:induction false} PrintedSplit(re: string, lines: seq<string>, n: nat)
    requires n <= |lines|
    ensures Printed(re, lines) == Printed(re, lines[..n]) + Printed(re, lines[n..])
    decreases n
  {
    hide Matches;
    if n == 0 {
      assert lines[..0] == [] && lines[0..] == lines;
    } else {
      PrintedSplit(re, lines[1..], n - 1);
      assert lines[..n][1..] == lines[1..][..n - 1] && lines[n..] == lines[1..][n - 1..];
    }
  }

  lemma {:induction false} NothingPrintedIff(re: string, lines: seq<string>)
    ensures Printed(re, lines) == [] <==> forall i :: 0 <= i < |lines| ==> !Matches(re, lines[i])
    decreases |lines|
  {
    hide Matches;
    if lines != [] {
      NothingPrintedIff(re, lines[1..]);
      forall i | 1 <= i < |lines| ensures lines[i] == lines[1..][i - 1] {
      }
    }
  }

  /** A line that holds a NUL hides every line after it. */
  lemma {:induction false} NulHidesTheRest(re: string, rest: string)
    ensures Output(re, [NUL, '\n'] + rest) == []
    ensures Lines([], [NUL, '\n'] + rest) == [[NUL]] + Lines([], rest)
  {
    hide Matches;
    var u := [NUL, '\n'] + rest;
    assert u[1..] == ['\n'] + rest && u[1..][1..] == rest;
    assert [] + [NUL] == [NUL];
  }
}
