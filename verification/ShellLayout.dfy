/** What the shell's lexer does, without the lexer: a line is its tokens with white space
    between them, which may be left out where two tokens do not run into each other. */
module ShellLayout {
  import opened ShellSpec
  import opened ShellLex

  const WHITE: string := " \t\r\n" + [11 as char]
  const SYMBOLS: string := "<|>&;()"

  predicate Blank(g: string) {
    forall k :: 0 <= k < |g| ==> g[k] in WHITE
  }

  /** A word has neither white space nor symbols in it; + stands for >>. */
  predicate Proper(t: Tok<string>) {
    if t.Word? then t.w != [] && forall k :: 0 <= k < |t.w| ==> t.w[k] !in WHITE && t.w[k] !in SYMBOLS
    else t.c in SYMBOLS || t.c == '+'
  }

  predicate MayTouch(a: Tok<string>, b: Tok<string>) {
    if a.Word? then b.Sym? else !(a.c == '>' && b.Sym? && (b.c == '>' || b.c == '+'))
  }

  /** Tokens as text, each with its gap after it. */
  function Laid(ts: seq<Tok<string>>, gaps: seq<string>): string
    requires |gaps| == |ts|
  {
    if ts == [] then [] else ShowTok(ts[0]) + gaps[0] + Laid(ts[1..], gaps[1..])
  }

  ghost predicate Layout(ts: seq<Tok<string>>, gaps: seq<string>) {
    && |gaps| == |ts|
    && (forall k :: 0 <= k < |ts| ==> Proper(ts[k]) && Blank(gaps[k]))
    && (forall k: nat :: k < |ts| - 1 && gaps[k] == [] ==> MayTouch(ts[k], ts[k + 1]))
  }

  ghost predicate IsLine(s: string, lead: string, ts: seq<Tok<string>>, gaps: seq<string>) {
    Blank(lead) && Layout(ts, gaps) && s == lead + Laid(ts, gaps)
  }

  // ---- Every layout is cut up into its tokens ----------------------------------------------------------

  lemma CharKinds(c: char)
    ensures IsSpace(c) <==> c in WHITE
    ensures IsSymbol(c) <==> c in SYMBOLS
    ensures !(c in WHITE && c in SYMBOLS)
  {
  }

  lemma {:induction false} ProperIsOk(t: Tok<string>)
    requires Proper(t)
    ensures TokOk(t) && ShowTok(t) != [] && ShowTok(t)[0] !in WHITE
    ensures t.Word? ==> IsWordChar(ShowTok(t)[0])
    ensures t.Sym? ==> IsSymbol(ShowTok(t)[0]) && (ShowTok(t)[0] == '>' <==> t.c == '>' || t.c == '+')
  {
    hide IsSpace, IsSymbol;
    if t.Word? {
      forall k | 0 <= k < |t.w| ensures IsWordChar(t.w[k]) {
        CharKinds(t.w[k]);
      }
    } else {
      CharKinds(t.c);
      CharKinds('>');
      assert '>' in SYMBOLS;
    }
  }

  lemma {:induction false} SkipBlank(s: string, i: nat, n: nat)
    requires i <= n <= |s| && Blank(s[i..n])
    ensures Lex(s, i) == Lex(s, n)
    decreases n - i
  {
    hide IsSpace, Lex;
    if i < n {
      assert s[i..n][0] == s[i] && s[i..n][1..] == s[i + 1..n];
      CharKinds(s[i]);
      SkipBlank(s, i + 1, n);
      LexSkips(s, i);
    }
  }

  lemma LexSkips(s: string, i: nat)
    requires i < |s| && IsSpace(s[i])
    ensures Lex(s, i) == Lex(s, i + 1)
  {
    assert Skip(s, i) == Skip(s, i + 1);
  }

  /** Nothing that follows could belong to the token that ends at n. */
  predicate Over(t: Tok<string>, s: string, n: nat) {
    n >= |s| || if t.Word? then !IsWordChar(s[n]) else !(t.c == '>' && s[n] == '>')
  }

  lemma {:induction false} WordEndsAt(s: string, i: nat, n: nat)
    requires i <= n <= |s| && (n < |s| ==> !IsWordChar(s[n])) && forall k: nat :: i <= k < n ==> IsWordChar(s[k])
    ensures WordEnd(s, i) == n
    decreases n - i
  {
    if i < n {
      WordEndsAt(s, i + 1, n);
    }
  }

  lemma {:induction false} FirstToken(s: string, i: nat, t: Tok<string>)
    requires TokOk(t) && i + |ShowTok(t)| <= |s| && s[i..i + |ShowTok(t)|] == ShowTok(t)
    requires Over(t, s, i + |ShowTok(t)|)
    ensures i < |s| && !IsSpace(s[i]) && TextTok(s, TokenAt(s, i)) == t && TokenEnd(s, i) == i + |ShowTok(t)|
  {
    var n := i + |ShowTok(t)|;
    assert forall k: nat :: i <= k < n ==> s[k] == ShowTok(t)[k - i];
    if t.Word? {
      WordEndsAt(s, i, n);
    }
  }

  lemma {:induction false} LaidFirst(s: string, i: nat, ts: seq<Tok<string>>, gaps: seq<string>)
    requires i <= |s| && |gaps| == |ts| && ts != [] && s[i..] == Laid(ts, gaps)
    ensures var n := i + |ShowTok(ts[0])|; var m := n + |gaps[0]|;
            && m <= |s| && s[i..n] == ShowTok(ts[0]) && s[n..m] == gaps[0] && s[m..] == Laid(ts[1..], gaps[1..])
  {
    hide ShowTok;
    var a, g, more := ShowTok(ts[0]), gaps[0], Laid(ts[1..], gaps[1..]);
    var n := i + |a|;
    var m := n + |g|;
    assert s[i..] == a + g + more;
    assert s[i..n] == s[i..][..|a|] && s[n..m] == s[i..][|a|..|a| + |g|] && s[m..] == s[i..][|a| + |g|..];
  }

  /** What follows a token of a layout ends it. */
  lemma {:induction false} TokenIsOver(s: string, i: nat, ts: seq<Tok<string>>, gaps: seq<string>)
    requires i <= |s| && Layout(ts, gaps) && ts != [] && s[i..] == Laid(ts, gaps)
    ensures i + |ShowTok(ts[0])| <= |s| && Over(ts[0], s, i + |ShowTok(ts[0])|)
  {
    hide ShowTok, IsSpace, IsSymbol, TokOk;
    LaidFirst(s, i, ts, gaps);
    var n := i + |ShowTok(ts[0])|;
    var m := n + |gaps[0]|;
    assert Proper(ts[0]) && Blank(gaps[0]);
    ProperIsOk(ts[0]);
    if gaps[0] != [] {
      assert s[n] == gaps[0][0];
      CharKinds(s[n]);
      CharKinds('>');
      assert '>' in SYMBOLS;
    } else if |ts| > 1 {
      assert MayTouch(ts[0], ts[1]) && Proper(ts[1]);
      ProperIsOk(ts[1]);
      LaidFirst(s, n, ts[1..], gaps[1..]);
      assert s[n..n + |ShowTok(ts[1])|][0] == s[n];
    }
  }

  lemma {:induction false} LexLaid(s: string, i: nat, ts: seq<Tok<string>>, gaps: seq<string>)
    requires i <= |s| && Layout(ts, gaps) && s[i..] == Laid(ts, gaps)
    ensures TextToks(s, Lex(s, i)) == ts
    decreases |ts|
  {
    hide TokenAt, TokenEnd, ShowTok, TokOk, TextTok, Over, Proper, MayTouch, Blank;
    if ts == [] {
      assert i == |s|;
    } else {
      LaidFirst(s, i, ts, gaps);
      TokenIsOver(s, i, ts, gaps);
      ProperIsOk(ts[0]);
      FirstToken(s, i, ts[0]);
      LexStep(s, i);
      var n := i + |ShowTok(ts[0])|;
      var m := n + |gaps[0]|;
      SkipBlank(s, n, m);
      RestLayout(ts, gaps);
      LexLaid(s, m, ts[1..], gaps[1..]);
      TextFirst(s, TokenAt(s, i), Lex(s, n));
      assert ts == [ts[0]] + ts[1..];
    }
  }

  lemma {:induction false} RestLayout(ts: seq<Tok<string>>, gaps: seq<string>)
    requires Layout(ts, gaps) && ts != []
    ensures Layout(ts[1..], gaps[1..])
  {
    hide Proper, MayTouch, Blank;
    forall k: nat | k < |ts[1..]| - 1 && gaps[1..][k] == [] ensures MayTouch(ts[1..][k], ts[1..][k + 1]) {
      assert gaps[k + 1] == [];
    }
  }

  // ---- Every line is a layout of its tokens ----------------------------------------------------------------

  lemma {:induction false} SkipIsBlank(s: string, i: nat)
    requires i <= |s|
    ensures Blank(s[i..Skip(s, i)])
    decreases |s| - i
  {
    hide IsSpace;
    if i < |s| && IsSpace(s[i]) {
      SkipIsBlank(s, i + 1);
      CharKinds(s[i]);
      assert s[i..Skip(s, i)] == [s[i]] + s[i + 1..Skip(s, i)];
    } else {
      assert s[i..i] == [];
    }
  }

  /** The token at i: proper, shown as it stands there, and over where the next begins. */
  lemma {:induction false} TokenStands(s: string, i: nat)
    requires i < |s| && !IsSpace(s[i])
    ensures var t, e := TextTok(s, TokenAt(s, i)), TokenEnd(s, i);
            Proper(t) && s[i..e] == ShowTok(t) && Over(t, s, e)
  {
    hide IsSpace, IsSymbol;
    CharKinds(s[i]);
    if s[i] == '>' && i + 1 < |s| && s[i + 1] == '>' {
      assert s[i..i + 2] == ">>";
    } else if IsSymbol(s[i]) {
      assert s[i..i + 1] == [s[i]];
      assert s[i] != '+' by { CharKinds('+'); PlusIsNoSymbol(); }
    } else {
      var e := WordEnd(s, i);
      forall k | 0 <= k < e - i ensures s[i..e][k] !in WHITE && s[i..e][k] !in SYMBOLS {
        CharKinds(s[i + k]);
        assert s[i..e][k] == s[i + k];
      }
    }
  }

  lemma PlusIsNoSymbol()
    ensures !IsSymbol('+')
  {
  }

  lemma {:induction false} OverMayTouch(s: string, e: nat, t: Tok<string>, u: Tok<string>)
    requires Proper(t) && Proper(u) && Over(t, s, e) && e + |ShowTok(u)| <= |s| && s[e..e + |ShowTok(u)|] == ShowTok(u)
    ensures MayTouch(t, u)
  {
    hide TokOk, ShowTok, IsSpace, IsSymbol, Proper;
    ProperIsOk(u);
    assert s[e] == s[e..e + |ShowTok(u)|][0];
  }

  lemma {:induction false} LineIsLaid(s: string, i: nat) returns (lead: string, gaps: seq<string>)
    requires i <= |s|
    ensures IsLine(s[i..], lead, TextToks(s, Lex(s, i)), gaps)
    decreases |s| - i
  {
    hide TokenAt, TokenEnd, TextTok, Skip, Proper, Over, MayTouch, Blank, IsSpace;
    var j := Skip(s, i);
    SkipIsBlank(s, i);
    lead := s[i..j];
    if j == |s| {
      gaps := [];
      assert Lex(s, i) == [];
      assert s[i..] == lead + [];
    } else {
      var t, e := TokenAt(s, j), TokenEnd(s, j);
      TokenStands(s, j);
      var gap, more := LineIsLaid(s, e);
      gaps := [gap] + more;
      assert Lex(s, i) == [t] + Lex(s, e);
      TextFirst(s, t, Lex(s, e));
      OneMoreToken(s, i, j, e, TextTok(s, t), gap, TextToks(s, Lex(s, e)), more);
    }
  }

  lemma {:induction false} OneMoreToken(s: string, i: nat, j: nat, e: nat, t: Tok<string>, gap: string,
                                        ts: seq<Tok<string>>, gaps: seq<string>)
    requires i <= j <= e <= |s| && Blank(s[i..j]) && Proper(t) && s[j..e] == ShowTok(t) && Over(t, s, e)
    requires IsLine(s[e..], gap, ts, gaps)
    ensures IsLine(s[i..], s[i..j], [t] + ts, [gap] + gaps)
  {
    hide Proper, MayTouch, Blank, Over, ShowTok, Laid;
    OneMoreGap(s, e, t, gap, ts, gaps);
    assert s[i..] == s[i..j] + (s[j..e] + s[e..]);
    assert s[j..e] + s[e..] == ShowTok(t) + gap + Laid(ts, gaps);
  }

  lemma {:induction false} OneMoreGap(s: string, e: nat, t: Tok<string>, gap: string, ts: seq<Tok<string>>,
                                      gaps: seq<string>)
    requires e <= |s| && Proper(t) && Over(t, s, e) && IsLine(s[e..], gap, ts, gaps)
    ensures Layout([t] + ts, [gap] + gaps)
    ensures Laid([t] + ts, [gap] + gaps) == ShowTok(t) + gap + Laid(ts, gaps)
  {
    hide Proper, MayTouch, Blank, Over, ShowTok;
    var us, hs := [t] + ts, [gap] + gaps;
    assert us[1..] == ts && hs[1..] == gaps;
    forall k: nat | k < |us| - 1 && hs[k] == [] ensures MayTouch(us[k], us[k + 1]) {
      if k == 0 {
        assert s[e..] == Laid(ts, gaps);
        LaidFirst(s, e, ts, gaps);
        OverMayTouch(s, e, t, ts[0]);
      } else {
        assert gaps[k - 1] == [];
      }
    }
  }

  /** The lexer gives the tokens ts exactly if the line is a layout of ts: white space, then
      the tokens, with white space between any two that would run into each other. */
  lemma {:induction false} LexIsLayout(s: string, ts: seq<Tok<string>>)
    ensures TextToks(s, Lex(s, 0)) == ts <==> exists lead, gaps :: IsLine(s, lead, ts, gaps)
  {
    hide Lex, TextToks, Layout, Laid, Blank;
    var lead, gaps := LineIsLaid(s, 0);
    assert s[0..] == s;
    if exists lead, gaps :: IsLine(s, lead, ts, gaps) {
      var front, after :| IsLine(s, front, ts, after);
      IsLineLexes(s, front, ts, after);
    }
  }

  lemma {:induction false} IsLineLexes(s: string, lead: string, ts: seq<Tok<string>>, gaps: seq<string>)
    requires IsLine(s, lead, ts, gaps)
    ensures TextToks(s, Lex(s, 0)) == ts
  {
    hide Lex, TextToks, Blank, Proper, MayTouch;
    var n := |lead|;
    assert s[0..n] == lead && s[n..] == Laid(ts, gaps);
    SkipBlank(s, 0, n);
    LexLaid(s, n, ts, gaps);
  }
}
