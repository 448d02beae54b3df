/** The parser of sh.c does not tell `>>` from `>`: a line with an append redirection parses
    to the same tree, span for span and mode for mode, as the line with the second `>` blanked
    out. */
module ShellAppend {
  import opened ShellParser

  /** An append token starts at q. */
  predicate AppendAt(b: string, q: nat) {
    q + 1 < |b| && b[q] == '>' && b[q + 1] == '>' && (q == 0 || b[q - 1] != '>')
  }

  function Blanked(b: string, q: nat): string
    requires AppendAt(b, q)
  {
    b[q + 1 := ' ']
  }

  lemma {:induction false} SkipSame(b: string, q: nat, s: nat)
    requires AppendAt(b, q) && s <= |b| && s != q + 1
    ensures Skip(Blanked(b, q), s) == Skip(b, s) && Skip(b, s) != q + 1
    decreases |b| - s
  {
    if s < |b| && IsSpace(b[s]) {
      SkipSame(b, q, s + 1);
    }
  }

  /** In the blanked line the blank is skipped. */
  lemma SkipBlank(b: string, q: nat)
    requires AppendAt(b, q)
    ensures Skip(Blanked(b, q), q + 1) == Skip(b, q + 2)
  {
    SkipSame(b, q, q + 2);
  }

  lemma {:induction false} WordEndSame(b: string, q: nat, s: nat)
    requires AppendAt(b, q) && s <= |b| && s != q + 1
    ensures WordEnd(Blanked(b, q), s) == WordEnd(b, s) && WordEnd(b, s) != q + 1
    decreases |b| - s
  {
    if s < |b| && !IsSpace(b[s]) && !IsSymbol(b[s]) {
      WordEndSame(b, q, s + 1);
    }
  }

  /** Both lines have the same tokens, but for the kind and the end of the one at q. */
  lemma TokenSame(b: string, q: nat, s: nat)
    requires AppendAt(b, q) && s <= |b| && s != q + 1
    ensures var t, u := GetToken(b, s), GetToken(Blanked(b, q), s);
            && t.q == u.q && t.next == u.next && t.next != q + 1
            && ((t.tok == u.tok && t.eq == u.eq) || (t.tok == Append && u.tok == Symbol('>')))
    ensures forall toks: string :: Sees(b, s, toks) == Sees(Blanked(b, q), s, toks)
  {
    SkipSame(b, q, s);
    var p := Skip(b, s);
    WordEndSame(b, q, p);
    hide Skip;
    hide WordEnd;
    assert Blanked(b, q)[p..] == b[p..] || p <= q;
    if p == q {
      SkipBlank(b, q);
      SkipSame(b, q, q + 2);
    } else {
      assert Lex(Blanked(b, q), p) == Lex(b, p);
      SkipSame(b, q, Lex(b, p).1);
    }
  }

  /** What peek sees gettoken consumes. */
  lemma SeesMoves(b: string, s: nat, toks: string)
    requires s <= |b| && Sees(b, s, toks)
    ensures s < GetToken(b, s).next
  {
  }

  /** parseredirs makes the same of both tokens. */
  lemma SameRedirect(c: Cmd)
    ensures forall f :: Redirected(c, f, Append) == Redirected(c, f, Symbol('>'))
  {
  }

  lemma {:induction false} RedirsSame(b: string, q: nat, s: nat, c: Cmd)
    requires AppendAt(b, q) && s <= |b| && s != q + 1
    ensures ParseRedirs(Blanked(b, q), s, c) == ParseRedirs(b, s, c)
    ensures ParseRedirs(b, s, c).Ok? ==> ParseRedirs(b, s, c).s != q + 1
    decreases |b| - s
  {
    hide GetToken;
    hide Sees;
    hide Skip;
    SameRedirect(c);
    hide Redirected;
    TokenSame(b, q, s);
    SkipSame(b, q, s);
    if Sees(b, s, "<>") {
      var t := GetToken(b, s);
      TokenSame(b, q, t.next);
      var f := GetToken(b, t.next);
      if f.tok == Word {
        RedirsSame(b, q, f.next, Redirected(c, Span(f.q, f.eq), t.tok));
      }
    }
  }

  lemma {:induction false} ArgsSame(b: string, q: nat, s: nat, c: Cmd)
    requires AppendAt(b, q) && s <= |b| && s != q + 1
    ensures ParseArgs(Blanked(b, q), s, c) == ParseArgs(b, s, c)
    ensures ParseArgs(b, s, c).Ok? ==> ParseArgs(b, s, c).s != q + 1
    decreases |b| - s
  {
    hide GetToken;
    hide Sees;
    hide Skip;
    hide AddArg;
    hide Argc;
    hide ParseRedirs;
    TokenSame(b, q, s);
    SkipSame(b, q, s);
    var t := GetToken(b, s);
    if !Sees(b, s, "|)&;") && t.tok == Word {
      var d := AddArg(c, Span(t.q, t.eq));
      RedirsSame(b, q, t.next, d);
      var r := ParseRedirs(b, t.next, d);
      if r.Ok? {
        ArgsSame(b, q, r.s, r.cmd);
      }
    }
  }

  lemma {:induction false} BacksSame(b: string, q: nat, s: nat, c: Cmd)
    requires AppendAt(b, q) && s <= |b| && s != q + 1
    ensures ParseBacks(Blanked(b, q), s, c) == ParseBacks(b, s, c) && ParseBacks(b, s, c).1 != q + 1
    decreases |b| - s
  {
    hide GetToken;
    hide Sees;
    TokenSame(b, q, s);
    SkipSame(b, q, s);
    if Sees(b, s, "&") {
      SeesMoves(b, s, "&");
      BacksSame(b, q, GetToken(b, s).next, Back(c));
    }
  }

  lemma {:induction false} LineSame(b: string, q: nat, s: nat)
    requires AppendAt(b, q) && s <= |b| && s != q + 1
    ensures ParseLine(Blanked(b, q), s) == ParseLine(b, s)
    ensures ParseLine(b, s).Ok? ==> ParseLine(b, s).s != q + 1
    decreases |b| - s, 3
  {
    hide GetToken;
    hide Sees;
    hide ParsePipe;
    hide ParseBacks;
    PipeSame(b, q, s);
    var r := ParsePipe(b, s);
    if r.Ok? {
      BacksSame(b, q, r.s, r.cmd);
      var s2 := ParseBacks(b, r.s, r.cmd).1;
      TokenSame(b, q, s2);
      if Sees(b, s2, ";") {
        SeesMoves(b, s2, ";");
        LineSame(b, q, GetToken(b, s2).next);
      }
    }
  }

  lemma {:induction false} PipeSame(b: string, q: nat, s: nat)
    requires AppendAt(b, q) && s <= |b| && s != q + 1
    ensures ParsePipe(Blanked(b, q), s) == ParsePipe(b, s)
    ensures ParsePipe(b, s).Ok? ==> ParsePipe(b, s).s != q + 1
    decreases |b| - s, 2
  {
    hide GetToken;
    hide Sees;
    hide ParseExec;
    hide Skip;
    ExecSame(b, q, s);
    var r := ParseExec(b, s);
    if r.Ok? {
      TokenSame(b, q, r.s);
      SkipSame(b, q, r.s);
      if Sees(b, r.s, "|") {
        SeesMoves(b, r.s, "|");
        PipeSame(b, q, GetToken(b, r.s).next);
      }
    }
  }

  lemma {:induction false} ExecSame(b: string, q: nat, s: nat)
    requires AppendAt(b, q) && s <= |b| && s != q + 1
    ensures ParseExec(Blanked(b, q), s) == ParseExec(b, s)
    ensures ParseExec(b, s).Ok? ==> ParseExec(b, s).s != q + 1
    decreases |b| - s, 1
  {
    hide GetToken;
    hide Sees;
    TokenSame(b, q, s);
    if Sees(b, s, "(") {
      BlockSame(b, q, s);
    } else {
      RedirsSame(b, q, s, Exec([]));
      var r := ParseRedirs(b, s, Exec([]));
      if r.Ok? {
        ArgsSame(b, q, r.s, r.cmd);
      }
    }
  }

  lemma {:induction false} BlockSame(b: string, q: nat, s: nat)
    requires AppendAt(b, q) && s <= |b| && s != q + 1
    ensures ParseBlock(Blanked(b, q), s) == ParseBlock(b, s)
    ensures ParseBlock(b, s).Ok? ==> ParseBlock(b, s).s != q + 1
    decreases |b| - s, 0
  {
    hide GetToken;
    hide Sees;
    TokenSame(b, q, s);
    if Sees(b, s, "(") {
      SeesMoves(b, s, "(");
      var n := GetToken(b, s).next;
      LineSame(b, q, n);
      var r := ParseLine(b, n);
      if r.Ok? {
        TokenSame(b, q, r.s);
        if Sees(b, r.s, ")") {
          RedirsSame(b, q, GetToken(b, r.s).next, r.cmd);
        }
      }
    }
  }

  /** For every line and every append token in it, reading `> ` instead gives the same tree,
      open modes included, or the same panic. */
  lemma AppendIsOutput(b: string, q: nat)
    requires AppendAt(b, q)
    ensures ParseCmd(Blanked(b, q)) == ParseCmd(b)
  {
    hide ParseLine;
    LineSame(b, q, 0);
    var r := ParseLine(b, 0);
    if r.Ok? {
      SkipSame(b, q, r.s);
    }
  }
}
