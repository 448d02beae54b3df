/** What a parsed command points to: every span is one whole word, and once nulterminate has
    written its NULs every word reads back as exactly its span. */
module ShellBuffer {
  import opened ShellParser
  import opened ShellRoundTrip

  /** A maximal run of word characters. */
  ghost predicate IsToken(b: string, sp: Span) {
    && sp.q < sp.eq <= |b| && (forall k :: sp.q <= k < sp.eq ==> IsWordChar(b[k]))
    && (sp.eq < |b| ==> !IsWordChar(b[sp.eq]))
  }

  ghost predicate Spanned(b: string, c: Cmd) {
    match c
    case Exec(argv) => |argv| < MAXARGS && forall i :: 0 <= i < |argv| ==> IsToken(b, argv[i])
    case Redir(d, f, mode, fd) => Spanned(b, d) && IsToken(b, f) && fd < 2 && mode == ModeOf(fd)
    case Pipe(l, r) => Spanned(b, l) && Spanned(b, r)
    case List(l, r) => Spanned(b, l) && Spanned(b, r)
    case Back(d) => Spanned(b, d)
  }

  /** An execcmd under its redirections. */
  ghost predicate Simple(c: Cmd) {
    c.Exec? || (c.Redir? && Simple(c.cmd))
  }

  lemma WordIsToken(b: string, s: nat)
    requires NoNul(b) && s <= |b| && GetToken(b, s).tok == Word
    ensures var t := GetToken(b, s); IsToken(b, Span(t.q, t.eq))
  {
  }

  lemma RedirectedSpanned(b: string, c: Cmd, f: Span, tok: Tok)
    requires Spanned(b, c) && IsToken(b, f)
    ensures Spanned(b, Redirected(c, f, tok)) && Argc(Redirected(c, f, tok)) == Argc(c) && (Simple(c) ==> Simple(Redirected(c, f, tok)))
  {
  }

  lemma {:induction false} RedirsSpanned(b: string, s: nat, c: Cmd)
    requires NoNul(b) && s <= |b| && Spanned(b, c) && ParseRedirs(b, s, c).Ok?
    ensures Spanned(b, ParseRedirs(b, s, c).cmd) && Argc(ParseRedirs(b, s, c).cmd) == Argc(c)
    ensures Simple(c) ==> Simple(ParseRedirs(b, s, c).cmd)
    decreases |b| - s
  {
    hide GetToken;
    hide IsToken;
    hide Redirected;
    hide Spanned;
    if Sees(b, s, "<>") {
      var t := GetToken(b, s);
      var f := GetToken(b, t.next);
      WordIsToken(b, t.next);
      RedirectedSpanned(b, c, Span(f.q, f.eq), t.tok);
      RedirsSpanned(b, f.next, Redirected(c, Span(f.q, f.eq), t.tok));
    }
  }

  lemma {:induction false} AddArgSpanned(b: string, c: Cmd, a: Span)
    requires Spanned(b, c) && Simple(c) && IsToken(b, a) && Argc(c) + 1 < MAXARGS
    ensures Spanned(b, AddArg(c, a)) && Simple(AddArg(c, a)) && Argc(AddArg(c, a)) == Argc(c) + 1
  {
    hide IsToken;
    if c.Redir? {
      AddArgSpanned(b, c.cmd, a);
    }
  }

  lemma {:induction false} AddArgCount(c: Cmd, a: Span)
    requires Simple(c)
    ensures Argc(AddArg(c, a)) == Argc(c) + 1
  {
    if c.Redir? {
      AddArgCount(c.cmd, a);
    }
  }

  lemma {:induction false} ArgsSpanned(b: string, s: nat, c: Cmd)
    requires NoNul(b) && s <= |b| && Spanned(b, c) && Simple(c) && ParseArgs(b, s, c).Ok?
    ensures Spanned(b, ParseArgs(b, s, c).cmd)
    decreases |b| - s
  {
    hide GetToken;
    hide IsToken;
    hide ParseRedirs;
    var t := GetToken(b, s);
    if !Sees(b, s, "|)&;") && t.tok != End {
      WordIsToken(b, s);
      var a := Span(t.q, t.eq);
      AddArgCount(c, a);
      AddArgSpanned(b, c, a);
      RedirsSpanned(b, t.next, AddArg(c, a));
      var r := ParseRedirs(b, t.next, AddArg(c, a));
      ArgsSpanned(b, r.s, r.cmd);
    }
  }

  lemma {:induction false} BacksSpanned(b: string, s: nat, c: Cmd)
    requires s <= |b| && Spanned(b, c)
    ensures Spanned(b, ParseBacks(b, s, c).0)
    decreases |b| - s
  {
    if Sees(b, s, "&") {
      BacksSpanned(b, GetToken(b, s).next, Back(c));
    }
  }

  lemma {:induction false} LineSpanned(b: string, s: nat)
    requires NoNul(b) && s <= |b| && ParseLine(b, s).Ok?
    ensures Spanned(b, ParseLine(b, s).cmd)
    decreases |b| - s, 3
  {
    hide GetToken;
    hide ParsePipe;
    PipeSpanned(b, s);
    var p := ParsePipe(b, s);
    BacksSpanned(b, p.s, p.cmd);
    var (d, s2) := ParseBacks(b, p.s, p.cmd);
    if Sees(b, s2, ";") {
      LineSpanned(b, GetToken(b, s2).next);
    }
  }

  lemma {:induction false} PipeSpanned(b: string, s: nat)
    requires NoNul(b) && s <= |b| && ParsePipe(b, s).Ok?
    ensures Spanned(b, ParsePipe(b, s).cmd)
    decreases |b| - s, 2
  {
    hide GetToken;
    hide ParseExec;
    ExecSpanned(b, s);
    var p := ParseExec(b, s);
    if Sees(b, p.s, "|") {
      PipeSpanned(b, GetToken(b, p.s).next);
    }
  }

  lemma {:induction false} ExecSpanned(b: string, s: nat)
    requires NoNul(b) && s <= |b| && ParseExec(b, s).Ok?
    ensures Spanned(b, ParseExec(b, s).cmd)
    decreases |b| - s, 1
  {
    hide ParseBlock;
    hide ParseRedirs;
    hide ParseArgs;
    if Sees(b, s, "(") {
      BlockSpanned(b, s);
    } else {
      RedirsSpanned(b, s, Exec([]));
      var p := ParseRedirs(b, s, Exec([]));
      ArgsSpanned(b, p.s, p.cmd);
    }
  }

  lemma {:induction false} BlockSpanned(b: string, s: nat)
    requires NoNul(b) && s <= |b| && ParseBlock(b, s).Ok?
    ensures Spanned(b, ParseBlock(b, s).cmd)
    decreases |b| - s, 0
  {
    hide GetToken;
    hide ParseLine;
    hide ParseRedirs;
    var t := GetToken(b, s);
    LineSpanned(b, t.next);
    var p := ParseLine(b, t.next);
    RedirsSpanned(b, GetToken(b, p.s).next, p.cmd);
  }

  /** Every word of a parsed command is a whole token of the line, and every redirection opens
      its file for reading as descriptor 0, or for writing as descriptor 1. */
  lemma ParsedTokens(b: string)
    requires NoNul(b) && ParseCmd(b).Ok?
    ensures Spanned(b, ParseCmd(b).cmd)
  {
    hide ParseLine;
    LineSpanned(b, 0);
  }

  lemma {:induction false} SpannedGood(b: string, c: Cmd)
    requires Spanned(b, c)
    ensures Good(Text(b, c))
  {
    match c
    case Exec(argv) =>
      forall i | 0 <= i < |argv|
        ensures IsWord(TextOf(b, argv[i]))
      {
        assert IsToken(b, argv[i]);
      }
    case Redir(d, f, _, _) => SpannedGood(b, d);
    case Pipe(l, r) => SpannedGood(b, l); SpannedGood(b, r);
    case List(l, r) => SpannedGood(b, l); SpannedGood(b, r);
    case Back(d) => SpannedGood(b, d);
  }

  /** Whatever parses, its printed form parses to the same tree. */
  lemma ParsePrintParse(b: string) returns (c: Cmd)
    requires NoNul(b) && ParseCmd(b).Ok?
    ensures var t := Text(b, ParseCmd(b).cmd);
            ParseCmd(Print(t)) == Ok(c, |Print(t)|) && Text(Print(t), c) == t
  {
    hide ParseCmd;
    ParsedTokens(b);
    SpannedGood(b, ParseCmd(b).cmd);
    c := PrintThenParse(Text(b, ParseCmd(b).cmd));
  }

  // -------------------------------------------------------------------
  // nulterminate
  // -------------------------------------------------------------------

  function SpansOf(c: Cmd): set<Span> {
    match c
    case Exec(argv) => set i | 0 <= i < |argv| :: argv[i]
    case Redir(d, f, _, _) => SpansOf(d) + {f}
    case Pipe(l, r) => SpansOf(l) + SpansOf(r)
    case List(l, r) => SpansOf(l) + SpansOf(r)
    case Back(d) => SpansOf(d)
  }

  /** Position k is just past a word of c. */
  ghost predicate EndsAt(c: Cmd, k: nat) {
    exists sp :: sp in SpansOf(c) && sp.eq == k
  }

  /** The buffer after nulterminate: NULs past every word, all else as it was. */
  ghost predicate Terminated(before: seq<char>, c: Cmd, after: seq<char>) {
    |after| == |before| && forall k :: 0 <= k < |before| ==> after[k] == if EndsAt(c, k) then '\0' else before[k]
  }

  method Nulterminate(a: array<char>, c: Cmd)
    requires forall sp :: sp in SpansOf(c) ==> sp.eq < a.Length
    modifies a
    ensures Terminated(old(a[..]), c, a[..])
    decreases c
  {
    match c
    case Exec(argv) =>
      var i := 0;
      while i < |argv|
        invariant 0 <= i <= |argv|
        invariant Terminated(old(a[..]), Exec(argv[..i]), a[..])
      {
        assert argv[i] in SpansOf(c);
        ghost var before := a[..];
        a[argv[i].eq] := '\0';
        OneMoreArg(old(a[..]), argv, i, before, a[..]);
        i := i + 1;
      }
      assert argv[..i] == argv;
    case Redir(d, f, mode, fd) =>
      Nulterminate(a, d);
      ghost var mid := a[..];
      a[f.eq] := '\0';
      OneMoreFile(old(a[..]), c, mid, a[..]);
    case Pipe(l, r) =>
      Nulterminate(a, l);
      ghost var mid := a[..];
      Nulterminate(a, r);
      BothTerminated(old(a[..]), l, mid, r, a[..], c);
    case List(l, r) =>
      Nulterminate(a, l);
      ghost var mid := a[..];
      Nulterminate(a, r);
      BothTerminated(old(a[..]), l, mid, r, a[..], c);
    case Back(d) =>
      Nulterminate(a, d);
      assert SpansOf(d) == SpansOf(c);
  }

  lemma OneMoreArg(a0: seq<char>, argv: seq<Span>, i: nat, a1: seq<char>, a2: seq<char>)
    requires i < |argv| && Terminated(a0, Exec(argv[..i]), a1) && argv[i].eq < |a1| && a2 == a1[argv[i].eq := '\0']
    ensures Terminated(a0, Exec(argv[..i + 1]), a2)
  {
  }

  lemma OneMoreFile(a0: seq<char>, c: Cmd, a1: seq<char>, a2: seq<char>)
    requires c.Redir? && Terminated(a0, c.cmd, a1) && c.file.eq < |a1| && a2 == a1[c.file.eq := '\0']
    ensures Terminated(a0, c, a2)
  {
  }

  lemma BothTerminated(a0: seq<char>, l: Cmd, a1: seq<char>, r: Cmd, a2: seq<char>, c: Cmd)
    requires Terminated(a0, l, a1) && Terminated(a1, r, a2) && SpansOf(c) == SpansOf(l) + SpansOf(r)
    ensures Terminated(a0, c, a2)
  {
  }

  /** The C string at q. */
  function CString(a: seq<char>, q: nat): string
    decreases |a| - q
  {
    if q < |a| && a[q] != '\0' then [a[q]] + CString(a, q + 1) else ""
  }

  lemma {:induction false} CStringIs(a: seq<char>, q: nat, eq: nat)
    requires q <= eq < |a| && a[eq] == '\0' && forall k :: q <= k < eq ==> a[k] != '\0'
    ensures CString(a, q) == a[q..eq]
    decreases eq - q
  {
    if q < eq {
      CStringIs(a, q + 1, eq);
      assert a[q..eq] == [a[q]] + a[q + 1..eq];
    }
  }

  lemma {:induction false} SpansAreTokens(b: string, c: Cmd, sp: Span)
    requires Spanned(b, c) && sp in SpansOf(c)
    ensures IsToken(b, sp)
  {
    match c
    case Exec(argv) =>
    case Redir(d, f, _, _) => if sp in SpansOf(d) { SpansAreTokens(b, d, sp); }
    case Pipe(l, r) => if sp in SpansOf(l) { SpansAreTokens(b, l, sp); } else { SpansAreTokens(b, r, sp); }
    case List(l, r) => if sp in SpansOf(l) { SpansAreTokens(b, l, sp); } else { SpansAreTokens(b, r, sp); }
    case Back(d) => SpansAreTokens(b, d, sp);
  }

  /** After nulterminate every argv and redirection file reads back as its token. */
  lemma WordsReadBack(b: string, c: Cmd, a: seq<char>, sp: Span)
    requires NoNul(b) && Spanned(b, c) && Terminated(b + ['\0'], c, a) && sp in SpansOf(c)
    ensures CString(a, sp.q) == TextOf(b, sp)
  {
    SpansAreTokens(b, c, sp);
    forall k | sp.q <= k < sp.eq
      ensures a[k] == b[k]
    {
      if EndsAt(c, k) {
        var other :| other in SpansOf(c) && other.eq == k;
        SpansAreTokens(b, c, other);
      }
    }
    assert EndsAt(c, sp.eq);
    CStringIs(a, sp.q, sp.eq);
    assert a[sp.q..sp.eq] == b[sp.q..sp.eq];
  }
}
