/** The shell's grammar over the tokens of a line, without reference to the parser, and the proof
    that the parser accepts exactly its sentences, each with its one tree. */
module ShellGrammar {
  import opened ShellParser

  // -------------------------------------------------------------------
  // Tokens
  // -------------------------------------------------------------------

  datatype Lexeme = Lexeme(tok: Tok, span: Span)

  /** The tokens from position s on. */
  function Tokens(b: string, s: nat): (ts: seq<Lexeme>)
    requires s <= |b|
    decreases |b| - s
  {
    var t := GetToken(b, s);
    if t.tok == End then [] else [Lexeme(t.tok, Span(t.q, t.eq))] + Tokens(b, t.next)
  }

  /** A lexeme of the line: a longest run of characters that are neither blanks nor symbols, `>>`, or
      one of the symbols. */
  ghost predicate IsLexeme(b: string, x: Lexeme) {
    var q, e := x.span.q, x.span.eq;
    && q < e <= |b|
    && match x.tok
       case End => false
       case Word => (forall k :: q <= k < e ==> b[k] !in " \t\r\n\U{000B}<|>&;()") && (e < |b| ==> b[e] in " \t\r\n\U{000B}<|>&;()")
       case Append => e == q + 2 && b[q] == '>' && b[q + 1] == '>'
       case Symbol(c) => e == q + 1 && b[q] == c && c in "<|>&;()" && (c == '>' && e < |b| ==> b[e] != '>')
  }

  /** From s on the line consists of these lexemes, with nothing but blanks before, between and after. */
  ghost predicate Reads(b: string, s: nat, ts: seq<Lexeme>)
    requires s <= |b|
    decreases |ts|
  {
    if ts == [] then forall k :: s <= k < |b| ==> b[k] in " \t\r\n\U{000B}"
    else
      && IsLexeme(b, ts[0]) && s <= ts[0].span.q && (forall k :: s <= k < ts[0].span.q ==> b[k] in " \t\r\n\U{000B}")
      && Reads(b, ts[0].span.eq, ts[1..])
  }

  lemma TokenIsLexeme(b: string, s: nat)
    requires s <= |b| && GetToken(b, s).tok != End
    ensures var t := GetToken(b, s); IsLexeme(b, Lexeme(t.tok, Span(t.q, t.eq)))
  {
  }

  lemma {:induction false} BlanksAhead(b: string, s: nat, ts: seq<Lexeme>)
    requires s <= |b| && Reads(b, Skip(b, s), ts)
    ensures Reads(b, s, ts)
  {
  }

  /** The tokens are the lexemes of the line. */
  lemma {:induction false} TokensRead(b: string, s: nat)
    requires s <= |b|
    ensures Reads(b, s, Tokens(b, s))
    decreases |b| - s
  {
    var t := GetToken(b, s);
    if t.tok != End {
      TokenIsLexeme(b, s);
      TokensRead(b, t.next);
      BlanksAhead(b, t.eq, Tokens(b, t.next));
      assert Tokens(b, s)[1..] == Tokens(b, t.next);
    }
  }

  /** There is only one way to read a line. */
  lemma {:induction false} ReadOnce(b: string, s: nat, ts: seq<Lexeme>, us: seq<Lexeme>)
    requires s <= |b| && Reads(b, s, ts) && Reads(b, s, us)
    ensures ts == us
    decreases |ts|
  {
    if ts != [] && us != [] {
      SameLexeme(b, s, ts[0], us[0]);
      ReadOnce(b, ts[0].span.eq, ts[1..], us[1..]);
    } else if ts != [] {
      StartsInk(b, ts[0]);
    } else if us != [] {
      StartsInk(b, us[0]);
    }
  }

  lemma StartsInk(b: string, x: Lexeme)
    requires IsLexeme(b, x)
    ensures b[x.span.q] !in " \t\r\n\U{000B}"
  {
  }

  lemma SameLexeme(b: string, s: nat, x: Lexeme, y: Lexeme)
    requires s <= |b| && IsLexeme(b, x) && IsLexeme(b, y) && s <= x.span.q && s <= y.span.q
    requires forall k :: s <= k < x.span.q ==> b[k] in " \t\r\n\U{000B}"
    requires forall k :: s <= k < y.span.q ==> b[k] in " \t\r\n\U{000B}"
    ensures x == y
  {
    StartsInk(b, x);
    StartsInk(b, y);
    assert x.span.q == y.span.q;
  }

  // -------------------------------------------------------------------
  // The grammar
  // -------------------------------------------------------------------

  predicate Is(x: Lexeme, c: char) {
    x.tok == Symbol(c)
  }

  predicate IsOp(x: Lexeme) {
    Is(x, '<') || Is(x, '>') || x.tok == Append
  }

  /** A file to open, how, and as which descriptor. */
  datatype Opening = Opening(file: Span, mode: nat, fd: nat)

  /** `<` opens for reading as 0; `>` and `>>` open for writing, creating the file, as 1. */
  function OpeningOf(op: Lexeme, word: Lexeme): Opening {
    if Is(op, '<') then Opening(word.span, 0, 0) else Opening(word.span, 0x201, 1)
  }

  /** Words, and pairs of a redirection sign and a word. */
  predicate SimpleTokens(ts: seq<Lexeme>)
    decreases |ts|
  {
    if ts == [] then true
    else if IsOp(ts[0]) then |ts| >= 2 && ts[1].tok == Word && SimpleTokens(ts[2..])
    else ts[0].tok == Word && SimpleTokens(ts[1..])
  }

  /** The words that stand behind no redirection sign, in order. */
  function PlainWords(ts: seq<Lexeme>): seq<Span>
    decreases |ts|
  {
    if ts == [] then []
    else if IsOp(ts[0]) then (if |ts| >= 2 then PlainWords(ts[2..]) else [])
    else (if ts[0].tok == Word then [ts[0].span] else []) + PlainWords(ts[1..])
  }

  /** The redirections, in order. */
  function Openings(ts: seq<Lexeme>): seq<Opening>
    decreases |ts|
  {
    if ts == [] then []
    else if IsOp(ts[0]) then (if |ts| >= 2 then [OpeningOf(ts[0], ts[1])] + Openings(ts[2..]) else [])
    else Openings(ts[1..])
  }

  /** The arguments of an execcmd under its redirections. */
  function ArgsOf(c: Cmd): seq<Span> {
    match c
    case Exec(argv) => argv
    case Redir(d, _, _, _) => ArgsOf(d)
    case _ => []
  }

  /** Its redirections, the first applied first. */
  function OpeningsOf(c: Cmd): seq<Opening> {
    match c
    case Redir(d, f, mode, fd) => OpeningsOf(d) + [Opening(f, mode, fd)]
    case _ => []
  }

  /** An execcmd under its redirections. */
  predicate IsSimple(c: Cmd) {
    c.Exec? || (c.Redir? && IsSimple(c.cmd))
  }

  /** A command with up to nine arguments: its arguments and redirections are those among the tokens. */
  ghost predicate SimpleCommand(c: Cmd, ts: seq<Lexeme>) {
    && IsSimple(c) && SimpleTokens(ts) && |PlainWords(ts)| <= 9
    && ArgsOf(c) == PlainWords(ts) && OpeningsOf(c) == Openings(ts)
  }

  /** A line in parentheses, with redirections behind it. */
  ghost predicate Block(c: Cmd, ts: seq<Lexeme>)
    decreases |ts|, 0
  {
    var n := |ts|;
    || (n >= 2 && Is(ts[0], '(') && Is(ts[n - 1], ')') && Line(c, ts[1..n - 1]))
    || (n >= 2 && c.Redir? && IsOp(ts[n - 2]) && ts[n - 1].tok == Word
        && Opening(c.file, c.mode, c.fd) == OpeningOf(ts[n - 2], ts[n - 1]) && Block(c.cmd, ts[..n - 2]))
  }

  /** Commands and blocks joined by `|`, the rest of the pipeline on the right. */
  ghost predicate Pipeline(c: Cmd, ts: seq<Lexeme>)
    decreases |ts|, 1
  {
    || SimpleCommand(c, ts) || Block(c, ts)
    || exists i :: PipelineAt(c, ts, i)
  }

  ghost predicate PipelineAt(c: Cmd, ts: seq<Lexeme>, i: nat)
    decreases |ts|, 0
  {
    && i < |ts| && Is(ts[i], '|') && c.Pipe?
    && (SimpleCommand(c.left, ts[..i]) || Block(c.left, ts[..i])) && Pipeline(c.right, ts[i + 1..])
  }

  /** A pipeline and any number of `&`. */
  ghost predicate Background(c: Cmd, ts: seq<Lexeme>)
    decreases |ts|, 2
  {
    || Pipeline(c, ts)
    || (|ts| > 0 && Is(ts[|ts| - 1], '&') && c.Back? && Background(c.cmd, ts[..|ts| - 1]))
  }

  /** Such commands joined by `;`, the rest of the line on the right. */
  ghost predicate Line(c: Cmd, ts: seq<Lexeme>)
    decreases |ts|, 3
  {
    || Background(c, ts)
    || exists i :: LineAt(c, ts, i)
  }

  ghost predicate LineAt(c: Cmd, ts: seq<Lexeme>, i: nat)
    decreases |ts|, 0
  {
    i < |ts| && Is(ts[i], ';') && c.List? && Background(c.left, ts[..i]) && Line(c.right, ts[i + 1..])
  }

  // -------------------------------------------------------------------
  // What the parser sees
  // -------------------------------------------------------------------

  /** The next token, and what peek says of it. */
  lemma Peek(b: string, s: nat)
    requires s <= |b|
    ensures var ts, t := Tokens(b, s), GetToken(b, s);
            if ts == [] then t.tok == End && Skip(b, s) == |b|
            else t.tok != End && ts[0] == Lexeme(t.tok, Span(t.q, t.eq)) && ts[1..] == Tokens(b, t.next) && Skip(b, s) < |b|
    ensures Tokens(b, Skip(b, s)) == Tokens(b, s)
  {
    SkipTwice(b, s);
  }

  lemma {:induction false} SkipTwice(b: string, s: nat)
    requires s <= |b|
    ensures Skip(b, Skip(b, s)) == Skip(b, s)
  {
  }

  lemma SeesMeans(b: string, s: nat)
    requires s <= |b|
    ensures Sees(b, s, "<>") <==> Tokens(b, s) != [] && IsOp(Tokens(b, s)[0])
    ensures Sees(b, s, "(") <==> Tokens(b, s) != [] && Is(Tokens(b, s)[0], '(')
    ensures Sees(b, s, ")") <==> Tokens(b, s) != [] && Is(Tokens(b, s)[0], ')')
    ensures Sees(b, s, "|") <==> Tokens(b, s) != [] && Is(Tokens(b, s)[0], '|')
    ensures Sees(b, s, "&") <==> Tokens(b, s) != [] && Is(Tokens(b, s)[0], '&')
    ensures Sees(b, s, ";") <==> Tokens(b, s) != [] && Is(Tokens(b, s)[0], ';')
    ensures Sees(b, s, "|)&;") <==> Tokens(b, s) != [] && Ends(Tokens(b, s)[0])
  {
    Peek(b, s);
  }

  /** What ends a simple command or a block. */
  predicate Ends(x: Lexeme) {
    Is(x, '|') || Is(x, ')') || Is(x, '&') || Is(x, ';')
  }

  /** Every redirection sign has its word. */
  predicate Paired(ts: seq<Lexeme>)
    decreases |ts|
  {
    if ts == [] then true
    else if IsOp(ts[0]) then |ts| >= 2 && ts[1].tok == Word && Paired(ts[2..])
    else Paired(ts[1..])
  }

  lemma Assoc<T>(x: seq<T>, y: seq<T>, z: seq<T>)
    ensures x + (y + z) == x + y + z
  {
  }

  lemma Tail(x: seq<Lexeme>, y: seq<Lexeme>, n: nat)
    requires n <= |x|
    ensures (x + y)[n..] == x[n..] + y && |x + y| >= |x| && forall i :: 0 <= i < |x| ==> (x + y)[i] == x[i]
  {
  }

  lemma {:induction false} PlainJoin(x: seq<Lexeme>, y: seq<Lexeme>)
    requires Paired(x)
    ensures PlainWords(x + y) == PlainWords(x) + PlainWords(y)
    decreases |x|
  {
    if x == [] {
      assert x + y == y;
    } else if IsOp(x[0]) {
      Tail(x, y, 2);
      PlainJoin(x[2..], y);
    } else {
      Tail(x, y, 1);
      PlainJoin(x[1..], y);
      Assoc(if x[0].tok == Word then [x[0].span] else [], PlainWords(x[1..]), PlainWords(y));
    }
  }

  lemma {:induction false} OpeningsJoin(x: seq<Lexeme>, y: seq<Lexeme>)
    requires Paired(x)
    ensures Openings(x + y) == Openings(x) + Openings(y)
    decreases |x|
  {
    if x == [] {
      assert x + y == y;
    } else if IsOp(x[0]) {
      Tail(x, y, 2);
      OpeningsJoin(x[2..], y);
      Assoc([OpeningOf(x[0], x[1])], Openings(x[2..]), Openings(y));
    } else {
      Tail(x, y, 1);
      OpeningsJoin(x[1..], y);
    }
  }

  lemma {:induction false} PairedJoin(x: seq<Lexeme>, y: seq<Lexeme>)
    requires Paired(x)
    ensures Paired(x + y) == Paired(y) && PlainWords(x + y) == PlainWords(x) + PlainWords(y) && Openings(x + y) == Openings(x) + Openings(y)
    decreases |x|
  {
    PlainJoin(x, y);
    OpeningsJoin(x, y);
    hide PlainWords;
    hide Openings;
    if x == [] {
      assert x + y == y;
    } else if IsOp(x[0]) {
      Tail(x, y, 2);
      PairedJoin(x[2..], y);
    } else {
      Tail(x, y, 1);
      PairedJoin(x[1..], y);
    }
  }

  lemma {:induction false} SimplePaired(ts: seq<Lexeme>)
    requires SimpleTokens(ts)
    ensures Paired(ts)
    decreases |ts|
  {
    if ts != [] {
      SimplePaired(if IsOp(ts[0]) then ts[2..] else ts[1..]);
    }
  }

  lemma {:induction false} SimpleJoin(x: seq<Lexeme>, y: seq<Lexeme>)
    requires SimpleTokens(x)
    ensures SimpleTokens(x + y) == SimpleTokens(y)
    ensures PlainWords(x + y) == PlainWords(x) + PlainWords(y) && Openings(x + y) == Openings(x) + Openings(y)
    decreases |x|
  {
    SimplePaired(x);
    PairedJoin(x, y);
    hide PlainWords;
    hide Openings;
    hide Paired;
    if x == [] {
      assert x + y == y;
    } else if IsOp(x[0]) {
      Tail(x, y, 2);
      SimpleJoin(x[2..], y);
    } else {
      Tail(x, y, 1);
      SimpleJoin(x[1..], y);
    }
  }

  // -------------------------------------------------------------------
  // Whatever the parser accepts is in the grammar
  // -------------------------------------------------------------------

  /** k tokens were read between s and s'. */
  ghost predicate Took(b: string, s: nat, s': nat, k: nat) {
    s <= |b| && s' <= |b| && k <= |Tokens(b, s)| && Tokens(b, s') == Tokens(b, s)[k..]
  }

  lemma TookMore(b: string, s: nat, s1: nat, k1: nat, s2: nat, k2: nat)
    requires Took(b, s, s1, k1) && Took(b, s1, s2, k2)
    ensures Took(b, s, s2, k1 + k2) && Tokens(b, s)[..k1 + k2] == Tokens(b, s)[..k1] + Tokens(b, s1)[..k2]
  {
  }

  lemma TookOne(b: string, s: nat)
    requires s <= |b| && GetToken(b, s).tok != End
    ensures Took(b, s, GetToken(b, s).next, 1)
  {
    Peek(b, s);
  }

  lemma TookNone(b: string, s: nat)
    requires s <= |b|
    ensures Took(b, s, Skip(b, s), 0)
  {
    Peek(b, s);
  }

  /** A redirection added to a command and to its tokens. */
  lemma Opened(c: Cmd, op: Lexeme, word: Lexeme)
    requires IsOp(op) && word.tok == Word
    ensures var d := Redirected(c, word.span, op.tok);
            && d.Redir? && d.cmd == c && Opening(d.file, d.mode, d.fd) == OpeningOf(op, word)
            && OpeningsOf(d) == OpeningsOf(c) + [OpeningOf(op, word)] && ArgsOf(d) == ArgsOf(c) && (IsSimple(c) ==> IsSimple(d))
  {
  }

  lemma BlockOpened(c: Cmd, us: seq<Lexeme>, op: Lexeme, word: Lexeme)
    requires Block(c, us) && IsOp(op) && word.tok == Word
    ensures Block(Redirected(c, word.span, op.tok), us + [op, word])
  {
    Opened(c, op, word);
    var ts := us + [op, word];
    assert ts[..|ts| - 2] == us;
  }

  /** The tokens x took the command c to d. */
  ghost predicate Grew(c: Cmd, x: seq<Lexeme>, d: Cmd) {
    && SimpleTokens(x) && (IsSimple(c) ==> IsSimple(d))
    && ArgsOf(d) == ArgsOf(c) + PlainWords(x) && OpeningsOf(d) == OpeningsOf(c) + Openings(x)
  }

  lemma GrewThen(c: Cmd, x: seq<Lexeme>, d: Cmd, y: seq<Lexeme>, e: Cmd)
    requires Grew(c, x, d) && Grew(d, y, e)
    ensures Grew(c, x + y, e)
  {
    SimpleJoin(x, y);
    Assoc(ArgsOf(c), PlainWords(x), PlainWords(y));
    Assoc(OpeningsOf(c), Openings(x), Openings(y));
    hide PlainWords;
    hide Openings;
    hide SimpleTokens;
    hide ArgsOf;
    hide OpeningsOf;
  }

  lemma GrewNone(c: Cmd)
    ensures Grew(c, [], c)
  {
  }

  lemma GrewOpening(c: Cmd, op: Lexeme, word: Lexeme)
    requires IsOp(op) && word.tok == Word
    ensures Grew(c, [op, word], Redirected(c, word.span, op.tok)) && ArgsOf(Redirected(c, word.span, op.tok)) == ArgsOf(c)
  {
    Opened(c, op, word);
    PairTokens(op, word);
  }

  lemma PairTokens(op: Lexeme, word: Lexeme)
    requires IsOp(op) && word.tok == Word
    ensures SimpleTokens([op, word]) && PlainWords([op, word]) == [] && Openings([op, word]) == [OpeningOf(op, word)]
  {
    assert [op, word][2..] == [];
  }

  lemma GrewArg(c: Cmd, x: Lexeme)
    requires IsSimple(c) && x.tok == Word
    ensures Grew(c, [x], AddArg(c, x.span)) && IsSimple(AddArg(c, x.span)) && ArgsOf(AddArg(c, x.span)) == ArgsOf(c) + [x.span]
    ensures Argc(AddArg(c, x.span)) == |ArgsOf(c)| + 1
  {
    ArgAdded(c, x.span);
    assert [x][1..] == [];
  }

  lemma {:induction false} ArgAdded(c: Cmd, a: Span)
    requires IsSimple(c)
    ensures IsSimple(AddArg(c, a)) && ArgsOf(AddArg(c, a)) == ArgsOf(c) + [a] && OpeningsOf(AddArg(c, a)) == OpeningsOf(c)
    ensures Argc(c) == |ArgsOf(c)| && Argc(AddArg(c, a)) == |ArgsOf(c)| + 1
  {
    if c.Redir? {
      ArgAdded(c.cmd, a);
    }
  }

  lemma TwoTokens(b: string, s: nat)
    requires s <= |b| && |Tokens(b, s)| >= 2
    ensures var t := GetToken(b, s);
            var f := GetToken(b, t.next);
            && Took(b, s, f.next, 2) && Tokens(b, s)[..2] == [Lexeme(t.tok, Span(t.q, t.eq)), Lexeme(f.tok, Span(f.q, f.eq))]
  {
    hide GetToken;
    hide Tokens;
    var t := GetToken(b, s);
    var f := GetToken(b, t.next);
    Peek(b, s);
    Peek(b, t.next);
    TookOne(b, s);
    TookOne(b, t.next);
    TookMore(b, s, t.next, 1, f.next, 1);
  }

  /** One redirection read: where the parser goes on, and with what. */
  lemma RedirRead(b: string, s: nat, c: Cmd) returns (next: nat, op: Lexeme, word: Lexeme)
    requires s <= |b| && Sees(b, s, "<>") && ParseRedirs(b, s, c).Ok?
    ensures s < next <= |b| && IsOp(op) && word.tok == Word && Took(b, s, next, 2) && Tokens(b, s)[..2] == [op, word]
    ensures ParseRedirs(b, s, c) == ParseRedirs(b, next, Redirected(c, word.span, op.tok))
  {
    hide GetToken;
    hide Tokens;
    hide Redirected;
    SeesMeans(b, s);
    var t := GetToken(b, s);
    var f := GetToken(b, t.next);
    Peek(b, s);
    Peek(b, t.next);
    TwoTokens(b, s);
    next, op, word := f.next, Lexeme(t.tok, Span(t.q, t.eq)), Lexeme(f.tok, Span(f.q, f.eq));
  }

  lemma {:induction false} RedirsSound(b: string, s: nat, c: Cmd) returns (k: nat)
    requires s <= |b| && ParseRedirs(b, s, c).Ok?
    ensures var r := ParseRedirs(b, s, c);
            Took(b, s, r.s, k) && Grew(c, Tokens(b, s)[..k], r.cmd) && ArgsOf(r.cmd) == ArgsOf(c) && (IsSimple(c) ==> IsSimple(r.cmd))
    decreases |b| - s
  {
    hide GetToken;
    hide Tokens;
    hide Redirected;
    hide Grew;
    hide ArgsOf;
    hide OpeningsOf;
    hide IsSimple;
    if Sees(b, s, "<>") {
      var next, op, word := RedirRead(b, s, c);
      var d := Redirected(c, word.span, op.tok);
      GrewOpening(c, op, word);
      Opened(c, op, word);
      hide ParseRedirs;
      var k1 := RedirsSound(b, next, d);
      var r := ParseRedirs(b, next, d);
      TookMore(b, s, next, 2, r.s, k1);
      GrewThen(c, [op, word], d, Tokens(b, next)[..k1], r.cmd);
      k := 2 + k1;
    } else {
      k := 0;
      TookNone(b, s);
      GrewNone(c);
    }
  }

  lemma {:induction false} RedirsBlock(b: string, s: nat, c: Cmd, us: seq<Lexeme>) returns (k: nat)
    requires s <= |b| && ParseRedirs(b, s, c).Ok? && Block(c, us)
    ensures var r := ParseRedirs(b, s, c); Took(b, s, r.s, k) && Block(r.cmd, us + Tokens(b, s)[..k])
    decreases |b| - s
  {
    hide GetToken;
    hide Tokens;
    hide Block;
    hide Redirected;
    if Sees(b, s, "<>") {
      var next, op, word := RedirRead(b, s, c);
      var d := Redirected(c, word.span, op.tok);
      BlockOpened(c, us, op, word);
      hide ParseRedirs;
      var k1 := RedirsBlock(b, next, d, us + [op, word]);
      TookMore(b, s, next, 2, ParseRedirs(b, next, d).s, k1);
      Assoc(us, [op, word], Tokens(b, next)[..k1]);
      k := 2 + k1;
    } else {
      k := 0;
      TookNone(b, s);
      assert us + Tokens(b, s)[..0] == us;
    }
  }

  lemma {:induction false} ArgsSound(b: string, s: nat, c: Cmd) returns (k: nat)
    requires s <= |b| && ParseArgs(b, s, c).Ok? && IsSimple(c) && |ArgsOf(c)| <= 9
    ensures var r := ParseArgs(b, s, c);
            Took(b, s, r.s, k) && Grew(c, Tokens(b, s)[..k], r.cmd) && IsSimple(r.cmd) && |ArgsOf(r.cmd)| <= 9
    decreases |b| - s
  {
    hide GetToken;
    hide Tokens;
    hide ParseRedirs;
    hide AddArg;
    hide Block;
    hide Grew;
    hide Took;
    SeesMeans(b, s);
    Peek(b, s);
    TookNone(b, s);
    GrewNone(c);
    var ts, t := Tokens(b, s), GetToken(b, s);
    k := 0;
    assert ts[..0] == [];
    if Sees(b, s, "|)&;") {
    } else if t.tok == End {
      EndTaken(b, s);
    } else {
      var d := AddArg(c, ts[0].span);
      GrewArg(c, ts[0]);
      TookOne(b, s);
      var k1 := RedirsSound(b, t.next, d);
      var r1 := ParseRedirs(b, t.next, d);
      TookMore(b, s, t.next, 1, r1.s, k1);
      GrewThen(c, [ts[0]], d, Tokens(b, t.next)[..k1], r1.cmd);
      var k2 := ArgsSound(b, r1.s, r1.cmd);
      var r2 := ParseArgs(b, r1.s, r1.cmd);
      TookMore(b, s, r1.s, 1 + k1, r2.s, k2);
      assert ts[..1] == [ts[0]];
      GrewThen(c, ts[..1 + k1], r1.cmd, Tokens(b, r1.s)[..k2], r2.cmd);
      k := 1 + k1 + k2;
    }
  }

  lemma EndTaken(b: string, s: nat)
    requires s <= |b| && GetToken(b, s).tok == End
    ensures Took(b, s, GetToken(b, s).next, 0)
  {
    Peek(b, s);
    var t := GetToken(b, s);
    SkipTwice(b, s);
  }

  lemma {:induction false} ExecSound(b: string, s: nat) returns (k: nat)
    requires s <= |b| && ParseExec(b, s).Ok?
    ensures var r := ParseExec(b, s);
            Took(b, s, r.s, k) && (SimpleCommand(r.cmd, Tokens(b, s)[..k]) || Block(r.cmd, Tokens(b, s)[..k]))
    decreases |b| - s, 1
  {
    hide GetToken;
    hide Tokens;
    hide ParseRedirs;
    hide ParseArgs;
    hide ParseBlock;
    hide Block;
    if Sees(b, s, "(") {
      k := BlockSound(b, s);
    } else {
      var k1 := RedirsSound(b, s, Exec([]));
      var r1 := ParseRedirs(b, s, Exec([]));
      var k2 := ArgsSound(b, r1.s, r1.cmd);
      TookMore(b, s, r1.s, k1, ParseExec(b, s).s, k2);
      GrewThen(Exec([]), Tokens(b, s)[..k1], r1.cmd, Tokens(b, r1.s)[..k2], ParseExec(b, s).cmd);
      k := k1 + k2;
    }
  }

  lemma {:induction false} BlockSound(b: string, s: nat) returns (k: nat)
    requires s <= |b| && ParseBlock(b, s).Ok?
    ensures var r := ParseBlock(b, s); Took(b, s, r.s, k) && Block(r.cmd, Tokens(b, s)[..k])
    decreases |b| - s, 0
  {
    hide GetToken;
    hide Tokens;
    hide ParseRedirs;
    hide ParseLine;
    SeesMeans(b, s);
    Peek(b, s);
    var t := GetToken(b, s);
    TookOne(b, s);
    var k1 := LineSound(b, t.next);
    var r1 := ParseLine(b, t.next);
    SeesMeans(b, r1.s);
    Peek(b, r1.s);
    TookOne(b, r1.s);
    TookMore(b, s, t.next, 1, r1.s, k1);
    var next := GetToken(b, r1.s).next;
    TookMore(b, s, r1.s, 1 + k1, next, 1);
    var ts := Tokens(b, s);
    var us := ts[..1 + k1 + 1];
    assert us[1..|us| - 1] == Tokens(b, t.next)[..k1];
    assert us[|us| - 1] == ts[1 + k1] == Tokens(b, r1.s)[0];
    assert Block(r1.cmd, us);
    hide Block;
    var k2 := RedirsBlock(b, next, r1.cmd, us);
    TookMore(b, s, next, 1 + k1 + 1, ParseBlock(b, s).s, k2);
    k := 1 + k1 + 1 + k2;
  }

  lemma {:induction false} PipeSound(b: string, s: nat) returns (k: nat)
    requires s <= |b| && ParsePipe(b, s).Ok?
    ensures var r := ParsePipe(b, s); Took(b, s, r.s, k) && Pipeline(r.cmd, Tokens(b, s)[..k])
    decreases |b| - s, 2
  {
    hide GetToken;
    hide Tokens;
    hide ParseExec;
    hide SimpleCommand;
    hide Block;
    var k1 := ExecSound(b, s);
    var r1 := ParseExec(b, s);
    SeesMeans(b, r1.s);
    var ts := Tokens(b, s);
    if Sees(b, r1.s, "|") {
      Peek(b, r1.s);
      TookOne(b, r1.s);
      var next := GetToken(b, r1.s).next;
      TookMore(b, s, r1.s, k1, next, 1);
      var k2 := PipeSound(b, next);
      TookMore(b, s, next, k1 + 1, ParsePipe(b, s).s, k2);
      k := k1 + 1 + k2;
      var us := ts[..k];
      assert us[..k1] == ts[..k1] && us[k1 + 1..] == Tokens(b, next)[..k2] && us[k1] == ts[k1] == Tokens(b, r1.s)[0];
      assert PipelineAt(ParsePipe(b, s).cmd, us, k1);
    } else {
      TookNone(b, r1.s);
      TookMore(b, s, r1.s, k1, Skip(b, r1.s), 0);
      k := k1;
    }
  }

  lemma {:induction false} BacksSound(b: string, s: nat, c: Cmd, us: seq<Lexeme>) returns (k: nat)
    requires s <= |b| && Background(c, us)
    ensures var r := ParseBacks(b, s, c); Took(b, s, r.1, k) && Background(r.0, us + Tokens(b, s)[..k])
    decreases |b| - s
  {
    hide GetToken;
    hide Tokens;
    hide Pipeline;
    SeesMeans(b, s);
    TookNone(b, s);
    var ts := Tokens(b, s);
    if Sees(b, s, "&") {
      Peek(b, s);
      TookOne(b, s);
      var next := GetToken(b, s).next;
      var vs := us + [ts[0]];
      assert vs[..|vs| - 1] == us;
      k := BacksSound(b, next, Back(c), vs);
      TookMore(b, s, next, 1, ParseBacks(b, s, c).1, k);
      assert vs + Tokens(b, next)[..k] == us + ts[..1 + k];
      k := 1 + k;
    } else {
      k := 0;
      assert us + ts[..0] == us;
    }
  }

  lemma {:induction false} LineSound(b: string, s: nat) returns (k: nat)
    requires s <= |b| && ParseLine(b, s).Ok?
    ensures var r := ParseLine(b, s); Took(b, s, r.s, k) && Line(r.cmd, Tokens(b, s)[..k])
    decreases |b| - s, 3
  {
    hide GetToken;
    hide Tokens;
    hide ParsePipe;
    hide Pipeline;
    hide Background;
    var k1 := PipeSound(b, s);
    var r1 := ParsePipe(b, s);
    var ts := Tokens(b, s);
    JustPipeline(r1.cmd, ts[..k1]);
    var k2 := BacksSound(b, r1.s, r1.cmd, ts[..k1]);
    var (d, s2) := ParseBacks(b, r1.s, r1.cmd);
    TookMore(b, s, r1.s, k1, s2, k2);
    var k3 := k1 + k2;
    SeesMeans(b, s2);
    if Sees(b, s2, ";") {
      Peek(b, s2);
      TookOne(b, s2);
      var next := GetToken(b, s2).next;
      TookMore(b, s, s2, k3, next, 1);
      var k4 := LineSound(b, next);
      TookMore(b, s, next, k3 + 1, ParseLine(b, s).s, k4);
      k := k3 + 1 + k4;
      var us := ts[..k];
      assert us[..k3] == ts[..k3] && us[k3 + 1..] == Tokens(b, next)[..k4] && us[k3] == ts[k3] == Tokens(b, s2)[0];
      assert LineAt(ParseLine(b, s).cmd, us, k3);
    } else {
      k := k3;
    }
  }

  lemma JustPipeline(c: Cmd, ts: seq<Lexeme>)
    requires Pipeline(c, ts)
    ensures Background(c, ts)
  {
  }

  // -------------------------------------------------------------------
  // Whatever is in the grammar the parser accepts
  // -------------------------------------------------------------------

  /** The tokens from s on are ts and then rest. */
  ghost predicate Stands(b: string, s: nat, ts: seq<Lexeme>, rest: seq<Lexeme>) {
    s <= |b| && Tokens(b, s) == ts + rest
  }

  /** The first of them, and where the others are. */
  lemma First(b: string, s: nat, ts: seq<Lexeme>, rest: seq<Lexeme>)
    requires Stands(b, s, ts, rest) && ts != []
    ensures var t := GetToken(b, s);
            && t.tok != End && ts[0] == Lexeme(t.tok, Span(t.q, t.eq)) && Stands(b, t.next, ts[1..], rest) && Tokens(b, s)[0] == ts[0]
  {
    Peek(b, s);
    assert (ts + rest)[1..] == ts[1..] + rest;
  }

  lemma Split(b: string, s: nat, ts: seq<Lexeme>, rest: seq<Lexeme>, i: nat)
    requires Stands(b, s, ts, rest) && i <= |ts|
    ensures Stands(b, s, ts[..i], ts[i..] + rest)
  {
    assert ts[..i] + (ts[i..] + rest) == ts + rest;
  }

  lemma Skipped(b: string, s: nat, ts: seq<Lexeme>, rest: seq<Lexeme>)
    requires Stands(b, s, ts, rest)
    ensures Stands(b, Skip(b, s), ts, rest)
  {
    Peek(b, s);
  }

  lemma {:induction false} RedirsComplete(b: string, s: nat, c: Cmd, ts: seq<Lexeme>, rest: seq<Lexeme>) returns (d: Cmd, s': nat, ts': seq<Lexeme>)
    requires Stands(b, s, ts, rest) && SimpleTokens(ts) && (rest == [] || !IsOp(rest[0]))
    ensures ParseRedirs(b, s, c) == Ok(d, s') && Stands(b, s', ts', rest) && s <= s'
    ensures SimpleTokens(ts') && (ts' == [] || !IsOp(ts'[0])) && |ts'| <= |ts|
    ensures PlainWords(ts') == PlainWords(ts) && ArgsOf(d) == ArgsOf(c)
    ensures OpeningsOf(d) + Openings(ts') == OpeningsOf(c) + Openings(ts) && (IsSimple(c) ==> IsSimple(d))
    decreases |ts|
  {
    hide GetToken;
    hide Redirected;
    hide Tokens;
    hide ParseRedirs;
    hide IsSimple;
    hide ArgsOf;
    hide OpeningsOf;
    assert s <= |b|;
    hide Stands;
    if ts != [] && IsOp(ts[0]) {
      var e, o := Redirected(c, ts[1].span, ts[0].tok), OpeningOf(ts[0], ts[1]);
      Opened(c, ts[0], ts[1]);
      assert OpeningsOf(c) + [o] + Openings(ts[2..]) == OpeningsOf(c) + ([o] + Openings(ts[2..]));
      var next := RedirTaken(b, s, c, ts, rest);
      d, s', ts' := RedirsComplete(b, next, e, ts[2..], rest);
    } else {
      d, s', ts' := c, Skip(b, s), ts;
      NoRedirHere(b, s, c, ts, rest);
    }
  }

  lemma RedirTaken(b: string, s: nat, c: Cmd, ts: seq<Lexeme>, rest: seq<Lexeme>) returns (next: nat)
    requires Stands(b, s, ts, rest) && |ts| >= 2 && IsOp(ts[0]) && ts[1].tok == Word
    ensures s <= next <= |b| && Stands(b, next, ts[2..], rest)
    ensures ParseRedirs(b, s, c) == ParseRedirs(b, next, Redirected(c, ts[1].span, ts[0].tok))
  {
    hide GetToken;
    hide Redirected;
    hide Tokens;
    SeesMeans(b, s);
    First(b, s, ts, rest);
    var t := GetToken(b, s);
    First(b, t.next, ts[1..], rest);
    assert ts[1..][1..] == ts[2..];
    next := GetToken(b, t.next).next;
  }

  lemma NoRedirHere(b: string, s: nat, c: Cmd, ts: seq<Lexeme>, rest: seq<Lexeme>)
    requires Stands(b, s, ts, rest) && (ts == [] || !IsOp(ts[0])) && (rest == [] || !IsOp(rest[0]))
    ensures ParseRedirs(b, s, c) == Ok(c, Skip(b, s)) && Stands(b, Skip(b, s), ts, rest)
  {
    hide Tokens;
    hide GetToken;
    SeesMeans(b, s);
    Skipped(b, s, ts, rest);
  }

  /** What may follow a simple command or a block. */
  ghost predicate Follows(rest: seq<Lexeme>) {
    rest == [] || Ends(rest[0])
  }

  lemma {:induction false} ArgsComplete(b: string, s: nat, c: Cmd, ts: seq<Lexeme>, rest: seq<Lexeme>) returns (d: Cmd, s': nat)
    requires Stands(b, s, ts, rest) && SimpleTokens(ts) && Follows(rest) && (ts == [] || !IsOp(ts[0]))
    requires IsSimple(c) && |ArgsOf(c)| + |PlainWords(ts)| <= 9
    ensures ParseArgs(b, s, c) == Ok(d, s') && Stands(b, s', [], rest) && IsSimple(d)
    ensures ArgsOf(d) == ArgsOf(c) + PlainWords(ts) && OpeningsOf(d) == OpeningsOf(c) + Openings(ts)
    decreases |ts|
  {
    hide GetToken;
    hide Tokens;
    hide ParseRedirs;
    hide AddArg;
    SeesMeans(b, s);
    if ts == [] {
      d := c;
      ArgsStop(b, s, c, rest);
      s' := ParseArgs(b, s, c).s;
    } else {
      First(b, s, ts, rest);
      var t := GetToken(b, s);
      GrewArg(c, ts[0]);
      ArgAdded(c, ts[0].span);
      var e, s1, ts1 := RedirsComplete(b, t.next, AddArg(c, ts[0].span), ts[1..], rest);
      d, s' := ArgsComplete(b, s1, e, ts1, rest);
      assert ParseArgs(b, s, c) == ParseArgs(b, s1, e);
    }
  }

  lemma ArgsStop(b: string, s: nat, c: Cmd, rest: seq<Lexeme>)
    requires Stands(b, s, [], rest) && Follows(rest)
    ensures ParseArgs(b, s, c).Ok? && ParseArgs(b, s, c).cmd == c && Stands(b, ParseArgs(b, s, c).s, [], rest)
  {
    SeesMeans(b, s);
    Peek(b, s);
    assert [] + rest == rest;
    if rest == [] {
      EndTaken(b, s);
    }
  }

  lemma {:induction false} SimpleUnique(c: Cmd, d: Cmd)
    requires IsSimple(c) && IsSimple(d) && ArgsOf(c) == ArgsOf(d) && OpeningsOf(c) == OpeningsOf(d)
    ensures c == d
  {
    if c.Redir? && d.Redir? {
      var x, y := OpeningsOf(c), OpeningsOf(d);
      assert x[|x| - 1] == Opening(c.file, c.mode, c.fd) && y[|y| - 1] == Opening(d.file, d.mode, d.fd);
      assert x[..|x| - 1] == OpeningsOf(c.cmd) && y[..|y| - 1] == OpeningsOf(d.cmd);
      SimpleUnique(c.cmd, d.cmd);
    }
  }

  lemma SimpleComplete(b: string, s: nat, c: Cmd, ts: seq<Lexeme>, rest: seq<Lexeme>) returns (s': nat)
    requires Stands(b, s, ts, rest) && SimpleCommand(c, ts) && Follows(rest)
    ensures ParseExec(b, s) == Ok(c, s') && Stands(b, s', [], rest)
  {
    hide GetToken;
    hide Tokens;
    hide ParseRedirs;
    hide ParseArgs;
    hide ParseBlock;
    SeesMeans(b, s);
    if ts != [] {
      First(b, s, ts, rest);
    }
    var e, s1, ts1 := RedirsComplete(b, s, Exec([]), ts, rest);
    var d;
    d, s' := ArgsComplete(b, s1, e, ts1, rest);
    SimpleUnique(c, d);
  }

  /** A block and whatever follows it, redirections for all we know. */
  lemma {:induction false} BlockComplete(b: string, s: nat, c: Cmd, ts: seq<Lexeme>, rest: seq<Lexeme>) returns (s': nat)
    requires Stands(b, s, ts, rest) && Block(c, ts)
    ensures s <= s' <= |b| && ParseExec(b, s) == ParseRedirs(b, s', c) && Stands(b, s', [], rest) && ts != [] && Is(ts[0], '(')
    decreases |ts|, 0
  {
    hide GetToken;
    hide Tokens;
    hide ParseRedirs;
    hide ParseLine;
    hide Line;
    var n := |ts|;
    if n >= 2 && Is(ts[0], '(') && Is(ts[n - 1], ')') && Line(c, ts[1..n - 1]) {
      SeesMeans(b, s);
      First(b, s, ts, rest);
      var t := GetToken(b, s);
      Split(b, t.next, ts[1..], rest, n - 2);
      assert ts[1..][..n - 2] == ts[1..n - 1] && ts[1..][n - 2..] == [ts[n - 1]];
      var s1 := LineComplete(b, t.next, c, ts[1..n - 1], [ts[n - 1]] + rest);
      assert [] + ([ts[n - 1]] + rest) == [ts[n - 1]] + rest;
      assert Stands(b, s1, [ts[n - 1]], rest);
      SeesMeans(b, s1);
      First(b, s1, [ts[n - 1]], rest);
      s' := GetToken(b, s1).next;
      assert [ts[n - 1]][1..] == [];
    } else {
      hide ParseExec;
      Split(b, s, ts, rest, n - 2);
      assert ts[n - 2..] == [ts[n - 2], ts[n - 1]];
      var s1 := BlockComplete(b, s, c.cmd, ts[..n - 2], [ts[n - 2], ts[n - 1]] + rest);
      s' := OneRedir(b, s1, c, ts[n - 2], ts[n - 1], rest);
    }
  }

  lemma OneRedir(b: string, s: nat, c: Cmd, op: Lexeme, word: Lexeme, rest: seq<Lexeme>) returns (s': nat)
    requires Stands(b, s, [], [op, word] + rest) && c.Redir? && IsOp(op) && word.tok == Word
    requires Opening(c.file, c.mode, c.fd) == OpeningOf(op, word)
    ensures s <= s' <= |b| && ParseRedirs(b, s, c.cmd) == ParseRedirs(b, s', c) && Stands(b, s', [], rest)
  {
    hide GetToken;
    hide Tokens;
    hide Redirected;
    assert [] + ([op, word] + rest) == [op, word] + rest;
    SeesMeans(b, s);
    First(b, s, [op, word], rest);
    var t := GetToken(b, s);
    assert [op, word][1..] == [word];
    First(b, t.next, [word], rest);
    assert [word][1..] == [];
    s' := GetToken(b, t.next).next;
    Opened(c.cmd, op, word);
  }

  lemma NoMoreRedirs(b: string, s: nat, c: Cmd, rest: seq<Lexeme>)
    requires Stands(b, s, [], rest) && Follows(rest)
    ensures ParseRedirs(b, s, c) == Ok(c, Skip(b, s)) && Stands(b, Skip(b, s), [], rest)
  {
    SeesMeans(b, s);
    Skipped(b, s, [], rest);
    assert [] + rest == rest;
  }

  lemma {:induction false} ExecComplete(b: string, s: nat, c: Cmd, ts: seq<Lexeme>, rest: seq<Lexeme>) returns (s': nat)
    requires Stands(b, s, ts, rest) && (SimpleCommand(c, ts) || Block(c, ts)) && Follows(rest)
    ensures ParseExec(b, s) == Ok(c, s') && Stands(b, s', [], rest)
    decreases |ts|, 1
  {
    hide ParseExec;
    hide ParseRedirs;
    hide SimpleCommand;
    hide Block;
    hide Tokens;
    if SimpleCommand(c, ts) {
      s' := SimpleComplete(b, s, c, ts, rest);
    } else {
      var s1 := BlockComplete(b, s, c, ts, rest);
      NoMoreRedirs(b, s1, c, rest);
      s' := Skip(b, s1);
    }
  }

  lemma {:induction false} PipeComplete(b: string, s: nat, c: Cmd, ts: seq<Lexeme>, rest: seq<Lexeme>) returns (s': nat)
    requires Stands(b, s, ts, rest) && Pipeline(c, ts) && Follows(rest) && (rest == [] || !Is(rest[0], '|'))
    ensures ParsePipe(b, s) == Ok(c, s') && Stands(b, s', [], rest)
    decreases |ts|, 2
  {
    hide ParseExec;
    hide SimpleCommand;
    hide Block;
    hide Tokens;
    hide GetToken;
    if SimpleCommand(c, ts) || Block(c, ts) {
      var s1 := ExecComplete(b, s, c, ts, rest);
      SeesMeans(b, s1);
      Skipped(b, s1, [], rest);
      assert [] + rest == rest;
      s' := Skip(b, s1);
    } else {
      var i: nat :| PipelineAt(c, ts, i);
      Split(b, s, ts, rest, i);
      assert ts[i..] == [ts[i]] + ts[i + 1..];
      assert ts[i..] + rest == [ts[i]] + (ts[i + 1..] + rest);
      var s1 := ExecComplete(b, s, c.left, ts[..i], ts[i..] + rest);
      var next := PastOne(b, s1, ts[i], ts[i + 1..], rest);
      SeesMeans(b, s1);
      s' := PipeComplete(b, next, c.right, ts[i + 1..], rest);
    }
  }

  /** Over a symbol. */
  lemma PastOne(b: string, s: nat, x: Lexeme, ts: seq<Lexeme>, rest: seq<Lexeme>) returns (next: nat)
    requires Stands(b, s, [], [x] + (ts + rest))
    ensures next == GetToken(b, s).next && Stands(b, next, ts, rest) && Tokens(b, s) != [] && Tokens(b, s)[0] == x
  {
    assert [] + ([x] + (ts + rest)) == [x] + ts + rest;
    assert ([x] + ts)[1..] == ts;
    First(b, s, [x] + ts, rest);
    next := GetToken(b, s).next;
  }

  lemma {:induction false} BacksComplete(b: string, s: nat, c: Cmd, ts: seq<Lexeme>, rest: seq<Lexeme>) returns (p: Cmd, s1: nat, s': nat)
    requires Stands(b, s, ts, rest) && Background(c, ts) && Follows(rest) && (rest == [] || !Is(rest[0], '|'))
    ensures ParsePipe(b, s) == Ok(p, s1) && s' <= |b| && ParseBacks(b, s1, p) == ParseBacks(b, s', c) && Stands(b, s', [], rest)
    decreases |ts|, 3
  {
    hide ParsePipe;
    hide Pipeline;
    hide Tokens;
    hide GetToken;
    if Pipeline(c, ts) {
      p := c;
      s1 := PipeComplete(b, s, c, ts, rest);
      s' := s1;
    } else {
      var n := |ts|;
      Split(b, s, ts, rest, n - 1);
      assert ts[n - 1..] == [ts[n - 1]];
      var s2;
      p, s1, s2 := BacksComplete(b, s, c.cmd, ts[..n - 1], [ts[n - 1]] + rest);
      assert [ts[n - 1]] + rest == [ts[n - 1]] + ([] + rest);
      s' := PastOne(b, s2, ts[n - 1], [], rest);
      SeesMeans(b, s2);
    }
  }

  lemma {:induction false} LineComplete(b: string, s: nat, c: Cmd, ts: seq<Lexeme>, rest: seq<Lexeme>) returns (s': nat)
    requires Stands(b, s, ts, rest) && Line(c, ts) && (rest == [] || Is(rest[0], ')'))
    ensures ParseLine(b, s) == Ok(c, s') && Stands(b, s', [], rest)
    decreases |ts|, 4
  {
    hide ParsePipe;
    hide Background;
    hide Tokens;
    hide GetToken;
    if Background(c, ts) {
      var p, s1, s2 := BacksComplete(b, s, c, ts, rest);
      BacksStop(b, s2, c, rest);
      s' := Skip(b, s2);
      SeesMeans(b, s');
      assert [] + rest == rest;
    } else {
      var i: nat :| LineAt(c, ts, i);
      Split(b, s, ts, rest, i);
      assert ts[i..] == [ts[i]] + ts[i + 1..];
      assert ts[i..] + rest == [ts[i]] + (ts[i + 1..] + rest);
      var p, s1, s2 := BacksComplete(b, s, c.left, ts[..i], ts[i..] + rest);
      BacksStop(b, s2, c.left, ts[i..] + rest);
      var next := PastOne(b, Skip(b, s2), ts[i], ts[i + 1..], rest);
      SeesMeans(b, Skip(b, s2));
      s' := LineComplete(b, next, c.right, ts[i + 1..], rest);
    }
  }

  lemma BacksStop(b: string, s: nat, c: Cmd, rest: seq<Lexeme>)
    requires Stands(b, s, [], rest) && (rest == [] || !Is(rest[0], '&'))
    ensures ParseBacks(b, s, c) == (c, Skip(b, s)) && Stands(b, Skip(b, s), [], rest)
  {
    SeesMeans(b, s);
    Skipped(b, s, [], rest);
    assert [] + rest == rest;
  }

  // -------------------------------------------------------------------
  // The parser is the grammar
  // -------------------------------------------------------------------

  lemma AllRead(b: string, s: nat)
    requires s <= |b|
    ensures Tokens(b, s) == [] <==> Skip(b, s) == |b|
  {
    Peek(b, s);
  }

  /** A line parses to a command if and only if the grammar derives the command from the line's tokens,
      all of them, in order. */
  lemma ParsesExactly(b: string, c: Cmd)
    ensures ParseCmd(b) == Ok(c, |b|) <==> Line(c, Tokens(b, 0))
  {
    hide ParseLine;
    hide Line;
    hide Tokens;
    var ts := Tokens(b, 0);
    if Line(c, ts) {
      assert ts + [] == ts;
      var s' := LineComplete(b, 0, c, ts, []);
      AllRead(b, s');
    }
    if ParseCmd(b) == Ok(c, |b|) {
      var k := LineSound(b, 0);
      var s' := ParseLine(b, 0).s;
      AllRead(b, s');
      assert ts[..k] == ts;
    }
  }

  // -------------------------------------------------------------------
  // No word is lost
  // -------------------------------------------------------------------

  /** All arguments of a command, from left to right. */
  function AllArgs(c: Cmd): seq<Span> {
    match c
    case Exec(argv) => argv
    case Redir(d, _, _, _) => AllArgs(d)
    case Pipe(l, r) => AllArgs(l) + AllArgs(r)
    case List(l, r) => AllArgs(l) + AllArgs(r)
    case Back(d) => AllArgs(d)
  }

  /** All its redirections, from left to right. */
  function AllOpenings(c: Cmd): seq<Opening> {
    match c
    case Exec(_) => []
    case Redir(d, f, mode, fd) => AllOpenings(d) + [Opening(f, mode, fd)]
    case Pipe(l, r) => AllOpenings(l) + AllOpenings(r)
    case List(l, r) => AllOpenings(l) + AllOpenings(r)
    case Back(d) => AllOpenings(d)
  }

  /** The words of the tokens and of the command are the same. */
  ghost predicate SameWords(c: Cmd, ts: seq<Lexeme>) {
    Paired(ts) && AllArgs(c) == PlainWords(ts) && AllOpenings(c) == Openings(ts)
  }

  lemma SymbolAlone(x: Lexeme)
    requires !IsOp(x) && x.tok != Word
    ensures Paired([x]) && PlainWords([x]) == [] && Openings([x]) == []
  {
    assert [x][1..] == [];
  }

  lemma {:induction false} SimpleWords(c: Cmd)
    requires IsSimple(c)
    ensures AllArgs(c) == ArgsOf(c) && AllOpenings(c) == OpeningsOf(c)
  {
    if c.Redir? {
      SimpleWords(c.cmd);
    }
  }

  /** ts[..i], the symbol ts[i], and the rest. */
  lemma AroundSymbol(ts: seq<Lexeme>, i: nat)
    requires i < |ts| && !IsOp(ts[i]) && ts[i].tok != Word && Paired(ts[..i]) && Paired(ts[i + 1..])
    ensures Paired(ts) && PlainWords(ts) == PlainWords(ts[..i]) + PlainWords(ts[i + 1..]) && Openings(ts) == Openings(ts[..i]) + Openings(ts[i + 1..])
  {
    hide PlainWords;
    hide Openings;
    hide Paired;
    var x, y, z := ts[..i], [ts[i]], ts[i + 1..];
    assert ts == x + (y + z);
    SymbolAlone(ts[i]);
    PairedJoin(y, z);
    PairedJoin(x, y + z);
  }

  lemma {:induction false} CommandWords(c: Cmd, ts: seq<Lexeme>)
    requires SimpleCommand(c, ts) || Block(c, ts)
    ensures SameWords(c, ts)
    decreases |ts|, 0
  {
    hide Line;
    if SimpleCommand(c, ts) {
      SimplePaired(ts);
      SimpleWords(c);
    } else {
      var n := |ts|;
      if n >= 2 && Is(ts[0], '(') && Is(ts[n - 1], ')') && Line(c, ts[1..n - 1]) {
        LineWords(c, ts[1..n - 1]);
        InParentheses(ts);
      } else {
        CommandWords(c.cmd, ts[..n - 2]);
        assert ts == ts[..n - 2] + [ts[n - 2], ts[n - 1]];
        PairTokens(ts[n - 2], ts[n - 1]);
        SimplePaired([ts[n - 2], ts[n - 1]]);
        PairedJoin(ts[..n - 2], [ts[n - 2], ts[n - 1]]);
      }
    }
  }

  lemma InParentheses(ts: seq<Lexeme>)
    requires |ts| >= 2 && Is(ts[0], '(') && Is(ts[|ts| - 1], ')') && Paired(ts[1..|ts| - 1])
    ensures Paired(ts) && PlainWords(ts) == PlainWords(ts[1..|ts| - 1]) && Openings(ts) == Openings(ts[1..|ts| - 1])
  {
    var n := |ts|;
    var us := ts[1..];
    assert us[..n - 2] == ts[1..n - 1] && us[n - 1..] == [];
    AroundSymbol(us, n - 2);
    AroundSymbol(ts, 0);
  }

  lemma {:induction false} PipelineWords(c: Cmd, ts: seq<Lexeme>)
    requires Pipeline(c, ts)
    ensures SameWords(c, ts)
    decreases |ts|, 1
  {
    hide SimpleCommand;
    hide Block;
    if SimpleCommand(c, ts) || Block(c, ts) {
      CommandWords(c, ts);
    } else {
      var i: nat :| PipelineAt(c, ts, i);
      CommandWords(c.left, ts[..i]);
      PipelineWords(c.right, ts[i + 1..]);
      AroundSymbol(ts, i);
    }
  }

  lemma {:induction false} BackgroundWords(c: Cmd, ts: seq<Lexeme>)
    requires Background(c, ts)
    ensures SameWords(c, ts)
    decreases |ts|, 2
  {
    hide Pipeline;
    if Pipeline(c, ts) {
      PipelineWords(c, ts);
    } else {
      var n := |ts| - 1;
      BackgroundWords(c.cmd, ts[..n]);
      assert ts[n + 1..] == [];
      AroundSymbol(ts, n);
    }
  }

  lemma {:induction false} LineWords(c: Cmd, ts: seq<Lexeme>)
    requires Line(c, ts)
    ensures SameWords(c, ts)
    decreases |ts|, 3
  {
    hide Background;
    if Background(c, ts) {
      BackgroundWords(c, ts);
    } else {
      var i: nat :| LineAt(c, ts, i);
      BackgroundWords(c.left, ts[..i]);
      LineWords(c.right, ts[i + 1..]);
      AroundSymbol(ts, i);
    }
  }

  /** Every word of a line that parses is in the command once and in its place: those right behind `<`,
      `>` or `>>` as files opened that way, all others as arguments. */
  lemma NoWordLost(b: string)
    requires ParseCmd(b).Ok?
    ensures AllArgs(ParseCmd(b).cmd) == PlainWords(Tokens(b, 0)) && AllOpenings(ParseCmd(b).cmd) == Openings(Tokens(b, 0))
  {
    hide Line;
    hide Tokens;
    ParsesExactly(b, ParseCmd(b).cmd);
    LineWords(ParseCmd(b).cmd, Tokens(b, 0));
  }
}
