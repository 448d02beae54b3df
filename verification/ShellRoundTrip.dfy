/** Printing a command tree with parentheses and parsing the text gives the tree back. */
module ShellRoundTrip {
  import opened ShellParser

  /** A command with its words as strings. */
  datatype Tree =
    | ExecT(args: seq<string>)
    | RedirT(cmd: Tree, file: string, mode: nat, fd: nat)
    | PipeT(left: Tree, right: Tree)
    | ListT(left: Tree, right: Tree)
    | BackT(cmd: Tree)

  ghost predicate IsWord(w: string) {
    |w| > 0 && forall i :: 0 <= i < |w| ==> IsWordChar(w[i])
  }

  /** The mode that goes with a redirected descriptor. */
  function ModeOf(fd: nat): nat {
    if fd == 0 then O_RDONLY else O_WRONLY + O_CREATE
  }

  /** What the parser can produce: at most 9 arguments, words without blanks or symbols, input
      opened for reading and output for writing. */
  ghost predicate Good(t: Tree) {
    match t
    case ExecT(args) => |args| < MAXARGS && forall i :: 0 <= i < |args| ==> IsWord(args[i])
    case RedirT(c, f, mode, fd) => Good(c) && IsWord(f) && fd < 2 && mode == ModeOf(fd)
    case PipeT(l, r) => Good(l) && Good(r)
    case ListT(l, r) => Good(l) && Good(r)
    case BackT(c) => Good(c)
  }

  function Join(args: seq<string>): string {
    if args == [] then ""
    else if |args| == 1 then args[0]
    else args[0] + (" " + Join(args[1..]))
  }

  function Block(t: Tree): string
    decreases t, 1
  {
    "(" + (Print(t) + ")")
  }

  function Print(t: Tree): string
    decreases t, 0
  {
    match t
    case ExecT(args) => Join(args)
    case RedirT(c, f, _, fd) => Block(c) + ((if fd == 0 then "<" else ">") + f)
    case PipeT(l, r) => Block(l) + ("|" + Block(r))
    case ListT(l, r) => Block(l) + (";" + Block(r))
    case BackT(c) => Block(c) + "&"
  }

  function TextOf(b: string, sp: Span): string
  {
    if sp.q <= sp.eq <= |b| then b[sp.q..sp.eq] else ""
  }

  function Texts(b: string, argv: seq<Span>): (r: seq<string>)
    ensures |r| == |argv| && forall i :: 0 <= i < |argv| ==> r[i] == TextOf(b, argv[i])
  {
    seq(|argv|, i requires 0 <= i < |argv| => TextOf(b, argv[i]))
  }

  /** The tree that a parsed command denotes. */
  function Text(b: string, c: Cmd): Tree {
    match c
    case Exec(argv) => ExecT(Texts(b, argv))
    case Redir(d, f, mode, fd) => RedirT(Text(b, d), TextOf(b, f), mode, fd)
    case Pipe(l, r) => PipeT(Text(b, l), Text(b, r))
    case List(l, r) => ListT(Text(b, l), Text(b, r))
    case Back(d) => BackT(Text(b, d))
  }

  // -------------------------------------------------------------------
  // Reading a printed piece at a position of a larger buffer
  // -------------------------------------------------------------------

  ghost predicate HasAt(b: string, s: nat, x: string) {
    s + |x| <= |b| && b[s..s + |x|] == x
  }

  lemma HasParts(b: string, s: nat, x: string, y: string)
    requires HasAt(b, s, x + y)
    ensures HasAt(b, s, x) && HasAt(b, s + |x|, y)
  {
    assert (x + y)[..|x|] == x && (x + y)[|x|..] == y;
    assert b[s..s + |x|] == b[s..s + |x + y|][..|x|];
    assert b[s + |x|..s + |x| + |y|] == b[s..s + |x + y|][|x|..];
  }

  lemma HasNothing(b: string, s: nat)
    requires s <= |b|
    ensures HasAt(b, s, "")
  {
  }

  /** The text at s is over: the end of the buffer or a closing parenthesis. */
  ghost predicate Closes(b: string, s: nat) {
    s == |b| || (s < |b| && b[s] == ')')
  }

  lemma SkipNone(b: string, s: nat)
    requires s <= |b| && (s < |b| ==> !IsSpace(b[s]))
    ensures Skip(b, s) == s
  {
  }

  lemma SkipOne(b: string, s: nat)
    requires s < |b| && IsSpace(b[s]) && (s + 1 < |b| ==> !IsSpace(b[s + 1]))
    ensures Skip(b, s) == s + 1
  {
  }

  lemma SymbolToken(b: string, s: nat, c: char)
    requires s < |b| && b[s] == c && IsSymbol(c) && (s + 1 < |b| ==> b[s + 1] != '>' && !IsSpace(b[s + 1]))
    ensures Skip(b, s) == s && GetToken(b, s) == Token(Symbol(c), s, s + 1, s + 1)
  {
  }

  /** A word followed by a blank, a symbol or the end. */
  lemma WordToken(b: string, s: nat, w: string)
    requires IsWord(w) && HasAt(b, s, w) && (s + |w| < |b| ==> IsSpace(b[s + |w|]) || IsSymbol(b[s + |w|]))
    ensures Skip(b, s) == s && b[s] == w[0]
    ensures GetToken(b, s) == Token(Word, s, s + |w|, Skip(b, s + |w|))
    ensures TextOf(b, Span(s, s + |w|)) == w
  {
  }

  lemma CharAt(b: string, s: nat, x: string)
    requires HasAt(b, s, x) && |x| > 0
    ensures b[s] == x[0]
  {
  }

  lemma NothingSeen(b: string, s: nat, toks: string)
    requires s <= |b| && (s < |b| ==> !IsSpace(b[s]) && b[s] !in toks)
    ensures !Sees(b, s, toks) && Skip(b, s) == s
  {
  }

  lemma NoRedirs(b: string, s: nat, c: Cmd)
    requires s <= |b| && (s < |b| ==> !IsSpace(b[s]) && b[s] !in "<>")
    ensures ParseRedirs(b, s, c) == Ok(c, s)
  {
  }

  // -------------------------------------------------------------------
  // Arguments
  // -------------------------------------------------------------------

  lemma JoinParts(args: seq<string>)
    requires |args| > 1
    ensures Join(args) == args[0] + (" " + Join(args[1..]))
  {
  }

  lemma ArgsEnd(b: string, s: nat, c: Cmd)
    requires Closes(b, s)
    ensures ParseArgs(b, s, c) == Ok(c, s)
  {
  }

  /** The first of some joined words: its token, and where the next one starts. */
  lemma ArgHead(b: string, s: nat, args: seq<string>) returns (next: nat)
    requires HasAt(b, s, Join(args)) && Closes(b, s + |Join(args)|) && |args| > 0
    requires forall i :: 0 <= i < |args| ==> IsWord(args[i])
    ensures var w, rest := args[0], args[1..];
            && s < |b| && IsWordChar(b[s]) && GetToken(b, s) == Token(Word, s, s + |w|, next) && TextOf(b, Span(s, s + |w|)) == w
            && next <= |b| && HasAt(b, next, Join(rest)) && next + |Join(rest)| == s + |Join(args)|
            && (next < |b| ==> !IsSpace(b[next]) && b[next] !in "<>")
  {
    hide GetToken;
    hide Skip;
    hide HasAt;
    var w, rest := args[0], args[1..];
    var e := s + |w|;
    FirstArg(b, s, args);
    if |args| > 1 {
      JoinParts(args);
      HasParts(b, s, w, " " + Join(rest));
      HasParts(b, e, " ", Join(rest));
      CharAt(b, e, " ");
      FirstArg(b, e + 1, rest);
      next := e + 1;
      SkipOne(b, e);
    } else {
      assert rest == [] && Join(rest) == "";
      next := e;
      SkipNone(b, next);
      HasNothing(b, next);
    }
    WordToken(b, s, w);
  }

  lemma {:induction false} ArgsParse(b: string, s: nat, args: seq<string>, argv: seq<Span>) returns (all: seq<Span>)
    requires HasAt(b, s, Join(args)) && Closes(b, s + |Join(args)|)
    requires |argv| + |args| < MAXARGS && forall i :: 0 <= i < |args| ==> IsWord(args[i])
    ensures ParseArgs(b, s, Exec(argv)) == Ok(Exec(all), s + |Join(args)|)
    ensures Texts(b, all) == Texts(b, argv) + args
    decreases args
  {
    hide ParseArgs;
    hide ParseRedirs;
    hide GetToken;
    hide HasAt;
    hide TextOf;
    hide IsWord;
    if args == [] {
      all := argv;
      ArgsEnd(b, s, Exec(argv));
    } else {
      var next := ArgHead(b, s, args);
      var w, rest := args[0], args[1..];
      var more := argv + [Span(s, s + |w|)];
      NoRedirs(b, next, Exec(more));
      all := ArgsParse(b, next, rest, more);
      assert Texts(b, more) == Texts(b, argv) + [w];
      assert [w] + rest == args;
      ArgStep(b, s, argv, s + |w|, next);
    }
  }

  lemma FirstArg(b: string, s: nat, args: seq<string>)
    requires HasAt(b, s, Join(args)) && |args| > 0 && IsWord(args[0])
    ensures s < |b| && IsWordChar(b[s])
  {
  }

  lemma ArgStep(b: string, s: nat, argv: seq<Span>, e: nat, next: nat)
    requires s < |b| && IsWordChar(b[s]) && GetToken(b, s) == Token(Word, s, e, next)
    requires |argv| + 1 < MAXARGS && ParseRedirs(b, next, Exec(argv + [Span(s, e)])) == Ok(Exec(argv + [Span(s, e)]), next)
    ensures ParseArgs(b, s, Exec(argv)) == ParseArgs(b, next, Exec(argv + [Span(s, e)]))
  {
  }

  // -------------------------------------------------------------------
  // Lines and blocks
  // -------------------------------------------------------------------

  /** After the pipeline the line is over. */
  lemma LineOfPipe(b: string, s: nat, c: Cmd, e: nat)
    requires s <= e && Closes(b, e) && ParsePipe(b, s) == Ok(c, e)
    ensures ParseLine(b, s) == Ok(c, e)
  {
    hide GetToken;
    hide ParsePipe;
    NothingSeen(b, e, "&");
    NothingSeen(b, e, ";");
  }

  /** After the simple command or block the pipeline is over. */
  lemma PipeOfExec(b: string, s: nat, c: Cmd, e: nat)
    requires s <= e <= |b| && (e < |b| ==> !IsSpace(b[e]) && b[e] != '|') && ParseExec(b, s) == Ok(c, e)
    ensures ParsePipe(b, s) == Ok(c, e)
  {
  }

  lemma ExecParse(b: string, s: nat, args: seq<string>) returns (c: Cmd)
    requires HasAt(b, s, Join(args)) && Closes(b, s + |Join(args)|) && Good(ExecT(args))
    ensures ParseExec(b, s) == Ok(c, s + |Join(args)|) && Text(b, c) == ExecT(args)
  {
    hide ParseArgs;
    hide ParseRedirs;
    if args != [] {
      FirstArg(b, s, args);
    }
    NothingSeen(b, s, "(");
    NoRedirs(b, s, Exec([]));
    var all := ArgsParse(b, s, args, []);
    c := Exec(all);
    assert Texts(b, []) == [];
  }

  /** A block and whatever follows it: redirections, for all we know. */
  lemma {:induction false} BlockParse(b: string, s: nat, t: Tree) returns (c: Cmd)
    requires Good(t) && HasAt(b, s, Block(t))
    requires var e := s + |Block(t)|; e < |b| ==> !IsSpace(b[e])
    ensures s + |Block(t)| <= |b| && Text(b, c) == t
    ensures ParseExec(b, s) == ParseRedirs(b, s + |Block(t)|, c)
    ensures s < |b| && b[s] == '('
    decreases t, 4
  {
    hide HasAt;
    hide Skip;
    hide ParseLine;
    hide ParseRedirs;
    hide GetToken;
    hide Print;
    hide Good;
    hide Text;
    var m := s + 1 + |Print(t)|;
    HasParts(b, s, "(", Print(t) + ")");
    HasParts(b, s + 1, Print(t), ")");
    CharAt(b, s, "(");
    CharAt(b, m, ")");
    BlockFirst(b, s, t);
    SymbolToken(b, s, '(');
    c := LineParse(b, s + 1, t);
    CloseToken(b, m);
    BlockStep(b, s, m, c);
  }

  lemma BlockFirst(b: string, s: nat, t: Tree)
    requires Good(t) && HasAt(b, s + 1, Print(t)) && s + 1 + |Print(t)| < |b| && b[s + 1 + |Print(t)|] == ')'
    ensures b[s + 1] != '>' && !IsSpace(b[s + 1])
  {
  }

  lemma CloseToken(b: string, m: nat)
    requires m < |b| && b[m] == ')' && (m + 1 < |b| ==> !IsSpace(b[m + 1]))
    ensures Skip(b, m) == m && GetToken(b, m).next == m + 1
  {
  }

  lemma BlockStep(b: string, s: nat, m: nat, c: Cmd)
    requires s < m < |b| && b[s] == '(' && b[m] == ')' && Skip(b, s) == s && Skip(b, m) == m
    requires GetToken(b, s).next == s + 1 && GetToken(b, m).next == m + 1 && ParseLine(b, s + 1) == Ok(c, m)
    ensures ParseExec(b, s) == ParseRedirs(b, m + 1, c)
  {
    hide GetToken;
    hide Skip;
    hide ParseLine;
    hide ParseRedirs;
    assert Sees(b, s, "(") && Sees(b, m, ")");
  }

  /** Reading a printed tree. */
  lemma {:induction false} LineParse(b: string, s: nat, t: Tree) returns (c: Cmd)
    requires Good(t) && HasAt(b, s, Print(t)) && Closes(b, s + |Print(t)|)
    ensures ParseLine(b, s) == Ok(c, s + |Print(t)|) && Text(b, c) == t
    decreases t, 3
  {
    hide ParseLine;
    hide ParsePipe;
    hide ParseExec;
    hide Block;
    match t
    case ExecT(args) =>
      c := ExecParse(b, s, args);
      PipeOfExec(b, s, c, s + |Print(t)|);
      LineOfPipe(b, s, c, s + |Print(t)|);
    case RedirT(_, _, _, _) =>
      c := RedirParse(b, s, t);
    case PipeT(_, _) =>
      c := PipeParse(b, s, t);
    case ListT(_, _) =>
      c := ListParse(b, s, t);
    case BackT(_) =>
      c := BackParse(b, s, t);
  }

  /** A redirection symbol and a word, at the end. */
  lemma RedirTail(b: string, s: nat, f: string, fd: nat, c: Cmd)
    requires HasAt(b, s, (if fd == 0 then "<" else ">") + f) && IsWord(f) && fd < 2 && Closes(b, s + 1 + |f|)
    ensures s < |b| && !IsSpace(b[s])
    ensures ParseRedirs(b, s, c) == Ok(Redir(c, Span(s + 1, s + 1 + |f|), ModeOf(fd), fd), s + 1 + |f|)
    ensures TextOf(b, Span(s + 1, s + 1 + |f|)) == f
  {
    hide ParseRedirs;
    hide GetToken;
    hide HasAt;
    hide Skip;
    hide WordEnd;
    hide TextOf;
    var sym := if fd == 0 then "<" else ">";
    var e := s + 1 + |f|;
    HasParts(b, s, sym, f);
    CharAt(b, s, sym);
    CharAt(b, s + 1, f);
    SymbolToken(b, s, sym[0]);
    WordToken(b, s + 1, f);
    SkipNone(b, e);
    NoRedirs(b, e, Redir(c, Span(s + 1, e), ModeOf(fd), fd));
    RedirStep(b, s, e, c, fd);
  }

  lemma {:induction false} RedirParse(b: string, s: nat, t: Tree) returns (c: Cmd)
    requires t.RedirT? && Good(t) && HasAt(b, s, Print(t)) && Closes(b, s + |Print(t)|)
    ensures ParseLine(b, s) == Ok(c, s + |Print(t)|) && Text(b, c) == t
    decreases t, 2
  {
    hide ParseLine;
    hide ParsePipe;
    hide ParseExec;
    hide ParseRedirs;
    hide HasAt;
    hide IsWord;
    hide Block;
    hide TextOf;
    var e1, e := s + |Block(t.cmd)|, s + |Print(t)|;
    HasParts(b, s, Block(t.cmd), (if t.fd == 0 then "<" else ">") + t.file);
    c := Exec([]);
    RedirTail(b, e1, t.file, t.fd, c);
    var inner := BlockParse(b, s, t.cmd);
    RedirTail(b, e1, t.file, t.fd, inner);
    c := Redir(inner, Span(e1 + 1, e), t.mode, t.fd);
    PipeOfExec(b, s, c, e);
    LineOfPipe(b, s, c, e);
  }

  lemma RedirStep(b: string, e1: nat, e: nat, c: Cmd, fd: nat)
    requires e1 < |b| && Skip(b, e1) == e1 && e <= |b|
    requires (fd == 0 && b[e1] == '<') || (fd == 1 && b[e1] == '>')
    requires GetToken(b, e1) == Token(Symbol(b[e1]), e1, e1 + 1, e1 + 1) && GetToken(b, e1 + 1) == Token(Word, e1 + 1, e, e)
    ensures ParseRedirs(b, e1, c) == ParseRedirs(b, e, Redir(c, Span(e1 + 1, e), ModeOf(fd), fd))
  {
  }

  /** Two blocks with a symbol between them. */
  lemma {:induction false} TwoBlocks(b: string, s: nat, t: Tree, sym: char) returns (c: Cmd, d: Cmd)
    requires (t.PipeT? && sym == '|') || (t.ListT? && sym == ';')
    requires Good(t) && HasAt(b, s, Print(t)) && Closes(b, s + |Print(t)|)
    ensures var e1, e := s + |Block(t.left)|, s + |Print(t)|;
            && e1 < e <= |b| && b[e1] == sym && Skip(b, e1) == e1 && GetToken(b, e1).next == e1 + 1
            && ParseExec(b, s) == Ok(c, e1) && ParseExec(b, e1 + 1) == Ok(d, e)
            && Text(b, c) == t.left && Text(b, d) == t.right
    decreases t, 1
  {
    hide HasAt;
    hide Skip;
    hide ParseExec;
    hide ParseRedirs;
    hide GetToken;
    hide Block;
    var e1, e := s + |Block(t.left)|, s + |Print(t)|;
    HasParts(b, s, Block(t.left), [sym] + Block(t.right));
    HasParts(b, e1, [sym], Block(t.right));
    CharAt(b, e1, [sym]);
    c := BlockParse(b, s, t.left);
    NoRedirs(b, e1, c);
    d := BlockParse(b, e1 + 1, t.right);
    NoRedirs(b, e, d);
    SymbolToken(b, e1, sym);
  }

  lemma PipeOfTwo(b: string, s: nat, e1: nat, l: Cmd, r: Cmd, e: nat)
    requires s <= e1 < |b| && b[e1] == '|' && Skip(b, e1) == e1 && GetToken(b, e1).next == e1 + 1
    requires ParseExec(b, s) == Ok(l, e1) && ParsePipe(b, e1 + 1) == Ok(r, e)
    ensures ParsePipe(b, s) == Ok(Pipe(l, r), e)
  {
  }

  lemma LineOfTwo(b: string, s: nat, e1: nat, l: Cmd, r: Cmd, e: nat)
    requires s <= e1 < |b| && b[e1] == ';' && Skip(b, e1) == e1 && GetToken(b, e1).next == e1 + 1
    requires ParsePipe(b, s) == Ok(l, e1) && ParseLine(b, e1 + 1) == Ok(r, e)
    ensures ParseLine(b, s) == Ok(List(l, r), e)
  {
  }

  lemma {:induction false} PipeParse(b: string, s: nat, t: Tree) returns (c: Cmd)
    requires t.PipeT? && Good(t) && HasAt(b, s, Print(t)) && Closes(b, s + |Print(t)|)
    ensures ParseLine(b, s) == Ok(c, s + |Print(t)|) && Text(b, c) == t
    decreases t, 2
  {
    hide ParseLine;
    hide ParsePipe;
    hide ParseExec;
    hide GetToken;
    hide Skip;
    hide HasAt;
    hide Block;
    hide Print;
    var l, r := TwoBlocks(b, s, t, '|');
    var e1, e := s + |Block(t.left)|, s + |Print(t)|;
    PipeOfExec(b, e1 + 1, r, e);
    c := Pipe(l, r);
    PipeOfTwo(b, s, e1, l, r, e);
    LineOfPipe(b, s, c, e);
  }

  lemma {:induction false} ListParse(b: string, s: nat, t: Tree) returns (c: Cmd)
    requires t.ListT? && Good(t) && HasAt(b, s, Print(t)) && Closes(b, s + |Print(t)|)
    ensures ParseLine(b, s) == Ok(c, s + |Print(t)|) && Text(b, c) == t
    decreases t, 2
  {
    hide ParseLine;
    hide ParsePipe;
    hide ParseExec;
    hide GetToken;
    hide Skip;
    hide HasAt;
    hide Block;
    hide Print;
    var l, r := TwoBlocks(b, s, t, ';');
    var e1, e := s + |Block(t.left)|, s + |Print(t)|;
    PipeOfExec(b, e1 + 1, r, e);
    LineOfPipe(b, e1 + 1, r, e);
    PipeOfExec(b, s, l, e1);
    c := List(l, r);
    LineOfTwo(b, s, e1, l, r, e);
  }

  lemma {:induction false} BackParse(b: string, s: nat, t: Tree) returns (c: Cmd)
    requires t.BackT? && Good(t) && HasAt(b, s, Print(t)) && Closes(b, s + |Print(t)|)
    ensures ParseLine(b, s) == Ok(c, s + |Print(t)|) && Text(b, c) == t
    decreases t, 2
  {
    hide ParseLine;
    hide HasAt;
    hide Skip;
    hide ParsePipe;
    hide ParseExec;
    hide ParseRedirs;
    hide GetToken;
    hide Block;
    var e1 := s + |Block(t.cmd)|;
    HasParts(b, s, Block(t.cmd), "&");
    CharAt(b, e1, "&");
    var d := BlockParse(b, s, t.cmd);
    NoRedirs(b, e1, d);
    PipeOfExec(b, s, d, e1);
    SymbolToken(b, e1, '&');
    c := Back(d);
    LineOfBack(b, s, e1, d);
  }

  lemma LineOfBack(b: string, s: nat, e1: nat, d: Cmd)
    requires s <= e1 < |b| && b[e1] == '&' && Skip(b, e1) == e1 && Closes(b, e1 + 1)
    requires ParsePipe(b, s) == Ok(d, e1) && GetToken(b, e1).next == e1 + 1
    ensures ParseLine(b, s) == Ok(Back(d), e1 + 1)
  {
    hide GetToken;
    hide ParsePipe;
    assert Sees(b, e1, "&");
    NothingSeen(b, e1 + 1, "&");
    NothingSeen(b, e1 + 1, ";");
    assert ParseBacks(b, e1 + 1, Back(d)) == (Back(d), e1 + 1);
  }

  /** Printing any command tree and parsing the text gives the same tree. */
  lemma PrintThenParse(t: Tree) returns (c: Cmd)
    requires Good(t)
    ensures ParseCmd(Print(t)) == Ok(c, |Print(t)|) && Text(Print(t), c) == t
  {
    var b := Print(t);
    assert b[0..0 + |b|] == b;
    c := LineParse(b, 0, t);
  }
}
