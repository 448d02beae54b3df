/** The command parser of sh.c. A buffer is the text up to its NUL; a parsed command points
    into it by spans, as argv/eargv and file/efile do. */
module ShellParser {
  const MAXARGS: nat := 10

  predicate IsSpace(c: char) {
    c == ' ' || c == '\t' || c == '\r' || c == '\n' || c == '\U{000B}'
  }

  predicate IsSymbol(c: char) {
    c == '<' || c == '|' || c == '>' || c == '&' || c == ';' || c == '(' || c == ')'
  }

  predicate IsWordChar(c: char) {
    !IsSpace(c) && !IsSymbol(c) && c != '\0'
  }

  ghost predicate NoNul(b: string) {
    forall i :: 0 <= i < |b| ==> b[i] != '\0'
  }

  // -------------------------------------------------------------------
  // Tokens
  // -------------------------------------------------------------------

  function Skip(b: string, s: nat): (r: nat)
    requires s <= |b|
    ensures s <= r <= |b| && (forall k :: s <= k < r ==> IsSpace(b[k])) && (r < |b| ==> !IsSpace(b[r]))
    decreases |b| - s
  {
    if s < |b| && IsSpace(b[s]) then Skip(b, s + 1) else s
  }

  function WordEnd(b: string, s: nat): (r: nat)
    requires s <= |b|
    ensures s <= r <= |b| && (forall k :: s <= k < r ==> !IsSpace(b[k]) && !IsSymbol(b[k]))
    ensures r < |b| ==> IsSpace(b[r]) || IsSymbol(b[r])
    decreases |b| - s
  {
    if s < |b| && !IsSpace(b[s]) && !IsSymbol(b[s]) then WordEnd(b, s + 1) else s
  }

  datatype Tok = End | Word | Append | Symbol(c: char)

  datatype Token = Token(tok: Tok, q: nat, eq: nat, next: nat)

  /** The kind of token at q and where it ends. */
  function Lex(b: string, q: nat): (r: (Tok, nat))
    requires q <= |b|
    ensures q <= r.1 <= |b| && (r.0 != End ==> q < r.1)
  {
    if q == |b| then (End, q)
    else if b[q] == '>' && q + 1 < |b| && b[q + 1] == '>' then (Append, q + 2)
    else if IsSymbol(b[q]) then (Symbol(b[q]), q + 1)
    else if IsSpace(b[q]) then (End, q)
    else (Word, WordEnd(b, q))
  }

  function GetToken(b: string, s: nat): (t: Token)
    requires s <= |b|
    ensures s <= t.q <= t.eq <= t.next <= |b| && t.q == Skip(b, s)
    ensures (t.tok == End <==> t.q == |b|) && (t.tok != End ==> t.q < t.eq)
    ensures t.tok == Word <==> t.q < |b| && !IsSymbol(b[t.q])
  {
    var q := Skip(b, s);
    var (tok, eq) := Lex(b, q);
    Token(tok, q, eq, Skip(b, eq))
  }

  /** peek: the next token starts with one of toks. */
  predicate Sees(b: string, s: nat, toks: string)
    requires s <= |b|
  {
    Skip(b, s) < |b| && b[Skip(b, s)] in toks
  }

  /** gettoken's two whitespace loops, and peek's. */
  method SkipSpace(b: string, s: nat) returns (r: nat)
    requires s <= |b|
    ensures r == Skip(b, s)
  {
    r := s;
    while r < |b| && IsSpace(b[r])
      invariant s <= r <= |b| && Skip(b, r) == Skip(b, s)
    {
      r := r + 1;
    }
  }

  method NextToken(b: string, s: nat) returns (t: Token)
    requires s <= |b| && NoNul(b)
    ensures t == GetToken(b, s)
  {
    var q := SkipSpace(b, s);
    var p := q;
    var tok := End;
    if p < |b| {
      if b[p] == '>' {
        tok := Symbol('>');
        p := p + 1;
        if p < |b| && b[p] == '>' {
          tok := Append;
          p := p + 1;
        }
      } else if IsSymbol(b[p]) {
        tok := Symbol(b[p]);
        p := p + 1;
      } else {
        tok := Word;
        while p < |b| && !IsSpace(b[p]) && !IsSymbol(b[p])
          invariant q <= p <= |b| && WordEnd(b, p) == WordEnd(b, q)
        {
          p := p + 1;
        }
      }
    }
    var next := SkipSpace(b, p);
    t := Token(tok, q, p, next);
  }

  // -------------------------------------------------------------------
  // Commands
  // -------------------------------------------------------------------

  datatype Span = Span(q: nat, eq: nat)

  datatype Cmd =
    | Exec(argv: seq<Span>)
    | Redir(cmd: Cmd, file: Span, mode: nat, fd: nat)
    | Pipe(left: Cmd, right: Cmd)
    | List(left: Cmd, right: Cmd)
    | Back(cmd: Cmd)

  datatype Parsed = Ok(cmd: Cmd, s: nat) | Panic(msg: string)

  /** The execcmd under its redirections gets one more argument. */
  function AddArg(c: Cmd, a: Span): Cmd {
    match c
    case Exec(argv) => Exec(argv + [a])
    case Redir(d, f, mode, fd) => Redir(AddArg(d, a), f, mode, fd)
    case _ => c
  }

  function Argc(c: Cmd): nat {
    match c
    case Exec(argv) => |argv|
    case Redir(d, _, _, _) => Argc(d)
    case _ => 0
  }

  // Open modes, of which there are no others than O_RDWR.

  const O_RDONLY: nat := 0x000
  const O_WRONLY: nat := 0x001
  const O_CREATE: nat := 0x200

  /** The redircmd that parseredirs makes for each of its tokens. */
  function Redirected(c: Cmd, f: Span, tok: Tok): Cmd {
    match tok
    case Symbol('<') => Redir(c, f, O_RDONLY, 0)
    case Symbol('>') => Redir(c, f, O_WRONLY + O_CREATE, 1)
    case Append => Redir(c, f, O_WRONLY + O_CREATE, 1)
    case _ => c
  }

  function ParseRedirs(b: string, s: nat, c: Cmd): (r: Parsed)
    requires s <= |b|
    ensures r.Ok? ==> s <= r.s <= |b|
    decreases |b| - s
  {
    if Sees(b, s, "<>") then
      var t := GetToken(b, s);
      var f := GetToken(b, t.next);
      if f.tok != Word then Panic("missing file for redirection")
      else ParseRedirs(b, f.next, Redirected(c, Span(f.q, f.eq), t.tok))
    else Ok(c, Skip(b, s))
  }

  function ParseArgs(b: string, s: nat, c: Cmd): (r: Parsed)
    requires s <= |b|
    ensures r.Ok? ==> s <= r.s <= |b|
    decreases |b| - s
  {
    if Sees(b, s, "|)&;") then Ok(c, Skip(b, s))
    else
      var t := GetToken(b, s);
      if t.tok == End then Ok(c, t.next)
      else if t.tok != Word then Panic("syntax")
      else
        var d := AddArg(c, Span(t.q, t.eq));
        if Argc(d) >= MAXARGS then Panic("too many args")
        else
          match ParseRedirs(b, t.next, d)
          case Panic(m) => Panic(m)
          case Ok(e, s1) => ParseArgs(b, s1, e)
  }

  function ParseBacks(b: string, s: nat, c: Cmd): (r: (Cmd, nat))
    requires s <= |b|
    ensures s <= r.1 <= |b|
    decreases |b| - s
  {
    if Sees(b, s, "&") then ParseBacks(b, GetToken(b, s).next, Back(c)) else (c, Skip(b, s))
  }

  function ParseLine(b: string, s: nat): (r: Parsed)
    requires s <= |b|
    ensures r.Ok? ==> s <= r.s <= |b|
    decreases |b| - s, 3
  {
    match ParsePipe(b, s)
    case Panic(m) => Panic(m)
    case Ok(c, s1) =>
      var (d, s2) := ParseBacks(b, s1, c);
      if Sees(b, s2, ";") then
        match ParseLine(b, GetToken(b, s2).next)
        case Panic(m) => Panic(m)
        case Ok(e, s3) => Ok(List(d, e), s3)
      else Ok(d, s2)
  }

  function ParsePipe(b: string, s: nat): (r: Parsed)
    requires s <= |b|
    ensures r.Ok? ==> s <= r.s <= |b|
    decreases |b| - s, 2
  {
    match ParseExec(b, s)
    case Panic(m) => Panic(m)
    case Ok(c, s1) =>
      if Sees(b, s1, "|") then
        match ParsePipe(b, GetToken(b, s1).next)
        case Panic(m) => Panic(m)
        case Ok(e, s2) => Ok(Pipe(c, e), s2)
      else Ok(c, Skip(b, s1))
  }

  function ParseExec(b: string, s: nat): (r: Parsed)
    requires s <= |b|
    ensures r.Ok? ==> s <= r.s <= |b|
    decreases |b| - s, 1
  {
    if Sees(b, s, "(") then ParseBlock(b, s)
    else
      match ParseRedirs(b, s, Exec([]))
      case Panic(m) => Panic(m)
      case Ok(c, s1) => ParseArgs(b, s1, c)
  }

  function ParseBlock(b: string, s: nat): (r: Parsed)
    requires s <= |b|
    ensures r.Ok? ==> s <= r.s <= |b|
    decreases |b| - s, 0
  {
    if !Sees(b, s, "(") then Panic("parseblock")
    else
      match ParseLine(b, GetToken(b, s).next)
      case Panic(m) => Panic(m)
      case Ok(c, s1) =>
        if !Sees(b, s1, ")") then Panic("syntax - missing )")
        else ParseRedirs(b, GetToken(b, s1).next, c)
  }

  function ParseCmd(b: string): (r: Parsed) {
    match ParseLine(b, 0)
    case Panic(m) => Panic(m)
    case Ok(c, s) => if Skip(b, s) != |b| then Panic("syntax") else Ok(c, |b|)
  }
}
