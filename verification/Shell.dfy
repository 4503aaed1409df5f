/** The parser of the shell: a recursive descent over a line, which it reads token by token. First comes what it
    computes, as functions on what is left of the line; then printing, and the proof that parsing undoes it; then the
    parser itself, with its cursor. */
module Shell {
  const MAXARGS := 10

  predicate IsSpace(c: char) {
    c == ' ' || c == '\t' || c == '\r' || c == '\n' || c == '\U{000B}'
  }

  predicate IsSymbol(c: char) {
    c == '<' || c == '|' || c == '>' || c == '&' || c == ';' || c == '(' || c == ')'
  }

  predicate InWord(c: char) {
    !IsSpace(c) && !IsSymbol(c)
  }

  // ----- Tokens -----

  datatype Token = End | Symbol(c: char) | Append | Word(w: string)

  /** What is left after leading white space. */
  function Skip(s: string): (r: string)
    ensures |r| <= |s| && (r != "" ==> !IsSpace(r[0]))
  {
    if s != "" && IsSpace(s[0]) then Skip(s[1..]) else s
  }

  /** How many characters of a word the string starts with. */
  function WordLen(s: string): (n: nat)
    ensures n <= |s| && (forall i :: 0 <= i < n ==> InWord(s[i])) && (n < |s| ==> !InWord(s[n]))
  {
    if s != "" && InWord(s[0]) then 1 + WordLen(s[1..]) else 0
  }

  datatype Next = Next(tok: Token, rest: string)

  /** The next token, and what is left after it and the white space behind it. */
  function GetToken(s: string): (r: Next)
    ensures |r.rest| <= |s| && (r.tok != End ==> |r.rest| < |s|) && Skip(r.rest) == r.rest
    ensures r.tok.Word? ==> IsWord(r.tok.w)
  {
    var u := Skip(s);
    if u == "" then Next(End, "")
    else if u[0] == '>' && |u| > 1 && u[1] == '>' then SkipTwice(u[2..]); Next(Append, Skip(u[2..]))
    else if IsSymbol(u[0]) then SkipTwice(u[1..]); Next(Symbol(u[0]), Skip(u[1..]))
    else SkipTwice(u[WordLen(u)..]); Next(Word(u[..WordLen(u)]), Skip(u[WordLen(u)..]))
  }

  /** What ends a simple command. */
  const STOPS := {'|', ')', '&', ';'}

  /** The next character, after white space, is one of `toks`. */
  predicate Peek(s: string, toks: set<char>) {
    Skip(s) != "" && Skip(s)[0] in toks
  }

  predicate IsWord(w: string) {
    w != "" && forall i :: 0 <= i < |w| ==> InWord(w[i])
  }

  predicate AllWords(args: seq<string>) {
    forall i :: 0 <= i < |args| ==> IsWord(args[i])
  }

  lemma SkipTwice(s: string)
    ensures Skip(Skip(s)) == Skip(s)
  {
  }

  // ----- Commands -----

  datatype Mode = ForReading | ForWriting | ForAppending
  datatype Redirection = Redirection(file: string, mode: Mode)

  datatype Cmd =
    | Exec(args: seq<string>)
    | Redir(cmd: Cmd, to: Redirection)
    | Pipe(left: Cmd, right: Cmd)
    | List(left: Cmd, right: Cmd)
    | Back(cmd: Cmd)

  /** All files of the redirections are words. */
  predicate AllFiles(rs: seq<Redirection>) {
    forall i :: 0 <= i < |rs| ==> IsWord(rs[i].file)
  }

  datatype Error = MissingFile | Syntax | TooManyArgs | MissingParen | Leftovers

  datatype Result<T> = Ok(value: T, rest: string) | Err(error: Error)

  /** A command with redirections around it, the first one innermost. */
  function Wrap(c: Cmd, rs: seq<Redirection>): (r: Cmd) {
    if rs == [] then c else Redir(Wrap(c, rs[..|rs| - 1]), rs[|rs| - 1])
  }

  /** Redirections that come later go around those before. */
  lemma {:induction false} WrapJoins(c: Cmd, a: seq<Redirection>, b: seq<Redirection>)
    ensures Wrap(c, a + b) == Wrap(Wrap(c, a), b)
    ensures |b| == 1 ==> Wrap(c, a + b) == Redir(Wrap(c, a), b[0])
    decreases |b|
  {
    if b == [] {
      assert a + b == a;
    } else {
      var n := |b| - 1;
      assert (a + b)[..|a + b| - 1] == a + b[..n];
      WrapJoins(c, a, b[..n]);
    }
  }

  function ModeOf(tok: Token): (m: Mode) {
    if tok == Symbol('<') then ForReading else if tok == Symbol('>') then ForWriting else ForAppending
  }

  // ----- What the parser computes -----

  /** Redirections read before others. */
  function After(rs: seq<Redirection>, r: Result<seq<Redirection>>): (q: Result<seq<Redirection>>)
    ensures q.Ok? == r.Ok? && (r.Ok? ==> q.rest == r.rest)
  {
    match r
    case Ok(more, rest) => Ok(rs + more, rest)
    case Err(e) => Err(e)
  }

  lemma AfterAfter(rs: seq<Redirection>, qs: seq<Redirection>, r: Result<seq<Redirection>>)
    ensures After(rs, After(qs, r)) == After(rs + qs, r) && After([], r) == r
  {
    if r.Ok? {
      assert rs + (qs + r.value) == (rs + qs) + r.value && [] + r.value == r.value;
    }
  }

  function Redirs(s: string): (r: Result<seq<Redirection>>)
    ensures r.Ok? ==> |r.rest| <= |s| && Skip(r.rest) == r.rest && AllFiles(r.value)
    decreases |s|
  {
    if !Peek(s, {'<', '>'}) then SkipTwice(s); Ok([], Skip(s))
    else
      var a := GetToken(s);
      var b := GetToken(a.rest);
      if !b.tok.Word? then Err(MissingFile) else After([Redirection(b.tok.w, ModeOf(a.tok))], Redirs(b.rest))
  }

  datatype Simple = Simple(args: seq<string>, redirs: seq<Redirection>)

  /** Words for arguments and files, and few enough arguments. */
  predicate GoodSimple(a: Simple) {
    AllWords(a.args) && AllFiles(a.redirs) && |a.args| < MAXARGS
  }

  /** The rest of a simple command of which `a` has been read. */
  function Args(s: string, a: Simple): (r: Result<Simple>)
    ensures r.Ok? ==> |r.rest| <= |s| && Skip(r.rest) == r.rest && (GoodSimple(a) ==> GoodSimple(r.value))
    decreases |s|
  {
    if Peek(s, STOPS) then SkipTwice(s); Ok(a, Skip(s))
    else
      var n := GetToken(s);
      if n.tok == End then Ok(a, n.rest)
      else if !n.tok.Word? then Err(Syntax)
      else if |a.args| + 1 >= MAXARGS then Err(TooManyArgs)
      else
        match Redirs(n.rest)
        case Err(e) => Err(e)
        case Ok(rs, rest) => Args(rest, Simple(a.args + [n.tok.w], a.redirs + rs))
  }

  function Block(s: string): (r: Result<Cmd>)
    requires Peek(s, {'('})
    ensures r.Ok? ==> |r.rest| <= |s| && Skip(r.rest) == r.rest
    decreases |s|, 0
  {
    match Line(GetToken(s).rest)
    case Err(e) => Err(e)
    case Ok(c, rest) =>
      if !Peek(rest, {')'}) then Err(MissingParen)
      else
        match Redirs(GetToken(rest).rest)
        case Err(e) => Err(e)
        case Ok(rs, rest) => Ok(Wrap(c, rs), rest)
  }

  function Command(s: string): (r: Result<Cmd>)
    ensures r.Ok? ==> |r.rest| <= |s| && Skip(r.rest) == r.rest
    decreases |s|, 1
  {
    if Peek(s, {'('}) then Block(s)
    else
      match Redirs(s)
      case Err(e) => Err(e)
      case Ok(rs, rest) =>
        match Args(rest, Simple([], rs))
        case Err(e) => Err(e)
        case Ok(a, rest) => Ok(Wrap(Exec(a.args), a.redirs), rest)
  }

  function Pipeline(s: string): (r: Result<Cmd>)
    ensures r.Ok? ==> |r.rest| <= |s| && Skip(r.rest) == r.rest
    decreases |s|, 2
  {
    match Command(s)
    case Err(e) => Err(e)
    case Ok(c, rest) =>
      if !Peek(rest, {'|'}) then Ok(c, rest)
      else
        match Pipeline(GetToken(rest).rest)
        case Err(e) => Err(e)
        case Ok(d, rest) => Ok(Pipe(c, d), rest)
  }

  /** The command put into the background once for each ampersand. */
  function Backs(c: Cmd, s: string): (r: Result<Cmd>)
    ensures r.Ok? && |r.rest| <= |s| && Skip(r.rest) == r.rest
    decreases |s|
  {
    if Peek(s, {'&'}) then Backs(Back(c), GetToken(s).rest) else SkipTwice(s); Ok(c, Skip(s))
  }

  function Line(s: string): (r: Result<Cmd>)
    ensures r.Ok? ==> |r.rest| <= |s| && Skip(r.rest) == r.rest
    decreases |s|, 3
  {
    match Pipeline(s)
    case Err(e) => Err(e)
    case Ok(c, rest) =>
      var b := Backs(c, rest);
      if !Peek(b.rest, {';'}) then b
      else
        match Line(GetToken(b.rest).rest)
        case Err(e) => Err(e)
        case Ok(d, rest) => Ok(List(b.value, d), rest)
  }

  /** A whole line. */
  function Parse(s: string): (r: Result<Cmd>)
    ensures r.Ok? ==> r.rest == ""
  {
    match Line(s)
    case Err(e) => Err(e)
    case Ok(c, rest) => if Skip(rest) == "" then Ok(c, "") else Err(Leftovers)
  }

  // ----- Printing -----

  /** Trees with words for words and not too many arguments. */
  predicate WellFormed(c: Cmd) {
    match c
    case Exec(args) => |args| < MAXARGS && AllWords(args)
    case Redir(d, to) => WellFormed(d) && IsWord(to.file)
    case Pipe(l, r) => WellFormed(l) && WellFormed(r)
    case List(l, r) => WellFormed(l) && WellFormed(r)
    case Back(d) => WellFormed(d)
  }

  function Size(c: Cmd): (n: nat) {
    match c
    case Exec(_) => 1
    case Redir(d, _) => 1 + Size(d)
    case Pipe(l, r) => 1 + Size(l) + Size(r)
    case List(l, r) => 1 + Size(l) + Size(r)
    case Back(d) => 1 + Size(d)
  }

  /** What stands inside the redirections, and the redirections, the innermost first. */
  function Base(c: Cmd): (b: Cmd)
    ensures !b.Redir? && Size(b) <= Size(c) && (c.Redir? ==> Size(b) < Size(c)) && (WellFormed(c) ==> WellFormed(b))
  {
    if c.Redir? then Base(c.cmd) else c
  }

  function Around(c: Cmd): (rs: seq<Redirection>)
    ensures WellFormed(c) ==> AllFiles(rs)
  {
    if c.Redir? then Around(c.cmd) + [c.to] else []
  }

  lemma {:induction false} WrapUnwraps(c: Cmd)
    ensures Wrap(Base(c), Around(c)) == c
  {
    if c.Redir? {
      WrapUnwraps(c.cmd);
      assert Around(c)[..|Around(c)| - 1] == Around(c.cmd);
    }
  }

  /** Each printing function takes what is to follow, and puts a space after every word. */
  function PrintArgs(args: seq<string>, t: string): (s: string) {
    if args == [] then t else args[0] + ([' '] + PrintArgs(args[1..], t))
  }

  function PrintMode(m: Mode, t: string): (s: string) {
    if m == ForReading then ['<'] + t else if m == ForWriting then ['>'] + t else ['>'] + (['>'] + t)
  }

  function PrintRedirs(rs: seq<Redirection>, t: string): (s: string) {
    if rs == [] then t else PrintMode(rs[0].mode, rs[0].file + ([' '] + PrintRedirs(rs[1..], t)))
  }

  /** Pipes, lists and background commands. */
  function PrintOp(c: Cmd, t: string): (s: string)
    requires !c.Exec? && !c.Redir?
    decreases Size(c), 0
  {
    match c
    case Pipe(l, r) => PrintItem(l, ['|'] + PrintItem(r, t))
    case List(l, r) => PrintItem(l, [';'] + PrintItem(r, t))
    case Back(d) => PrintItem(d, ['&'] + t)
  }

  /** A command as a part of a larger one, with its redirections; in parentheses unless it is simple. */
  function PrintItem(c: Cmd, t: string): (s: string)
    decreases Size(c), 1
  {
    var u := PrintRedirs(Around(c), t);
    if Base(c).Exec? then PrintArgs(Base(c).args, u) else ['('] + PrintOp(Base(c), [')'] + u)
  }

  function Print(c: Cmd): (s: string) {
    if c.Exec? || c.Redir? then PrintItem(c, "") else PrintOp(c, "")
  }

  // ----- Parsing what was printed -----

  /** After white space `t` is over, or goes on with one of `toks`. */
  predicate Follows(t: string, toks: set<char>) {
    Skip(t) == "" || Skip(t)[0] in toks
  }

  lemma SkipSpace(t: string)
    ensures Skip([' '] + t) == Skip(t)
  {
    assert ([' '] + t)[1..] == t;
  }

  lemma {:induction false} WordLenOf(w: string, t: string)
    requires (forall i :: 0 <= i < |w| ==> InWord(w[i])) && (t == "" || !InWord(t[0]))
    ensures WordLen(w + t) == |w|
  {
    if w != "" {
      WordLenOf(w[1..], t);
      assert (w + t)[1..] == w[1..] + t;
    } else {
      assert w + t == t;
    }
  }

  /** A word and a space give the word. */
  lemma TokenWord(w: string, t: string)
    requires IsWord(w)
    ensures var s := w + ([' '] + t);
            GetToken(s) == Next(Word(w), Skip(t)) && Skip(s) == s && InWord(s[0])
  {
    var u := [' '] + t;
    var s := w + u;
    WordLenOf(w, u);
    assert s[0] == w[0];
    assert s[..|w|] == w && s[|w|..] == u;
    SkipSpace(t);
  }

  lemma TokenSymbol(x: char, t: string)
    requires IsSymbol(x) && (x == '>' ==> t == "" || t[0] != '>')
    ensures GetToken([x] + t) == Next(Symbol(x), Skip(t)) && Skip([x] + t) == [x] + t
  {
    assert ([x] + t)[1..] == t;
  }

  lemma TokenAppend(t: string)
    ensures var s := ['>'] + (['>'] + t); GetToken(s) == Next(Append, Skip(t)) && Skip(s) == s
  {
    var s := ['>'] + (['>'] + t);
    assert s[2..] == t;
  }

  /** Nothing depends on leading white space. */
  lemma RedirsSkips(s: string)
    ensures Redirs(Skip(s)) == Redirs(s) && GetToken(Skip(s)) == GetToken(s)
  {
    SkipTwice(s);
  }

  lemma ArgsSkips(s: string, a: Simple)
    ensures Args(Skip(s), a) == Args(s, a)
  {
    RedirsSkips(s);
    SkipTwice(s);
  }

  lemma CommandSkips(s: string)
    ensures Command(Skip(s)) == Command(s)
  {
    RedirsSkips(s);
    SkipTwice(s);
  }

  lemma PipelineSkips(s: string)
    ensures Pipeline(Skip(s)) == Pipeline(s)
  {
    CommandSkips(s);
  }

  lemma LineSkips(s: string)
    ensures Line(Skip(s)) == Line(s)
  {
    PipelineSkips(s);
  }

  /** One printed redirection. */
  lemma OneRedir(r: Redirection, t: string, s: string)
    requires IsWord(r.file) && s == PrintMode(r.mode, r.file + ([' '] + t))
    ensures Peek(s, {'<', '>'}) && GetToken(s).tok != End && ModeOf(GetToken(s).tok) == r.mode
    ensures GetToken(GetToken(s).rest) == Next(Word(r.file), Skip(t))
  {
    var u := r.file + ([' '] + t);
    TokenWord(r.file, t);
    if r.mode == ForAppending {
      TokenAppend(u);
    } else {
      TokenSymbol(if r.mode == ForReading then '<' else '>', u);
    }
  }

  lemma RedirsStep(s: string, r: Redirection, u: string, rs: seq<Redirection>, rest: string)
    requires Peek(s, {'<', '>'}) && ModeOf(GetToken(s).tok) == r.mode &&
             GetToken(GetToken(s).rest) == Next(Word(r.file), u)
    requires Redirs(u) == Ok(rs, rest)
    ensures Redirs(s) == Ok([r] + rs, rest)
  {
  }

  lemma {:induction false} RedirsParse(rs: seq<Redirection>, t: string)
    requires AllFiles(rs) && Follows(t, STOPS)
    ensures Redirs(PrintRedirs(rs, t)) == Ok(rs, Skip(t))
  {
    if rs != [] {
      var r, more, s := rs[0], rs[1..], PrintRedirs(rs, t);
      var u := PrintRedirs(more, t);
      OneRedir(r, u, s);
      RedirsParse(more, t);
      RedirsSkips(u);
      RedirsStep(s, r, Skip(u), more, Skip(t));
      assert [r] + more == rs;
    }
  }

  /** A word is no redirection. */
  lemma NoRedirs(w: string, t: string)
    requires IsWord(w)
    ensures var s := w + ([' '] + t); Redirs(s) == Ok([], s) && !Peek(s, {'('}) && !Peek(s, STOPS)
  {
    TokenWord(w, t);
  }

  lemma ArgsEnd(t: string, a: Simple)
    requires Follows(t, STOPS)
    ensures Args(Skip(t), a) == Ok(a, Skip(t))
  {
    SkipTwice(t);
  }

  /** The last argument, with the redirections behind it. */
  lemma LastArg(w: string, rs: seq<Redirection>, t: string, a: Simple)
    requires IsWord(w) && |a.args| + 1 < MAXARGS && AllFiles(rs) && Follows(t, STOPS)
    ensures Args(w + ([' '] + PrintRedirs(rs, t)), a) == Ok(Simple(a.args + [w], a.redirs + rs), Skip(t))
  {
    var u := PrintRedirs(rs, t);
    TokenWord(w, u);
    NoRedirs(w, u);
    RedirsSkips(u);
    RedirsParse(rs, t);
    ArgsEnd(t, Simple(a.args + [w], a.redirs + rs));
  }

  /** An argument before others. */
  lemma OneArg(w: string, v: string, x: string, a: Simple, u: string)
    requires IsWord(w) && IsWord(v) && u == v + ([' '] + x) && |a.args| + 1 < MAXARGS
    ensures Args(w + ([' '] + u), a) == Args(u, Simple(a.args + [w], a.redirs))
  {
    TokenWord(w, u);
    NoRedirs(w, u);
    TokenWord(v, x);
    NoRedirs(v, x);
    assert a.redirs + [] == a.redirs;
  }

  lemma ArgsLast(args: seq<string>, rs: seq<Redirection>, t: string, a: Simple)
    requires |args| == 1 && AllWords(args) && |a.args| + 1 < MAXARGS && AllFiles(rs) && Follows(t, STOPS)
    ensures Args(PrintArgs(args, PrintRedirs(rs, t)), a) == Ok(Simple(a.args + args, a.redirs + rs), Skip(t))
  {
    LastArg(args[0], rs, t, a);
    assert args == [args[0]];
  }

  lemma ArgsMore(args: seq<string>, x: string, a: Simple)
    requires |args| > 1 && AllWords(args) && |a.args| + 1 < MAXARGS
    ensures Args(PrintArgs(args, x), a) == Args(PrintArgs(args[1..], x), Simple(a.args + [args[0]], a.redirs))
  {
    var more := args[1..];
    OneArg(args[0], more[0], PrintArgs(more[1..], x), a, PrintArgs(more, x));
  }

  lemma OneThenMore<T>(a: seq<T>, s: seq<T>)
    requires s != []
    ensures a + s == (a + [s[0]]) + s[1..]
  {
  }

  lemma {:induction false} ArgsParse(args: seq<string>, rs: seq<Redirection>, t: string, a: Simple)
    requires args != [] && AllWords(args) && |a.args| + |args| < MAXARGS && AllFiles(rs) && Follows(t, STOPS)
    ensures Args(PrintArgs(args, PrintRedirs(rs, t)), a) == Ok(Simple(a.args + args, a.redirs + rs), Skip(t))
    decreases |args|
  {
    if |args| == 1 {
      ArgsLast(args, rs, t, a);
    } else {
      ArgsMore(args, PrintRedirs(rs, t), a);
      ArgsParse(args[1..], rs, t, Simple(a.args + [args[0]], a.redirs));
      OneThenMore(a.args, args);
    }
  }

  lemma NoParen(rs: seq<Redirection>, t: string)
    requires AllFiles(rs) && Follows(t, STOPS)
    ensures !Peek(PrintRedirs(rs, t), {'('})
  {
    if rs != [] {
      OneRedir(rs[0], PrintRedirs(rs[1..], t), PrintRedirs(rs, t));
    }
  }

  /** A simple command with its redirections. */
  lemma ExecParses(args: seq<string>, rs: seq<Redirection>, t: string)
    requires AllWords(args) && |args| < MAXARGS && AllFiles(rs) && Follows(t, STOPS)
    ensures Command(PrintArgs(args, PrintRedirs(rs, t))) == Ok(Wrap(Exec(args), rs), Skip(t))
  {
    if args == [] {
      RedirsParse(rs, t);
      ArgsEnd(t, Simple([], rs));
      NoParen(rs, t);
    } else {
      NoRedirs(args[0], PrintArgs(args[1..], PrintRedirs(rs, t)));
      ArgsParse(args, rs, t, Simple([], []));
      assert [] + args == args && [] + rs == rs;
    }
  }

  // ----- The round trip -----

  /** A command in parentheses, with its redirections. */
  lemma BlockParses(b: Cmd, rs: seq<Redirection>, t: string, u: string)
    requires AllFiles(rs) && Follows(t, STOPS)
    requires Line(u) == Ok(b, [')'] + PrintRedirs(rs, t))
    ensures Command(['('] + u) == Ok(Wrap(b, rs), Skip(t))
  {
    var x := PrintRedirs(rs, t);
    TokenSymbol('(', u);
    LineSkips(u);
    TokenSymbol(')', x);
    RedirsSkips(x);
    RedirsParse(rs, t);
  }

  /** A printed part of a command is read as one command. */
  lemma {:induction false} ItemParses(c: Cmd, t: string)
    requires WellFormed(c) && Follows(t, STOPS)
    ensures Command(PrintItem(c, t)) == Ok(c, Skip(t))
    decreases Size(c), 1
  {
    var b, rs := Base(c), Around(c);
    WrapUnwraps(c);
    if b.Exec? {
      ExecParses(b.args, rs, t);
    } else {
      var x := [')'] + PrintRedirs(rs, t);
      OpParses(b, x);
      BlockParses(b, rs, t, PrintOp(b, x));
    }
  }

  /** Nothing follows a command but the end of the line or of its block. */
  lemma LineEnds(s: string, c: Cmd, t: string)
    requires Pipeline(s) == Ok(c, Skip(t)) && Follows(t, {')'})
    ensures Line(s) == Ok(c, Skip(t))
  {
    SkipTwice(t);
  }

  lemma PipelineEnds(s: string, c: Cmd, t: string)
    requires Command(s) == Ok(c, Skip(t)) && Follows(t, {')', '&', ';'})
    ensures Pipeline(s) == Ok(c, Skip(t))
  {
    SkipTwice(t);
  }

  lemma PipeParses(s: string, l: Cmd, u: string, r: Cmd, t: string)
    requires Command(s) == Ok(l, ['|'] + u) && Command(u) == Ok(r, Skip(t)) && Follows(t, {')'})
    ensures Line(s) == Ok(Pipe(l, r), Skip(t))
  {
    TokenSymbol('|', u);
    PipelineEnds(u, r, t);
    PipelineSkips(u);
    LineEnds(s, Pipe(l, r), t);
  }

  lemma ListParses(s: string, l: Cmd, u: string, r: Cmd, t: string)
    requires Command(s) == Ok(l, [';'] + u) && Command(u) == Ok(r, Skip(t)) && Follows(t, {')'})
    ensures Line(s) == Ok(List(l, r), Skip(t))
  {
    TokenSymbol(';', u);
    PipelineEnds(s, l, [';'] + u);
    PipelineEnds(u, r, t);
    LineEnds(u, r, t);
    LineSkips(u);
  }

  lemma BackParses(s: string, c: Cmd, t: string)
    requires Command(s) == Ok(c, ['&'] + t) && Follows(t, {')'})
    ensures Line(s) == Ok(Back(c), Skip(t))
  {
    TokenSymbol('&', t);
    PipelineEnds(s, c, ['&'] + t);
    SkipTwice(t);
    assert Backs(c, ['&'] + t) == Backs(Back(c), Skip(t));
  }

  /** A printed pipe, list or background command is read as a line. */
  lemma {:induction false} OpParses(c: Cmd, t: string)
    requires WellFormed(c) && !c.Exec? && !c.Redir? && Follows(t, {')'})
    ensures Line(PrintOp(c, t)) == Ok(c, Skip(t))
    decreases Size(c), 0
  {
    match c
    case Pipe(l, r) =>
      var u := PrintItem(r, t);
      TokenSymbol('|', u);
      ItemParses(l, ['|'] + u);
      ItemParses(r, t);
      PipeParses(PrintOp(c, t), l, u, r, t);
    case List(l, r) =>
      var u := PrintItem(r, t);
      TokenSymbol(';', u);
      ItemParses(l, [';'] + u);
      ItemParses(r, t);
      ListParses(PrintOp(c, t), l, u, r, t);
    case Back(d) =>
      TokenSymbol('&', t);
      ItemParses(d, ['&'] + t);
      BackParses(PrintOp(c, t), d, t);
  }

  /** Printing any well-formed command and parsing the result gives the command back. */
  lemma RoundTrip(c: Cmd)
    requires WellFormed(c)
    ensures Parse(Print(c)) == Ok(c, "")
  {
    if c.Exec? || c.Redir? {
      ItemParses(c, "");
      PipelineEnds(Print(c), c, "");
      LineEnds(Print(c), c, "");
    } else {
      OpParses(c, "");
    }
  }

  // ----- What parsing gives can be printed -----

  lemma {:induction false} WrapWellFormed(c: Cmd, rs: seq<Redirection>)
    requires WellFormed(c) && AllFiles(rs)
    ensures WellFormed(Wrap(c, rs))
  {
    if rs != [] {
      WrapWellFormed(c, rs[..|rs| - 1]);
    }
  }

  lemma {:induction false} BlockWellFormed(s: string)
    requires Peek(s, {'('})
    ensures Block(s).Ok? ==> WellFormed(Block(s).value)
    decreases |s|, 0
  {
    var r := Line(GetToken(s).rest);
    LineWellFormed(GetToken(s).rest);
    if r.Ok? && Peek(r.rest, {')'}) {
      var q := Redirs(GetToken(r.rest).rest);
      if q.Ok? {
        WrapWellFormed(r.value, q.value);
      }
    }
  }

  lemma {:induction false} CommandWellFormed(s: string)
    ensures Command(s).Ok? ==> WellFormed(Command(s).value)
    decreases |s|, 1
  {
    if Peek(s, {'('}) {
      BlockWellFormed(s);
    } else if Command(s).Ok? {
      var r := Redirs(s);
      var a := Args(r.rest, Simple([], r.value));
      WrapWellFormed(Exec(a.value.args), a.value.redirs);
    }
  }

  lemma {:induction false} PipelineWellFormed(s: string)
    ensures Pipeline(s).Ok? ==> WellFormed(Pipeline(s).value)
    decreases |s|, 2
  {
    CommandWellFormed(s);
    if Command(s).Ok? && Peek(Command(s).rest, {'|'}) {
      PipelineWellFormed(GetToken(Command(s).rest).rest);
    }
  }

  lemma {:induction false} BacksWellFormed(c: Cmd, s: string)
    requires WellFormed(c)
    ensures WellFormed(Backs(c, s).value)
    decreases |s|
  {
    if Peek(s, {'&'}) {
      BacksWellFormed(Back(c), GetToken(s).rest);
    }
  }

  lemma {:induction false} LineWellFormed(s: string)
    ensures Line(s).Ok? ==> WellFormed(Line(s).value)
    decreases |s|, 3
  {
    PipelineWellFormed(s);
    if Pipeline(s).Ok? {
      var p := Pipeline(s);
      BacksWellFormed(p.value, p.rest);
      var b := Backs(p.value, p.rest);
      if Peek(b.rest, {';'}) {
        LineWellFormed(GetToken(b.rest).rest);
      }
    }
  }

  /** Whatever line is parsed, printing the command and parsing that gives the same command. */
  lemma Reparse(s: string)
    requires Parse(s).Ok?
    ensures Parse(Print(Parse(s).value)) == Parse(s)
  {
    LineWellFormed(s);
    RoundTrip(Parse(s).value);
  }

  // ----- The parser -----

  datatype Outcome<T> = Parsed(value: T) | Failed(error: Error)

  /** The outcome, and where the cursor is left, are as computed. */
  predicate Agrees<T(==)>(o: Outcome<T>, rest: string, r: Result<T>) {
    match r
    case Ok(v, u) => o == Parsed(v) && rest == u
    case Err(e) => o == Failed(e)
  }

  class Parser {
    const line: string
    var pos: nat

    predicate Valid()
      reads this
    {
      pos <= |line|
    }

    function Rest(): (s: string)
      requires Valid()
      reads this
    {
      line[pos..]
    }

    constructor (line: string)
      ensures Valid() && this.line == line && Rest() == line
    {
      this.line, pos := line, 0;
    }

    method SkipSpaces()
      requires Valid()
      modifies this
      ensures Valid() && Rest() == Skip(old(Rest()))
    {
      while pos < |line| && IsSpace(line[pos])
        invariant Valid() && Skip(Rest()) == Skip(old(Rest()))
      {
        assert Rest()[1..] == line[pos + 1..];
        pos := pos + 1;
      }
    }

    method PeekAt(toks: set<char>) returns (b: bool)
      requires Valid()
      modifies this
      ensures Valid() && Rest() == Skip(old(Rest())) && b == Peek(old(Rest()), toks)
    {
      SkipSpaces();
      b := pos < |line| && line[pos] in toks;
    }

    /** Read over the characters of a word. */
    method SkipWord() returns (w: string)
      requires Valid()
      modifies this
      ensures Valid() && w == old(Rest())[..WordLen(old(Rest()))] && Rest() == old(Rest())[WordLen(old(Rest()))..]
    {
      var start := pos;
      while pos < |line| && InWord(line[pos])
        invariant start <= pos <= |line| && WordLen(line[start..]) == pos - start + WordLen(line[pos..])
      {
        assert line[pos..][1..] == line[pos + 1..];
        pos := pos + 1;
      }
      w := line[start..pos];
    }

    method ReadToken() returns (tok: Token)
      requires Valid()
      modifies this
      ensures Valid() && GetToken(old(Rest())) == Next(tok, Rest())
    {
      SkipSpaces();
      ghost var u := Rest();
      if pos == |line| {
        return End;
      }
      var c := line[pos];
      if IsSymbol(c) {
        pos := pos + 1;
        assert Rest() == u[1..];
        if c == '>' && pos < |line| && line[pos] == '>' {
          tok := Append;
          pos := pos + 1;
          assert Rest() == u[2..];
        } else {
          tok := Symbol(c);
        }
      } else {
        var w := SkipWord();
        tok := Word(w);
      }
      SkipSpaces();
    }

    /** Read redirections for as long as there are any. */
    method ParseRedirs() returns (o: Outcome<seq<Redirection>>)
      requires Valid()
      modifies this
      ensures Valid() && Agrees(o, Rest(), Redirs(old(Rest())))
    {
      ghost var s0 := Rest();
      var rs: seq<Redirection> := [];
      var more := PeekAt({'<', '>'});
      RedirsSkips(s0);
      AfterAfter([], [], Redirs(s0));
      while more
        invariant Valid() && more == Peek(Rest(), {'<', '>'}) && Skip(Rest()) == Rest()
        invariant Redirs(s0) == After(rs, Redirs(Rest()))
        decreases |line| - pos
      {
        ghost var s := Rest();
        var tok := ReadToken();
        var file := ReadToken();
        if !file.Word? {
          return Failed(MissingFile);
        }
        var r := Redirection(file.w, ModeOf(tok));
        AfterAfter(rs, [r], Redirs(Rest()));
        more := PeekAt({'<', '>'});
        rs := rs + [r];
      }
      assert rs + [] == rs;
      o := Parsed(rs);
    }

    /** Read the arguments of a simple command, and the redirections among them. */
    method ParseArgs(rs0: seq<Redirection>) returns (o: Outcome<Simple>)
      requires Valid()
      modifies this
      ensures Valid() && Agrees(o, Rest(), Args(old(Rest()), Simple([], rs0)))
    {
      ghost var s0 := Rest();
      var a, argc := Simple([], rs0), 0;
      var stop := PeekAt(STOPS);
      ArgsSkips(s0, a);
      while !stop
        invariant Valid() && stop == Peek(Rest(), STOPS) && Skip(Rest()) == Rest() && argc == |a.args| < MAXARGS
        invariant Args(s0, Simple([], rs0)) == Args(Rest(), a)
        decreases |line| - pos
      {
        var tok := ReadToken();
        if tok == End {
          return Parsed(a);
        }
        if !tok.Word? {
          return Failed(Syntax);
        }
        argc := argc + 1;
        if argc >= MAXARGS {
          return Failed(TooManyArgs);
        }
        var q := ParseRedirs();
        if q.Failed? {
          return Failed(q.error);
        }
        a := Simple(a.args + [tok.w], a.redirs + q.value);
        stop := PeekAt(STOPS);
      }
      o := Parsed(a);
    }

    method ParseExec() returns (o: Outcome<Cmd>)
      requires Valid()
      modifies this
      ensures Valid() && Agrees(o, Rest(), Command(old(Rest())))
      decreases |line| - pos, 1
    {
      ghost var s0 := Rest();
      var paren := PeekAt({'('});
      CommandSkips(s0);
      if paren {
        o := ParseBlock();
        return;
      }
      var q := ParseRedirs();
      if q.Failed? {
        return Failed(q.error);
      }
      var a := ParseArgs(q.value);
      if a.Failed? {
        return Failed(a.error);
      }
      o := Parsed(Wrap(Exec(a.value.args), a.value.redirs));
    }

    method ParseBlock() returns (o: Outcome<Cmd>)
      requires Valid() && Peek(Rest(), {'('})
      modifies this
      ensures Valid() && Agrees(o, Rest(), Block(old(Rest())))
      decreases |line| - pos, 0
    {
      var tok := ReadToken();
      var c := ParseLine();
      if c.Failed? {
        return Failed(c.error);
      }
      var paren := PeekAt({')'});
      if !paren {
        return Failed(MissingParen);
      }
      tok := ReadToken();
      var q := ParseRedirs();
      if q.Failed? {
        return Failed(q.error);
      }
      o := Parsed(Wrap(c.value, q.value));
    }

    method ParsePipe() returns (o: Outcome<Cmd>)
      requires Valid()
      modifies this
      ensures Valid() && Agrees(o, Rest(), Pipeline(old(Rest())))
      decreases |line| - pos, 2
    {
      o := ParseExec();
      if o.Failed? {
        return;
      }
      var pipe := PeekAt({'|'});
      if pipe {
        var tok := ReadToken();
        var r := ParsePipe();
        o := if r.Failed? then r else Parsed(Pipe(o.value, r.value));
      }
    }

    method ParseLine() returns (o: Outcome<Cmd>)
      requires Valid()
      modifies this
      ensures Valid() && Agrees(o, Rest(), Line(old(Rest())))
      decreases |line| - pos, 3
    {
      o := ParsePipe();
      if o.Failed? {
        return;
      }
      var c := o.value;
      ghost var b := Backs(c, Rest());
      var more := PeekAt({'&'});
      while more
        invariant Valid() && more == Peek(Rest(), {'&'}) && Skip(Rest()) == Rest() && Backs(c, Rest()) == b
        invariant |line| - pos <= old(|line| - pos)
        decreases |line| - pos
      {
        var tok := ReadToken();
        c := Back(c);
        more := PeekAt({'&'});
      }
      o := Parsed(c);
      var list := PeekAt({';'});
      if list {
        var tok := ReadToken();
        var r := ParseLine();
        o := if r.Failed? then r else Parsed(List(c, r.value));
      }
    }

    /** The whole line. */
    method ParseCmd() returns (o: Outcome<Cmd>)
      requires Valid()
      modifies this
      ensures Valid() && Agrees(o, Rest(), Parse(old(Rest())))
    {
      o := ParseLine();
      if o.Failed? {
        return;
      }
      SkipSpaces();
      if pos != |line| {
        return Failed(Leftovers);
      }
    }
  }
}
