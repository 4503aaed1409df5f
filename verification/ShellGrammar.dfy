/** The language of the shell, as a grammar on tokens and as spellings of tokens, and the proof that the parser accepts
    exactly the lines of the language and gives each its one meaning. */
module ShellGrammar {
  import opened Shell

  // ----- Spelling -----

  /** The tokens of a line. */
  function Tokens(s: string): (ts: seq<Token>)
    decreases |s|
  {
    var n := GetToken(s);
    if n.tok == End then [] else [n.tok] + Tokens(n.rest)
  }

  predicate IsToken(t: Token) {
    match t
    case End => false
    case Symbol(c) => IsSymbol(c)
    case Append => true
    case Word(w) => IsWord(w)
  }

  function Text(t: Token): (w: string)
    requires IsToken(t)
    ensures w != "" && !IsSpace(w[0])
  {
    match t
    case Symbol(c) => [c]
    case Append => ">>"
    case Word(w) => w
  }

  predicate AllSpace(s: string) {
    forall i :: 0 <= i < |s| ==> IsSpace(s[i])
  }

  /** Two tokens that may stand side by side without a space. */
  predicate MayTouch(t: Token, u: Token)
    requires IsToken(u)
  {
    !(t.Word? && u.Word?) && !(t == Symbol('>') && Text(u)[0] == '>')
  }

  /** `s` is white space `gap`, the first of `ts`, and `rest`, which begins with white space if it has to. */
  predicate SplitsAs(s: string, ts: seq<Token>, gap: string, rest: string)
    requires ts != [] && IsToken(ts[0])
  {
    && s == gap + (Text(ts[0]) + rest) && AllSpace(gap)
    && (|ts| > 1 && IsToken(ts[1]) && !MayTouch(ts[0], ts[1]) ==> rest != "" && IsSpace(rest[0]))
  }

  /** The tokens in order, with white space around them. */
  ghost predicate Spells(s: string, ts: seq<Token>)
    decreases |ts|
  {
    if ts == [] then AllSpace(s)
    else
      IsToken(ts[0]) && exists gap, rest :: SplitsAs(s, ts, gap, rest) && Spells(rest, ts[1..])
  }

  lemma {:induction false} SkipGap(gap: string, t: string)
    requires AllSpace(gap) && (t == "" || !IsSpace(t[0]))
    ensures Skip(gap + t) == t
  {
    if gap != "" {
      SkipGap(gap[1..], t);
      assert (gap + t)[1..] == gap[1..] + t;
    } else {
      assert gap + t == t;
    }
  }

  /** What a spelling of tokens starts with. */
  lemma SpellingStarts(s: string, ts: seq<Token>)
    requires Spells(s, ts)
    ensures s == "" || IsSpace(s[0]) || (ts != [] && s[0] == Text(ts[0])[0])
  {
    if ts != [] {
      var gap, rest :| SplitsAs(s, ts, gap, rest) && Spells(rest, ts[1..]);
      if gap == "" {
        assert s == Text(ts[0]) + rest;
      } else {
        assert s[0] == gap[0];
      }
    }
  }

  /** Reading the first token of a spelling. */
  lemma FirstToken(s: string, t: Token, gap: string, rest: string)
    requires IsToken(t) && s == gap + (Text(t) + rest) && AllSpace(gap)
    requires t.Word? ==> rest == "" || !InWord(rest[0])
    requires t == Symbol('>') ==> rest == "" || rest[0] != '>'
    ensures GetToken(s) == Next(t, Skip(rest))
  {
    var u := Text(t) + rest;
    SkipGap(gap, u);
    assert u[0] == Text(t)[0];
    match t
    case Symbol(c) => assert u[1..] == rest && (|u| > 1 ==> u[1] == rest[0]);
    case Append => assert u[1] == '>' && u[2..] == rest;
    case Word(w) =>
      WordLenOf(w, rest);
      assert u[..|w|] == w && u[|w|..] == rest;
  }

  lemma TokensSkip(s: string)
    ensures Tokens(Skip(s)) == Tokens(s)
  {
    RedirsSkips(s);
  }

  /** A line that spells tokens is read as these tokens. */
  lemma {:induction false} SpellingRead(s: string, ts: seq<Token>)
    requires Spells(s, ts)
    ensures Tokens(s) == ts
    decreases |ts|
  {
    hide Tokens, GetToken, Skip, SplitsAs, AllSpace;
    if ts == [] {
      NoTokens(s);
    } else {
      var gap, rest :| SplitsAs(s, ts, gap, rest) && Spells(rest, ts[1..]);
      SpellingRead(rest, ts[1..]);
      FirstRead(s, ts, gap, rest);
      TokensSkip(rest);
      TokensStep(s, ts[0], Skip(rest));
      assert ts == [ts[0]] + ts[1..];
    }
  }

  lemma FirstRead(s: string, ts: seq<Token>, gap: string, rest: string)
    requires ts != [] && IsToken(ts[0]) && SplitsAs(s, ts, gap, rest) && Spells(rest, ts[1..])
    ensures GetToken(s) == Next(ts[0], Skip(rest))
  {
    TouchRight(rest, ts);
    FirstToken(s, ts[0], gap, rest);
  }

  lemma TokensStep(s: string, t: Token, u: string)
    requires GetToken(s) == Next(t, u) && t != End
    ensures Tokens(s) == [t] + Tokens(u)
  {
    hide GetToken;
  }

  lemma NoTokens(s: string)
    requires AllSpace(s)
    ensures Tokens(s) == []
  {
    SkipGap(s, "");
    assert s + "" == s;
  }

  /** What stands behind a token ends it. */
  lemma TouchRight(rest: string, ts: seq<Token>)
    requires ts != [] && IsToken(ts[0]) && Spells(rest, ts[1..])
    requires |ts| > 1 && IsToken(ts[1]) && !MayTouch(ts[0], ts[1]) ==> rest != "" && IsSpace(rest[0])
    ensures ts[0].Word? ==> rest == "" || !InWord(rest[0])
    ensures ts[0] == Symbol('>') ==> rest == "" || rest[0] != '>'
  {
    SpellingStarts(rest, ts[1..]);
    if |ts| > 1 && rest != "" && !IsSpace(rest[0]) {
      assert ts[1..][0] == ts[1];
      FirstKind(ts[1]);
    }
  }

  lemma FirstKind(t: Token)
    requires IsToken(t)
    ensures t.Word? <==> InWord(Text(t)[0])
  {
  }

  lemma {:induction false} SkipSplits(s: string) returns (gap: string)
    ensures s == gap + Skip(s) && AllSpace(gap)
  {
    if s != "" && IsSpace(s[0]) {
      var more := SkipSplits(s[1..]);
      gap := [s[0]] + more;
      assert s == [s[0]] + s[1..] && [s[0]] + (more + Skip(s)) == gap + Skip(s);
    } else {
      gap := "";
    }
  }

  /** The first token of a line that has one, and what is left. */
  lemma TokenSplits(s: string) returns (gap: string, rest: string)
    requires GetToken(s).tok != End
    ensures IsToken(GetToken(s).tok) && s == gap + (Text(GetToken(s).tok) + rest) && AllSpace(gap)
    ensures Skip(rest) == GetToken(s).rest && |rest| < |s|
    ensures GetToken(s).tok.Word? ==> rest == "" || !InWord(rest[0])
    ensures GetToken(s).tok == Symbol('>') ==> rest == "" || rest[0] != '>'
  {
    gap := SkipSplits(s);
    var u, t := Skip(s), GetToken(s).tok;
    var n := if t == Append then 2 else if t.Symbol? then 1 else WordLen(u);
    rest := u[n..];
    assert t.Append? ==> u[..2] == ">>";
    assert u == Text(t) + rest;
  }

  /** Every line spells its tokens. */
  lemma {:induction false} LineSpells(s: string)
    ensures Spells(s, Tokens(s))
    decreases |s|
  {
    var ts := Tokens(s);
    if ts == [] {
      var gap := SkipSplits(s);
      assert s == gap;
    } else {
      var gap, rest := TokenSplits(s);
      TokensSkip(rest);
      LineSpells(rest);
      assert ts[1..] == Tokens(rest);
      if |ts| > 1 && IsToken(ts[1]) && !MayTouch(ts[0], ts[1]) {
        TouchOnly(rest, ts[1..]);
      }
      assert SplitsAs(s, ts, gap, rest) && Spells(rest, ts[1..]);
    }
  }

  /** A line that does not start with white space starts with its first token. */
  lemma TouchOnly(s: string, ts: seq<Token>)
    requires ts != [] && IsToken(ts[0]) && Spells(s, ts)
    ensures s != "" && (IsSpace(s[0]) || s[0] == Text(ts[0])[0])
  {
    SpellingStarts(s, ts);
    var gap, rest :| SplitsAs(s, ts, gap, rest) && Spells(rest, ts[1..]);
  }

  // ----- Tokens and what the parser looks at -----

  /** The first character of a token. */
  function Head(t: Token): (c: char)
    requires IsToken(t)
  {
    Text(t)[0]
  }

  /** The tokens start with one whose first character is in `cs`. */
  predicate Starts(ts: seq<Token>, cs: set<char>) {
    ts != [] && IsToken(ts[0]) && Head(ts[0]) in cs
  }

  /** Nothing follows, or a symbol in `cs` does. */
  predicate Ends(ts: seq<Token>, cs: set<char>) {
    ts == [] || Starts(ts, cs)
  }

  /** A look ahead sees the first token. */
  lemma PeekFirst(s: string, cs: set<char>)
    ensures Peek(s, cs) <==> Starts(Tokens(s), cs)
    ensures Tokens(s) == [] <==> GetToken(s).tok == End
    ensures Tokens(s) != [] ==> Tokens(s)[0] == GetToken(s).tok && Tokens(s)[1..] == Tokens(GetToken(s).rest)
    ensures Tokens(s) == [] <==> Skip(s) == ""
  {
  }

  // ----- Redirections -----

  function ModeToken(m: Mode): (t: Token)
    ensures IsToken(t)
  {
    match m
    case ForReading => Symbol('<')
    case ForWriting => Symbol('>')
    case ForAppending => Append
  }

  function RedirTokens(rs: seq<Redirection>): (ts: seq<Token>) {
    if rs == [] then [] else [ModeToken(rs[0].mode), Word(rs[0].file)] + RedirTokens(rs[1..])
  }

  lemma RedirTokensMore(rs: seq<Redirection>, rest: seq<Token>)
    requires rs != []
    ensures var ts := RedirTokens(rs) + rest;
            && |ts| >= 2 && ts[0] == ModeToken(rs[0].mode) && ts[1] == Word(rs[0].file)
            && ts[1..] == [Word(rs[0].file)] + (RedirTokens(rs[1..]) + rest)
            && ts[1..][1..] == RedirTokens(rs[1..]) + rest
  {
    var a, b, y := ModeToken(rs[0].mode), Word(rs[0].file), RedirTokens(rs[1..]);
    assert RedirTokens(rs) == [a, b] + y;
    Joined([a, b], y, rest);
    TwoAhead(a, b, y + rest);
  }

  lemma TwoAhead(a: Token, b: Token, ts: seq<Token>)
    ensures var us := [a, b] + ts; us[0] == a && us[1] == b && us[1..] == [b] + ts && us[1..][1..] == ts
  {
  }

  lemma OneAhead(a: Token, ts: seq<Token>)
    ensures ([a] + ts)[0] == a && ([a] + ts)[1..] == ts
  {
  }

  /** Reading one redirection. */
  lemma OneMoreRedir(s: string, r: Redirection, more: seq<Redirection>)
    requires Peek(s, {'<', '>'}) && GetToken(s).tok == ModeToken(r.mode)
    requires GetToken(GetToken(s).rest).tok == Word(r.file)
    requires Redirs(GetToken(GetToken(s).rest).rest).Ok? && Redirs(GetToken(GetToken(s).rest).rest).value == more
    ensures Redirs(s) == Ok([r] + more, Redirs(GetToken(GetToken(s).rest).rest).rest)
  {
    hide Peek, GetToken;
  }

  lemma {:induction false} RedirsAccepts(rs: seq<Redirection>, s: string, rest: seq<Token>)
    requires AllFiles(rs) && Tokens(s) == RedirTokens(rs) + rest && !Starts(rest, {'<', '>'})
    ensures Redirs(s).Ok? && Redirs(s).value == rs && Tokens(Redirs(s).rest) == rest
    decreases |rs|
  {
    hide Tokens, GetToken, Skip, Peek, Redirs;
    PeekFirst(s, {'<', '>'});
    if rs == [] {
      assert Tokens(s) == rest;
      NoMoreRedirs(s);
    } else {
      var a := GetToken(s);
      RedirTokensMore(rs, rest);
      PeekFirst(a.rest, {});
      var b := GetToken(a.rest);
      RedirsAccepts(rs[1..], b.rest, rest);
      OneMoreRedir(s, rs[0], rs[1..]);
      assert [rs[0]] + rs[1..] == rs;
    }
  }

  lemma NoMoreRedirs(s: string)
    requires !Peek(s, {'<', '>'})
    ensures Redirs(s) == Ok([], Skip(s)) && Tokens(Skip(s)) == Tokens(s)
  {
    TokensSkip(s);
  }

  lemma {:induction false} RedirsSound(s: string)
    requires Redirs(s).Ok?
    ensures Tokens(s) == RedirTokens(Redirs(s).value) + Tokens(Redirs(s).rest)
    ensures !Starts(Tokens(Redirs(s).rest), {'<', '>'})
    decreases |s|
  {
    hide Tokens, GetToken, Skip, Peek, Redirs;
    PeekFirst(s, {'<', '>'});
    if !Peek(s, {'<', '>'}) {
      NoMoreRedirs(s);
    } else {
      var a := GetToken(s);
      var b := GetToken(a.rest);
      RedirRead(s);
      PeekFirst(a.rest, {});
      RedirsSound(b.rest);
      var r, more := Redirection(b.tok.w, ModeOf(a.tok)), Redirs(b.rest).value;
      OneMoreRedir(s, r, more);
      assert ([r] + more)[1..] == more;
      assert Tokens(s) == [a.tok] + ([b.tok] + Tokens(b.rest));
    }
  }

  lemma RedirRead(s: string)
    requires Peek(s, {'<', '>'}) && Redirs(s).Ok?
    ensures var a := GetToken(s); var b := GetToken(a.rest);
            && a.tok != End && a.tok == ModeToken(ModeOf(a.tok)) && b.tok.Word? && Redirs(b.rest).Ok?
            && |b.rest| < |s|
  {
  }

  // ----- Simple commands -----

  /** An argument and the redirections behind it. */
  datatype Arg = Arg(word: string, after: seq<Redirection>)

  predicate GoodArgs(args: seq<Arg>) {
    forall i :: 0 <= i < |args| ==> IsWord(args[i].word) && AllFiles(args[i].after)
  }

  function ArgTokens(args: seq<Arg>): (ts: seq<Token>) {
    if args == [] then [] else [Word(args[0].word)] + (RedirTokens(args[0].after) + ArgTokens(args[1..]))
  }

  function Words(args: seq<Arg>): (ws: seq<string>) {
    if args == [] then [] else [args[0].word] + Words(args[1..])
  }

  function Files(args: seq<Arg>): (rs: seq<Redirection>) {
    if args == [] then [] else args[0].after + Files(args[1..])
  }

  /** What has been read when `args` come after `a`. */
  function With(a: Simple, args: seq<Arg>): (r: Simple) {
    Simple(a.args + Words(args), a.redirs + Files(args))
  }

  lemma WithMore(a: Simple, args: seq<Arg>)
    requires args != []
    ensures With(Simple(a.args + [args[0].word], a.redirs + args[0].after), args[1..]) == With(a, args)
  {
    var w, f := Words(args[1..]), Files(args[1..]);
    assert Words(args) == [args[0].word] + w && Files(args) == args[0].after + f;
    hide Words, Files;
    assert (a.args + [args[0].word]) + w == a.args + ([args[0].word] + w);
    assert (a.redirs + args[0].after) + f == a.redirs + (args[0].after + f);
  }

  lemma ArgTokensMore(args: seq<Arg>, rest: seq<Token>)
    requires args != []
    ensures var ts := ArgTokens(args) + rest;
            && ts != [] && ts[0] == Word(args[0].word)
            && ts[1..] == RedirTokens(args[0].after) + (ArgTokens(args[1..]) + rest)
  {
    var a, x, y := Word(args[0].word), RedirTokens(args[0].after), ArgTokens(args[1..]);
    assert ArgTokens(args) == [a] + (x + y);
    Joined([a], x + y, rest);
    Joined(x, y, rest);
    OneAhead(a, x + (y + rest));
  }

  lemma FirstArg(args: seq<Arg>, rest: seq<Token>)
    requires GoodArgs(args) && Ends(rest, STOPS)
    ensures !Starts(ArgTokens(args) + rest, {'<', '>', '('})
    ensures args != [] ==> !Starts(ArgTokens(args) + rest, STOPS)
  {
    if args != [] {
      ArgTokensMore(args, rest);
      FirstKind(Word(args[0].word));
    } else {
      assert ArgTokens(args) + rest == rest;
    }
  }

  /** Reading one argument. */
  lemma OneMoreArg(s: string, a: Simple, w: string, rs: seq<Redirection>)
    requires !Peek(s, STOPS) && GetToken(s).tok == Word(w) && |a.args| + 1 < MAXARGS
    requires Redirs(GetToken(s).rest).Ok? && Redirs(GetToken(s).rest).value == rs
    ensures Args(s, a) == Args(Redirs(GetToken(s).rest).rest, Simple(a.args + [w], a.redirs + rs))
  {
    hide Peek, GetToken, Redirs;
  }

  lemma NoMoreArgs(s: string, a: Simple)
    requires Peek(s, STOPS) || GetToken(s).tok == End
    ensures Args(s, a).Ok? && Args(s, a).value == a && Tokens(Args(s, a).rest) == Tokens(s)
  {
    TokensSkip(s);
  }

  lemma {:induction false} ArgsAccepts(args: seq<Arg>, s: string, a: Simple, rest: seq<Token>)
    requires GoodArgs(args) && |a.args| + |args| < MAXARGS && Tokens(s) == ArgTokens(args) + rest && Ends(rest, STOPS)
    ensures Args(s, a).Ok? && Args(s, a).value == With(a, args) && Tokens(Args(s, a).rest) == rest
    decreases |args|
  {
    hide Tokens, GetToken, Skip, Peek, Redirs, Args, RedirTokens, With, Starts, STOPS, IsWord, AllFiles;
    PeekFirst(s, STOPS);
    FirstArg(args, rest);
    if args == [] {
      assert Tokens(s) == rest;
      NoMoreArgs(s, a);
      WithNone(a);
    } else {
      var n := GetToken(s);
      ArgTokensMore(args, rest);
      FirstArg(args[1..], rest);
      NoRedirNext(ArgTokens(args[1..]) + rest);
      RedirsAccepts(args[0].after, n.rest, ArgTokens(args[1..]) + rest);
      OneMoreArg(s, a, args[0].word, args[0].after);
      ArgsAccepts(args[1..], Redirs(n.rest).rest, Simple(a.args + [args[0].word], a.redirs + args[0].after), rest);
      WithMore(a, args);
    }
  }

  lemma WithNone(a: Simple)
    ensures With(a, []) == a
  {
  }

  lemma NoRedirNext(ts: seq<Token>)
    requires !Starts(ts, {'<', '>', '('})
    ensures !Starts(ts, {'<', '>'}) && !Starts(ts, {'('})
  {
  }

  lemma {:induction false} ArgsSound(s: string, a: Simple) returns (args: seq<Arg>)
    requires Args(s, a).Ok? && |a.args| < MAXARGS
    ensures GoodArgs(args) && |a.args| + |args| < MAXARGS && Args(s, a).value == With(a, args)
    ensures Tokens(s) == ArgTokens(args) + Tokens(Args(s, a).rest)
    decreases |s|
  {
    hide Tokens, GetToken, Skip, Peek, Redirs, Args, RedirTokens, ArgTokens, With, IsWord, AllFiles, GoodArgs, MoreArgs;
    NoArgs();
    PeekFirst(s, STOPS);
    var n := GetToken(s);
    if Peek(s, STOPS) || n.tok == End {
      NoMoreArgs(s, a);
      args := [];
      WithNone(a);
    } else {
      ArgRead(s, a);
      var r := Redirs(n.rest);
      RedirsSound(n.rest);
      OneMoreArg(s, a, n.tok.w, r.value);
      var more := ArgsSound(r.rest, Simple(a.args + [n.tok.w], a.redirs + r.value));
      args := MoreArgs(Arg(n.tok.w, r.value), more);
      WithMore(a, args);
      ArgTokensMore(args, Tokens(Args(s, a).rest));
      assert Tokens(s) == [n.tok] + Tokens(n.rest);
    }
  }

  function MoreArgs(a: Arg, args: seq<Arg>): (r: seq<Arg>)
    ensures |r| == |args| + 1 && r[0] == a && r[1..] == args
    ensures IsWord(a.word) && AllFiles(a.after) && GoodArgs(args) ==> GoodArgs(r)
  {
    [a] + args
  }

  lemma NoArgs()
    ensures GoodArgs([]) && ArgTokens([]) == []
  {
  }

  lemma ArgRead(s: string, a: Simple)
    requires !Peek(s, STOPS) && GetToken(s).tok != End && Args(s, a).Ok?
    ensures GetToken(s).tok.Word? && |a.args| + 1 < MAXARGS && Redirs(GetToken(s).rest).Ok?
    ensures IsWord(GetToken(s).tok.w) && AllFiles(Redirs(GetToken(s).rest).value)
    ensures |Redirs(GetToken(s).rest).rest| < |s|
  {
  }

  // ----- The grammar -----

  /** A line with its structure: a simple command, a line in parentheses with redirections, a pipe, a command with an
      ampersand, or two commands with a semicolon between them. */
  datatype Tree =
    | Plain(before: seq<Redirection>, args: seq<Arg>)
    | Paren(line: Tree, after: seq<Redirection>)
    | Piped(first: Tree, more: Tree)
    | Amped(cmd: Tree)
    | Sequenced(first: Tree, more: Tree)

  predicate IsCommand(t: Tree)
    decreases t, 0
  {
    match t
    case Plain(before, args) => AllFiles(before) && GoodArgs(args) && |args| < MAXARGS
    case Paren(line, after) => IsLine(line) && AllFiles(after)
    case _ => false
  }

  predicate IsPipeline(t: Tree)
    decreases t, 1
  {
    IsCommand(t) || (t.Piped? && IsCommand(t.first) && IsPipeline(t.more))
  }

  predicate IsBacked(t: Tree)
    decreases t, 2
  {
    IsPipeline(t) || (t.Amped? && IsBacked(t.cmd))
  }

  predicate IsLine(t: Tree)
    decreases t, 3
  {
    IsBacked(t) || (t.Sequenced? && IsBacked(t.first) && IsLine(t.more))
  }

  /** The tokens of a tree, from left to right. */
  function Yield(t: Tree): (ts: seq<Token>) {
    match t
    case Plain(before, args) => RedirTokens(before) + ArgTokens(args)
    case Paren(line, after) => [Symbol('(')] + (Yield(line) + ([Symbol(')')] + RedirTokens(after)))
    case Piped(first, more) => Yield(first) + ([Symbol('|')] + Yield(more))
    case Amped(cmd) => Yield(cmd) + [Symbol('&')]
    case Sequenced(first, more) => Yield(first) + ([Symbol(';')] + Yield(more))
  }

  /** The command that a tree stands for. */
  function Meaning(t: Tree): (c: Cmd) {
    match t
    case Plain(before, args) => Wrap(Exec(Words(args)), before + Files(args))
    case Paren(line, after) => Wrap(Meaning(line), after)
    case Piped(first, more) => Pipe(Meaning(first), Meaning(more))
    case Amped(cmd) => Back(Meaning(cmd))
    case Sequenced(first, more) => List(Meaning(first), Meaning(more))
  }

  // ----- Everything in the language is accepted -----

  lemma Joined(a: seq<Token>, b: seq<Token>, c: seq<Token>)
    ensures (a + b) + c == a + (b + c)
  {
  }

  lemma SymbolBetween(a: seq<Token>, x: Token, b: seq<Token>, c: seq<Token>)
    ensures a + ([x] + (b + c)) == (a + ([x] + b)) + c
  {
  }

  lemma PlainAccepts(before: seq<Redirection>, args: seq<Arg>, s: string, rest: seq<Token>)
    requires AllFiles(before) && GoodArgs(args) && |args| < MAXARGS
    requires Tokens(s) == RedirTokens(before) + ArgTokens(args) + rest && Ends(rest, STOPS)
    ensures Command(s).Ok? && Command(s).value == Meaning(Plain(before, args)) && Tokens(Command(s).rest) == rest
  {
    hide Tokens, GetToken, Skip, Peek, Redirs, Args, RedirTokens, ArgTokens, Ends, STOPS, AllFiles, GoodArgs;
    var more := ArgTokens(args) + rest;
    PeekFirst(s, {'('});
    Joined(RedirTokens(before), ArgTokens(args), rest);
    FirstArg(args, rest);
    NoRedirNext(more);
    NoParenFirst(before, more);
    RedirsAccepts(before, s, more);
    ArgsAccepts(args, Redirs(s).rest, Simple([], before), rest);
    assert [] + Words(args) == Words(args);
  }

  lemma NoParenFirst(rs: seq<Redirection>, more: seq<Token>)
    requires !Starts(more, {'('})
    ensures !Starts(RedirTokens(rs) + more, {'('})
  {
    if rs != [] {
      RedirTokensMore(rs, more);
    } else {
      assert RedirTokens(rs) + more == more;
    }
  }

  lemma {:induction false} CommandAccepts(t: Tree, s: string, rest: seq<Token>)
    requires IsCommand(t) && Tokens(s) == Yield(t) + rest && Ends(rest, STOPS)
    ensures Command(s).Ok? && Command(s).value == Meaning(t) && Tokens(Command(s).rest) == rest
    decreases t, 0
  {
    hide Tokens, GetToken, Skip, Peek, Redirs, Args, RedirTokens, ArgTokens, Line, Wrap, AllFiles, GoodArgs;
    match t
    case Plain(before, args) => PlainAccepts(before, args, s, rest);
    case Paren(line, after) =>
      var tail := [Symbol(')')] + (RedirTokens(after) + rest);
      assert Tokens(s) == [Symbol('(')] + (Yield(line) + tail);
      PeekFirst(s, {'('});
      var u := GetToken(s).rest;
      LineAccepts(line, u, tail);
      var v := Line(u).rest;
      PeekFirst(v, {')'});
      assert tail[1..] == RedirTokens(after) + rest;
      RedirsAccepts(after, GetToken(v).rest, rest);
  }

  lemma {:induction false} PipelineAccepts(t: Tree, s: string, rest: seq<Token>)
    requires IsPipeline(t) && Tokens(s) == Yield(t) + rest && Ends(rest, {')', '&', ';'})
    ensures Pipeline(s).Ok? && Pipeline(s).value == Meaning(t) && Tokens(Pipeline(s).rest) == rest
    decreases t, 1
  {
    hide Tokens, GetToken, Skip, Peek, Command, IsCommand, Redirs, Args;
    if IsCommand(t) {
      CommandAccepts(t, s, rest);
      PeekFirst(Command(s).rest, {'|'});
    } else {
      var tail := [Symbol('|')] + (Yield(t.more) + rest);
      assert Tokens(s) == Yield(t.first) + tail;
      CommandAccepts(t.first, s, tail);
      var u := Command(s).rest;
      PeekFirst(u, {'|'});
      assert tail[1..] == Yield(t.more) + rest;
      PipelineAccepts(t.more, GetToken(u).rest, rest);
    }
  }

  /** The pipeline, and the ampersands behind it. */
  lemma {:induction false} BackedAccepts(t: Tree, s: string, rest: seq<Token>) returns (u: string)
    requires IsBacked(t) && Tokens(s) == Yield(t) + rest && Ends(rest, {')', '&', ';'})
    ensures Pipeline(s).Ok? && Tokens(u) == rest
    ensures Backs(Pipeline(s).value, Pipeline(s).rest) == Backs(Meaning(t), u)
    decreases t, 2
  {
    hide Tokens, GetToken, Skip, Peek, Command, IsCommand, Redirs, Args;
    if IsPipeline(t) {
      PipelineAccepts(t, s, rest);
      u := Pipeline(s).rest;
    } else {
      assert Tokens(s) == Yield(t.cmd) + ([Symbol('&')] + rest);
      var v := BackedAccepts(t.cmd, s, [Symbol('&')] + rest);
      PeekFirst(v, {'&'});
      u := GetToken(v).rest;
      assert ([Symbol('&')] + rest)[1..] == rest;
    }
  }

  lemma BacksEnd(c: Cmd, u: string)
    requires !Starts(Tokens(u), {'&'})
    ensures Backs(c, u) == Ok(c, Skip(u)) && Tokens(Skip(u)) == Tokens(u)
  {
    PeekFirst(u, {'&'});
    TokensSkip(u);
  }

  lemma {:induction false} LineAccepts(t: Tree, s: string, rest: seq<Token>)
    requires IsLine(t) && Tokens(s) == Yield(t) + rest && Ends(rest, {')'})
    ensures Line(s).Ok? && Line(s).value == Meaning(t) && Tokens(Line(s).rest) == rest
    decreases t, 3
  {
    hide Tokens, GetToken, Skip, Peek, Command, IsCommand, Redirs, Args;
    if IsBacked(t) {
      var u := BackedAccepts(t, s, rest);
      BacksEnd(Meaning(t), u);
      PeekFirst(Skip(u), {';'});
    } else {
      var tail := [Symbol(';')] + (Yield(t.more) + rest);
      assert Tokens(s) == Yield(t.first) + tail;
      var u := BackedAccepts(t.first, s, tail);
      BacksEnd(Meaning(t.first), u);
      PeekFirst(Skip(u), {';'});
      assert tail[1..] == Yield(t.more) + rest;
      LineAccepts(t.more, GetToken(Skip(u)).rest, rest);
    }
  }

  // ----- Everything accepted is in the language -----

  lemma {:induction false} CommandSound(s: string) returns (t: Tree)
    requires Command(s).Ok?
    ensures IsCommand(t) && Meaning(t) == Command(s).value && Tokens(s) == Yield(t) + Tokens(Command(s).rest)
    decreases |s|, 1
  {
    hide Tokens, GetToken, Skip, Peek, Redirs, Args, RedirTokens, ArgTokens, Line, Wrap, Words, Files;
    PeekFirst(s, {'('});
    if Peek(s, {'('}) {
      t := BlockSound(s);
    } else {
      var r := Redirs(s);
      RedirsSound(s);
      var args := ArgsSound(r.rest, Simple([], r.value));
      t := Plain(r.value, args);
      assert [] + Words(args) == Words(args);
    }
  }

  lemma {:induction false} BlockSound(s: string) returns (t: Tree)
    requires Peek(s, {'('}) && Block(s).Ok?
    ensures IsCommand(t) && Meaning(t) == Block(s).value && Tokens(s) == Yield(t) + Tokens(Block(s).rest)
    decreases |s|, 0
  {
    hide Tokens, GetToken, Skip, Peek, Redirs, Args, RedirTokens, ArgTokens, Line, Wrap, Words, Files;
    PeekFirst(s, {'('});
    var u := GetToken(s).rest;
    var line := LineSound(u);
    var v := Line(u).rest;
    PeekFirst(v, {')'});
    var w := GetToken(v).rest;
    RedirsSound(w);
    t := Paren(line, Redirs(w).value);
    assert Tokens(s) == [Symbol('(')] + Tokens(u) && Tokens(v) == [Symbol(')')] + Tokens(w);
  }

  lemma {:induction false} PipelineSound(s: string) returns (t: Tree)
    requires Pipeline(s).Ok?
    ensures IsPipeline(t) && Meaning(t) == Pipeline(s).value && Tokens(s) == Yield(t) + Tokens(Pipeline(s).rest)
    decreases |s|, 2
  {
    hide Tokens, GetToken, Skip, Peek, Command, IsCommand, Redirs, Args;
    t := CommandSound(s);
    var u := Command(s).rest;
    PeekFirst(u, {'|'});
    if Peek(u, {'|'}) {
      var v := GetToken(u).rest;
      var more := PipelineSound(v);
      assert Tokens(u) == [Symbol('|')] + Tokens(v);
      SymbolBetween(Yield(t), Symbol('|'), Yield(more), Tokens(Pipeline(v).rest));
      t := Piped(t, more);
    }
  }

  lemma {:induction false} BacksSound(t0: Tree, s: string) returns (t: Tree)
    requires IsBacked(t0)
    ensures IsBacked(t) && Meaning(t) == Backs(Meaning(t0), s).value
    ensures Yield(t0) + Tokens(s) == Yield(t) + Tokens(Backs(Meaning(t0), s).rest)
    decreases |s|
  {
    hide Tokens, GetToken, Skip, Peek, Command, IsCommand, Redirs, Args;
    PeekFirst(s, {'&'});
    if Peek(s, {'&'}) {
      var u := GetToken(s).rest;
      t := BacksSound(Amped(t0), u);
      assert Tokens(s) == [Symbol('&')] + Tokens(u);
      Joined(Yield(t0), [Symbol('&')], Tokens(u));
    } else {
      TokensSkip(s);
      t := t0;
    }
  }

  /** How a line is read. */
  lemma LineRead(s: string)
    requires Line(s).Ok?
    ensures Pipeline(s).Ok?
    ensures var b := Backs(Pipeline(s).value, Pipeline(s).rest);
            var u := GetToken(b.rest).rest;
            if Peek(b.rest, {';'})
            then Line(u).Ok? && |u| < |s| && Line(s) == Ok(List(b.value, Line(u).value), Line(u).rest)
            else Line(s) == b
  {
    hide Pipeline, Backs;
  }

  lemma SequencedIs(first: Tree, more: Tree)
    requires IsBacked(first) && IsLine(more)
    ensures IsLine(Sequenced(first, more)) && Meaning(Sequenced(first, more)) == List(Meaning(first), Meaning(more))
    ensures Yield(Sequenced(first, more)) == Yield(first) + ([Symbol(';')] + Yield(more))
  {
  }

  lemma BackedIsLine(t: Tree)
    requires IsBacked(t)
    ensures IsLine(t)
  {
  }

  lemma {:induction false} LineSound(s: string) returns (t: Tree)
    requires Line(s).Ok?
    ensures IsLine(t) && Meaning(t) == Line(s).value && Tokens(s) == Yield(t) + Tokens(Line(s).rest)
    decreases |s|, 3
  {
    hide Tokens, GetToken, Skip, Peek, Pipeline, Backs, Line, Yield, Meaning, IsBacked, IsLine;
    LineRead(s);
    var p := PipelineSound(s);
    PipelineIsBacked(p);
    var b := Backs(Pipeline(s).value, Pipeline(s).rest);
    t := BacksSound(p, Pipeline(s).rest);
    BackedIsLine(t);
    PeekFirst(b.rest, {';'});
    if Peek(b.rest, {';'}) {
      var u := GetToken(b.rest).rest;
      var more := LineSound(u);
      assert Tokens(b.rest) == [Symbol(';')] + Tokens(u);
      SymbolBetween(Yield(t), Symbol(';'), Yield(more), Tokens(Line(u).rest));
      SequencedIs(t, more);
      t := Sequenced(t, more);
    }
  }

  lemma PipelineIsBacked(t: Tree)
    requires IsPipeline(t)
    ensures IsBacked(t)
  {
  }

  // ----- Exactly the language -----

  /** `s` is a line of the language that stands for `c`: it spells the tokens of a tree that means `c`. */
  ghost predicate StandsFor(s: string, c: Cmd) {
    exists t :: IsLine(t) && Spells(s, Yield(t)) && Meaning(t) == c
  }

  /** The parser accepts exactly the lines of the language, and gives each what it stands for. */
  lemma ParsesExactly(s: string, c: Cmd)
    ensures Parse(s) == Ok(c, "") <==> StandsFor(s, c)
  {
    if t :| IsLine(t) && Spells(s, Yield(t)) && Meaning(t) == c {
      SpellingRead(s, Yield(t));
      LineAccepts(t, s, []);
      PeekFirst(Line(s).rest, {});
    }
    if Parse(s) == Ok(c, "") {
      var t := LineSound(s);
      PeekFirst(Line(s).rest, {});
      LineSpells(s);
      assert Tokens(s) == Yield(t);
    }
  }

  /** No line stands for two commands. */
  lemma Unambiguous(s: string, c: Cmd, d: Cmd)
    requires StandsFor(s, c) && StandsFor(s, d)
    ensures c == d
  {
    ParsesExactly(s, c);
    ParsesExactly(s, d);
  }
}
