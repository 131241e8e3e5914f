/** The command language of sh.c: what the recursive-descent parser computes, as functions on the
    text still unread. */
module ShellGrammar {
  import opened Options

  const MAXARGS := 10

  datatype Kind = Input | Output

  /** A command tree over words of any representation. */
  datatype Cmd<W> =
    | Exec(argv: seq<W>)
    | Redir(cmd: Cmd<W>, file: W, kind: Kind)
    | Pipe(left: Cmd<W>, right: Cmd<W>)
    | List(left: Cmd<W>, right: Cmd<W>)
    | Back(cmd: Cmd<W>)

  // ---------- tokens ----------

  predicate IsSpace(c: char) {
    c == ' ' || c == '\t' || c == '\r' || c == '\n' || c == '\U{000B}'
  }

  predicate IsSymbol(c: char) {
    c == '<' || c == '|' || c == '>' || c == '&' || c == ';' || c == '(' || c == ')'
  }

  predicate IsWordChar(c: char) {
    !IsSpace(c) && !IsSymbol(c)
  }

  function Skip(s: string): (r: string)
    ensures |r| <= |s| && (r == [] || !IsSpace(r[0]))
  {
    if s != [] && IsSpace(s[0]) then Skip(s[1..]) else s
  }

  /** The longest prefix of word characters. */
  function Word(s: string): (w: string)
    ensures |w| <= |s| && w == s[..|w|]
    ensures forall i | 0 <= i < |w| :: IsWordChar(w[i])
    ensures |w| < |s| ==> !IsWordChar(s[|w|])
  {
    if s != [] && IsWordChar(s[0]) then [s[0]] + Word(s[1..]) else []
  }

  /** A token: '\0' at the end, 'a' for a word, '+' for `>>`, otherwise the symbol itself. */
  datatype Token = Token(tok: char, word: string, rest: string)

  function GetToken(s: string): (t: Token)
    ensures |t.rest| <= |s| && (t.tok != '\0' ==> |t.rest| < |s|)
  {
    var u := Skip(s);
    if u == [] then Token('\0', [], [])
    else if u[0] == '>' then
      if |u| > 1 && u[1] == '>' then Token('+', [], Skip(u[2..])) else Token('>', [], Skip(u[1..]))
    else if IsSymbol(u[0]) then Token(u[0], [], Skip(u[1..]))
    else Token('a', Word(u), Skip(u[|Word(u)|..]))
  }

  /** The next unread character, if any, is one of toks. */
  predicate Peek(s: string, toks: string) {
    Skip(s) != [] && Skip(s)[0] in toks
  }

  // ---------- the parser ----------

  type Redirs<W> = seq<(W, Kind)>

  /** Redirections in the order they were read, the first innermost. */
  function Wrap<W>(c: Cmd<W>, rs: Redirs<W>): (r: Cmd<W>) {
    if rs == [] then c else Redir(Wrap(c, rs[..|rs| - 1]), rs[|rs| - 1].0, rs[|rs| - 1].1)
  }

  datatype Parsed<T> = Parsed(value: T, rest: string)

  function ParseRedirs(s: string): (r: Option<Parsed<Redirs<string>>>)
    ensures r.Some? ==> |r.value.rest| <= |s|
    decreases |s|
  {
    if !Peek(s, "<>") then Some(Parsed([], Skip(s)))
    else
      var t := GetToken(s);
      var f := GetToken(t.rest);
      if f.tok != 'a' then None
      else
        var p :- ParseRedirs(f.rest);
        Some(Parsed([(f.word, if t.tok == '<' then Input else Output)] + p.value, p.rest))
  }

  /** Arguments and the redirections among them. */
  function ParseArgs(s: string, argc: nat): (r: Option<Parsed<(seq<string>, Redirs<string>)>>)
    ensures r.Some? ==> |r.value.rest| <= |s|
    decreases |s|
  {
    if Peek(s, "|)&;") then Some(Parsed(([], []), Skip(s)))
    else
      var t := GetToken(s);
      if t.tok == '\0' then Some(Parsed(([], []), t.rest))
      else if t.tok != 'a' || argc + 1 >= MAXARGS then None
      else
        var p :- ParseRedirs(t.rest);
        var q :- ParseArgs(p.rest, argc + 1);
        Some(Parsed(([t.word] + q.value.0, p.value + q.value.1), q.rest))
  }

  type Result = Option<Parsed<Cmd<string>>>

  function ParseExec(s: string): (r: Result)
    ensures r.Some? ==> |r.value.rest| <= |s|
    decreases |s|, 2
  {
    if Peek(s, "(") then ParseBlock(s)
    else
      var p :- ParseRedirs(s);
      var q :- ParseArgs(p.rest, 0);
      Some(Parsed(Wrap(Exec(q.value.0), p.value + q.value.1), q.rest))
  }

  function ParseBlock(s: string): (r: Result)
    requires Peek(s, "(")
    ensures r.Some? ==> |r.value.rest| <= |s|
    decreases |s|, 1
  {
    var c :- ParseLine(GetToken(s).rest);
    if !Peek(c.rest, ")") then None
    else
      var p :- ParseRedirs(GetToken(c.rest).rest);
      Some(Parsed(Wrap(c.value, p.value), p.rest))
  }

  function ParsePipe(s: string): (r: Result)
    ensures r.Some? ==> |r.value.rest| <= |s|
    decreases |s|, 3
  {
    var l :- ParseExec(s);
    if !Peek(l.rest, "|") then Some(Parsed(l.value, Skip(l.rest)))
    else
      var p :- ParsePipe(GetToken(l.rest).rest);
      Some(Parsed(Pipe(l.value, p.value), p.rest))
  }

  /** As many `&` as follow. */
  function ParseBacks(c: Cmd<string>, s: string): (r: Parsed<Cmd<string>>)
    ensures |r.rest| <= |s|
    decreases |s|
  {
    if Peek(s, "&") then ParseBacks(Back(c), GetToken(s).rest) else Parsed(c, Skip(s))
  }

  function ParseLine(s: string): (r: Result)
    ensures r.Some? ==> |r.value.rest| <= |s|
    decreases |s|, 4
  {
    var p :- ParsePipe(s);
    var b := ParseBacks(p.value, p.rest);
    if !Peek(b.rest, ";") then Some(Parsed(b.value, Skip(b.rest)))
    else
      var l :- ParseLine(GetToken(b.rest).rest);
      Some(Parsed(List(b.value, l.value), l.rest))
  }

  /** None is a syntax panic. */
  function ParseCmd(s: string): (r: Option<Cmd<string>>) {
    var l :- ParseLine(s);
    if Skip(l.rest) != [] then None else Some(l.value)
  }
}
