/** Printing a command tree with as few parentheses as the grammar needs, and the proof that the
    parser of sh.c reads the tree back. */
module ShellPrinter {
  import opened Options
  import opened ShellGrammar

  predicate LegalWord(w: string) {
    w != [] && forall i | 0 <= i < |w| :: IsWordChar(w[i]) && w[i] != '\0'
  }

  /** At most nine arguments per command, and words the tokenizer takes as words. */
  predicate Legal(c: Cmd<string>) {
    match c
    case Exec(argv) => |argv| < MAXARGS && forall i | 0 <= i < |argv| :: LegalWord(argv[i])
    case Redir(cmd, file, _) => Legal(cmd) && LegalWord(file)
    case Pipe(l, r) => Legal(l) && Legal(r)
    case List(l, r) => Legal(l) && Legal(r)
    case Back(cmd) => Legal(cmd)
  }

  function Size(c: Cmd<string>): (n: nat) {
    match c
    case Exec(_) => 1
    case Redir(cmd, _, _) => 1 + Size(cmd)
    case Pipe(l, r) => 1 + Size(l) + Size(r)
    case List(l, r) => 1 + Size(l) + Size(r)
    case Back(cmd) => 1 + Size(cmd)
  }

  /** The command under all redirections. */
  function Core(c: Cmd<string>): (b: Cmd<string>)
    ensures !b.Redir? && (if c.Redir? then Size(b) < Size(c) else b == c)
    ensures Legal(c) ==> Legal(b)
  {
    if c.Redir? then Core(c.cmd) else c
  }

  /** Its redirections, innermost first. */
  function RedirsOf(c: Cmd<string>): (rs: Redirs<string>)
    ensures Legal(c) ==> forall i | 0 <= i < |rs| :: LegalWord(rs[i].0)
  {
    if c.Redir? then RedirsOf(c.cmd) + [(c.file, c.kind)] else []
  }

  lemma {:induction false} WrapCore(c: Cmd<string>)
    ensures Wrap(Core(c), RedirsOf(c)) == c
  {
    if c.Redir? {
      WrapCore(c.cmd);
      var rs := RedirsOf(c);
      assert rs[..|rs| - 1] == RedirsOf(c.cmd);
    }
  }

  // ---------- the printer ----------

  function Words(ws: seq<string>): (s: string) {
    if ws == [] then [] else ws[0] + " " + Words(ws[1..])
  }

  function Sign(k: Kind): (s: string) {
    if k.Input? then "<" else ">"
  }

  function PrintRedirs(rs: Redirs<string>): (s: string) {
    if rs == [] then [] else Sign(rs[0].1) + rs[0].0 + " " + PrintRedirs(rs[1..])
  }

  function PrintExec(c: Cmd<string>): (s: string)
    decreases Size(c), if c.Exec? || c.Redir? then 0 else 4
  {
    var b := Core(c);
    (if b.Exec? then Words(b.argv) else "(" + PrintLine(b) + ")") + PrintRedirs(RedirsOf(c))
  }

  function PrintPipe(c: Cmd<string>): (s: string)
    decreases Size(c), if c.Pipe? then 1 else 5
  {
    if c.Pipe? then PrintExec(c.left) + "|" + PrintPipe(c.right) else PrintExec(c)
  }

  function PrintBack(c: Cmd<string>): (s: string)
    decreases Size(c), if c.Pipe? || c.Back? then 2 else 6
  {
    if c.Back? then PrintBack(c.cmd) + "&" else PrintPipe(c)
  }

  function PrintLine(c: Cmd<string>): (s: string)
    decreases Size(c), if c.Pipe? || c.Back? || c.List? then 3 else 7
  {
    if c.List? then PrintBack(c.left) + ";" + PrintLine(c.right) else PrintBack(c)
  }

  // ---------- tokens of printed text ----------

  lemma {:induction false} SkipTwice(s: string)
    ensures Skip(Skip(s)) == Skip(s)
  {
  }

  /** Unread spaces do not matter to any parsing function. */
  lemma {:induction false} SpacesBeforeToken(s: string)
    ensures GetToken(Skip(s)) == GetToken(s)
    ensures forall toks: string :: Peek(Skip(s), toks) == Peek(s, toks)
  {
    SkipTwice(s);
  }

  lemma {:induction false} SpacesBeforeRedirs(s: string)
    ensures ParseRedirs(Skip(s)) == ParseRedirs(s)
  {
    hide GetToken, Peek;
    SkipTwice(s);
    SpacesBeforeToken(s);
  }

  lemma {:induction false} SpacesBeforeArgs(s: string, argc: nat)
    ensures ParseArgs(Skip(s), argc) == ParseArgs(s, argc)
  {
    hide GetToken, Peek, ParseRedirs;
    SkipTwice(s);
    SpacesBeforeToken(s);
  }

  lemma {:induction false} SpacesBeforeExec(s: string)
    ensures ParseExec(Skip(s)) == ParseExec(s)
  {
    hide GetToken, Peek, ParseRedirs, ParseArgs;
    SkipTwice(s);
    SpacesBeforeToken(s);
    SpacesBeforeRedirs(s);
  }

  lemma {:induction false} SpacesBeforePipe(s: string)
    ensures ParsePipe(Skip(s)) == ParsePipe(s)
  {
    hide GetToken, Peek, ParseExec;
    SpacesBeforeExec(s);
  }

  lemma {:induction false} SpacesBeforeLine(s: string)
    ensures ParseLine(Skip(s)) == ParseLine(s)
  {
    hide GetToken, Peek, ParsePipe, ParseBacks;
    SpacesBeforePipe(s);
  }

  lemma {:induction false} SymbolToken(c: char, k: string)
    requires IsSymbol(c) && c != '>'
    ensures Skip([c] + k) == [c] + k && GetToken([c] + k) == Token(c, [], Skip(k))
  {
    assert ([c] + k)[1..] == k;
  }

  lemma {:induction false} GreaterToken(k: string)
    requires k == [] || k[0] != '>'
    ensures Skip(">" + k) == ">" + k && GetToken(">" + k) == Token('>', [], Skip(k))
  {
    assert (">" + k)[1..] == k;
  }

  lemma {:induction false} WordOf(w: string, k: string)
    requires forall i | 0 <= i < |w| :: IsWordChar(w[i])
    requires k == [] || !IsWordChar(k[0])
    ensures Word(w + k) == w
  {
    if w == [] {
      assert w + k == k;
    } else {
      assert (w + k)[1..] == w[1..] + k;
      WordOf(w[1..], k);
      assert w == [w[0]] + w[1..];
    }
  }

  lemma {:induction false} WordToken(w: string, k: string)
    requires LegalWord(w)
    ensures var s := w + " " + k; Skip(s) == s && GetToken(s) == Token('a', w, Skip(k))
  {
    var s := w + " " + k;
    assert s == w + (" " + k);
    assert IsWordChar(s[0]);
    WordOf(w, " " + k);
    assert s[|w|..] == " " + k;
    assert (" " + k)[1..] == k;
  }

  // ---------- reading printed pieces back ----------

  /** Nothing more of a redirection list follows. */
  predicate NoRedir(k: string) {
    !Peek(k, "<>")
  }

  lemma {:induction false} ReadRedir(k: Kind, w: string, rest: string, p: Parsed<Redirs<string>>)
    requires LegalWord(w) && ParseRedirs(rest) == Some(p)
    ensures ParseRedirs(Sign(k) + (w + " " + rest)) == Some(Parsed([(w, k)] + p.value, p.rest))
  {
    hide Skip, Word, GetToken;
    var s := w + " " + rest;
    WordToken(w, rest);
    if k.Input? {
      SymbolToken('<', s);
    } else {
      assert IsWordChar(w[0]);
      GreaterToken(s);
    }
    SpacesBeforeRedirs(rest);
  }

  lemma {:induction false} ReadRedirs(rs: Redirs<string>, k: string)
    requires NoRedir(k) && forall i | 0 <= i < |rs| :: LegalWord(rs[i].0)
    ensures ParseRedirs(PrintRedirs(rs) + k) == Some(Parsed(rs, Skip(k)))
  {
    hide Skip, Word, GetToken;
    if rs == [] {
      assert PrintRedirs(rs) + k == k;
    } else {
      var rest := PrintRedirs(rs[1..]) + k;
      assert PrintRedirs(rs) + k == Sign(rs[0].1) + (rs[0].0 + " " + rest);
      ReadRedirs(rs[1..], k);
      ReadRedir(rs[0].1, rs[0].0, rest, Parsed(rs[1..], Skip(k)));
      assert rs == [rs[0]] + rs[1..];
    }
  }

  // ---------- arguments ----------

  /** What may follow a simple command. */
  predicate EndsExec(k: string) {
    Skip(k) == [] || Skip(k)[0] in "|)&;"
  }

  lemma {:induction false} ReadNoArgs(k: string, argc: nat)
    requires EndsExec(k)
    ensures ParseArgs(k, argc) == Some(Parsed(([], []), Skip(k)))
  {
  }

  lemma {:induction false} ReadArg(w: string, rest: string, argc: nat, p: Parsed<Redirs<string>>,
                                   q: Parsed<(seq<string>, Redirs<string>)>)
    requires LegalWord(w) && argc + 1 < MAXARGS
    requires ParseRedirs(rest) == Some(p) && ParseArgs(p.rest, argc + 1) == Some(q)
    ensures ParseArgs(w + " " + rest, argc) == Some(Parsed(([w] + q.value.0, p.value + q.value.1), q.rest))
  {
    hide Skip, Word, GetToken, ParseRedirs;
    WordToken(w, rest);
    SpacesBeforeRedirs(rest);
    assert IsWordChar(w[0]) && (w + " " + rest)[0] == w[0];
  }

  /** Text that begins with a word has no redirection in front. */
  lemma {:induction false} NoRedirBefore(w: string, rest: string)
    requires LegalWord(w)
    ensures ParseRedirs(w + " " + rest) == Some(Parsed([], w + " " + rest))
    ensures !Peek(w + " " + rest, "(")
  {
    hide Skip, Word, GetToken;
    WordToken(w, rest);
    assert IsWordChar(w[0]) && (w + " " + rest)[0] == w[0];
  }

  lemma {:induction false} ReadArgs(ws: seq<string>, rs: Redirs<string>, k: string, argc: nat)
    requires ws != [] && argc + |ws| < MAXARGS && forall i | 0 <= i < |ws| :: LegalWord(ws[i])
    requires EndsExec(k) && forall i | 0 <= i < |rs| :: LegalWord(rs[i].0)
    ensures ParseArgs(Words(ws) + PrintRedirs(rs) + k, argc) == Some(Parsed((ws, rs), Skip(k)))
    decreases |ws|
  {
    hide Skip, Word, GetToken, ParseRedirs, ParseArgs, LegalWord;
    var rest := Words(ws[1..]) + PrintRedirs(rs) + k;
    assert Words(ws) + PrintRedirs(rs) + k == ws[0] + " " + rest;
    assert ws == [ws[0]] + ws[1..];
    if |ws| == 1 {
      assert rest == PrintRedirs(rs) + k;
      ReadRedirs(rs, k);
      SkipTwice(k);
      ReadNoArgs(Skip(k), argc + 1);
      ReadArg(ws[0], rest, argc, Parsed(rs, Skip(k)), Parsed(([], []), Skip(k)));
      assert [ws[0]] + [] == ws && rs + [] == rs;
    } else {
      assert rest == ws[1] + " " + (Words(ws[2..]) + PrintRedirs(rs) + k) by {
        assert ws[1..][1..] == ws[2..];
      }
      NoRedirBefore(ws[1], Words(ws[2..]) + PrintRedirs(rs) + k);
      ReadArgs(ws[1..], rs, k, argc + 1);
      ReadArg(ws[0], rest, argc, Parsed([], rest), Parsed((ws[1..], rs), Skip(k)));
      assert [] + rs == rs;
    }
  }

  /** A simple command: words, then redirections. */
  lemma {:induction false} ReadSimple(ws: seq<string>, rs: Redirs<string>, k: string)
    requires |ws| < MAXARGS && forall i | 0 <= i < |ws| :: LegalWord(ws[i])
    requires EndsExec(k) && forall i | 0 <= i < |rs| :: LegalWord(rs[i].0)
    ensures ParseExec(Words(ws) + PrintRedirs(rs) + k) == Some(Parsed(Wrap(Exec(ws), rs), Skip(k)))
  {
    hide Skip, Word, GetToken, ParseRedirs, ParseArgs, LegalWord, Wrap;
    if ws == [] {
      var s := PrintRedirs(rs) + k;
      assert Words(ws) + PrintRedirs(rs) + k == s;
      ReadRedirs(rs, k);
      NoParenthesis(rs, k);
      SkipTwice(k);
      ReadNoArgs(Skip(k), 0);
      assert rs + [] == rs;
    } else {
      var rest := Words(ws[1..]) + PrintRedirs(rs) + k;
      var s := ws[0] + " " + rest;
      assert Words(ws) + PrintRedirs(rs) + k == s;
      NoRedirBefore(ws[0], rest);
      ReadArgs(ws, rs, k, 0);
      assert [] + rs == rs;
    }
  }

  lemma {:induction false} NoParenthesis(rs: Redirs<string>, k: string)
    requires EndsExec(k)
    ensures !Peek(PrintRedirs(rs) + k, "(")
  {
    var s := PrintRedirs(rs) + k;
    if rs == [] {
      assert s == k;
    } else {
      assert s[0] == Sign(rs[0].1)[0];
    }
  }

  // ---------- compound commands ----------

  /** What may follow a pipeline, and what may follow a line. */
  predicate EndsPipe(k: string) {
    Skip(k) == [] || Skip(k)[0] in ")&;"
  }

  predicate EndsLine(k: string) {
    Skip(k) == [] || Skip(k)[0] == ')'
  }

  lemma {:induction false} ReadBlock(t: string, c: Cmd<string>, rs: Redirs<string>, k: string)
    requires EndsExec(k) && forall i | 0 <= i < |rs| :: LegalWord(rs[i].0)
    requires var k' := ")" + (PrintRedirs(rs) + k); ParseLine(t + k') == Some(Parsed(c, Skip(k')))
    ensures ParseExec("(" + t + ")" + PrintRedirs(rs) + k) == Some(Parsed(Wrap(c, rs), Skip(k)))
  {
    hide Skip, Word, GetToken, ParseRedirs, ParseArgs, ParseLine, LegalWord, Wrap;
    var r := PrintRedirs(rs) + k;
    var s := "(" + (t + (")" + r));
    assert "(" + t + ")" + PrintRedirs(rs) + k == s;
    SymbolToken('(', t + (")" + r));
    SpacesBeforeLine(t + (")" + r));
    SymbolToken(')', r);
    SpacesBeforeRedirs(r);
    ReadRedirs(rs, k);
    assert ParseExec(s) == ParseBlock(s);
  }

  lemma {:induction false} ReadPipe(a: string, l: Cmd<string>, b: string, r: Parsed<Cmd<string>>)
    requires ParseExec(a + ("|" + b)) == Some(Parsed(l, Skip("|" + b))) && ParsePipe(b) == Some(r)
    ensures ParsePipe(a + ("|" + b)) == Some(Parsed(Pipe(l, r.value), r.rest))
  {
    hide Skip, Word, GetToken, ParseExec;
    SymbolToken('|', b);
    SpacesBeforePipe(b);
  }

  lemma {:induction false} ReadBackground(c: Cmd<string>, k: string)
    ensures ParseBacks(c, Skip("&" + k)) == ParseBacks(Back(c), Skip(k))
  {
    hide Skip, Word, GetToken;
    SymbolToken('&', k);
  }

  lemma {:induction false} ReadList(s: string, l: Cmd<string>, b: string, r: Parsed<Cmd<string>>)
    requires ParsePipe(s).Some? && ParseLine(b) == Some(r)
    requires var p := ParsePipe(s).value; ParseBacks(p.value, p.rest) == ParseBacks(l, Skip(";" + b))
    ensures ParseLine(s) == Some(Parsed(List(l, r.value), r.rest))
  {
    hide Skip, Word, GetToken, ParsePipe;
    SymbolToken(';', b);
    SpacesBeforeLine(b);
  }

  // ---------- the round trip ----------

  lemma {:induction false} ExecReadsBack(c: Cmd<string>, k: string)
    requires Legal(c) && EndsExec(k)
    ensures ParseExec(PrintExec(c) + k) == Some(Parsed(c, Skip(k)))
    decreases Size(c), if c.Exec? || c.Redir? then 0 else 4
  {
    hide Skip, ParseExec, ParseLine, PrintRedirs, PrintLine, RedirsOf, Wrap, Words, LegalWord;
    var b, rs := Core(c), RedirsOf(c);
    WrapCore(c);
    if b.Exec? {
      ReadSimple(b.argv, rs, k);
    } else {
      var k' := ")" + (PrintRedirs(rs) + k);
      SymbolToken(')', PrintRedirs(rs) + k);
      LineReadsBack(b, k');
      ReadBlock(PrintLine(b), b, rs, k);
      assert PrintExec(c) + k == "(" + PrintLine(b) + ")" + PrintRedirs(rs) + k;
    }
  }

  lemma {:induction false} PipeReadsBack(c: Cmd<string>, k: string)
    requires Legal(c) && EndsPipe(k)
    ensures ParsePipe(PrintPipe(c) + k) == Some(Parsed(c, Skip(k)))
    decreases Size(c), if c.Pipe? then 1 else 5
  {
    hide Skip, ParseExec, GetToken, PrintExec, Word;
    if c.Pipe? {
      var b := PrintPipe(c.right) + k;
      assert PrintPipe(c) + k == PrintExec(c.left) + ("|" + b);
      SymbolToken('|', b);
      ExecReadsBack(c.left, "|" + b);
      PipeReadsBack(c.right, k);
      ReadPipe(PrintExec(c.left), c.left, b, Parsed(c.right, Skip(k)));
    } else {
      SkipTwice(k);
      ExecReadsBack(c, k);
    }
  }

  lemma {:induction false} BacksReadBack(c: Cmd<string>, k: string)
    requires Legal(c) && EndsPipe(k)
    ensures var p := ParsePipe(PrintBack(c) + k);
            p.Some? && ParseBacks(p.value.value, p.value.rest) == ParseBacks(c, Skip(k))
    decreases Size(c), if c.Pipe? || c.Back? then 2 else 6
  {
    hide Skip, ParsePipe, ParseBacks, GetToken, PrintPipe, Word;
    if c.Back? {
      assert PrintBack(c) + k == PrintBack(c.cmd) + ("&" + k);
      SymbolToken('&', k);
      BacksReadBack(c.cmd, "&" + k);
      ReadBackground(c.cmd, k);
    } else {
      PipeReadsBack(c, k);
    }
  }

  lemma {:induction false} LineReadsBack(c: Cmd<string>, k: string)
    requires Legal(c) && EndsLine(k)
    ensures ParseLine(PrintLine(c) + k) == Some(Parsed(c, Skip(k)))
    decreases Size(c), if c.Pipe? || c.Back? || c.List? then 3 else 7
  {
    hide Skip, ParsePipe, GetToken, PrintBack, Word;
    if c.List? {
      var b := PrintLine(c.right) + k;
      assert PrintLine(c) + k == PrintBack(c.left) + (";" + b);
      SymbolToken(';', b);
      BacksReadBack(c.left, ";" + b);
      LineReadsBack(c.right, k);
      ReadList(PrintBack(c.left) + (";" + b), c.left, b, Parsed(c.right, Skip(k)));
    } else {
      SkipTwice(k);
      BacksReadBack(c, k);
    }
  }

  /** The parser reads every printed tree back: no information is lost by the concrete syntax, and
      the printed parentheses are enough. */
  lemma {:induction false} PrintParse(c: Cmd<string>)
    requires Legal(c)
    ensures ParseCmd(PrintLine(c)) == Some(c)
  {
    LineReadsBack(c, []);
    assert PrintLine(c) + [] == PrintLine(c);
  }

  // ---------- only legal trees are parsed ----------

  /** Text of a C string. */
  predicate Plain(s: string) {
    '\0' !in s
  }

  lemma {:induction false} SkipPlain(s: string)
    requires Plain(s)
    ensures Plain(Skip(s))
  {
    if s != [] && IsSpace(s[0]) {
      SkipPlain(s[1..]);
    }
  }

  lemma {:induction false} TokenPlain(s: string)
    requires Plain(s)
    ensures var t := GetToken(s); Plain(t.rest) && (t.tok == 'a' ==> LegalWord(t.word))
  {
    hide Word;
    var u := Skip(s);
    SkipPlain(s);
    if u != [] {
      SkipPlain(u[1..]);
      if |u| > 1 {
        SkipPlain(u[2..]);
      }
      SkipPlain(u[|Word(u)|..]);
      var w := Word(u);
      assert forall i | 0 <= i < |w| :: w[i] == u[i];
      assert IsWordChar(u[0]) ==> w != [];
    }
  }

  predicate LegalRedirs(rs: Redirs<string>) {
    forall i | 0 <= i < |rs| :: LegalWord(rs[i].0)
  }

  lemma {:induction false} RedirsLegal(s: string)
    requires Plain(s)
    ensures var r := ParseRedirs(s); r.Some? ==> LegalRedirs(r.value.value) && Plain(r.value.rest)
    decreases |s|
  {
    hide GetToken, Skip, LegalWord;
    SkipPlain(s);
    TokenPlain(s);
    var t := GetToken(s);
    TokenPlain(t.rest);
    if Peek(s, "<>") && GetToken(t.rest).tok == 'a' {
      RedirsLegal(GetToken(t.rest).rest);
    }
  }

  lemma {:induction false} ArgsLegal(s: string, argc: nat)
    requires Plain(s) && argc < MAXARGS
    ensures var r := ParseArgs(s, argc);
            r.Some? ==> Plain(r.value.rest) && LegalRedirs(r.value.value.1) && argc + |r.value.value.0| < MAXARGS
                        && forall i | 0 <= i < |r.value.value.0| :: LegalWord(r.value.value.0[i])
    decreases |s|
  {
    hide GetToken, Skip, LegalWord, ParseRedirs;
    SkipPlain(s);
    TokenPlain(s);
    var t := GetToken(s);
    if !Peek(s, "|)&;") && t.tok == 'a' && argc + 1 < MAXARGS {
      RedirsLegal(t.rest);
      var p := ParseRedirs(t.rest);
      if p.Some? {
        ArgsLegal(p.value.rest, argc + 1);
      }
    }
  }

  lemma {:induction false} WrapLegal(c: Cmd<string>, rs: Redirs<string>)
    requires Legal(c) && LegalRedirs(rs)
    ensures Legal(Wrap(c, rs))
  {
    hide LegalWord;
    if rs != [] {
      WrapLegal(c, rs[..|rs| - 1]);
    }
  }

  predicate Sound(r: Result) {
    r.Some? ==> Legal(r.value.value) && Plain(r.value.rest)
  }

  lemma {:induction false} ExecLegal(s: string)
    requires Plain(s)
    ensures Sound(ParseExec(s))
    decreases |s|, 2
  {
    hide GetToken, Skip, LegalWord, ParseRedirs, ParseArgs, ParseBlock, Wrap, Plain, Peek;
    if Peek(s, "(") {
      BlockLegal(s);
    } else {
      RedirsLegal(s);
      var p := ParseRedirs(s);
      if p.Some? {
        ArgsLegal(p.value.rest, 0);
        var q := ParseArgs(p.value.rest, 0);
        if q.Some? {
          WrapLegal(Exec(q.value.value.0), p.value.value + q.value.value.1);
        }
      }
    }
  }

  lemma {:induction false} BlockLegal(s: string)
    requires Plain(s) && Peek(s, "(")
    ensures Sound(ParseBlock(s))
    decreases |s|, 1
  {
    hide Skip, LegalWord, ParseRedirs, ParseLine, Wrap, Plain, Legal, LegalRedirs;
    TokenPlain(s);
    LineLegal(GetToken(s).rest);
    var c := ParseLine(GetToken(s).rest);
    if c.Some? && Peek(c.value.rest, ")") {
      TokenPlain(c.value.rest);
      RedirsLegal(GetToken(c.value.rest).rest);
      var p := ParseRedirs(GetToken(c.value.rest).rest);
      if p.Some? {
        WrapLegal(c.value.value, p.value.value);
      }
    }
  }

  lemma {:induction false} PipeLegal(s: string)
    requires Plain(s)
    ensures Sound(ParsePipe(s))
    decreases |s|, 3
  {
    hide Skip, LegalWord, ParseExec, Plain;
    ExecLegal(s);
    var l := ParseExec(s);
    if l.Some? {
      SkipPlain(l.value.rest);
      if Peek(l.value.rest, "|") {
        TokenPlain(l.value.rest);
        PipeLegal(GetToken(l.value.rest).rest);
      }
    }
  }

  lemma {:induction false} BacksLegal(c: Cmd<string>, s: string)
    requires Legal(c) && Plain(s)
    ensures var p := ParseBacks(c, s); Legal(p.value) && Plain(p.rest)
    decreases |s|
  {
    hide Skip, LegalWord, Plain;
    SkipPlain(s);
    if Peek(s, "&") {
      TokenPlain(s);
      BacksLegal(Back(c), GetToken(s).rest);
    }
  }

  lemma {:induction false} LineLegal(s: string)
    requires Plain(s)
    ensures Sound(ParseLine(s))
    decreases |s|, 4
  {
    hide Skip, LegalWord, ParsePipe, ParseBacks, Plain;
    PipeLegal(s);
    var p := ParsePipe(s);
    if p.Some? {
      BacksLegal(p.value.value, p.value.rest);
      var b := ParseBacks(p.value.value, p.value.rest);
      SkipPlain(b.rest);
      if Peek(b.rest, ";") {
        TokenPlain(b.rest);
        LineLegal(GetToken(b.rest).rest);
      }
    }
  }

  /** The trees the parser can return are exactly the legal ones. */
  lemma {:induction false} ParsesIff(c: Cmd<string>)
    ensures Legal(c) <==> exists s: string :: Plain(s) && ParseCmd(s) == Some(c)
  {
    hide Legal, ParseLine, PrintLine;
    if Legal(c) {
      PrintParse(c);
      PrintPlain(c);
    }
    forall s: string | Plain(s) && ParseCmd(s) == Some(c)
      ensures Legal(c)
    {
      LineLegal(s);
    }
  }

  lemma {:induction false} WordsPlain(ws: seq<string>)
    requires forall i | 0 <= i < |ws| :: LegalWord(ws[i])
    ensures Plain(Words(ws))
  {
    if ws != [] {
      WordsPlain(ws[1..]);
    }
  }

  lemma {:induction false} PrintRedirsPlain(rs: Redirs<string>)
    requires LegalRedirs(rs)
    ensures Plain(PrintRedirs(rs))
  {
    if rs != [] {
      PrintRedirsPlain(rs[1..]);
    }
  }

  /** Printed trees are C strings. */
  lemma {:induction false} PrintPlain(c: Cmd<string>)
    requires Legal(c)
    ensures Plain(PrintLine(c)) && Plain(PrintBack(c)) && Plain(PrintPipe(c)) && Plain(PrintExec(c))
    decreases Size(c)
  {
    var b := Core(c);
    PrintRedirsPlain(RedirsOf(c));
    if b.Exec? {
      WordsPlain(b.argv);
    }
    if c.Redir? {
      PrintPlain(b);
    } else if c.Back? {
      PrintPlain(c.cmd);
    } else if !c.Exec? {
      PrintPlain(c.left);
      PrintPlain(c.right);
    }
    if c.Exec? || c.Redir? {
      assert PrintExec(c) == PrintPipe(c) == PrintBack(c) == PrintLine(c);
    } else if c.Pipe? {
      assert PrintPipe(c) == PrintBack(c) == PrintLine(c);
    } else if c.Back? {
      assert PrintBack(c) == PrintLine(c);
    }
  }
}
