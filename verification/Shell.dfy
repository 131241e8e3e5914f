/** The parser of sh.c as it runs: one cursor moving over the line, words as pairs of positions into
    it, and the pass that overwrites the end of every word with a NUL. */
module Shell {
  import opened Options
  import opened ShellGrammar
  import opened ShellPrinter
  import ShellSyntax

  /** The characters from q up to eq, as gettoken reports them. */
  datatype Span = Span(q: nat, eq: nat)

  /** A maximal stretch of word characters of the line. */
  predicate IsWord(s: string, w: Span) {
    && w.q < w.eq <= |s|
    && (forall i | w.q <= i < w.eq :: IsWordChar(s[i]))
    && (w.eq < |s| ==> !IsWordChar(s[w.eq]))
  }

  function Text(s: string, w: Span): (t: string)
    requires IsWord(s, w)
  {
    s[w.q..w.eq]
  }

  predicate AreWords(s: string, ws: seq<Span>) {
    forall i | 0 <= i < |ws| :: IsWord(s, ws[i])
  }

  function Texts(s: string, ws: seq<Span>): (ts: seq<string>)
    requires AreWords(s, ws)
  {
    seq(|ws|, i requires 0 <= i < |ws| => Text(s, ws[i]))
  }

  predicate AreRedirs(s: string, rs: Redirs<Span>) {
    forall i | 0 <= i < |rs| :: IsWord(s, rs[i].0)
  }

  function RedirTexts(s: string, rs: Redirs<Span>): (ts: Redirs<string>)
    requires AreRedirs(s, rs)
  {
    seq(|rs|, i requires 0 <= i < |rs| => (Text(s, rs[i].0), rs[i].1))
  }

  predicate InLine(s: string, c: Cmd<Span>) {
    match c
    case Exec(argv) => AreWords(s, argv)
    case Redir(cmd, file, _) => InLine(s, cmd) && IsWord(s, file)
    case Pipe(l, r) => InLine(s, l) && InLine(s, r)
    case List(l, r) => InLine(s, l) && InLine(s, r)
    case Back(cmd) => InLine(s, cmd)
  }

  /** The tree with every word spelled out. */
  function Tree(s: string, c: Cmd<Span>): (t: Cmd<string>)
    requires InLine(s, c)
  {
    match c
    case Exec(argv) => Exec(Texts(s, argv))
    case Redir(cmd, file, kind) => Redir(Tree(s, cmd), Text(s, file), kind)
    case Pipe(l, r) => Pipe(Tree(s, l), Tree(s, r))
    case List(l, r) => List(Tree(s, l), Tree(s, r))
    case Back(cmd) => Back(Tree(s, cmd))
  }

  lemma {:induction false} WrapTree(s: string, c: Cmd<Span>, rs: Redirs<Span>)
    requires InLine(s, c) && AreRedirs(s, rs)
    ensures InLine(s, Wrap(c, rs)) && Tree(s, Wrap(c, rs)) == Wrap(Tree(s, c), RedirTexts(s, rs))
  {
    hide IsWord, Text;
    if rs != [] {
      WrapTree(s, c, rs[..|rs| - 1]);
      var ts := RedirTexts(s, rs);
      assert ts[..|ts| - 1] == RedirTexts(s, rs[..|rs| - 1]);
    }
  }

  // ---------- what the parsing methods still have to do ----------

  function Prepend(done: Redirs<string>, r: Option<Parsed<Redirs<string>>>): (p: Option<Parsed<Redirs<string>>>) {
    if r.None? then None else Some(Parsed(done + r.value.value, r.value.rest))
  }

  type ArgsResult = Option<Parsed<(seq<string>, Redirs<string>)>>

  function PrependArgs(ws: seq<string>, rs: Redirs<string>, r: ArgsResult): (p: ArgsResult) {
    if r.None? then None else Some(Parsed((ws + r.value.value.0, rs + r.value.value.1), r.value.rest))
  }

  /** The outcome c (None for a panic) with the cursor at ps is what the grammar says. */
  ghost predicate Agrees(s: string, ps: nat, c: Option<Cmd<Span>>, r: Result) {
    && c.Some? == r.Some?
    && (c.Some? ==> InLine(s, c.value) && ps <= |s| && s[ps..] == r.value.rest
                    && Tree(s, c.value) == r.value.value)
  }

  class Parser {
    const s: string
    var ps: nat

    constructor (s: string)
      ensures this.s == s && ps == 0
    {
      this.s := s;
      ps := 0;
    }

    /** The character under a cursor; the line ends with a NUL. */
    function At(i: nat): (c: char)
      requires i <= |s|
    {
      if i < |s| then s[i] else '\0'
    }

    method SkipSpaces(i: nat) returns (j: nat)
      requires i <= |s|
      ensures i <= j <= |s| && s[j..] == Skip(s[i..])
    {
      j := i;
      while j < |s| && IsSpace(s[j])
        invariant i <= j <= |s| && Skip(s[j..]) == Skip(s[i..])
      {
        assert s[j..][1..] == s[j + 1..];
        j := j + 1;
      }
    }

    method SkipWord(i: nat) returns (j: nat)
      requires i <= |s|
      ensures i <= j <= |s| && s[i..j] == Word(s[i..])
    {
      hide Word;
      j := i;
      assert s[i..i] + Word(s[i..]) == Word(s[i..]);
      while j < |s| && IsWordChar(s[j])
        invariant i <= j <= |s| && s[i..j] + Word(s[j..]) == Word(s[i..])
      {
        WordStep(s, i, j);
        j := j + 1;
      }
      WordEnd(s, j);
      assert s[i..j] + [] == s[i..j];
    }

    method GetToken() returns (tok: char, q: nat, eq: nat)
      requires ps <= |s| && Plain(s)
      modifies this
      ensures old(ps) <= ps <= |s| && (tok != '\0' ==> old(ps) < ps)
      ensures var t := ShellGrammar.GetToken(s[old(ps)..]);
              tok == t.tok && s[ps..] == t.rest
              && (tok == 'a' ==> IsWord(s, Span(q, eq)) && Text(s, Span(q, eq)) == t.word)
    {
      hide Skip;
      var i := SkipSpaces(ps);
      q := i;
      tok := At(i);
      ghost var u := s[i..];
      if i == |s| {
      } else if tok == '|' || tok == '(' || tok == ')' || tok == ';' || tok == '&' || tok == '<' {
        i := i + 1;
        assert s[i..] == u[1..];
      } else if tok == '>' {
        i := i + 1;
        assert s[i..] == u[1..];
        if At(i) == '>' {
          tok := '+';
          i := i + 1;
          assert s[i..] == u[2..];
        }
      } else {
        tok := 'a';
        i := SkipWord(i);
        assert s[i..] == u[|Word(u)|..];
        WordSpan(s, q, i);
      }
      eq := i;
      ps := SkipSpaces(i);
    }

    method Peek(toks: string) returns (b: bool)
      requires ps <= |s| && Plain(s)
      modifies this
      ensures old(ps) <= ps <= |s| && s[ps..] == Skip(s[old(ps)..])
      ensures b == ShellGrammar.Peek(s[old(ps)..], toks)
    {
      hide Skip;
      ps := SkipSpaces(ps);
      b := At(ps) != '\0' && At(ps) in toks;
    }

    /** Redirections, outermost last; None is the panic for a missing file name. */
    method ParseRedirs() returns (r: Option<Redirs<Span>>)
      requires ps <= |s| && Plain(s)
      modifies this
      ensures old(ps) <= ps <= |s|
      ensures var g := ShellGrammar.ParseRedirs(s[old(ps)..]);
              r.Some? == g.Some?
              && (r.Some? ==> AreRedirs(s, r.value) && g.value == Parsed(RedirTexts(s, r.value), s[ps..]))
    {
      hide Skip, ShellGrammar.GetToken, ShellGrammar.Peek, IsWord, Text;
      var rs: Redirs<Span> := [];
      ghost var all := ShellGrammar.ParseRedirs(s[ps..]);
      SpacesBeforeRedirs(s[ps..]);
      SpacesBeforeToken(s[ps..]);
      SkipTwice(s[ps..]);
      PrependNothing(all);
      assert RedirTexts(s, rs) == [];
      var more := Peek("<>");
      while more
        invariant old(ps) <= ps <= |s| && AreRedirs(s, rs) && Skip(s[ps..]) == s[ps..]
        invariant more == ShellGrammar.Peek(s[ps..], "<>")
        invariant all == Prepend(RedirTexts(s, rs), ShellGrammar.ParseRedirs(s[ps..]))
        decreases |s| - ps
      {
        ghost var t := s[ps..];
        var tok, _, _ := GetToken();
        var word, q, eq := GetToken();
        if word != 'a' {
          return None;
        }
        var w := (Span(q, eq), if tok == '<' then Input else Output);
        RedirTextsSnoc(s, rs, w);
        PrependTwice(RedirTexts(s, rs), [(Text(s, w.0), w.1)], ShellGrammar.ParseRedirs(s[ps..]));
        rs := rs + [w];
        SpacesBeforeRedirs(s[ps..]);
        SpacesBeforeToken(s[ps..]);
        SkipTwice(s[ps..]);
        more := Peek("<>");
      }
      assert RedirTexts(s, rs) + [] == RedirTexts(s, rs);
      r := Some(rs);
    }

    /** Arguments and redirections up to the end of a simple command. */
    method ParseArgs() returns (r: Option<(seq<Span>, Redirs<Span>)>)
      requires ps <= |s| && Plain(s)
      modifies this
      ensures old(ps) <= ps <= |s|
      ensures var g := ShellGrammar.ParseArgs(s[old(ps)..], 0);
              r.Some? == g.Some?
              && (r.Some? ==> AreWords(s, r.value.0) && AreRedirs(s, r.value.1)
                              && g.value == Parsed((Texts(s, r.value.0), RedirTexts(s, r.value.1)), s[ps..]))
    {
      hide Skip, ShellGrammar.GetToken, ShellGrammar.Peek, ShellGrammar.ParseRedirs, IsWord, Text;
      var args: seq<Span>, rs: Redirs<Span> := [], [];
      ghost var all := ShellGrammar.ParseArgs(s[ps..], 0);
      PrependNoArgs(all);
      assert RedirTexts(s, rs) == [] && Texts(s, args) == [];
      ArgsFromHere();
      var stop := Peek("|)&;");
      while !stop
        invariant old(ps) <= ps <= |s| && Skip(s[ps..]) == s[ps..]
        invariant AreWords(s, args) && AreRedirs(s, rs) && |args| < MAXARGS
        invariant stop == ShellGrammar.Peek(s[ps..], "|)&;")
        invariant all == PrependArgs(Texts(s, args), RedirTexts(s, rs), ShellGrammar.ParseArgs(s[ps..], |args|))
        decreases |s| - ps
      {
        assert Texts(s, args) + [] == Texts(s, args) && RedirTexts(s, rs) + [] == RedirTexts(s, rs);
        var tok, q, eq := GetToken();
        if tok == '\0' {
          return Some((args, rs));
        }
        if tok != 'a' || |args| + 1 >= MAXARGS {
          return None;
        }
        var more := ParseRedirs();
        if more.None? {
          return None;
        }
        PrependArgsTwice(s, args, rs, Span(q, eq), more.value, ShellGrammar.ParseArgs(s[ps..], |args| + 1));
        args, rs := args + [Span(q, eq)], rs + more.value;
        ArgsFromHere();
        stop := Peek("|)&;");
      }
      assert Texts(s, args) + [] == Texts(s, args) && RedirTexts(s, rs) + [] == RedirTexts(s, rs);
      r := Some((args, rs));
    }

    method ParseExec() returns (r: Option<Cmd<Span>>)
      requires ps <= |s| && Plain(s)
      modifies this
      ensures old(ps) <= ps <= |s| && Agrees(s, ps, r, ShellGrammar.ParseExec(s[old(ps)..]))
      decreases |s| - ps, 2
    {
      hide Skip, ShellGrammar.GetToken, ShellGrammar.ParseRedirs, ShellGrammar.ParseArgs, ShellGrammar.ParseBlock,
           IsWord, Wrap, Plain;
      SkipTwice(s[ps..]);
      SpacesBeforeExec(s[ps..]);
      var block := Peek("(");
      if block {
        r := ParseBlock();
        return;
      }
      var first := ParseRedirs();
      if first.None? {
        return None;
      }
      var rest := ParseArgs();
      if rest.None? {
        return None;
      }
      var rs := first.value + rest.value.1;
      assert RedirTexts(s, rs) == RedirTexts(s, first.value) + RedirTexts(s, rest.value.1);
      WrapTree(s, Exec(rest.value.0), rs);
      r := Some(Wrap(Exec(rest.value.0), rs));
    }

    method ParseBlock() returns (r: Option<Cmd<Span>>)
      requires ps <= |s| && Plain(s) && ShellGrammar.Peek(s[ps..], "(")
      modifies this
      ensures old(ps) <= ps <= |s| && Agrees(s, ps, r, ShellGrammar.ParseBlock(s[old(ps)..]))
      decreases |s| - ps, 1
    {
      hide Skip, Word, ShellGrammar.ParseRedirs, ShellGrammar.ParseLine, IsWord, Wrap, Plain, Tree, InLine, RedirTexts,
           AreRedirs;
      var tok, _, _ := GetToken();
      assert tok == '(';
      var c := ParseLine();
      if c.None? {
        return None;
      }
      SkipTwice(s[ps..]);
      SpacesBeforeToken(s[ps..]);
      var closed := Peek(")");
      if !closed {
        return None;
      }
      var _, _, _ := GetToken();
      var rs := ParseRedirs();
      if rs.None? {
        return None;
      }
      WrapTree(s, c.value, rs.value);
      r := Some(Wrap(c.value, rs.value));
    }

    method ParsePipe() returns (r: Option<Cmd<Span>>)
      requires ps <= |s| && Plain(s)
      modifies this
      ensures old(ps) <= ps <= |s| && Agrees(s, ps, r, ShellGrammar.ParsePipe(s[old(ps)..]))
      decreases |s| - ps, 3
    {
      hide Skip, Word, ShellGrammar.ParseExec, IsWord, Plain;
      var l := ParseExec();
      if l.None? {
        return None;
      }
      SkipTwice(s[ps..]);
      SpacesBeforeToken(s[ps..]);
      var more := Peek("|");
      if !more {
        return l;
      }
      var _, _, _ := GetToken();
      var p := ParsePipe();
      if p.None? {
        return None;
      }
      r := Some(Pipe(l.value, p.value));
    }

    /** The loop over `&`. */
    method ParseBacks(c: Cmd<Span>) returns (r: Cmd<Span>)
      requires ps <= |s| && Plain(s) && InLine(s, c)
      modifies this
      ensures old(ps) <= ps <= |s| && InLine(s, r) && Skip(s[ps..]) == s[ps..]
      ensures Parsed(Tree(s, r), s[ps..]) == ShellGrammar.ParseBacks(Tree(s, c), s[old(ps)..])
    {
      hide Skip, Word, IsWord, Plain, Texts;
      r := c;
      SkipTwice(s[ps..]);
      var more := Peek("&");
      assert Tree(s, Back(r)) == Back(Tree(s, r));
      while more
        invariant old(ps) <= ps <= |s| && InLine(s, r) && Skip(s[ps..]) == s[ps..]
        invariant more == ShellGrammar.Peek(s[ps..], "&")
        invariant ShellGrammar.ParseBacks(Tree(s, r), s[ps..])
                  == ShellGrammar.ParseBacks(Tree(s, c), s[old(ps)..])
        decreases |s| - ps
      {
        var _, _, _ := GetToken();
        r := Back(r);
        SkipTwice(s[ps..]);
        more := Peek("&");
      }
    }

    method ParseLine() returns (r: Option<Cmd<Span>>)
      requires ps <= |s| && Plain(s)
      modifies this
      ensures old(ps) <= ps <= |s| && Agrees(s, ps, r, ShellGrammar.ParseLine(s[old(ps)..]))
      decreases |s| - ps, 4
    {
      hide Skip, Word, ShellGrammar.ParsePipe, ShellGrammar.ParseBacks, IsWord, Plain, Texts;
      var p := ParsePipe();
      if p.None? {
        return None;
      }
      var b := ParseBacks(p.value);
      SpacesBeforeToken(s[ps..]);
      var more := Peek(";");
      if !more {
        return Some(b);
      }
      var _, _, _ := GetToken();
      var l := ParseLine();
      if l.None? {
        return None;
      }
      r := Some(List(b, l.value));
    }

    lemma {:induction false} ArgsFromHere()
      requires ps <= |s|
      ensures var t := s[ps..];
              && Skip(Skip(t)) == Skip(t)
              && ShellGrammar.Peek(Skip(t), "|)&;") == ShellGrammar.Peek(t, "|)&;")
              && forall argc: nat :: ShellGrammar.ParseArgs(Skip(t), argc) == ShellGrammar.ParseArgs(t, argc)
    {
      SkipTwice(s[ps..]);
      forall argc: nat
        ensures ShellGrammar.ParseArgs(Skip(s[ps..]), argc) == ShellGrammar.ParseArgs(s[ps..], argc)
      {
        SpacesBeforeArgs(s[ps..], argc);
      }
    }
  }

  lemma {:induction false} RedirTextsSnoc(s: string, rs: Redirs<Span>, w: (Span, Kind))
    requires AreRedirs(s, rs) && IsWord(s, w.0)
    ensures AreRedirs(s, rs + [w]) && RedirTexts(s, rs + [w]) == RedirTexts(s, rs) + [(Text(s, w.0), w.1)]
  {
  }

  lemma {:induction false} PrependNoArgs(r: ArgsResult)
    ensures PrependArgs([], [], r) == r
  {
    if r.Some? {
      assert [] + r.value.value.0 == r.value.value.0 && [] + r.value.value.1 == r.value.value.1;
    }
  }

  lemma {:induction false} PrependArgsTwice(s: string, args: seq<Span>, rs: Redirs<Span>, w: Span,
                                            more: Redirs<Span>, r: ArgsResult)
    requires AreWords(s, args) && AreRedirs(s, rs) && IsWord(s, w) && AreRedirs(s, more)
    ensures AreWords(s, args + [w]) && AreRedirs(s, rs + more)
    ensures PrependArgs(Texts(s, args), RedirTexts(s, rs), PrependArgs([Text(s, w)], RedirTexts(s, more), r))
            == PrependArgs(Texts(s, args + [w]), RedirTexts(s, rs + more), r)
  {
    hide IsWord, Text;
    assert Texts(s, args + [w]) == Texts(s, args) + [Text(s, w)];
    assert RedirTexts(s, rs + more) == RedirTexts(s, rs) + RedirTexts(s, more);
    if r.Some? {
      var (a, b) := r.value.value;
      assert Texts(s, args) + ([Text(s, w)] + a) == Texts(s, args + [w]) + a;
      assert RedirTexts(s, rs) + (RedirTexts(s, more) + b) == RedirTexts(s, rs + more) + b;
    }
  }

  lemma {:induction false} PrependNothing(r: Option<Parsed<Redirs<string>>>)
    ensures Prepend([], r) == r
  {
    if r.Some? {
      assert [] + r.value.value == r.value.value;
    }
  }

  lemma {:induction false} PrependTwice(a: Redirs<string>, b: Redirs<string>, r: Option<Parsed<Redirs<string>>>)
    ensures Prepend(a, Prepend(b, r)) == Prepend(a + b, r)
  {
    if r.Some? {
      assert a + (b + r.value.value) == a + b + r.value.value;
    }
  }

  lemma {:induction false} WordStep(s: string, i: nat, j: nat)
    requires i <= j < |s| && IsWordChar(s[j])
    ensures s[i..j] + Word(s[j..]) == s[i..j + 1] + Word(s[j + 1..])
  {
    assert s[j..][1..] == s[j + 1..];
    assert s[i..j + 1] == s[i..j] + [s[j]];
  }

  lemma {:induction false} WordEnd(s: string, j: nat)
    requires j <= |s| && (j < |s| ==> !IsWordChar(s[j]))
    ensures Word(s[j..]) == []
  {
  }

  lemma {:induction false} WordSpan(s: string, q: nat, eq: nat)
    requires q <= eq <= |s| && s[q..eq] == Word(s[q..]) && q < |s| && IsWordChar(s[q])
    ensures IsWord(s, Span(q, eq)) && Text(s, Span(q, eq)) == Word(s[q..])
  {
    var w := Word(s[q..]);
    assert w != [];
    assert forall i | q <= i < eq :: s[i] == w[i - q];
    if eq < |s| {
      assert s[q..][|w|] == s[eq];
    }
  }

  // ---------- the terminated words ----------

  /** The C string at position q. */
  function StringAt(b: string, q: nat): (t: string)
    requires q <= |b|
    ensures q + |t| <= |b| && t == b[q..q + |t|] && Plain(t)
    ensures q + |t| < |b| ==> b[q + |t|] == '\0'
    decreases |b| - q
  {
    if q < |b| && b[q] != '\0' then [b[q]] + StringAt(b, q + 1) else []
  }

  lemma {:induction false} StringAtIs(b: string, q: nat, e: nat)
    requires q <= e < |b| && b[e] == '\0' && Plain(b[q..e])
    ensures StringAt(b, q) == b[q..e]
    decreases e - q
  {
    if q < e {
      assert b[q] == b[q..e][0] && b[q + 1..e] == b[q..e][1..];
      StringAtIs(b, q + 1, e);
      assert b[q..e] == [b[q]] + b[q + 1..e];
    }
  }

  function WordEnds(ws: seq<Span>): (es: set<nat>)
    ensures forall i | 0 <= i < |ws| :: ws[i].eq in es
  {
    set i | 0 <= i < |ws| :: ws[i].eq
  }

  /** Where nulterminate writes. */
  function Ends(c: Cmd<Span>): (es: set<nat>) {
    match c
    case Exec(argv) => WordEnds(argv)
    case Redir(cmd, file, _) => Ends(cmd) + {file.eq}
    case Pipe(l, r) => Ends(l) + Ends(r)
    case List(l, r) => Ends(l) + Ends(r)
    case Back(cmd) => Ends(cmd)
  }

  /** No terminator lands inside a word: each position ends a word of the line. */
  predicate Outside(s: string, es: set<nat>) {
    forall e | e in es :: e <= |s| && (e < |s| ==> !IsWordChar(s[e]))
  }

  lemma {:induction false} EndsOutside(s: string, c: Cmd<Span>)
    requires InLine(s, c)
    ensures Outside(s, Ends(c))
  {
    match c
    case Exec(argv) =>
    case Redir(cmd, file, _) => EndsOutside(s, cmd);
    case Pipe(l, r) => EndsOutside(s, l); EndsOutside(s, r);
    case List(l, r) => EndsOutside(s, l); EndsOutside(s, r);
    case Back(cmd) => EndsOutside(s, cmd);
  }

  /** The buffer b is the line s with NULs at es and after its end. */
  predicate Terminated(s: string, es: set<nat>, b: string) {
    && |s| < |b| && b[|s|] == '\0'
    && forall i | 0 <= i < |s| :: b[i] == if i in es then '\0' else s[i]
  }

  /** Every recorded position points into a buffer of n characters. */
  predicate InBuffer(n: nat, c: Cmd<Span>) {
    match c
    case Exec(argv) => forall i | 0 <= i < |argv| :: argv[i].q < n && argv[i].eq < n
    case Redir(cmd, file, _) => InBuffer(n, cmd) && file.q < n && file.eq < n
    case Pipe(l, r) => InBuffer(n, l) && InBuffer(n, r)
    case List(l, r) => InBuffer(n, l) && InBuffer(n, r)
    case Back(cmd) => InBuffer(n, cmd)
  }

  /** The tree as a C program reads it out of the buffer: words from q to the next NUL. */
  function TreeIn(b: string, c: Cmd<Span>): (t: Cmd<string>)
    requires InBuffer(|b|, c)
  {
    match c
    case Exec(argv) => Exec(seq(|argv|, i requires 0 <= i < |argv| => StringAt(b, argv[i].q)))
    case Redir(cmd, file, kind) => Redir(TreeIn(b, cmd), StringAt(b, file.q), kind)
    case Pipe(l, r) => Pipe(TreeIn(b, l), TreeIn(b, r))
    case List(l, r) => List(TreeIn(b, l), TreeIn(b, r))
    case Back(cmd) => Back(TreeIn(b, cmd))
  }

  lemma {:induction false} LineInBuffer(s: string, c: Cmd<Span>, n: nat)
    requires InLine(s, c) && |s| < n
    ensures InBuffer(n, c)
  {
    match c
    case Exec(argv) => assert forall i | 0 <= i < |argv| :: IsWord(s, argv[i]);
    case Redir(cmd, file, _) => LineInBuffer(s, cmd, n);
    case Pipe(l, r) => LineInBuffer(s, l, n); LineInBuffer(s, r, n);
    case List(l, r) => LineInBuffer(s, l, n); LineInBuffer(s, r, n);
    case Back(cmd) => LineInBuffer(s, cmd, n);
  }

  lemma {:induction false} WordReads(s: string, es: set<nat>, b: string, w: Span)
    requires Plain(s) && IsWord(s, w) && Outside(s, es) && Terminated(s, es, b) && w.eq in es
    ensures StringAt(b, w.q) == Text(s, w)
  {
    assert b[w.q..w.eq] == s[w.q..w.eq];
    StringAtIs(b, w.q, w.eq);
  }

  /** After the terminators are in, the C strings at the recorded positions are exactly the words. */
  lemma {:induction false} TreeReads(s: string, es: set<nat>, b: string, c: Cmd<Span>)
    requires Plain(s) && InLine(s, c) && Outside(s, es) && Terminated(s, es, b) && Ends(c) <= es
    requires InBuffer(|b|, c)
    ensures TreeIn(b, c) == Tree(s, c)
  {
    hide Plain, IsWord, Text, Outside, Terminated, StringAt;
    match c
    case Exec(argv) =>
      forall i | 0 <= i < |argv|
        ensures StringAt(b, argv[i].q) == Text(s, argv[i])
      {
        WordReads(s, es, b, argv[i]);
      }
    case Redir(cmd, file, _) =>
      TreeReads(s, es, b, cmd);
      WordReads(s, es, b, file);
    case Pipe(l, r) => TreeReads(s, es, b, l); TreeReads(s, es, b, r);
    case List(l, r) => TreeReads(s, es, b, l); TreeReads(s, es, b, r);
    case Back(cmd) => TreeReads(s, es, b, cmd);
  }

  method Nulterminate(buf: array<char>, c: Cmd<Span>)
    requires InBuffer(buf.Length, c)
    modifies buf
    ensures forall i | 0 <= i < buf.Length :: buf[i] == if i in Ends(c) then '\0' else old(buf[i])
    decreases c
  {
    match c
    case Exec(argv) =>
      for i := 0 to |argv|
        invariant forall j | 0 <= j < buf.Length ::
                    buf[j] == if j in WordEnds(argv[..i]) then '\0' else old(buf[j])
      {
        assert WordEnds(argv[..i + 1]) == WordEnds(argv[..i]) + {argv[i].eq} by {
          assert argv[..i + 1] == argv[..i] + [argv[i]];
          EndsSnoc(argv[..i], argv[i]);
        }
        buf[argv[i].eq] := '\0';
      }
      assert argv[..|argv|] == argv;
    case Redir(cmd, file, _) =>
      Nulterminate(buf, cmd);
      buf[file.eq] := '\0';
    case Pipe(l, r) =>
      Nulterminate(buf, l);
      Nulterminate(buf, r);
    case List(l, r) =>
      Nulterminate(buf, l);
      Nulterminate(buf, r);
    case Back(cmd) =>
      Nulterminate(buf, cmd);
  }

  lemma {:induction false} EndsSnoc(ws: seq<Span>, w: Span)
    ensures WordEnds(ws + [w]) == WordEnds(ws) + {w.eq}
  {
    var all := ws + [w];
    assert all[|ws|] == w;
    forall i | 0 <= i < |ws|
      ensures all[i] == ws[i]
    {
    }
  }

  method Strlen(buf: array<char>) returns (n: nat)
    requires '\0' in buf[..]
    ensures n < buf.Length && buf[n] == '\0' && buf[..n] == StringAt(buf[..], 0)
  {
    n := 0;
    ghost var k :| 0 <= k < buf.Length && buf[k] == '\0';
    while buf[n] != '\0'
      invariant n <= k && Plain(buf[..n])
      decreases k - n
    {
      n := n + 1;
    }
    StringAtIs(buf[..], 0, n);
  }

  /** Parsing a NUL-terminated line. None is a syntax panic, exactly when the tokens of the line derive
      no command. Otherwise the tree read back from the overwritten buffer is the command they derive. */
  method ParseCmd(buf: array<char>) returns (r: Option<Cmd<Span>>)
    requires '\0' in buf[..]
    modifies buf
    ensures var g := ShellGrammar.ParseCmd(StringAt(old(buf[..]), 0));
            if g.None? then r.None? && buf[..] == old(buf[..])
            else r.Some? && InBuffer(buf.Length, r.value) && TreeIn(buf[..], r.value) == g.value
    ensures var ts := ShellSyntax.Tokens(StringAt(old(buf[..]), 0));
            && (r.Some? <==> exists c :: ShellSyntax.Derives(ts, c))
            && (r.Some? ==> InBuffer(buf.Length, r.value) && ShellSyntax.Derives(ts, TreeIn(buf[..], r.value)))
    ensures r.Some? ==> forall i | 0 <= i < buf.Length ::
              buf[i] == if i in Ends(r.value) then '\0' else old(buf[i])
  {
    hide Ends, InBuffer, TreeIn, Tree, InLine, Skip, ShellGrammar.ParseLine, ShellSyntax.Tokens, ShellSyntax.Derives;
    var es := Strlen(buf);
    DerivesAny(buf[..es]);
    var p := new Parser(buf[..es]);
    r := p.ParseLine();
    assert p.s[0..] == p.s;
    if r.None? {
      return;
    }
    SkipTwice(p.s[p.ps..]);
    var _ := p.Peek("");
    if p.ps != |p.s| {
      return None;
    }
    EndsOutside(p.s, r.value);
    LineInBuffer(p.s, r.value, buf.Length);
    Nulterminate(buf, r.value);
    TreeReads(p.s, Ends(r.value), buf[..], r.value);
  }

  lemma {:induction false} DerivesAny(s: string)
    ensures var (ts, g) := (ShellSyntax.Tokens(s), ShellGrammar.ParseCmd(s));
            (g.Some? <==> exists c :: ShellSyntax.Derives(ts, c)) && (g.Some? ==> ShellSyntax.Derives(ts, g.value))
  {
    hide ShellGrammar.ParseCmd, ShellSyntax.Tokens, ShellSyntax.Derives;
    forall c: Cmd<string>
      ensures ShellGrammar.ParseCmd(s) == Some(c) <==> ShellSyntax.Derives(ShellSyntax.Tokens(s), c)
    {
      ShellSyntax.ParseIff(s, c);
    }
  }
}
