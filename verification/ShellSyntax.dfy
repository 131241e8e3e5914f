/** The syntax of command lines by itself: the tokens of any text, and which token lists derive which
    command.  The parser of sh.c returns a command exactly when the tokens of the line derive it. */
module ShellSyntax {
  import opened Options
  import G = ShellGrammar
  import opened ShellGrammar
  import ShellPrinter

  // ---------- tokens ----------

  datatype Tok = Text(w: string) | Less | Greater | Twice | Bar | Amp | Semi | Open | Close

  /** Longest match: `>>` is one token, and a word goes as far as it can. */
  function Tokens(s: string): (ts: seq<Tok>)
    decreases |s|
  {
    if s == [] then []
    else if IsSpace(s[0]) then Tokens(s[1..])
    else if s[0] == '>' then
      if |s| > 1 && s[1] == '>' then [Twice] + Tokens(s[2..]) else [Greater] + Tokens(s[1..])
    else if s[0] == '<' then [Less] + Tokens(s[1..])
    else if s[0] == '|' then [Bar] + Tokens(s[1..])
    else if s[0] == '&' then [Amp] + Tokens(s[1..])
    else if s[0] == ';' then [Semi] + Tokens(s[1..])
    else if s[0] == '(' then [Open] + Tokens(s[1..])
    else if s[0] == ')' then [Close] + Tokens(s[1..])
    else [Text(Word(s))] + Tokens(s[|Word(s)|..])
  }

  // ---------- what derives what ----------

  /** Part of a simple command: an argument, or a redirection by `<`, `>` or `>>`. */
  datatype Item = Arg(w: string) | From(w: string) | To(w: string) | Onto(w: string)

  datatype Command = Simple(items: seq<Item>) | Block(body: Line, redirs: seq<Item>)

  datatype Pipeline = Single(first: Command) | Piped(first: Command, rest: Pipeline)

  /** A pipeline with as many `&` after it, and what follows a `;`. */
  datatype Line = Final(first: Pipeline, backs: nat) | Listed(first: Pipeline, backs: nat, rest: Line)

  function ItemTokens(i: Item): (ts: seq<Tok>) {
    match i
    case Arg(w) => [Text(w)]
    case From(w) => [Less, Text(w)]
    case To(w) => [Greater, Text(w)]
    case Onto(w) => [Twice, Text(w)]
  }

  function ItemsTokens(items: seq<Item>): (ts: seq<Tok>) {
    if items == [] then [] else ItemTokens(items[0]) + ItemsTokens(items[1..])
  }

  function CommandTokens(c: Command): (ts: seq<Tok>) {
    match c
    case Simple(items) => ItemsTokens(items)
    case Block(body, rs) => [Open] + LineTokens(body) + [Close] + ItemsTokens(rs)
  }

  function PipelineTokens(p: Pipeline): (ts: seq<Tok>) {
    match p
    case Single(c) => CommandTokens(c)
    case Piped(c, rest) => CommandTokens(c) + [Bar] + PipelineTokens(rest)
  }

  function Amps(n: nat): (ts: seq<Tok>) {
    if n == 0 then [] else [Amp] + Amps(n - 1)
  }

  function LineTokens(l: Line): (ts: seq<Tok>) {
    match l
    case Final(p, n) => PipelineTokens(p) + Amps(n)
    case Listed(p, n, rest) => PipelineTokens(p) + Amps(n) + [Semi] + LineTokens(rest)
  }

  /** An argument goes to the command under the redirections, a redirection around what is there. */
  function AddArg(c: Cmd<string>, w: string): (r: Cmd<string>) {
    match c
    case Exec(argv) => Exec(argv + [w])
    case Redir(cmd, file, kind) => Redir(AddArg(cmd, w), file, kind)
    case _ => c
  }

  function Add(c: Cmd<string>, i: Item): (r: Cmd<string>) {
    match i
    case Arg(w) => AddArg(c, w)
    case From(w) => Redir(c, w, Input)
    case To(w) => Redir(c, w, Output)
    case Onto(w) => Redir(c, w, Output)
  }

  /** From left to right. */
  function AddAll(c: Cmd<string>, items: seq<Item>): (r: Cmd<string>) {
    if items == [] then c else Add(AddAll(c, items[..|items| - 1]), items[|items| - 1])
  }

  function CommandTree(c: Command): (t: Cmd<string>) {
    match c
    case Simple(items) => AddAll(Exec([]), items)
    case Block(body, rs) => AddAll(LineTree(body), rs)
  }

  function PipelineTree(p: Pipeline): (t: Cmd<string>) {
    match p
    case Single(c) => CommandTree(c)
    case Piped(c, rest) => Pipe(CommandTree(c), PipelineTree(rest))
  }

  function Backs(c: Cmd<string>, n: nat): (t: Cmd<string>) {
    if n == 0 then c else Back(Backs(c, n - 1))
  }

  function LineTree(l: Line): (t: Cmd<string>) {
    match l
    case Final(p, n) => Backs(PipelineTree(p), n)
    case Listed(p, n, rest) => List(Backs(PipelineTree(p), n), LineTree(rest))
  }

  function ArgCount(items: seq<Item>): (n: nat) {
    if items == [] then 0 else (if items[0].Arg? then 1 else 0) + ArgCount(items[1..])
  }

  predicate AllRedirs(rs: seq<Item>) {
    forall i | 0 <= i < |rs| :: !rs[i].Arg?
  }

  /** At most nine arguments, and nothing but redirections after a closing parenthesis. */
  predicate CommandOK(c: Command) {
    match c
    case Simple(items) => ArgCount(items) < MAXARGS
    case Block(body, rs) => LineOK(body) && AllRedirs(rs)
  }

  predicate PipelineOK(p: Pipeline) {
    match p
    case Single(c) => CommandOK(c)
    case Piped(c, rest) => CommandOK(c) && PipelineOK(rest)
  }

  predicate LineOK(l: Line) {
    match l
    case Final(p, _) => PipelineOK(p)
    case Listed(p, _, rest) => PipelineOK(p) && LineOK(rest)
  }

  /** The tokens derive the command. */
  ghost predicate Derives(ts: seq<Tok>, c: Cmd<string>) {
    exists l :: LineOK(l) && LineTokens(l) == ts && LineTree(l) == c
  }

  // ---------- the tokenizer finds these tokens ----------

  function Code(t: Tok): (c: char) {
    match t
    case Text(_) => 'a'
    case Less => '<'
    case Greater => '>'
    case Twice => '+'
    case Bar => '|'
    case Amp => '&'
    case Semi => ';'
    case Open => '('
    case Close => ')'
  }

  /** A token of the kinds peek asks for. */
  predicate Among(ts: seq<Tok>, kinds: set<Tok>) {
    ts != [] && ts[0] in kinds
  }

  lemma {:induction false} TokensSkip(s: string)
    ensures Tokens(Skip(s)) == Tokens(s)
  {
    hide Word;
    if s != [] && IsSpace(s[0]) {
      TokensSkip(s[1..]);
    }
  }

  /** gettoken takes the first token and leaves the others. */
  lemma {:induction false} TokenFirst(s: string)
    ensures Skip(s) == [] <==> Tokens(s) == []
    ensures Tokens(s) == [] ==> G.GetToken(s).tok == '\0' && G.GetToken(s).rest == []
    ensures Tokens(s) != [] ==>
              var t := G.GetToken(s);
              && t.tok == Code(Tokens(s)[0]) && Tokens(t.rest) == Tokens(s)[1..] && Skip(t.rest) == t.rest
              && (Tokens(s)[0].Text? ==> t.word == Tokens(s)[0].w)
  {
    var u := Skip(s);
    TokensSkip(s);
    if u != [] {
      TokensSkip(u[1..]);
      ShellPrinter.SkipTwice(u[1..]);
      if |u| > 1 {
        TokensSkip(u[2..]);
        ShellPrinter.SkipTwice(u[2..]);
      }
      TokensSkip(u[|Word(u)|..]);
      ShellPrinter.SkipTwice(u[|Word(u)|..]);
    }
  }

  /** peek asks about the first token. */
  lemma {:induction false} PeekFirst(s: string)
    ensures G.Peek(s, "<>") <==> Among(Tokens(s), {Less, Greater, Twice})
    ensures G.Peek(s, "|)&;") <==> Among(Tokens(s), {Bar, Close, Amp, Semi})
    ensures G.Peek(s, "(") <==> Among(Tokens(s), {Open})
    ensures G.Peek(s, ")") <==> Among(Tokens(s), {Close})
    ensures G.Peek(s, "|") <==> Among(Tokens(s), {Bar})
    ensures G.Peek(s, "&") <==> Among(Tokens(s), {Amp})
    ensures G.Peek(s, ";") <==> Among(Tokens(s), {Semi})
  {
    hide Word;
    TokensSkip(s);
    var u := Skip(s);
    if u != [] {
      LeadKind(u);
    }
  }

  lemma {:induction false} LeadKind(u: string)
    requires u != [] && !IsSpace(u[0])
    ensures Tokens(u) != []
    ensures var t := Tokens(u)[0];
            && (u[0] == '<' <==> t == Less) && (u[0] == '>' <==> t == Greater || t == Twice)
            && (u[0] == '|' <==> t == Bar) && (u[0] == '&' <==> t == Amp) && (u[0] == ';' <==> t == Semi)
            && (u[0] == '(' <==> t == Open) && (u[0] == ')' <==> t == Close)
  {
    hide Word;
  }

  // ---------- items ----------

  function ArgsOf(items: seq<Item>): (ws: seq<string>)
    ensures |ws| == ArgCount(items)
  {
    if items == [] then [] else (if items[0].Arg? then [items[0].w] else []) + ArgsOf(items[1..])
  }

  function PairOf(i: Item): (r: (string, Kind)) {
    (i.w, if i.From? then Input else Output)
  }

  function PairsOf(items: seq<Item>): (rs: Redirs<string>) {
    if items == [] then [] else (if items[0].Arg? then [] else [PairOf(items[0])]) + PairsOf(items[1..])
  }

  lemma {:induction false} TokensJoin(a: seq<Item>, b: seq<Item>)
    ensures ItemsTokens(a + b) == ItemsTokens(a) + ItemsTokens(b)
  {
    hide ItemTokens;
    if a == [] {
      assert a + b == b;
    } else {
      TokensJoin(a[1..], b);
      assert (a + b)[1..] == a[1..] + b;
    }
  }

  lemma {:induction false} ArgsJoin(a: seq<Item>, b: seq<Item>)
    ensures ArgsOf(a + b) == ArgsOf(a) + ArgsOf(b) && ArgCount(a + b) == ArgCount(a) + ArgCount(b)
  {
    if a == [] {
      assert a + b == b;
    } else {
      ArgsJoin(a[1..], b);
      assert (a + b)[1..] == a[1..] + b;
      Assoc(if a[0].Arg? then [a[0].w] else [], ArgsOf(a[1..]), ArgsOf(b));
    }
  }

  lemma {:induction false} PairsJoin(a: seq<Item>, b: seq<Item>)
    ensures PairsOf(a + b) == PairsOf(a) + PairsOf(b)
  {
    hide PairOf;
    if a == [] {
      assert a + b == b;
    } else {
      PairsJoin(a[1..], b);
      assert (a + b)[1..] == a[1..] + b;
      Assoc(if a[0].Arg? then [] else [PairOf(a[0])], PairsOf(a[1..]), PairsOf(b));
    }
  }

  lemma {:induction false} Assoc<T>(a: seq<T>, b: seq<T>, c: seq<T>)
    ensures a + b + c == a + (b + c)
  {
  }

  lemma {:induction false} ItemsJoin(a: seq<Item>, b: seq<Item>)
    ensures ArgsOf(a + b) == ArgsOf(a) + ArgsOf(b) && PairsOf(a + b) == PairsOf(a) + PairsOf(b)
    ensures ArgCount(a + b) == ArgCount(a) + ArgCount(b)
  {
    ArgsJoin(a, b);
    PairsJoin(a, b);
  }

  lemma {:induction false} RedirsOnly(rs: seq<Item>)
    requires AllRedirs(rs)
    ensures ArgsOf(rs) == [] && ArgCount(rs) == 0
  {
    if rs != [] {
      RedirsOnly(rs[1..]);
    }
  }

  lemma {:induction false} WrapSnoc<W>(c: Cmd<W>, rs: Redirs<W>, r: (W, Kind))
    ensures Wrap(c, rs + [r]) == Redir(Wrap(c, rs), r.0, r.1)
  {
    assert (rs + [r])[..|rs|] == rs;
  }

  lemma {:induction false} WrapArg(argv: seq<string>, rs: Redirs<string>, w: string)
    ensures AddArg(Wrap(Exec(argv), rs), w) == Wrap(Exec(argv + [w]), rs)
  {
    if rs != [] {
      WrapArg(argv, rs[..|rs| - 1], w);
    }
  }

  /** What the parser does with the arguments and the redirections of a command is what adding them one
      by one does. */
  lemma {:induction false} AddAllSimple(items: seq<Item>)
    ensures AddAll(Exec([]), items) == Wrap(Exec(ArgsOf(items)), PairsOf(items))
  {
    if items != [] {
      var n := |items| - 1;
      var init, last := items[..n], items[n];
      AddAllSimple(init);
      ItemsJoin(init, [last]);
      assert items == init + [last] && [last][1..] == [];
      if last.Arg? {
        WrapArg(ArgsOf(init), PairsOf(init), last.w);
        assert PairsOf(items) == PairsOf(init) && ArgsOf(items) == ArgsOf(init) + [last.w];
      } else {
        WrapSnoc(Exec(ArgsOf(init)), PairsOf(init), PairOf(last));
        assert PairsOf(items) == PairsOf(init) + [PairOf(last)] && ArgsOf(items) == ArgsOf(init);
      }
    }
  }

  lemma {:induction false} AddAllRedirs(c: Cmd<string>, rs: seq<Item>)
    requires AllRedirs(rs)
    ensures AddAll(c, rs) == Wrap(c, PairsOf(rs))
  {
    if rs != [] {
      var n := |rs| - 1;
      var init, last := rs[..n], rs[n];
      AddAllRedirs(c, init);
      ItemsJoin(init, [last]);
      assert rs == init + [last] && [last][1..] == [];
      WrapSnoc(c, PairsOf(init), PairOf(last));
      assert PairsOf(rs) == PairsOf(init) + [PairOf(last)];
    }
  }

  /** Items are some redirections and what begins with an argument. */
  ghost predicate Parts(items: seq<Item>, rs: seq<Item>, tail: seq<Item>) {
    && AllRedirs(rs) && (tail == [] || tail[0].Arg?) && |tail| <= |items|
    && ItemsTokens(items) == ItemsTokens(rs) + ItemsTokens(tail)
    && ArgsOf(items) == ArgsOf(tail) && PairsOf(items) == PairsOf(rs) + PairsOf(tail)
    && ArgCount(items) == ArgCount(tail)
  }

  lemma {:induction false} Joined(rs: seq<Item>, tail: seq<Item>)
    requires AllRedirs(rs) && (tail == [] || tail[0].Arg?)
    ensures Parts(rs + tail, rs, tail)
  {
    hide ItemsTokens, ArgsOf, PairsOf, ArgCount;
    TokensJoin(rs, tail);
    ItemsJoin(rs, tail);
    RedirsOnly(rs);
    assert [] + ArgsOf(tail) == ArgsOf(tail);
  }

  lemma {:induction false} Parted(items: seq<Item>) returns (rs: seq<Item>, tail: seq<Item>)
    ensures Parts(items, rs, tail)
  {
    hide Parts;
    var n := Lead(items);
    rs, tail := items[..n], items[n..];
    assert items == rs + tail;
    Joined(rs, tail);
  }

  /** The redirections in front of the first argument. */
  function Lead(items: seq<Item>): (n: nat)
    ensures n <= |items| && (forall i | 0 <= i < n :: !items[i].Arg?) && (n < |items| ==> items[n].Arg?)
  {
    if items == [] || items[0].Arg? then 0 else Lead(items[1..]) + 1
  }

  lemma {:induction false} ArgFirst(w: string, rest: seq<Item>)
    ensures var items := [Arg(w)] + rest;
            && ItemsTokens(items) == [Text(w)] + ItemsTokens(rest) && ArgsOf(items) == [w] + ArgsOf(rest)
            && PairsOf(items) == PairsOf(rest) && ArgCount(items) == 1 + ArgCount(rest)
  {
    var items := [Arg(w)] + rest;
    assert items[1..] == rest;
    assert [] + PairsOf(rest) == PairsOf(rest);
  }

  // ---------- what is derived is parsed ----------

  predicate NoSign(k: seq<Tok>) {
    !Among(k, {Less, Greater, Twice})
  }

  predicate EndsCommand(k: seq<Tok>) {
    k == [] || k[0] in {Bar, Close, Amp, Semi}
  }

  predicate EndsPipeline(k: seq<Tok>) {
    k == [] || k[0] in {Close, Amp, Semi}
  }

  predicate EndsLine(k: seq<Tok>) {
    k == [] || k[0] == Close
  }

  /** The parser took everything but the tokens k. */
  predicate Yields<T(==)>(r: Option<Parsed<T>>, t: T, k: seq<Tok>) {
    r.Some? && r.value.value == t && Tokens(r.value.rest) == k
  }

  lemma {:induction false} RedirsDerived(rs: seq<Item>, s: string, k: seq<Tok>)
    requires AllRedirs(rs) && Tokens(s) == ItemsTokens(rs) + k && NoSign(k)
    ensures Yields(G.ParseRedirs(s), PairsOf(rs), k)
    decreases |rs|
  {
    hide Tokens, Skip, G.GetToken, G.Peek;
    PeekFirst(s);
    TokensSkip(s);
    if rs == [] {
      assert ItemsTokens(rs) + k == k;
    } else {
      var more := ItemsTokens(rs[1..]) + k;
      assert Tokens(s) == ItemTokens(rs[0]) + more;
      TokenFirst(s);
      var t := G.GetToken(s);
      assert Tokens(t.rest) == [Text(rs[0].w)] + more;
      TokenFirst(t.rest);
      var f := G.GetToken(t.rest);
      assert Tokens(f.rest) == more;
      RedirsDerived(rs[1..], f.rest, k);
    }
  }

  /** One round of the loop over arguments. */
  lemma {:induction false} ArgRound(s: string, argc: nat, t: Token, p: Parsed<Redirs<string>>,
                                    q: Parsed<(seq<string>, Redirs<string>)>)
    requires t == G.GetToken(s) && t.tok == 'a' && !G.Peek(s, "|)&;") && argc + 1 < MAXARGS
    requires G.ParseRedirs(t.rest) == Some(p) && G.ParseArgs(p.rest, argc + 1) == Some(q)
    ensures G.ParseArgs(s, argc) == Some(Parsed(([t.word] + q.value.0, p.value + q.value.1), q.rest))
  {
    hide Skip, G.GetToken, G.Peek, G.ParseRedirs;
  }

  /** The tokens of a word, redirections and the rest. */
  lemma {:induction false} ArgTokens(w: string, items: seq<Item>, rs: seq<Item>, tail: seq<Item>, k: seq<Tok>)
    requires items == [Arg(w)] + (rs + tail)
    ensures ItemsTokens(items) + k == [Text(w)] + (ItemsTokens(rs) + (ItemsTokens(tail) + k))
  {
    hide ItemsTokens;
    ArgFirst(w, rs + tail);
    TokensJoin(rs, tail);
    Assoc(ItemsTokens(rs), ItemsTokens(tail), k);
    Assoc([Text(w)], ItemsTokens(rs) + ItemsTokens(tail), k);
  }

  /** And what it is worth. */
  lemma {:induction false} ArgValue(w: string, items: seq<Item>, rs: seq<Item>, tail: seq<Item>)
    requires items == [Arg(w)] + (rs + tail) && AllRedirs(rs)
    ensures ArgsOf(items) == [w] + ArgsOf(tail) && PairsOf(items) == PairsOf(rs) + PairsOf(tail)
    ensures ArgCount(items) == 1 + ArgCount(tail)
  {
    hide ArgsOf, PairsOf, ArgCount, ItemsTokens;
    ArgFirst(w, rs + tail);
    ItemsJoin(rs, tail);
    RedirsOnly(rs);
    assert [] + ArgsOf(tail) == ArgsOf(tail);
  }

  lemma {:induction false} ArgsDerived(items: seq<Item>, s: string, k: seq<Tok>, argc: nat)
    requires Tokens(s) == ItemsTokens(items) + k && EndsCommand(k) && (items == [] || items[0].Arg?)
    requires argc + ArgCount(items) < MAXARGS
    ensures Yields(G.ParseArgs(s, argc), (ArgsOf(items), PairsOf(items)), k)
    decreases |items|
  {
    hide Tokens, Skip, G.GetToken, G.Peek, G.ParseRedirs, G.ParseArgs, ItemsTokens, ArgsOf, PairsOf, ArgCount;
    if items == [] {
      NoItems();
      assert [] + k == k;
      NoArgsDerived(s, argc);
    } else {
      var w, n := items[0].w, Lead(items[1..]);
      var rs, tail := items[1..][..n], items[1..][n..];
      assert items == [Arg(w)] + (rs + tail);
      ArgTokens(w, items, rs, tail, k);
      ArgValue(w, items, rs, tail);
      var t, k' := G.GetToken(s), ItemsTokens(tail) + k;
      PeekFirst(s);
      TokenFirst(s);
      TailNoSign(tail, k);
      RedirsDerived(rs, t.rest, k');
      var p := G.ParseRedirs(t.rest).value;
      ArgsDerived(tail, p.rest, k, argc + 1);
      ArgRound(s, argc, t, p, G.ParseArgs(p.rest, argc + 1).value);
    }
  }

  lemma {:induction false} NoItems()
    ensures ItemsTokens([]) == [] && ArgsOf([]) == [] && PairsOf([]) == [] && ArgCount([]) == 0
  {
  }

  lemma {:induction false} TailNoSign(tail: seq<Item>, k: seq<Tok>)
    requires (tail == [] || tail[0].Arg?) && EndsCommand(k)
    ensures NoSign(ItemsTokens(tail) + k)
  {
    if tail == [] {
      assert ItemsTokens(tail) + k == k;
    }
  }

  lemma {:induction false} NoArgsDerived(s: string, argc: nat)
    requires EndsCommand(Tokens(s))
    ensures Yields(G.ParseArgs(s, argc), ([], []), Tokens(s))
  {
    hide Tokens, Skip, G.GetToken, G.Peek, G.ParseRedirs;
    PeekFirst(s);
    TokensSkip(s);
    TokenFirst(s);
    NoTokens();
  }

  lemma {:induction false} NoTokens()
    ensures Tokens([]) == []
  {
  }

  /** A simple command without a parenthesis. */
  lemma {:induction false} ExecRound(s: string, p: Parsed<Redirs<string>>, q: Parsed<(seq<string>, Redirs<string>)>)
    requires !G.Peek(s, "(") && G.ParseRedirs(s) == Some(p) && G.ParseArgs(p.rest, 0) == Some(q)
    ensures G.ParseExec(s) == Some(Parsed(Wrap(Exec(q.value.0), p.value + q.value.1), q.rest))
  {
    hide G.Peek, G.ParseRedirs, G.ParseArgs, Wrap;
  }

  lemma {:induction false} SimpleDerived(items: seq<Item>, s: string, k: seq<Tok>)
    requires ArgCount(items) < MAXARGS && Tokens(s) == ItemsTokens(items) + k && EndsCommand(k)
    ensures Yields(G.ParseExec(s), CommandTree(Simple(items)), k)
  {
    hide Tokens, Skip, G.GetToken, G.Peek, G.ParseRedirs, G.ParseArgs, G.ParseExec, Wrap, AddAll, ItemsTokens, ArgsOf,
         PairsOf, ArgCount;
    PeekFirst(s);
    NotOpen(items, k);
    var rs, tail := Parted(items);
    var k' := ItemsTokens(tail) + k;
    assert Tokens(s) == ItemsTokens(rs) + k';
    TailNoSign(tail, k);
    RedirsDerived(rs, s, k');
    var p := G.ParseRedirs(s).value;
    ArgsDerived(tail, p.rest, k, 0);
    ExecRound(s, p, G.ParseArgs(p.rest, 0).value);
    AddAllSimple(items);
  }

  lemma {:induction false} NotOpen(items: seq<Item>, k: seq<Tok>)
    requires EndsCommand(k)
    ensures !Among(ItemsTokens(items) + k, {Open})
  {
    if items == [] {
      assert ItemsTokens(items) + k == k;
    }
  }

  lemma {:induction false} CommandDerived(c: Command, s: string, k: seq<Tok>)
    requires CommandOK(c) && Tokens(s) == CommandTokens(c) + k && EndsCommand(k)
    ensures Yields(G.ParseExec(s), CommandTree(c), k)
    decreases c
  {
    hide Tokens, Skip, G.GetToken, G.Peek, G.ParseRedirs, G.ParseExec, Wrap, AddAll, G.ParseLine, LineTokens, LineTree,
         ItemsTokens, PairsOf, LineOK;
    if c.Simple? {
      SimpleDerived(c.items, s, k);
    } else {
      var k' := [Close] + (ItemsTokens(c.redirs) + k);
      BlockTokens(c, k);
      PeekFirst(s);
      TokenFirst(s);
      var inner := G.GetToken(s).rest;
      LineDerived(c.body, inner, k');
      var l := G.ParseLine(inner).value;
      PeekFirst(l.rest);
      TokenFirst(l.rest);
      RedirsDerived(c.redirs, G.GetToken(l.rest).rest, k);
      AddAllRedirs(l.value, c.redirs);
      BlockRound(s, l, G.ParseRedirs(G.GetToken(l.rest).rest).value);
    }
  }

  lemma {:induction false} BlockTokens(c: Command, k: seq<Tok>)
    requires c.Block?
    ensures CommandTokens(c) + k == [Open] + (LineTokens(c.body) + ([Close] + (ItemsTokens(c.redirs) + k)))
  {
    hide LineTokens, ItemsTokens;
    var l, r := LineTokens(c.body), ItemsTokens(c.redirs);
    Assoc([Open] + l + [Close], r, k);
    Assoc([Open] + l, [Close], r + k);
    Assoc([Open], l, [Close] + (r + k));
  }

  lemma {:induction false} BlockRound(s: string, l: Parsed<Cmd<string>>, p: Parsed<Redirs<string>>)
    requires G.Peek(s, "(") && G.ParseLine(G.GetToken(s).rest) == Some(l) && G.Peek(l.rest, ")")
    requires G.ParseRedirs(G.GetToken(l.rest).rest) == Some(p)
    ensures G.ParseExec(s) == Some(Parsed(Wrap(l.value, p.value), p.rest))
  {
    hide G.Peek, G.ParseRedirs, G.ParseLine, Wrap, G.GetToken;
    assert G.ParseExec(s) == G.ParseBlock(s);
  }

  lemma {:induction false} PipelineDerived(p: Pipeline, s: string, k: seq<Tok>)
    requires PipelineOK(p) && Tokens(s) == PipelineTokens(p) + k && EndsPipeline(k)
    ensures Yields(G.ParsePipe(s), PipelineTree(p), k)
    decreases p
  {
    hide Tokens, Skip, G.GetToken, G.Peek, G.ParseExec, CommandTokens, CommandTree, CommandOK;
    if p.Single? {
      CommandDerived(p.first, s, k);
      PeekFirst(G.ParseExec(s).value.rest);
      TokensSkip(G.ParseExec(s).value.rest);
    } else {
      var k' := [Bar] + (PipelineTokens(p.rest) + k);
      assert Tokens(s) == CommandTokens(p.first) + k';
      CommandDerived(p.first, s, k');
      var l := G.ParseExec(s).value;
      PeekFirst(l.rest);
      TokenFirst(l.rest);
      PipelineDerived(p.rest, G.GetToken(l.rest).rest, k);
    }
  }

  lemma {:induction false} BacksShift(c: Cmd<string>, n: nat)
    ensures Backs(Back(c), n) == Backs(c, n + 1)
  {
    if n > 0 {
      BacksShift(c, n - 1);
    }
  }

  lemma {:induction false} BacksDerived(c: Cmd<string>, n: nat, s: string, k: seq<Tok>)
    requires Tokens(s) == Amps(n) + k && !Among(k, {Amp})
    ensures var r := G.ParseBacks(c, s); r.value == Backs(c, n) && Tokens(r.rest) == k
    decreases n
  {
    hide Tokens, Skip, G.GetToken, G.Peek;
    PeekFirst(s);
    TokensSkip(s);
    if n == 0 {
      assert Amps(0) + k == k;
    } else {
      assert Tokens(s) == [Amp] + (Amps(n - 1) + k);
      TokenFirst(s);
      BacksDerived(Back(c), n - 1, G.GetToken(s).rest, k);
      BacksShift(c, n - 1);
    }
  }

  lemma {:induction false} AmpsEnd(n: nat, k: seq<Tok>)
    requires k == [] || k[0] in {Close, Semi}
    ensures EndsPipeline(Amps(n) + k) && !Among(k, {Amp})
  {
    if n == 0 {
      assert Amps(0) + k == k;
    }
  }

  lemma {:induction false} LineDerived(l: Line, s: string, k: seq<Tok>)
    requires LineOK(l) && Tokens(s) == LineTokens(l) + k && EndsLine(k)
    ensures Yields(G.ParseLine(s), LineTree(l), k)
    decreases l
  {
    hide Tokens, Skip, G.GetToken, G.Peek, G.ParsePipe, G.ParseBacks, PipelineTokens, PipelineTree, PipelineOK, Backs, Amps;
    var k' := if l.Final? then k else [Semi] + (LineTokens(l.rest) + k);
    assert Tokens(s) == PipelineTokens(l.first) + (Amps(l.backs) + k');
    AmpsEnd(l.backs, k');
    PipelineDerived(l.first, s, Amps(l.backs) + k');
    var p := G.ParsePipe(s).value;
    BacksDerived(p.value, l.backs, p.rest, k');
    var b := G.ParseBacks(p.value, p.rest);
    PeekFirst(b.rest);
    TokensSkip(b.rest);
    TokenFirst(b.rest);
    if l.Listed? {
      LineDerived(l.rest, G.GetToken(b.rest).rest, k);
    }
  }

  // ---------- what is parsed is derived ----------

  lemma {:induction false} CodeIs(t: Tok)
    ensures Code(t) == 'a' <==> t.Text?
    ensures Code(t) != '\0'
  {
  }

  lemma {:induction false} RedirsSound(s: string) returns (rs: seq<Item>)
    requires G.ParseRedirs(s).Some?
    ensures var p := G.ParseRedirs(s).value;
            AllRedirs(rs) && PairsOf(rs) == p.value && Tokens(s) == ItemsTokens(rs) + Tokens(p.rest)
    decreases |s|
  {
    hide Tokens, Skip, G.GetToken, G.Peek, ItemsTokens, PairsOf, RedirBy;
    PeekFirst(s);
    TokensSkip(s);
    if !G.Peek(s, "<>") {
      rs := [];
      NoItems();
      assert [] + Tokens(s) == Tokens(s);
    } else {
      TokenFirst(s);
      var t := G.GetToken(s);
      TokenFirst(t.rest);
      var f := G.GetToken(t.rest);
      CodeIs(if Tokens(t.rest) != [] then Tokens(t.rest)[0] else Less);
      var rest := RedirsSound(f.rest);
      rs := [RedirBy(Tokens(s)[0], f.word)] + rest;
      RedirFirst(Tokens(s)[0], f.word, rest, Tokens(G.ParseRedirs(s).value.rest));
      assert Tokens(s) == [Tokens(s)[0]] + ([Text(f.word)] + Tokens(f.rest));
    }
  }

  function RedirBy(sign: Tok, w: string): (i: Item) {
    if sign == Less then From(w) else if sign == Greater then To(w) else Onto(w)
  }

  lemma {:induction false} RedirFirst(sign: Tok, w: string, rest: seq<Item>, k: seq<Tok>)
    requires sign in {Less, Greater, Twice} && AllRedirs(rest)
    ensures var rs := [RedirBy(sign, w)] + rest;
            && AllRedirs(rs) && PairsOf(rs) == [(w, if sign == Less then Input else Output)] + PairsOf(rest)
            && ItemsTokens(rs) + k == [sign] + ([Text(w)] + (ItemsTokens(rest) + k))
  {
    var rs := [RedirBy(sign, w)] + rest;
    assert rs[1..] == rest;
    Assoc([sign, Text(w)], ItemsTokens(rest), k);
    Assoc([sign], [Text(w)], ItemsTokens(rest) + k);
  }

  lemma {:induction false} ArgsSound(s: string, argc: nat) returns (items: seq<Item>)
    requires G.ParseArgs(s, argc).Some?
    ensures var p := G.ParseArgs(s, argc).value;
            (ArgsOf(items), PairsOf(items)) == p.value && Tokens(s) == ItemsTokens(items) + Tokens(p.rest)
    ensures (items == [] || items[0].Arg?) && (argc < MAXARGS ==> argc + ArgCount(items) < MAXARGS)
    decreases |s|
  {
    hide Tokens, Skip, G.GetToken, G.Peek, G.ParseRedirs, G.ParseArgs, ItemsTokens, ArgsOf, PairsOf, ArgCount;
    ArgsCases(s, argc);
    var t := G.GetToken(s);
    if G.Peek(s, "|)&;") || t.tok == '\0' {
      items := [];
      NoItems();
      assert [] + Tokens(s) == Tokens(s);
    } else {
      TokenFirst(s);
      CodeIs(if Tokens(s) != [] then Tokens(s)[0] else Less);
      var rs := RedirsSound(t.rest);
      var p := G.ParseRedirs(t.rest).value;
      var tail := ArgsSound(p.rest, argc + 1);
      var q := G.ParseArgs(p.rest, argc + 1).value;
      ArgRound(s, argc, t, p, q);
      items := [Arg(t.word)] + (rs + tail);
      ArgTokens(t.word, items, rs, tail, Tokens(q.rest));
      ArgValue(t.word, items, rs, tail);
    }
  }

  lemma {:induction false} ArgsCases(s: string, argc: nat)
    requires G.ParseArgs(s, argc).Some?
    ensures var t := G.GetToken(s);
            if G.Peek(s, "|)&;") || t.tok == '\0' then
              G.ParseArgs(s, argc).value.value == ([], []) && Tokens(G.ParseArgs(s, argc).value.rest) == Tokens(s)
            else
              t.tok == 'a' && argc + 1 < MAXARGS && |t.rest| < |s| && G.ParseRedirs(t.rest).Some?
              && |G.ParseRedirs(t.rest).value.rest| < |s|
              && G.ParseArgs(G.ParseRedirs(t.rest).value.rest, argc + 1).Some?
  {
    hide Tokens, Skip, G.GetToken, G.Peek, G.ParseRedirs;
    TokensSkip(s);
    TokenFirst(s);
    NoTokens();
    CodeIs(if Tokens(s) != [] then Tokens(s)[0] else Less);
  }

  /** A command that the parser took from s. */
  predicate TookCommand(s: string, r: Result, c: Command) {
    r.Some? && CommandOK(c) && CommandTree(c) == r.value.value && Tokens(s) == CommandTokens(c) + Tokens(r.value.rest)
  }

  predicate TookPipeline(s: string, r: Result, p: Pipeline) {
    r.Some? && PipelineOK(p) && PipelineTree(p) == r.value.value && Tokens(s) == PipelineTokens(p) + Tokens(r.value.rest)
  }

  predicate TookLine(s: string, r: Result, l: Line) {
    r.Some? && LineOK(l) && LineTree(l) == r.value.value && Tokens(s) == LineTokens(l) + Tokens(r.value.rest)
  }

  lemma {:induction false} ExecParts(s: string)
    requires G.ParseExec(s).Some? && !G.Peek(s, "(")
    ensures G.ParseRedirs(s).Some? && G.ParseArgs(G.ParseRedirs(s).value.rest, 0).Some?
  {
    hide G.Peek, G.ParseRedirs, G.ParseArgs;
  }

  lemma {:induction false} SimpleSound(s: string) returns (c: Command)
    requires G.ParseExec(s).Some? && !G.Peek(s, "(")
    ensures TookCommand(s, G.ParseExec(s), c)
  {
    hide Tokens, Skip, G.GetToken, G.Peek, G.ParseRedirs, G.ParseArgs, G.ParseExec, Wrap, AddAll, ItemsTokens, ArgsOf,
         PairsOf, ArgCount;
    ExecParts(s);
    var rs := RedirsSound(s);
    var p := G.ParseRedirs(s).value;
    var tail := ArgsSound(p.rest, 0);
    var q := G.ParseArgs(p.rest, 0).value;
    ExecRound(s, p, q);
    var items := rs + tail;
    Joined(rs, tail);
    AddAllSimple(items);
    c := Simple(items);
    Assoc(ItemsTokens(rs), ItemsTokens(tail), Tokens(q.rest));
  }

  lemma {:induction false} CommandSound(s: string) returns (c: Command)
    requires G.ParseExec(s).Some?
    ensures TookCommand(s, G.ParseExec(s), c)
    decreases |s|, 2
  {
    hide Tokens, Skip, G.GetToken, G.Peek, G.ParseRedirs, G.ParseArgs, Wrap, AddAll, G.ParseLine, LineTokens, LineTree,
         ItemsTokens, LineOK, PairsOf;
    if !G.Peek(s, "(") {
      c := SimpleSound(s);
    } else {
      assert G.ParseExec(s) == G.ParseBlock(s);
      PeekFirst(s);
      TokenFirst(s);
      var inner := G.GetToken(s).rest;
      OpenShortens(s);
      var body := LineSound(inner);
      var l := G.ParseLine(inner).value;
      PeekFirst(l.rest);
      TokenFirst(l.rest);
      var after := G.GetToken(l.rest).rest;
      var rs := RedirsSound(after);
      AddAllRedirs(l.value, rs);
      c := Block(body, rs);
      BlockTokens(c, Tokens(G.ParseRedirs(after).value.rest));
    }
  }

  lemma {:induction false} OpenShortens(s: string)
    requires Tokens(s) != []
    ensures |G.GetToken(s).rest| < |s|
  {
    TokenFirst(s);
    CodeIs(Tokens(s)[0]);
  }

  lemma {:induction false} PipelineSound(s: string) returns (p: Pipeline)
    requires G.ParsePipe(s).Some?
    ensures TookPipeline(s, G.ParsePipe(s), p)
    decreases |s|, 3
  {
    hide Tokens, Skip, G.GetToken, G.Peek, G.ParseExec, CommandTokens, CommandTree, CommandOK;
    var c := CommandSound(s);
    var l := G.ParseExec(s).value;
    PeekFirst(l.rest);
    TokensSkip(l.rest);
    if !G.Peek(l.rest, "|") {
      p := Single(c);
    } else {
      TokenFirst(l.rest);
      OpenShortens(l.rest);
      var rest := PipelineSound(G.GetToken(l.rest).rest);
      p := Piped(c, rest);
      var r := G.ParsePipe(s).value.rest;
      assert Tokens(s) == CommandTokens(c) + ([Bar] + (PipelineTokens(rest) + Tokens(r)));
    }
  }

  lemma {:induction false} BacksSound(c: Cmd<string>, s: string) returns (n: nat)
    ensures var r := G.ParseBacks(c, s); r.value == Backs(c, n) && Tokens(s) == Amps(n) + Tokens(r.rest)
    decreases |s|
  {
    hide Tokens, Skip, G.GetToken, G.Peek;
    PeekFirst(s);
    TokensSkip(s);
    if !G.Peek(s, "&") {
      n := 0;
      assert Amps(0) + Tokens(s) == Tokens(s);
    } else {
      TokenFirst(s);
      OpenShortens(s);
      var m := BacksSound(Back(c), G.GetToken(s).rest);
      BacksShift(c, m);
      n := m + 1;
    }
  }

  lemma {:induction false} LineSound(s: string) returns (l: Line)
    requires G.ParseLine(s).Some?
    ensures TookLine(s, G.ParseLine(s), l)
    decreases |s|, 4
  {
    hide Tokens, Skip, G.GetToken, G.Peek, G.ParsePipe, G.ParseBacks, PipelineTokens, PipelineTree, PipelineOK, Backs, Amps;
    var first := PipelineSound(s);
    var p := G.ParsePipe(s).value;
    var n := BacksSound(p.value, p.rest);
    var b := G.ParseBacks(p.value, p.rest);
    PeekFirst(b.rest);
    TokensSkip(b.rest);
    if !G.Peek(b.rest, ";") {
      l := Final(first, n);
      assert Tokens(s) == PipelineTokens(first) + Amps(n) + Tokens(b.rest);
    } else {
      TokenFirst(b.rest);
      OpenShortens(b.rest);
      var rest := LineSound(G.GetToken(b.rest).rest);
      l := Listed(first, n, rest);
      var r := G.ParseLine(s).value.rest;
      assert Tokens(s) == PipelineTokens(first) + (Amps(n) + ([Semi] + (LineTokens(rest) + Tokens(r))));
    }
  }

  /** On any text: the parser returns c if and only if the tokens of the text derive c. */
  lemma {:induction false} ParseIff(s: string, c: Cmd<string>)
    ensures G.ParseCmd(s) == Some(c) <==> Derives(Tokens(s), c)
  {
    hide Tokens, Skip, G.ParseLine, LineTokens, LineTree, LineOK;
    if G.ParseLine(s).Some? {
      var r := G.ParseLine(s).value;
      TokenFirst(r.rest);
      var l := LineSound(s);
      if Skip(r.rest) == [] {
        assert LineTokens(l) + [] == LineTokens(l);
      }
    }
    if Derives(Tokens(s), c) {
      var l :| LineOK(l) && LineTokens(l) == Tokens(s) && LineTree(l) == c;
      assert LineTokens(l) + [] == LineTokens(l);
      LineDerived(l, s, []);
      TokenFirst(G.ParseLine(s).value.rest);
    }
  }

  /** A line derives one command at most. */
  lemma {:induction false} DerivesOne(s: string, c: Cmd<string>, d: Cmd<string>)
    requires Derives(Tokens(s), c) && Derives(Tokens(s), d)
    ensures c == d
  {
    hide Derives, G.ParseCmd;
    ParseIff(s, c);
    ParseIff(s, d);
  }

  // ---------- tokens and their spelling ----------

  function Spelling(t: Tok): (s: string) {
    match t
    case Text(w) => w
    case Less => "<"
    case Greater => ">"
    case Twice => ">>"
    case Bar => "|"
    case Amp => "&"
    case Semi => ";"
    case Open => "("
    case Close => ")"
  }

  predicate Proper(t: Tok) {
    t.Text? ==> t.w != [] && forall i | 0 <= i < |t.w| :: IsWordChar(t.w[i])
  }

  /** Two tokens that may stand next to each other without a space. */
  predicate Apart(t: Tok, u: Tok) {
    !(t.Text? && u.Text?) && !(t.Greater? && (u.Greater? || u.Twice?))
  }

  /** A way to write tokens: spaces in front of each and after the last. */
  function Written(gaps: seq<nat>, ts: seq<Tok>): (s: string)
    requires |gaps| == |ts| + 1
  {
    Blanks(gaps[0]) + if ts == [] then [] else Spelling(ts[0]) + Written(gaps[1..], ts[1..])
  }

  function Blanks(n: nat): (s: string) {
    if n == 0 then [] else " " + Blanks(n - 1)
  }

  ghost predicate Writable(gaps: seq<nat>, ts: seq<Tok>) {
    && |gaps| == |ts| + 1 && (forall i | 0 <= i < |ts| :: Proper(ts[i]))
    && forall i | 0 < i < |ts| :: gaps[i] > 0 || Apart(ts[i - 1], ts[i])
  }

  lemma {:induction false} BlanksGone(n: nat, s: string)
    ensures Tokens(Blanks(n) + s) == Tokens(s)
  {
    hide Word;
    if n == 0 {
      assert Blanks(0) + s == s;
    } else {
      assert Blanks(n) + s == " " + (Blanks(n - 1) + s);
      assert (Blanks(n) + s)[1..] == Blanks(n - 1) + s;
      BlanksGone(n - 1, s);
    }
  }

  /** What follows does not lengthen the token. */
  predicate Stops(t: Tok, k: string) {
    && (t.Text? ==> k == [] || !IsWordChar(k[0]))
    && (t.Greater? ==> k == [] || k[0] != '>')
  }

  lemma {:induction false} TokenRead(t: Tok, k: string)
    requires Proper(t) && Stops(t, k)
    ensures Tokens(Spelling(t) + k) == [t] + Tokens(k)
  {
    hide Word;
    var s := Spelling(t) + k;
    if t.Text? {
      ShellPrinter.WordOf(t.w, k);
      assert s[0] == t.w[0] && IsWordChar(t.w[0]);
      assert s[|t.w|..] == k;
    } else if t.Twice? {
      assert s[0] == '>' && s[1] == '>' && s[2..] == k;
    } else {
      assert s[0] == Spelling(t)[0] && s[1..] == k;
    }
  }

  lemma {:induction false} WrittenStops(gaps: seq<nat>, ts: seq<Tok>)
    requires Writable(gaps, ts) && ts != []
    ensures Writable(gaps[1..], ts[1..]) && Stops(ts[0], Written(gaps[1..], ts[1..]))
  {
    var g, us := gaps[1..], ts[1..];
    forall i | 0 < i < |us|
      ensures g[i] > 0 || Apart(us[i - 1], us[i])
    {
      assert us[i - 1] == ts[i] && us[i] == ts[i + 1] && g[i] == gaps[i + 1];
    }
    var k := Written(g, us);
    if g[0] > 0 {
      assert k[0] == ' ';
    } else if us != [] {
      assert Proper(us[0]) && Apart(ts[0], us[0]) && Blanks(0) == [];
      assert k[0] == Spelling(us[0])[0];
    } else {
      assert k == [];
    }
  }

  /** However tokens are written, with a space where two would run together, they are read back. */
  lemma {:induction false} TokensWritten(gaps: seq<nat>, ts: seq<Tok>)
    requires Writable(gaps, ts)
    ensures Tokens(Written(gaps, ts)) == ts
    decreases |ts|
  {
    hide Tokens, Spelling, Blanks;
    if ts == [] {
      BlanksGone(gaps[0], []);
      NoTokens();
    } else {
      WrittenStops(gaps, ts);
      var k := Written(gaps[1..], ts[1..]);
      BlanksGone(gaps[0], Spelling(ts[0]) + k);
      TokenRead(ts[0], k);
      TokensWritten(gaps[1..], ts[1..]);
    }
  }
}
