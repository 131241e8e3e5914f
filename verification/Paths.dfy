/** skipelem and namex of fs.c: resolving a path is folding directory lookup over the path split
    on slashes, with empty parts dropped and names cut to DIRSIZ bytes. */
module Paths {
  import opened Bytes
  import opened Options
  import opened FsLayout
  import opened FsInode
  import opened FsBlocks
  import opened FsFile
  import opened CStrings
  import opened Directories

  const SLASH: byte := 47
  const ROOTINO := 1

  /** The pieces between slashes, empty ones included. */
  function Split(p: seq<byte>): (r: seq<Name>)
    ensures |r| >= 1
  {
    if p == [] then [[]]
    else if p[0] == SLASH then [[]] + Split(p[1..])
    else [[p[0]] + Split(p[1..])[0]] + Split(p[1..])[1..]
  }

  function Cut(s: Name): (r: Name) {
    if |s| > DIRSIZ then s[..DIRSIZ] else s
  }

  function NonEmpty(ps: seq<Name>): (r: seq<Name>) {
    if ps == [] then [] else (if ps[0] == [] then [] else [Cut(ps[0])]) + NonEmpty(ps[1..])
  }

  /** The path elements a path names. */
  function Elements(p: seq<byte>): (r: seq<Name>) {
    NonEmpty(Split(p))
  }

  lemma {:induction false} ElementsSlash(p: seq<byte>)
    requires p != [] && p[0] == SLASH
    ensures Elements(p) == Elements(p[1..])
  {
    assert Split(p)[1..] == Split(p[1..]);
  }

  lemma {:induction false} SplitWord(w: seq<byte>, rest: seq<byte>)
    requires SLASH !in w && (rest == [] || rest[0] == SLASH)
    ensures Split(w + rest)[0] == w && Split(w + rest)[1..] == Split(rest)[1..]
  {
    if w == [] {
      assert w + rest == rest;
    } else {
      assert (w + rest)[1..] == w[1..] + rest;
      assert w[0] in w;
      SplitWord(w[1..], rest);
      assert w == [w[0]] + w[1..];
    }
  }

  lemma {:induction false} ElementsWord(w: seq<byte>, rest: seq<byte>)
    requires w != [] && SLASH !in w && (rest == [] || rest[0] == SLASH)
    ensures Elements(w + rest) == [Cut(w)] + Elements(rest)
  {
    SplitWord(w, rest);
    SplitWord([], rest);
    assert [] + rest == rest;
  }

  // ---------- every path is laid out in one way ----------

  function Slashes(n: nat): (s: seq<byte>) {
    seq(n, i => SLASH)
  }

  /** Words without slashes, with gaps of slashes around them; only the outer gaps may be empty. */
  ghost predicate LaidOut(gaps: seq<nat>, words: seq<Name>) {
    && |gaps| == |words| + 1
    && (forall i | 0 <= i < |words| :: words[i] != [] && SLASH !in words[i])
    && (forall i | 0 < i < |words| :: gaps[i] > 0)
  }

  ghost function Layout(gaps: seq<nat>, words: seq<Name>): (path: seq<byte>)
    requires |gaps| == |words| + 1
  {
    Slashes(gaps[0]) + if words == [] then [] else words[0] + Layout(gaps[1..], words[1..])
  }

  lemma {:induction false} ElementsGap(n: nat, p: seq<byte>)
    ensures Elements(Slashes(n) + p) == Elements(p)
  {
    hide Split, NonEmpty;
    if n == 0 {
      assert Slashes(0) + p == p;
    } else {
      assert (Slashes(n) + p)[1..] == Slashes(n - 1) + p;
      ElementsSlash(Slashes(n) + p);
      ElementsGap(n - 1, p);
    }
  }

  /** The elements of a path are its words, cut to DIRSIZ bytes. */
  lemma {:induction false} ElementsLaid(gaps: seq<nat>, words: seq<Name>)
    requires LaidOut(gaps, words)
    ensures var es := Elements(Layout(gaps, words));
            |es| == |words| && forall i | 0 <= i < |words| :: es[i] == Cut(words[i])
    decreases |words|
  {
    hide Elements, Slashes, Cut;
    if words == [] {
      ElementsGap(gaps[0], []);
      NoElements([]);
    } else {
      var rest := Layout(gaps[1..], words[1..]);
      ElementsGap(gaps[0], words[0] + rest);
      LaidNext(gaps, words);
      ElementsWord(words[0], rest);
      ElementsLaid(gaps[1..], words[1..]);
      var es := Elements(Layout(gaps, words));
      forall i | 0 <= i < |words|
        ensures es[i] == Cut(words[i])
      {
        assert i > 0 ==> words[i] == words[1..][i - 1];
      }
    }
  }

  lemma {:induction false} LaidNext(gaps: seq<nat>, words: seq<Name>)
    requires LaidOut(gaps, words) && words != []
    ensures LaidOut(gaps[1..], words[1..])
    ensures var rest := Layout(gaps[1..], words[1..]); rest == [] || rest[0] == SLASH
  {
    if |words| > 1 {
      assert gaps[1] > 0;
    }
  }

  /** One more slash in front. */
  lemma {:induction false} LaidSlash(gaps: seq<nat>, words: seq<Name>)
    requires LaidOut(gaps, words)
    ensures var gaps' := gaps[0 := gaps[0] + 1];
            LaidOut(gaps', words) && Layout(gaps', words) == [SLASH] + Layout(gaps, words)
  {
    var gaps' := gaps[0 := gaps[0] + 1];
    assert Slashes(gaps[0] + 1) == [SLASH] + Slashes(gaps[0]);
    assert gaps'[1..] == gaps[1..];
  }

  /** One more character in front of the first word. */
  lemma {:induction false} LaidLonger(gaps: seq<nat>, words: seq<Name>, c: byte)
    requires LaidOut(gaps, words) && words != [] && gaps[0] == 0 && c != SLASH
    ensures var words' := words[0 := [c] + words[0]];
            LaidOut(gaps, words') && Layout(gaps, words') == [c] + Layout(gaps, words)
  {
    var words' := words[0 := [c] + words[0]];
    assert words'[1..] == words[1..] && Slashes(0) == [];
  }

  /** A new first word. */
  lemma {:induction false} LaidWord(gaps: seq<nat>, words: seq<Name>, c: byte)
    requires LaidOut(gaps, words) && (words != [] ==> gaps[0] > 0) && c != SLASH
    ensures LaidOut([0] + gaps, [[c]] + words) && Layout([0] + gaps, [[c]] + words) == [c] + Layout(gaps, words)
  {
    var gaps', words' := [0] + gaps, [[c]] + words;
    assert gaps'[1..] == gaps && words'[1..] == words && Slashes(0) == [];
  }

  /** Every path can be laid out so. */
  lemma {:induction false} EveryPathLaid(path: seq<byte>) returns (gaps: seq<nat>, words: seq<Name>)
    ensures LaidOut(gaps, words) && Layout(gaps, words) == path
  {
    hide Slashes;
    if path == [] {
      gaps, words := [0], [];
      assert Slashes(0) == [] by {
        NoSlashes();
      }
    } else {
      hide LaidOut, Layout;
      var g, w := EveryPathLaid(path[1..]);
      LaidSize(g, w);
      assert path == [path[0]] + path[1..];
      if path[0] == SLASH {
        LaidSlash(g, w);
        gaps, words := g[0 := g[0] + 1], w;
      } else if g[0] == 0 && w != [] {
        LaidLonger(g, w, path[0]);
        gaps, words := g, w[0 := [path[0]] + w[0]];
      } else {
        LaidWord(g, w, path[0]);
        gaps, words := [0] + g, [[path[0]]] + w;
      }
    }
  }

  lemma {:induction false} NoSlashes()
    ensures Slashes(0) == []
  {
  }

  lemma {:induction false} LaidSize(gaps: seq<nat>, words: seq<Name>)
    requires LaidOut(gaps, words)
    ensures |gaps| == |words| + 1
  {
  }

  /** Copies the next element into name and steps past it and the slashes around it; None when no
      element is left.  The new position is the end of the path exactly when nothing follows. */
  method Skipelem(path: seq<byte>, start: nat, name: array<byte>) returns (next: Option<nat>)
    requires start <= |path| && 0 !in path && name.Length == DIRSIZ
    modifies name
    ensures next.None? <==> Elements(path[start..]) == []
    ensures next.None? ==> name[..] == old(name[..])
    ensures next.Some? ==>
      && start < next.value <= |path|
      && Elements(path[start..]) == [CStr(name[..], DIRSIZ)] + Elements(path[next.value..])
      && (next.value == |path| <==> Elements(path[next.value..]) == [])
  {
    hide Split;
    var p := SkipSlashes(path, start);
    if p == |path| {
      NoElements(path);
      return None;
    }
    var s := p;
    while p < |path| && path[p] != SLASH
      invariant s <= p <= |path| && (p == s ==> p < |path| && path[p] != SLASH)
      invariant SLASH !in path[s..p]
    {
      p := p + 1;
    }
    ElementsWord(path[s..p], path[p..]);
    assert path[s..p] + path[p..] == path[s..];
    CopyName(path, s, p, name);
    p := SkipSlashes(path, p);
    NoElements(path);
    if p < |path| {
      LeadsWithElement(path[p..]);
    }
    next := Some(p);
  }

  lemma {:induction false} NoElements(path: seq<byte>)
    ensures Elements(path[|path|..]) == []
  {
    assert path[|path|..] == [];
    assert Split([]) == [[]];
  }

  lemma {:induction false} LeadsWithElement(p: seq<byte>)
    requires p != [] && p[0] != SLASH
    ensures Elements(p) != []
  {
  }

  method SkipSlashes(path: seq<byte>, start: nat) returns (p: nat)
    requires start <= |path|
    ensures start <= p <= |path| && (p == |path| || path[p] != SLASH)
    ensures Elements(path[start..]) == Elements(path[p..])
  {
    hide Split;
    p := start;
    while p < |path| && path[p] == SLASH
      invariant start <= p <= |path|
      invariant Elements(path[start..]) == Elements(path[p..])
    {
      ElementsSlash(path[p..]);
      assert path[p..][1..] == path[p + 1..];
      p := p + 1;
    }
  }

  method CopyName(path: seq<byte>, s: nat, p: nat, name: array<byte>)
    requires s <= p <= |path| && 0 !in path && name.Length == DIRSIZ
    modifies name
    ensures CStr(name[..], DIRSIZ) == Cut(path[s..p])
  {
    var len := p - s;
    var m := if len >= DIRSIZ then DIRSIZ else len;
    for i := 0 to m
      invariant forall k | 0 <= k < i :: name[k] == path[s + k]
    {
      name[i] := path[s + i];
    }
    if len < DIRSIZ {
      name[len] := 0;
    }
    forall k | 0 <= k < m ensures name[k] != 0 {
      assert path[s + k] in path;
    }
    assert Len(name[..], DIRSIZ) == m;
    assert name[..][..m] == Cut(path[s..p]);
  }

  // ---------- namex ----------

  datatype Walk = WalkPanic | NoEntry | At(inum: nat)

  /** Directories hold whole entries, and every entry names an inode of the table. */
  ghost predicate DirsOK(sb: Super, blocks: Blocks, tab: seq<Dinode>) {
    && TableShape(sb, blocks, tab)
    && forall i | 0 <= i < |tab| && tab[i].typ == T_DIR :: DirOK(Content(blocks, tab[i]), |tab|)
  }

  ghost predicate DirOK(c: seq<byte>, ninodes: nat) {
    |c| % DIRENT == 0 && forall name | name in Bindings(c) :: Bindings(c)[name] < ninodes
  }

  /** Following the elements one directory at a time; with `parent`, stopping at the last. */
  ghost function Resolve(sb: Super, blocks: Blocks, tab: seq<Dinode>, inum: nat, elems: seq<Name>,
                         parent: bool): (r: Walk)
    requires DirsOK(sb, blocks, tab) && inum < |tab|
    decreases |elems|
  {
    if elems == [] then (if parent then NoEntry else At(inum))
    else if tab[inum].typ == 0 then WalkPanic
    else if tab[inum].typ != T_DIR then NoEntry
    else if parent && |elems| == 1 then At(inum)
    else
      var next := Child(sb, blocks, tab, inum, elems[0]);
      if next.Some? then Resolve(sb, blocks, tab, next.value, elems[1..], parent) else NoEntry
  }

  /** The inode a directory binds a name to. */
  ghost function Child(sb: Super, blocks: Blocks, tab: seq<Dinode>, inum: nat, name: Name): (r: Option<nat>)
    requires DirsOK(sb, blocks, tab) && inum < |tab| && tab[inum].typ == T_DIR
    ensures r.Some? ==> r.value < |tab|
  {
    assert DirOK(Content(blocks, tab[inum]), |tab|);
    if name in Bindings(Content(blocks, tab[inum])) then Some(Bindings(Content(blocks, tab[inum]))[name]) else None
  }

  // ---------- routes ----------

  /** Directory d binds the name to n. */
  ghost predicate Binds(sb: Super, blocks: Blocks, tab: seq<Dinode>, d: nat, name: Name, n: nat)
    requires DirsOK(sb, blocks, tab) && d < |tab|
  {
    && tab[d].typ == T_DIR
    && (assert DirOK(Content(blocks, tab[d]), |tab|);
        var m := Bindings(Content(blocks, tab[d]));
        name in m && m[name] == n)
  }

  /** ns are inode numbers, each but the last a directory that binds the next element to the next of
      them. */
  ghost predicate Route(sb: Super, blocks: Blocks, tab: seq<Dinode>, ns: seq<nat>, elems: seq<Name>)
    requires DirsOK(sb, blocks, tab)
  {
    && |ns| == |elems| + 1 && (forall j | 0 <= j < |ns| :: ns[j] < |tab|)
    && forall j | 0 <= j < |elems| :: Binds(sb, blocks, tab, ns[j], elems[j], ns[j + 1])
  }

  /** Some route for the elements leads from inode a to inode n. */
  ghost predicate Reaches(sb: Super, blocks: Blocks, tab: seq<Dinode>, a: nat, elems: seq<Name>, n: nat)
    requires DirsOK(sb, blocks, tab)
  {
    exists ns: seq<nat> :: Route(sb, blocks, tab, ns, elems) && ns[0] == a && ns[|ns| - 1] == n
  }

  /** Going part of the way leads to a free inode. */
  ghost predicate HitsFree(sb: Super, blocks: Blocks, tab: seq<Dinode>, a: nat, elems: seq<Name>)
    requires DirsOK(sb, blocks, tab)
  {
    exists k, n | 0 <= k < |elems| && 0 <= n < |tab| :: Reaches(sb, blocks, tab, a, elems[..k], n) && tab[n].typ == 0
  }

  lemma {:induction false} ReachesNil(sb: Super, blocks: Blocks, tab: seq<Dinode>, a: nat, n: nat)
    requires DirsOK(sb, blocks, tab) && a < |tab|
    ensures Reaches(sb, blocks, tab, a, [], n) <==> n == a
  {
    hide DirsOK, Binds;
    assert Route(sb, blocks, tab, [a], []) && [a][0] == a && [a][|[a]| - 1] == a;
    if Reaches(sb, blocks, tab, a, [], n) {
      var ns: seq<nat> :| Route(sb, blocks, tab, ns, []) && ns[0] == a && ns[|ns| - 1] == n;
    }
  }

  lemma {:induction false} ReachesCons(sb: Super, blocks: Blocks, tab: seq<Dinode>, a: nat, elems: seq<Name>, n: nat)
    requires DirsOK(sb, blocks, tab) && a < |tab| && elems != []
    ensures Reaches(sb, blocks, tab, a, elems, n) <==>
            exists m | 0 <= m < |tab| ::
              Binds(sb, blocks, tab, a, elems[0], m) && Reaches(sb, blocks, tab, m, elems[1..], n)
  {
    hide DirsOK, Binds;
    if Reaches(sb, blocks, tab, a, elems, n) {
      var ns: seq<nat> :| Route(sb, blocks, tab, ns, elems) && ns[0] == a && ns[|ns| - 1] == n;
      var rest := ns[1..];
      forall j | 0 <= j < |elems[1..]|
        ensures Binds(sb, blocks, tab, rest[j], elems[1..][j], rest[j + 1])
      {
        assert Binds(sb, blocks, tab, ns[j + 1], elems[j + 1], ns[j + 2]);
      }
      assert Route(sb, blocks, tab, rest, elems[1..]) && rest[0] == ns[1] && rest[|rest| - 1] == n;
      assert Binds(sb, blocks, tab, a, elems[0], ns[1]) && Reaches(sb, blocks, tab, ns[1], elems[1..], n);
    }
    if m: nat :| m < |tab| && Binds(sb, blocks, tab, a, elems[0], m) && Reaches(sb, blocks, tab, m, elems[1..], n) {
      var rest: seq<nat> :| Route(sb, blocks, tab, rest, elems[1..]) && rest[0] == m && rest[|rest| - 1] == n;
      var ns := [a] + rest;
      forall j | 0 <= j < |elems|
        ensures Binds(sb, blocks, tab, ns[j], elems[j], ns[j + 1])
      {
        assert j > 0 ==> Binds(sb, blocks, tab, rest[j - 1], elems[1..][j - 1], rest[j]);
      }
      assert Route(sb, blocks, tab, ns, elems) && ns[0] == a && ns[|ns| - 1] == n;
    }
  }

  lemma {:induction false} ChildBinds(sb: Super, blocks: Blocks, tab: seq<Dinode>, a: nat, name: Name)
    requires DirsOK(sb, blocks, tab) && a < |tab| && tab[a].typ == T_DIR
    ensures var c := Child(sb, blocks, tab, a, name);
            forall m: nat :: Binds(sb, blocks, tab, a, name, m) <==> c == Some(m)
  {
  }

  lemma {:induction false} HitsFreeCons(sb: Super, blocks: Blocks, tab: seq<Dinode>, a: nat, elems: seq<Name>)
    requires DirsOK(sb, blocks, tab) && a < |tab| && elems != []
    ensures HitsFree(sb, blocks, tab, a, elems) <==>
            tab[a].typ == 0
            || exists m | 0 <= m < |tab| ::
                 Binds(sb, blocks, tab, a, elems[0], m) && HitsFree(sb, blocks, tab, m, elems[1..])
  {
    hide DirsOK, Binds, Reaches;
    assert elems[..0] == [];
    ReachesNil(sb, blocks, tab, a, a);
    if k, n: nat :| 0 <= k < |elems| && n < |tab| && Reaches(sb, blocks, tab, a, elems[..k], n) && tab[n].typ == 0 {
      if k == 0 {
        ReachesNil(sb, blocks, tab, a, n);
      } else {
        ReachesCons(sb, blocks, tab, a, elems[..k], n);
        var m: nat :| m < |tab| && Binds(sb, blocks, tab, a, elems[0], m)
                      && Reaches(sb, blocks, tab, m, elems[..k][1..], n);
        assert elems[..k][1..] == elems[1..][..k - 1];
      }
    }
    if m: nat :| m < |tab| && Binds(sb, blocks, tab, a, elems[0], m) && HitsFree(sb, blocks, tab, m, elems[1..]) {
      var k, n: nat :| 0 <= k < |elems| - 1 && n < |tab| && Reaches(sb, blocks, tab, m, elems[1..][..k], n)
                       && tab[n].typ == 0;
      assert elems[..k + 1][1..] == elems[1..][..k];
      ReachesCons(sb, blocks, tab, a, elems[..k + 1], n);
    }
  }

  /** What the walk gives is where the routes lead. */
  ghost predicate Leads(sb: Super, blocks: Blocks, tab: seq<Dinode>, a: nat, elems: seq<Name>, parent: bool, r: Walk)
    requires DirsOK(sb, blocks, tab)
  {
    && (r.WalkPanic? <==> HitsFree(sb, blocks, tab, a, elems))
    && (!parent ==> forall n :: r == At(n) <==> Reaches(sb, blocks, tab, a, elems, n))
    && (parent && elems == [] ==> r == NoEntry)
    && (parent && elems != [] ==> forall n: nat | n < |tab| ::
          r == At(n) <==> Reaches(sb, blocks, tab, a, elems[..|elems| - 1], n) && tab[n].typ == T_DIR)
    && (r.At? ==> r.inum < |tab|)
  }

  /** The walk stops at once: at a free inode, at one that is no directory, or at an unbound name. */
  lemma {:induction false} StopsLeads(sb: Super, blocks: Blocks, tab: seq<Dinode>, a: nat, elems: seq<Name>, parent: bool)
    requires DirsOK(sb, blocks, tab) && a < |tab| && elems != []
    requires forall m: nat :: !Binds(sb, blocks, tab, a, elems[0], m)
    requires tab[a].typ == T_DIR ==> !(parent && |elems| == 1)
    ensures Leads(sb, blocks, tab, a, elems, parent, if tab[a].typ == 0 then WalkPanic else NoEntry)
  {
    hide DirsOK, Binds, Reaches, HitsFree;
    HitsFreeCons(sb, blocks, tab, a, elems);
    forall n: nat
      ensures !Reaches(sb, blocks, tab, a, elems, n)
    {
      ReachesCons(sb, blocks, tab, a, elems, n);
    }
    var front := elems[..|elems| - 1];
    forall n: nat | n < |tab|
      ensures !(Reaches(sb, blocks, tab, a, front, n) && tab[n].typ == T_DIR) || !parent
    {
      if front == [] {
        ReachesNil(sb, blocks, tab, a, n);
      } else {
        ReachesCons(sb, blocks, tab, a, front, n);
      }
    }
  }

  /** The walk goes on with the inode the first element is bound to. */
  lemma {:induction false} StepLeads(sb: Super, blocks: Blocks, tab: seq<Dinode>, a: nat, elems: seq<Name>, parent: bool,
                                     m: nat, r: Walk)
    requires DirsOK(sb, blocks, tab) && a < |tab| && elems != [] && m < |tab| && tab[a].typ != 0
    requires forall m': nat :: Binds(sb, blocks, tab, a, elems[0], m') <==> m' == m
    requires Leads(sb, blocks, tab, m, elems[1..], parent, r) && !(parent && |elems| == 1)
    ensures Leads(sb, blocks, tab, a, elems, parent, r)
  {
    hide DirsOK, Binds, Reaches, HitsFree;
    HitsFreeCons(sb, blocks, tab, a, elems);
    forall n: nat
      ensures Reaches(sb, blocks, tab, a, elems, n) <==> Reaches(sb, blocks, tab, m, elems[1..], n)
    {
      ReachesCons(sb, blocks, tab, a, elems, n);
    }
    if parent {
      var front := elems[..|elems| - 1];
      assert front[1..] == elems[1..][..|elems| - 2];
      forall n: nat
        ensures Reaches(sb, blocks, tab, a, front, n) <==> Reaches(sb, blocks, tab, m, front[1..], n)
      {
        ReachesCons(sb, blocks, tab, a, front, n);
      }
    }
  }

  /** nameiparent is at the last directory. */
  lemma {:induction false} LastLeads(sb: Super, blocks: Blocks, tab: seq<Dinode>, a: nat, elems: seq<Name>)
    requires DirsOK(sb, blocks, tab) && a < |tab| && |elems| == 1 && tab[a].typ == T_DIR
    ensures Leads(sb, blocks, tab, a, elems, true, At(a))
  {
    hide DirsOK, Binds, Reaches;
    assert elems[..0] == [] && elems[..|elems| - 1] == [];
    forall n: nat
      ensures Reaches(sb, blocks, tab, a, [], n) <==> n == a
    {
      ReachesNil(sb, blocks, tab, a, n);
    }
  }

  lemma {:induction false} NilLeads(sb: Super, blocks: Blocks, tab: seq<Dinode>, a: nat, parent: bool)
    requires DirsOK(sb, blocks, tab) && a < |tab|
    ensures Leads(sb, blocks, tab, a, [], parent, if parent then NoEntry else At(a))
  {
    hide DirsOK, Binds, Reaches;
    forall n: nat
      ensures Reaches(sb, blocks, tab, a, [], n) <==> n == a
    {
      ReachesNil(sb, blocks, tab, a, n);
    }
  }

  lemma {:induction false} ResolveLeads(sb: Super, blocks: Blocks, tab: seq<Dinode>, a: nat, elems: seq<Name>,
                                        parent: bool)
    requires DirsOK(sb, blocks, tab) && a < |tab|
    ensures Leads(sb, blocks, tab, a, elems, parent, Resolve(sb, blocks, tab, a, elems, parent))
    decreases |elems|
  {
    hide DirsOK, Leads, Child;
    if elems == [] {
      NilLeads(sb, blocks, tab, a, parent);
    } else if tab[a].typ != T_DIR {
      StopsLeads(sb, blocks, tab, a, elems, parent);
    } else if parent && |elems| == 1 {
      LastLeads(sb, blocks, tab, a, elems);
    } else {
      ChildBinds(sb, blocks, tab, a, elems[0]);
      var c := Child(sb, blocks, tab, a, elems[0]);
      if c.Some? {
        ResolveLeads(sb, blocks, tab, c.value, elems[1..], parent);
        StepLeads(sb, blocks, tab, a, elems, parent, c.value,
                  Resolve(sb, blocks, tab, c.value, elems[1..], parent));
      } else {
        StopsLeads(sb, blocks, tab, a, elems, parent);
      }
    }
  }

  /** ilock: read the inode from the disk; None is the panic for a free inode. */
  method Ilock(fs: FileSys, inum: nat) returns (ip: Option<Inode>)
    requires fs.Settled() && inum < |fs.tab|
    ensures ip.None? <==> fs.tab[inum].typ == 0
    ensures ip.Some? ==> fresh(ip.value) && ip.value.inum == inum && fs.Locked(ip.value)
  {
    hide Load;
    IBlockBelow(fs.sb, inum);
    assert DiskInodeIs(fs.sb, fs.blocks, inum, fs.tab[inum]);
    var di := DiskInode(fs.sb, fs.blocks, inum);
    if di.typ == 0 {
      return None;
    }
    var node := new Inode(inum, di);
    ip := Some(node);
  }

  /** Where a path starts. */
  function Origin(path: seq<byte>, cwd: nat): (n: nat) {
    if path != [] && path[0] == SLASH then ROOTINO else cwd
  }

  /** Resolves a path from the root or the working directory: the result is inode n exactly when a
      route along the elements leads there, each inode on the way a directory that binds the next
      element to the next inode.  With `parent` the route is that of all elements but the last,
      which is left in name, and ends in a directory.  A free inode on the way is the panic. */
  method Namex(fs: FileSys, cwd: nat, path: seq<byte>, parent: bool, name: array<byte>) returns (r: Walk)
    requires fs.Settled() && DirsOK(fs.sb, fs.blocks, fs.tab) && cwd < |fs.tab| && ROOTINO < |fs.tab|
    requires 0 !in path && name.Length == DIRSIZ
    modifies fs, name
    ensures unchanged(fs)
    ensures r == Resolve(fs.sb, fs.blocks, fs.tab, Origin(path, cwd), Elements(path), parent)
    ensures Leads(fs.sb, fs.blocks, fs.tab, Origin(path, cwd), Elements(path), parent, r)
    ensures r.At? && parent ==>
      Elements(path) != [] && CStr(name[..], DIRSIZ) == Elements(path)[|Elements(path)| - 1]
  {
    hide Recorded, SlotAddr, TableOK, BitmapOK, OnDisk, DirsOK, Elements, CStr, Resolve, Child, Leads;
    var inum: nat := Origin(path, cwd);
    ResolveLeads(fs.sb, fs.blocks, fs.tab, inum, Elements(path), parent);
    ghost var sb, blocks, tab, start, elems := fs.sb, fs.blocks, fs.tab, inum, Elements(path);
    assert path[0..] == path;
    var pos := Skipelem(path, 0, name);
    ghost var prev := 0;
    while pos.Some?
      invariant unchanged(fs) && inum < |fs.tab| && prev <= |path|
      invariant pos.Some? ==> prev < pos.value <= |path|
      invariant pos.None? <==> Elements(path[prev..]) == []
      invariant pos.Some? ==> Elements(path[prev..]) == [CStr(name[..], DIRSIZ)] + Elements(path[pos.value..])
      invariant pos.Some? ==> (pos.value == |path| <==> Elements(path[pos.value..]) == [])
      invariant Resolve(sb, blocks, tab, start, elems, parent) == Resolve(sb, blocks, tab, inum, Elements(path[prev..]), parent)
      invariant Elements(path[prev..]) != [] ==>
        elems != [] && elems[|elems| - 1] == Elements(path[prev..])[|Elements(path[prev..])| - 1]
      decreases |path| - prev
    {
      ResolveCons(sb, blocks, tab, inum, CStr(name[..], DIRSIZ), Elements(path[pos.value..]), parent);
      var ip := Ilock(fs, inum);
      if ip.None? {
        return WalkPanic;
      }
      if ip.value.typ != T_DIR {
        return NoEntry;
      }
      if parent && pos.value == |path| {
        return At(inum);
      }
      var child := Descend(fs, ip.value, name[..]);
      if child.None? {
        return NoEntry;
      }
      inum := child.value;
      prev := pos.value;
      pos := Skipelem(path, pos.value, name);
    }
    ResolveNil(sb, blocks, tab, inum, parent);
    if parent {
      return NoEntry;
    }
    r := At(inum);
  }

  lemma {:induction false} ResolveNil(sb: Super, blocks: Blocks, tab: seq<Dinode>, inum: nat, parent: bool)
    requires DirsOK(sb, blocks, tab) && inum < |tab|
    ensures Resolve(sb, blocks, tab, inum, [], parent) == if parent then NoEntry else At(inum)
  {
  }

  lemma {:induction false} ResolveCons(sb: Super, blocks: Blocks, tab: seq<Dinode>, inum: nat, name: Name,
                                       rest: seq<Name>, parent: bool)
    requires DirsOK(sb, blocks, tab) && inum < |tab|
    ensures Resolve(sb, blocks, tab, inum, [name] + rest, parent) ==
            if tab[inum].typ == 0 then WalkPanic
            else if tab[inum].typ != T_DIR then NoEntry
            else if parent && rest == [] then At(inum)
            else if Child(sb, blocks, tab, inum, name).Some?
              then Resolve(sb, blocks, tab, Child(sb, blocks, tab, inum, name).value, rest, parent)
            else NoEntry
  {
    hide Child, DirsOK;
    assert ([name] + rest)[1..] == rest;
  }

  /** dirlookup of one element in a locked directory. */
  method Descend(fs: FileSys, dp: Inode, name: seq<byte>) returns (r: Option<nat>)
    requires fs.Settled() && fs.Locked(dp) && DirsOK(fs.sb, fs.blocks, fs.tab) && dp.typ == T_DIR && |name| == DIRSIZ
    modifies fs`blocks, fs`tab, fs`owner, fs`live, fs`logged, fs`puts, dp`addrs
    ensures unchanged(fs) && unchanged(dp)
    ensures r == Child(fs.sb, fs.blocks, fs.tab, dp.inum, CStr(name, DIRSIZ))
    ensures forall n: nat :: r == Some(n) <==> Binds(fs.sb, fs.blocks, fs.tab, dp.inum, CStr(name, DIRSIZ), n)
  {
    hide Recorded, SlotAddr, BitmapOK, OnDisk, Content, DirMap, CStr;
    NameReadable(name);
    assert DirOK(Content(fs.blocks, fs.tab[dp.inum]), |fs.tab|);
    var found := Dirlookup(fs, dp, name);
    r := if found.Found? then Some(found.inum) else None;
  }

  lemma {:induction false} NameReadable(name: seq<byte>)
    requires |name| == DIRSIZ
    ensures Readable(name, DIRSIZ)
  {
  }
}
