/** The pattern matcher of grep.c, after chapter 9 of Kernighan and Pike, The Practice of
    Programming.  A C string is the sequence of its characters before the NUL; `re + 1` is the
    sequence without its first character. */
module Grep {

  // ---------- what a pattern means ----------

  datatype Item = One(c: char) | Many(c: char) | End

  /** The items a pattern spells: `c*` repeats c, a final `$` is the end, everything else is one
      character, so `*`, `^` and `$` are literal elsewhere. */
  function Items(re: string): (items: seq<Item>) {
    if re == [] then []
    else if |re| > 1 && re[1] == '*' then [Many(re[0])] + Items(re[2..])
    else if re == "$" then [End]
    else [One(re[0])] + Items(re[1..])
  }

  /** How items are written. */
  function Spell(items: seq<Item>): (re: string) {
    if items == [] then []
    else
      (match items[0]
       case One(c) => [c]
       case Many(c) => [c, '*']
       case End => "$") + Spell(items[1..])
  }

  /** Items that can be told from their spelling: no star right after a single character, the end only
      at the end, and no single `$` there. */
  predicate Readable(items: seq<Item>) {
    items == []
    || (&& Readable(items[1..])
        && (items[0].One? ==>
              var rest := Spell(items[1..]); (rest != [] ==> rest[0] != '*') && (items[0].c == '$' ==> rest != []))
        && (items[0].End? ==> |items| == 1))
  }

  /** A pattern means the one readable list of items that spells it. */
  lemma {:induction false} ItemsIff(re: string, items: seq<Item>)
    ensures Items(re) == items <==> Spell(items) == re && Readable(items)
  {
    ItemsSpell(re);
    if Spell(items) == re && Readable(items) {
      SpellItems(items);
    }
  }

  lemma {:induction false} ItemsSpell(re: string)
    ensures Spell(Items(re)) == re && Readable(Items(re))
  {
    if re != [] && re != "$" {
      var rest := if |re| > 1 && re[1] == '*' then re[2..] else re[1..];
      ItemsSpell(rest);
      assert Items(re)[1..] == Items(rest);
      assert re == [re[0]] + re[1..];
      assert |re| > 1 && re[1] == '*' ==> re == [re[0], '*'] + re[2..];
    } else if re == "$" {
      assert Items(re) == [End] && [End][1..] == [];
    }
  }

  lemma {:induction false} SpellItems(items: seq<Item>)
    requires Readable(items)
    ensures Items(Spell(items)) == items
  {
    if items != [] {
      SpellItems(items[1..]);
      var re, rest := Spell(items), Spell(items[1..]);
      match items[0] {
        case One(c) => assert re[1..] == rest;
        case Many(c) => assert re[2..] == rest;
        case End => assert items[1..] == [] && re == "$";
      }
      assert items == [items[0]] + items[1..];
    }
  }

  predicate Fits(c: char, x: char) {
    c == '.' || c == x
  }

  /** The strings one item stands for. */
  predicate InItem(item: Item, s: string) {
    match item
    case One(c) => |s| == 1 && Fits(c, s[0])
    case Many(c) => forall i | 0 <= i < |s| :: Fits(c, s[i])
    case End => s == []
  }

  ghost predicate InItems(items: seq<Item>, pieces: seq<string>) {
    |pieces| == |items| && forall i | 0 <= i < |items| :: InItem(items[i], pieces[i])
  }

  function Flatten(pieces: seq<string>): (s: string) {
    if pieces == [] then [] else pieces[0] + Flatten(pieces[1..])
  }

  predicate Ends(items: seq<Item>) {
    items != [] && items[|items| - 1].End?
  }

  /** text[i..i + n] is made of one piece per item, and reaches the end if the pattern says so. */
  ghost predicate Occurs(items: seq<Item>, text: string, i: nat, n: nat, pieces: seq<string>) {
    && i + n <= |text| && InItems(items, pieces) && Flatten(pieces) == text[i..i + n]
    && (Ends(items) ==> i + n == |text|)
  }

  /** Some substring of text, at the start if the pattern begins with `^`, belongs to re. */
  ghost predicate Matches(re: string, text: string) {
    if re != [] && re[0] == '^'
    then exists n: nat, pieces :: Occurs(Items(re[1..]), text, 0, n, pieces)
    else exists i: nat, n: nat, pieces :: Occurs(Items(re), text, i, n, pieces)
  }

  // ---------- the same, one item at a time ----------

  ghost predicate Accept(items: seq<Item>, text: string)
    decreases |items|
  {
    if items == [] then true
    else match items[0]
      case One(c) => text != [] && Fits(c, text[0]) && Accept(items[1..], text[1..])
      case Many(c) => exists k | 0 <= k <= |text| :: InItem(Many(c), text[..k]) && Accept(items[1..], text[k..])
      case End => text == [] && Accept(items[1..], text)
  }

  /** Some characters that fit c, then the rest of the items. */
  ghost predicate AcceptStar(c: char, items: seq<Item>, text: string) {
    exists k | 0 <= k <= |text| :: InItem(Many(c), text[..k]) && Accept(items, text[k..])
  }

  /** End can only be the last item of a pattern. */
  ghost predicate EndLast(items: seq<Item>) {
    forall i | 0 <= i < |items| - 1 :: !items[i].End?
  }

  lemma {:induction false} ItemsEndLast(re: string)
    ensures EndLast(Items(re))
  {
    if re != [] && re != "$" {
      var rest := if |re| > 1 && re[1] == '*' then re[2..] else re[1..];
      ItemsEndLast(rest);
      assert Items(re)[1..] == Items(rest);
    }
  }

  lemma {:induction false} AcceptSound(items: seq<Item>, text: string) returns (n: nat, pieces: seq<string>)
    requires Accept(items, text) && EndLast(items)
    ensures Occurs(items, text, 0, n, pieces)
  {
    if items == [] {
      n, pieces := 0, [];
    } else {
      var k: nat;
      match items[0] {
        case One(c) => k := 1;
        case Many(c) => k :| 0 <= k <= |text| && InItem(Many(c), text[..k]) && Accept(items[1..], text[k..]);
        case End => k := 0; assert text[0..] == text;
      }
      var m, rest := AcceptSound(items[1..], text[k..]);
      n, pieces := k + m, [text[..k]] + rest;
      OccursCons(items, text, k, m, rest);
    }
  }

  lemma {:induction false} OccursCons(items: seq<Item>, text: string, k: nat, m: nat, rest: seq<string>)
    requires items != [] && k <= |text| && InItem(items[0], text[..k]) && Occurs(items[1..], text[k..], 0, m, rest)
    requires |items| == 1 && items[0].End? ==> k == |text|
    ensures Occurs(items, text, 0, k + m, [text[..k]] + rest)
  {
    hide InItem;
    var pieces := [text[..k]] + rest;
    assert text[..k] + text[k..][..m] == text[..k + m] && pieces[1..] == rest;
    forall i | 0 <= i < |items|
      ensures InItem(items[i], pieces[i])
    {
      if i > 0 {
        assert InItem(items[1..][i - 1], rest[i - 1]);
      }
    }
  }

  lemma {:induction false} Split(text: string, n: nat, p: string, q: string)
    requires n <= |text| && p + q == text[0..n]
    ensures |p| <= n && p == text[..|p|] && q == text[|p|..][0..n - |p|]
  {
    assert forall i | 0 <= i < |p| :: p[i] == (p + q)[i];
    assert forall i | 0 <= i < |q| :: q[i] == (p + q)[|p| + i];
  }

  lemma {:induction false} AcceptComplete(items: seq<Item>, text: string, n: nat, pieces: seq<string>)
    requires Occurs(items, text, 0, n, pieces) && EndLast(items)
    ensures Accept(items, text)
    decreases |items|
  {
    if items != [] {
      var k := |pieces[0]|;
      Split(text, n, pieces[0], Flatten(pieces[1..]));
      assert InItem(items[0], pieces[0]);
      assert InItems(items[1..], pieces[1..]);
      AcceptComplete(items[1..], text[k..], n - k, pieces[1..]);
      match items[0] {
        case One(c) =>
        case Many(c) => assert InItem(Many(c), text[..k]) && Accept(items[1..], text[k..]);
        case End => assert text[0..] == text;
      }
    }
  }

  // ---------- the code ----------

  method Match(re: string, text: string) returns (r: bool)
    ensures r <==> Matches(re, text)
  {
    if re != [] && re[0] == '^' {
      r := MatchHere(re[1..], text);
      HereIff(re[1..], text, 0);
      assert text[0..] == text;
      return;
    }
    var i := 0;
    while true
      invariant 0 <= i <= |text|
      invariant forall k | 0 <= k < i :: !Accept(Items(re), text[k..])
      decreases |text| - i
    {
      r := MatchHere(re, text[i..]);
      if r {
        HereIff(re, text, i);
        return;
      }
      if i == |text| {
        break;
      }
      i := i + 1;
    }
    forall k: nat, n: nat, pieces | Occurs(Items(re), text, k, n, pieces) ensures Accept(Items(re), text[k..]) {
      HereIff(re, text, k);
    }
  }

  /** Matching here is an occurrence that starts here. */
  lemma {:induction false} HereIff(re: string, text: string, i: nat)
    requires i <= |text|
    ensures Accept(Items(re), text[i..]) <==> exists n: nat, pieces :: Occurs(Items(re), text, i, n, pieces)
  {
    ItemsEndLast(re);
    if Accept(Items(re), text[i..]) {
      var n, pieces := AcceptSound(Items(re), text[i..]);
      assert text[i..][..n] == text[i..i + n];
      assert Occurs(Items(re), text, i, n, pieces);
    }
    forall n: nat, pieces | Occurs(Items(re), text, i, n, pieces) ensures Accept(Items(re), text[i..]) {
      assert text[i..][0..n] == text[i..i + n];
      AcceptComplete(Items(re), text[i..], n, pieces);
    }
  }

  method MatchHere(re: string, text: string) returns (r: bool)
    ensures r <==> Accept(Items(re), text)
    decreases |re|, 0
  {
    if re == [] {
      return true;
    }
    if |re| > 1 && re[1] == '*' {
      r := MatchStar(re[0], re[2..], text);
      assert Items(re)[1..] == Items(re[2..]);
      return;
    }
    if re == "$" {
      return text == [];
    }
    if text != [] && (re[0] == '.' || re[0] == text[0]) {
      r := MatchHere(re[1..], text[1..]);
      assert Items(re)[1..] == Items(re[1..]);
      return;
    }
    return false;
  }

  method MatchStar(c: char, re: string, text: string) returns (r: bool)
    ensures r <==> AcceptStar(c, Items(re), text)
    decreases |re|, 1
  {
    var i := 0;
    while true
      invariant 0 <= i <= |text|
      invariant forall k | 0 <= k < i :: Fits(c, text[k])
      invariant forall k | 0 <= k < i :: !Accept(Items(re), text[k..])
      decreases |text| - i
    {
      r := MatchHere(re, text[i..]);
      if r {
        assert InItem(Many(c), text[..i]) && Accept(Items(re), text[i..]);
        return;
      }
      if i == |text| || !(text[i] == c || c == '.') {
        break;
      }
      i := i + 1;
    }
    forall k | i < k <= |text| ensures !InItem(Many(c), text[..k]) {
      assert text[..k][i] == text[i];
    }
  }
}
