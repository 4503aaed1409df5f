/** The matcher of grep: literals, dots, starred characters, a leading ^ and a trailing $. Strings have no terminator
    here: the end of a string is its length. */
module Grep {
  // ----- What a pattern means -----

  /** One character, or any number of one character. */
  datatype Item = One(c: char) | Star(c: char)

  /** A pattern without its caret: a row of items, perhaps bound to the end of the text. */
  datatype Pattern = Pattern(items: seq<Item>, toEnd: bool)

  /** How a pattern is read. A star belongs to the character before it; a star with nothing before it, and a dollar that
      is not the last character, stand for themselves. */
  function Read(re: string): (p: Pattern) {
    if re == "" then Pattern([], false)
    else if |re| > 1 && re[1] == '*' then var p := Read(re[2..]); p.(items := [Star(re[0])] + p.items)
    else if re == "$" then Pattern([], true)
    else var p := Read(re[1..]); p.(items := [One(re[0])] + p.items)
  }

  /** Character `x` of the text is one that `c` stands for. */
  predicate Fits(c: char, x: char) {
    c == '.' || c == x
  }

  predicate AllFit(c: char, w: string) {
    forall i :: 0 <= i < |w| ==> Fits(c, w[i])
  }

  predicate PieceOf(item: Item, w: string) {
    match item
    case One(c) => |w| == 1 && Fits(c, w[0])
    case Star(c) => AllFit(c, w)
  }

  function Concat(pieces: seq<string>): (w: string) {
    if pieces == [] then "" else pieces[0] + Concat(pieces[1..])
  }

  ghost predicate Splits(items: seq<Item>, w: string, pieces: seq<string>) {
    |pieces| == |items| && Concat(pieces) == w && forall i :: 0 <= i < |items| ==> PieceOf(items[i], pieces[i])
  }

  /** `w` is in the language of the items: it can be cut into pieces, one for each item. */
  ghost predicate InLanguage(items: seq<Item>, w: string) {
    exists pieces :: Splits(items, w, pieces)
  }

  /** A word of the pattern starts the text, and reaches its end if it has to. */
  ghost predicate Starts(p: Pattern, text: string) {
    exists n :: 0 <= n <= |text| && InLanguage(p.items, text[..n]) && (p.toEnd ==> n == |text|)
  }

  /** Some part of the text, bound to its beginning by a leading caret and to its end by a trailing dollar, is in the
      language of the pattern. */
  ghost predicate Matches(re: string, text: string) {
    var caret := re != "" && re[0] == '^';
    var p := Read(if caret then re[1..] else re);
    exists i, n :: 0 <= i <= n <= |text| && (caret ==> i == 0) && InLanguage(p.items, text[i..n]) && (p.toEnd ==>
        n == |text|)
  }

  // ----- The language, one item at a time -----

  lemma NoItems(w: string)
    ensures InLanguage([], w) <==> w == ""
  {
    if w == "" {
      assert Splits([], w, []);
    }
  }

  /** A word of a row of items is a piece of the first and a word of the rest. */
  lemma FirstItem(item: Item, items: seq<Item>, w: string)
    ensures InLanguage([item] + items, w) <==> exists k ::
            0 <= k <= |w| && PieceOf(item, w[..k]) && InLanguage(items, w[k..])
  {
    var all := [item] + items;
    if InLanguage(all, w) {
      var pieces :| Splits(all, w, pieces);
      var k := |pieces[0]|;
      assert w[..k] == pieces[0] && w[k..] == Concat(pieces[1..]);
      assert Splits(items, w[k..], pieces[1..]) by {
        assert forall i :: 0 <= i < |items| ==> items[i] == all[i + 1];
      }
    }
    if k :| 0 <= k <= |w| && PieceOf(item, w[..k]) && InLanguage(items, w[k..]) {
      var pieces :| Splits(items, w[k..], pieces);
      var p := [w[..k]] + pieces;
      assert p[1..] == pieces && w[..k] + w[k..] == w;
      assert Splits(all, w, p);
    }
  }

  /** The empty pattern starts every text, and the lone dollar the empty one. */
  lemma StartsEmpty(p: Pattern, text: string)
    requires p.items == []
    ensures Starts(p, text) <==> p.toEnd ==> text == ""
  {
    NoItems(text[..0]);
    forall n | 0 <= n <= |text|
      ensures InLanguage([], text[..n]) <==> n == 0
    {
      NoItems(text[..n]);
    }
    assert 0 <= |text| && InLanguage(p.items, text[..0]);
  }

  /** A pattern starts a text when a piece of its first item does and the rest starts what is left. */
  lemma StartsItem(item: Item, p: Pattern, text: string)
    ensures Starts(p.(items := [item] + p.items), text) <==>
            exists k :: 0 <= k <= |text| && PieceOf(item, text[..k]) && Starts(p, text[k..])
  {
    var all := p.(items := [item] + p.items);
    if Starts(all, text) {
      var n :| 0 <= n <= |text| && InLanguage(all.items, text[..n]) && (p.toEnd ==> n == |text|);
      FirstItem(item, p.items, text[..n]);
      var k :| 0 <= k <= n && PieceOf(item, text[..n][..k]) && InLanguage(p.items, text[..n][k..]);
      assert text[..n][..k] == text[..k] && text[..n][k..] == text[k..][..n - k];
      assert Starts(p, text[k..]);
    }
    if k :| 0 <= k <= |text| && PieceOf(item, text[..k]) && Starts(p, text[k..]) {
      var m :| 0 <= m <= |text| - k && InLanguage(p.items, text[k..][..m]) && (p.toEnd ==> m == |text| - k);
      var n := k + m;
      assert text[..n][..k] == text[..k] && text[..n][k..] == text[k..][..m];
      FirstItem(item, p.items, text[..n]);
      assert InLanguage(all.items, text[..n]);
    }
  }

  lemma StartsOne(c: char, p: Pattern, text: string)
    ensures Starts(p.(items := [One(c)] + p.items), text) <==> text != "" && Fits(c, text[0]) && Starts(p, text[1..])
  {
    StartsItem(One(c), p, text);
    if text != "" {
      assert |text[..1]| == 1 && text[..1][0] == text[0];
    }
  }

  lemma StartsStar(c: char, p: Pattern, text: string)
    ensures Starts(p.(items := [Star(c)] + p.items), text) <==> exists k ::
            0 <= k <= |text| && AllFit(c, text[..k]) && Starts(p, text[k..])
  {
    StartsItem(Star(c), p, text);
    forall k | 0 <= k <= |text|
      ensures PieceOf(Star(c), text[..k]) <==> AllFit(c, text[..k])
    {
    }
  }

  // ----- The matcher -----

  method Match(re: string, text: string) returns (b: bool)
    ensures b <==> Matches(re, text)
  {
    if re != "" && re[0] == '^' {
      b := MatchHere(re[1..], text);
      StartsFrom(Read(re[1..]), text, 0);
      assert text[0..] == text;
      return;
    }
    var i := 0;
    ghost var p := Read(re);
    while true
      invariant 0 <= i <= |text| && forall j :: 0 <= j < i ==> !Starts(p, text[j..])
      decreases |text| - i
    {
      b := MatchHere(re, text[i..]);
      StartsFrom(p, text, i);
      if b {
        return;
      }
      if i == |text| {
        NoStart(p, text);
        return;
      }
      i := i + 1;
    }
  }

  /** A match that begins at position `i`. */
  lemma StartsFrom(p: Pattern, text: string, i: nat)
    requires i <= |text|
    ensures Starts(p, text[i..]) <==> exists n ::
            i <= n <= |text| && InLanguage(p.items, text[i..n]) && (p.toEnd ==> n == |text|)
  {
    if Starts(p, text[i..]) {
      var m :| 0 <= m <= |text| - i && InLanguage(p.items, text[i..][..m]) && (p.toEnd ==> m == |text| - i);
      assert text[i..][..m] == text[i..i + m];
    }
    if n :| i <= n <= |text| && InLanguage(p.items, text[i..n]) && (p.toEnd ==> n == |text|) {
      assert text[i..][..n - i] == text[i..n];
    }
  }

  lemma NoStart(p: Pattern, text: string)
    requires forall j :: 0 <= j <= |text| ==> !Starts(p, text[j..])
    ensures !exists i, n :: 0 <= i <= n <= |text| && InLanguage(p.items, text[i..n]) && (p.toEnd ==> n == |text|)
  {
    forall i, n | 0 <= i <= n <= |text| && (p.toEnd ==> n == |text|)
      ensures !InLanguage(p.items, text[i..n])
    {
      StartsFrom(p, text, i);
    }
  }

  /** The pattern at the beginning of the text. */
  method MatchHere(re: string, text: string) returns (b: bool)
    ensures b <==> Starts(Read(re), text)
    decreases |re|, 1
  {
    if re == "" {
      StartsEmpty(Read(re), text);
      return true;
    }
    if |re| > 1 && re[1] == '*' {
      b := MatchStar(re[0], re[2..], text);
      StartsStar(re[0], Read(re[2..]), text);
      return;
    }
    if re == "$" {
      StartsEmpty(Read(re), text);
      return text == "";
    }
    StartsOne(re[0], Read(re[1..]), text);
    if text != "" && (re[0] == '.' || re[0] == text[0]) {
      b := MatchHere(re[1..], text[1..]);
    } else {
      b := false;
    }
  }

  /** Any number of `c`, and then the pattern, at the beginning of the text. */
  method MatchStar(c: char, re: string, text: string) returns (b: bool)
    ensures b <==> exists k :: 0 <= k <= |text| && AllFit(c, text[..k]) && Starts(Read(re), text[k..])
    decreases |re|, 2
  {
    var k := 0;
    while true
      invariant 0 <= k <= |text| && AllFit(c, text[..k])
      invariant forall j :: 0 <= j < k ==> !Starts(Read(re), text[j..])
      decreases |text| - k
    {
      b := MatchHere(re, text[k..]);
      if b {
        return;
      }
      if k == |text| || !(text[k] == c || c == '.') {
        forall j | k < j <= |text|
          ensures !AllFit(c, text[..j])
        {
          assert !Fits(c, text[..j][k]);
        }
        return;
      }
      k := k + 1;
    }
  }
}
