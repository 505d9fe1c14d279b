/** The regular expression matcher of grep (grep.c). A C string is the sequence of characters
    before its terminating NUL. */
module Grep {

  datatype Item = Single(c: char) | Star(c: char) | End

  /** The pattern as items. A character followed by * is starred, whatever it is; $ is an anchor
      only as the last character; a * that follows nothing is an ordinary character. */
  function Parse(re: string): seq<Item> {
    if re == "" then []
    else if |re| > 1 && re[1] == '*' then [Star(re[0])] + Parse(re[2..])
    else if re == "$" then [End]
    else [Single(re[0])] + Parse(re[1..])
  }

  predicate Accepts(c: char, x: char) {
    c == '.' || c == x
  }

  predicate AllAccepted(c: char, s: string) {
    forall m :: 0 <= m < |s| ==> Accepts(c, s[m])
  }

  /** s is in the language of the items. */
  ghost predicate InLanguage(items: seq<Item>, s: string) {
    if items == [] then s == ""
    else
      match items[0]
      case Single(c) => s != "" && Accepts(c, s[0]) && InLanguage(items[1..], s[1..])
      case Star(c) => exists k :: 0 <= k <= |s| && AllAccepted(c, s[..k]) && InLanguage(items[1..], s[k..])
      case End => false
  }

  predicate Anchored(items: seq<Item>) {
    items != [] && items[|items| - 1] == End
  }

  function Body(items: seq<Item>): seq<Item> {
    if Anchored(items) then items[..|items| - 1] else items
  }

  /** The first j characters of text are in the language, and they are all of it if the pattern
      ends in an anchor. */
  ghost predicate Fits(items: seq<Item>, text: string, j: nat) {
    j <= |text| && InLanguage(Body(items), text[..j]) && (Anchored(items) ==> j == |text|)
  }

  /** Some prefix of text fits. */
  ghost predicate Here(items: seq<Item>, text: string) {
    exists j :: 0 <= j <= |text| && Fits(items, text, j)
  }

  /** What match decides: a prefix for a pattern that starts with ^, else any substring. */
  ghost predicate Matches(re: string, text: string) {
    if re != "" && re[0] == '^' then Here(Parse(re[1..]), text)
    else exists i :: 0 <= i <= |text| && Here(Parse(re), text[i..])
  }

  // ----- patterns and items

  function ShowItem(item: Item): string {
    match item
    case Single(c) => [c]
    case Star(c) => [c, '*']
    case End => "$"
  }

  function Show(items: seq<Item>): string {
    if items == [] then "" else ShowItem(items[0]) + Show(items[1..])
  }

  /** How a pattern is to be read: every * that follows a character not starred yet stars it, and a
      $ at the end, not starred, is the anchor, which stands nowhere else. */
  predicate Proper(items: seq<Item>) {
    && (forall k :: 0 <= k < |items| ==> (items[k] == End ==> k == |items| - 1))
    && (forall k :: 0 <= k < |items| - 1 && items[k].Single? ==> ShowItem(items[k + 1])[0] != '*')
    && (items != [] ==> items[|items| - 1] != Single('$'))
  }

  lemma ShowCons(item: Item, rest: seq<Item>)
    ensures Show([item] + rest) == ShowItem(item) + Show(rest)
  {}

  lemma ProperCons(item: Item, rest: seq<Item>)
    requires Proper(rest) && item != End && (rest == [] ==> item != Single('$'))
    requires item.Single? && rest != [] ==> ShowItem(rest[0])[0] != '*'
    ensures Proper([item] + rest)
  {
    var items := [item] + rest;
    forall k | 0 <= k < |items|
      ensures items[k] == End ==> k == |items| - 1
      ensures k < |items| - 1 && items[k].Single? ==> ShowItem(items[k + 1])[0] != '*'
    {
      if k > 0 {
        assert items[k] == rest[k - 1];
      }
    }
  }

  /** Parse reads every pattern in the proper way. */
  lemma {:induction false} ParseProper(re: string)
    ensures Show(Parse(re)) == re && Proper(Parse(re))
    decreases |re|
  {
    hide Proper, Show;
    if re == "" || re == "$" {
      ParseShort(re);
    } else if |re| > 1 && re[1] == '*' {
      var rest := Parse(re[2..]);
      ParseProper(re[2..]);
      ShowCons(Star(re[0]), rest);
      ProperCons(Star(re[0]), rest);
      assert re == [re[0], '*'] + re[2..];
    } else {
      var rest := Parse(re[1..]);
      ParseProper(re[1..]);
      ShowCons(Single(re[0]), rest);
      assert re == [re[0]] + re[1..];
      ShowHead(rest);
      ProperCons(Single(re[0]), rest);
    }
  }

  lemma ParseShort(re: string)
    requires re == "" || re == "$"
    ensures Show(Parse(re)) == re && Proper(Parse(re))
  {}

  lemma ShowHead(items: seq<Item>)
    ensures items == [] <==> Show(items) == ""
    ensures items != [] ==> Show(items)[0] == ShowItem(items[0])[0]
  {}

  /** And there is no other. */
  lemma {:induction false} ProperUnique(items: seq<Item>)
    requires Proper(items)
    ensures Parse(Show(items)) == items
    decreases |items|
  {
    if items != [] {
      var rest, re := items[1..], Show(items);
      assert Proper(rest);
      ProperUnique(rest);
      assert items == [items[0]] + rest;
      match items[0]
      case Single(c) => assert re[1..] == Show(rest);
      case Star(c) => assert re[2..] == Show(rest);
      case End => assert rest == [];
    }
  }

  // ----- the specification follows the items

  lemma BodyTail(item: Item, rest: seq<Item>)
    requires item != End
    ensures Anchored([item] + rest) == Anchored(rest) && Body([item] + rest) == [item] + Body(rest)
  {
    if rest != [] {
      assert ([item] + rest)[|rest|] == rest[|rest| - 1];
    }
    if Anchored(rest) {
      assert ([item] + rest)[..|rest|] == [item] + rest[..|rest| - 1];
    }
  }

  lemma HereEmpty(text: string)
    ensures Here([], text)
  {
    assert Fits([], text, 0);
  }

  lemma HereEnd(text: string)
    ensures Here([End], text) <==> text == ""
  {
    assert Body([End]) == [];
    if text == "" {
      assert Fits([End], text, 0);
    }
  }

  lemma HereSingle(c: char, rest: seq<Item>, text: string)
    ensures Here([Single(c)] + rest, text) <==> text != "" && Accepts(c, text[0]) && Here(rest, text[1..])
  {
    var items := [Single(c)] + rest;
    BodyTail(Single(c), rest);
    assert Body(items)[1..] == Body(rest);
    if Here(items, text) {
      var j :| 0 <= j <= |text| && Fits(items, text, j);
      assert text[..j][1..] == text[1..][..j - 1];
      assert Fits(rest, text[1..], j - 1);
    }
    if text != "" && Accepts(c, text[0]) && Here(rest, text[1..]) {
      var j :| 0 <= j <= |text| - 1 && Fits(rest, text[1..], j);
      assert text[..j + 1][1..] == text[1..][..j];
      assert Fits(items, text, j + 1);
    }
  }

  /** c* matches some run of accepted characters, and then the rest matches. */
  ghost predicate After(c: char, rest: seq<Item>, text: string, k: nat) {
    k <= |text| && AllAccepted(c, text[..k]) && Here(rest, text[k..])
  }

  ghost predicate StarHere(c: char, rest: seq<Item>, text: string) {
    exists k :: 0 <= k <= |text| && After(c, rest, text, k)
  }

  lemma HereStar(c: char, rest: seq<Item>, text: string)
    ensures Here([Star(c)] + rest, text) <==> StarHere(c, rest, text)
  {
    var items := [Star(c)] + rest;
    BodyTail(Star(c), rest);
    assert Body(items)[1..] == Body(rest);
    if Here(items, text) {
      var j :| 0 <= j <= |text| && Fits(items, text, j);
      var s := text[..j];
      var k :| 0 <= k <= |s| && AllAccepted(c, s[..k]) && InLanguage(Body(items)[1..], s[k..]);
      assert s[..k] == text[..k] && s[k..] == text[k..][..j - k];
      assert Fits(rest, text[k..], j - k);
      assert After(c, rest, text, k);
    }
    if StarHere(c, rest, text) {
      var k :| 0 <= k <= |text| && After(c, rest, text, k);
      var j :| 0 <= j <= |text[k..]| && Fits(rest, text[k..], j);
      var s := text[..k + j];
      assert s[..k] == text[..k] && s[k..] == text[k..][..j];
      assert Fits(items, text, k + j);
    }
  }

  // ----- the code

  /** matchhere: does a prefix of text match? */
  method MatchHere(re: string, text: string) returns (r: bool)
    ensures r <==> Here(Parse(re), text)
    decreases |re|, 0
  {
    hide Here;
    if re == "" {
      HereEmpty(text);
      return true;
    }
    if |re| > 1 && re[1] == '*' {
      HereStar(re[0], Parse(re[2..]), text);
      r := MatchStar(re[0], re[2..], text);
      return;
    }
    if re[0] == '$' && |re| == 1 {
      assert re == "$";
      HereEnd(text);
      return text == "";
    }
    HereSingle(re[0], Parse(re[1..]), text);
    if text != "" && (re[0] == '.' || re[0] == text[0]) {
      r := MatchHere(re[1..], text[1..]);
      return;
    }
    r := false;
  }

  /** matchstar: does a prefix of text match c* followed by re? */
  method MatchStar(c: char, re: string, text: string) returns (r: bool)
    ensures r <==> StarHere(c, Parse(re), text)
    decreases |re|, 1
  {
    hide Here, Parse;
    var i := 0;
    while true
      invariant 0 <= i <= |text| && AllAccepted(c, text[..i])
      invariant forall k :: 0 <= k < i ==> !After(c, Parse(re), text, k)
      decreases |text| - i
    {
      var here := MatchHere(re, text[i..]);
      if here {
        assert After(c, Parse(re), text, i);
        return true;
      }
      assert !After(c, Parse(re), text, i);
      if i == |text| {
        return false;
      }
      if !(text[i] == c || c == '.') {
        Blocked(c, Parse(re), text, i);
        return false;
      }
      assert text[..i + 1] == text[..i] + [text[i]];
      i := i + 1;
    }
  }

  lemma Blocked(c: char, rest: seq<Item>, text: string, i: nat)
    requires i < |text| && !Accepts(c, text[i])
    ensures forall k :: i < k <= |text| ==> !After(c, rest, text, k)
  {
    forall k | i < k <= |text|
      ensures !After(c, rest, text, k)
    {
      assert text[..k][i] == text[i];
    }
  }

  /** match: true exactly if the pattern matches somewhere in the text. */
  method Match(re: string, text: string) returns (r: bool)
    ensures r <==> Matches(re, text)
  {
    hide Here, Parse;
    if re != "" && re[0] == '^' {
      r := MatchHere(re[1..], text);
      return;
    }
    var i := 0;
    while true
      invariant 0 <= i <= |text| && forall k :: 0 <= k < i ==> !Here(Parse(re), text[k..])
      decreases |text| - i
    {
      var here := MatchHere(re, text[i..]);
      if here {
        return true;
      }
      if i == |text| {
        return false;
      }
      i := i + 1;
    }
  }

  // ----- patterns whose meaning is plain

  predicate Plain(re: string) {
    forall k :: 0 <= k < |re| ==> re[k] != '.' && re[k] != '*' && re[k] != '$' && re[k] != '^'
  }

  lemma {:induction false} PlainParse(re: string)
    requires Plain(re)
    ensures |Parse(re)| == |re| && forall k :: 0 <= k < |re| ==> Parse(re)[k] == Single(re[k])
    decreases |re|
  {
    if re != "" {
      PlainParse(re[1..]);
    }
  }

  lemma {:induction false} PlainLanguage(items: seq<Item>, re: string, s: string)
    requires Plain(re) && |items| == |re| && forall k :: 0 <= k < |re| ==> items[k] == Single(re[k])
    ensures InLanguage(items, s) <==> s == re
    decreases |re|
  {
    if re != "" && s != "" {
      PlainLanguage(items[1..], re[1..], s[1..]);
      assert s == [s[0]] + s[1..] && re == [re[0]] + re[1..];
    }
  }

  lemma PlainHere(re: string, text: string)
    requires Plain(re)
    ensures Here(Parse(re), text) <==> re <= text
  {
    var items := Parse(re);
    PlainParse(re);
    assert !Anchored(items);
    forall j | 0 <= j <= |text|
      ensures Fits(items, text, j) <==> text[..j] == re
    {
      PlainLanguage(items, re, text[..j]);
    }
    if re <= text {
      assert Fits(items, text, |re|);
    }
  }

  /** A plain pattern matches exactly the texts that contain it. */
  lemma PlainSearch(re: string, text: string)
    requires Plain(re)
    ensures Matches(re, text) <==> exists i :: 0 <= i <= |text| && re <= text[i..]
  {
    forall i | 0 <= i <= |text|
      ensures Here(Parse(re), text[i..]) <==> re <= text[i..]
    {
      PlainHere(re, text[i..]);
    }
  }

  /** A dot matches any one character. */
  lemma DotMatches(text: string)
    ensures Matches(".", text) <==> text != ""
  {
    assert Parse("") == [];
    assert "."[1..] == "";
    assert Parse(".") == [Single('.')] + [];
    forall i | 0 <= i <= |text|
      ensures Here(Parse("."), text[i..]) <==> i < |text|
    {
      HereSingle('.', [], text[i..]);
      if i < |text| {
        HereEmpty(text[i..][1..]);
      }
    }
    if text != "" {
      assert Here(Parse("."), text[0..]);
    }
  }
}
