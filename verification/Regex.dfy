/** The regular expressions of user/grep.c: what a pattern means, and the matcher of Kernighan and Pike. */
module Regex {
  /** One element of a pattern: a character, or any number of it. */
  datatype Item = One(c: char) | Star(c: char)

  /** '.' stands for every character. */
  predicate Accepts(c: char, x: char) { c == '.' || c == x }

  /** A pattern after an initial '^', as its elements; a last '$' is not one of them. */
  ghost function Items(re: string): seq<Item> {
    if re == "" then []
    else if |re| >= 2 && re[1] == '*' then [Star(re[0])] + Items(re[2..])
    else if re == "$" then []
    else [One(re[0])] + Items(re[1..])
  }

  /** The pattern ends in a '$' that anchors it. */
  ghost predicate Anchored(re: string) {
    if re == "" then false
    else if |re| >= 2 && re[1] == '*' then Anchored(re[2..])
    else if re == "$" then true
    else Anchored(re[1..])
  }

  ghost predicate Matches(item: Item, s: string) {
    match item
    case One(c) => |s| == 1 && Accepts(c, s[0])
    case Star(c) => forall i :: 0 <= i < |s| ==> Accepts(c, s[i])
  }

  /** cuts divides s into one piece for each item. */
  ghost predicate Divides(items: seq<Item>, s: string, cuts: seq<nat>) {
    && |cuts| == |items| + 1 && cuts[0] == 0 && cuts[|items|] == |s|
    && (forall i, j :: 0 <= i <= j <= |items| ==> cuts[i] <= cuts[j])
    && (forall i :: 0 <= i < |items| ==> Matches(items[i], s[cuts[i]..cuts[i + 1]]))
  }

  /** The language of a pattern: strings that divide into pieces its elements match. */
  ghost predicate InLanguage(items: seq<Item>, s: string) { exists cuts :: Divides(items, s, cuts) }

  /** Some prefix of text, all of it if the pattern is anchored at the end, is in the pattern's language. */
  ghost predicate Here(re: string, text: string) {
    exists j :: 0 <= j <= |text| && InLanguage(Items(re), text[..j]) && (Anchored(re) ==> j == |text|)
  }

  /** Some substring of text is in the pattern's language: a prefix if the pattern starts with '^', a suffix
      if it ends in an anchoring '$'. */
  ghost predicate Found(re: string, text: string) {
    if re != "" && re[0] == '^' then Here(re[1..], text)
    else exists i, j :: 0 <= i <= j <= |text| && InLanguage(Items(re), text[i..j]) && (Anchored(re) ==> j == |text|)
  }

  // ----- languages

  lemma {:induction false} NoItems(s: string)
    ensures InLanguage([], s) <==> s == ""
  {
    if s == "" { assert Divides([], s, [0]); }
  }

  /** The first piece taken off. */
  lemma {:induction false} FirstOff(items: seq<Item>, s: string, cuts: seq<nat>) returns (rest: seq<nat>)
    requires items != [] && Divides(items, s, cuts)
    ensures cuts[1] <= |s| && Matches(items[0], s[..cuts[1]]) && Divides(items[1..], s[cuts[1]..], rest)
  {
    var k, tail := cuts[1], items[1..];
    assert cuts[0] <= k <= cuts[|items|];
    assert s[cuts[0]..cuts[0 + 1]] == s[..k];
    rest := seq(|items|, i requires 0 <= i < |items| => ShiftDown(cuts, k, i));
    forall i | 0 <= i < |tail| ensures Matches(tail[i], s[k..][rest[i]..rest[i + 1]]) {
      assert k <= cuts[i + 1] <= cuts[i + 2] <= |s| by { assert cuts[i + 2] <= cuts[|items|]; }
      assert s[k..][rest[i]..rest[i + 1]] == s[cuts[i + 1]..cuts[i + 1 + 1]];
      assert Matches(items[i + 1], s[cuts[i + 1]..cuts[i + 1 + 1]]);
    }
  }

  ghost function ShiftDown(cuts: seq<nat>, k: nat, i: nat): nat
    requires i + 1 < |cuts|
  {
    if cuts[i + 1] >= k then cuts[i + 1] - k else 0
  }

  /** A first piece put on. */
  lemma {:induction false} FirstOn(item: Item, items: seq<Item>, s: string, k: nat, rest: seq<nat>)
    requires k <= |s| && Matches(item, s[..k]) && Divides(items, s[k..], rest)
    ensures InLanguage([item] + items, s)
  {
    var all := [item] + items;
    var cuts: seq<nat> := [0] + seq(|rest|, i requires 0 <= i < |rest| => rest[i] + k);
    forall i | 0 <= i < |all| ensures Matches(all[i], s[cuts[i]..cuts[i + 1]]) {
      if i == 0 {
        assert s[cuts[0]..cuts[1]] == s[..k];
      } else {
        assert rest[i - 1] <= rest[i] <= |s[k..]| by { assert rest[i] <= rest[|items|]; }
        assert s[cuts[i]..cuts[i + 1]] == s[k..][rest[i - 1]..rest[i - 1 + 1]];
        assert Matches(items[i - 1], s[k..][rest[i - 1]..rest[i - 1 + 1]]);
      }
    }
    assert Divides(all, s, cuts);
  }

  /** The language of a concatenation. */
  lemma {:induction false} Concatenation(item: Item, items: seq<Item>, s: string)
    ensures InLanguage([item] + items, s) <==> exists k :: 0 <= k <= |s| && Matches(item, s[..k]) && InLanguage(items,
          s[k..])
  {
    var all := [item] + items;
    if InLanguage(all, s) {
      var cuts :| Divides(all, s, cuts);
      var rest := FirstOff(all, s, cuts);
      assert all[1..] == items;
      assert InLanguage(items, s[cuts[1]..]);
    }
    if exists k :: 0 <= k <= |s| && Matches(item, s[..k]) && InLanguage(items, s[k..]) {
      var k :| 0 <= k <= |s| && Matches(item, s[..k]) && InLanguage(items, s[k..]);
      var rest :| Divides(items, s[k..], rest);
      FirstOn(item, items, s, k, rest);
    }
  }

  // ----- matching at the start

  lemma {:induction false} HereCons(re: string, item: Item, rest: string, text: string)
    requires Items(re) == [item] + Items(rest) && Anchored(re) == Anchored(rest)
    ensures Here(re, text) <==> exists k :: 0 <= k <= |text| && Matches(item, text[..k]) && Here(rest, text[k..])
  {
    if Here(re, text) { HereSplit(re, item, rest, text); }
    if exists k :: 0 <= k <= |text| && Matches(item, text[..k]) && Here(rest, text[k..]) {
      var k :| 0 <= k <= |text| && Matches(item, text[..k]) && Here(rest, text[k..]);
      HereJoin(re, item, rest, text, k);
    }
  }

  lemma {:induction false} HereSplit(re: string, item: Item, rest: string, text: string)
    requires Items(re) == [item] + Items(rest) && Anchored(re) == Anchored(rest) && Here(re, text)
    ensures exists k :: 0 <= k <= |text| && Matches(item, text[..k]) && Here(rest, text[k..])
  {
    hide Items, Anchored, Matches, InLanguage;
    var j :| 0 <= j <= |text| && InLanguage(Items(re), text[..j]) && (Anchored(re) ==> j == |text|);
    var s := text[..j];
    Concatenation(item, Items(rest), s);
    var k :| 0 <= k <= |s| && Matches(item, s[..k]) && InLanguage(Items(rest), s[k..]);
    assert s[..k] == text[..k] && s[k..] == text[k..][..j - k];
    assert Here(rest, text[k..]);
  }

  lemma {:induction false} HereJoin(re: string, item: Item, rest: string, text: string, k: nat)
    requires Items(re) == [item] + Items(rest) && Anchored(re) == Anchored(rest)
    requires k <= |text| && Matches(item, text[..k]) && Here(rest, text[k..])
    ensures Here(re, text)
  {
    hide Items, Anchored, Matches, InLanguage;
    var t := text[k..];
    var j :| 0 <= j <= |t| && InLanguage(Items(rest), t[..j]) && (Anchored(rest) ==> j == |t|);
    var s := text[..k + j];
    assert s[..k] == text[..k] && s[k..] == t[..j];
    Concatenation(item, Items(rest), s);
    assert InLanguage(Items(re), text[..k + j]);
  }

  lemma {:induction false} HereEnd(text: string)
    ensures Here("", text) && (Here("$", text) <==> text == "")
  {
    NoItems("");
    assert text[..0] == "";
    forall j | 0 <= j <= |text| ensures InLanguage([], text[..j]) <==> j == 0 {
      NoItems(text[..j]);
    }
    assert Items("$") == [] && Anchored("$");
  }

  lemma {:induction false} HereOne(re: string, text: string)
    requires re != "" && re != "$" && !(|re| >= 2 && re[1] == '*')
    ensures Here(re, text) <==> text != "" && Accepts(re[0], text[0]) && Here(re[1..], text[1..])
  {
    HereCons(re, One(re[0]), re[1..], text);
    hide Here;
    if text != "" && Accepts(re[0], text[0]) { assert Matches(One(re[0]), text[..1]); }
  }

  // ----- the matcher

  /** matchhere. */
  method MatchHere(re: string, text: string) returns (b: bool)
    ensures b == Here(re, text)
    decreases |re|, 0
  {
    hide Here;
    HereEnd(text);
    if re == "" {
      return true;
    }
    if |re| >= 2 && re[1] == '*' {
      HereCons(re, Star(re[0]), re[2..], text);
      b := MatchStar(re[0], re[2..], text);
      return;
    }
    if re[0] == '$' && |re| == 1 {
      assert re == "$";
      return text == "";
    }
    assert re != "$";
    HereOne(re, text);
    if text != "" && (re[0] == '.' || re[0] == text[0]) {
      b := MatchHere(re[1..], text[1..]);
      return;
    }
    return false;
  }

  /** matchstar: some number of c, and then re. */
  method MatchStar(c: char, re: string, text: string) returns (b: bool)
    ensures b == exists k :: 0 <= k <= |text| && Matches(Star(c), text[..k]) && Here(re, text[k..])
    decreases |re|, 1
  {
    hide Here;
    var k := 0;
    while true
      invariant 0 <= k <= |text| && Matches(Star(c), text[..k])
      invariant forall i :: 0 <= i < k ==> !Here(re, text[i..])
      decreases |text| - k
    {
      b := MatchHere(re, text[k..]);
      if b {
        return;
      }
      if !(k < |text| && (text[k] == c || c == '.')) {
        forall i | k < i <= |text| ensures !Matches(Star(c), text[..i]) {
          assert text[..i][k] == text[k];
        }
        return;
      }
      k := k + 1;
    }
  }

  /** A match somewhere is a match at the start of some suffix. */
  lemma {:induction false} Somewhere(re: string, text: string)
    requires !(re != "" && re[0] == '^')
    ensures Found(re, text) <==> exists i :: 0 <= i <= |text| && Here(re, text[i..])
  {
    hide Items, Anchored, InLanguage;
    if Found(re, text) {
      var i, j :| 0 <= i <= j <= |text| && InLanguage(Items(re), text[i..j]) && (Anchored(re) ==> j == |text|);
      assert text[i..][..j - i] == text[i..j];
      assert Here(re, text[i..]);
    }
    if exists i :: 0 <= i <= |text| && Here(re, text[i..]) {
      var i :| 0 <= i <= |text| && Here(re, text[i..]);
      var t := text[i..];
      var j :| 0 <= j <= |t| && InLanguage(Items(re), t[..j]) && (Anchored(re) ==> j == |t|);
      assert t[..j] == text[i..i + j];
    }
  }

  /** match. */
  method Match(re: string, text: string) returns (b: bool)
    ensures b == Found(re, text)
  {
    hide Here;
    if re != "" && re[0] == '^' {
      b := MatchHere(re[1..], text);
      return;
    }
    Somewhere(re, text);
    hide Found;
    var i := 0;
    while true
      invariant 0 <= i <= |text| && forall k :: 0 <= k < i ==> !Here(re, text[k..])
      decreases |text| - i
    {
      b := MatchHere(re, text[i..]);
      if b || i == |text| {
        return;
      }
      i := i + 1;
    }
  }
}
