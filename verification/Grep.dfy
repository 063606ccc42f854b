/**
  grep's regular-expression matcher against its declarative meaning. Patterns and texts are the
  characters before the terminating NUL; reading the NUL is running off the end of the sequence.
 */
module Grep {

  /** What a pattern is made of: c*, a single character, and a final $. */
  datatype Item = Star(c: char) | One(c: char) | End

  function Items(re: string): (items: seq<Item>)
    decreases |re|
  {
    if re == [] then []
    else if |re| > 1 && re[1] == '*' then [Star(re[0])] + Items(re[2..])
    else if re == "$" then [End]
    else [One(re[0])] + Items(re[1..])
  }

  function Written(item: Item): string {
    match item
    case Star(c) => [c, '*']
    case One(c) => [c]
    case End => "$"
  }

  ghost function Unparse(items: seq<Item>): string {
    if items == [] then [] else Written(items[0]) + Unparse(items[1..])
  }

  /**
    What makes a sequence of items a reading of a pattern: written down it is the pattern, a
    star behind a character belongs to it, and a $ on its own is End exactly in the last place.
   */
  ghost predicate Reading(items: seq<Item>, re: string) {
    && Unparse(items) == re
    && (forall k :: 0 <= k < |items| - 1 && items[k].One? ==> Written(items[k + 1])[0] != '*')
    && (forall k :: 0 <= k < |items| - 1 ==> !items[k].End?)
    && (items != [] ==> items[|items| - 1] != One('$'))
  }

  /** The matcher's items are a reading of the pattern. */
  lemma {:induction false} ItemsRead(re: string)
    ensures Reading(Items(re), re)
    decreases |re|
  {
    var items := Items(re);
    if re != [] && re != "$" {
      var n := if |re| > 1 && re[1] == '*' then 2 else 1;
      ItemsRead(re[n..]);
      assert items[1..] == Items(re[n..]) && re == re[..n] + re[n..];
      ReadingCons(items[0], Items(re[n..]), re[n..]);
      assert Written(items[0]) == re[..n];
    }
  }

  lemma ReadingCons(item: Item, rest: seq<Item>, re: string)
    requires Reading(rest, re) && !item.End? && (item.One? && re != [] ==> re[0] != '*') && (rest == [] ==> item != One('$'))
    ensures Reading([item] + rest, Written(item) + re)
  {
    var items := [item] + rest;
    assert items[1..] == rest;
    assert rest != [] ==> Written(rest[0])[0] == re[0];
  }

  /** And there is no other reading. */
  lemma {:induction false} OneReading(items: seq<Item>, re: string)
    requires Reading(items, re)
    ensures items == Items(re)
    decreases |items|
  {
    if items != [] {
      var rest := items[1..];
      var tail := Unparse(rest);
      assert re == Written(items[0]) + tail;
      if items[0].End? {
        assert items == [End];
      } else {
        assert rest != [] ==> Written(rest[0])[0] == tail[0];
        forall k | 0 <= k < |rest| - 1 ensures !rest[k].End? && (rest[k].One? ==> Written(rest[k + 1])[0] != '*') {
          assert rest[k] == items[k + 1] && rest[k + 1] == items[k + 2];
        }
        OneReading(rest, tail);
        assert items == [items[0]] + rest;
        FirstItem(items[0], rest, re, tail);
      }
    }
  }

  lemma FirstItem(item: Item, rest: seq<Item>, re: string, tail: string)
    requires !item.End? && re == Written(item) + tail && rest == Items(tail) && (rest == [] ==> tail == [] && item != One('$'))
    requires item.One? && tail != [] ==> tail[0] != '*'
    ensures Items(re) == [item] + rest
  {
    assert re[|Written(item)|..] == tail;
    if rest == [] { assert re == Written(item); }
  }

  predicate CharFits(c: char, x: char) {
    c == '.' || c == x
  }

  /** The strings an item stands for; a final $ stands for the empty one. */
  ghost predicate ItemFits(item: Item, piece: string) {
    match item
    case Star(c) => forall i :: 0 <= i < |piece| ==> CharFits(c, piece[i])
    case One(c) => |piece| == 1 && CharFits(c, piece[0])
    case End => piece == []
  }

  ghost function Concat(pieces: seq<string>): string {
    if pieces == [] then [] else pieces[0] + Concat(pieces[1..])
  }

  /** `pieces` splits the beginning of the text, all of it if the pattern ends in $, one piece an item. */
  ghost predicate Split(items: seq<Item>, pieces: seq<string>, text: string) {
    && |pieces| == |items|
    && (forall k :: 0 <= k < |items| ==> ItemFits(items[k], pieces[k]))
    && Concat(pieces) <= text
    && (items != [] && items[|items| - 1].End? ==> Concat(pieces) == text)
  }

  /** The items match at the beginning of the text. */
  ghost predicate MatchesHere(items: seq<Item>, text: string) {
    exists pieces: seq<string> :: Split(items, pieces, text)
  }

  /** The pattern matches: at the beginning if it starts with ^, else anywhere. */
  ghost predicate Matches(re: string, text: string) {
    if re != [] && re[0] == '^' then MatchesHere(Items(re[1..]), text)
    else exists k :: 0 <= k <= |text| && MatchesHere(Items(re), text[k..])
  }

  // ------------------------------------------------------------------ item by item

  lemma SplitCons(item: Item, rest: seq<Item>, pieces: seq<string>, text: string, k: nat)
    requires k <= |text| && Split(rest, pieces, text[k..]) && ItemFits(item, text[..k]) && !item.End?
    ensures Split([item] + rest, [text[..k]] + pieces, text)
  {
    var all := [text[..k]] + pieces;
    assert all[1..] == pieces && text == text[..k] + text[k..];
  }

  lemma SplitHead(item: Item, rest: seq<Item>, pieces: seq<string>, text: string)
    requires Split([item] + rest, pieces, text)
    ensures |pieces| > 0 && |pieces[0]| <= |text| && pieces[0] == text[..|pieces[0]|] && ItemFits(item, pieces[0])
    ensures !item.End? ==> Split(rest, pieces[1..], text[|pieces[0]|..])
  {
    var items, n := [item] + rest, |pieces[0]|;
    assert ItemFits(items[0], pieces[0]);
    assert Concat(pieces) == pieces[0] + Concat(pieces[1..]);
    assert pieces[0] <= text;
    assert text == text[..n] + text[n..];
    forall k | 0 <= k < |rest| ensures ItemFits(rest[k], pieces[1..][k]) {
      assert ItemFits(items[k + 1], pieces[k + 1]);
    }
    assert rest != [] ==> items[|items| - 1] == rest[|rest| - 1];
  }

  lemma MatchesEmpty(text: string)
    ensures MatchesHere([], text)
  {
    assert Split([], [], text);
  }

  lemma MatchesEnd(text: string)
    ensures MatchesHere([End], text) <==> text == []
  {
    if text == [] {
      assert Concat([""]) == "" by { assert [""][1..] == []; }
      assert Split([End], [""], text);
    }
    if MatchesHere([End], text) {
      var pieces :| Split([End], pieces, text);
      var items := [End];
      assert items[|items| - 1].End? && ItemFits(items[0], pieces[0]);
      assert pieces[1..] == [] && Concat(pieces) == pieces[0] + Concat([]);
    }
  }

  lemma MatchesOne(c: char, rest: seq<Item>, text: string)
    ensures MatchesHere([One(c)] + rest, text) <==> text != [] && CharFits(c, text[0]) && MatchesHere(rest, text[1..])
  {
    if text != [] && CharFits(c, text[0]) && MatchesHere(rest, text[1..]) {
      var pieces :| Split(rest, pieces, text[1..]);
      SplitCons(One(c), rest, pieces, text, 1);
    }
    if MatchesHere([One(c)] + rest, text) {
      var pieces :| Split([One(c)] + rest, pieces, text);
      SplitHead(One(c), rest, pieces, text);
    }
  }

  /** The first `k` characters of the text fit the starred character. */
  ghost predicate Run(c: char, text: string, k: nat) {
    k <= |text| && forall i :: 0 <= i < k ==> CharFits(c, text[i])
  }

  ghost predicate StarAt(c: char, rest: seq<Item>, text: string, k: nat) {
    Run(c, text, k) && MatchesHere(rest, text[k..])
  }

  ghost predicate StarSomewhere(c: char, rest: seq<Item>, text: string) {
    exists k :: 0 <= k <= |text| && StarAt(c, rest, text, k)
  }

  lemma MatchesStar(c: char, rest: seq<Item>, text: string)
    ensures MatchesHere([Star(c)] + rest, text) <==> StarSomewhere(c, rest, text)
  {
    if k :| 0 <= k <= |text| && StarAt(c, rest, text, k) {
      var pieces :| Split(rest, pieces, text[k..]);
      SplitCons(Star(c), rest, pieces, text, k);
    }
    if MatchesHere([Star(c)] + rest, text) {
      var pieces :| Split([Star(c)] + rest, pieces, text);
      SplitHead(Star(c), rest, pieces, text);
      assert StarAt(c, rest, text, |pieces[0]|);
    }
  }

  // ------------------------------------------------------------------- the matcher

  /** match: true exactly when the pattern matches the text. */
  method Match(re: string, text: string) returns (r: bool)
    ensures r == Matches(re, text)
  {
    if re != [] && re[0] == '^' {
      r := MatchHere(re[1..], text);
      return;
    }
    var k := 0;
    while true
      invariant 0 <= k <= |text| && forall j :: 0 <= j < k ==> !MatchesHere(Items(re), text[j..])
      decreases |text| - k
    {
      var here := MatchHere(re, text[k..]);
      if here {
        return true;
      }
      if k == |text| {
        return false;
      }
      k := k + 1;
    }
  }

  /** matchhere: the pattern at the beginning of the text. */
  method MatchHere(re: string, text: string) returns (r: bool)
    ensures r == MatchesHere(Items(re), text)
    decreases |re|, 0
  {
    hide MatchesHere;
    if re == [] {
      MatchesEmpty(text);
      return true;
    }
    if |re| > 1 && re[1] == '*' {
      MatchesStar(re[0], Items(re[2..]), text);
      assert Items(re) == [Star(re[0])] + Items(re[2..]);
      r := MatchStar(re[0], re[2..], text);
      return;
    }
    if re[0] == '$' && |re| == 1 {
      MatchesEnd(text);
      return text == [];
    }
    MatchesOne(re[0], Items(re[1..]), text);
    if text != [] && (re[0] == '.' || re[0] == text[0]) {
      r := MatchHere(re[1..], text[1..]);
      return;
    }
    return false;
  }

  /** matchstar: some number of characters that fit, then the rest of the pattern. */
  method MatchStar(c: char, re: string, text: string) returns (r: bool)
    ensures r <==> StarSomewhere(c, Items(re), text)
    decreases |re|, 1
  {
    hide MatchesHere;
    var k := 0;
    while true
      invariant 0 <= k <= |text| && Run(c, text, k)
      invariant forall j :: 0 <= j < k ==> !StarAt(c, Items(re), text, j)
      decreases |text| - k
    {
      var here := MatchHere(re, text[k..]);
      if here {
        assert StarAt(c, Items(re), text, k);
        return true;
      }
      if !(k < |text| && (text[k] == c || c == '.')) {
        return false;
      }
      k := k + 1;
    }
  }

  // ------------------------------------------------------------- what patterns mean

  /** A word of plain characters and dots. */
  ghost predicate NoOperators(w: string) {
    forall i :: 0 <= i < |w| ==> w[i] != '*' && w[i] != '$' && w[i] != '^'
  }

  /** The word is in the text at position `k`, a dot standing for any character. */
  ghost predicate OccursAt(w: string, text: string, k: nat) {
    k + |w| <= |text| && forall i :: 0 <= i < |w| ==> w[i] == '.' || w[i] == text[k + i]
  }

  lemma {:induction false} WordHere(w: string, text: string)
    requires NoOperators(w)
    ensures MatchesHere(Items(w), text) <==> OccursAt(w, text, 0)
    decreases |w|
  {
    hide MatchesHere;
    if w == [] {
      MatchesEmpty(text);
    } else {
      assert w != "$" by { assert w[0] != '$'; }
      assert Items(w) == [One(w[0])] + Items(w[1..]);
      MatchesOne(w[0], Items(w[1..]), text);
      if text != [] {
        WordHere(w[1..], text[1..]);
        OccursFrom(w, text);
      }
    }
  }

  lemma OccursFrom(w: string, text: string)
    requires w != [] && text != []
    ensures OccursAt(w, text, 0) <==> (w[0] == '.' || w[0] == text[0]) && OccursAt(w[1..], text[1..], 0)
  {
    if (w[0] == '.' || w[0] == text[0]) && OccursAt(w[1..], text[1..], 0) {
      forall i | 0 <= i < |w| ensures w[i] == '.' || w[i] == text[0 + i] {
        if i > 0 { assert w[1..][i - 1] == '.' || w[1..][i - 1] == text[1..][0 + (i - 1)]; }
      }
    }
    if OccursAt(w, text, 0) {
      forall i | 0 <= i < |w[1..]| ensures w[1..][i] == '.' || w[1..][i] == text[1..][0 + i] {
        assert w[i + 1] == '.' || w[i + 1] == text[0 + (i + 1)];
      }
    }
  }

  /** grep of a plain word finds it exactly in the lines that hold it. */
  lemma WordSearch(w: string, text: string)
    requires NoOperators(w)
    ensures Matches(w, text) <==> exists k: nat :: OccursAt(w, text, k)
  {
    hide MatchesHere, Items;
    forall k | 0 <= k <= |text| ensures MatchesHere(Items(w), text[k..]) <==> OccursAt(w, text, k) {
      WordHere(w, text[k..]);
      OccursShift(w, text, k);
    }
    assert w == [] || w[0] != '^';
    if k: nat :| OccursAt(w, text, k) {
      assert MatchesHere(Items(w), text[k..]);
    }
  }

  lemma OccursShift(w: string, text: string, k: nat)
    requires k <= |text|
    ensures OccursAt(w, text[k..], 0) <==> OccursAt(w, text, k)
  {
    assert forall i :: 0 <= i < |text| - k ==> text[k..][i] == text[k + i];
  }

  lemma {:induction false} WordThenEnd(w: string, text: string)
    requires NoOperators(w)
    ensures MatchesHere(Items(w + "$"), text) <==> |w| == |text| && OccursAt(w, text, 0)
    decreases |w|
  {
    hide MatchesHere;
    if w == [] {
      assert w + "$" == "$";
      MatchesEnd(text);
    } else {
      var re := w + "$";
      assert re[1] != '*' by { assert |w| > 1 ==> re[1] == w[1]; }
      assert re[1..] == w[1..] + "$";
      assert Items(re) == [One(w[0])] + Items(w[1..] + "$");
      MatchesOne(w[0], Items(w[1..] + "$"), text);
      if text != [] {
        WordThenEnd(w[1..], text[1..]);
        OccursFrom(w, text);
      }
    }
  }

  /** Between ^ and $ it is the whole line. */
  lemma WholeLine(w: string, text: string)
    requires NoOperators(w)
    ensures Matches("^" + w + "$", text) <==> |w| == |text| && OccursAt(w, text, 0)
  {
    hide MatchesHere, Items;
    var re := "^" + w + "$";
    assert re[0] == '^' && re[1..] == w + "$";
    WordThenEnd(w, text);
  }

  /** ^c*$ is a line of that character alone, and any line if it is a dot. */
  lemma StarLine(c: char, text: string)
    ensures Matches("^" + [c, '*', '$'], text) <==> forall i :: 0 <= i < |text| ==> c == '.' || c == text[i]
  {
    hide MatchesHere;
    var re := "^" + [c, '*', '$'];
    assert re[0] == '^' && re[1..] == [c, '*', '$'] && re[1..][2..] == "$";
    assert Items(re[1..]) == [Star(c)] + [End];
    MatchesStar(c, [End], text);
    forall k | 0 <= k <= |text| ensures MatchesHere([End], text[k..]) <==> k == |text| {
      MatchesEnd(text[k..]);
    }
    if forall i :: 0 <= i < |text| ==> c == '.' || c == text[i] {
      assert StarAt(c, [End], text, |text|);
    }
  }
}
