/** The regular-expression matcher of src/grep.c, checked against a
    declarative meaning of patterns.

    C strings are modelled as NUL-free sequences; the index just past the end
    plays the part of the terminating NUL. */
module Grep {

  type CString = s: string | forall i :: 0 <= i < |s| ==> s[i] != '\0'

  /** One unit of a pattern: `c`, `.` or `c*` (`.*` is Star('.')). */
  datatype Item = Literal(c: char) | AnyChar | Star(of: char)

  /** What a pattern denotes: a list of items, possibly tied to either end of the text. */
  datatype Pattern = Pattern(fromStart: bool, items: seq<Item>, toEnd: bool)

  /** `re` without its leading `^`, read as items; a final lone `$` is not an item. */
  ghost function Items(re: string): seq<Item>
  {
    if re == "" || re == "$" then []
    else if |re| > 1 && re[1] == '*' then [Star(re[0])] + Items(re[2..])
    else [if re[0] == '.' then AnyChar else Literal(re[0])] + Items(re[1..])
  }

  /** Whether `re` ends in a `$` that stands for the end of the text. */
  ghost predicate TiedToEnd(re: string)
  {
    if re == "" then false
    else if re == "$" then true
    else if |re| > 1 && re[1] == '*' then TiedToEnd(re[2..])
    else TiedToEnd(re[1..])
  }

  ghost function Meaning(re: string): Pattern
  {
    if re != "" && re[0] == '^' then Pattern(true, Items(re[1..]), TiedToEnd(re[1..]))
    else Pattern(false, Items(re), TiedToEnd(re))
  }

  ghost predicate ItemMatches(item: Item, word: string)
  {
    match item
    case Literal(c) => word == [c]
    case AnyChar => |word| == 1
    case Star(c) => c == '.' || forall i :: 0 <= i < |word| ==> word[i] == c
  }

  /** `word` can be cut into consecutive pieces, one for each item. */
  ghost predicate Denotes(items: seq<Item>, word: string)
  {
    if items == [] then word == ""
    else exists cut :: 0 <= cut <= |word| && ItemMatches(items[0], word[..cut]) && Denotes(items[1..], word[cut..])
  }

  /** The substring `text[i..j]` is an occurrence of the pattern. */
  ghost predicate OccursAt(p: Pattern, text: string, i: nat, j: nat)
  {
    && i <= j <= |text|
    && (p.fromStart ==> i == 0)
    && (p.toEnd ==> j == |text|)
    && Denotes(p.items, text[i..j])
  }

  ghost predicate Occurs(p: Pattern, text: string)
  {
    exists i: nat, j: nat :: OccursAt(p, text, i, j)
  }

  /** A prefix of `text` matches the items. */
  ghost predicate MatchesPrefix(items: seq<Item>, toEnd: bool, text: string)
  {
    exists j :: 0 <= j <= |text| && (toEnd ==> j == |text|) && Denotes(items, text[..j])
  }

  lemma PrefixEmpty(toEnd: bool, text: string)
    ensures MatchesPrefix([], toEnd, text) <==> !toEnd || text == ""
  {
    assert Denotes([], text[..0]);
  }

  /** A one-character item takes the first character and leaves the rest. */
  lemma PrefixOfSingle(item: Item, rest: seq<Item>, toEnd: bool, text: string)
    requires !item.Star?
    ensures MatchesPrefix([item] + rest, toEnd, text)
       <==> text != "" && ItemMatches(item, text[..1]) && MatchesPrefix(rest, toEnd, text[1..])
  {
    var items := [item] + rest;
    assert items[0] == item && items[1..] == rest;
    if MatchesPrefix(items, toEnd, text) {
      var j :| 0 <= j <= |text| && (toEnd ==> j == |text|) && Denotes(items, text[..j]);
      var w := text[..j];
      var cut :| 0 <= cut <= |w| && ItemMatches(item, w[..cut]) && Denotes(rest, w[cut..]);
      assert cut == 1 && w[..cut] == text[..1] && w[cut..] == text[1..][..j - 1];
    }
    if text != "" && ItemMatches(item, text[..1]) && MatchesPrefix(rest, toEnd, text[1..]) {
      var j :| 0 <= j <= |text[1..]| && (toEnd ==> j == |text[1..]|) && Denotes(rest, text[1..][..j]);
      var w := text[..j + 1];
      assert w[..1] == text[..1] && w[1..] == text[1..][..j];
      assert Denotes(items, w);
    }
  }

  /** A starred item takes nothing, or one fitting character and then more of the same. */
  lemma PrefixOfStar(c: char, rest: seq<Item>, toEnd: bool, text: string)
    ensures MatchesPrefix([Star(c)] + rest, toEnd, text)
       <==> || MatchesPrefix(rest, toEnd, text)
            || (text != "" && (c == '.' || text[0] == c) && MatchesPrefix([Star(c)] + rest, toEnd, text[1..]))
  {
    var items := [Star(c)] + rest;
    assert items[0] == Star(c) && items[1..] == rest;
    if MatchesPrefix(items, toEnd, text) {
      StarLeft(c, rest, toEnd, text);
    }
    if MatchesPrefix(rest, toEnd, text) {
      var j :| 0 <= j <= |text| && (toEnd ==> j == |text|) && Denotes(rest, text[..j]);
      var w := text[..j];
      assert w[..0] == "" && w[0..] == w;
      assert Denotes(items, w);
    }
    if text != "" && (c == '.' || text[0] == c) && MatchesPrefix(items, toEnd, text[1..]) {
      StarRight(c, rest, toEnd, text);
    }
  }

  lemma StarLeft(c: char, rest: seq<Item>, toEnd: bool, text: string)
    requires MatchesPrefix([Star(c)] + rest, toEnd, text)
    ensures || MatchesPrefix(rest, toEnd, text)
            || (text != "" && (c == '.' || text[0] == c) && MatchesPrefix([Star(c)] + rest, toEnd, text[1..]))
  {
    var items := [Star(c)] + rest;
    var j :| 0 <= j <= |text| && (toEnd ==> j == |text|) && Denotes(items, text[..j]);
    StarTakes(c, rest, text[..j]);
    hide Denotes;
    assert j > 0 ==> text[..j][1..] == text[1..][..j - 1];
  }

  /** What a starred item takes in front of a word is nothing, or a fitting character and more. */
  lemma StarTakes(c: char, rest: seq<Item>, w: string)
    requires Denotes([Star(c)] + rest, w)
    ensures Denotes(rest, w) || (w != "" && (c == '.' || w[0] == c) && Denotes([Star(c)] + rest, w[1..]))
  {
    var items := [Star(c)] + rest;
    assert items[0] == Star(c) && items[1..] == rest;
    var cut :| 0 <= cut <= |w| && ItemMatches(Star(c), w[..cut]) && Denotes(rest, w[cut..]);
    if cut == 0 {
      assert w[cut..] == w;
    } else {
      var v := w[1..];
      assert w[..cut][0] == w[0];
      assert v[..cut - 1] == w[..cut][1..] && v[cut - 1..] == w[cut..];
      assert ItemMatches(items[0], v[..cut - 1]) && Denotes(items[1..], v[cut - 1..]);
    }
  }

  /** Cutting `text[..j + 1]` one later is cutting `text[1..][..j]`, with the first character put back. */
  lemma ShiftCut(text: string, j: nat, cut: nat)
    requires cut <= j < |text|
    ensures text[..j + 1][..cut + 1] == [text[0]] + text[1..][..j][..cut]
    ensures text[..j + 1][cut + 1..] == text[1..][..j][cut..]
  {
    var w, w' := text[1..][..j], text[..j + 1];
    assert |w'| == |w| + 1;
    assert forall k :: 0 <= k < |w| ==> w[k] == w'[k + 1];
  }

  lemma StarRight(c: char, rest: seq<Item>, toEnd: bool, text: string)
    requires text != "" && (c == '.' || text[0] == c)
    requires MatchesPrefix([Star(c)] + rest, toEnd, text[1..])
    ensures MatchesPrefix([Star(c)] + rest, toEnd, text)
  {
    var items := [Star(c)] + rest;
    assert items[0] == Star(c) && items[1..] == rest;
    var tail := text[1..];
    var j :| 0 <= j <= |tail| && (toEnd ==> j == |tail|) && Denotes(items, tail[..j]);
    var w := tail[..j];
    var cut :| 0 <= cut <= |w| && ItemMatches(Star(c), w[..cut]) && Denotes(rest, w[cut..]);
    ShiftCut(text, j, cut);
    assert Denotes(items, text[..j + 1]);
  }

  /** matchhere: does a match of `re` start at the beginning of `text`? */
  method MatchHere(re: CString, text: CString) returns (found: bool)
    ensures found <==> MatchesPrefix(Items(re), TiedToEnd(re), text)
    decreases |re|, 0
  {
    if re == "" {
      PrefixEmpty(false, text);
      return true;
    }
    if |re| > 1 && re[1] == '*' {
      found := MatchStar(re[0], re[2..], text);
      return;
    }
    if re[0] == '$' && |re| == 1 {
      PrefixEmpty(true, text);
      return text == "";
    }
    ghost var item := if re[0] == '.' then AnyChar else Literal(re[0]);
    PrefixOfSingle(item, Items(re[1..]), TiedToEnd(re[1..]), text);
    if text != "" && (re[0] == '.' || re[0] == text[0]) {
      found := MatchHere(re[1..], text[1..]);
      return;
    }
    return false;
  }

  /** matchstar: does a match of `c*` followed by `re` start at the beginning of `text`? */
  method MatchStar(c: char, re: CString, text: CString) returns (found: bool)
    ensures found <==> MatchesPrefix([Star(c)] + Items(re), TiedToEnd(re), text)
    decreases |re|, 1
  {
    var rest: CString := text;
    while true
      invariant MatchesPrefix([Star(c)] + Items(re), TiedToEnd(re), text)
           <==> MatchesPrefix([Star(c)] + Items(re), TiedToEnd(re), rest)
      decreases |rest|
    {
      PrefixOfStar(c, Items(re), TiedToEnd(re), rest);
      var here := MatchHere(re, rest);
      if here {
        return true;
      }
      if rest == "" || (rest[0] != c && c != '.') {
        return false;
      }
      rest := rest[1..];
    }
  }

  /** match: the pattern occurs somewhere in the text. */
  method Match(re: CString, text: CString) returns (found: bool)
    ensures found <==> Occurs(Meaning(re), text)
  {
    ghost var p := Meaning(re);
    if re != "" && re[0] == '^' {
      found := MatchHere(re[1..], text);
      assert text[0..] == text;
      OccursFromHere(p, text, 0);
      return;
    }
    var i := 0;
    while true
      invariant 0 <= i <= |text|
      invariant forall k: nat, j: nat :: k < i ==> !OccursAt(p, text, k, j)
      decreases |text| - i
    {
      var here := MatchHere(re, text[i..]);
      OccursFromHere(p, text, i);
      if here {
        return true;
      }
      if i == |text| {
        return false;
      }
      i := i + 1;
    }
  }

  /** Starting positions are independent: an occurrence at `i` is a prefix match of the rest of the text. */
  lemma OccursFromHere(p: Pattern, text: string, i: nat)
    requires i <= |text| && (p.fromStart ==> i == 0)
    ensures MatchesPrefix(p.items, p.toEnd, text[i..]) <==> exists j: nat :: OccursAt(p, text, i, j)
  {
    if MatchesPrefix(p.items, p.toEnd, text[i..]) {
      var j :| 0 <= j <= |text[i..]| && (p.toEnd ==> j == |text[i..]|) && Denotes(p.items, text[i..][..j]);
      assert text[i..][..j] == text[i..i + j];
      assert OccursAt(p, text, i, i + j);
    }
    if j: nat :| OccursAt(p, text, i, j) {
      assert text[i..][..j - i] == text[i..j];
    }
  }
}
