/** Laws of grep's patterns (src/grep.c): how the text of a pattern is read, and
    what the parts of a pattern mean in terms of each other. */
module GrepLaws {

  import opened Grep

  // ---- How a pattern is read -----------------------------------------------------------------------

  /** How an item is written. */
  ghost function Written(item: Item): (w: string)
    ensures 1 <= |w| <= 2
  {
    match item
    case Literal(c) => [c]
    case AnyChar => "."
    case Star(c) => [c, '*']
  }

  ghost function WrittenAll(items: seq<Item>): string { if items == [] then "" else Written(items[0]) + WrittenAll(items[1..]) }

  ghost function Ending(toEnd: bool): string { if toEnd then "$" else "" }

  /** Items that a pattern is read as: a period is any character, a star belongs to the character before it, and a dollar
      sign at the end is the end of the text. */
  ghost predicate Proper(items: seq<Item>, toEnd: bool)
  {
    items == [] || (ProperFirst(items[0], items[1..], toEnd) && Proper(items[1..], toEnd))
  }

  ghost predicate ProperFirst(item: Item, rest: seq<Item>, toEnd: bool)
  {
    && item != Literal('.')
    && (!item.Star? && rest != [] ==> Written(rest[0])[0] != '*')
    && (item == Literal('$') ==> rest != [] || toEnd)
  }

  lemma WrittenCons(item: Item, rest: seq<Item>, toEnd: bool)
    ensures WrittenAll([item] + rest) == Written(item) + WrittenAll(rest)
    ensures Proper([item] + rest, toEnd) <==> ProperFirst(item, rest, toEnd) && Proper(rest, toEnd)
  {
    assert ([item] + rest)[1..] == rest;
  }

  /** The first item is written with the first character, and its star if that follows. */
  lemma ReadFirst(re: string) returns (item: Item, n: nat)
    requires re != "" && re != "$"
    ensures 1 <= n <= |re| && Items(re) == [item] + Items(re[n..]) && TiedToEnd(re) == TiedToEnd(re[n..])
    ensures Written(item) == re[..n] && item != Literal('.')
    ensures !item.Star? ==> n == 1 && (|re| > 1 ==> re[1] != '*')
  {
    item, n := Items(re)[0], if |re| > 1 && re[1] == '*' then 2 else 1;
  }

  lemma {:induction false} ItemsAreRead(re: string)
    ensures re == WrittenAll(Items(re)) + Ending(TiedToEnd(re)) && Proper(Items(re), TiedToEnd(re))
    decreases |re|
  {
    if re != "" && re != "$" {
      var item, n := ReadFirst(re);
      hide Items, TiedToEnd, WrittenAll, Proper;
      var rest, toEnd := Items(re[n..]), TiedToEnd(re);
      ItemsAreRead(re[n..]);
      WrittenCons(item, rest, toEnd);
      assert re == re[..n] + re[n..];
      WrittenFirst(rest);
      assert rest != [] ==> re[n..][0] == Written(rest[0])[0];
    }
  }

  lemma WrittenFirst(items: seq<Item>)
    ensures items == [] <==> WrittenAll(items) == ""
    ensures items != [] ==> WrittenAll(items)[0] == Written(items[0])[0]
  {
  }

  /** A text that begins with a properly written item is read as that item first. */
  lemma ReadItem(item: Item, rest: string)
    requires item != Literal('.') && (!item.Star? && rest != "" ==> rest[0] != '*') && (item == Literal('$') ==> rest != "")
    ensures Items(Written(item) + rest) == [item] + Items(rest) && TiedToEnd(Written(item) + rest) == TiedToEnd(rest)
  {
    var re := Written(item) + rest;
    assert re[|Written(item)|..] == rest;
  }

  lemma {:induction false} ItemsAreAll(items: seq<Item>, toEnd: bool)
    requires Proper(items, toEnd)
    ensures Items(WrittenAll(items) + Ending(toEnd)) == items && TiedToEnd(WrittenAll(items) + Ending(toEnd)) == toEnd
    decreases |items|
  {
    if items != [] {
      var item, rest := items[0], items[1..];
      assert items == [item] + rest;
      WrittenCons(item, rest, toEnd);
      hide Items, TiedToEnd, WrittenAll, Proper;
      ItemsAreAll(rest, toEnd);
      WrittenFirst(rest);
      ReadItem(item, WrittenAll(rest) + Ending(toEnd));
      assert Written(item) + WrittenAll(rest) + Ending(toEnd) == Written(item) + (WrittenAll(rest) + Ending(toEnd));
    }
  }

  /** Every pattern is read in exactly one way. */
  lemma ItemsIff(re: string, items: seq<Item>, toEnd: bool)
    ensures Items(re) == items && TiedToEnd(re) == toEnd <==> re == WrittenAll(items) + Ending(toEnd) && Proper(items, toEnd)
  {
    hide Items, TiedToEnd, WrittenAll, Proper, Ending;
    ItemsAreRead(re);
    if re == WrittenAll(items) + Ending(toEnd) && Proper(items, toEnd) {
      ItemsAreAll(items, toEnd);
    }
  }

  // ---- What it means ---------------------------------------------------------------------------------------

  /** A starred character takes nothing, or what the character itself takes and then more of the same; a period takes what
      some character takes. */
  lemma StarIsRepeat(c: char, w: string)
    ensures var one := if c == '.' then AnyChar else Literal(c);
            ItemMatches(Star(c), w) <==> w == "" || (ItemMatches(one, w[..1]) && ItemMatches(Star(c), w[1..]))
    ensures ItemMatches(AnyChar, w) <==> exists x: char :: ItemMatches(Literal(x), w)
  {
    if w != "" {
      assert w == [w[0]] + w[1..];
    }
    if |w| == 1 {
      assert w == [w[0]];
      assert ItemMatches(Literal(w[0]), w);
    }
  }

  ghost function Literals(s: string): seq<Item> { seq(|s|, k requires 0 <= k < |s| => Literal(s[k])) }

  lemma {:induction false} LiteralsDenote(s: string, w: string)
    ensures Denotes(Literals(s), w) <==> w == s
    decreases |s|
  {
    var items := Literals(s);
    if s != "" {
      assert items[1..] == Literals(s[1..]);
      if Denotes(items, w) {
        var cut :| 0 <= cut <= |w| && ItemMatches(items[0], w[..cut]) && Denotes(items[1..], w[cut..]);
        LiteralsDenote(s[1..], w[cut..]);
        assert w == w[..cut] + w[cut..] && s == [s[0]] + s[1..];
      }
      if w == s {
        LiteralsDenote(s[1..], w[1..]);
        assert ItemMatches(items[0], w[..1]) && Denotes(items[1..], w[1..]);
      }
    }
  }

  predicate NoneOf(s: string, chars: string) { forall i :: 0 <= i < |s| ==> s[i] !in chars }

  lemma {:induction false} PlainProper(s: string, toEnd: bool)
    requires NoneOf(s, ".*$")
    ensures WrittenAll(Literals(s)) == s && Proper(Literals(s), toEnd)
    decreases |s|
  {
    if s != "" {
      var rest := Literals(s[1..]);
      PlainProper(s[1..], toEnd);
      assert Literals(s) == [Literal(s[0])] + rest;
      WrittenCons(Literal(s[0]), rest, toEnd);
      hide WrittenAll, Proper;
      assert rest != [] ==> Written(rest[0])[0] == s[1];
      assert s == [s[0]] + s[1..];
    }
  }

  lemma PlainRead(s: string, fromStart: bool, toEnd: bool)
    requires NoneOf(s, ".*$^")
    ensures Meaning((if fromStart then "^" else "") + s + Ending(toEnd)) == Pattern(fromStart, Literals(s), toEnd)
  {
    var re, body := (if fromStart then "^" else "") + s + Ending(toEnd), s + Ending(toEnd);
    PlainProper(s, toEnd);
    ItemsAreAll(Literals(s), toEnd);
    hide Items, TiedToEnd, WrittenAll, Proper;
    assert if fromStart then re[0] == '^' && re[1..] == body else re == body && (re == "" || re[0] != '^');
  }

  /** s stands at position i of the text, at its start or end if so tied. */
  ghost predicate Found(s: string, text: string, fromStart: bool, toEnd: bool, i: nat)
  {
    i + |s| <= |text| && text[i..i + |s|] == s && (fromStart ==> i == 0) && (toEnd ==> i + |s| == |text|)
  }

  /** A pattern without special characters is searched for as it stands: anywhere, after a caret at the start of the text,
      and before a dollar sign at its end. */
  lemma PlainIsSubstring(s: string, text: string, fromStart: bool, toEnd: bool)
    requires NoneOf(s, ".*$^")
    ensures Occurs(Meaning((if fromStart then "^" else "") + s + (if toEnd then "$" else "")), text)
       <==> exists i: nat :: Found(s, text, fromStart, toEnd, i)
  {
    PlainRead(s, fromStart, toEnd);
    hide Meaning, Denotes, Literals;
    var p := Pattern(fromStart, Literals(s), toEnd);
    if i: nat, j: nat :| OccursAt(p, text, i, j) {
      LiteralsDenote(s, text[i..j]);
      assert Found(s, text, fromStart, toEnd, i);
    }
    if i: nat :| Found(s, text, fromStart, toEnd, i) {
      LiteralsDenote(s, text[i..i + |s|]);
      assert OccursAt(p, text, i, i + |s|);
    }
  }
}
