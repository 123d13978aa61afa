/** The parser of src/sh.c as it runs: a cursor that moves over the input, words as spans of it, and NULs written over the
    characters that end them. */
module ShellParser {
  import opened Shell
  import Grammar = ShellGrammar

  datatype Span = Span(q: nat, eq: nat)

  /** A span holds a whole word: word characters, and none after it. */
  ghost predicate WordSpan(s: string, w: Span)
  {
    && w.q < w.eq <= |s| && (forall i :: w.q <= i < w.eq ==> WordChar(s[i]))
    && (w.eq < |s| ==> !WordChar(s[w.eq]))
  }

  predicate InText(s: string, w: Span) { w.q <= w.eq <= |s| }

  function TextOf(s: string, w: Span): string { if InText(s, w) then s[w.q..w.eq] else "" }

  function Texts(s: string, ws: seq<Span>): seq<string> { seq(|ws|, i requires 0 <= i < |ws| => TextOf(s, ws[i])) }

  /** The tree of words that a tree of spans stands for. */
  function TreeOf(s: string, c: Cmd<Span>): Tree
  {
    match c
    case Exec(args) => Exec(Texts(s, args))
    case Redir(x, f, m) => Redir(TreeOf(s, x), TextOf(s, f), m)
    case Pipe(l, r) => Pipe(TreeOf(s, l), TreeOf(s, r))
    case List(l, r) => List(TreeOf(s, l), TreeOf(s, r))
    case Back(x) => Back(TreeOf(s, x))
  }

  ghost predicate AllWords(s: string, c: Cmd<Span>)
  {
    match c
    case Exec(args) => forall i :: 0 <= i < |args| ==> WordSpan(s, args[i])
    case Redir(x, f, m) => AllWords(s, x) && WordSpan(s, f)
    case Pipe(l, r) => AllWords(s, l) && AllWords(s, r)
    case List(l, r) => AllWords(s, l) && AllWords(s, r)
    case Back(x) => AllWords(s, x)
  }

  lemma {:induction false} AddArgTree(s: string, c: Cmd<Span>, w: Span)
    ensures TreeOf(s, AddArg(c, w)) == AddArg(TreeOf(s, c), TextOf(s, w))
    ensures AllWords(s, c) && WordSpan(s, w) ==> AllWords(s, AddArg(c, w))
  {
    match c {
      case Exec(args) => assert Texts(s, args + [w]) == Texts(s, args) + [TextOf(s, w)];
      case Redir(x, f, m) => AddArgTree(s, x, w);
      case _ =>
    }
  }

  // ---- Tokens ------------------------------------------------------------------------------------------------------

  /** The loop that skips blanks. */
  method SkipBlanks(s: string, p0: nat) returns (p: nat)
    requires p0 <= |s|
    ensures p0 <= p <= |s| && s[p..] == Skip(s[p0..])
  {
    p := p0;
    while p < |s| && Space(s[p])
      invariant p0 <= p <= |s| && Skip(s[p..]) == Skip(s[p0..])
    {
      assert s[p..][1..] == s[p + 1..];
      p := p + 1;
    }
  }

  /** peek */
  method PeekAt(s: string, p0: nat, toks: string) returns (found: bool, p: nat)
    requires p0 <= |s| && NoNul(s)
    ensures p0 <= p <= |s| && s[p..] == Skip(s[p0..]) && found == Peek(s[p0..], toks)
  {
    p := SkipBlanks(s, p0);
    found := p < |s| && s[p] in toks;
  }

  /** The loop over a word. */
  method WordEnd(s: string, p0: nat) returns (p: nat)
    requires p0 <= |s| && NoNul(s)
    ensures p0 <= p <= |s| && p - p0 == WordLen(s[p0..]) && forall i :: p0 <= i < p ==> WordChar(s[i])
    ensures p < |s| ==> !WordChar(s[p])
  {
    p := p0;
    while p < |s| && !Space(s[p]) && !Symbol(s[p])
      invariant p0 <= p <= |s| && (p - p0) + WordLen(s[p..]) == WordLen(s[p0..]) && forall i :: p0 <= i < p ==> WordChar(s[i])
    {
      assert s[p..][1..] == s[p + 1..];
      p := p + 1;
    }
  }

  /** gettoken */
  method NextToken(s: string, p0: nat) returns (ret: char, w: Span, p: nat)
    requires p0 <= |s| && NoNul(s)
    ensures p0 <= w.q <= w.eq <= p <= |s| && GetToken(s[p0..]) == Token(ret, s[w.q..w.eq], s[p..])
    ensures ret == 'a' ==> WordSpan(s, w)
    ensures ret != '\0' ==> p0 < p
  {
    p := SkipBlanks(s, p0);
    var q := p;
    if p == |s| {
      ret := '\0';
    } else {
      ret := s[p];
      if s[p] in "|();&<" {
        p := p + 1;
      } else if s[p] == '>' {
        p := p + 1;
        if p < |s| && s[p] == '>' {
          ret := '+';
          p := p + 1;
        }
      } else {
        ret := 'a';
        p := WordEnd(s, p);
      }
    }
    w := Span(q, p);
    p := SkipBlanks(s, p);
    TokenAt(s, p0, w, ret, p);
  }

  lemma HeadAt(s: string, i: nat)
    requires i < |s|
    ensures Head(s[i..]) == s[i] && s[i..][1..] == s[i + 1..] && Head(s[i..][1..]) == if i + 1 < |s| then s[i + 1] else '\0'
  {
    assert s[i..][1..] == s[i + 1..];
    if i + 1 < |s| {
      assert s[i + 1..][0] == s[i + 1];
    }
  }

  lemma CutAt(s: string, i: nat, j: nat)
    requires i <= j <= |s|
    ensures s[i..][..j - i] == s[i..j] && s[i..][j - i..] == s[j..]
  {
  }

  lemma TokenAt(s: string, p0: nat, w: Span, ret: char, p: nat)
    requires p0 <= w.q <= w.eq <= p <= |s| && NoNul(s) && s[w.q..] == Skip(s[p0..]) && s[p..] == Skip(s[w.eq..])
    requires if w.q == |s| then ret == '\0' && w.eq == w.q
             else if s[w.q] in "|();&<" then ret == s[w.q] && w.eq == w.q + 1
             else if s[w.q] == '>' then (if w.q + 1 < |s| && s[w.q + 1] == '>' then ret == '+' && w.eq == w.q + 2
                 else ret == '>' && w.eq == w.q + 1)
             else ret == 'a' && w.eq == w.q + WordLen(s[w.q..])
    ensures GetToken(s[p0..]) == Token(ret, s[w.q..w.eq], s[p..])
  {
    hide Skip, WordLen, Head;
    CutAt(s, w.q, w.eq);
    if w.q == |s| {
      HeadEnd(s[w.q..]);
      assert s[p..] == s[w.q..];
    } else {
      HeadAt(s, w.q);
    }
  }

  lemma HeadEnd(t: string)
    requires t == ""
    ensures Head(t) == '\0'
  {
  }

  // ---- The parser ------------------------------------------------------------------------------------------------------

  /** A parse that went as the grammar says: the tree, and the cursor at what is left; or a panic. */
  ghost predicate Agrees(s: string, p0: nat, want: Parse, ok: bool, c: Cmd<Span>, p: nat)
  {
    && ok == want.Ok?
    && (ok ==> p0 <= p <= |s| && want == Ok((TreeOf(s, c), s[p..])) && AllWords(s, c))
  }

  /** Blanks before the cursor's token do not matter. */
  lemma SkipSame(t: string, toks: string)
    ensures Skip(Skip(t)) == Skip(t) && Peek(Skip(t), toks) == Peek(t, toks) && GetToken(Skip(t)) == GetToken(t)
  {
    SkipStays(Skip(t));
  }

  lemma SkipStays(t: string)
    requires !Space(Head(t))
    ensures Skip(t) == t
  {
  }

  lemma RedirsSkip(c: Tree, t: string)
    ensures Redirs(c, Skip(t)) == Redirs(c, t)
  {
    hide GetToken, Peek, Skip;
    SkipSame(t, "<>");
  }

  /** One turn of the loop. */
  lemma RedirsTurn(c: Tree, t: string, k: Token, f: Token)
    requires Peek(t, "<>") && k == GetToken(t) && f == GetToken(k.rest)
    ensures Redirs(c, t) == if f.ret != 'a' then Err else Redirs(Redir(c, f.text, if k.ret == '<' then Read else Write), f.rest)
  {
    hide GetToken, Peek, Skip;
  }

  /** parseredirs */
  method RedirsAt(s: string, c0: Cmd<Span>, p0: nat) returns (ok: bool, c: Cmd<Span>, p: nat)
    requires p0 <= |s| && NoNul(s) && AllWords(s, c0)
    ensures Agrees(s, p0, Redirs(TreeOf(s, c0), s[p0..]), ok, c, p)
  {
    hide GetToken, Peek, Skip, WordSpan, Redirs;
    ghost var want := Redirs(TreeOf(s, c0), s[p0..]);
    c := c0;
    var more;
    more, p := PeekAt(s, p0, "<>");
    SkipSame(s[p0..], "<>");
    RedirsSkip(TreeOf(s, c), s[p0..]);
    while more
      invariant p0 <= p <= |s| && AllWords(s, c) && Redirs(TreeOf(s, c), s[p..]) == want
      invariant more == Peek(s[p..], "<>") && s[p..] == Skip(s[p..])
      decreases |s| - p, more
    {
      ghost var t := s[p..];
      var tok, ret, w;
      tok, w, p := NextToken(s, p);
      ret, w, p := NextToken(s, p);
      RedirsTurn(TreeOf(s, c), t, GetToken(t), GetToken(GetToken(t).rest));
      if ret != 'a' {
        return false, c, p;
      }
      c := Redir(c, w, if tok == '<' then Read else Write);
      ghost var rest := s[p..];
      more, p := PeekAt(s, p, "<>");
      SkipSame(rest, "<>");
      RedirsSkip(TreeOf(s, c), rest);
    }
    RedirsStop(TreeOf(s, c), s[p..]);
    return true, c, p;
  }

  lemma RedirsStop(c: Tree, t: string)
    requires !Peek(t, "<>")
    ensures Redirs(c, t) == Ok((c, Skip(t)))
  {
  }

  lemma ArgsTurn(c: Tree, n: nat, t: string, k: Token)
    requires k == GetToken(t)
    ensures Args(c, n, t) == if Peek(t, "|)&;") then Ok((c, Skip(t)))
                             else if k.ret == '\0' then Ok((c, k.rest))
                             else if k.ret != 'a' || n + 1 >= MAXARGS then Err
                             else var r := Redirs(AddArg(c, k.text), k.rest);
                                 if r.Err? then Err else Args(r.value.0, n + 1, r.value.1)
  {
  }

  lemma ArgsSkip(c: Tree, n: nat, t: string)
    ensures Args(c, n, Skip(t)) == Args(c, n, t)
  {
    hide GetToken, Peek, Skip, Redirs;
    SkipSame(t, "|)&;");
  }

  /** parseexec's loop. Every word becomes an argument of the command under the redirections read so far. */
  method ArgsAt(s: string, c0: Cmd<Span>, p0: nat) returns (ok: bool, c: Cmd<Span>, p: nat)
    requires p0 <= |s| && NoNul(s) && AllWords(s, c0)
    ensures Agrees(s, p0, Args(TreeOf(s, c0), 0, s[p0..]), ok, c, p)
  {
    hide GetToken, Peek, Skip, WordSpan, Redirs, Args, TreeOf, AllWords, AddArg;
    ghost var want := Args(TreeOf(s, c0), 0, s[p0..]);
    c := c0;
    var argc, stop := 0, false;
    stop, p := PeekAt(s, p0, "|)&;");
    SkipSame(s[p0..], "|)&;");
    ArgsSkip(TreeOf(s, c), 0, s[p0..]);
    while !stop
      invariant p0 <= p <= |s| && argc >= 0 && AllWords(s, c) && Args(TreeOf(s, c), argc, s[p..]) == want
      invariant stop == Peek(s[p..], "|)&;") && s[p..] == Skip(s[p..])
      decreases |s| - p, !stop
    {
      ghost var t := s[p..];
      var tok, w;
      tok, w, p := NextToken(s, p);
      ArgsTurn(TreeOf(s, c), argc, t, GetToken(t));
      if tok == '\0' {
        return true, c, p;
      }
      if tok != 'a' {
        return false, c, p;
      }
      AddArgTree(s, c, w);
      c := AddArg(c, w);
      argc := argc + 1;
      if argc >= MAXARGS {
        return false, c, p;
      }
      ok, c, p := RedirsAt(s, c, p);
      if !ok {
        return false, c, p;
      }
      ghost var rest := s[p..];
      stop, p := PeekAt(s, p, "|)&;");
      SkipSame(rest, "|)&;");
      ArgsSkip(TreeOf(s, c), argc, rest);
    }
    ArgsTurn(TreeOf(s, c), argc, s[p..], GetToken(s[p..]));
    return true, c, p;
  }

  lemma ExecIs(t: string)
    ensures ParseExec(t) == if Peek(t, "(") then ParseBlock(Skip(t))
                            else var r := Redirs(Exec([]), Skip(t)); if r.Err? then Err else Args(r.value.0, 0, r.value.1)
  {
    hide GetToken, Peek, Skip, Redirs, Args, ParseLine;
    SkipSame(t, "(");
    RedirsSkip(Exec([]), t);
  }

  lemma BlockIs(t: string, u: string)
    requires Peek(t, "(") && u == GetToken(t).rest
    ensures ParseBlock(t) == var r := ParseLine(u);
                             if r.Err? || !Peek(r.value.1, ")") then Err else Redirs(r.value.0, GetToken(Skip(r.value.1)).rest)
  {
    hide GetToken, Peek, Skip, Redirs, ParseLine;
    if ParseLine(u).Ok? {
      SkipSame(ParseLine(u).value.1, ")");
    }
  }

  /** parseexec */
  method ExecAt(s: string, p0: nat) returns (ok: bool, c: Cmd<Span>, p: nat)
    requires p0 <= |s| && NoNul(s)
    ensures Agrees(s, p0, ParseExec(s[p0..]), ok, c, p)
    decreases |s| - p0, 1
  {
    hide GetToken, Peek, Skip, Redirs, Args, ParseExec, ParseBlock, WordSpan;
    ExecIs(s[p0..]);
    var block;
    block, p := PeekAt(s, p0, "(");
    if block {
      SkipSame(s[p0..], "(");
      ok, c, p := BlockAt(s, p);
      return;
    }
    c := Exec([]);
    assert TreeOf(s, c) == Exec([]);
    ok, c, p := RedirsAt(s, c, p);
    if ok {
      ok, c, p := ArgsAt(s, c, p);
    }
  }

  /** parseblock */
  method BlockAt(s: string, p0: nat) returns (ok: bool, c: Cmd<Span>, p: nat)
    requires p0 <= |s| && NoNul(s)
    ensures Agrees(s, p0, ParseBlock(s[p0..]), ok, c, p)
    decreases |s| - p0, 0
  {
    hide GetToken, Skip, Redirs, ParseLine, ParseBlock, WordSpan, TreeOf, AllWords, Peek;
    var open, tok, w, closed;
    open, p := PeekAt(s, p0, "(");
    if !open {
      NoBlock(s[p0..]);
      return false, Exec([]), p;
    }
    SkipSame(s[p0..], "(");
    tok, w, p := NextToken(s, p);
    BlockIs(s[p0..], s[p..]);
    ParenToken(s[p0..]);
    ok, c, p := LineAt(s, p);
    if ok {
      closed, p := PeekAt(s, p, ")");
      if !closed {
        return false, c, p;
      }
      tok, w, p := NextToken(s, p);
      ok, c, p := RedirsAt(s, c, p);
    }
  }

  lemma NoBlock(t: string)
    requires !Peek(t, "(")
    ensures ParseBlock(t) == Err
  {
  }

  lemma ParenToken(t: string)
    requires Peek(t, "(")
    ensures GetToken(t).ret != '\0'
  {
  }

  lemma PipeIs(t: string, l: Parse)
    requires l == ParseExec(t)
    ensures ParsePipe(t) == if l.Err? then Err
                            else if !Peek(l.value.1, "|") then Ok((l.value.0, Skip(l.value.1)))
                            else var r := ParsePipe(GetToken(Skip(l.value.1)).rest);
                                if r.Err? then Err else Ok((Pipe(l.value.0, r.value.0), r.value.1))
  {
    hide GetToken, Peek, Skip, ParseExec;
    if l.Ok? {
      SkipSame(l.value.1, "|");
    }
  }

  lemma PeekConsumes(t: string, toks: string)
    requires Peek(t, toks)
    ensures GetToken(Skip(t)).ret != '\0'
  {
    SkipSame(t, toks);
  }

  /** parsepipe */
  method PipeAt(s: string, p0: nat) returns (ok: bool, c: Cmd<Span>, p: nat)
    requires p0 <= |s| && NoNul(s)
    ensures Agrees(s, p0, ParsePipe(s[p0..]), ok, c, p)
    decreases |s| - p0, 2
  {
    hide GetToken, Peek, Skip, ParsePipe, ParseExec, WordSpan;
    ok, c, p := ExecAt(s, p0);
    PipeIs(s[p0..], ParseExec(s[p0..]));
    if !ok {
      return;
    }
    ghost var t := s[p..];
    var more;
    more, p := PeekAt(s, p, "|");
    if more {
      PeekConsumes(t, "|");
      var tok, w, right;
      tok, w, p := NextToken(s, p);
      ok, right, p := PipeAt(s, p);
      c := Pipe(c, right);
    }
  }

  lemma BacksIs<T>(c: Cmd<T>, t: string)
    ensures Backs(c, t) == if Peek(t, "&") then Backs(Back(c), GetToken(Skip(t)).rest) else (c, Skip(t))
  {
    hide GetToken, Peek, Skip;
    SkipSame(t, "&");
  }

  /** parseline's loop over & */
  method BacksAt(s: string, c0: Cmd<Span>, p0: nat) returns (c: Cmd<Span>, p: nat)
    requires p0 <= |s| && NoNul(s) && AllWords(s, c0)
    ensures p0 <= p <= |s| && (TreeOf(s, c), s[p..]) == Backs(TreeOf(s, c0), s[p0..]) && AllWords(s, c)
  {
    hide GetToken, Peek, Skip, WordSpan, Backs;
    c := c0;
    ghost var want := Backs(TreeOf(s, c0), s[p0..]);
    BacksIs(TreeOf(s, c), s[p0..]);
    var more;
    ghost var t := s[p0..];
    more, p := PeekAt(s, p0, "&");
    while more
      invariant p0 <= p <= |s| && AllWords(s, c) && s[p..] == Skip(t) && more == Peek(t, "&") && Backs(TreeOf(s, c), t) == want
      invariant want == if more then Backs(Back(TreeOf(s, c)), GetToken(Skip(t)).rest) else (TreeOf(s, c), Skip(t))
      decreases |s| - p, more
    {
      PeekConsumes(t, "&");
      var tok, w;
      tok, w, p := NextToken(s, p);
      c := Back(c);
      t := s[p..];
      BacksIs(TreeOf(s, c), t);
      more, p := PeekAt(s, p, "&");
    }
  }

  lemma LineIs(t: string, p: Parse)
    requires p == ParsePipe(t)
    ensures ParseLine(t) == if p.Err? then Err
                            else var l := Backs(p.value.0, p.value.1);
                                 if !Peek(l.1, ";") then Ok((l.0, Skip(l.1)))
                                 else var r := ParseLine(GetToken(Skip(l.1)).rest);
                                     if r.Err? then Err else Ok((List(l.0, r.value.0), r.value.1))
  {
    hide GetToken, Peek, Skip, ParsePipe, Backs;
    if p.Ok? {
      SkipSame(Backs(p.value.0, p.value.1).1, ";");
    }
  }

  /** parseline */
  method LineAt(s: string, p0: nat) returns (ok: bool, c: Cmd<Span>, p: nat)
    requires p0 <= |s| && NoNul(s)
    ensures Agrees(s, p0, ParseLine(s[p0..]), ok, c, p)
    decreases |s| - p0, 3
  {
    hide GetToken, Peek, Skip, ParsePipe, ParseLine, WordSpan, Backs;
    ok, c, p := PipeAt(s, p0);
    LineIs(s[p0..], ParsePipe(s[p0..]));
    if !ok {
      return;
    }
    c, p := BacksAt(s, c, p);
    ghost var t := s[p..];
    var more;
    more, p := PeekAt(s, p, ";");
    if more {
      PeekConsumes(t, ";");
      var tok, w, right;
      tok, w, p := NextToken(s, p);
      ok, right, p := LineAt(s, p);
      c := List(c, right);
    }
  }

  // ---- nulterminate ----------------------------------------------------------------------------------------------------------

  /** The buffer is the input, but for NULs where it had no word character. */
  ghost predicate Intact(s: string, b: seq<char>)
  {
    && |s| < |b| && b[|s|] == '\0'
    && forall i :: 0 <= i < |s| ==> b[i] == s[i] || (b[i] == '\0' && !WordChar(s[i]))
  }

  /** Every word of the tree ends in a NUL. */
  ghost predicate Ended(b: seq<char>, c: Cmd<Span>)
  {
    match c
    case Exec(args) => forall i :: 0 <= i < |args| ==> args[i].eq < |b| && b[args[i].eq] == '\0'
    case Redir(x, f, m) => Ended(b, x) && f.eq < |b| && b[f.eq] == '\0'
    case Pipe(l, r) => Ended(b, l) && Ended(b, r)
    case List(l, r) => Ended(b, l) && Ended(b, r)
    case Back(x) => Ended(b, x)
  }

  ghost predicate NulsStay(b: seq<char>, b': seq<char>)
  {
    |b| == |b'| && forall i :: 0 <= i < |b| && b[i] == '\0' ==> b'[i] == '\0'
  }

  lemma {:induction false} EndedStays(b: seq<char>, b': seq<char>, c: Cmd<Span>)
    requires Ended(b, c) && NulsStay(b, b')
    ensures Ended(b', c)
  {
    match c {
      case Exec(args) =>
      case Redir(x, f, m) => EndedStays(b, b', x);
      case Pipe(l, r) => EndedStays(b, b', l); EndedStays(b, b', r);
      case List(l, r) => EndedStays(b, b', l); EndedStays(b, b', r);
      case Back(x) => EndedStays(b, b', x);
    }
  }

  /** *eq = 0 for one word. */
  method EndWord(buf: array<char>, w: Span, ghost s: string)
    requires WordSpan(s, w) && Intact(s, buf[..])
    modifies buf
    ensures Intact(s, buf[..]) && NulsStay(old(buf[..]), buf[..]) && w.eq < buf.Length && buf[..][w.eq] == '\0'
  {
    assert |buf[..]| == buf.Length;
    buf[w.eq] := '\0';
    assert forall i :: 0 <= i < buf.Length && i != w.eq ==> buf[i] == old(buf[..])[i];
  }

  /** nulterminate */
  method Nulterminate(buf: array<char>, c: Cmd<Span>, ghost s: string)
    requires AllWords(s, c) && Intact(s, buf[..])
    modifies buf
    ensures Intact(s, buf[..]) && NulsStay(old(buf[..]), buf[..]) && Ended(buf[..], c)
    decreases c
  {
    hide WordSpan, Intact;
    match c {
      case Exec(args) =>
        var i := 0;
        while i < |args|
          invariant 0 <= i <= |args| && Intact(s, buf[..]) && NulsStay(old(buf[..]), buf[..])
          invariant forall j :: 0 <= j < i ==> args[j].eq < |buf[..]| && buf[..][args[j].eq] == '\0'
        {
          ghost var before := buf[..];
          EndWord(buf, args[i], s);
          assert |before| == |buf[..]|;
          i := i + 1;
        }
      case Redir(x, f, m) =>
        Nulterminate(buf, x, s);
        ghost var before := buf[..];
        EndWord(buf, f, s);
        EndedStays(before, buf[..], x);
      case Pipe(l, r) =>
        Nulterminate(buf, l, s);
        ghost var before := buf[..];
        Nulterminate(buf, r, s);
        EndedStays(before, buf[..], l);
      case List(l, r) =>
        Nulterminate(buf, l, s);
        ghost var before := buf[..];
        Nulterminate(buf, r, s);
        EndedStays(before, buf[..], l);
      case Back(x) =>
        Nulterminate(buf, x, s);
    }
  }

  /** The C string at a position. */
  function CString(b: seq<char>, q: nat): string
    decreases |b| - q
  {
    if q >= |b| || b[q] == '\0' then "" else [b[q]] + CString(b, q + 1)
  }

  lemma {:induction false} CStringIs(s: string, b: seq<char>, q: nat, e: nat)
    requires Intact(s, b) && q <= e <= |s| && b[e] == '\0' && forall i :: q <= i < e ==> WordChar(s[i])
    ensures CString(b, q) == s[q..e]
    decreases e - q
  {
    if q < e {
      CStringIs(s, b, q + 1, e);
      assert s[q..e] == [s[q]] + s[q + 1..e];
    }
  }

  /** The tree as the rest of the shell reads it: each word is the C string that begins there. */
  function CTree(b: seq<char>, c: Cmd<Span>): Tree
  {
    match c
    case Exec(args) => Exec(seq(|args|, i requires 0 <= i < |args| => CString(b, args[i].q)))
    case Redir(x, f, m) => Redir(CTree(b, x), CString(b, f.q), m)
    case Pipe(l, r) => Pipe(CTree(b, l), CTree(b, r))
    case List(l, r) => List(CTree(b, l), CTree(b, r))
    case Back(x) => Back(CTree(b, x))
  }

  /** After nulterminate every word reads as it was parsed: no NUL has fallen inside another word. */
  lemma {:induction false} WordsSurvive(s: string, b: seq<char>, c: Cmd<Span>)
    requires AllWords(s, c) && Intact(s, b) && Ended(b, c)
    ensures CTree(b, c) == TreeOf(s, c)
  {
    match c {
      case Exec(args) =>
        forall i | 0 <= i < |args| ensures CString(b, args[i].q) == TextOf(s, args[i]) {
          assert WordSpan(s, args[i]);
          CStringIs(s, b, args[i].q, args[i].eq);
        }
      case Redir(x, f, m) =>
        WordsSurvive(s, b, x);
        CStringIs(s, b, f.q, f.eq);
      case Pipe(l, r) => WordsSurvive(s, b, l); WordsSurvive(s, b, r);
      case List(l, r) => WordsSurvive(s, b, l); WordsSurvive(s, b, r);
      case Back(x) => WordsSurvive(s, b, x);
    }
  }

  /** parsecmd on a buffer that holds a C string of length n: it fails exactly when the grammar does, and otherwise the tree it
      returns, read as C strings from the buffer it leaves behind, is the tree of the grammar. */
  method Parsecmd(buf: array<char>, n: nat) returns (ok: bool, c: Cmd<Span>)
    requires n < buf.Length && buf[n] == '\0' && NoNul(buf[..n])
    modifies buf
    ensures ok == ParseCmd(old(buf[..n])).Ok?
    ensures ok ==> CTree(buf[..], c) == ParseCmd(old(buf[..n])).value
    ensures ok ==> Grammar.Line(CTree(buf[..], c), Grammar.Toks(old(buf[..n]))) && FewArgs(CTree(buf[..], c))
    ensures !ok ==> forall d: Tree :: !Grammar.Line(d, Grammar.Toks(old(buf[..n]))) || !FewArgs(d)
  {
    hide GetToken, Peek, Skip, ParseLine, WordSpan, TreeOf, AllWords, CTree, Ended, Grammar.Line, Grammar.Toks, FewArgs;
    var s := buf[..n];
    var p, none;
    ok, c, p := LineAt(s, 0);
    assert s[0..] == s;
    if ok {
      none, p := PeekAt(s, p, "");
      ok := p == |s|;
      if ok {
        assert s[p..] == "";
        Nulterminate(buf, c, s);
        WordsSurvive(s, buf[..], c);
      } else {
        assert |s[p..]| > 0;
      }
    }
    ParsesOrNot(s);
  }

  /** The grammar gives the text the parser's tree, or none. */
  lemma ParsesOrNot(s: string)
    requires NoNul(s)
    ensures ParseCmd(s).Ok? ==> Grammar.Line(ParseCmd(s).value, Grammar.Toks(s)) && FewArgs(ParseCmd(s).value)
    ensures ParseCmd(s).Err? ==> forall d: Tree :: !Grammar.Line(d, Grammar.Toks(s)) || !FewArgs(d)
  {
    hide ParseCmd, Grammar.Line, Grammar.Toks, FewArgs;
    forall d: Tree ensures ParseCmd(s) == Ok(d) <==> Grammar.Line(d, Grammar.Toks(s)) && FewArgs(d) {
      Grammar.ParsesIff(s, d);
    }
  }
}
