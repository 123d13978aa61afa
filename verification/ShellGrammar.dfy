/** The grammar of src/sh.c as a relation between token lists and trees, and the proof that from every text the parser gets
    exactly the tree that the grammar allows. */
module ShellGrammar {
  import opened Shell

  datatype Tok = Tok(ret: char, text: string)

  /** All tokens of a text. */
  function Toks(t: string): seq<Tok>
    decreases |t|
  {
    var k := GetToken(t);
    if k.ret == '\0' then [] else [Tok(k.ret, k.text)] + Toks(k.rest)
  }

  // ---- The grammar ---------------------------------------------------------------------------------------------

  predicate IsWord(k: Tok) { k.ret == 'a' }

  predicate IsArrow(k: Tok) { k.ret == '<' || k.ret == '>' || k.ret == '+' }

  function ModeOf(k: Tok): Mode { if k.ret == '<' then Read else Write }

  /** Words, and arrows each with a word behind it. */
  predicate Plain(ts: seq<Tok>)
  {
    || ts == [] || (IsWord(ts[0]) && Plain(ts[1..]))
    || (|ts| >= 2 && IsArrow(ts[0]) && IsWord(ts[1]) && Plain(ts[2..]))
  }

  /** The words that are not behind an arrow. */
  function ArgsOf(ts: seq<Tok>): seq<string>
  {
    if ts == [] then [] else if IsArrow(ts[0]) && |ts| >= 2 then ArgsOf(ts[2..]) else [ts[0].text] + ArgsOf(ts[1..])
  }

  /** Those that are, with the modes of their arrows. */
  function FilesOf(ts: seq<Tok>): seq<(string, Mode)>
  {
    if ts == [] then [] else if IsArrow(ts[0]) && |ts| >= 2 then [(ts[1].text, ModeOf(ts[0]))] + FilesOf(ts[2..])
    else FilesOf(ts[1..])
  }

  /** A command with redirections around it, the last one outermost. */
  function Around(fs: seq<(string, Mode)>, c: Tree): Tree
  {
    if fs == [] then c else Redir(Around(fs[..|fs| - 1], c), fs[|fs| - 1].0, fs[|fs| - 1].1)
  }

  /** What is inside the n outermost redirections, and inside the n outermost background nodes. */
  function Inside(c: Tree, n: nat): Tree { if n == 0 || !c.Redir? then c else Inside(c.cmd, n - 1) }

  function Front(c: Tree, n: nat): Tree { if n == 0 || !c.Back? then c else Front(c.cmd, n - 1) }

  function Behind(c: Tree, n: nat): Tree { if n == 0 then c else Back(Behind(c, n - 1)) }

  predicate Simple(c: Tree, ts: seq<Tok>) { Plain(ts) && c == Around(FilesOf(ts), Exec(ArgsOf(ts))) }

  /** A line in parentheses that end at token k, with redirections behind it. */
  ghost predicate BlockAt(c: Tree, ts: seq<Tok>, k: nat)
    requires 0 < k < |ts|
    decreases |ts|, 0
  {
    && ts[0].ret == '(' && ts[k].ret == ')' && Plain(ts[k + 1..]) && ArgsOf(ts[k + 1..]) == []
    && var fs := FilesOf(ts[k + 1..]); c == Around(fs, Inside(c, |fs|)) && Line(Inside(c, |fs|), ts[1..k])
  }

  ghost predicate Block(c: Tree, ts: seq<Tok>)
    decreases |ts|, 1
  {
    exists k :: 0 < k < |ts| && BlockAt(c, ts, k)
  }

  ghost predicate Command(c: Tree, ts: seq<Tok>)
    decreases |ts|, 2
  {
    Simple(c, ts) || Block(c, ts)
  }

  ghost predicate PipeAt(c: Tree, ts: seq<Tok>, k: nat)
    requires c.Pipe? && k < |ts|
    decreases |ts|, 3
  {
    ts[k].ret == '|' && Command(c.left, ts[..k]) && Pipeline(c.right, ts[k + 1..])
  }

  ghost predicate Pipeline(c: Tree, ts: seq<Tok>)
    decreases |ts|, 4
  {
    Command(c, ts) || (c.Pipe? && exists k :: 0 <= k < |ts| && PipeAt(c, ts, k))
  }

  predicate Amps(ts: seq<Tok>) { forall i :: 0 <= i < |ts| ==> ts[i].ret == '&' }

  /** A pipeline of k tokens with only & behind it. */
  ghost predicate JobAt(c: Tree, ts: seq<Tok>, k: nat)
    requires k <= |ts|
    decreases |ts|, 5
  {
    var n := |ts| - k;
    Amps(ts[k..]) && c == Behind(Front(c, n), n) && Pipeline(Front(c, n), ts[..k])
  }

  ghost predicate Job(c: Tree, ts: seq<Tok>)
    decreases |ts|, 6
  {
    exists k :: 0 <= k <= |ts| && JobAt(c, ts, k)
  }

  ghost predicate ListAt(c: Tree, ts: seq<Tok>, k: nat)
    requires c.List? && k < |ts|
    decreases |ts|, 7
  {
    ts[k].ret == ';' && Job(c.left, ts[..k]) && Line(c.right, ts[k + 1..])
  }

  ghost predicate Line(c: Tree, ts: seq<Tok>)
    decreases |ts|, 8
  {
    Job(c, ts) || (c.List? && exists k :: 0 <= k < |ts| && ListAt(c, ts, k))
  }

  // ---- Tokens under the cursor -------------------------------------------------------------------------------------

  lemma SkipAgain(t: string)
    ensures Skip(Skip(t)) == Skip(t) && GetToken(Skip(t)) == GetToken(t) && Toks(Skip(t)) == Toks(t)
  {
    assert !Space(Head(Skip(t)));
  }

  lemma {:induction false} SkipNoNul(t: string)
    requires NoNul(t)
    ensures NoNul(Skip(t))
  {
    if t != "" && Space(t[0]) {
      SkipNoNul(t[1..]);
    }
  }

  lemma SuffixNoNul(t: string, n: nat)
    requires NoNul(t) && n <= |t|
    ensures NoNul(t[n..])
  {
  }

  lemma RestNoNul(t: string)
    requires NoNul(t)
    ensures NoNul(GetToken(t).rest) && (GetToken(t).ret == '\0' ==> GetToken(t).rest == "" == Skip(t))
  {
    var u := Skip(t);
    SkipNoNul(t);
    if u != "" {
      SuffixNoNul(u, 1);
      SkipNoNul(u[1..]);
      SuffixNoNul(u, WordLen(u));
      SkipNoNul(u[WordLen(u)..]);
      if |u| > 1 {
        SuffixNoNul(u, 2);
        SkipNoNul(u[2..]);
      }
    }
  }

  /** What peek sees is the first token. */
  lemma PeekTok(t: string, toks: string)
    requires NoNul(t) && forall c :: c in toks ==> Symbol(c)
    ensures Peek(t, toks) <==> && Toks(t) != []
                               && var r := Toks(t)[0].ret; if r == '+' then '>' in toks else r != 'a' && r in toks
  {
    SkipNoNul(t);
  }

  lemma FirstTok(t: string)
    requires NoNul(t)
    ensures var k := GetToken(t);
            && (Toks(t) == [] <==> k.ret == '\0')
            && (Toks(t) != [] ==> && Toks(t)[0] == Tok(k.ret, k.text) && Toks(t)[1..] == Toks(k.rest)
                                  && NoNul(k.rest) && |k.rest| < |t|)
            && (Toks(t) == [] ==> Skip(t) == "" == k.rest)
  {
    RestNoNul(t);
  }

  // ---- What a token is ---------------------------------------------------------------------------------------------

  predicate Blank(c: char) { c in " \t\r\n\U{b}" }

  predicate Mark(c: char) { c in "<|>&;()" }

  lemma {:induction false} SkipIs(t: string)
    ensures var n := |t| - |Skip(t)|; t[n..] == Skip(t) && forall i :: 0 <= i < n ==> Blank(t[i])
    ensures Skip(t) != "" ==> !Blank(Skip(t)[0])
  {
    if t != "" && Space(t[0]) {
      SkipIs(t[1..]);
      var n := |t[1..]| - |Skip(t[1..])|;
      assert t[n + 1..] == t[1..][n..];
      forall i | 0 <= i < n + 1 ensures Blank(t[i]) {
        assert i > 0 ==> t[i] == t[1..][i - 1];
      }
    }
  }

  lemma {:induction false} WordIs(t: string)
    ensures forall i :: 0 <= i < WordLen(t) ==> !Blank(t[i]) && !Mark(t[i])
    ensures WordLen(t) < |t| ==> Blank(t[WordLen(t)]) || Mark(t[WordLen(t)])
  {
    if t != "" && !Space(t[0]) && !Symbol(t[0]) {
      WordIs(t[1..]);
      forall i | 0 <= i < WordLen(t) ensures !Blank(t[i]) && !Mark(t[i]) {
        assert i > 0 ==> t[i] == t[1..][i - 1];
      }
      assert WordLen(t) < |t| ==> t[WordLen(t)] == t[1..][WordLen(t[1..])];
    }
  }

  /** The first n characters of u are a token of that kind: >>, another symbol, or a longest piece without blanks and symbols. */
  predicate Shape(ret: char, u: string, n: nat)
    requires n <= |u|
  {
    if ret == '\0' then u == ""
    else if ret == '+' then u[..n] == ">>"
    else if ret == 'a' then
      n > 0 && (forall i :: 0 <= i < n ==> !Blank(u[i]) && !Mark(u[i])) && (n < |u| ==> Blank(u[n]) || Mark(u[n]))
    else Mark(ret) && u[..n] == [ret] && (ret == '>' && 1 < |u| ==> u[1] != '>')
  }

  lemma TokenShape(t: string) returns (n: nat)
    requires NoNul(t)
    ensures var k, u := GetToken(t), Skip(t); n <= |u| && k.text == u[..n] && k.rest == Skip(u[n..]) && Shape(k.ret, u, n)
  {
    SkipNoNul(t);
    var u := Skip(t);
    WordIs(u);
    n := |GetToken(t).text|;
  }

  /** gettoken, in characters: blanks up to a, the token up to b, blanks up to e, and the rest. */
  lemma TokenIs(t: string) returns (a: nat, b: nat, e: nat)
    requires NoNul(t)
    ensures a <= b <= e <= |t| && GetToken(t).text == t[a..b] && GetToken(t).rest == t[e..]
    ensures Shape(GetToken(t).ret, t[a..], b - a)
    ensures forall i :: 0 <= i < a || b <= i < e ==> Blank(t[i])
    ensures e < |t| ==> !Blank(t[e])
  {
    hide Skip, GetToken, Shape, Blank;
    var n := TokenShape(t);
    a := SkipAt(t, 0);
    b := a + n;
    Pieces(t, a, n);
    e := SkipAt(t, b);
  }

  /** The blanks from b on. */
  lemma SkipAt(t: string, b: nat) returns (e: nat)
    requires b <= |t|
    ensures b <= e <= |t| && t[e..] == Skip(t[b..]) && (e < |t| ==> !Blank(t[e])) && forall i :: b <= i < e ==> Blank(t[i])
    ensures b == 0 ==> t[e..] == Skip(t)
  {
    hide Skip, Blank;
    var v := t[b..];
    SkipIs(v);
    e := |t| - |Skip(v)|;
    assert t[e..] == v[e - b..];
    assert b == 0 ==> v == t;
    forall i | b <= i < e ensures Blank(t[i]) {
      assert t[i] == v[i - b];
    }
  }

  lemma Pieces(t: string, a: nat, n: nat)
    requires a <= |t| && n <= |t[a..]|
    ensures t[a..][..n] == t[a..a + n] && t[a..][n..] == t[a + n..]
  {
  }

  // ---- Redirections and arguments -----------------------------------------------------------------------------------

  /** parseexec's loop with the redirections before it. */
  function Commands(c: Tree, n: nat, t: string): Parse
  {
    var r := Redirs(c, t);
    if r.Err? then Err else Args(r.value.0, n, r.value.1)
  }

  lemma AroundNone(c: Tree)
    ensures Around([], c) == c
  {
  }

  lemma AroundMore(fs: seq<(string, Mode)>, c: Tree, f: (string, Mode))
    ensures Around(fs + [f], c) == Redir(Around(fs, c), f.0, f.1)
  {
    assert (fs + [f])[..|fs|] == fs;
  }

  lemma {:induction false} AroundAll(fs: seq<(string, Mode)>, gs: seq<(string, Mode)>, c: Tree)
    ensures Around(fs + gs, c) == Around(gs, Around(fs, c))
  {
    if gs == [] {
      assert fs + gs == fs;
    } else {
      assert (fs + gs)[..|fs + gs| - 1] == fs + gs[..|gs| - 1];
      AroundAll(fs, gs[..|gs| - 1], c);
    }
  }

  lemma {:induction false} AddArgAround(fs: seq<(string, Mode)>, args: seq<string>, w: string)
    ensures AddArg(Around(fs, Exec(args)), w) == Around(fs, Exec(args + [w]))
  {
    if fs != [] {
      AddArgAround(fs[..|fs| - 1], args, w);
    }
  }

  lemma {:induction false} FewAround(fs: seq<(string, Mode)>, c: Tree)
    ensures FewArgs(Around(fs, c)) == FewArgs(c)
  {
    if fs != [] {
      FewAround(fs[..|fs| - 1], c);
    }
  }

  /** The three ways on: an arrow with its word, a word, or the end of the command. */
  lemma CommandsArrow(c: Tree, n: nat, t: string)
    requires NoNul(t) && Toks(t) != [] && IsArrow(Toks(t)[0])
    ensures Commands(c, n, t).Ok? ==> |Toks(t)| >= 2 && IsWord(Toks(t)[1])
    ensures |Toks(t)| >= 2 && IsWord(Toks(t)[1]) ==>
              var k := GetToken(GetToken(t).rest);
              && Toks(t)[2..] == Toks(k.rest) && NoNul(k.rest) && |k.rest| < |t|
              && Commands(c, n, t) == Commands(Redir(c, Toks(t)[1].text, ModeOf(Toks(t)[0])), n, k.rest)
  {
    hide GetToken, Args, Skip;
    PeekTok(t, "<>");
    FirstTok(t);
    hide Peek, Toks;
    FirstTok(GetToken(t).rest);
    if |Toks(t)| >= 2 {
      assert Toks(t)[1..][1..] == Toks(t)[2..];
    }
  }

  lemma CommandsWord(c: Tree, n: nat, t: string)
    requires NoNul(t) && Toks(t) != [] && IsWord(Toks(t)[0])
    ensures var k := GetToken(t);
            && Toks(t)[1..] == Toks(k.rest) && NoNul(k.rest) && |k.rest| < |t|
            && Commands(c, n, t) == if n + 1 >= MAXARGS then Err else Commands(AddArg(c, Toks(t)[0].text), n + 1, k.rest)
  {
    hide GetToken, Skip;
    SkipAgain(t);
    SkipNoNul(t);
    PeekTok(t, "<>");
    PeekTok(Skip(t), "|)&;");
    FirstTok(t);
    hide Peek, Toks;
  }

  predicate EndsCommand(ts: seq<Tok>) { ts == [] || ts[0].ret in "|)&;" }

  lemma CommandsEnd(c: Tree, n: nat, t: string)
    requires NoNul(t) && (Toks(t) != [] ==> !IsArrow(Toks(t)[0]) && !IsWord(Toks(t)[0]))
    ensures Commands(c, n, t) == if EndsCommand(Toks(t)) then Ok((c, Skip(t))) else Err
    ensures Toks(Skip(t)) == Toks(t) && NoNul(Skip(t))
  {
    hide GetToken, Skip;
    SkipAgain(t);
    SkipNoNul(t);
    PeekTok(t, "<>");
    PeekTok(Skip(t), "|)&;");
    FirstTok(Skip(t));
    hide Peek, Toks;
  }

  lemma WithArrow(a: Tok, b: Tok, ts: seq<Tok>)
    requires IsArrow(a) && IsWord(b)
    ensures Plain([a, b] + ts) == Plain(ts) && ArgsOf([a, b] + ts) == ArgsOf(ts)
    ensures FilesOf([a, b] + ts) == [(b.text, ModeOf(a))] + FilesOf(ts)
  {
    assert ([a, b] + ts)[2..] == ts;
  }

  lemma WithWord(a: Tok, ts: seq<Tok>)
    requires IsWord(a)
    ensures Plain([a] + ts) == Plain(ts) && ArgsOf([a] + ts) == [a.text] + ArgsOf(ts) && FilesOf([a] + ts) == FilesOf(ts)
  {
    assert ([a] + ts)[1..] == ts;
  }

  lemma WithNone()
    ensures Plain([]) && ArgsOf([]) == [] && FilesOf([]) == []
  {
  }

  /** How a simple command begins. */
  lemma PlainHead(ts: seq<Tok>)
    requires Plain(ts) && ts != []
    ensures IsWord(ts[0]) || IsArrow(ts[0])
    ensures IsArrow(ts[0]) ==> |ts| >= 2 && IsWord(ts[1]) && ts == [ts[0], ts[1]] + ts[2..]
    ensures IsWord(ts[0]) ==> ts == [ts[0]] + ts[1..]
  {
    FirstToks(ts);
  }

  lemma FirstToks(ts: seq<Tok>)
    ensures |ts| >= 1 ==> ts == [ts[0]] + ts[1..]
    ensures |ts| >= 2 ==> ts == [ts[0], ts[1]] + ts[2..]
  {
  }

  lemma Shift<T>(a: seq<T>, x: T, b: seq<T>)
    ensures a + [x] + b == a + ([x] + b)
  {
  }

  lemma NoneMore<T>(a: seq<T>)
    ensures a + [] == a && [] + a == a
  {
  }

  /** What the loop has read is a simple command. */
  lemma {:induction false} CommandsSound(fs: seq<(string, Mode)>, args: seq<string>, t: string) returns (ts: seq<Tok>)
    requires NoNul(t) && Commands(Around(fs, Exec(args)), |args|, t).Ok? && |args| < MAXARGS
    ensures var r := Commands(Around(fs, Exec(args)), |args|, t).value;
            && Toks(t) == ts + Toks(r.1) && NoNul(r.1) && Plain(ts) && |args + ArgsOf(ts)| < MAXARGS
            && r.0 == Around(fs + FilesOf(ts), Exec(args + ArgsOf(ts)))
    decreases |t|
  {
    hide Commands, Toks, GetToken, Plain, ArgsOf, FilesOf, Around;
    var c, all := Around(fs, Exec(args)), Toks(t);
    if all != [] && IsArrow(all[0]) {
      CommandsArrow(c, |args|, t);
      var f := (all[1].text, ModeOf(all[0]));
      AroundMore(fs, Exec(args), f);
      var us := CommandsSound(fs + [f], args, GetToken(GetToken(t).rest).rest);
      ts := [all[0], all[1]] + us;
      WithArrow(all[0], all[1], us);
      assert all == [all[0], all[1]] + all[2..];
      Shift(fs, f, FilesOf(us));
    } else if all != [] && IsWord(all[0]) {
      CommandsWord(c, |args|, t);
      AddArgAround(fs, args, all[0].text);
      var us := CommandsSound(fs, args + [all[0].text], GetToken(t).rest);
      ts := [all[0]] + us;
      WithWord(all[0], us);
      assert all == [all[0]] + all[1..];
      Shift(args, all[0].text, ArgsOf(us));
    } else {
      CommandsEnd(c, |args|, t);
      ts := [];
      WithNone();
      NoneMore(fs);
      NoneMore(args);
    }
  }

  /** And every simple command is read to its end. */
  lemma {:induction false} CommandsComplete(fs: seq<(string, Mode)>, args: seq<string>, t: string, ts: seq<Tok>, more: seq<Tok>)
    requires NoNul(t) && Toks(t) == ts + more && Plain(ts) && EndsCommand(more) && |args + ArgsOf(ts)| < MAXARGS
    ensures var r := Commands(Around(fs, Exec(args)), |args|, t);
            r.Ok? && r.value.0 == Around(fs + FilesOf(ts), Exec(args + ArgsOf(ts))) && Toks(r.value.1) == more && NoNul(r.value.1)
    decreases |ts|
  {
    hide Commands, Toks, GetToken, Plain, ArgsOf, FilesOf, Around;
    var c, all := Around(fs, Exec(args)), Toks(t);
    if ts == [] {
      assert all == more;
      CommandsEnd(c, |args|, t);
      WithNone();
      NoneMore(fs);
      NoneMore(args);
    } else {
      PlainHead(ts);
      if IsArrow(ts[0]) {
        assert all[0] == ts[0] && all[1] == ts[1] && all[2..] == ts[2..] + more;
        CommandsArrow(c, |args|, t);
        var f := (ts[1].text, ModeOf(ts[0]));
        AroundMore(fs, Exec(args), f);
        WithArrow(ts[0], ts[1], ts[2..]);
        CommandsComplete(fs + [f], args, GetToken(GetToken(t).rest).rest, ts[2..], more);
        Shift(fs, f, FilesOf(ts[2..]));
      } else {
        assert all[0] == ts[0] && all[1..] == ts[1..] + more;
        CommandsWord(c, |args|, t);
        AddArgAround(fs, args, ts[0].text);
        WithWord(ts[0], ts[1..]);
        Shift(args, ts[0].text, ArgsOf(ts[1..]));
        CommandsComplete(fs, args + [ts[0].text], GetToken(t).rest, ts[1..], more);
      }
    }
  }

  // ---- Redirections behind a block ----------------------------------------------------------------------------------

  lemma RedirsStep(c: Tree, t: string)
    requires NoNul(t) && Toks(t) != [] && IsArrow(Toks(t)[0])
    ensures Redirs(c, t).Ok? ==> |Toks(t)| >= 2 && IsWord(Toks(t)[1])
    ensures |Toks(t)| >= 2 && IsWord(Toks(t)[1]) ==>
              var k := GetToken(GetToken(t).rest);
              && Toks(t)[2..] == Toks(k.rest) && NoNul(k.rest) && |k.rest| < |t|
              && Redirs(c, t) == Redirs(Redir(c, Toks(t)[1].text, ModeOf(Toks(t)[0])), k.rest)
  {
    hide GetToken, Skip;
    PeekTok(t, "<>");
    FirstTok(t);
    hide Peek, Toks;
    FirstTok(GetToken(t).rest);
    if |Toks(t)| >= 2 {
      assert Toks(t)[1..][1..] == Toks(t)[2..];
    }
  }

  lemma RedirsStop(c: Tree, t: string)
    requires NoNul(t) && (Toks(t) != [] ==> !IsArrow(Toks(t)[0]))
    ensures Redirs(c, t) == Ok((c, Skip(t))) && Toks(Skip(t)) == Toks(t) && NoNul(Skip(t))
  {
    hide GetToken, Skip;
    SkipAgain(t);
    SkipNoNul(t);
    PeekTok(t, "<>");
    hide Peek, Toks;
  }

  lemma {:induction false} RedirsSound(c: Tree, t: string) returns (ts: seq<Tok>)
    requires NoNul(t) && Redirs(c, t).Ok?
    ensures var r := Redirs(c, t).value;
            && Toks(t) == ts + Toks(r.1) && NoNul(r.1) && Plain(ts) && ArgsOf(ts) == [] && r.0 == Around(FilesOf(ts), c)
    decreases |t|
  {
    hide Redirs, Toks, GetToken;
    var all := Toks(t);
    if all != [] && IsArrow(all[0]) {
      RedirsStep(c, t);
      var f := (all[1].text, ModeOf(all[0]));
      ts := RedirsSound(Redir(c, f.0, f.1), GetToken(GetToken(t).rest).rest);
      var us := [all[0], all[1]] + ts;
      assert us[2..] == ts && all == [all[0], all[1]] + all[2..];
      AroundAll([f], FilesOf(ts), c);
      AroundMore([], c, f);
      ts := us;
    } else {
      RedirsStop(c, t);
      ts := [];
    }
  }

  lemma {:induction false} RedirsComplete(c: Tree, t: string, ts: seq<Tok>, more: seq<Tok>)
    requires NoNul(t) && Toks(t) == ts + more && Plain(ts) && ArgsOf(ts) == [] && (more != [] ==> !IsArrow(more[0]))
    ensures var r := Redirs(c, t); r.Ok? && r.value.0 == Around(FilesOf(ts), c) && Toks(r.value.1) == more && NoNul(r.value.1)
    decreases |ts|
  {
    hide Redirs, Toks, GetToken;
    var all := Toks(t);
    if ts == [] {
      assert all == more;
      RedirsStop(c, t);
    } else {
      assert all[0] == ts[0] && all[1] == ts[1] && all[2..] == ts[2..] + more;
      RedirsStep(c, t);
      var f := (ts[1].text, ModeOf(ts[0]));
      RedirsComplete(Redir(c, f.0, f.1), GetToken(GetToken(t).rest).rest, ts[2..], more);
      AroundAll([f], FilesOf(ts[2..]), c);
      AroundMore([], c, f);
    }
  }

  // ---- From text to tree ---------------------------------------------------------------------------------------------

  lemma {:induction false} InsideAround(fs: seq<(string, Mode)>, c: Tree)
    ensures Inside(Around(fs, c), |fs|) == c
  {
    if fs != [] {
      InsideAround(fs[..|fs| - 1], c);
    }
  }

  lemma {:induction false} FrontBehind(c: Tree, n: nat)
    ensures Front(Behind(c, n), n) == c && FewArgs(Behind(c, n)) == FewArgs(c)
  {
    if n > 0 {
      FrontBehind(c, n - 1);
    }
  }

  /** The first token is the one asked for. */
  lemma Starts(t: string, c: char)
    requires NoNul(t) && c in "|()&;"
    ensures Peek(t, [c]) <==> Toks(t) != [] && Toks(t)[0].ret == c
    ensures Peek(t, [c]) ==> var k := GetToken(t); Toks(t)[1..] == Toks(k.rest) && NoNul(k.rest) && |k.rest| < |t|
  {
    PeekTok(t, [c]);
    FirstTok(t);
  }

  lemma {:induction false} BacksSound(c: Tree, t: string) returns (ts: seq<Tok>)
    requires NoNul(t)
    ensures var r := Backs(c, t); Toks(t) == ts + Toks(r.1) && NoNul(r.1) && Amps(ts) && r.0 == Behind(c, |ts|)
    decreases |t|
  {
    hide Toks, GetToken, Skip, Peek;
    Starts(t, '&');
    if Peek(t, "&") {
      ts := BacksSound(Back(c), GetToken(t).rest);
      BehindMore(c, |ts|);
      var all := Toks(t);
      assert all == [all[0]] + all[1..];
      ts := [all[0]] + ts;
    } else {
      SkipAgain(t);
      SkipNoNul(t);
      ts := [];
    }
  }

  lemma {:induction false} BehindMore(c: Tree, n: nat)
    ensures Behind(Back(c), n) == Behind(c, n + 1)
  {
    if n > 0 {
      BehindMore(c, n - 1);
    }
  }

  lemma {:induction false} BacksComplete(c: Tree, t: string, ts: seq<Tok>, more: seq<Tok>)
    requires NoNul(t) && Toks(t) == ts + more && Amps(ts) && (more != [] ==> more[0].ret != '&')
    ensures var r := Backs(c, t); r.0 == Behind(c, |ts|) && Toks(r.1) == more && NoNul(r.1)
    decreases |ts|
  {
    hide Toks, GetToken, Skip, Peek;
    Starts(t, '&');
    if ts == [] {
      assert Toks(t) == more;
      SkipAgain(t);
      SkipNoNul(t);
    } else {
      assert Toks(t)[0] == ts[0] && Toks(t)[1..] == ts[1..] + more;
      BacksComplete(Back(c), GetToken(t).rest, ts[1..], more);
      BehindMore(c, |ts| - 1);
    }
  }

  lemma {:induction false} ExecSound(t: string) returns (ts: seq<Tok>)
    requires NoNul(t) && ParseExec(t).Ok?
    ensures var r := ParseExec(t).value; Toks(t) == ts + Toks(r.1) && NoNul(r.1) && Command(r.0, ts) && FewArgs(r.0)
    decreases |t|, 1
  {
    hide Toks, GetToken, Skip, Peek, Redirs, Args, Line;
    if Peek(t, "(") {
      ts := BlockSound(t);
    } else {
      ts := CommandsSound([], [], t);
      assert [] + FilesOf(ts) == FilesOf(ts) && [] + ArgsOf(ts) == ArgsOf(ts);
      FewAround(FilesOf(ts), Exec(ArgsOf(ts)));
    }
  }

  lemma Enclosed(open: Tok, inner: seq<Tok>, close: Tok, fs: seq<Tok>, all: seq<Tok>, rest: seq<Tok>, more: seq<Tok>)
    requires all != [] && all[0] == open && all[1..] == inner + rest && rest != [] && rest[0] == close && rest[1..] == fs + more
    ensures var ts := [open] + inner + [close] + fs; var k := 1 + |inner|;
            && all == ts + more && ts[0] == open && ts[1..k] == inner && ts[k] == close && ts[k + 1..] == fs
  {
    FirstToks(all);
    FirstToks(rest);
  }

  lemma {:induction false} BlockSound(t: string) returns (ts: seq<Tok>)
    requires NoNul(t) && ParseBlock(t).Ok?
    ensures var r := ParseBlock(t).value; Toks(t) == ts + Toks(r.1) && NoNul(r.1) && Block(r.0, ts) && FewArgs(r.0)
    decreases |t|, 0
  {
    hide Toks, GetToken, Skip, Peek, Redirs, Line, ParseLine;
    Starts(t, '(');
    var t1 := GetToken(t).rest;
    var inner := LineSound(t1);
    var r := ParseLine(t1).value;
    Starts(r.1, ')');
    var t2 := GetToken(r.1).rest;
    var fs := RedirsSound(r.0, t2);
    var open, close := Toks(t)[0], Toks(r.1)[0];
    ts := [open] + inner + [close] + fs;
    var k := 1 + |inner|;
    Enclosed(open, inner, close, fs, Toks(t), Toks(r.1), Toks(Redirs(r.0, t2).value.1));
    InsideAround(FilesOf(fs), r.0);
    FewAround(FilesOf(fs), r.0);
    assert BlockAt(Around(FilesOf(fs), r.0), ts, k);
  }

  lemma {:induction false} PipeSound(t: string) returns (ts: seq<Tok>)
    requires NoNul(t) && ParsePipe(t).Ok?
    ensures var r := ParsePipe(t).value; Toks(t) == ts + Toks(r.1) && NoNul(r.1) && Pipeline(r.0, ts) && FewArgs(r.0)
    decreases |t|, 2
  {
    hide Toks, GetToken, Skip, Peek, Command, ParseExec;
    ts := ExecSound(t);
    var l := ParseExec(t).value;
    Starts(l.1, '|');
    SkipAgain(l.1);
    SkipNoNul(l.1);
    if Peek(l.1, "|") {
      var right := PipeSound(GetToken(l.1).rest);
      var bar := Toks(l.1)[0];
      assert Toks(l.1) == [bar] + Toks(l.1)[1..];
      var us := ts + [bar] + right;
      assert us[..|ts|] == ts && us[|ts|] == bar && us[|ts| + 1..] == right;
      assert PipeAt(ParsePipe(t).value.0, us, |ts|);
      ts := us;
    }
  }

  lemma {:induction false} LineSound(t: string) returns (ts: seq<Tok>)
    requires NoNul(t) && ParseLine(t).Ok?
    ensures var r := ParseLine(t).value; Toks(t) == ts + Toks(r.1) && NoNul(r.1) && Line(r.0, ts) && FewArgs(r.0)
    decreases |t|, 3
  {
    hide Toks, GetToken, Skip, Peek, Pipeline, ParsePipe, Backs;
    var ps := PipeSound(t);
    var p := ParsePipe(t).value;
    var amps := BacksSound(p.0, p.1);
    var l := Backs(p.0, p.1);
    ts := ps + amps;
    FrontBehind(p.0, |amps|);
    assert ts[|ps|..] == amps && ts[..|ps|] == ps;
    assert JobAt(l.0, ts, |ps|);
    hide Job;
    Starts(l.1, ';');
    SkipAgain(l.1);
    SkipNoNul(l.1);
    if Peek(l.1, ";") {
      var right := LineSound(GetToken(l.1).rest);
      var semi := Toks(l.1)[0];
      assert Toks(l.1) == [semi] + Toks(l.1)[1..];
      var us := ts + [semi] + right;
      assert us[..|ts|] == ts && us[|ts|] == semi && us[|ts| + 1..] == right;
      assert ListAt(ParseLine(t).value.0, us, |ts|);
      ts := us;
    }
  }

  // ---- From tree to text ----------------------------------------------------------------------------------------------

  /** A separator is seen and eaten. */
  lemma Eats(t: string, k: Tok, ts: seq<Tok>)
    requires NoNul(t) && Toks(t) == [k] + ts && k.ret in "|()&;"
    ensures Peek(t, [k.ret]) && Toks(GetToken(t).rest) == ts && NoNul(GetToken(t).rest)
  {
    hide Toks, GetToken, Peek;
    Starts(t, k.ret);
    assert ([k] + ts)[1..] == ts;
  }

  /** A separator that is not there is not seen. */
  lemma Stays(t: string, c: char)
    requires NoNul(t) && c in "|()&;" && (Toks(t) != [] ==> Toks(t)[0].ret != c)
    ensures !Peek(t, [c]) && Toks(Skip(t)) == Toks(t) && NoNul(Skip(t))
  {
    hide Toks, GetToken, Peek, Skip;
    Starts(t, c);
    SkipAgain(t);
    SkipNoNul(t);
  }

  lemma SplitAt(ts: seq<Tok>, more: seq<Tok>, k: nat)
    requires k < |ts|
    ensures ts + more == ts[..k] + ([ts[k]] + (ts[k + 1..] + more))
  {
  }

  lemma SplitTwo(ts: seq<Tok>, more: seq<Tok>, k: nat)
    requires k <= |ts|
    ensures ts + more == ts[..k] + (ts[k..] + more)
  {
  }

  lemma {:induction false} ExecComplete(c: Tree, t: string, ts: seq<Tok>, more: seq<Tok>)
    requires NoNul(t) && Toks(t) == ts + more && Command(c, ts) && FewArgs(c) && EndsCommand(more)
    ensures var r := ParseExec(t); r.Ok? && r.value.0 == c && Toks(r.value.1) == more && NoNul(r.value.1)
    decreases |ts|, 2
  {
    hide Toks, GetToken, Skip, Peek, Redirs, Args, Block, ParseBlock, Plain, ArgsOf, FilesOf, Around;
    if Simple(c, ts) {
      if ts == [] {
        assert Toks(t) == more;
      } else {
        PlainHead(ts);
        assert Toks(t)[0] == ts[0];
      }
      Stays(t, '(');
      FewAround(FilesOf(ts), Exec(ArgsOf(ts)));
      NoneMore(FilesOf(ts));
      NoneMore(ArgsOf(ts));
      AroundNone(Exec([]));
      CommandsComplete([], [], t, ts, more);
    } else {
      BlockComplete(c, t, ts, more);
    }
  }

  lemma BlockToks(ts: seq<Tok>, more: seq<Tok>, k: nat)
    requires 0 < k < |ts|
    ensures ts + more == [ts[0]] + (ts[1..] + more) && ts[1..] + more == ts[1..k] + ([ts[k]] + (ts[k + 1..] + more))
  {
  }

  lemma {:induction false} BlockComplete(c: Tree, t: string, ts: seq<Tok>, more: seq<Tok>)
    requires NoNul(t) && Toks(t) == ts + more && Block(c, ts) && FewArgs(c) && EndsCommand(more)
    ensures var r := ParseBlock(t); Peek(t, "(") && r.Ok? && r.value.0 == c && Toks(r.value.1) == more && NoNul(r.value.1)
    decreases |ts|, 1
  {
    hide Toks, GetToken, Skip, Peek, Redirs, Line, ParseLine, Plain, ArgsOf, FilesOf, FewArgs;
    var k :| 0 < k < |ts| && BlockAt(c, ts, k);
    var inner, tail := ts[1..k], ts[k + 1..];
    var x := Inside(c, |FilesOf(tail)|);
    FewAround(FilesOf(tail), x);
    BlockToks(ts, more, k);
    Eats(t, ts[0], ts[1..] + more);
    LineComplete(x, GetToken(t).rest, inner, [ts[k]] + (tail + more));
    var r := ParseLine(GetToken(t).rest).value;
    Eats(r.1, ts[k], tail + more);
    RedirsComplete(x, GetToken(r.1).rest, tail, more);
  }

  lemma {:induction false} PipeComplete(c: Tree, t: string, ts: seq<Tok>, more: seq<Tok>)
    requires NoNul(t) && Toks(t) == ts + more && Pipeline(c, ts) && FewArgs(c) && (more == [] || more[0].ret in "&;)")
    ensures var r := ParsePipe(t); r.Ok? && r.value.0 == c && Toks(r.value.1) == more && NoNul(r.value.1)
    decreases |ts|, 4
  {
    hide Toks, GetToken, Skip, Peek, Command, ParseExec, FewArgs;
    if Command(c, ts) {
      ExecComplete(c, t, ts, more);
      Stays(ParseExec(t).value.1, '|');
    } else {
      var k :| 0 <= k < |ts| && PipeAt(c, ts, k);
      FewParts(c);
      SplitAt(ts, more, k);
      ExecComplete(c.left, t, ts[..k], [ts[k]] + (ts[k + 1..] + more));
      var l := ParseExec(t).value;
      Eats(l.1, ts[k], ts[k + 1..] + more);
      PipeComplete(c.right, GetToken(l.1).rest, ts[k + 1..], more);
    }
  }

  lemma FewParts(c: Tree)
    requires FewArgs(c) && (c.Pipe? || c.List?)
    ensures FewArgs(c.left) && FewArgs(c.right)
  {
  }

  /** A pipeline and the & behind it. */
  lemma {:induction false} JobComplete(c: Tree, t: string, ts: seq<Tok>, more: seq<Tok>)
    requires NoNul(t) && Toks(t) == ts + more && Job(c, ts) && FewArgs(c) && (more == [] || more[0].ret in ";)")
    ensures var p := ParsePipe(t);
            p.Ok? && var l := Backs(p.value.0, p.value.1); l.0 == c && Toks(l.1) == more && NoNul(l.1)
    decreases |ts|, 6
  {
    hide Toks, GetToken, Skip, Peek, Pipeline, ParsePipe, Backs;
    var k :| 0 <= k <= |ts| && JobAt(c, ts, k);
    var x := Front(c, |ts| - k);
    FrontBehind(x, |ts| - k);
    SplitTwo(ts, more, k);
    PipeComplete(x, t, ts[..k], ts[k..] + more);
    BacksComplete(x, ParsePipe(t).value.1, ts[k..], more);
  }

  lemma {:induction false} LineComplete(c: Tree, t: string, ts: seq<Tok>, more: seq<Tok>)
    requires NoNul(t) && Toks(t) == ts + more && Line(c, ts) && FewArgs(c) && (more == [] || more[0].ret == ')')
    ensures var r := ParseLine(t); r.Ok? && r.value.0 == c && Toks(r.value.1) == more && NoNul(r.value.1)
    decreases |ts|, 8
  {
    hide Toks, GetToken, Skip, Peek, ParsePipe, Backs, Job, FewArgs;
    if Job(c, ts) {
      JobComplete(c, t, ts, more);
      Stays(Backs(ParsePipe(t).value.0, ParsePipe(t).value.1).1, ';');
    } else {
      var k :| 0 <= k < |ts| && ListAt(c, ts, k);
      FewParts(c);
      SplitAt(ts, more, k);
      JobComplete(c.left, t, ts[..k], [ts[k]] + (ts[k + 1..] + more));
      var l := Backs(ParsePipe(t).value.0, ParsePipe(t).value.1);
      Eats(l.1, ts[k], ts[k + 1..] + more);
      LineComplete(c.right, GetToken(l.1).rest, ts[k + 1..], more);
    }
  }

  /** From every text the parser gets exactly the tree that the grammar gives to all its tokens, if its commands have fewer than
      MAXARGS arguments. It refuses every other text, such as one with tokens left over. */
  lemma ParsesIff(t: string, c: Tree)
    requires NoNul(t)
    ensures ParseCmd(t) == Ok(c) <==> Line(c, Toks(t)) && FewArgs(c)
  {
    hide Toks, GetToken, Skip, ParseLine, Line;
    if Line(c, Toks(t)) && FewArgs(c) {
      assert Toks(t) == Toks(t) + [];
      LineComplete(c, t, Toks(t), []);
      FirstTok(ParseLine(t).value.1);
    }
    if ParseCmd(t) == Ok(c) {
      var ts := LineSound(t);
      var rest := ParseLine(t).value.1;
      SkipAgain(rest);
      NoToks();
      assert Toks(t) == ts;
    }
  }

  lemma NoToks()
    ensures Toks("") == []
  {
  }

  /** A text has at most one tree. */
  lemma OneTree(t: string, c: Tree, d: Tree)
    requires NoNul(t) && Line(c, Toks(t)) && FewArgs(c) && Line(d, Toks(t)) && FewArgs(d)
    ensures c == d
  {
    hide Toks, Line, ParseCmd;
    ParsesIff(t, c);
    ParsesIff(t, d);
  }
}
