/** The grammar of src/sh.c: the parser as functions on the text that is left, a printer, and the proof that parsing inverts
    printing. */
module Shell {
  const MAXARGS: nat := 10

  datatype Mode = Read | Write // O_RDONLY on descriptor 0; O_WRONLY|O_CREATE on descriptor 1, for > and >> alike

  /** A command tree. Words are pieces of text, or spans of the input. */
  datatype Cmd<T> =
    | Exec(args: seq<T>)
    | Redir(cmd: Cmd<T>, file: T, mode: Mode)
    | Pipe(left: Cmd<T>, right: Cmd<T>)
    | List(left: Cmd<T>, right: Cmd<T>)
    | Back(cmd: Cmd<T>)

  datatype Res<T> = Ok(value: T) | Err

  predicate Space(c: char) { c == ' ' || c == '\t' || c == '\r' || c == '\n' || c == '\U{b}' }

  predicate Symbol(c: char) { c in "<|>&;()" }

  predicate WordChar(c: char) { !Space(c) && !Symbol(c) && c != '\0' }

  /** A C string has no NUL in it. */
  predicate NoNul(s: string) { forall i :: 0 <= i < |s| ==> s[i] != '\0' }

  predicate Word(w: string) { w != "" && forall i :: 0 <= i < |w| ==> WordChar(w[i]) }

  // ---- Tokens --------------------------------------------------------------------------------------------------

  /** The character under the cursor; 0 at the end. */
  function Head(t: string): char { if t == "" then '\0' else t[0] }

  function Skip(t: string): (r: string)
    ensures |r| <= |t| && !Space(Head(r))
  {
    if t != "" && Space(t[0]) then Skip(t[1..]) else t
  }

  /** The length of the word that t begins with. */
  function WordLen(t: string): (n: nat)
    ensures n <= |t|
  {
    if t == "" || Space(t[0]) || Symbol(t[0]) then 0 else 1 + WordLen(t[1..])
  }

  datatype Token = Token(ret: char, text: string, rest: string)

  /** gettoken: the kind of token ('a' for a word, '+' for >>), its text, and what is left. */
  function GetToken(t: string): (k: Token)
    ensures |k.rest| <= |t| && (k.ret != '\0' ==> |k.rest| < |t|)
  {
    var u := Skip(t);
    var c := Head(u);
    if c == '\0' then Token(c, "", u)
    else if c in "|();&<" then Token(c, u[..1], Skip(u[1..]))
    else if c == '>' then
      if Head(u[1..]) == '>' then Token('+', u[..2], Skip(u[2..])) else Token(c, u[..1], Skip(u[1..]))
    else Token('a', u[..WordLen(u)], Skip(u[WordLen(u)..]))
  }

  /** peek: whether the next token begins with one of the characters. */
  predicate Peek(t: string, toks: string) { Head(Skip(t)) != '\0' && Head(Skip(t)) in toks }

  // ---- The parser ------------------------------------------------------------------------------------------------

  type Tree = Cmd<string>

  type Parse = Res<(Tree, string)>

  /** One more argument for the command under the redirections. */
  function AddArg<T>(c: Cmd<T>, w: T): Cmd<T>
  {
    match c
    case Exec(args) => Exec(args + [w])
    case Redir(x, f, m) => Redir(AddArg(x, w), f, m)
    case _ => c
  }

  /** parseredirs */
  function Redirs(c: Tree, t: string): (r: Parse)
    ensures r.Ok? ==> |r.value.1| <= |t|
    decreases |t|
  {
    if !Peek(t, "<>") then Ok((c, Skip(t)))
    else
      var k := GetToken(t);
      var f := GetToken(k.rest);
      if f.ret != 'a' then Err else Redirs(Redir(c, f.text, if k.ret == '<' then Read else Write), f.rest)
  }

  /** parseexec's loop, with n arguments so far. */
  function Args(c: Tree, n: nat, t: string): (r: Parse)
    ensures r.Ok? ==> |r.value.1| <= |t|
    decreases |t|
  {
    if Peek(t, "|)&;") then Ok((c, Skip(t)))
    else
      var k := GetToken(t);
      if k.ret == '\0' then Ok((c, k.rest))
      else if k.ret != 'a' || n + 1 >= MAXARGS then Err
      else
        var r := Redirs(AddArg(c, k.text), k.rest);
        if r.Err? then Err else Args(r.value.0, n + 1, r.value.1)
  }

  function ParseExec(t: string): (r: Parse)
    ensures r.Ok? ==> |r.value.1| <= |t|
    decreases |t|, 1
  {
    if Peek(t, "(") then ParseBlock(t)
    else
      var r := Redirs(Exec([]), t);
      if r.Err? then Err else Args(r.value.0, 0, r.value.1)
  }

  function ParseBlock(t: string): (r: Parse)
    ensures r.Ok? ==> |r.value.1| <= |t|
    decreases |t|, 0
  {
    if !Peek(t, "(") then Err
    else
      var r := ParseLine(GetToken(t).rest);
      if r.Err? || !Peek(r.value.1, ")") then Err else Redirs(r.value.0, GetToken(r.value.1).rest)
  }

  function ParsePipe(t: string): (r: Parse)
    ensures r.Ok? ==> |r.value.1| <= |t|
    decreases |t|, 2
  {
    var l := ParseExec(t);
    if l.Err? || !Peek(l.value.1, "|") then (if l.Err? then Err else Ok((l.value.0, Skip(l.value.1))))
    else
      var r := ParsePipe(GetToken(l.value.1).rest);
      if r.Err? then Err else Ok((Pipe(l.value.0, r.value.0), r.value.1))
  }

  /** parseline's loop over & */
  function Backs<T>(c: Cmd<T>, t: string): (r: (Cmd<T>, string))
    ensures |r.1| <= |t|
    decreases |t|
  {
    if Peek(t, "&") then Backs(Back(c), GetToken(t).rest) else (c, Skip(t))
  }

  function ParseLine(t: string): (r: Parse)
    ensures r.Ok? ==> |r.value.1| <= |t|
    decreases |t|, 3
  {
    var p := ParsePipe(t);
    if p.Err? then Err
    else
      var l := Backs(p.value.0, p.value.1);
      if !Peek(l.1, ";") then Ok((l.0, Skip(l.1)))
      else
        var r := ParseLine(GetToken(l.1).rest);
        if r.Err? then Err else Ok((List(l.0, r.value.0), r.value.1))
  }

  function ParseCmd(t: string): Res<Tree>
  {
    var r := ParseLine(t);
    if r.Err? || Skip(r.value.1) != "" then Err else Ok(r.value.0)
  }

  // ---- The printer -----------------------------------------------------------------------------------------------

  /** How tightly a tree binds: lists 0, background 1, pipes 2, commands 3. */
  function Level<T>(c: Cmd<T>): nat { match c case List(_, _) => 0 case Back(_) => 1 case Pipe(_, _) => 2 case _ => 3 }

  function Words(ws: seq<string>): string
  {
    if ws == [] then "" else if |ws| == 1 then ws[0] else ws[0] + " " + Words(ws[1..])
  }

  function Arrow(m: Mode): string { if m == Read then "<" else ">" }

  /** Prints a tree where level `lev` is expected, with parentheses if it binds less tightly. */
  function Print(c: Tree, lev: nat): string
    decreases c, if lev > Level(c) then 1 else 0
  {
    if lev > Level(c) then "(" + Print(c, 0) + ")"
    else match c
      case Exec(args) => Words(args)
      case Redir(x, f, m) => Print(x, 3) + Arrow(m) + f
      case Pipe(l, r) => Print(l, 3) + "|" + Print(r, 2)
      case List(l, r) => Print(l, 1) + ";" + Print(r, 0)
      case Back(x) => Print(x, 1) + "&"
  }

  /** The trees that can be printed: words without blanks and symbols, and at most MAXARGS - 1 arguments. */
  predicate Printable(c: Tree)
  {
    match c
    case Exec(args) => |args| < MAXARGS && forall i :: 0 <= i < |args| ==> Word(args[i])
    case Redir(x, f, m) => Printable(x) && Word(f)
    case Pipe(l, r) => Printable(l) && Printable(r)
    case List(l, r) => Printable(l) && Printable(r)
    case Back(x) => Printable(x)
  }

  // ---- Tokens of printed text ----------------------------------------------------------------------------------------

  /** Text that does not begin with a blank or a NUL. */
  predicate Tight(t: string) { t == "" || (!Space(t[0]) && t[0] != '\0') }

  /** Text that may follow a word. */
  predicate EndsWord(t: string) { t == "" || Space(t[0]) || Symbol(t[0]) }

  lemma {:induction false} WordLenOf(w: string, k: string)
    requires (forall i :: 0 <= i < |w| ==> WordChar(w[i])) && EndsWord(k)
    ensures WordLen(w + k) == |w|
  {
    if w == "" {
      assert w + k == k;
    } else {
      assert (w + k)[1..] == w[1..] + k;
      WordLenOf(w[1..], k);
    }
  }

  lemma TokenWord(w: string, k: string)
    requires Word(w) && EndsWord(k)
    ensures GetToken(w + k) == Token('a', w, Skip(k)) && Head(w + k) == w[0]
  {
    hide WordLen;
    WordLenOf(w, k);
    assert (w + k)[0] == w[0] && (w + k)[..|w|] == w && (w + k)[|w|..] == k;
  }

  lemma TokenSymbol(c: char, k: string)
    requires c in "|();&<" || (c == '>' && Head(k) != '>')
    ensures GetToken([c] + k) == Token(c, [c], Skip(k)) && Skip([c] + k) == [c] + k
  {
    assert ([c] + k)[..1] == [c] && ([c] + k)[1..] == k;
  }

  // ---- Redirections and arguments ------------------------------------------------------------------------------------------

  /** What is under the redirections, and the text of the redirections. */
  function Base<T>(c: Cmd<T>): Cmd<T> { match c case Redir(x, _, _) => Base(x) case _ => c }

  function Tail(c: Tree): string { match c case Redir(x, f, m) => Tail(x) + (Arrow(m) + f) case _ => "" }

  /** The redirections of c around b. */
  function Rewrap<T>(c: Cmd<T>, b: Cmd<T>): Cmd<T> { match c case Redir(x, f, m) => Redir(Rewrap(x, b), f, m) case _ => b }

  lemma {:induction false} RewrapBase<T>(c: Cmd<T>)
    ensures Rewrap(c, Base(c)) == c
  {
    if c.Redir? {
      RewrapBase(c.cmd);
    }
  }

  lemma {:induction false} PrintBase(c: Tree)
    ensures Print(c, 3) == Print(Base(c), 3) + Tail(c)
  {
    match c {
      case Redir(x, f, m) =>
        PrintBase(x);
        assert Print(c, 3) == Print(x, 3) + Arrow(m) + f == Print(Base(c), 3) + (Tail(x) + (Arrow(m) + f));
      case _ => assert Tail(c) == "" && Print(c, 3) + "" == Print(c, 3);
    }
  }

  /** What may follow a whole command, pipe, background or list. */
  predicate Follow(lev: nat, k: string)
  {
    k == "" || (if lev >= 3 then k[0] in "|&;)" else if lev == 2 then k[0] in "&;)" else if lev == 1 then k[0] in ";)"
        else k[0] == ')')
  }

  lemma RedirsEnd(c: Tree, k: string)
    requires Tight(k) && Head(k) !in "<>"
    ensures Redirs(c, k) == Ok((c, k))
  {
  }

  lemma RedirsOne(c: Tree, f: string, m: Mode, k: string)
    requires Word(f) && EndsWord(k) && Tight(k)
    ensures Redirs(c, Arrow(m) + f + k) == Redirs(Redir(c, f, m), k)
  {
    var a := if m == Read then '<' else '>';
    assert Arrow(m) + f + k == [a] + (f + k);
    TokenWord(f, k);
    TokenSymbol(a, f + k);
    SkipTight(f + k);
    SkipTight(k);
  }

  lemma SkipTight(t: string)
    requires Tight(t)
    ensures Skip(t) == t
  {
  }

  lemma {:induction false} RedirsAll(c: Tree, b: Tree, k: string)
    requires Printable(c) && EndsWord(k) && Tight(k)
    ensures Redirs(b, Tail(c) + k) == Redirs(Rewrap(c, b), k)
  {
    hide Redirs;
    match c {
      case Redir(x, f, m) =>
        var k' := Arrow(m) + f + k;
        assert Tail(c) + k == Tail(x) + k';
        assert EndsWord(k') && Tight(k');
        RedirsAll(x, b, k');
        RedirsOne(Rewrap(x, b), f, m, k);
      case _ => assert Tail(c) + k == k;
    }
  }

  lemma {:induction false} TailTight(c: Tree, k: string)
    requires EndsWord(k) && Tight(k)
    ensures EndsWord(Tail(c) + k) && Tight(Tail(c) + k) && (Tail(c) == "" || Head(Tail(c) + k) in "<>")
  {
    match c {
      case Redir(x, f, m) =>
        TailTight(x, Arrow(m) + f + k);
        assert Tail(c) + k == Tail(x) + (Arrow(m) + f + k);
      case _ => assert Tail(c) + k == k;
    }
  }

  lemma ArgsEnd(c: Tree, n: nat, k: string)
    requires Follow(3, k)
    ensures Args(c, n, k) == Ok((c, k))
  {
    SkipTight(k);
  }

  /** The rest of a command after its last word: its redirections. */
  lemma AfterWords(c: Tree, b: Tree, k: string)
    requires Printable(c) && Follow(3, k)
    ensures Redirs(b, Tail(c) + k) == Ok((Rewrap(c, b), k))
  {
    hide Redirs;
    RedirsAll(c, b, k);
    RedirsEnd(Rewrap(c, b), k);
  }

  lemma WordsStart(ws: seq<string>, r: string)
    requires ws != [] && Word(ws[0])
    ensures WordChar(Head(Words(ws) + r)) && Tight(Words(ws) + r)
  {
    assert (Words(ws) + r)[0] == ws[0][0];
  }

  lemma SkipBlank(t: string)
    requires Tight(t)
    ensures Skip(" " + t) == t
  {
    assert (" " + t)[1..] == t;
  }

  lemma WordsOne(ws: seq<string>, r: string)
    requires |ws| == 1 && Word(ws[0]) && EndsWord(r) && Tight(r)
    ensures GetToken(Words(ws) + r) == Token('a', ws[0], r)
  {
    hide GetToken, Word;
    TokenWord(ws[0], r);
    SkipTight(r);
  }

  lemma WordsMore(ws: seq<string>, r: string)
    requires |ws| > 1 && Word(ws[0]) && Word(ws[1])
    ensures GetToken(Words(ws) + r) == Token('a', ws[0], Words(ws[1..]) + r)
  {
    hide GetToken, Word;
    var t := Words(ws[1..]) + r;
    WordsStart(ws[1..], r);
    assert Words(ws) + r == ws[0] + (" " + t);
    hide Words;
    TokenWord(ws[0], " " + t);
    SkipBlank(t);
  }

  /** One turn of parseexec's loop. */
  lemma ArgsStep(c: Tree, n: nat, t: string, w: string, rest: string, c': Tree, rest': string)
    requires Tight(t) && WordChar(Head(t)) && GetToken(t) == Token('a', w, rest) && n + 1 < MAXARGS
    requires Redirs(AddArg(c, w), rest) == Ok((c', rest'))
    ensures Args(c, n, t) == Args(c', n + 1, rest')
  {
    hide Redirs, GetToken;
    SkipTight(t);
  }

  /** The words of a command, then its redirections. */
  lemma {:induction false} ArgsAll(c: Tree, done: seq<string>, ws: seq<string>, k: string)
    requires Printable(c) && Follow(3, k) && ws != [] && |done| + |ws| < MAXARGS && forall i :: 0 <= i < |ws| ==> Word(ws[i])
    ensures Args(Exec(done), |done|, Words(ws) + (Tail(c) + k)) == Ok((Rewrap(c, Exec(done + ws)), k))
    decreases |ws|
  {
    hide Redirs, GetToken, Words, Args, Word, Tail, Printable;
    var r, next := Tail(c) + k, Exec(done + [ws[0]]);
    TailTight(c, k);
    WordsStart(ws, r);
    if |ws| == 1 {
      WordsOne(ws, r);
      AfterWords(c, next, k);
      ArgsStep(Exec(done), |done|, Words(ws) + r, ws[0], r, Rewrap(c, next), k);
      ArgsEnd(Rewrap(c, next), |done| + 1, k);
      assert done + ws == done + [ws[0]];
    } else {
      WordsMore(ws, r);
      WordsStart(ws[1..], r);
      RedirsEnd(next, Words(ws[1..]) + r);
      ArgsStep(Exec(done), |done|, Words(ws) + r, ws[0], Words(ws[1..]) + r, next, Words(ws[1..]) + r);
      ArgsAll(c, done + [ws[0]], ws[1..], k);
      assert done + [ws[0]] + ws[1..] == done + ws;
    }
  }

  lemma ExecStep(t: string, c: Tree, rest: string)
    requires Tight(t) && Head(t) != '(' && Redirs(Exec([]), t) == Ok((c, rest))
    ensures ParseExec(t) == Args(c, 0, rest)
  {
    hide Redirs, Args;
    SkipTight(t);
  }

  lemma BareParses(c: Tree, k: string)
    requires Printable(c) && Follow(3, k) && Rewrap(c, Exec([])) == c
    ensures ParseExec(Tail(c) + k) == Ok((c, k))
  {
    hide Redirs, Args, ParseExec, Tail, Printable, Rewrap;
    TailTight(c, k);
    AfterWords(c, Exec([]), k);
    NotParen(c, k);
    ExecStep(Tail(c) + k, c, k);
    ArgsEnd(c, 0, k);
  }

  lemma WordsParse(c: Tree, args: seq<string>, k: string)
    requires Printable(c) && Follow(3, k) && Rewrap(c, Exec(args)) == c && args != [] && Printable(Exec(args))
    ensures ParseExec(Words(args) + (Tail(c) + k)) == Ok((c, k))
  {
    assert forall i :: 0 <= i < |args| ==> Word(args[i]);
    hide Redirs, Args, ParseExec, Tail, Printable, Rewrap, Words, Word;
    var t := Words(args) + (Tail(c) + k);
    WordsStart(args, Tail(c) + k);
    RedirsEnd(Exec([]), t);
    ExecStep(t, Exec([]), t);
    ArgsAll(c, [], args, k);
    assert [] + args == args;
  }

  lemma Assoc(a: string, b: string, c: string)
    ensures (a + b) + c == a + (b + c)
  {
  }

  lemma SimpleText(c: Tree, k: string)
    requires Base(c).Exec?
    ensures Print(c, 3) + k == Words(Base(c).args) + (Tail(c) + k)
  {
    assert Print(Base(c), 3) == Words(Base(c).args);
    hide Print, Words, Tail;
    PrintBase(c);
    Assoc(Words(Base(c).args), Tail(c), k);
  }

  /** A simple command: words and redirections. */
  lemma SimpleParses(c: Tree, k: string)
    requires Printable(c) && Base(c).Exec? && Printable(Base(c)) && Follow(3, k)
    ensures ParseExec(Print(c, 3) + k) == Ok((c, k))
  {
    hide Words, ParseExec, Print, Tail, Follow, Printable, Rewrap, Base;
    var args := Base(c).args;
    SimpleText(c, k);
    RewrapBase(c);
    if args == [] {
      WordsNone(Tail(c) + k);
      BareParses(c, k);
    } else {
      WordsParse(c, args, k);
    }
  }

  lemma NotParen(c: Tree, k: string)
    requires Follow(3, k)
    ensures Head(Tail(c) + k) != '('
  {
    TailTight(c, k);
    if Tail(c) == "" {
      assert Tail(c) + k == k;
    }
  }

  lemma WordsNone(r: string)
    ensures Words([]) + r == r
  {
  }

  // ---- The round trip ------------------------------------------------------------------------------------------------------

  function Size<T>(c: Cmd<T>): nat
  {
    match c
    case Exec(_) => 0
    case Redir(x, _, _) => 1 + Size(x)
    case Pipe(l, r) => 1 + Size(l) + Size(r)
    case List(l, r) => 1 + Size(l) + Size(r)
    case Back(x) => 1 + Size(x)
  }

  lemma {:induction false} BaseFacts(c: Tree)
    requires Printable(c)
    ensures Printable(Base(c)) && Size(Base(c)) <= Size(c) && (c.Redir? ==> Size(Base(c)) < Size(c)) && !Base(c).Redir?
  {
    if c.Redir? {
      BaseFacts(c.cmd);
    }
  }

  /** What the parser does at each level: 0 a line, 1 a pipe with its &s, 2 a pipe, 3 a command. */
  function ParseAt(lev: nat, t: string): Parse
  {
    if lev == 0 then ParseLine(t)
    else if lev == 1 then var p := ParsePipe(t); (if p.Err? then Err else Ok(Backs(p.value.0, p.value.1)))
    else if lev == 2 then ParsePipe(t)
    else ParseExec(t)
  }

  lemma Three(a: string, b: string, c: string, k: string)
    ensures (a + b + c) + k == a + (b + (c + k))
  {
  }

  lemma ParenText(c: Tree, lev: nat, k: string)
    requires lev > Level(c)
    ensures Print(c, lev) + k == "(" + (Print(c, 0) + (")" + k))
  {
    var p := Print(c, 0);
    assert Print(c, lev) == "(" + p + ")";
    hide Print;
    Three("(", p, ")", k);
  }

  lemma RedirText(x: Tree, f: string, m: Mode, lev: nat, k: string)
    requires lev <= 3
    ensures Print(Redir(x, f, m), lev) + k == Print(x, 3) + (Arrow(m) + (f + k))
  {
    var p := Print(x, 3);
    assert Print(Redir(x, f, m), lev) == p + Arrow(m) + f;
    hide Print;
    Three(p, Arrow(m), f, k);
  }

  lemma PipeText(l: Tree, r: Tree, lev: nat, k: string)
    requires lev <= 2
    ensures Print(Pipe(l, r), lev) + k == Print(l, 3) + ("|" + (Print(r, 2) + k))
  {
    var p, q := Print(l, 3), Print(r, 2);
    assert Print(Pipe(l, r), lev) == p + "|" + q;
    hide Print;
    Three(p, "|", q, k);
  }

  lemma ListText(l: Tree, r: Tree, k: string)
    ensures Print(List(l, r), 0) + k == Print(l, 1) + (";" + (Print(r, 0) + k))
  {
    var p, q := Print(l, 1), Print(r, 0);
    assert Print(List(l, r), 0) == p + ";" + q;
    hide Print;
    Three(p, ";", q, k);
  }

  lemma BackText(x: Tree, lev: nat, k: string)
    requires lev <= 1
    ensures Print(Back(x), lev) + k == Print(x, 1) + ("&" + k)
  {
    var p := Print(x, 1);
    assert Print(Back(x), lev) == p + "&";
    hide Print;
    Assoc(p, "&", k);
  }

  /** Printed text does not begin with a blank. */
  lemma {:induction false} PrintTight(c: Tree, lev: nat, k: string)
    requires Printable(c) && Tight(k)
    ensures Tight(Print(c, lev) + k)
    decreases c, if lev > Level(c) then 1 else 0
  {
    if lev > Level(c) {
      ParenText(c, lev, k);
    } else {
      match c {
        case Exec(args) => ExecTight(args, lev, k);
        case Redir(x, f, m) =>
          RedirText(x, f, m, lev, k);
          PrintTight(x, 3, Arrow(m) + (f + k));
        case Pipe(l, r) =>
          PipeText(l, r, lev, k);
          PrintTight(l, 3, "|" + (Print(r, 2) + k));
        case List(l, r) =>
          ListText(l, r, k);
          PrintTight(l, 1, ";" + (Print(r, 0) + k));
        case Back(x) =>
          BackText(x, lev, k);
          PrintTight(x, 1, "&" + k);
      }
    }
  }

  lemma ExecTight(args: seq<string>, lev: nat, k: string)
    requires Printable(Exec(args)) && Tight(k) && lev <= 3
    ensures Tight(Print(Exec(args), lev) + k)
  {
    if args == [] {
      WordsNone(k);
    } else {
      WordsStart(args, k);
    }
  }

  lemma PeekHead(t: string, toks: string)
    requires Tight(t)
    ensures Peek(t, toks) <==> t != "" && t[0] in toks
  {
  }

  /** A block: a line in parentheses, with redirections. */
  lemma BlockStep(t: string, b: Tree, rest: string)
    requires Tight(t) && Tight(rest) && ParseLine(t) == Ok((b, ")" + rest))
    ensures ParseExec("(" + t) == Redirs(b, rest)
  {
    hide Redirs, ParseLine, Peek, GetToken, Args;
    TokenSymbol('(', t);
    SkipTight(t);
    PeekHead("(" + t, "(");
    PeekHead(")" + rest, ")");
    TokenSymbol(')', rest);
    SkipTight(rest);
    assert ParseBlock("(" + t) == Redirs(b, rest);
  }

  /** A command that is not a simple one: its base, printed in parentheses. */
  lemma BlockParses(c: Tree, k: string)
    requires Printable(c) && !Base(c).Exec? && !Base(c).Redir? && Printable(Base(c)) && Follow(3, k)
    requires ParseLine(Print(Base(c), 0) + (")" + (Tail(c) + k))) == Ok((Base(c), ")" + (Tail(c) + k)))
    ensures ParseExec(Print(c, 3) + k) == Ok((c, k))
  {
    BlockText(c, k);
    hide Print, Tail, ParseLine, ParseExec, Redirs, Rewrap, Printable;
    var rest := Tail(c) + k;
    TailTight(c, k);
    PrintTight(Base(c), 0, ")" + rest);
    BlockStep(Print(Base(c), 0) + (")" + rest), Base(c), rest);
    AfterWords(c, Base(c), k);
    RewrapBase(c);
  }

  lemma BlockText(c: Tree, k: string)
    requires !Base(c).Exec? && !Base(c).Redir?
    ensures Print(c, 3) + k == "(" + (Print(Base(c), 0) + (")" + (Tail(c) + k)))
  {
    assert Print(Base(c), 3) == "(" + Print(Base(c), 0) + ")";
    hide Print, Tail;
    PrintBase(c);
    var p, q := Print(Base(c), 0), Tail(c);
    assert ("(" + p + ")" + q) + k == "(" + (p + (")" + (q + k)));
  }

  lemma PipeStep(t: string, l: Tree, t': string, r: Tree, rest: string)
    requires ParseExec(t) == Ok((l, "|" + t')) && Tight(t') && ParsePipe(t') == Ok((r, rest))
    ensures ParsePipe(t) == Ok((Pipe(l, r), rest))
  {
    hide ParseExec, GetToken, Peek;
    TokenSymbol('|', t');
    SkipTight(t');
    PeekHead("|" + t', "|");
  }

  lemma PipeEnd(t: string, c: Tree, k: string)
    requires ParseExec(t) == Ok((c, k)) && Follow(2, k)
    ensures ParsePipe(t) == Ok((c, k))
  {
    hide ParseExec, GetToken, Peek;
    PeekHead(k, "|");
    SkipTight(k);
  }

  lemma LineStep(t: string, l: Tree, t': string, r: Tree, rest: string)
    requires ParseAt(1, t) == Ok((l, ";" + t')) && Tight(t') && ParseLine(t') == Ok((r, rest))
    ensures ParseLine(t) == Ok((List(l, r), rest))
  {
    hide ParsePipe, GetToken, Peek, Backs;
    TokenSymbol(';', t');
    SkipTight(t');
    PeekHead(";" + t', ";");
  }

  lemma LineEnd(t: string, c: Tree, k: string)
    requires ParseAt(1, t) == Ok((c, k)) && Follow(0, k)
    ensures ParseLine(t) == Ok((c, k))
  {
    hide ParsePipe, GetToken, Peek, Backs;
    PeekHead(k, ";");
    SkipTight(k);
  }

  lemma BacksOne(c: Tree, k: string)
    requires Tight(k)
    ensures Backs(c, "&" + k) == Backs(Back(c), k)
  {
    TokenSymbol('&', k);
    SkipTight(k);
    PeekHead("&" + k, "&");
  }

  lemma BacksEnd(c: Tree, k: string)
    requires Follow(1, k)
    ensures Backs(c, k) == (c, k)
  {
  }

  lemma LevelOneIs(t: string, c: Tree, k: string)
    requires ParsePipe(t) == Ok((c, k))
    ensures ParseAt(1, t) == Ok(Backs(c, k))
  {
  }

  /** A tree prints the same at two levels unless it is at home at the first. */
  lemma SameText(c: Tree, lev: nat)
    requires lev < 3 && Level(c) != lev
    ensures Print(c, lev + 1) == Print(c, lev)
  {
  }

  function Order<T>(c: Cmd<T>, lev: nat): nat { if lev > Level(c) then (if lev < 10 then 10 - lev else 0) else Level(c) - lev }

  lemma {:induction false} ExecParses(c: Tree, k: string)
    requires Printable(c) && Follow(3, k)
    ensures ParseExec(Print(c, 3) + k) == Ok((c, k))
    decreases Size(c), Order(c, 3)
  {
    hide ParseExec, ParseLine, Print, Tail, Printable;
    BaseFacts(c);
    if Base(c).Exec? {
      SimpleParses(c, k);
    } else {
      var rest := ")" + (Tail(c) + k);
      if !c.Redir? {
        assert Base(c) == c;
      }
      LineParses(Base(c), rest);
      BlockParses(c, k);
    }
  }

  lemma {:induction false} PipeParses(c: Tree, k: string)
    requires Printable(c) && Follow(2, k)
    ensures ParsePipe(Print(c, 2) + k) == Ok((c, k))
    decreases Size(c), Order(c, 2)
  {
    hide ParseExec, ParsePipe, Print;
    if c.Pipe? {
      var rest := Print(c.right, 2) + k;
      PipeText(c.left, c.right, 2, k);
      ExecParses(c.left, "|" + rest);
      PipeParses(c.right, k);
      PrintTight(c.right, 2, k);
      PipeStep(Print(c, 2) + k, c.left, rest, c.right, k);
    } else {
      SameText(c, 2);
      ExecParses(c, k);
      PipeEnd(Print(c, 2) + k, c, k);
    }
  }

  lemma {:induction false} BacksParse(c: Tree, k: string)
    requires Printable(c) && Follow(2, k)
    ensures ParseAt(1, Print(c, 1) + k) == Ok(Backs(c, k))
    decreases Size(c), Order(c, 1)
  {
    hide ParseAt, ParsePipe, Print, Backs;
    if c.Back? {
      BackText(c.cmd, 1, k);
      BacksParse(c.cmd, "&" + k);
      BacksOne(c.cmd, k);
    } else {
      SameText(c, 1);
      PipeParses(c, k);
      LevelOneIs(Print(c, 1) + k, c, k);
    }
  }

  lemma {:induction false} LineParses(c: Tree, k: string)
    requires Printable(c) && Follow(0, k)
    ensures ParseLine(Print(c, 0) + k) == Ok((c, k))
    decreases Size(c), Order(c, 0)
  {
    hide ParseAt, ParseLine, Print, Backs;
    if c.List? {
      var rest := Print(c.right, 0) + k;
      ListText(c.left, c.right, k);
      BacksParse(c.left, ";" + rest);
      BacksEnd(c.left, ";" + rest);
      LineParses(c.right, k);
      PrintTight(c.right, 0, k);
      LineStep(Print(c, 0) + k, c.left, rest, c.right, k);
    } else {
      SameText(c, 0);
      BacksParse(c, k);
      BacksEnd(c, k);
      LineEnd(Print(c, 0) + k, c, k);
    }
  }

  /** Parsing inverts printing, for every tree that can be printed. */
  lemma ParserInvertsPrinter(c: Tree)
    requires Printable(c)
    ensures ParseCmd(Print(c, 0)) == Ok(c)
  {
    hide ParseLine, Print, Printable;
    LineParses(c, "");
    assert Print(c, 0) + "" == Print(c, 0);
  }

  // ---- The limit on arguments ----------------------------------------------------------------------------------------------

  /** Every command of the tree has fewer than MAXARGS arguments. */
  predicate FewArgs<T>(c: Cmd<T>)
  {
    match c
    case Exec(args) => |args| < MAXARGS
    case Redir(x, _, _) => FewArgs(x)
    case Pipe(l, r) => FewArgs(l) && FewArgs(r)
    case List(l, r) => FewArgs(l) && FewArgs(r)
    case Back(x) => FewArgs(x)
  }

  /** Every word of the tree is free of blanks and symbols. */
  predicate WordTree(c: Tree)
  {
    match c
    case Exec(args) => forall i :: 0 <= i < |args| ==> Word(args[i])
    case Redir(x, f, _) => WordTree(x) && Word(f)
    case Pipe(l, r) => WordTree(l) && WordTree(r)
    case List(l, r) => WordTree(l) && WordTree(r)
    case Back(x) => WordTree(x)
  }

  lemma {:induction false} PrintableIs(c: Tree)
    ensures Printable(c) <==> FewArgs(c) && WordTree(c)
  {
    match c {
      case Exec(args) =>
      case Redir(x, f, m) => PrintableIs(x);
      case Pipe(l, r) => PrintableIs(l); PrintableIs(r);
      case List(l, r) => PrintableIs(l); PrintableIs(r);
      case Back(x) => PrintableIs(x);
    }
  }

  /** A command under redirections with n arguments. */
  predicate Simple<T>(c: Cmd<T>, n: nat)
  {
    match c
    case Exec(args) => |args| == n
    case Redir(x, _, _) => Simple(x, n)
    case _ => false
  }

  lemma {:induction false} AddArgSimple<T>(c: Cmd<T>, n: nat, w: T)
    requires Simple(c, n)
    ensures Simple(AddArg(c, w), n + 1)
  {
    if c.Redir? {
      AddArgSimple(c.cmd, n, w);
    }
  }

  lemma {:induction false} SimpleFew<T>(c: Cmd<T>, n: nat)
    requires Simple(c, n) && n < MAXARGS
    ensures FewArgs(c)
  {
    if c.Redir? {
      SimpleFew(c.cmd, n);
    }
  }

  lemma {:induction false} RedirsFew(c: Tree, n: nat, t: string)
    ensures Redirs(c, t).Ok? ==>
            (FewArgs(c) ==> FewArgs(Redirs(c, t).value.0)) && (Simple(c, n) ==> Simple(Redirs(c, t).value.0, n))
    decreases |t|
  {
    hide GetToken, Peek;
    if Peek(t, "<>") {
      var k := GetToken(t);
      var f := GetToken(k.rest);
      assert k.ret != '\0' by { PeekedToken(t, "<>"); }
      if f.ret == 'a' {
        RedirsFew(Redir(c, f.text, if k.ret == '<' then Read else Write), n, f.rest);
      }
    }
  }

  lemma PeekedToken(t: string, toks: string)
    requires Peek(t, toks)
    ensures GetToken(t).ret != '\0'
  {
  }

  lemma {:induction false} ArgsFew(c: Tree, n: nat, t: string)
    requires Simple(c, n) && n < MAXARGS
    ensures Args(c, n, t).Ok? ==> FewArgs(Args(c, n, t).value.0)
    decreases |t|
  {
    hide GetToken, Peek, Redirs, FewArgs;
    SimpleFew(c, n);
    var k := GetToken(t);
    if !Peek(t, "|)&;") && k.ret == 'a' && n + 1 < MAXARGS {
      AddArgSimple(c, n, k.text);
      RedirsFew(AddArg(c, k.text), n + 1, k.rest);
      var r := Redirs(AddArg(c, k.text), k.rest);
      if r.Ok? {
        ArgsFew(r.value.0, n + 1, r.value.1);
      }
    }
  }

  lemma {:induction false} ExecFew(t: string)
    ensures ParseExec(t).Ok? ==> FewArgs(ParseExec(t).value.0)
    decreases |t|, 1
  {
    hide GetToken, Peek, Redirs, Args, ParseBlock;
    if Peek(t, "(") {
      BlockFew(t);
    } else {
      RedirsFew(Exec([]), 0, t);
      var r := Redirs(Exec([]), t);
      if r.Ok? {
        ArgsFew(r.value.0, 0, r.value.1);
      }
    }
  }

  lemma {:induction false} BlockFew(t: string)
    ensures ParseBlock(t).Ok? ==> FewArgs(ParseBlock(t).value.0)
    decreases |t|, 0
  {
    hide GetToken, Peek, Redirs, ParseLine;
    if Peek(t, "(") {
      PeekedToken(t, "(");
      var r := ParseLine(GetToken(t).rest);
      LineFew(GetToken(t).rest);
      if r.Ok? {
        RedirsFew(r.value.0, 0, GetToken(r.value.1).rest);
      }
    }
  }

  lemma {:induction false} PipeFew(t: string)
    ensures ParsePipe(t).Ok? ==> FewArgs(ParsePipe(t).value.0)
    decreases |t|, 2
  {
    hide GetToken, Peek, ParseExec;
    ExecFew(t);
    var l := ParseExec(t);
    if l.Ok? && Peek(l.value.1, "|") {
      PeekedToken(l.value.1, "|");
      PipeFew(GetToken(l.value.1).rest);
    }
  }

  lemma {:induction false} BacksFew<T>(c: Cmd<T>, t: string)
    requires FewArgs(c)
    ensures FewArgs(Backs(c, t).0)
    decreases |t|
  {
    hide GetToken, Peek;
    if Peek(t, "&") {
      PeekedToken(t, "&");
      BacksFew(Back(c), GetToken(t).rest);
    }
  }

  lemma {:induction false} LineFew(t: string)
    ensures ParseLine(t).Ok? ==> FewArgs(ParseLine(t).value.0)
    decreases |t|, 3
  {
    hide GetToken, Peek, ParsePipe, Backs;
    PipeFew(t);
    var p := ParsePipe(t);
    if p.Ok? {
      BacksFew(p.value.0, p.value.1);
      var l := Backs(p.value.0, p.value.1);
      if Peek(l.1, ";") {
        PeekedToken(l.1, ";");
        LineFew(GetToken(l.1).rest);
      }
    }
  }

  /** Exactly when parsing inverts printing: a tree of words is read back if and only if every command in it has fewer than
      MAXARGS arguments. */
  lemma RoundTripIff(c: Tree)
    requires WordTree(c)
    ensures ParseCmd(Print(c, 0)) == Ok(c) <==> FewArgs(c)
  {
    hide ParseLine, Print, Printable, FewArgs, WordTree;
    PrintableIs(c);
    LineFew(Print(c, 0));
    if FewArgs(c) {
      ParserInvertsPrinter(c);
    }
  }
}
