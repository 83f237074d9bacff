/** Printing commands, and the round trip: the parser of sh.c reads back every printed command. */
module ShellPrinter {
  import opened ShellLexer
  import opened ShellParser

  /** A command with its words as text. */
  datatype Source =
    | Run(words: seq<string>)
    | Redirect(cmd: Source, file: string, mode: Mode)
    | PipeTo(left: Source, right: Source)
    | Then(left: Source, right: Source)
    | Background(cmd: Source)

  predicate LegalWord(w: string) {
    w != [] && forall k :: 0 <= k < |w| ==> WordChar(w[k]) && w[k] != '\0'
  }

  predicate Legal(t: Source) {
    match t
    case Run(words) => |words| < MAXARGS && forall k :: 0 <= k < |words| ==> LegalWord(words[k])
    case Redirect(cmd, file, _) => Legal(cmd) && LegalWord(file)
    case PipeTo(left, right) => Legal(left) && Legal(right)
    case Then(left, right) => Legal(left) && Legal(right)
    case Background(cmd) => Legal(cmd)
  }

  /** The command a parse tree over line s stands for. */
  function Meaning(s: string, c: Cmd): Source
    requires AllWords(s, c)
  {
    match c
    case Exec(args) => Run(seq(|args|, k requires 0 <= k < |args| => s[args[k].q..args[k].eq]))
    case Redir(cmd, file, mode) => Redirect(Meaning(s, cmd), s[file.q..file.eq], mode)
    case Pipe(left, right) => PipeTo(Meaning(s, left), Meaning(s, right))
    case List(left, right) => Then(Meaning(s, left), Meaning(s, right))
    case Back(cmd) => Background(Meaning(s, cmd))
  }

  // ---------------------------------------------------------------- printing

  datatype Lexeme = Text(w: string) | Mark(c: char) | DoubleGreater

  function ModeLexeme(m: Mode): Lexeme {
    match m case Input => Mark('<') case Output => Mark('>') case AppendTo => DoubleGreater
  }

  function WordLexemes(ws: seq<string>): (r: seq<Lexeme>)
    ensures |r| == |ws| && forall k :: 0 <= k < |ws| ==> r[k] == Text(ws[k])
  {
    seq(|ws|, k requires 0 <= k < |ws| => Text(ws[k]))
  }

  /** Where a block or simple command is expected. */
  function PrintUnit(t: Source): (r: seq<Lexeme>)
    ensures Legal(t) ==> LegalLexemes(r)
    decreases t, 1
  {
    match t
    case Run(words) => WordLexemes(words)
    case Redirect(cmd, file, mode) => PrintUnit(cmd) + [ModeLexeme(mode), Text(file)]
    case _ => [Mark('(')] + PrintOperator(t) + [Mark(')')]
  }

  /** A command with a | ; or & at its top. */
  function PrintOperator(t: Source): (r: seq<Lexeme>)
    requires !t.Run? && !t.Redirect?
    ensures Legal(t) ==> LegalLexemes(r)
    decreases t, 0
  {
    match t
    case PipeTo(left, right) => PrintUnit(left) + [Mark('|')] + PrintPipe(right)
    case Then(left, right) => PrintJob(left) + [Mark(';')] + PrintLine(right)
    case Background(cmd) => PrintJob(cmd) + [Mark('&')]
  }

  function PrintPipe(t: Source): (r: seq<Lexeme>)
    ensures Legal(t) ==> LegalLexemes(r)
    decreases t, 2
  {
    if t.PipeTo? then PrintOperator(t) else PrintUnit(t)
  }

  function PrintJob(t: Source): (r: seq<Lexeme>)
    ensures Legal(t) ==> LegalLexemes(r)
    decreases t, 3
  {
    if t.Background? then PrintOperator(t) else PrintPipe(t)
  }

  function PrintLine(t: Source): (r: seq<Lexeme>)
    ensures Legal(t) ==> LegalLexemes(r)
    decreases t, 4
  {
    if t.Then? then PrintOperator(t) else PrintJob(t)
  }

  function Spell(l: Lexeme): string {
    match l case Text(w) => w case Mark(c) => [c] case DoubleGreater => ">>"
  }

  /** Every lexeme followed by a space. */
  function Spread(ls: seq<Lexeme>): string {
    if ls == [] then [] else Spell(ls[0]) + " " + Spread(ls[1..])
  }

  function Print(t: Source): string {
    Spread(PrintLine(t))
  }

  predicate LegalLexeme(l: Lexeme) {
    match l case Text(w) => LegalWord(w) case Mark(c) => Symbol(c) case DoubleGreater => true
  }

  predicate LegalLexemes(ls: seq<Lexeme>) {
    forall k :: 0 <= k < |ls| ==> LegalLexeme(ls[k])
  }

  // ---------------------------------------------------------------- reading lexemes back

  /** Token t of line s is lexeme l. */
  predicate Reads(s: string, t: Token, l: Lexeme) {
    match l
    case Text(w) => t.Word? && WordAt(s, t.span) && s[t.span.q..t.span.eq] == w
    case Mark(c) => t == Sym(c)
    case DoubleGreater => t == Append
  }

  ghost predicate ReadsAll(s: string, ts: seq<Token>, ls: seq<Lexeme>) {
    |ts| == |ls| && forall k :: 0 <= k < |ts| ==> Reads(s, ts[k], ls[k])
  }

  lemma {:induction false} WordEndIs(s: string, i: nat, e: nat)
    requires i <= e < |s| && !WordChar(s[e]) && forall k :: i <= k < e ==> WordChar(s[k])
    ensures WordEnd(s, i) == e
    decreases e - i
  {
    if i < e {
      WordEndIs(s, i + 1, e);
    }
  }

  lemma SpreadAt(s: string, i: nat, ls: seq<Lexeme>)
    requires i <= |s| && ls != [] && s[i..] == Spread(ls)
    ensures var e := i + |Spell(ls[0])|;
            e < |s| && s[i..e] == Spell(ls[0]) && s[e] == ' ' && s[e + 1..] == Spread(ls[1..])
  {
    Slices(s, i, Spell(ls[0]), Spread(ls[1..]));
  }

  lemma Slices(s: string, i: nat, w: string, v: string)
    requires i <= |s| && s[i..] == w + " " + v
    ensures var e := i + |w|; e < |s| && s[i..e] == w && s[e] == ' ' && s[e + 1..] == v
  {
    var u, e := s[i..], i + |w|;
    assert |u| == |w| + 1 + |v|;
    assert s[e] == u[|w|];
    forall k | 0 <= k < |w| ensures s[i..e][k] == w[k] {
      assert u[k] == w[k];
    }
    forall k | 0 <= k < |v| ensures s[e + 1..][k] == v[k] {
      assert u[|w| + 1 + k] == v[k];
    }
  }

  /** A lexeme followed by a space is read as one token. */
  lemma TokenIs(s: string, i: nat, e: nat, l: Lexeme)
    requires LegalLexeme(l) && i <= e < |s| && s[i..e] == Spell(l) && s[e] == ' '
    ensures i < e && !White(s[i]) && Reads(s, TokenAt(s, i).0, l) && TokenAt(s, i).1 == e
  {
    forall k | i <= k < e ensures s[k] == Spell(l)[k - i] {
      assert s[k] == s[i..e][k - i];
    }
    if l.Text? {
      WordEndIs(s, i, e);
    }
  }

  lemma {:induction false} SpreadReads(s: string, i: nat, ls: seq<Lexeme>)
    requires i <= |s| && LegalLexemes(ls) && s[i..] == Spread(ls)
    ensures ReadsAll(s, Tokens(s, i), ls)
    decreases |ls|
  {
    hide Spread, Spell, Reads, ReadsAll, TokenAt, LegalLexeme, Tokens, SkipWhite;
    if ls == [] {
      NothingRead(s, i);
    } else {
      SpreadAt(s, i, ls);
      var e := i + |Spell(ls[0])|;
      TokenIs(s, i, e, ls[0]);
      SpreadReads(s, e + 1, ls[1..]);
      TokensStep(s, i, e);
      ReadsCons(s, TokenAt(s, i).0, Tokens(s, e + 1), ls);
    }
  }

  lemma NothingRead(s: string, i: nat)
    requires i <= |s| && s[i..] == Spread([])
    ensures ReadsAll(s, Tokens(s, i), [])
  {
    assert i == |s|;
  }

  lemma TokensStep(s: string, i: nat, e: nat)
    requires i < e < |s| && !White(s[i]) && TokenAt(s, i).1 == e && s[e] == ' '
    ensures Tokens(s, i) == [TokenAt(s, i).0] + Tokens(s, e + 1)
  {
    SkipSpace(s, e);
  }

  lemma ReadsCons(s: string, t: Token, ts: seq<Token>, ls: seq<Lexeme>)
    requires ls != [] && Reads(s, t, ls[0]) && ReadsAll(s, ts, ls[1..])
    ensures ReadsAll(s, [t] + ts, ls)
  {
    hide Reads;
  }

  lemma SkipSpace(s: string, e: nat)
    requires e < |s| && s[e] == ' '
    ensures Tokens(s, e) == Tokens(s, e + 1)
  {
    assert SkipWhite(s, e) == SkipWhite(s, e + 1);
  }

  // ---------------------------------------------------------------- reading commands back

  lemma ReadsSplit(s: string, ts: seq<Token>, a: seq<Lexeme>, b: seq<Lexeme>)
    requires ReadsAll(s, ts, a + b)
    ensures |ts| == |a| + |b| && ReadsAll(s, ts[..|a|], a) && ReadsAll(s, ts[|a|..], b)
    ensures ts == ts[..|a|] + ts[|a|..]
  {
    hide Reads;
    forall k | 0 <= k < |a| ensures Reads(s, ts[..|a|][k], a[k]) {
      assert (a + b)[k] == a[k];
    }
    forall k | 0 <= k < |b| ensures Reads(s, ts[|a|..][k], b[k]) {
      assert (a + b)[|a| + k] == b[k];
    }
  }

  /** c is a parse of t over line s. */
  ghost predicate Parses(s: string, c: Cmd, t: Source) {
    AllWords(s, c) && Meaning(s, c) == t
  }

  /** Words go into the argument list one by one. */
  lemma {:induction false} TailWords(s: string, c: Cmd, done: seq<string>, ts: seq<Token>, ws: seq<string>,
                                     rest: seq<Token>)
    returns (c': Cmd)
    requires c.Exec? && Parses(s, c, Run(done)) && ReadsAll(s, ts, WordLexemes(ws)) && |done| + |ws| < MAXARGS
    ensures Tail(c, ts + rest) == Tail(c', rest) && Parses(s, c', Run(done + ws))
    decreases |ws|
  {
    hide Tail, Parses, ReadsAll, AddArg;
    if ws == [] {
      assert ts == [] by { ReadsLength(s, ts, WordLexemes(ws)); }
      assert ts + rest == rest && done + ws == done;
      c' := c;
    } else {
      AddWord(s, c, done, ts, ws, rest);
      c' := TailWords(s, AddArg(c, ts[0].span), done + [ws[0]], ts[1..], ws[1..], rest);
      assert done + [ws[0]] + ws[1..] == done + ws;
    }
  }

  lemma ReadsLength(s: string, ts: seq<Token>, ls: seq<Lexeme>)
    requires ReadsAll(s, ts, ls)
    ensures |ts| == |ls|
  {
  }

  lemma AddWord(s: string, c: Cmd, done: seq<string>, ts: seq<Token>, ws: seq<string>, rest: seq<Token>)
    requires c.Exec? && Parses(s, c, Run(done)) && ReadsAll(s, ts, WordLexemes(ws)) && ws != []
    requires |done| + |ws| < MAXARGS
    ensures |ts| == |ws| && ts[0].Word?
    ensures AddArg(c, ts[0].span).Exec? && Parses(s, AddArg(c, ts[0].span), Run(done + [ws[0]]))
    ensures Tail(c, ts + rest) == Tail(AddArg(c, ts[0].span), ts[1..] + rest)
    ensures ReadsAll(s, ts[1..], WordLexemes(ws[1..]))
  {
    assert Reads(s, ts[0], Text(ws[0]));
    assert (ts + rest)[1..] == ts[1..] + rest;
    assert |c.args| == |done|;
  }

  /** A simple command with its redirections. */
  predicate Simple(t: Source) {
    t.Run? || (t.Redirect? && Simple(t.cmd))
  }

  lemma RedirsOne(s: string, c: Cmd, t: Source, ts: seq<Token>, file: string, mode: Mode, rest: seq<Token>)
    returns (c': Cmd)
    requires Parses(s, c, t) && ReadsAll(s, ts, [ModeLexeme(mode), Text(file)])
    ensures Redirs(c, ts + rest) == Redirs(c', rest) && Parses(s, c', Redirect(t, file, mode))
  {
    assert Reads(s, ts[0], ModeLexeme(mode)) && Reads(s, ts[1], Text(file));
    c' := Redir(c, ts[1].span, mode);
    assert (ts + rest)[2..] == rest;
  }

  lemma {:induction false} ReadSimple(s: string, t: Source, ts: seq<Token>, rest: seq<Token>) returns (c: Cmd)
    requires Legal(t) && Simple(t) && ReadsAll(s, ts, PrintUnit(t))
    ensures Tail(Exec([]), ts + rest) == Tail(c, rest) && Parses(s, c, t)
  {
    if t.Run? {
      c := ReadWords(s, t.words, ts, rest);
    } else {
      hide Parses, ReadsAll, Redirs, Tail, Legal;
      var a, b := PrintUnit(t.cmd), [ModeLexeme(t.mode), Text(t.file)];
      ReadsSplit(s, ts, a, b);
      LegalParts(t);
      var c0 := ReadSimple(s, t.cmd, ts[..|a|], ts[|a|..] + rest);
      c := RedirsOne(s, c0, t.cmd, ts[|a|..], t.file, t.mode, rest);
      TailRedirs(c0, ts[|a|..] + rest, c, rest);
      assert ts + rest == ts[..|a|] + (ts[|a|..] + rest);
    }
  }

  lemma LegalParts(t: Source)
    requires Legal(t) && t.Redirect?
    ensures Legal(t.cmd)
  {
  }

  lemma TailRedirs(c: Cmd, ts: seq<Token>, c': Cmd, ts': seq<Token>)
    requires Redirs(c, ts) == Redirs(c', ts')
    ensures Tail(c, ts) == Tail(c', ts')
  {
    hide Redirs, Args;
  }

  lemma ReadWords(s: string, ws: seq<string>, ts: seq<Token>, rest: seq<Token>) returns (c: Cmd)
    requires |ws| < MAXARGS && ReadsAll(s, ts, WordLexemes(ws))
    ensures Tail(Exec([]), ts + rest) == Tail(c, rest) && Parses(s, c, Run(ws))
  {
    assert Parses(s, Exec([]), Run([]));
    hide Parses, Tail, ReadsAll, WordLexemes;
    c := TailWords(s, Exec([]), [], ts, ws, rest);
    assert [] + ws == ws;
  }

  /** The tokens after a command end it. */
  predicate Follows(rest: seq<Token>, toks: string) {
    rest == [] || Starts(rest, toks)
  }

  /** 0 for units, 1 for pipelines, 2 for jobs, 3 for lines. */
  function Level(t: Source): nat {
    match t case PipeTo(_, _) => 1 case Background(_) => 2 case Then(_, _) => 3 case _ => 0
  }

  /** From level l down to t's own level, or down to a unit and then through parentheses. */
  function Rank(l: nat, t: Source): nat {
    if 1 <= Level(t) <= l then l else 10 + l
  }

  lemma TailEnds(c: Cmd, rest: seq<Token>)
    requires Follows(rest, "|&;)")
    ensures Tail(c, rest) == Ok(c, rest) && Redirs(c, rest) == Ok(c, rest)
  {
  }

  lemma NoParen(s: string, t: Source, ts: seq<Token>, rest: seq<Token>)
    requires Simple(t) && ReadsAll(s, ts, PrintUnit(t)) && Follows(rest, "|&;)")
    ensures !Starts(ts + rest, "(")
  {
    if ts == [] {
      assert ts + rest == rest;
    } else {
      SimpleFirst(t);
      assert Reads(s, ts[0], PrintUnit(t)[0]);
    }
  }

  lemma {:induction false} SimpleFirst(t: Source)
    requires Simple(t)
    ensures |PrintUnit(t)| > 0 ==> PrintUnit(t)[0] != Mark('(')
  {
    if t.Redirect? {
      SimpleFirst(t.cmd);
    }
  }

  lemma {:induction false} ReadUnit(s: string, t: Source, ts: seq<Token>, rest: seq<Token>) returns (c: Cmd)
    requires Legal(t) && ReadsAll(s, ts, PrintUnit(t)) && Follows(rest, "|&;)")
    ensures Unit(ts + rest) == Ok(c, rest) && Parses(s, c, t)
    decreases t, Rank(0, t)
  {
    hide Tail, Redirs, Block, Parses, ReadsAll, Legal, PrintUnit, Starts;
    if Simple(t) {
      c := ReadSimple(s, t, ts, rest);
      NoParen(s, t, ts, rest);
    } else {
      c := ReadBlock(s, t, ts, rest);
    }
    TailEnds(c, rest);
  }

  lemma {:induction false} ReadBlock(s: string, t: Source, ts: seq<Token>, rest: seq<Token>) returns (c: Cmd)
    requires Legal(t) && !Simple(t) && ReadsAll(s, ts, PrintUnit(t))
    ensures Starts(ts + rest, "(") && Block((ts + rest)[1..]) == Redirs(c, rest) && Parses(s, c, t)
    decreases t, 9
  {
    hide Redirs, Parses, ReadsAll, Block;
    if t.Redirect? {
      var a, b := PrintUnit(t.cmd), [ModeLexeme(t.mode), Text(t.file)];
      ReadsSplit(s, ts, a, b);
      var c0 := ReadBlock(s, t.cmd, ts[..|a|], ts[|a|..] + rest);
      c := RedirsOne(s, c0, t.cmd, ts[|a|..], t.file, t.mode, rest);
      assert ts + rest == ts[..|a|] + (ts[|a|..] + rest);
    } else {
      var inner := PrintLine(t);
      UnitPrint(t);
      ReadsSplit(s, ts, [Mark('(')], inner + [Mark(')')]);
      ReadsSplit(s, ts[1..], inner, [Mark(')')]);
      var ts1 := ts[1..][..|inner|];
      c := ReadLine(s, t, ts1, [Sym(')')] + rest);
      ReadsMark(s, ts[..1], '(');
      ReadsMark(s, ts[1..][|inner|..], ')');
      assert (ts + rest)[1..] == ts1 + ([Sym(')')] + rest);
      BlockIs(ts1 + ([Sym(')')] + rest), c, rest);
    }
  }

  lemma UnitPrint(t: Source)
    requires !t.Run? && !t.Redirect?
    ensures PrintUnit(t) == [Mark('(')] + (PrintLine(t) + [Mark(')')])
  {
    assert PrintPipe(t) == if t.PipeTo? then PrintOperator(t) else PrintUnit(t);
    assert PrintJob(t) == if t.Background? then PrintOperator(t) else PrintPipe(t);
    assert PrintLine(t) == PrintOperator(t);
    assert PrintUnit(t) == [Mark('(')] + PrintOperator(t) + [Mark(')')];
  }

  lemma ReadsMark(s: string, ts: seq<Token>, c: char)
    requires ReadsAll(s, ts, [Mark(c)])
    ensures ts == [Sym(c)]
  {
    assert Reads(s, ts[0], Mark(c));
  }

  lemma BlockIs(ts: seq<Token>, c: Cmd, rest: seq<Token>)
    requires Line(ts) == Ok(c, [Sym(')')] + rest)
    ensures Block(ts) == Redirs(c, rest)
  {
    hide Line, Redirs;
    assert ([Sym(')')] + rest)[1..] == rest;
  }

  lemma {:induction false} ReadPipe(s: string, t: Source, ts: seq<Token>, rest: seq<Token>) returns (c: Cmd)
    requires Legal(t) && ReadsAll(s, ts, PrintPipe(t)) && Follows(rest, "&;)")
    ensures Pipeline(ts + rest) == Ok(c, rest) && Parses(s, c, t)
    decreases t, Rank(1, t)
  {
    hide Unit, Pipeline, ReadsAll, Parses;
    if t.PipeTo? {
      var a, b := PrintUnit(t.left), PrintPipe(t.right);
      assert PrintPipe(t) == a + ([Mark('|')] + b);
      ReadsSplit(s, ts, a, [Mark('|')] + b);
      ReadsSplit(s, ts[|a|..], [Mark('|')], b);
      var ts2 := ts[|a|..][1..];
      ReadsMark(s, ts[|a|..][..1], '|');
      var bar := [Sym('|')] + (ts2 + rest);
      var l := ReadUnit(s, t.left, ts[..|a|], bar);
      var r := ReadPipe(s, t.right, ts2, rest);
      c := Pipe(l, r);
      assert ts + rest == ts[..|a|] + bar;
      PipeIs(ts + rest, l, ts2 + rest, r, rest);
      ParsesBoth(s, l, t.left, r, t.right);
    } else {
      c := ReadUnit(s, t, ts, rest);
      OnlyUnit(ts + rest, c, rest);
    }
  }

  lemma PipeIs(ts: seq<Token>, l: Cmd, ts2: seq<Token>, r: Cmd, rest: seq<Token>)
    requires Unit(ts) == Ok(l, [Sym('|')] + ts2) && Pipeline(ts2) == Ok(r, rest)
    ensures Pipeline(ts) == Ok(Pipe(l, r), rest)
  {
    hide Unit;
    assert ([Sym('|')] + ts2)[1..] == ts2;
  }

  lemma OnlyUnit(ts: seq<Token>, c: Cmd, rest: seq<Token>)
    requires Unit(ts) == Ok(c, rest) && Follows(rest, "&;)")
    ensures Pipeline(ts) == Ok(c, rest)
  {
    hide Unit;
  }

  lemma ParsesBoth(s: string, l: Cmd, left: Source, r: Cmd, right: Source)
    requires Parses(s, l, left) && Parses(s, r, right)
    ensures Parses(s, Pipe(l, r), PipeTo(left, right)) && Parses(s, List(l, r), Then(left, right))
  {
  }

  lemma {:induction false} ReadJob(s: string, t: Source, ts: seq<Token>, rest: seq<Token>) returns (c: Cmd)
    requires Legal(t) && ReadsAll(s, ts, PrintJob(t)) && Follows(rest, "&;)")
    ensures Pipeline(ts + rest).Ok? && Parses(s, c, t)
    ensures Backs(Pipeline(ts + rest).cmd, Pipeline(ts + rest).rest) == Backs(c, rest)
    decreases t, Rank(2, t)
  {
    hide Pipeline, ReadsAll;
    if t.Background? {
      var a := PrintJob(t.cmd);
      ReadsSplit(s, ts, a, [Mark('&')]);
      ReadsMark(s, ts[|a|..], '&');
      var c0 := ReadJob(s, t.cmd, ts[..|a|], [Sym('&')] + rest);
      c := Back(c0);
      assert ts + rest == ts[..|a|] + ([Sym('&')] + rest);
      assert ([Sym('&')] + rest)[1..] == rest;
      assert Parses(s, c, t);
    } else {
      c := ReadPipe(s, t, ts, rest);
    }
  }

  lemma {:induction false} ReadLine(s: string, t: Source, ts: seq<Token>, rest: seq<Token>) returns (c: Cmd)
    requires Legal(t) && ReadsAll(s, ts, PrintLine(t)) && Follows(rest, ")")
    ensures Line(ts + rest) == Ok(c, rest) && Parses(s, c, t)
    decreases t, Rank(3, t)
  {
    hide Pipeline, Line, Backs, ReadsAll, Parses;
    if t.Then? {
      var a, b := PrintJob(t.left), PrintLine(t.right);
      assert PrintLine(t) == a + ([Mark(';')] + b);
      ReadsSplit(s, ts, a, [Mark(';')] + b);
      ReadsSplit(s, ts[|a|..], [Mark(';')], b);
      var ts2 := ts[|a|..][1..];
      ReadsMark(s, ts[|a|..][..1], ';');
      var semi := [Sym(';')] + (ts2 + rest);
      var l := ReadJob(s, t.left, ts[..|a|], semi);
      var r := ReadLine(s, t.right, ts2, rest);
      c := List(l, r);
      assert ts + rest == ts[..|a|] + semi;
      ListIs(ts + rest, l, ts2 + rest, r, rest);
      ParsesBoth(s, l, t.left, r, t.right);
    } else {
      c := ReadJob(s, t, ts, rest);
      OnlyJob(ts + rest, c, rest);
    }
  }

  lemma ListIs(ts: seq<Token>, l: Cmd, ts2: seq<Token>, r: Cmd, rest: seq<Token>)
    requires Pipeline(ts).Ok? && Backs(Pipeline(ts).cmd, Pipeline(ts).rest) == Backs(l, [Sym(';')] + ts2)
    requires Line(ts2) == Ok(r, rest)
    ensures Line(ts) == Ok(List(l, r), rest)
  {
    hide Pipeline;
    assert ([Sym(';')] + ts2)[1..] == ts2;
  }

  lemma OnlyJob(ts: seq<Token>, c: Cmd, rest: seq<Token>)
    requires Pipeline(ts).Ok? && Backs(Pipeline(ts).cmd, Pipeline(ts).rest) == Backs(c, rest) && Follows(rest, ")")
    ensures Line(ts) == Ok(c, rest)
  {
    hide Pipeline;
  }

  /** Every command with legal words and fewer than MAXARGS arguments is parsed back from its printed form. */
  lemma RoundTrip(t: Source)
    requires Legal(t)
    ensures var s := Print(t);
            var r := Command(Tokens(s, 0));
            r.Ok? && AllWords(s, r.cmd) && Meaning(s, r.cmd) == t
  {
    hide Line, Spread;
    var s := Print(t);
    assert s[0..] == s;
    SpreadReads(s, 0, PrintLine(t));
    var c := ReadLine(s, t, Tokens(s, 0), []);
    assert Tokens(s, 0) + [] == Tokens(s, 0);
  }
}
