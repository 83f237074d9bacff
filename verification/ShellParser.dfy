/** The recursive-descent parser of sh.c: a grammar over tokens, the cursor-moving parser proved against it,
    and nulterminate on the line buffer. */
module ShellParser {
  import opened Basics
  import opened ShellLexer

  const MAXARGS: nat := 10

  /** < file, > file, >> file. */
  datatype Mode = Input | Output | AppendTo

  datatype Cmd =
    | Exec(args: seq<Span>)
    | Redir(cmd: Cmd, file: Span, mode: Mode)
    | Pipe(left: Cmd, right: Cmd)
    | List(left: Cmd, right: Cmd)
    | Back(cmd: Cmd)

  datatype Error = MissingFile | MissingParen | Syntax | TooManyArgs | Leftovers

  datatype Result = Ok(cmd: Cmd, rest: seq<Token>) | Panic(error: Error)

  function ModeOf(t: Token): Mode {
    if t == Sym('<') then Input else if t == Append then AppendTo else Output
  }

  /** Storing an argument into the execcmd below the redirections around it. */
  function AddArg(c: Cmd, w: Span): Cmd {
    match c
    case Exec(args) => Exec(args + [w])
    case Redir(cmd, file, mode) => Redir(AddArg(cmd, w), file, mode)
    case _ => c
  }

  function ArgCount(c: Cmd): nat {
    match c
    case Exec(args) => |args|
    case Redir(cmd, _, _) => ArgCount(cmd)
    case _ => 0
  }

  // ---------------------------------------------------------------- grammar over tokens

  /** redirs: {('<' | '>' | '>>') word}, around cmd. */
  function Redirs(cmd: Cmd, ts: seq<Token>): (r: Result)
    ensures r.Ok? ==> |r.rest| <= |ts| && !Starts(r.rest, "<>")
    decreases |ts|
  {
    if !Starts(ts, "<>") then Ok(cmd, ts)
    else if |ts| < 2 || !ts[1].Word? then Panic(MissingFile)
    else Redirs(Redir(cmd, ts[1].span, ModeOf(ts[0])), ts[2..])
  }

  /** {word redirs}, up to one of | ) & ; or the end. */
  function Args(cmd: Cmd, ts: seq<Token>): (r: Result)
    ensures r.Ok? ==> |r.rest| <= |ts|
    decreases |ts|, 0
  {
    if ts == [] || Starts(ts, "|)&;") then Ok(cmd, ts)
    else if !ts[0].Word? then Panic(Syntax)
    else if ArgCount(cmd) + 1 >= MAXARGS then Panic(TooManyArgs)
    else Tail(AddArg(cmd, ts[0].span), ts[1..])
  }

  /** redirs {word redirs}. */
  function Tail(cmd: Cmd, ts: seq<Token>): (r: Result)
    ensures r.Ok? ==> |r.rest| <= |ts|
    decreases |ts|, 1
  {
    var r := Redirs(cmd, ts);
    if r.Panic? then r else Args(r.cmd, r.rest)
  }

  /** '(' line ')' redirs, after the '('. */
  function Block(ts: seq<Token>): (r: Result)
    ensures r.Ok? ==> |r.rest| <= |ts|
    decreases |ts|, 3
  {
    var r := Line(ts);
    if r.Panic? then r
    else if !Starts(r.rest, ")") then Panic(MissingParen)
    else Redirs(r.cmd, r.rest[1..])
  }

  /** A block or a simple command. */
  function Unit(ts: seq<Token>): (r: Result)
    ensures r.Ok? ==> |r.rest| <= |ts|
    decreases |ts|, 0
  {
    if Starts(ts, "(") then Block(ts[1..]) else Tail(Exec([]), ts)
  }

  /** unit {'|' unit}, to the right. */
  function Pipeline(ts: seq<Token>): (r: Result)
    ensures r.Ok? ==> |r.rest| <= |ts|
    decreases |ts|, 1
  {
    var r := Unit(ts);
    if r.Panic? || !Starts(r.rest, "|") then r
    else
      var r2 := Pipeline(r.rest[1..]);
      if r2.Panic? then r2 else Ok(Pipe(r.cmd, r2.cmd), r2.rest)
  }

  /** {'&'}. */
  function Backs(cmd: Cmd, ts: seq<Token>): (r: Result)
    ensures r.Ok? && |r.rest| <= |ts|
    decreases |ts|
  {
    if Starts(ts, "&") then Backs(Back(cmd), ts[1..]) else Ok(cmd, ts)
  }

  /** pipeline {'&'} [';' line]. */
  function Line(ts: seq<Token>): (r: Result)
    ensures r.Ok? ==> |r.rest| <= |ts|
    decreases |ts|, 2
  {
    var r0 := Pipeline(ts);
    if r0.Panic? then r0
    else
      var r := Backs(r0.cmd, r0.rest);
      if !Starts(r.rest, ";") then r
      else
        var r2 := Line(r.rest[1..]);
        if r2.Panic? then r2 else Ok(List(r.cmd, r2.cmd), r2.rest)
  }

  /** parsecmd. */
  function Command(ts: seq<Token>): Result {
    var r := Line(ts);
    if r.Ok? && r.rest != [] then Panic(Leftovers) else r
  }

  // ---------------------------------------------------------------- the words of a command

  predicate AllWords(s: string, c: Cmd) {
    match c
    case Exec(args) => forall k :: 0 <= k < |args| ==> WordAt(s, args[k])
    case Redir(cmd, file, _) => AllWords(s, cmd) && WordAt(s, file)
    case Pipe(left, right) => AllWords(s, left) && AllWords(s, right)
    case List(left, right) => AllWords(s, left) && AllWords(s, right)
    case Back(cmd) => AllWords(s, cmd)
  }

  lemma {:induction false} AddArgWords(s: string, c: Cmd, w: Span)
    requires AllWords(s, c) && WordAt(s, w)
    ensures AllWords(s, AddArg(c, w))
  {
    match c
    case Redir(cmd, _, _) => AddArgWords(s, cmd, w);
    case _ =>
  }

  // ---------------------------------------------------------------- the parser on a cursor

  datatype Parsed = Tree(cmd: Cmd) | Fail(error: Error)

  /** The parser's answer and cursor are those of the grammar. */
  ghost predicate Agrees(s: string, ps: nat, p: Parsed, r: Result) {
    && ps <= |s|
    && (r.Ok? ==> p == Tree(r.cmd) && AllWords(s, r.cmd) && Tokens(s, ps) == r.rest)
    && (r.Panic? ==> p == Fail(r.error))
  }

  class Parser {
    const s: string
    var ps: nat

    constructor (line: string)
      ensures s == line && ps == 0
    {
      s := line;
      ps := 0;
    }

    method Next() returns (tok: Option<Token>)
      requires ps <= |s|
      modifies this
      ensures ps <= |s|
      ensures tok.None? <==> old(Tokens(s, ps)) == []
      ensures tok.None? ==> Tokens(s, ps) == []
      ensures tok.Some? ==> old(Tokens(s, ps)) == [tok.value] + Tokens(s, ps)
      ensures tok.Some? && tok.value.Word? ==> WordAt(s, tok.value.span)
    {
      var next;
      tok, next := GetToken(s, ps);
      assert tok.Some? ==> Tokens(s, ps)[0] == tok.value;
      ps := next;
    }

    method Sees(toks: string) returns (found: bool)
      requires ps <= |s| && forall c :: c in toks ==> Symbol(c)
      modifies this
      ensures ps <= |s| && Tokens(s, ps) == old(Tokens(s, ps)) && found == Starts(Tokens(s, ps), toks)
      ensures ps == |s| <==> Tokens(s, ps) == []
    {
      var next;
      found, next := Peek(s, ps, toks);
      ps := next;
    }

    method ParseRedirs(cmd: Cmd) returns (p: Parsed)
      requires ps <= |s| && AllWords(s, cmd)
      modifies this
      ensures Agrees(s, ps, p, Redirs(cmd, old(Tokens(s, ps))))
    {
      hide Tokens, WordAt;
      var c := cmd;
      var more := Sees("<>");
      while more
        invariant ps <= |s| && AllWords(s, c) && more == Starts(Tokens(s, ps), "<>")
        invariant Redirs(cmd, old(Tokens(s, ps))) == Redirs(c, Tokens(s, ps))
        decreases |Tokens(s, ps)|
      {
        ghost var ts := Tokens(s, ps);
        var tok := Next();
        var file := Next();
        if file.None? || !file.value.Word? {
          return Fail(MissingFile);
        }
        assert ts[2..] == Tokens(s, ps);
        c := Redir(c, file.value.span, ModeOf(tok.value));
        more := Sees("<>");
      }
      p := Tree(c);
    }

    method ParseArgs(cmd: Cmd) returns (p: Parsed)
      requires ps <= |s| && AllWords(s, cmd)
      modifies this
      ensures Agrees(s, ps, p, Args(cmd, old(Tokens(s, ps))))
    {
      hide Tokens, WordAt, AllWords;
      var c := cmd;
      var stop := Sees("|)&;");
      while !stop
        invariant ps <= |s| && AllWords(s, c) && stop == Starts(Tokens(s, ps), "|)&;")
        invariant Args(cmd, old(Tokens(s, ps))) == Args(c, Tokens(s, ps))
        decreases |Tokens(s, ps)|, !stop
      {
        ghost var ts := Tokens(s, ps);
        var tok := Next();
        if tok.None? {
          break;
        }
        if !tok.value.Word? {
          return Fail(Syntax);
        }
        AddArgWords(s, c, tok.value.span);
        if ArgCount(c) + 1 >= MAXARGS {
          return Fail(TooManyArgs);
        }
        c := AddArg(c, tok.value.span);
        assert ts[1..] == Tokens(s, ps);
        var r := ParseRedirs(c);
        if r.Fail? {
          return r;
        }
        c := r.cmd;
        stop := Sees("|)&;");
      }
      p := Tree(c);
    }

    method ParseExec() returns (p: Parsed)
      requires ps <= |s|
      modifies this
      ensures Agrees(s, ps, p, Unit(old(Tokens(s, ps))))
      decreases |Tokens(s, ps)|, 0
    {
      hide Tokens, WordAt, Line, Redirs, Args;
      var block := Sees("(");
      if block {
        p := ParseBlock();
        return;
      }
      p := ParseRedirs(Exec([]));
      if p.Tree? {
        p := ParseArgs(p.cmd);
      }
    }

    method ParseBlock() returns (p: Parsed)
      requires ps <= |s| && Starts(Tokens(s, ps), "(")
      modifies this
      ensures Agrees(s, ps, p, Block(old(Tokens(s, ps))[1..]))
      decreases |Tokens(s, ps)|, 0, 0
    {
      hide Tokens, WordAt, Line, Redirs, AllWords;
      var open := Next();
      p := ParseLine();
      if p.Fail? {
        return;
      }
      var close := Sees(")");
      if !close {
        return Fail(MissingParen);
      }
      var _ := Next();
      p := ParseRedirs(p.cmd);
    }

    method ParsePipe() returns (p: Parsed)
      requires ps <= |s|
      modifies this
      ensures Agrees(s, ps, p, Pipeline(old(Tokens(s, ps))))
      decreases |Tokens(s, ps)|, 1
    {
      hide Tokens, WordAt, Unit;
      p := ParseExec();
      if p.Fail? {
        return;
      }
      var bar := Sees("|");
      if bar {
        var _ := Next();
        var r := ParsePipe();
        p := if r.Fail? then r else Tree(Pipe(p.cmd, r.cmd));
      }
    }

    method ParseLine() returns (p: Parsed)
      requires ps <= |s|
      modifies this
      ensures Agrees(s, ps, p, Line(old(Tokens(s, ps))))
      decreases |Tokens(s, ps)|, 2
    {
      hide Tokens, WordAt, Pipeline;
      ghost var ts := Tokens(s, ps);
      p := ParsePipe();
      if p.Fail? {
        return;
      }
      ghost var r0 := Pipeline(ts);
      var c := p.cmd;
      var amp := Sees("&");
      while amp
        invariant ps <= |s| && AllWords(s, c) && amp == Starts(Tokens(s, ps), "&") && |Tokens(s, ps)| <= |ts|
        invariant Backs(r0.cmd, r0.rest) == Backs(c, Tokens(s, ps))
        decreases |Tokens(s, ps)|
      {
        var _ := Next();
        c := Back(c);
        amp := Sees("&");
      }
      p := Tree(c);
      var semi := Sees(";");
      if semi {
        var _ := Next();
        var r := ParseLine();
        p := if r.Fail? then r else Tree(List(c, r.cmd));
      }
    }

    /** parsecmd, up to nulterminate. */
    method ParseCmd() returns (p: Parsed)
      requires ps == 0
      modifies this
      ensures var r := Command(Tokens(s, 0));
              (r.Ok? ==> p == Tree(r.cmd) && AllWords(s, r.cmd)) && (r.Panic? ==> p == Fail(r.error))
    {
      hide Tokens, WordAt, Line;
      p := ParseLine();
      if p.Tree? {
        var _ := Sees("");
        if ps != |s| {
          p := Fail(Leftovers);
        }
      }
    }
  }

  // ---------------------------------------------------------------- nulterminate

  /** The places nulterminate writes. */
  function Ends(c: Cmd): set<nat> {
    match c
    case Exec(args) => set k | 0 <= k < |args| :: args[k].eq
    case Redir(cmd, file, _) => Ends(cmd) + {file.eq}
    case Pipe(left, right) => Ends(left) + Ends(right)
    case List(left, right) => Ends(left) + Ends(right)
    case Back(cmd) => Ends(cmd)
  }

  ghost predicate Cut(buf: seq<char>, was: seq<char>, ends: set<nat>) {
    |buf| == |was| && forall k :: 0 <= k < |buf| ==> buf[k] == if k in ends then '\0' else was[k]
  }

  method NulTerminate(buf: array<char>, c: Cmd, ghost s: string)
    requires buf.Length == |s| + 1 && AllWords(s, c)
    modifies buf
    ensures Cut(buf[..], old(buf[..]), Ends(c))
    decreases c
  {
    match c
    case Exec(args) =>
      for i := 0 to |args|
        invariant Cut(buf[..], old(buf[..]), set k | 0 <= k < i :: args[k].eq)
      {
        buf[args[i].eq] := '\0';
        assert (set k | 0 <= k < i + 1 :: args[k].eq) == (set k | 0 <= k < i :: args[k].eq) + {args[i].eq};
      }
    case Redir(cmd, file, _) =>
      NulTerminate(buf, cmd, s);
      buf[file.eq] := '\0';
    case Pipe(left, right) =>
      NulTerminate(buf, left, s);
      NulTerminate(buf, right, s);
    case List(left, right) =>
      NulTerminate(buf, left, s);
      NulTerminate(buf, right, s);
    case Back(cmd) =>
      NulTerminate(buf, cmd, s);
  }

  function Words(c: Cmd): seq<Span> {
    match c
    case Exec(args) => args
    case Redir(cmd, file, _) => Words(cmd) + [file]
    case Pipe(left, right) => Words(left) + Words(right)
    case List(left, right) => Words(left) + Words(right)
    case Back(cmd) => Words(cmd)
  }

  /** The NUL-terminated string that starts at q. */
  function CString(buf: seq<char>, q: nat): string
    requires q <= |buf|
    decreases |buf| - q
  {
    if q == |buf| || buf[q] == '\0' then [] else [buf[q]] + CString(buf, q + 1)
  }

  lemma {:induction false} WordsOk(s: string, c: Cmd, w: Span)
    requires AllWords(s, c) && w in Words(c)
    ensures WordAt(s, w) && w.eq in Ends(c)
  {
    match c
    case Exec(args) =>
    case Redir(cmd, file, _) => if w in Words(cmd) { WordsOk(s, cmd, w); }
    case Pipe(left, right) => if w in Words(left) { WordsOk(s, left, w); } else { WordsOk(s, right, w); }
    case List(left, right) => if w in Words(left) { WordsOk(s, left, w); } else { WordsOk(s, right, w); }
    case Back(cmd) => WordsOk(s, cmd, w);
  }

  /** nulterminate writes only where no word is. */
  lemma {:induction false} EndsOutside(s: string, c: Cmd, e: nat)
    requires AllWords(s, c) && e in Ends(c)
    ensures e <= |s| && (e < |s| ==> !WordChar(s[e]))
  {
    match c
    case Exec(args) =>
    case Redir(cmd, file, _) => if e in Ends(cmd) { EndsOutside(s, cmd, e); }
    case Pipe(left, right) => if e in Ends(left) { EndsOutside(s, left, e); } else { EndsOutside(s, right, e); }
    case List(left, right) => if e in Ends(left) { EndsOutside(s, left, e); } else { EndsOutside(s, right, e); }
    case Back(cmd) => EndsOutside(s, cmd, e);
  }

  lemma {:induction false} ReadsTo(buf: seq<char>, s: string, q: nat, eq: nat)
    requires q <= eq <= |s| && eq < |buf| && buf[eq] == '\0'
    requires forall k :: q <= k < eq ==> buf[k] == s[k] && s[k] != '\0'
    ensures CString(buf, q) == s[q..eq]
    decreases eq - q
  {
    if q < eq {
      ReadsTo(buf, s, q + 1, eq);
      assert s[q..eq] == [s[q]] + s[q + 1..eq];
    }
  }

  /** After nulterminate every word of the command, read as a C string in the buffer, is its source token. */
  lemma Terminated(s: string, c: Cmd, buf: seq<char>, w: Span)
    requires '\0' !in s && AllWords(s, c) && Cut(buf, s + ['\0'], Ends(c)) && w in Words(c)
    ensures w.eq <= |s| && w.q < w.eq && CString(buf, w.q) == s[w.q..w.eq]
  {
    WordsOk(s, c, w);
    forall k | w.q <= k < w.eq ensures buf[k] == s[k] && s[k] != '\0' {
      if k in Ends(c) {
        EndsOutside(s, c, k);
      }
    }
    ReadsTo(buf, s, w.q, w.eq);
  }

  /** parsecmd on the buffer that holds the line and its NUL. */
  method ParseBuffer(buf: array<char>, s: string) returns (p: Parsed)
    requires buf[..] == s + ['\0'] && '\0' !in s
    modifies buf
    ensures var r := Command(Tokens(s, 0));
            if r.Panic? then p == Fail(r.error) && buf[..] == old(buf[..])
            else
              && p == Tree(r.cmd)
              && forall w :: w in Words(r.cmd) ==>
                   w.q < w.eq <= |s| && w.q <= buf.Length && CString(buf[..], w.q) == s[w.q..w.eq]
  {
    var parser := new Parser(s);
    p := parser.ParseCmd();
    if p.Tree? {
      NulTerminate(buf, p.cmd, s);
      forall w | w in Words(p.cmd) ensures w.q < w.eq <= |s| && CString(buf[..], w.q) == s[w.q..w.eq] {
        Terminated(s, p.cmd, buf[..], w);
      }
    }
  }
}
