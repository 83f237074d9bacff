/** The language sh.c accepts, as concrete syntax: what a line may look like and the tree it stands for.  The parser
    accepts exactly these lines, with exactly these trees. */
module ShellGrammar {
  import opened ShellLexer
  import opened ShellParser
  import opened ShellPrinter

  /** A word of a simple command, or a redirection mark and its file. */
  datatype Part = Arg(w: Span) | File(mark: Token, w: Span)

  datatype UnitSyntax = SimpleUnit(parts: seq<Part>) | BlockUnit(line: LineSyntax, files: seq<Part>)

  datatype PipeSyntax = One(unit: UnitSyntax) | Bar(unit: UnitSyntax, right: PipeSyntax)

  /** A pipeline with `amps` ampersands behind it, and another line behind a semicolon. */
  datatype LineSyntax = LastJob(pipe: PipeSyntax, amps: nat) | Semi(pipe: PipeSyntax, amps: nat, right: LineSyntax)

  // ---------------------------------------------------------------- what is written

  predicate Mark(t: Token) {
    t == Sym('<') || t == Sym('>') || t == Append
  }

  function PartTokens(p: Part): seq<Token> {
    match p case Arg(w) => [Word(w)] case File(mark, w) => [mark, Word(w)]
  }

  function PartsTokens(ps: seq<Part>): seq<Token> {
    if ps == [] then [] else PartTokens(ps[0]) + PartsTokens(ps[1..])
  }

  function UnitTokens(u: UnitSyntax): seq<Token> {
    match u
    case SimpleUnit(parts) => PartsTokens(parts)
    case BlockUnit(line, files) => [Sym('(')] + LineTokens(line) + [Sym(')')] + PartsTokens(files)
  }

  function PipeTokens(p: PipeSyntax): seq<Token> {
    match p case One(u) => UnitTokens(u) case Bar(u, right) => UnitTokens(u) + [Sym('|')] + PipeTokens(right)
  }

  function LineTokens(l: LineSyntax): seq<Token> {
    match l
    case LastJob(p, amps) => PipeTokens(p) + Amps(amps)
    case Semi(p, amps, right) => PipeTokens(p) + Amps(amps) + [Sym(';')] + LineTokens(right)
  }

  function Amps(n: nat): seq<Token> {
    seq(n, _ => Sym('&'))
  }

  // ---------------------------------------------------------------- what it stands for

  /** The words that follow no redirection mark. */
  function ArgsOf(ps: seq<Part>): seq<Span> {
    if ps == [] then [] else (if ps[0].Arg? then [ps[0].w] else []) + ArgsOf(ps[1..])
  }

  function FilesOf(ps: seq<Part>): (r: seq<Part>)
    ensures forall f :: f in r ==> f.File?
  {
    if ps == [] then [] else (if ps[0].File? then [ps[0]] else []) + FilesOf(ps[1..])
  }

  /** c with the redirections in order around it, the last outermost. */
  function Wrap(c: Cmd, files: seq<Part>): Cmd {
    if files == [] then c
    else
      var f := files[|files| - 1];
      Redir(Wrap(c, files[..|files| - 1]), f.w, if f.File? && f.mark == Sym('<') then Input
                                                else if f.File? && f.mark == Append then AppendTo else Output)
  }

  function UnitTree(u: UnitSyntax): Cmd {
    match u
    case SimpleUnit(parts) => Wrap(Exec(ArgsOf(parts)), FilesOf(parts))
    case BlockUnit(line, files) => Wrap(LineTree(line), files)
  }

  function PipeTree(p: PipeSyntax): Cmd {
    match p case One(u) => UnitTree(u) case Bar(u, right) => Pipe(UnitTree(u), PipeTree(right))
  }

  function Backed(c: Cmd, n: nat): Cmd {
    if n == 0 then c else Back(Backed(c, n - 1))
  }

  function LineTree(l: LineSyntax): Cmd {
    match l
    case LastJob(p, amps) => Backed(PipeTree(p), amps)
    case Semi(p, amps, right) => List(Backed(PipeTree(p), amps), LineTree(right))
  }

  // ---------------------------------------------------------------- what is allowed

  predicate Marked(ps: seq<Part>) {
    forall p :: p in ps && p.File? ==> Mark(p.mark)
  }

  /** Fewer than MAXARGS words in a simple command, and only redirections behind a block. */
  predicate UnitOk(u: UnitSyntax) {
    match u
    case SimpleUnit(parts) => Marked(parts) && |ArgsOf(parts)| < MAXARGS
    case BlockUnit(line, files) => LineOk(line) && Marked(files) && forall f :: f in files ==> f.File?
  }

  predicate PipeOk(p: PipeSyntax) {
    match p case One(u) => UnitOk(u) case Bar(u, right) => UnitOk(u) && PipeOk(right)
  }

  predicate LineOk(l: LineSyntax) {
    match l case LastJob(p, _) => PipeOk(p) case Semi(p, _, right) => PipeOk(p) && LineOk(right)
  }

  // ---------------------------------------------------------------- sequences

  lemma Assoc<T>(a: seq<T>, b: seq<T>, c: seq<T>)
    ensures a + b + c == a + (b + c)
  {
  }

  lemma Split<T>(a: seq<T>)
    requires a != []
    ensures a == [a[0]] + a[1..]
  {
  }

  // ---------------------------------------------------------------- simple commands

  lemma {:induction false} WrapAdd(args: seq<Span>, files: seq<Part>, w: Span)
    ensures AddArg(Wrap(Exec(args), files), w) == Wrap(Exec(args + [w]), files)
    ensures ArgCount(Wrap(Exec(args), files)) == |args|
    decreases |files|
  {
    if files != [] {
      WrapAdd(args, files[..|files| - 1], w);
    }
  }

  lemma WrapFile(c: Cmd, files: seq<Part>, f: Part)
    requires f.File? && Mark(f.mark)
    ensures Wrap(c, files + [f]) == Redir(Wrap(c, files), f.w, ModeOf(f.mark))
  {
    assert (files + [f])[..|files|] == files;
  }

  /** One redirection is read. */
  lemma ReadFile(c: Cmd, f: Part, ts: seq<Token>)
    requires f.File? && Mark(f.mark)
    ensures Redirs(c, PartTokens(f) + ts) == Redirs(Redir(c, f.w, ModeOf(f.mark)), ts)
    ensures Tail(c, PartTokens(f) + ts) == Tail(Redir(c, f.w, ModeOf(f.mark)), ts)
  {
    assert (PartTokens(f) + ts)[2..] == ts;
    hide Args;
  }

  /** One word is read. */
  lemma ReadArg(c: Cmd, w: Span, ts: seq<Token>)
    requires ArgCount(c) + 1 < MAXARGS
    ensures Tail(c, [Word(w)] + ts) == Tail(AddArg(c, w), ts)
  {
    assert ([Word(w)] + ts)[1..] == ts;
  }

  lemma PartsNext(ps: seq<Part>, rest: seq<Token>)
    requires ps != []
    ensures PartsTokens(ps) + rest == PartTokens(ps[0]) + (PartsTokens(ps[1..]) + rest)
  {
    hide PartTokens;
    assert PartsTokens(ps) == PartTokens(ps[0]) + PartsTokens(ps[1..]);
  }

  lemma PartsFirst(p: Part, ps: seq<Part>)
    ensures PartsTokens([p] + ps) == PartTokens(p) + PartsTokens(ps)
    ensures ArgsOf([p] + ps) == if p.Arg? then [p.w] + ArgsOf(ps) else ArgsOf(ps)
    ensures FilesOf([p] + ps) == if p.File? then [p] + FilesOf(ps) else FilesOf(ps)
  {
    hide PartTokens;
    assert ([p] + ps)[1..] == ps;
  }

  lemma {:induction false} ReadFiles(c: Cmd, files: seq<Part>, more: seq<Part>, rest: seq<Token>)
    requires Marked(more) && (forall f :: f in more ==> f.File?) && Follows(rest, "|&;)")
    ensures Redirs(Wrap(c, files), PartsTokens(more) + rest) == Ok(Wrap(c, files + more), rest)
    decreases |more|
  {
    hide Redirs, Wrap;
    if more == [] {
      assert files + more == files && PartsTokens(more) + rest == rest;
      TailEnds(Wrap(c, files), rest);
    } else {
      PartsNext(more, rest);
      ReadFile(Wrap(c, files), more[0], PartsTokens(more[1..]) + rest);
      WrapFile(c, files, more[0]);
      assert files + [more[0]] + more[1..] == files + more;
      ReadFiles(c, files + [more[0]], more[1..], rest);
    }
  }

  lemma {:induction false} ReadParts(args: seq<Span>, files: seq<Part>, ps: seq<Part>, rest: seq<Token>)
    requires Marked(ps) && |args| + |ArgsOf(ps)| < MAXARGS && Follows(rest, "|&;)")
    ensures Tail(Wrap(Exec(args), files), PartsTokens(ps) + rest) ==
            Ok(Wrap(Exec(args + ArgsOf(ps)), files + FilesOf(ps)), rest)
    decreases |ps|
  {
    hide Tail, Wrap, AddArg, PartTokens;
    var c := Wrap(Exec(args), files);
    if ps == [] {
      assert PartsTokens(ps) + rest == rest && args + ArgsOf(ps) == args && files + FilesOf(ps) == files;
      TailEnds(c, rest);
    } else {
      hide ArgsOf, FilesOf, PartsTokens, Follows;
      var p, more := ps[0], ps[1..];
      Split(ps);
      PartsNext(ps, rest);
      PartsFirst(p, more);
      assert Marked(more) && p in ps;
      hide Marked;
      if p.File? {
        ReadFile(c, p, PartsTokens(more) + rest);
        WrapFile(Exec(args), files, p);
        ReadParts(args, files + [p], more, rest);
        Assoc(files, [p], FilesOf(more));
      } else {
        WrapAdd(args, files, p.w);
        ArgTokens(p);
        ReadArg(c, p.w, PartsTokens(more) + rest);
        ReadParts(args + [p.w], files, more, rest);
        Assoc(args, [p.w], ArgsOf(more));
      }
    }
  }

  lemma ArgTokens(p: Part)
    requires p.Arg?
    ensures PartTokens(p) == [Word(p.w)]
  {
  }

  lemma SimpleStart(ps: seq<Part>, rest: seq<Token>)
    requires Marked(ps) && Follows(rest, "|&;)")
    ensures !Starts(PartsTokens(ps) + rest, "(")
  {
    if ps == [] {
      assert PartsTokens(ps) + rest == rest;
    } else {
      PartsNext(ps, rest);
      assert ps[0] in ps;
    }
  }

  // ---------------------------------------------------------------- every allowed line is accepted

  lemma {:induction false} UnitAccepted(u: UnitSyntax, rest: seq<Token>)
    requires UnitOk(u) && Follows(rest, "|&;)")
    ensures Unit(UnitTokens(u) + rest) == Ok(UnitTree(u), rest)
    decreases u
  {
    match u
    case SimpleUnit(parts) =>
      SimpleStart(parts, rest);
      ReadParts([], [], parts, rest);
      assert [] + ArgsOf(parts) == ArgsOf(parts) && [] + FilesOf(parts) == FilesOf(parts);
      assert Wrap(Exec([]), []) == Exec([]);
      hide Tail;
    case BlockUnit(line, files) =>
      hide Line, Redirs, Block, LineOk;
      var after := PartsTokens(files) + rest;
      LineAccepted(line, [Sym(')')] + after);
      var ts := UnitTokens(u) + rest;
      assert ts == [Sym('(')] + (LineTokens(line) + ([Sym(')')] + after));
      assert ts[1..] == LineTokens(line) + ([Sym(')')] + after);
      BlockIs(ts[1..], LineTree(line), after);
      ReadFiles(LineTree(line), [], files, rest);
      assert [] + files == files && Wrap(LineTree(line), []) == LineTree(line);
  }

  lemma {:induction false} PipeAccepted(p: PipeSyntax, rest: seq<Token>)
    requires PipeOk(p) && Follows(rest, "&;)")
    ensures Pipeline(PipeTokens(p) + rest) == Ok(PipeTree(p), rest)
    decreases p
  {
    hide Unit, Pipeline;
    match p
    case One(u) =>
      UnitAccepted(u, rest);
      OnlyUnit(UnitTokens(u) + rest, UnitTree(u), rest);
    case Bar(u, right) =>
      var after := PipeTokens(right) + rest;
      UnitAccepted(u, [Sym('|')] + after);
      PipeAccepted(right, rest);
      assert PipeTokens(p) + rest == UnitTokens(u) + ([Sym('|')] + after);
      PipeIs(PipeTokens(p) + rest, UnitTree(u), after, PipeTree(right), rest);
  }

  lemma {:induction false} ReadAmps(c: Cmd, k: nat, n: nat, rest: seq<Token>)
    requires !Starts(rest, "&")
    ensures Backs(Backed(c, k), Amps(n) + rest) == Ok(Backed(c, k + n), rest)
    decreases n
  {
    if n == 0 {
      assert Amps(n) + rest == rest;
    } else {
      assert Amps(n) + rest == [Sym('&')] + (Amps(n - 1) + rest);
      assert (Amps(n) + rest)[1..] == Amps(n - 1) + rest;
      ReadAmps(c, k + 1, n - 1, rest);
    }
  }

  lemma AmpsFollow(n: nat, rest: seq<Token>)
    requires Follows(rest, ";)")
    ensures Follows(Amps(n) + rest, "&;)") && !Starts(rest, "&")
  {
    if n == 0 {
      assert Amps(n) + rest == rest;
    }
  }

  lemma {:induction false} LineAccepted(l: LineSyntax, rest: seq<Token>)
    requires LineOk(l) && Follows(rest, ")")
    ensures Line(LineTokens(l) + rest) == Ok(LineTree(l), rest)
    decreases l
  {
    hide Pipeline, Line, Backs;
    match l
    case LastJob(p, amps) =>
      AmpsFollow(amps, rest);
      PipeAccepted(p, Amps(amps) + rest);
      ReadAmps(PipeTree(p), 0, amps, rest);
      assert LineTokens(l) + rest == PipeTokens(p) + (Amps(amps) + rest);
      BacksDone(LineTree(l), rest);
      OnlyJob(LineTokens(l) + rest, LineTree(l), rest);
    case Semi(p, amps, right) =>
      var after := LineTokens(right) + rest;
      var semi := [Sym(';')] + after;
      AmpsFollow(amps, semi);
      PipeAccepted(p, Amps(amps) + semi);
      ReadAmps(PipeTree(p), 0, amps, semi);
      LineAccepted(right, rest);
      assert LineTokens(l) + rest == PipeTokens(p) + (Amps(amps) + semi);
      BacksDone(Backed(PipeTree(p), amps), semi);
      ListIs(LineTokens(l) + rest, Backed(PipeTree(p), amps), after, LineTree(right), rest);
  }

  lemma BacksDone(c: Cmd, rest: seq<Token>)
    requires !Starts(rest, "&")
    ensures Backs(c, rest) == Ok(c, rest)
  {
  }

  // ---------------------------------------------------------------- every accepted line is allowed

  lemma {:induction false} FilesRead(c: Cmd, files: seq<Part>, ts: seq<Token>) returns (more: seq<Part>)
    requires Redirs(Wrap(c, files), ts).Ok?
    ensures Marked(more) && forall f :: f in more ==> f.File?
    ensures var r := Redirs(Wrap(c, files), ts);
            ts == PartsTokens(more) + r.rest && r.cmd == Wrap(c, files + more) && !Starts(r.rest, "<>")
    decreases |ts|
  {
    if !Starts(ts, "<>") {
      more := [];
      assert files + more == files;
    } else {
      var f := File(ts[0], ts[1].span);
      assert Redirs(Wrap(c, files), ts) == Redirs(Redir(Wrap(c, files), f.w, ModeOf(f.mark)), ts[2..]) && Mark(f.mark);
      assert ts == PartTokens(f) + ts[2..];
      hide Redirs, PartsTokens, Wrap, PartTokens, Mark;
      WrapFile(c, files, f);
      var more' := FilesRead(c, files + [f], ts[2..]);
      more := [f] + more';
      PartsFirst(f, more');
      Assoc(files, [f], more');
      Assoc(PartTokens(f), PartsTokens(more'), Redirs(Wrap(c, files), ts).rest);
    }
  }

  lemma {:induction false} PartsRead(args: seq<Span>, files: seq<Part>, ts: seq<Token>) returns (ps: seq<Part>)
    requires Tail(Wrap(Exec(args), files), ts).Ok? && |args| < MAXARGS
    ensures Marked(ps) && |args| + |ArgsOf(ps)| < MAXARGS
    ensures var r := Tail(Wrap(Exec(args), files), ts);
            ts == PartsTokens(ps) + r.rest && r.cmd == Wrap(Exec(args + ArgsOf(ps)), files + FilesOf(ps))
    decreases |ts|
  {
    hide Wrap, Tail, Redirs, ArgsOf, FilesOf, PartsTokens, PartTokens, AddArg, ArgCount;
    var c := Wrap(Exec(args), files);
    TailCases(c, ts);
    var fs := FilesRead(Exec(args), files, ts);
    var r := Redirs(c, ts);
    FilesOnly(fs);
    if r.rest == [] || Starts(r.rest, "|)&;") {
      ps := fs;
      assert args + ArgsOf(ps) == args;
    } else {
      var w := r.rest[0].span;
      WrapAdd(args, files + fs, w);
      var ps' := PartsRead(args + [w], files + fs, r.rest[1..]);
      PartsFirst(Arg(w), ps');
      ArgTokens(Arg(w));
      PartsJoin(fs, [Arg(w)] + ps');
      ps := fs + ([Arg(w)] + ps');
      assert r.rest == [Word(w)] + r.rest[1..];
      assert args + [w] + ArgsOf(ps') == args + ArgsOf(ps);
      assert files + fs + FilesOf(ps') == files + FilesOf(ps);
    }
  }

  lemma TailCases(c: Cmd, ts: seq<Token>)
    requires Tail(c, ts).Ok?
    ensures Redirs(c, ts).Ok?
    ensures var r := Redirs(c, ts);
            if r.rest == [] || Starts(r.rest, "|)&;") then Tail(c, ts) == r
            else
              && r.rest[0].Word? && ArgCount(r.cmd) + 1 < MAXARGS
              && Tail(c, ts) == Tail(AddArg(r.cmd, r.rest[0].span), r.rest[1..])
  {
    hide Redirs, AddArg, ArgCount;
  }

  lemma {:induction false} FilesOnly(fs: seq<Part>)
    requires forall f :: f in fs ==> f.File?
    ensures ArgsOf(fs) == [] && FilesOf(fs) == fs
  {
    if fs != [] {
      FilesOnly(fs[1..]);
      assert fs == [fs[0]] + fs[1..];
      PartsFirst(fs[0], fs[1..]);
      hide ArgsOf, FilesOf;
    }
  }

  lemma {:induction false} PartsJoin(a: seq<Part>, b: seq<Part>)
    ensures PartsTokens(a + b) == PartsTokens(a) + PartsTokens(b)
    ensures ArgsOf(a + b) == ArgsOf(a) + ArgsOf(b) && FilesOf(a + b) == FilesOf(a) + FilesOf(b)
  {
    if a == [] {
      assert a + b == b;
    } else {
      hide PartsTokens, ArgsOf, FilesOf, PartTokens;
      var p, more := a[0], a[1..];
      PartsJoin(more, b);
      Split(a);
      Assoc([p], more, b);
      PartsFirst(p, more);
      PartsFirst(p, more + b);
      Assoc(PartTokens(p), PartsTokens(more), PartsTokens(b));
      if p.Arg? {
        Assoc([p.w], ArgsOf(more), ArgsOf(b));
      } else {
        Assoc([p], FilesOf(more), FilesOf(b));
      }
    }
  }

  lemma {:induction false} UnitRead(ts: seq<Token>) returns (u: UnitSyntax)
    requires Unit(ts).Ok?
    ensures UnitOk(u) && ts == UnitTokens(u) + Unit(ts).rest && Unit(ts).cmd == UnitTree(u)
    decreases |ts|, 0
  {
    if Starts(ts, "(") {
      u := BlockRead(ts);
    } else {
      assert Wrap(Exec([]), []) == Exec([]);
      hide Tail, Starts;
      var ps := PartsRead([], [], ts);
      u := SimpleUnit(ps);
      assert [] + ArgsOf(ps) == ArgsOf(ps) && [] + FilesOf(ps) == FilesOf(ps);
    }
  }

  lemma {:induction false} BlockRead(ts: seq<Token>) returns (u: UnitSyntax)
    requires Starts(ts, "(") && Block(ts[1..]).Ok?
    ensures UnitOk(u) && ts == UnitTokens(u) + Block(ts[1..]).rest && Block(ts[1..]).cmd == UnitTree(u)
    decreases |ts|, 0, 0
  {
    assert ts[0] == Sym('(');
    hide Line, Block, Redirs, Starts, LineTokens, PartsTokens, LineTree, LineOk, UnitTokens, UnitTree, UnitOk;
    Split(ts);
    BlockCases(ts[1..]);
    var r := Line(ts[1..]);
    var l := LineRead(ts[1..]);
    assert Wrap(r.cmd, []) == r.cmd;
    hide Wrap, Marked;
    var fs := FilesRead(r.cmd, [], r.rest[1..]);
    assert [] + fs == fs;
    u := BlockUnit(l, fs);
    BlockUnitIs(l, fs, Block(ts[1..]).rest);
  }

  lemma BlockUnitIs(l: LineSyntax, fs: seq<Part>, rest: seq<Token>)
    requires LineOk(l) && Marked(fs) && forall f :: f in fs ==> f.File?
    ensures var u := BlockUnit(l, fs);
            && UnitOk(u) && UnitTree(u) == Wrap(LineTree(l), fs)
            && UnitTokens(u) + rest == [Sym('(')] + (LineTokens(l) + ([Sym(')')] + (PartsTokens(fs) + rest)))
  {
    hide LineOk, LineTree, LineTokens, PartsTokens, Wrap, Marked;
  }

  lemma BlockCases(ts: seq<Token>)
    requires Block(ts).Ok?
    ensures Line(ts).Ok? && |Line(ts).rest| > 0 && Line(ts).rest == [Sym(')')] + Line(ts).rest[1..]
    ensures Block(ts) == Redirs(Line(ts).cmd, Line(ts).rest[1..])
  {
    hide Line, Redirs;
  }

  lemma {:induction false} PipeRead(ts: seq<Token>) returns (p: PipeSyntax)
    requires Pipeline(ts).Ok?
    ensures PipeOk(p) && ts == PipeTokens(p) + Pipeline(ts).rest && Pipeline(ts).cmd == PipeTree(p)
    decreases |ts|, 1
  {
    PipeCases(ts);
    hide Unit, Pipeline, Starts, UnitOk, UnitTokens, UnitTree;
    var r := Unit(ts);
    var u := UnitRead(ts);
    if Starts(r.rest, "|") {
      var right := PipeRead(r.rest[1..]);
      p := Bar(u, right);
      BarTokens(UnitTokens(u), PipeTokens(right), Pipeline(ts).rest);
    } else {
      p := One(u);
    }
  }

  lemma BarTokens(unit: seq<Token>, right: seq<Token>, rest: seq<Token>)
    ensures unit + ([Sym('|')] + (right + rest)) == unit + [Sym('|')] + right + rest
  {
  }

  lemma PipeCases(ts: seq<Token>)
    requires Pipeline(ts).Ok?
    ensures Unit(ts).Ok?
    ensures var r := Unit(ts);
            if !Starts(r.rest, "|") then Pipeline(ts) == r
            else
              && |r.rest| > 0 && r.rest == [Sym('|')] + r.rest[1..] && |r.rest| <= |ts| && Pipeline(r.rest[1..]).Ok?
              && Pipeline(ts) == Ok(Pipe(r.cmd, Pipeline(r.rest[1..]).cmd), Pipeline(r.rest[1..]).rest)
  {
    hide Unit;
  }

  lemma {:induction false} AmpsRead(c: Cmd, k: nat, ts: seq<Token>) returns (n: nat)
    ensures var r := Backs(Backed(c, k), ts);
            ts == Amps(n) + r.rest && r.cmd == Backed(c, k + n)
    decreases |ts|
  {
    if Starts(ts, "&") {
      var m := AmpsRead(c, k + 1, ts[1..]);
      n := m + 1;
      assert ts == [Sym('&')] + ts[1..];
    } else {
      n := 0;
    }
  }

  lemma {:induction false} LineRead(ts: seq<Token>) returns (l: LineSyntax)
    requires Line(ts).Ok?
    ensures LineOk(l) && ts == LineTokens(l) + Line(ts).rest && Line(ts).cmd == LineTree(l)
    decreases |ts|, 2
  {
    LineCases(ts);
    hide Line, Pipeline, Backs, Starts, PipeTokens, Amps, PipeTree, PipeOk;
    var r0 := Pipeline(ts);
    var p := PipeRead(ts);
    assert Backed(r0.cmd, 0) == r0.cmd;
    hide Backed;
    var n := AmpsRead(r0.cmd, 0, r0.rest);
    var r := Backs(r0.cmd, r0.rest);
    if Starts(r.rest, ";") {
      var right := LineRead(r.rest[1..]);
      l := Semi(p, n, right);
      JobTokens(PipeTokens(p), Amps(n), LineTokens(right), Line(ts).rest);
    } else {
      l := LastJob(p, n);
      Assoc(PipeTokens(p), Amps(n), r.rest);
    }
  }

  lemma JobTokens(pipe: seq<Token>, amps: seq<Token>, right: seq<Token>, rest: seq<Token>)
    ensures pipe + (amps + ([Sym(';')] + (right + rest))) == pipe + amps + [Sym(';')] + right + rest
  {
  }

  lemma LineCases(ts: seq<Token>)
    requires Line(ts).Ok?
    ensures Pipeline(ts).Ok?
    ensures var r := Backs(Pipeline(ts).cmd, Pipeline(ts).rest);
            if !Starts(r.rest, ";") then Line(ts) == r
            else
              && |r.rest| > 0 && r.rest == [Sym(';')] + r.rest[1..] && |r.rest| <= |ts| && Line(r.rest[1..]).Ok?
              && Line(ts) == Ok(List(r.cmd, Line(r.rest[1..]).cmd), Line(r.rest[1..]).rest)
  {
    hide Pipeline, Backs;
  }

  /** l is how the tokens ts are written, and c what they stand for. */
  ghost predicate Derives(l: LineSyntax, ts: seq<Token>, c: Cmd) {
    LineOk(l) && LineTokens(l) == ts && LineTree(l) == c
  }

  /** The parser accepts a line with tree c if and only if the grammar has a derivation of it with that tree. */
  lemma AcceptsExactly(ts: seq<Token>, c: Cmd)
    ensures Command(ts) == Ok(c, []) <==> exists l :: Derives(l, ts, c)
  {
    hide Line, LineOk, LineTokens, LineTree;
    if Command(ts) == Ok(c, []) {
      var l := LineRead(ts);
      assert LineTokens(l) + [] == LineTokens(l);
      assert Derives(l, ts, c);
    }
    if exists l :: Derives(l, ts, c) {
      var l :| Derives(l, ts, c);
      LineAccepted(l, []);
      assert LineTokens(l) + [] == LineTokens(l);
    }
  }

  /** It turns a line down if and only if the grammar has no derivation of it. */
  lemma RejectsExactly(ts: seq<Token>)
    ensures Command(ts).Panic? <==> forall l, c :: !Derives(l, ts, c)
  {
    hide Line, Derives;
    if Command(ts).Ok? {
      AcceptsExactly(ts, Command(ts).cmd);
      var l :| Derives(l, ts, Command(ts).cmd);
    } else {
      forall l, c ensures !Derives(l, ts, c) {
        AcceptsExactly(ts, c);
      }
    }
  }
}
