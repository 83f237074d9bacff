/** gettoken and peek of sh.c: loops over a cursor, and the token sequence they walk through.  A line is the
    string up to its terminating NUL; reading at its end sees that NUL. */
module ShellLexer {
  import opened Basics

  predicate White(c: char) {
    c == ' ' || c == '\t' || c == '\r' || c == '\n' || c == '\U{0B}'
  }

  predicate Symbol(c: char) {
    c == '<' || c == '|' || c == '>' || c == '&' || c == ';' || c == '(' || c == ')'
  }

  predicate WordChar(c: char) {
    !White(c) && !Symbol(c)
  }

  /** A word is the stretch of the line from q to before eq. */
  datatype Span = Span(q: nat, eq: nat)
  datatype Token = Word(span: Span) | Sym(c: char) | Append

  /** A maximal stretch of word characters. */
  predicate WordAt(s: string, w: Span) {
    && w.q < w.eq <= |s|
    && (forall k :: w.q <= k < w.eq ==> WordChar(s[k]))
    && (w.eq < |s| ==> !WordChar(s[w.eq]))
  }

  function SkipWhite(s: string, i: nat): (j: nat)
    requires i <= |s|
    ensures i <= j <= |s| && (j < |s| ==> !White(s[j]))
    decreases |s| - i
  {
    if i < |s| && White(s[i]) then SkipWhite(s, i + 1) else i
  }

  function WordEnd(s: string, i: nat): (j: nat)
    requires i <= |s|
    ensures i <= j <= |s| && (j < |s| ==> !WordChar(s[j]))
    ensures forall k :: i <= k < j ==> WordChar(s[k])
    decreases |s| - i
  {
    if i < |s| && WordChar(s[i]) then WordEnd(s, i + 1) else i
  }

  /** The token that starts at i, a place that is not white. */
  function TokenAt(s: string, i: nat): (r: (Token, nat))
    requires i < |s| && !White(s[i])
    ensures i < r.1 <= |s|
    ensures r.0.Word? ==> WordAt(s, r.0.span) && r.0.span.q == i
    ensures r.0.Sym? ==> Symbol(r.0.c)
    ensures r.0.Word? <==> WordChar(s[i])
  {
    if s[i] == '>' then if i + 1 < |s| && s[i + 1] == '>' then (Append, i + 2) else (Sym('>'), i + 1)
    else if Symbol(s[i]) then (Sym(s[i]), i + 1)
    else (Word(Span(i, WordEnd(s, i))), WordEnd(s, i))
  }

  /** The tokens of the line from i on. */
  function Tokens(s: string, i: nat): (ts: seq<Token>)
    requires i <= |s|
    ensures forall k :: 0 <= k < |ts| && ts[k].Word? ==> WordAt(s, ts[k].span)
    decreases |s| - i
  {
    var j := SkipWhite(s, i);
    if j == |s| then [] else [TokenAt(s, j).0] + Tokens(s, TokenAt(s, j).1)
  }

  /** Skipping white space changes no token. */
  lemma {:induction false} TokensSkip(s: string, i: nat)
    requires i <= |s|
    ensures Tokens(s, SkipWhite(s, i)) == Tokens(s, i)
  {
    SkipTwice(s, i);
  }

  lemma {:induction false} SkipTwice(s: string, i: nat)
    requires i <= |s|
    ensures SkipWhite(s, SkipWhite(s, i)) == SkipWhite(s, i)
  {
  }

  /** The first character of the next token is one of toks. */
  predicate Starts(ts: seq<Token>, toks: string) {
    |ts| > 0 && match ts[0] case Word(_) => false case Sym(c) => c in toks case Append => '>' in toks
  }

  /** while(s < es && strchr(whitespace, *s)) s++. */
  method Skip(s: string, i: nat) returns (j: nat)
    requires i <= |s|
    ensures j == SkipWhite(s, i)
  {
    j := i;
    while j < |s| && White(s[j])
      invariant i <= j <= |s| && SkipWhite(s, i) == SkipWhite(s, j)
    {
      j := j + 1;
    }
  }

  method SkipWord(s: string, i: nat) returns (j: nat)
    requires i <= |s|
    ensures j == WordEnd(s, i)
  {
    j := i;
    while j < |s| && !White(s[j]) && !Symbol(s[j])
      invariant i <= j <= |s| && WordEnd(s, i) == WordEnd(s, j)
    {
      j := j + 1;
    }
  }

  /** gettoken: the next token, None at the end of the line, and the cursor past it. */
  method GetToken(s: string, ps: nat) returns (tok: Option<Token>, next: nat)
    requires ps <= |s|
    ensures ps <= next <= |s|
    ensures tok.None? <==> Tokens(s, ps) == []
    ensures tok.None? ==> next == |s|
    ensures tok.Some? ==> Tokens(s, ps) == [tok.value] + Tokens(s, next)
  {
    var j := Skip(s, ps);
    if j == |s| {
      return None, j;
    }
    var t, k := Append, j;
    if s[j] == '>' {
      k := k + 1;
      t := Sym('>');
      if k < |s| && s[k] == '>' {
        t := Append;
        k := k + 1;
      }
    } else if Symbol(s[j]) {
      t := Sym(s[j]);
      k := k + 1;
    } else {
      k := SkipWord(s, j);
      t := Word(Span(j, k));
    }
    assert (t, k) == TokenAt(s, j);
    next := Skip(s, k);
    TokensSkip(s, k);
    tok := Some(t);
  }

  /** peek: whether the next character is one of toks, with the cursor moved up to it. */
  method Peek(s: string, ps: nat, toks: string) returns (found: bool, next: nat)
    requires ps <= |s| && forall c :: c in toks ==> Symbol(c)
    ensures ps <= next <= |s| && Tokens(s, next) == Tokens(s, ps)
    ensures found == Starts(Tokens(s, ps), toks)
    ensures next == |s| <==> Tokens(s, ps) == []
  {
    next := Skip(s, ps);
    TokensSkip(s, ps);
    found := next < |s| && s[next] in toks;
  }
}
