/** Writing a parsed query back as text: the parser reads it as the same query again. */
module QueryRoundTrip {
  import opened Bytes
  import opened QueryAst
  import opened QueryLexer
  import opened QueryParser
  import opened QueryGrammar

  // ---------- the expressions the parser can build ----------

  function OpText(op: Op): string {
    match op
    case Has => ""
    case Ge => ">="
    case Le => "<="
    case Gt => ">"
    case Lt => "<"
  }

  predicate NormalValue(op: Op, v: string) {
    op == Has ||
    (v != "" && (forall i :: 0 <= i < |v| ==> !EndsWord(v[i])) && (op == Gt || op == Lt ==> v[0] != '='))
  }

  /** Flat chains of two or more, names that are words, a star flag that tells the truth; a field may be
      called NOT only directly under a NOT. */
  predicate Normal(e: QExpr, underNot: bool) {
    match e
    case FieldTerm(n, op, v, w) =>
      && IsWord(n) && (underNot || !IsKeyword(Ident(n), "NOT"))
      && NormalValue(op, v) && w == (op == Has && '*' in v)
    case BareTerm(_) => true
    case QNot(c) => Normal(c, true)
    case QAnd(cs) => |cs| >= 2 && !cs[0].QAnd? && forall i :: 0 <= i < |cs| ==> Normal(cs[i], false)
    case QOr(cs) => |cs| >= 2 && !cs[0].QOr? && forall i :: 0 <= i < |cs| ==> Normal(cs[i], false)
  }

  // ---------- printing ----------

  function Width(e: QExpr): nat {
    if e.QAnd? || e.QOr? then |e.children| else 0
  }

  function TreeOf(e: QExpr): Tree
    decreases e, Width(e) + 1
  {
    match e
    case FieldTerm(n, op, v, _) => if op == Has then Field(n, v, true) else Field(n, OpText(op) + v, false)
    case BareTerm(v) => Bare(v, true)
    case QNot(c) => Not("NOT", if c.FieldTerm? || c.BareTerm? then TreeOf(c) else Group(TreeOf(c)))
    case QAnd(cs) => AndChain(e, |cs|)
    case QOr(cs) => OrChain(e, |cs|)
  }

  /** The first n children of a conjunction; nested chains get parentheses. */
  function AndChain(e: QExpr, n: nat): Tree
    requires e.QAnd? && n <= |e.children|
    decreases e, n
  {
    if n == 0 then Bare("", true)
    else
      var last := AndItem(e.children[n - 1], TreeOf(e.children[n - 1]));
      if n == 1 then last else And(AndChain(e, n - 1), Just("AND"), last)
  }

  function AndItem(c: QExpr, t: Tree): Tree {
    if c.QAnd? || c.QOr? then Group(t) else t
  }

  function OrChain(e: QExpr, n: nat): Tree
    requires e.QOr? && n <= |e.children|
    decreases e, n
  {
    if n == 0 then Bare("", true)
    else
      var last := OrItem(e.children[n - 1], TreeOf(e.children[n - 1]));
      if n == 1 then last else Or(OrChain(e, n - 1), "OR", last)
  }

  function OrItem(c: QExpr, t: Tree): Tree {
    if c.QOr? then Group(t) else t
  }

  /** The query as text, in one pair of parentheses. */
  function Print(e: QExpr): string {
    Render(Yield(Group(TreeOf(e))))
  }

  // ---------- the printed tree ----------

  predicate AllWritable(ts: seq<Tok>) {
    forall i :: 0 <= i < |ts| ==> Writable(ts[i])
  }

  lemma WritableConcat(a: seq<Tok>, b: seq<Tok>)
    ensures AllWritable(a + b) <==> AllWritable(a) && AllWritable(b)
  {
    if AllWritable(a + b) {
      assert forall i :: 0 <= i < |a| ==> a[i] == (a + b)[i];
      assert forall i :: 0 <= i < |b| ==> b[i] == (a + b)[|a| + i];
    }
  }

  /** Tree t is a fit way of writing e. */
  predicate Writes(t: Tree, e: QExpr, underNot: bool) {
    Derivable(t) && (underNot || StartsPlain(t)) && Flatten(t) == e && AllWritable(Yield(t))
  }

  lemma SignAtFront(s: string)
    ensures ">=" <= s <==> |s| >= 2 && s[0] == '>' && s[1] == '='
    ensures "<=" <= s <==> |s| >= 2 && s[0] == '<' && s[1] == '='
    ensures ">" <= s <==> |s| >= 1 && s[0] == '>'
    ensures "<" <= s <==> |s| >= 1 && s[0] == '<'
  {
    if |s| >= 2 {
      assert s[..2] == [s[0], s[1]];
    }
    if |s| >= 1 {
      assert s[..1] == [s[0]];
    }
  }

  lemma OpSplits(op: Op, v: string)
    requires op != Has && NormalValue(op, v)
    ensures SplitOp(OpText(op) + v) == (op, v) && IsWord(OpText(op) + v)
  {
    var s := OpText(op) + v;
    assert s[|OpText(op)|..] == v;
    SignAtFront(s);
    if op == Gt || op == Lt {
      assert s[1] == v[0];
    }
  }

  lemma {:induction false} TreeOfWrites(e: QExpr, underNot: bool)
    requires Normal(e, underNot)
    ensures Writes(TreeOf(e), e, underNot)
    ensures e.FieldTerm? || e.BareTerm? ==> IsPrimary(TreeOf(e))
    ensures !e.QAnd? && !e.QOr? ==> IsFactor(TreeOf(e))
    ensures !e.QOr? ==> IsConjunction(TreeOf(e))
    ensures !(e.FieldTerm? && underNot) ==> StartsPlain(TreeOf(e))
    decreases e, Width(e) + 1
  {
    match e
    case FieldTerm(n, op, v, _) =>
      FieldWrites(e, underNot);
    case BareTerm(_) =>
    case QNot(c) =>
      TreeOfWrites(c, true);
      NotWrites(c, TreeOf(c));
    case QAnd(cs) => AndChainWrites(e, |cs|);
      assert cs[..|cs|] == cs;
    case QOr(cs) => OrChainWrites(e, |cs|);
      assert cs[..|cs|] == cs;
  }

  lemma FieldWrites(e: QExpr, underNot: bool)
    requires e.FieldTerm? && Normal(e, underNot)
    ensures Writes(TreeOf(e), e, underNot)
    ensures !underNot ==> StartsPlain(TreeOf(e))
  {
    if e.op != Has {
      OpSplits(e.op, e.value);
    }
  }

  lemma NotWrites(c: QExpr, t: Tree)
    requires Writes(t, c, true)
    requires if c.FieldTerm? || c.BareTerm? then IsPrimary(t) else StartsPlain(t)
    ensures Writes(Not("NOT", if c.FieldTerm? || c.BareTerm? then t else Group(t)), QNot(c), false)
  {
    var operand := if c.FieldTerm? || c.BareTerm? then t else Group(t);
    WritableConcat([LParen], Yield(t));
    WritableConcat([LParen] + Yield(t), [RParen]);
    WritableConcat([Ident("NOT")], Yield(operand));
  }

  lemma GroupWrites(t: Tree, e: QExpr)
    requires Writes(t, e, false)
    ensures Writes(Group(t), e, false)
  {
    WritableConcat([LParen], Yield(t));
    WritableConcat([LParen] + Yield(t), [RParen]);
  }

  lemma {:induction false} AndChainWrites(e: QExpr, n: nat)
    requires e.QAnd? && Normal(e, false) && 1 <= n <= |e.children|
    ensures Writes(AndChain(e, n), if n == 1 then e.children[0] else QAnd(e.children[..n]), false)
    ensures IsConjunction(AndChain(e, n)) && StartsPlain(AndChain(e, n))
    decreases e, n
  {
    var c := e.children[n - 1];
    TreeOfWrites(c, false);
    var last := AndItem(c, TreeOf(c));
    GroupWrites(TreeOf(c), c);
    if n > 1 {
      AndChainWrites(e, n - 1);
      AndWrites(AndChain(e, n - 1), last, if n == 2 then e.children[0] else QAnd(e.children[..n - 1]), c);
      assert e.children[..n] == e.children[..n - 1] + [c];
      if n == 2 {
        assert e.children[..2] == [e.children[0], c];
      }
    }
  }

  lemma AndWrites(l: Tree, r: Tree, a: QExpr, b: QExpr)
    requires IsConjunction(l) && IsFactor(r) && Writes(l, a, false) && Writes(r, b, false)
    ensures Writes(And(l, Just("AND"), r), MergeAnd(a, b), false)
  {
    WritableConcat(Yield(l), [Ident("AND")]);
    WritableConcat(Yield(l) + [Ident("AND")], Yield(r));
  }

  lemma {:induction false} OrChainWrites(e: QExpr, n: nat)
    requires e.QOr? && Normal(e, false) && 1 <= n <= |e.children|
    ensures Writes(OrChain(e, n), if n == 1 then e.children[0] else QOr(e.children[..n]), false)
    ensures StartsPlain(OrChain(e, n))
    decreases e, n
  {
    var c := e.children[n - 1];
    TreeOfWrites(c, false);
    var last := OrItem(c, TreeOf(c));
    GroupWrites(TreeOf(c), c);
    if n > 1 {
      OrChainWrites(e, n - 1);
      OrWrites(OrChain(e, n - 1), last, if n == 2 then e.children[0] else QOr(e.children[..n - 1]), c);
      assert e.children[..n] == e.children[..n - 1] + [c];
      if n == 2 {
        assert e.children[..2] == [e.children[0], c];
      }
    }
  }

  lemma OrWrites(l: Tree, r: Tree, a: QExpr, b: QExpr)
    requires IsConjunction(r) && Writes(l, a, false) && Writes(r, b, false)
    ensures Writes(Or(l, "OR", r), MergeOr(a, b), false)
  {
    WritableConcat(Yield(l), [Ident("OR")]);
    WritableConcat(Yield(l) + [Ident("OR")], Yield(r));
  }

  // ---------- field terms ----------

  /** The sign and the rest are the value, and no sign is found exactly where none is in front. */
  lemma SplitOpMeans(v: string)
    ensures var (op, rest) := SplitOp(v);
            && OpText(op) + rest == v
            && (op == Has <==> v == "" || (v[0] != '<' && v[0] != '>'))
            && (op == Gt || op == Lt ==> rest == "" || rest[0] != '=')
  {
    SignAtFront(v);
    var (op, rest) := SplitOp(v);
    if op == Ge || op == Le {
      assert v == v[..2] + v[2..];
    } else if op == Gt || op == Lt {
      assert v == v[..1] + v[1..];
    } else {
      assert "" + v == v;
    }
  }

  /** The tokens of one field term. */
  predicate IsField(ts: seq<Lexeme>, n: string, value: Tok) {
    |ts| == 3 && ts[0].tok == Ident(n) && ts[1].tok == Colon && ts[2].tok == value
  }

  lemma FieldParses(ts: seq<Lexeme>, n: string, value: Tok)
    requires IsField(ts, n, value) && !IsKeyword(Ident(n), "NOT")
    ensures ParseTokens(ts) == ParseValue(n, ts[2], 2)
  {
    assert Peek(ts, 3).tok.EOF?;
    var r := ParseValue(n, ts[2], 2);
    assert r.Ok? ==> r.pos == 3;
    assert Peek(ts, 0).tok == Ident(n) && Peek(ts, 2) == ts[2];
    assert ParsePrimary(ts, 0) == r;
    assert ParseUnary(ts, 0) == r;
    hide ParseUnary, ParsePrimary, ParseValue;
    if r.Ok? {
      assert AndTail(ts, 3, r.expr) == r && OrTail(ts, 3, r.expr) == r;
    }
    assert ParseAnd(ts, 0) == r;
  }

  /** A value in quotes, or a word without a sign in front, is the text to look for; it has wildcards if it has
      stars. */
  lemma PlainField(ts: seq<Lexeme>, n: string, v: string)
    requires !IsKeyword(Ident(n), "NOT")
    requires IsField(ts, n, Str(v)) || (IsField(ts, n, Ident(v)) && (v == "" || (v[0] != '<' && v[0] != '>')))
    ensures ParseTokens(ts) == Ok(FieldTerm(n, Has, v, '*' in v), 3)
  {
    FieldParses(ts, n, ts[2].tok);
    SplitOpMeans(v);
    var (op, rest) := SplitOp(v);
    assert op == Has ==> "" + rest == rest;
  }

  /** A sign in front of an unquoted value compares with the rest, which must not be empty. */
  lemma SignField(ts: seq<Lexeme>, n: string, v: string)
    requires !IsKeyword(Ident(n), "NOT")
    ensures IsField(ts, n, Ident(">=" + v)) ==> ParseTokens(ts) == Compared(n, Ge, v, ts[2].start)
    ensures IsField(ts, n, Ident("<=" + v)) ==> ParseTokens(ts) == Compared(n, Le, v, ts[2].start)
    ensures IsField(ts, n, Ident(">" + v)) && (v == "" || v[0] != '=') ==>
              ParseTokens(ts) == Compared(n, Gt, v, ts[2].start)
    ensures IsField(ts, n, Ident("<" + v)) && (v == "" || v[0] != '=') ==>
              ParseTokens(ts) == Compared(n, Lt, v, ts[2].start)
  {
    if |ts| == 3 && IsField(ts, n, ts[2].tok) {
      FieldParses(ts, n, ts[2].tok);
      SignSplits(v);
    }
  }

  function Compared(n: string, op: Op, v: string, at: nat): Outcome {
    if v == "" then Err(ExpectedNumber(op, at)) else Ok(FieldTerm(n, op, v, false), 3)
  }

  lemma SignSplits(v: string)
    ensures SplitOp(">=" + v) == (Ge, v) && SplitOp("<=" + v) == (Le, v)
    ensures v == "" || v[0] != '=' ==> SplitOp(">" + v) == (Gt, v) && SplitOp("<" + v) == (Lt, v)
  {
    SignAtFront(">=" + v);
    SignAtFront("<=" + v);
    SignAtFront(">" + v);
    SignAtFront("<" + v);
    assert (">=" + v)[2..] == v && ("<=" + v)[2..] == v && (">" + v)[1..] == v && ("<" + v)[1..] == v;
  }

  /** A query typed as name:value, with no blanks around it, is that term. */
  lemma TypedField(n: string, v: string)
    requires IsWord(n) && IsWord(v) && !IsKeyword(Ident(n), "NOT") && v[0] != '<' && v[0] != '>'
    requires TrimSpace(n + (":" + v)) == n + (":" + v)
    ensures ParseText(n + (":" + v)) == Query(FieldTerm(n, Has, v, '*' in v))
  {
    hide Lexemes, Lex, TrimSpace, ParseOr, IsKeyword, IsWord;
    var text := n + (":" + v);
    FieldTokens(n, v);
    NoEOFLexemes(text);
    var ls := Lexemes(text, 0);
    assert forall i :: 0 <= i < 3 ==> ls[i].tok == Toks(ls)[i];
    PlainField(ls, n, v);
  }

  /** A query of blanks asks for everything; blanks around a query do not count. */
  lemma BlankQuery(a: string, q: string, b: string)
    requires Blanks(a) && Blanks(b)
    ensures ParseText(a) == MatchAll
    ensures Solid(q) ==> ParseText(a + q + b) == ParseText(q) != MatchAll
  {
    hide Lexemes, TrimSpace, ParseTokens;
    assert a + "" + "" == a && "" + q + "" == q;
    TrimMeans(a, "", "");
    if Solid(q) {
      TrimMeans(a, q, b);
      TrimMeans("", q, "");
    }
  }

  lemma FieldTokens(n: string, v: string)
    requires IsWord(n) && IsWord(v)
    ensures Lex(n + (":" + v)) == [Ident(n), Colon, Ident(v)]
  {
    LexFirst(Ident(n), ":" + v);
    SignTokens(v);
    LexFirst(Ident(v), "");
    assert v + "" == v && Lex("") == [];
  }

  // ---------- the printed text ----------

  lemma {:induction false} RenderEnd(ts: seq<Tok>)
    requires ts != [] && ts[|ts| - 1] == RParen
    ensures Render(ts) != "" && Render(ts)[|Render(ts)| - 1] == ')'
    decreases |ts|
  {
    var rest := Render(ts[1..]);
    assert Render(ts) == TokText(ts[0]) + (Gap(ts) + rest);
    if |ts| == 1 {
      assert rest == "" && Render(ts) == ")";
    } else {
      RenderEnd(ts[1..]);
      var n := |Render(ts)|;
      assert Render(ts)[n - 1] == (Gap(ts) + rest)[|Gap(ts) + rest| - 1] == rest[|rest| - 1];
    }
  }

  lemma RenderStart(ts: seq<Tok>)
    requires ts != [] && ts[0] == LParen
    ensures Render(ts) != "" && Render(ts)[0] == '('
  {
    assert Render(ts) == "(" + (Gap(ts) + Render(ts[1..]));
  }

  lemma NoEOFLexemes(s: string)
    ensures NoEOF(Lexemes(s, 0)) && Toks(Lexemes(s, 0)) == Lex(s) && AllWritable(Lex(s))
  {
    LexemesToks(s, 0);
    LexWords(s);
    var ls := Lexemes(s, 0);
    assert forall i :: 0 <= i < |ls| ==> ls[i].tok == Toks(ls)[i];
  }

  // ---------- main results ----------

  lemma PrintIsTrimmed(e: QExpr)
    ensures Print(e) != "" && TrimSpace(Print(e)) == Print(e)
  {
    var ts := Yield(Group(TreeOf(e)));
    assert ts[0] == LParen && ts[|ts| - 1] == RParen;
    RenderStart(ts);
    RenderEnd(ts);
    TrimSpaceStable(Print(e));
  }

  lemma ParseOfYield(src: string, t: Tree)
    requires src != "" && TrimSpace(src) == src && Lex(src) == Yield(t) && IsQuery(t)
    ensures ParseText(src) == Query(Flatten(t))
  {
    var ls := Lexemes(src, 0);
    NoEOFLexemes(src);
    assert Yield(t) == Toks(ls);
    ParserIsGrammar(ls, Flatten(t));
  }

  /** Print, then lex and parse: the same query comes back, for every query in normal form. */
  lemma PrintParse(e: QExpr)
    requires Normal(e, false)
    ensures ParseText(Print(e)) == Query(e)
  {
    TreeOfWrites(e, false);
    GroupWrites(TreeOf(e), e);
    PrintIsTrimmed(e);
    LexRender(Yield(Group(TreeOf(e))));
    ParseOfYield(Print(e), Group(TreeOf(e)));
  }

  lemma {:induction false} FlattenNormal(t: Tree, underNot: bool)
    requires Derivable(t) && (if underNot then IsPrimary(t) else StartsPlain(t)) && AllWritable(Yield(t))
    ensures Normal(Flatten(t), underNot)
  {
    match t
    case Bare(_, _) =>
    case Field(_, _, _) => FieldNormal(t, underNot);
    case Group(u) =>
      WritableConcat([LParen] + Yield(u), [RParen]);
      WritableConcat([LParen], Yield(u));
      FlattenNormal(u, false);
      NormalWeakens(Flatten(u));
    case Not(w, u) =>
      WritableConcat([Ident(w)], Yield(u));
      FlattenNormal(u, true);
    case And(l, w, r) =>
      WritableConcat(Yield(l) + AndToks(w), Yield(r));
      WritableConcat(Yield(l), AndToks(w));
      FlattenNormal(r, false);
      FlattenNormal(l, false);
      MergesNormal(Flatten(l), Flatten(r), underNot);
    case Or(l, w, r) =>
      WritableConcat(Yield(l) + [Ident(w)], Yield(r));
      WritableConcat(Yield(l), [Ident(w)]);
      FlattenNormal(r, false);
      FlattenNormal(l, false);
      MergesNormal(Flatten(l), Flatten(r), underNot);
  }

  lemma FieldNormal(t: Tree, underNot: bool)
    requires t.Field? && Derivable(t) && (underNot || StartsPlain(t)) && AllWritable(Yield(t))
    ensures Normal(Flatten(t), underNot)
  {
    assert Writable(Yield(t)[0]) && Writable(Yield(t)[2]);
    if !t.quoted {
      SplitNormal(t.value);
    }
  }

  lemma MergesNormal(a: QExpr, b: QExpr, underNot: bool)
    requires Normal(a, false) && Normal(b, false)
    ensures Normal(MergeAnd(a, b), underNot) && Normal(MergeOr(a, b), underNot)
  {
  }

  lemma SplitNormal(v: string)
    requires IsWord(v) && (SplitOp(v).0 == Has || SplitOp(v).1 != "")
    ensures NormalValue(SplitOp(v).0, SplitOp(v).1)
  {
    if ">" <= v && !(">=" <= v) && |v| > 1 {
      assert v[..2] == [v[0], v[1]];
    }
    if "<" <= v && !("<=" <= v) && |v| > 1 {
      assert v[..2] == [v[0], v[1]];
    }
  }

  lemma NormalWeakens(e: QExpr)
    requires Normal(e, false)
    ensures Normal(e, true)
  {
  }

  /** Everything the parser returns is in normal form. */
  lemma ParserOutputsNormal(text: string)
    requires ParseText(text).Query?
    ensures Normal(ParseText(text).expr, false)
  {
    var src := TrimSpace(text);
    var ls := Lexemes(src, 0);
    NoEOFLexemes(src);
    var e := ParseTokens(ls).expr;
    ParserIsGrammar(ls, e);
    var t :| IsQuery(t) && Yield(t) == Toks(ls) && Flatten(t) == e;
    FlattenNormal(t, false);
  }

  /** So printing what was parsed and parsing it again gives the same query. */
  lemma ParsePrintParse(text: string)
    requires ParseText(text).Query?
    ensures ParseText(Print(ParseText(text).expr)) == ParseText(text)
  {
    ParserOutputsNormal(text);
    PrintParse(ParseText(text).expr);
  }
}
