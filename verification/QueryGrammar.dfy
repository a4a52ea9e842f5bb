/** The grammar of the query language as trees, and the proof that the parser accepts exactly their token
    strings, with AND binding tighter than OR, and that flattening keeps the meaning. */
module QueryGrammar {
  import opened QueryAst
  import opened QueryLexer
  import opened QueryParser

  /** A derivation. Chains are binary and grouped to the left; a missing AND word is an implicit AND. */
  datatype Tree =
    | Bare(text: string, quoted: bool)
    | Field(name: string, value: string, quoted: bool)
    | Group(inner: Tree)
    | Not(word: string, operand: Tree)
    | And(left: Tree, andWord: Maybe, right: Tree)
    | Or(left: Tree, orWord: string, right: Tree)

  datatype Maybe = Nothing | Just(word: string)

  function ValueTok(v: string, quoted: bool): Tok {
    if quoted then Str(v) else Ident(v)
  }

  function AndToks(w: Maybe): seq<Tok> {
    if w.Just? then [Ident(w.word)] else []
  }

  /** The tokens a derivation stands for. */
  function Yield(t: Tree): (ts: seq<Tok>)
    ensures |ts| >= 1
  {
    match t
    case Bare(v, q) => [ValueTok(v, q)]
    case Field(n, v, q) => [Ident(n), Colon, ValueTok(v, q)]
    case Group(u) => [LParen] + Yield(u) + [RParen]
    case Not(w, u) => [Ident(w)] + Yield(u)
    case And(l, w, r) => Yield(l) + AndToks(w) + Yield(r)
    case Or(l, w, r) => Yield(l) + [Ident(w)] + Yield(r)
  }

  predicate IsPrimary(t: Tree) {
    t.Bare? || t.Field? || t.Group?
  }

  predicate IsFactor(t: Tree) {
    IsPrimary(t) || t.Not?
  }

  predicate IsConjunction(t: Tree) {
    IsFactor(t) || t.And?
  }

  /** An implicit AND cannot come before a word that would be read as an operator. */
  predicate MayFollow(t: Tok) {
    !IsKeyword(t, "OR") && !IsKeyword(t, "AND")
  }

  /** The derivations of the language. */
  predicate Derivable(t: Tree) {
    match t
    case Bare(_, _) => true
    case Field(_, v, q) => q || SplitOp(v).0 == Has || SplitOp(v).1 != ""
    case Group(u) => Derivable(u) && StartsPlain(u)
    case Not(w, u) => IsKeyword(Ident(w), "NOT") && IsPrimary(u) && Derivable(u)
    case And(l, w, r) =>
      && IsConjunction(l) && Derivable(l)
      && IsFactor(r) && Derivable(r) && StartsPlain(r)
      && (if w.Just? then IsKeyword(Ident(w.word), "AND") else MayFollow(Yield(r)[0]))
    case Or(l, w, r) =>
      && Derivable(l) && IsKeyword(Ident(w), "OR")
      && IsConjunction(r) && Derivable(r) && StartsPlain(r)
  }

  /** The word NOT at the front of a factor is always the operator. */
  predicate StartsPlain(t: Tree) {
    match t
    case Bare(_, _) => !IsKeyword(Yield(t)[0], "NOT")
    case Field(_, _, _) => !IsKeyword(Yield(t)[0], "NOT")
    case Group(_) => true
    case Not(_, _) => true
    case And(l, _, _) => StartsPlain(l)
    case Or(l, _, _) => StartsPlain(l)
  }

  /** The derivations of a whole query. */
  predicate IsQuery(t: Tree) {
    Derivable(t) && StartsPlain(t)
  }

  /** The expression the parser builds: chains of one operator become one node. */
  function Flatten(t: Tree): QExpr {
    match t
    case Bare(v, _) => BareTerm(v)
    case Field(n, v, q) => if q then MakeField(n, Has, v) else MakeField(n, SplitOp(v).0, SplitOp(v).1)
    case Group(u) => Flatten(u)
    case Not(_, u) => QNot(Flatten(u))
    case And(l, _, r) => MergeAnd(Flatten(l), Flatten(r))
    case Or(l, _, r) => MergeOr(Flatten(l), Flatten(r))
  }

  // ---------- what a derivation means ----------

  /** The plain reading of the binary tree. */
  ghost predicate Means(t: Tree, row: View) {
    match t
    case Bare(_, _) => Eval(Flatten(t), row)
    case Field(_, _, _) => Eval(Flatten(t), row)
    case Group(u) => Means(u, row)
    case Not(_, u) => !Means(u, row)
    case And(l, _, r) => Means(l, row) && Means(r, row)
    case Or(l, _, r) => Means(l, row) || Means(r, row)
  }

  lemma MergeAndMeans(a: QExpr, b: QExpr, row: View)
    ensures Eval(MergeAnd(a, b), row) <==> Eval(a, row) && Eval(b, row)
  {
    var cs := MergeAnd(a, b).children;
    assert cs[|cs| - 1] == b;
    if a.QAnd? {
      assert forall i :: 0 <= i < |a.children| ==> cs[i] == a.children[i];
      if Eval(MergeAnd(a, b), row) {
        assert forall i :: 0 <= i < |a.children| ==> Eval(cs[i], row);
      }
    } else {
      assert cs[0] == a;
    }
  }

  lemma MergeOrMeans(a: QExpr, b: QExpr, row: View)
    ensures Eval(MergeOr(a, b), row) <==> Eval(a, row) || Eval(b, row)
  {
    var cs := MergeOr(a, b).children;
    assert cs[|cs| - 1] == b;
    if a.QOr? {
      assert forall i :: 0 <= i < |a.children| ==> cs[i] == a.children[i];
      if Eval(a, row) {
        var i :| 0 <= i < |a.children| && Eval(a.children[i], row);
        assert Eval(cs[i], row);
      }
    } else {
      assert cs[0] == a;
    }
  }

  /** Flattening preserves meaning. */
  lemma {:induction false} FlattenMeans(t: Tree, row: View)
    ensures Eval(Flatten(t), row) <==> Means(t, row)
  {
    match t
    case Bare(_, _) =>
    case Field(_, _, _) =>
    case Group(u) => FlattenMeans(u, row);
    case Not(_, u) => FlattenMeans(u, row);
    case And(l, _, r) =>
      FlattenMeans(l, row);
      FlattenMeans(r, row);
      MergeAndMeans(Flatten(l), Flatten(r), row);
    case Or(l, _, r) =>
      FlattenMeans(l, row);
      FlattenMeans(r, row);
      MergeOrMeans(Flatten(l), Flatten(r), row);
  }

  // ---------- completeness ----------

  /** The tokens from position `pos` on start with `part`. */
  predicate At(ts: seq<Lexeme>, pos: nat, part: seq<Tok>) {
    pos + |part| <= |ts| && forall i :: 0 <= i < |part| ==> ts[pos + i].tok == part[i]
  }

  lemma AtSplit(ts: seq<Lexeme>, pos: nat, a: seq<Tok>, b: seq<Tok>)
    requires At(ts, pos, a + b)
    ensures At(ts, pos, a) && At(ts, pos + |a|, b)
  {
    forall i | 0 <= i < |a|
      ensures ts[pos + i].tok == a[i]
    {
      assert (a + b)[i] == a[i];
    }
    forall i | 0 <= i < |b|
      ensures ts[pos + |a| + i].tok == b[i]
    {
      assert (a + b)[|a| + i] == b[i];
    }
  }

  lemma AtSplit3(ts: seq<Lexeme>, pos: nat, a: seq<Tok>, b: seq<Tok>, c: seq<Tok>)
    requires At(ts, pos, a + b + c)
    ensures At(ts, pos, a) && At(ts, pos + |a|, b) && At(ts, pos + |a| + |b|, c)
    ensures |b| > 0 ==> Peek(ts, pos + |a|).tok == b[0]
    ensures |c| > 0 ==> Peek(ts, pos + |a| + |b|).tok == c[0]
  {
    AtSplit(ts, pos, a + b, c);
    AtSplit(ts, pos, a, b);
    assert |b| > 0 ==> ts[pos + |a| + 0].tok == b[0];
    assert |c| > 0 ==> ts[pos + |a| + |b| + 0].tok == c[0];
  }

  lemma AtJoin(ts: seq<Lexeme>, pos: nat, a: seq<Tok>, b: seq<Tok>)
    requires At(ts, pos, a) && At(ts, pos + |a|, b)
    ensures At(ts, pos, a + b)
  {
    forall i | 0 <= i < |a + b|
      ensures ts[pos + i].tok == (a + b)[i]
    {
      if i >= |a| {
        assert ts[pos + |a| + (i - |a|)].tok == b[i - |a|];
      }
    }
  }

  lemma AtJoin3(ts: seq<Lexeme>, pos: nat, a: seq<Tok>, b: seq<Tok>, c: seq<Tok>)
    requires At(ts, pos, a) && At(ts, pos + |a|, b) && At(ts, pos + |a| + |b|, c)
    ensures At(ts, pos, a + b + c)
    ensures |c| > 0 ==> Peek(ts, pos + |a| + |b|).tok == c[0]
  {
    assert |c| > 0 ==> ts[pos + |a| + |b| + 0].tok == c[0];
    AtJoin(ts, pos, a, b);
    AtJoin(ts, pos, a + b, c);
  }

  /** No EOF marker sits inside the token list. */
  predicate NoEOF(ts: seq<Lexeme>) {
    forall i :: 0 <= i < |ts| ==> !ts[i].tok.EOF?
  }

  lemma {:induction false} CompletePrimary(t: Tree, ts: seq<Lexeme>, pos: nat)
    requires IsPrimary(t) && Derivable(t) && At(ts, pos, Yield(t)) && NoEOF(ts)
    requires !Peek(ts, pos + |Yield(t)|).tok.Colon?
    ensures ParsePrimary(ts, pos) == Ok(Flatten(t), pos + |Yield(t)|)
    decreases t, 0
  {
    assert ts[pos + 0].tok == Yield(t)[0];
    match t
    case Bare(_, _) =>
    case Field(_, _, _) =>
      assert ts[pos + 1].tok == Yield(t)[1] && ts[pos + 2].tok == Yield(t)[2];
    case Group(u) =>
      var open: seq<Tok>, close: seq<Tok> := [LParen], [RParen];
      AtSplit(ts, pos, open + Yield(u), close);
      AtSplit(ts, pos, open, Yield(u));
      assert ts[pos + 1 + |Yield(u)| + 0].tok == close[0];
      CompleteOr(u, ts, pos + 1);
  }

  lemma {:induction false} CompleteUnary(t: Tree, ts: seq<Lexeme>, pos: nat)
    requires IsFactor(t) && Derivable(t) && StartsPlain(t) && At(ts, pos, Yield(t)) && NoEOF(ts)
    requires !Peek(ts, pos + |Yield(t)|).tok.Colon?
    ensures ParseUnary(ts, pos) == Ok(Flatten(t), pos + |Yield(t)|)
    decreases t, 1
  {
    assert ts[pos + 0].tok == Yield(t)[0];
    if t.Not? {
      AtSplit(ts, pos, [Ident(t.word)], Yield(t.operand));
      CompletePrimary(t.operand, ts, pos + 1);
    } else {
      CompletePrimary(t, ts, pos);
    }
  }

  /** One turn of the AND loop. */
  lemma {:induction false} CompleteAndStep(left: QExpr, w: Maybe, r: Tree, ts: seq<Lexeme>, pos: nat)
    requires IsFactor(r) && Derivable(r) && StartsPlain(r) && NoEOF(ts)
    requires if w.Just? then IsKeyword(Ident(w.word), "AND") else MayFollow(Yield(r)[0])
    requires At(ts, pos, AndToks(w)) && At(ts, pos + |AndToks(w)|, Yield(r))
    requires !Peek(ts, pos + |AndToks(w)| + |Yield(r)|).tok.Colon?
    ensures AndTail(ts, pos, left) == AndTail(ts, pos + |AndToks(w)| + |Yield(r)|, MergeAnd(left, Flatten(r)))
    decreases r, 2
  {
    var q := pos + |AndToks(w)|;
    YieldStart(r);
    assert ts[q + 0].tok == Yield(r)[0];
    if w.Just? {
      assert ts[pos + 0].tok == AndToks(w)[0];
      KeywordsDiffer(ts[pos].tok);
    }
    CompleteUnary(r, ts, q);
  }

  /** Reading a conjunction leaves the AND loop just after it, holding its flattened form. */
  lemma {:induction false} CompleteAnd(t: Tree, ts: seq<Lexeme>, pos: nat)
    requires IsConjunction(t) && Derivable(t) && StartsPlain(t) && At(ts, pos, Yield(t)) && NoEOF(ts)
    requires !Peek(ts, pos + |Yield(t)|).tok.Colon?
    ensures ParseAnd(ts, pos) == AndTail(ts, pos + |Yield(t)|, Flatten(t))
    decreases t, 3
  {
    if t.And? {
      var l, w, r := t.left, t.andWord, t.right;
      AtSplit3(ts, pos, Yield(l), AndToks(w), Yield(r));
      var p := pos + |Yield(l)|;
      NextIsNotColon(w, r, ts, p);
      CompleteAnd(l, ts, pos);
      CompleteAndStep(Flatten(l), w, r, ts, p);
    } else {
      CompleteUnary(t, ts, pos);
    }
  }

  lemma NextIsNotColon(w: Maybe, r: Tree, ts: seq<Lexeme>, pos: nat)
    requires At(ts, pos, AndToks(w)) && At(ts, pos + |AndToks(w)|, Yield(r))
    ensures !Peek(ts, pos).tok.Colon?
  {
    YieldStart(r);
    if w.Just? {
      assert ts[pos + 0].tok == AndToks(w)[0];
    } else {
      assert ts[pos + 0].tok == Yield(r)[0];
    }
  }

  /** A token is at most one of the operator words. */
  lemma KeywordsDiffer(t: Tok)
    ensures !(IsKeyword(t, "OR") && IsKeyword(t, "AND"))
  {
    assert |"OR"| == 2 && |"AND"| == 3;
  }

  lemma {:induction false} YieldStart(t: Tree)
    ensures var s := Yield(t)[0]; s.Ident? || s.Str? || s.LParen?
  {
    match t
    case And(l, _, _) => YieldStart(l);
    case Or(l, _, _) => YieldStart(l);
    case _ =>
  }

  /** One turn of the OR loop. */
  lemma {:induction false} CompleteOrStep(left: QExpr, w: string, r: Tree, ts: seq<Lexeme>, pos: nat)
    requires IsConjunction(r) && Derivable(r) && StartsPlain(r) && NoEOF(ts)
    requires IsKeyword(Ident(w), "OR") && At(ts, pos, [Ident(w)]) && At(ts, pos + 1, Yield(r))
    requires EndsAnd(Peek(ts, pos + 1 + |Yield(r)|).tok)
    ensures OrTail(ts, pos, left) == OrTail(ts, pos + 1 + |Yield(r)|, MergeOr(left, Flatten(r)))
    decreases r, 4
  {
    var word: seq<Tok> := [Ident(w)];
    assert ts[pos + 0].tok == word[0];
    CompleteAnd(r, ts, pos + 1);
  }

  /** A conjunction in front of a token that ends it. */
  lemma {:induction false} CompleteOrFirst(t: Tree, ts: seq<Lexeme>, pos: nat)
    requires IsConjunction(t) && Derivable(t) && StartsPlain(t) && At(ts, pos, Yield(t)) && NoEOF(ts)
    requires EndsAnd(Peek(ts, pos + |Yield(t)|).tok)
    ensures ParseOr(ts, pos) == OrTail(ts, pos + |Yield(t)|, Flatten(t))
    decreases t, 4
  {
    CompleteAnd(t, ts, pos);
  }

  /** A derivation followed by a closing parenthesis, the end of the query or the word OR. */
  lemma {:induction false} CompleteOrTail(t: Tree, ts: seq<Lexeme>, pos: nat)
    requires Derivable(t) && StartsPlain(t) && At(ts, pos, Yield(t)) && NoEOF(ts)
    requires EndsAnd(Peek(ts, pos + |Yield(t)|).tok)
    ensures ParseOr(ts, pos) == OrTail(ts, pos + |Yield(t)|, Flatten(t))
    decreases t, 5
  {
    hide ParseOr, OrTail, MergeOr, MergeAnd;
    if t.Or? {
      var l, w, r := t.left, t.orWord, t.right;
      var a, c := Yield(l), Yield(r);
      var p := pos + |a|;
      assert Yield(t) == a + [Ident(w)] + c;
      AtSplit3(ts, pos, a, [Ident(w)], c);
      CompleteOrStep(Flatten(l), w, r, ts, p);
      CompleteOrTail(l, ts, pos);
    } else {
      CompleteOrFirst(t, ts, pos);
    }
  }

  lemma {:induction false} CompleteOr(t: Tree, ts: seq<Lexeme>, pos: nat)
    requires Derivable(t) && StartsPlain(t) && At(ts, pos, Yield(t)) && NoEOF(ts)
    requires var next := Peek(ts, pos + |Yield(t)|).tok; next.EOF? || next.RParen?
    ensures ParseOr(ts, pos) == Ok(Flatten(t), pos + |Yield(t)|)
    decreases t, 6
  {
    CompleteOrTail(t, ts, pos);
  }

  // ---------- soundness ----------

  /** Tree t derives the tokens between two positions and flattens to e. */
  ghost predicate Derives(t: Tree, ts: seq<Lexeme>, from: nat, to: nat, e: QExpr) {
    Derivable(t) && At(ts, from, Yield(t)) && to == from + |Yield(t)| && Flatten(t) == e
  }

  lemma {:induction false} SoundPrimary(ts: seq<Lexeme>, pos: nat) returns (t: Tree)
    requires pos <= |ts| && ParsePrimary(ts, pos).Ok?
    ensures IsPrimary(t)
    ensures Derives(t, ts, pos, ParsePrimary(ts, pos).pos, ParsePrimary(ts, pos).expr)
    decreases |ts| - pos, 0
  {
    match Peek(ts, pos).tok
    case LParen =>
      var u := SoundOr(ts, pos + 1);
      t := Group(u);
      AtJoin(ts, pos, [LParen], Yield(u));
      AtJoin(ts, pos, [LParen] + Yield(u), [RParen]);
    case Ident(n) =>
      if pos + 1 < |ts| && ts[pos + 1].tok.Colon? {
        var v := Peek(ts, pos + 2).tok;
        t := Field(n, v.val, v.Str?);
      } else {
        t := Bare(n, false);
      }
    case Str(v) =>
      t := Bare(v, true);
    case _ =>
  }

  lemma {:induction false} SoundUnary(ts: seq<Lexeme>, pos: nat) returns (t: Tree)
    requires pos <= |ts| && ParseUnary(ts, pos).Ok?
    ensures IsFactor(t) && StartsPlain(t)
    ensures Derives(t, ts, pos, ParseUnary(ts, pos).pos, ParseUnary(ts, pos).expr)
    decreases |ts| - pos, 1
  {
    if IsKeyword(Peek(ts, pos).tok, "NOT") {
      var u := SoundPrimary(ts, pos + 1);
      t := Not(ts[pos].tok.val, u);
      AtJoin(ts, pos, [Ident(t.word)], Yield(u));
    } else {
      t := SoundPrimary(ts, pos);
      assert ts[pos + 0].tok == Yield(t)[0];
    }
  }

  lemma {:induction false} SoundAnd(ts: seq<Lexeme>, pos: nat) returns (t: Tree)
    requires pos <= |ts| && ParseAnd(ts, pos).Ok?
    ensures IsConjunction(t) && StartsPlain(t)
    ensures Derives(t, ts, pos, ParseAnd(ts, pos).pos, ParseAnd(ts, pos).expr)
    decreases |ts| - pos, 3
  {
    var l := SoundUnary(ts, pos);
    t := SoundAndTail(ts, pos, ParseUnary(ts, pos).pos, l);
  }

  lemma {:induction false} SoundAndTail(ts: seq<Lexeme>, start: nat, pos: nat, left: Tree) returns (t: Tree)
    requires start < pos <= |ts| && IsConjunction(left) && StartsPlain(left)
    requires Derives(left, ts, start, pos, Flatten(left)) && AndTail(ts, pos, Flatten(left)).Ok?
    ensures var r := AndTail(ts, pos, Flatten(left));
            IsConjunction(t) && StartsPlain(t) && Derives(t, ts, start, r.pos, r.expr)
    decreases |ts| - pos, 2
  {
    hide Yield, Flatten, Derivable, StartsPlain, ParseUnary;
    var tok := Peek(ts, pos).tok;
    if EndsAnd(tok) {
      t := left;
    } else {
      var w := if IsKeyword(tok, "AND") then Just(tok.val) else Nothing;
      var q := pos + |AndToks(w)|;
      var u := AndTailStep(ts, pos, Flatten(left));
      var r := SoundUnary(ts, q);
      JoinAnd(ts, start, pos, left, w, r);
      t := SoundAndTail(ts, start, u.pos, And(left, w, r));
    }
  }

  /** One turn of the AND loop, from the parser's side. */
  lemma AndTailStep(ts: seq<Lexeme>, pos: nat, left: QExpr) returns (u: Outcome)
    requires pos <= |ts| && !EndsAnd(Peek(ts, pos).tok) && AndTail(ts, pos, left).Ok?
    ensures u == ParseUnary(ts, if IsKeyword(Peek(ts, pos).tok, "AND") then pos + 1 else pos) && u.Ok?
    ensures AndTail(ts, pos, left) == AndTail(ts, u.pos, MergeAnd(left, u.expr))
  {
    u := ParseUnary(ts, if IsKeyword(Peek(ts, pos).tok, "AND") then pos + 1 else pos);
  }

  lemma JoinAnd(ts: seq<Lexeme>, start: nat, pos: nat, left: Tree, w: Maybe, r: Tree)
    requires IsConjunction(left) && StartsPlain(left) && Derives(left, ts, start, pos, Flatten(left))
    requires IsFactor(r) && Derivable(r) && StartsPlain(r)
    requires At(ts, pos, AndToks(w)) && At(ts, pos + |AndToks(w)|, Yield(r))
    requires if w.Just? then IsKeyword(Ident(w.word), "AND") else MayFollow(ts[pos].tok)
    ensures var t := And(left, w, r);
            && StartsPlain(t)
            && Derives(t, ts, start, pos + |AndToks(w)| + |Yield(r)|, MergeAnd(Flatten(left), Flatten(r)))
  {
    hide At, MergeAnd, MergeOr;
    AtJoin3(ts, start, Yield(left), AndToks(w), Yield(r));
  }

  lemma {:induction false} SoundOr(ts: seq<Lexeme>, pos: nat) returns (t: Tree)
    requires pos <= |ts| && ParseOr(ts, pos).Ok?
    ensures StartsPlain(t)
    ensures Derives(t, ts, pos, ParseOr(ts, pos).pos, ParseOr(ts, pos).expr)
    decreases |ts| - pos, 5
  {
    var l := SoundAnd(ts, pos);
    t := SoundOrTail(ts, pos, ParseAnd(ts, pos).pos, l);
  }

  lemma {:induction false} SoundOrTail(ts: seq<Lexeme>, start: nat, pos: nat, left: Tree) returns (t: Tree)
    requires start < pos <= |ts| && StartsPlain(left)
    requires Derives(left, ts, start, pos, Flatten(left)) && OrTail(ts, pos, Flatten(left)).Ok?
    ensures var r := OrTail(ts, pos, Flatten(left));
            StartsPlain(t) && Derives(t, ts, start, r.pos, r.expr)
    decreases |ts| - pos, 4
  {
    var tok := Peek(ts, pos).tok;
    if IsKeyword(tok, "OR") {
      var r := SoundAnd(ts, pos + 1);
      AtJoin3(ts, start, Yield(left), [Ident(tok.val)], Yield(r));
      t := SoundOrTail(ts, start, ParseAnd(ts, pos + 1).pos, Or(left, tok.val, r));
    } else {
      t := left;
    }
  }

  // ---------- main results ----------

  /** The parser builds e from a token list exactly when some derivation of these tokens flattens to e. */
  lemma ParserIsGrammar(ts: seq<Lexeme>, e: QExpr)
    requires NoEOF(ts)
    ensures (ParseTokens(ts).Ok? && ParseTokens(ts).expr == e)
            <==> exists t :: IsQuery(t) && Yield(t) == Toks(ts) && Flatten(t) == e
  {
    if ParseTokens(ts).Ok? && ParseTokens(ts).expr == e {
      var t := SoundOr(ts, 0);
      assert Yield(t) == Toks(ts) by {
        assert forall i :: 0 <= i < |ts| ==> ts[0 + i].tok == Yield(t)[i];
      }
    }
    if t :| IsQuery(t) && Yield(t) == Toks(ts) && Flatten(t) == e {
      CompleteOr(t, ts, 0);
    }
  }

  /** Hence every derivation of the same tokens means the same, and what the parser builds means that. */
  lemma ParserMeansTree(ts: seq<Lexeme>, t: Tree, row: View)
    requires NoEOF(ts) && IsQuery(t) && Yield(t) == Toks(ts)
    ensures ParseTokens(ts).Ok? && (Eval(ParseTokens(ts).expr, row) <==> Means(t, row))
  {
    ParserIsGrammar(ts, Flatten(t));
    FlattenMeans(t, row);
  }

  /** Every implicit AND spelled out. */
  function SpellAnd(t: Tree): Tree {
    match t
    case Bare(_, _) => t
    case Field(_, _, _) => t
    case Group(u) => Group(SpellAnd(u))
    case Not(w, u) => Not(w, SpellAnd(u))
    case And(l, w, r) => And(SpellAnd(l), if w.Just? then w else Just("AND"), SpellAnd(r))
    case Or(l, w, r) => Or(SpellAnd(l), w, SpellAnd(r))
  }

  lemma {:induction false} SpellAndKeeps(t: Tree)
    ensures Flatten(SpellAnd(t)) == Flatten(t)
    ensures StartsPlain(SpellAnd(t)) == StartsPlain(t)
    ensures IsPrimary(SpellAnd(t)) == IsPrimary(t) && IsFactor(SpellAnd(t)) == IsFactor(t)
    ensures IsConjunction(SpellAnd(t)) == IsConjunction(t)
    ensures Derivable(t) ==> Derivable(SpellAnd(t))
  {
    match t
    case Bare(_, _) =>
    case Field(_, _, _) =>
    case Group(u) => SpellAndKeeps(u);
    case Not(_, u) => SpellAndKeeps(u);
    case And(l, _, r) =>
      SpellAndKeeps(l);
      SpellAndKeeps(r);
    case Or(l, _, r) =>
      SpellAndKeeps(l);
      SpellAndKeeps(r);
  }

  /** Writing out the implicit ANDs of a query does not change what it parses to. */
  lemma ImplicitAndIsAnd(ts: seq<Lexeme>, spelled: seq<Lexeme>, t: Tree)
    requires NoEOF(ts) && NoEOF(spelled) && IsQuery(t)
    requires Toks(ts) == Yield(t) && Toks(spelled) == Yield(SpellAnd(t))
    ensures ParseTokens(ts).Ok? && ParseTokens(spelled).Ok?
    ensures ParseTokens(spelled).expr == ParseTokens(ts).expr
  {
    SpellAndKeeps(t);
    ParserIsGrammar(ts, Flatten(t));
    ParserIsGrammar(spelled, Flatten(t));
  }
}
