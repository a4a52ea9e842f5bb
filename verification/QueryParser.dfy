/** The recursive-descent parser of the query language. */
module QueryParser {
  import opened Bytes
  import opened QueryAst
  import opened QueryLexer

  datatype ParseError =
    | UnexpectedToken(tok: Tok, at: nat)
    | ExpectedRParen(at: nat)
    | ExpectedValue(at: nat)
    | ExpectedNumber(op: Op, at: nat)

  /** A parsed expression and the position after it, or the error that stopped the parser. */
  datatype Outcome = Ok(expr: QExpr, pos: nat) | Err(error: ParseError)

  function Peek(ts: seq<Lexeme>, pos: nat): Lexeme {
    if pos >= |ts| then Lexeme(EOF, 0) else ts[pos]
  }

  /** The operator words are recognised in any mix of cases. */
  predicate IsKeyword(t: Tok, word: string) {
    t.Ident? && EqualFold(t.val, word)
  }

  /** The three operator words, letter by letter. */
  lemma OperatorWords(w: string)
    ensures IsKeyword(Ident(w), "OR") <==> |w| == 2 && w[0] in {'o', 'O'} && w[1] in {'r', 'R'}
    ensures IsKeyword(Ident(w), "AND") <==>
              |w| == 3 && w[0] in {'a', 'A'} && w[1] in {'n', 'N'} && w[2] in {'d', 'D'}
    ensures IsKeyword(Ident(w), "NOT") <==>
              |w| == 3 && w[0] in {'n', 'N'} && w[1] in {'o', 'O'} && w[2] in {'t', 'T'}
    ensures forall word :: !IsKeyword(Str(w), word)
  {
    FoldMeans(w, "OR");
    FoldMeans(w, "AND");
    FoldMeans(w, "NOT");
    hide EqualFold;
    assert "OR"[0] == 'O' && "OR"[1] == 'R';
    assert "AND"[0] == 'A' && "AND"[1] == 'N' && "AND"[2] == 'D';
    assert "NOT"[0] == 'N' && "NOT"[1] == 'O' && "NOT"[2] == 'T';
  }

  // ---------- building the tree ----------

  function MergeOr(a: QExpr, b: QExpr): QExpr {
    if a.QOr? then QOr(a.children + [b]) else QOr([a, b])
  }

  function MergeAnd(a: QExpr, b: QExpr): QExpr {
    if a.QAnd? then QAnd(a.children + [b]) else QAnd([a, b])
  }

  /** The comparison sign at the start of an unquoted value, tried in this order. */
  function SplitOp(v: string): (r: (Op, string)) {
    if ">=" <= v then (Ge, v[2..])
    else if "<=" <= v then (Le, v[2..])
    else if ">" <= v then (Gt, v[1..])
    else if "<" <= v then (Lt, v[1..])
    else (Has, v)
  }

  function MakeField(name: string, op: Op, value: string): QExpr {
    FieldTerm(name, op, value, op == Has && '*' in value)
  }

  // ---------- the grammar as functions ----------

  function ParseOr(ts: seq<Lexeme>, pos: nat): (r: Outcome)
    requires pos <= |ts|
    ensures r.Ok? ==> pos < r.pos <= |ts|
    decreases |ts| - pos, 5
  {
    match ParseAnd(ts, pos)
    case Err(e) => Err(e)
    case Ok(left, p) => OrTail(ts, p, left)
  }

  function OrTail(ts: seq<Lexeme>, pos: nat, left: QExpr): (r: Outcome)
    requires pos <= |ts|
    ensures r.Ok? ==> pos <= r.pos <= |ts|
    decreases |ts| - pos, 4
  {
    if IsKeyword(Peek(ts, pos).tok, "OR") then
      match ParseAnd(ts, pos + 1)
      case Err(e) => Err(e)
      case Ok(right, p) => OrTail(ts, p, MergeOr(left, right))
    else Ok(left, pos)
  }

  function ParseAnd(ts: seq<Lexeme>, pos: nat): (r: Outcome)
    requires pos <= |ts|
    ensures r.Ok? ==> pos < r.pos <= |ts|
    decreases |ts| - pos, 3
  {
    match ParseUnary(ts, pos)
    case Err(e) => Err(e)
    case Ok(left, p) => AndTail(ts, p, left)
  }

  /** Whether the chain of AND factors ends before this token. */
  predicate EndsAnd(t: Tok) {
    t.EOF? || t.RParen? || IsKeyword(t, "OR")
  }

  function AndTail(ts: seq<Lexeme>, pos: nat, left: QExpr): (r: Outcome)
    requires pos <= |ts|
    ensures r.Ok? ==> pos <= r.pos <= |ts|
    decreases |ts| - pos, 2
  {
    var t := Peek(ts, pos).tok;
    if EndsAnd(t) then Ok(left, pos)
    else
      match ParseUnary(ts, if IsKeyword(t, "AND") then pos + 1 else pos)
      case Err(e) => Err(e)
      case Ok(right, p) => AndTail(ts, p, MergeAnd(left, right))
  }

  function ParseUnary(ts: seq<Lexeme>, pos: nat): (r: Outcome)
    requires pos <= |ts|
    ensures r.Ok? ==> pos < r.pos <= |ts|
    decreases |ts| - pos, 1
  {
    if IsKeyword(Peek(ts, pos).tok, "NOT") then
      match ParsePrimary(ts, pos + 1)
      case Err(e) => Err(e)
      case Ok(inner, p) => Ok(QNot(inner), p)
    else ParsePrimary(ts, pos)
  }

  function ParsePrimary(ts: seq<Lexeme>, pos: nat): (r: Outcome)
    requires pos <= |ts|
    ensures r.Ok? ==> pos < r.pos <= |ts|
    decreases |ts| - pos, 0
  {
    var tk := Peek(ts, pos);
    match tk.tok
    case LParen =>
      (match ParseOr(ts, pos + 1)
       case Err(e) => Err(e)
       case Ok(inner, p) =>
         var close := Peek(ts, p);
         if close.tok.RParen? then Ok(inner, p + 1) else Err(ExpectedRParen(close.start)))
    case Ident(name) =>
      if pos + 1 < |ts| && ts[pos + 1].tok.Colon? then ParseValue(name, Peek(ts, pos + 2), pos + 2)
      else Ok(BareTerm(name), pos + 1)
    case Str(v) => Ok(BareTerm(v), pos + 1)
    case _ => Err(UnexpectedToken(tk.tok, tk.start))
  }

  /** The value after `name:`. Comparison signs count only in unquoted values. */
  function ParseValue(name: string, value: Lexeme, pos: nat): Outcome {
    match value.tok
    case Str(v) => Ok(MakeField(name, Has, v), pos + 1)
    case Ident(v) =>
      var (op, rest) := SplitOp(v);
      if op != Has && rest == "" then Err(ExpectedNumber(op, value.start)) else Ok(MakeField(name, op, rest), pos + 1)
    case _ => Err(ExpectedValue(value.start))
  }

  /** All tokens must be used up. */
  function ParseTokens(ts: seq<Lexeme>): Outcome {
    match ParseOr(ts, 0)
    case Err(e) => Err(e)
    case Ok(e, p) => if p == |ts| then Ok(e, p) else Err(UnexpectedToken(ts[p].tok, ts[p].start))
  }

  // ---------- errors ----------

  /** What an error says is true of the token at k. */
  ghost predicate ErrorAt(ts: seq<Lexeme>, k: int, e: ParseError) {
    && 0 <= k
    && var tk := Peek(ts, k);
       match e
       case UnexpectedToken(tok, at) => tk == Lexeme(tok, at) && (tok.EOF? || tok.Colon? || tok.RParen?)
       case ExpectedRParen(at) =>
         tk.start == at && !tk.tok.RParen? && exists j :: 0 <= j < k && j < |ts| && ts[j].tok.LParen?
       case ExpectedValue(at) => tk.start == at && !tk.tok.Ident? && !tk.tok.Str? && AfterColon(ts, k)
       case ExpectedNumber(op, at) =>
         && AfterColon(ts, k) && tk.start == at && tk.tok.Ident?
         && (|| (op == Ge && tk.tok.val == ">=") || (op == Le && tk.tok.val == "<=")
             || (op == Gt && tk.tok.val == ">") || (op == Lt && tk.tok.val == "<"))
  }

  predicate AfterColon(ts: seq<Lexeme>, k: int) {
    0 < k <= |ts| && ts[k - 1].tok.Colon?
  }

  ghost predicate TrueError(ts: seq<Lexeme>, e: ParseError) {
    exists k :: ErrorAt(ts, k, e)
  }

  lemma {:induction false} OrError(ts: seq<Lexeme>, pos: nat)
    requires pos <= |ts|
    ensures var r := ParseOr(ts, pos); if r.Err? then TrueError(ts, r.error) else EndsOr(ts, r.pos)
    decreases |ts| - pos, 5
  {
    hide TrueError, EndsAnd;
    AndError(ts, pos);
    if ParseAnd(ts, pos).Ok? {
      OrTailError(ts, ParseAnd(ts, pos).pos, ParseAnd(ts, pos).expr);
    }
  }

  /** A token that ends a disjunction. */
  predicate EndsOr(ts: seq<Lexeme>, pos: nat) {
    Peek(ts, pos).tok.EOF? || Peek(ts, pos).tok.RParen?
  }

  lemma {:induction false} OrTailError(ts: seq<Lexeme>, pos: nat, left: QExpr)
    requires pos <= |ts| && EndsAnd(Peek(ts, pos).tok)
    ensures var r := OrTail(ts, pos, left); if r.Err? then TrueError(ts, r.error) else EndsOr(ts, r.pos)
    decreases |ts| - pos, 4
  {
    hide TrueError, ParseAnd;
    if IsKeyword(Peek(ts, pos).tok, "OR") {
      AndError(ts, pos + 1);
      var r := ParseAnd(ts, pos + 1);
      if r.Ok? {
        OrTailError(ts, r.pos, MergeOr(left, r.expr));
      }
    }
  }

  lemma {:induction false} AndError(ts: seq<Lexeme>, pos: nat)
    requires pos <= |ts|
    ensures var r := ParseAnd(ts, pos); if r.Err? then TrueError(ts, r.error) else EndsAnd(Peek(ts, r.pos).tok)
    decreases |ts| - pos, 3
  {
    hide TrueError, EndsAnd;
    UnaryError(ts, pos);
    if ParseUnary(ts, pos).Ok? {
      AndTailError(ts, ParseUnary(ts, pos).pos, ParseUnary(ts, pos).expr);
    }
  }

  lemma {:induction false} AndTailError(ts: seq<Lexeme>, pos: nat, left: QExpr)
    requires pos <= |ts|
    ensures var r := AndTail(ts, pos, left); if r.Err? then TrueError(ts, r.error) else EndsAnd(Peek(ts, r.pos).tok)
    decreases |ts| - pos, 2
  {
    hide TrueError, EndsAnd, ParseUnary;
    var tk := Peek(ts, pos);
    if !EndsAnd(tk.tok) {
      assert pos < |ts| by {
        EndEnds(ts, pos);
      }
      var q := if IsKeyword(tk.tok, "AND") then pos + 1 else pos;
      UnaryError(ts, q);
      var r := ParseUnary(ts, q);
      if r.Ok? {
        AndTailError(ts, r.pos, MergeAnd(left, r.expr));
      }
    }
  }

  lemma EndEnds(ts: seq<Lexeme>, pos: nat)
    ensures pos >= |ts| ==> EndsAnd(Peek(ts, pos).tok)
  {
  }

  lemma {:induction false} UnaryError(ts: seq<Lexeme>, pos: nat)
    requires pos <= |ts|
    ensures var r := ParseUnary(ts, pos); r.Err? ==> TrueError(ts, r.error)
    decreases |ts| - pos, 1
  {
    hide TrueError, ParsePrimary;
    if IsKeyword(Peek(ts, pos).tok, "NOT") {
      PrimaryError(ts, pos + 1);
    } else {
      PrimaryError(ts, pos);
    }
  }

  lemma {:induction false} PrimaryError(ts: seq<Lexeme>, pos: nat)
    requires pos <= |ts|
    ensures var r := ParsePrimary(ts, pos); r.Err? ==> TrueError(ts, r.error)
    decreases |ts| - pos, 0
  {
    hide ParseOr, EndsAnd;
    match Peek(ts, pos).tok
    case LParen =>
      OrError(ts, pos + 1);
      var r := ParseOr(ts, pos + 1);
      if r.Ok? && !Peek(ts, r.pos).tok.RParen? {
        assert ErrorAt(ts, r.pos, ExpectedRParen(Peek(ts, r.pos).start));
      }
    case Ident(name) =>
      if pos + 1 < |ts| && ts[pos + 1].tok.Colon? {
        ValueError(ts, name, pos + 2);
      }
    case Str(_) =>
    case _ => assert ErrorAt(ts, pos, UnexpectedToken(Peek(ts, pos).tok, Peek(ts, pos).start));
  }

  lemma ValueError(ts: seq<Lexeme>, name: string, k: nat)
    requires AfterColon(ts, k)
    ensures var r := ParseValue(name, Peek(ts, k), k); r.Err? ==> TrueError(ts, r.error)
  {
    var r := ParseValue(name, Peek(ts, k), k);
    if r.Err? {
      var v := Peek(ts, k).tok;
      if v.Ident? {
        assert v.val == (if |v.val| >= 2 then v.val[..2] + v.val[2..] else v.val[..1] + v.val[1..]);
      }
      assert ErrorAt(ts, k, r.error);
    }
  }

  /** Every error of the parser says something true of a token of the query, with its place. */
  lemma ErrorsAreTrue(ts: seq<Lexeme>)
    ensures ParseTokens(ts).Err? ==> TrueError(ts, ParseTokens(ts).error)
  {
    hide ParseOr;
    OrError(ts, 0);
    var r := ParseOr(ts, 0);
    if r.Ok? && r.pos < |ts| {
      assert ErrorAt(ts, r.pos, UnexpectedToken(ts[r.pos].tok, ts[r.pos].start));
    }
  }

  // ---------- the parser itself ----------

  datatype Answer = Good(expr: QExpr) | Bad(error: ParseError)

  /** The answer of a parse method and the position it leaves agree with the function. */
  ghost predicate Agrees(a: Answer, pos: nat, spec: Outcome) {
    match spec
    case Ok(e, p) => a == Good(e) && pos == p
    case Err(e) => a == Bad(e)
  }

  class Parser {
    const tokens: seq<Lexeme>
    var pos: nat

    constructor (ts: seq<Lexeme>)
      ensures tokens == ts && pos == 0
    {
      tokens, pos := ts, 0;
    }

    function PeekTok(): Lexeme
      reads this
    {
      Peek(tokens, pos)
    }

    method Advance() returns (t: Lexeme)
      modifies this
      ensures t == Peek(tokens, old(pos))
      ensures pos == if old(pos) < |tokens| then old(pos) + 1 else old(pos)
    {
      t := PeekTok();
      if pos < |tokens| {
        pos := pos + 1;
      }
    }

    method DoOr() returns (a: Answer)
      requires pos <= |tokens|
      modifies this
      ensures pos <= |tokens| && Agrees(a, pos, ParseOr(tokens, old(pos)))
      decreases |tokens| - pos, 3
    {
      ghost var want := ParseOr(tokens, pos);
      a := DoAnd();
      if a.Bad? {
        return;
      }
      var left := a.expr;
      while true
        invariant old(pos) < pos <= |tokens|
        invariant want == OrTail(tokens, pos, left)
        decreases |tokens| - pos
      {
        var tk := PeekTok();
        if IsKeyword(tk.tok, "OR") {
          var _ := Advance();
          a := DoAnd();
          if a.Bad? {
            return;
          }
          left := MergeOr(left, a.expr);
          continue;
        }
        break;
      }
      a := Good(left);
    }

    method DoAnd() returns (a: Answer)
      requires pos <= |tokens|
      modifies this
      ensures pos <= |tokens| && Agrees(a, pos, ParseAnd(tokens, old(pos)))
      decreases |tokens| - pos, 2
    {
      ghost var want := ParseAnd(tokens, pos);
      a := DoUnary();
      if a.Bad? {
        return;
      }
      var left := a.expr;
      while true
        invariant old(pos) < pos <= |tokens|
        invariant want == AndTail(tokens, pos, left)
        decreases |tokens| - pos
      {
        var tk := PeekTok();
        if tk.tok.EOF? || tk.tok.RParen? {
          break;
        }
        if IsKeyword(tk.tok, "OR") {
          break;
        }
        if IsKeyword(tk.tok, "AND") {
          var _ := Advance();
        }
        a := DoUnary();
        if a.Bad? {
          return;
        }
        left := MergeAnd(left, a.expr);
      }
      a := Good(left);
    }

    method DoUnary() returns (a: Answer)
      requires pos <= |tokens|
      modifies this
      ensures pos <= |tokens| && Agrees(a, pos, ParseUnary(tokens, old(pos)))
      decreases |tokens| - pos, 1
    {
      var tk := PeekTok();
      if IsKeyword(tk.tok, "NOT") {
        var _ := Advance();
        a := DoPrimary();
        if a.Good? {
          a := Good(QNot(a.expr));
        }
        return;
      }
      a := DoPrimary();
    }

    method DoPrimary() returns (a: Answer)
      requires pos <= |tokens|
      modifies this
      ensures pos <= |tokens| && Agrees(a, pos, ParsePrimary(tokens, old(pos)))
      decreases |tokens| - pos, 0
    {
      var tk := PeekTok();
      match tk.tok
      case LParen =>
        var _ := Advance();
        a := DoOr();
        if a.Bad? {
          return;
        }
        if !PeekTok().tok.RParen? {
          return Bad(ExpectedRParen(PeekTok().start));
        }
        var _ := Advance();
      case Ident(name) =>
        if pos + 1 < |tokens| && tokens[pos + 1].tok.Colon? {
          a := DoField(name);
          return;
        }
        var _ := Advance();
        a := Good(BareTerm(name));
      case Str(v) =>
        var _ := Advance();
        a := Good(BareTerm(v));
      case _ =>
        a := Bad(UnexpectedToken(tk.tok, tk.start));
    }

    /** The loop over the comparison signs. */
    static method FindOp(v: string) returns (op: Op, rest: string)
      ensures (op, rest) == SplitOp(v)
    {
      var ops, signs := [Ge, Le, Gt, Lt], [">=", "<=", ">", "<"];
      for i := 0 to 4
        invariant forall j :: 0 <= j < i ==> !(signs[j] <= v)
      {
        if signs[i] <= v {
          assert i > 0 ==> !(signs[0] <= v);
          assert i > 1 ==> !(signs[1] <= v);
          assert i > 2 ==> !(signs[2] <= v);
          return ops[i], v[|signs[i]|..];
        }
      }
      assert !(signs[0] <= v) && !(signs[1] <= v) && !(signs[2] <= v) && !(signs[3] <= v);
      return Has, v;
    }

    /** name : value. */
    method DoField(name: string) returns (a: Answer)
      requires pos + 1 < |tokens|
      modifies this
      ensures pos <= |tokens| && Agrees(a, pos, ParseValue(name, Peek(tokens, old(pos) + 2), old(pos) + 2))
    {
      var _ := Advance();
      var _ := Advance();
      var valTok := PeekTok();
      if !valTok.tok.Ident? && !valTok.tok.Str? {
        return Bad(ExpectedValue(valTok.start));
      }
      var _ := Advance();
      var op, val := Has, valTok.tok.val;
      if valTok.tok.Ident? {
        op, val := FindOp(val);
        if op != Has && val == "" {
          return Bad(ExpectedNumber(op, valTok.start));
        }
      }
      a := Good(MakeField(name, op, val));
    }
  }

  // ---------- whole queries ----------

  /** No query, a query, or an error. */
  datatype Parsed = MatchAll | Query(expr: QExpr) | Invalid(error: ParseError)

  function ParseText(text: string): Parsed {
    var src := TrimSpace(text);
    if src == "" then MatchAll
    else
      match ParseTokens(Lexemes(src, 0))
      case Ok(e, _) => Query(e)
      case Err(e) => Invalid(e)
  }

  method ParseQuery(text: string) returns (r: Parsed)
    ensures r == ParseText(text)
  {
    var src := TrimSpace(text);
    if src == "" {
      return MatchAll;
    }
    var ls := Tokenize(src);
    var p := new Parser(ls);
    var a := p.DoOr();
    if a.Bad? {
      return Invalid(a.error);
    }
    if p.pos != |ls| {
      return Invalid(UnexpectedToken(p.PeekTok().tok, p.PeekTok().start));
    }
    return Query(a.expr);
  }
}
