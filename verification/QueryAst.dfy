/** The query language: syntax trees and what they mean on one row. */
module QueryAst {
  import opened Bytes
  import opened Decimal
  import Glob

  datatype Op = Has | Ge | Le | Gt | Lt

  datatype QExpr =
    | FieldTerm(name: string, op: Op, value: string, wildcard: bool)
    | BareTerm(value: string)
    | QAnd(children: seq<QExpr>)
    | QOr(children: seq<QExpr>)
    | QNot(child: QExpr)

  /** What the field schema extracts from one row: canonical field name to text, fields the row lacks left out. */
  type View = map<string, string>

  // ---------- meaning ----------

  ghost predicate Eval(e: QExpr, row: View) {
    match e
    case FieldTerm(name, _, _, _) => name in row && MatchValue(row[name], e)
    case BareTerm(text) => text == "" || exists f :: f in row && Contains(Lower(row[f]), Lower(text))
    case QAnd(cs) => forall i :: 0 <= i < |cs| ==> Eval(cs[i], row)
    case QOr(cs) => exists i :: 0 <= i < |cs| && Eval(cs[i], row)
    case QNot(c) => !Eval(c, row)
  }

  ghost predicate MatchValue(got: string, t: QExpr)
    requires t.FieldTerm?
  {
    if t.op != Has then Compare(ParseInt64(TrimSpace(got)), t.op, ParseInt64(t.value))
    else if t.wildcard then Glob.Matches(Lower(got), Lower(t.value))
    else EqualFold(got, t.value)
  }

  /** A comparison holds of two numbers; text that is not a number satisfies none. */
  predicate Compare(got: ParsedInt, op: Op, want: ParsedInt) {
    got.Parsed? && want.Parsed? &&
    match op
    case Gt => got.value > want.value
    case Ge => got.value >= want.value
    case Lt => got.value < want.value
    case Le => got.value <= want.value
    case Has => false
  }

  // ---------- the evaluator ----------

  /** EvalQuery, with its short-circuiting loops. */
  method EvalQuery(e: QExpr, row: View) returns (ok: bool)
    ensures ok <==> Eval(e, row)
    decreases e
  {
    match e
    case FieldTerm(name, _, _, _) =>
      if name !in row {
        return false;
      }
      ok := EvalField(row[name], e);
    case BareTerm(text) =>
      ok := EvalBare(text, row);
    case QAnd(cs) =>
      for i := 0 to |cs|
        invariant forall j :: 0 <= j < i ==> Eval(cs[j], row)
      {
        var b := EvalQuery(cs[i], row);
        if !b {
          return false;
        }
      }
      return true;
    case QOr(cs) =>
      for i := 0 to |cs|
        invariant forall j :: 0 <= j < i ==> !Eval(cs[j], row)
      {
        var b := EvalQuery(cs[i], row);
        if b {
          return true;
        }
      }
      return false;
    case QNot(c) =>
      var b := EvalQuery(c, row);
      return !b;
  }

  method EvalField(got: string, t: QExpr) returns (ok: bool)
    requires t.FieldTerm?
    ensures ok <==> MatchValue(got, t)
  {
    if t.op != Has {
      return Compare(ParseInt64(TrimSpace(got)), t.op, ParseInt64(t.value));
    }
    if !t.wildcard {
      return EqualFold(got, t.value);
    }
    ok := Glob.WildcardMatch(Lower(got), Lower(t.value));
  }

  /** evalBare visits the fields in some order and stops at the first that contains the text. */
  method EvalBare(text: string, row: View) returns (ok: bool)
    ensures ok <==> Eval(BareTerm(text), row)
  {
    var needle := Lower(text);
    if needle == "" {
      return true;
    }
    var left := row.Keys;
    while left != {}
      invariant left <= row.Keys
      invariant forall f :: f in row && f !in left ==> !Contains(Lower(row[f]), needle)
      decreases left
    {
      var f :| f in left;
      var idx := Glob.Index(Lower(row[f]), needle);
      if idx >= 0 {
        assert Contains(Lower(row[f]), needle);
        return true;
      }
      left := left - {f};
    }
    return false;
  }

  // ---------- number fields of alerts ----------

  /** The pid and parent_pid extractors on an alert: no field for 0, else the number printed by itoaq. */
  function PidView(name: string, pid: Int64): View {
    if pid == 0 then map[] else map[name := ItoaqSpec(pid)]
  }

  /** A comparison term on an alert's PID is the integer comparison exactly as long as the PID is there
      (not 0), the term's text is a number and the PID is not the one integer itoaq cannot print. */
  lemma PidComparison(name: string, pid: Int64, op: Op, text: string)
    requires op != Has
    ensures Eval(FieldTerm(name, op, text, false), PidView(name, pid))
            <==> pid != 0 && pid != MIN_INT64 && ParseInt64(text).Parsed? &&
                 var want := ParseInt64(text).value;
                 || (op == Gt && pid > want) || (op == Ge && pid >= want)
                 || (op == Lt && pid < want) || (op == Le && pid <= want)
  {
    if pid == MIN_INT64 {
      TrimSpaceStable("-");
      ItoaqDenotes(pid);
    } else {
      ItoaNoSpace(pid);
      ItoaRoundTrip(pid);
    }
  }

  /** `field:*` says that the row has the field, and NOT `field:*` that it does not. */
  lemma PresenceTest(name: string, row: View)
    ensures Eval(FieldTerm(name, Has, "*", true), row) <==> name in row
    ensures Eval(QNot(FieldTerm(name, Has, "*", true)), row) <==> name !in row
  {
    if name in row {
      var got := Lower(row[name]);
      assert Lower("*") == "*" && "*"[1..] == "";
      assert got[|got|..] == "" && Glob.Matches("", "");
      assert Glob.SuffixMatches(got, |got|, "");
    }
  }

  // ---------- terms, spelled out ----------

  /** A plain field term: the row has the field, with this text but for case. */
  lemma PlainTerm(name: string, value: string, row: View)
    ensures Eval(FieldTerm(name, Has, value, false), row) <==> name in row && SameLetters(row[name], value)
  {
    if name in row {
      FoldMeans(row[name], value);
    }
  }

  /** A comparison of two numbers; the field's text may have blanks around it, the term's may not. */
  lemma NumberTerm(name: string, op: Op, value: string, row: View)
    requires op != Has
    ensures Eval(FieldTerm(name, op, value, false), row) <==>
              && name in row
              && var got, want := ParseInt64(TrimSpace(row[name])), ParseInt64(value);
                 && got.Parsed? && want.Parsed?
                 && (|| (op == Gt && got.value > want.value) || (op == Ge && got.value >= want.value)
                     || (op == Lt && got.value < want.value) || (op == Le && got.value <= want.value))
  {
  }

  /** A printed number with blanks around it, compared with a printed number. */
  lemma PrintedTerm(name: string, op: Op, a: string, x: Int64, b: string, y: Int64, row: View)
    requires op != Has && Blanks(a) && Blanks(b) && name in row && row[name] == a + Itoa(x) + b
    ensures Eval(FieldTerm(name, op, Itoa(y), false), row) <==>
              || (op == Gt && x > y) || (op == Ge && x >= y) || (op == Lt && x < y) || (op == Le && x <= y)
  {
    hide Itoa, ParseInt64, TrimSpace;
    ItoaRoundTrip(x);
    ItoaRoundTrip(y);
    SolidNumber(x);
    TrimMeans(a, Itoa(x), b);
  }

  lemma SolidNumber(x: Int64)
    ensures Solid(Itoa(x))
  {
    hide Digits;
  }

  /** A term with a star: the text is cut at the stars, without regard to case. */
  lemma StarTerm(name: string, value: string, row: View)
    ensures Eval(FieldTerm(name, Has, value, true), row) <==>
              name in row && Glob.Matches(Lower(row[name]), Lower(value))
    ensures name in row ==>
              forall other, v :: SameLetters(other, row[name]) && SameLetters(v, value) ==>
                (Eval(FieldTerm(name, Has, v, true), row[name := other]) <==>
                 Eval(FieldTerm(name, Has, value, true), row))
  {
    if name in row {
      forall other, v | SameLetters(other, row[name]) && SameLetters(v, value)
        ensures Lower(other) == Lower(row[name]) && Lower(v) == Lower(value)
      {
        FoldMeans(other, row[name]);
        FoldMeans(v, value);
      }
    }
  }

  /** A text in front of a star, or between two. */
  lemma StarsMean(name: string, lit: string, row: View)
    requires '*' !in lit
    ensures Eval(FieldTerm(name, Has, lit + "*", true), row) <==>
              name in row && |lit| <= |row[name]| && SameLetters(row[name][..|lit|], lit)
    ensures Eval(FieldTerm(name, Has, "*" + lit, true), row) <==>
              name in row && |lit| <= |row[name]| && SameLetters(row[name][|row[name]| - |lit|..], lit)
    ensures Eval(FieldTerm(name, Has, "*" + (lit + "*"), true), row) <==> name in row && Occurs(row[name], lit)
  {
    if name in row {
      var got := row[name];
      StarAround(got, lit);
    }
  }

  lemma StarAround(got: string, lit: string)
    requires '*' !in lit
    ensures Glob.Matches(Lower(got), Lower(lit + "*")) <==> |lit| <= |got| && SameLetters(got[..|lit|], lit)
    ensures Glob.Matches(Lower(got), Lower("*" + lit)) <==>
              |lit| <= |got| && SameLetters(got[|got| - |lit|..], lit)
    ensures Glob.Matches(Lower(got), Lower("*" + (lit + "*"))) <==> Occurs(got, lit)
  {
    var s, p := Lower(got), Lower(lit);
    LowerStar(lit);
    assert Lower(lit + "*") == p + "*" && Lower("*" + lit) == "*" + p;
    assert Lower("*" + (lit + "*")) == "*" + (p + "*");
    hide Lower, Glob.Matches;
    StarBehind(s, p);
    StarInFront(s, p);
    StarsAround(s, p);
    ContainsMeans(got, lit);
    if |lit| <= |got| {
      LowerParts(got, |lit|);
      FoldMeans(got[..|lit|], lit);
      FoldMeans(got[|got| - |lit|..], lit);
    }
  }

  lemma LowerStar(lit: string)
    requires '*' !in lit
    ensures '*' !in Lower(lit) && |Lower(lit)| == |lit|
  {
    forall i | 0 <= i < |lit|
      ensures Lower(lit)[i] != '*'
    {
      assert lit[i] in lit;
    }
  }

  lemma LowerParts(s: string, n: nat)
    requires n <= |s|
    ensures |Lower(s)| == |s|
    ensures Lower(s[..n]) == Lower(s)[..n] && Lower(s[|s| - n..]) == Lower(s)[|s| - n..]
  {
  }

  lemma StarBehind(s: string, p: string)
    requires '*' !in p
    ensures Glob.Matches(s, p + "*") <==> p <= s
  {
    Glob.LiteralPrefix(s, p, "*");
    assert "*"[1..] == "";
    if p <= s {
      var t := s[|p|..];
      assert t[|t|..] == "" && Glob.SuffixMatches(t, |t|, "");
    }
  }

  lemma StarInFront(s: string, p: string)
    requires '*' !in p
    ensures Glob.Matches(s, "*" + p) <==> Glob.HasSuffix(s, p)
  {
    assert ("*" + p)[1..] == p;
    Glob.SuffixPattern(s, p);
  }

  lemma StarsAround(s: string, p: string)
    requires '*' !in p
    ensures Glob.Matches(s, "*" + (p + "*")) <==> Contains(s, p)
  {
    Glob.LiteralThenStar(s, "", p + "*");
    assert "" + ("*" + (p + "*")) == "*" + (p + "*") && s[0..] == s;
    if Contains(s, p) {
      var i :| 0 <= i <= |s| && p <= s[i..];
      StarBehind(s[i..], p);
      assert Glob.SuffixMatches(s, i, p + "*");
    }
    if Glob.Matches(s, "*" + (p + "*")) {
      var k := Glob.SuffixPosition(s, p + "*");
      StarBehind(s[k..], p);
    }
  }

  /** Free text: some field has it in it, but for case. */
  lemma BareMeans(text: string, row: View)
    ensures Eval(BareTerm(text), row) <==> text == "" || exists f :: f in row && Occurs(row[f], text)
  {
    forall f | f in row
      ensures Contains(Lower(row[f]), Lower(text)) <==> Occurs(row[f], text)
    {
      ContainsMeans(row[f], text);
    }
  }
}
