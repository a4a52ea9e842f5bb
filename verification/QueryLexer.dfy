/** The lexer of the query language. */
module QueryLexer {
  import opened Bytes

  datatype Tok = EOF | Ident(val: string) | Str(val: string) | Colon | LParen | RParen

  /** A token and the byte at which it starts; the start is only used in error messages. */
  datatype Lexeme = Lexeme(tok: Tok, start: nat)

  function Toks(ls: seq<Lexeme>): (ts: seq<Tok>)
    ensures |ts| == |ls| && forall i :: 0 <= i < |ls| ==> ts[i] == ls[i].tok
  {
    seq(|ls|, i requires 0 <= i < |ls| => ls[i].tok)
  }

  /** The bytes that end a bare word. White space other than blank and tab does not. */
  predicate EndsWord(c: char) {
    c == ' ' || c == '\t' || c == '(' || c == ')' || c == ':' || c == '"'
  }

  predicate IsWord(v: string) {
    v != "" && !IsSpace(v[0]) && forall i :: 0 <= i < |v| ==> !EndsWord(v[i])
  }

  // ---------- the tokens of a text ----------

  function WordLength(s: string): (n: nat)
    ensures n <= |s|
    ensures forall i :: 0 <= i < n ==> !EndsWord(s[i])
    ensures n < |s| ==> EndsWord(s[n])
  {
    if s == "" || EndsWord(s[0]) then 0 else 1 + WordLength(s[1..])
  }

  /** The text of a quoted string whose opening quote has been read, and the number of bytes it takes,
      closing quote included. A backslash quotes the next byte; a missing closing quote is forgiven. */
  function Quoted(s: string): (r: (string, nat))
    ensures r.1 <= |s|
  {
    if s == "" then ("", 0)
    else if s[0] == '"' then ("", 1)
    else if s[0] == '\\' && |s| > 1 then
      var (v, n) := Quoted(s[2..]);
      ([s[1]] + v, n + 2)
    else
      var (v, n) := Quoted(s[1..]);
      ([s[0]] + v, n + 1)
  }

  /** The first token of a text that does not start with white space, and its length. */
  function FirstTok(s: string): (r: (Tok, nat))
    requires s != "" && !IsSpace(s[0])
    ensures 1 <= r.1 <= |s| && r.0 != EOF
    ensures r.0.Ident? ==> IsWord(r.0.val)
  {
    if s[0] == '(' then (LParen, 1)
    else if s[0] == ')' then (RParen, 1)
    else if s[0] == ':' then (Colon, 1)
    else if s[0] == '"' then
      var (v, n) := Quoted(s[1..]);
      (Str(v), n + 1)
    else (Ident(s[..WordLength(s)]), WordLength(s))
  }

  function Lex(s: string): seq<Tok>
    decreases |s|
  {
    if s == "" then []
    else if IsSpace(s[0]) then Lex(s[1..])
    else
      var (t, n) := FirstTok(s);
      [t] + Lex(s[n..])
  }

  /** The same tokens with their places; the text starts at byte `at` of the query. */
  function Lexemes(s: string, at: nat): seq<Lexeme>
    decreases |s|
  {
    if s == "" then []
    else if IsSpace(s[0]) then Lexemes(s[1..], at + 1)
    else
      var (t, n) := FirstTok(s);
      [Lexeme(t, at)] + Lexemes(s[n..], at + n)
  }

  lemma {:induction false} LexemesToks(s: string, at: nat)
    ensures Toks(Lexemes(s, at)) == Lex(s)
    decreases |s|
  {
    if s == "" {
    } else if IsSpace(s[0]) {
      LexemesToks(s[1..], at + 1);
    } else {
      var (t, n) := FirstTok(s);
      LexemesToks(s[n..], at + n);
      assert Toks(Lexemes(s, at)) == [t] + Toks(Lexemes(s[n..], at + n));
    }
  }

  /** One turn of the lexer's loop, seen from byte i of the query. */
  lemma LexemesStep(src: string, i: nat)
    requires i < |src|
    ensures IsSpace(src[i]) ==> Lexemes(src[i..], i) == Lexemes(src[i + 1..], i + 1)
    ensures !IsSpace(src[i]) ==>
      var (t, n) := FirstTok(src[i..]);
      Lexemes(src[i..], i) == [Lexeme(t, i)] + Lexemes(src[i + n..], i + n)
  {
    var s := src[i..];
    assert s[1..] == src[i + 1..];
    if !IsSpace(src[i]) {
      assert s[FirstTok(s).1..] == src[i + FirstTok(s).1..];
    }
  }

  lemma LexemesEnd(src: string, at: nat)
    ensures Lexemes(src[|src|..], at) == []
  {
  }

  lemma {:induction false} LexWords(s: string)
    ensures forall i :: 0 <= i < |Lex(s)| ==> Lex(s)[i] != EOF && (Lex(s)[i].Ident? ==> IsWord(Lex(s)[i].val))
    decreases |s|
  {
    if s == "" {
    } else if IsSpace(s[0]) {
      LexWords(s[1..]);
    } else {
      LexWords(s[FirstTok(s).1..]);
    }
  }

  // ---------- the tokens, spelled out ----------

  /** White space between tokens: these bytes and no others give no token. */
  lemma WhiteSpace(c: char, s: string)
    ensures c as int in {9, 10, 11, 12, 13, 32, 0x85, 0xA0} ==> Lex([c] + s) == Lex(s)
    ensures c as int !in {9, 10, 11, 12, 13, 32, 0x85, 0xA0} ==> Lex([c] + s) != []
  {
    assert ([c] + s)[1..] == s;
  }

  lemma SignTokens(s: string)
    ensures Lex("(" + s) == [LParen] + Lex(s) && Lex(")" + s) == [RParen] + Lex(s) && Lex(":" + s) == [Colon] + Lex(s)
  {
    assert ("(" + s)[1..] == s && (")" + s)[1..] == s && (":" + s)[1..] == s;
  }

  /** A word goes up to the next blank, tab, parenthesis, colon or quote, or to the end; other bytes belong to it. */
  lemma WordToken(w: string, s: string)
    requires w != "" && w[0] as int !in {9, 10, 11, 12, 13, 32, 0x85, 0xA0}
    requires forall i :: 0 <= i < |w| ==> w[i] !in " \t():\""
    requires s == "" || s[0] in " \t():\""
    ensures Lex(w + s) == [Ident(w)] + Lex(s)
  {
    forall i | 0 <= i < |w|
      ensures !EndsWord(w[i])
    {
      assert " \t():\""[0] == ' ' && " \t():\""[1] == '\t' && " \t():\""[2] == '(' && " \t():\""[3] == ')'
             && " \t():\""[4] == ':' && " \t():\""[5] == '"';
    }
    FirstWord(w, s);
    assert w + s != "" && !IsSpace((w + s)[0]);
  }

  /** Neither a quote nor a backslash. */
  predicate PlainBytes(v: string) {
    forall i :: 0 <= i < |v| ==> v[i] != '"' && v[i] != '\\'
  }

  /** Plain bytes of a quoted string stand for themselves. */
  lemma {:induction false} QuotedPlain(v: string, s: string)
    requires PlainBytes(v)
    ensures Quoted(v + s) == (v + Quoted(s).0, |v| + Quoted(s).1)
    decreases |v|
  {
    if v == "" {
      assert v + s == s && v + Quoted(s).0 == Quoted(s).0;
    } else {
      assert (v + s)[1..] == v[1..] + s && (v + s)[0] == v[0];
      QuotedPlain(v[1..], s);
      assert v + Quoted(s).0 == [v[0]] + (v[1..] + Quoted(s).0);
    }
  }

  /** A backslash stands for the byte after it, whatever that is; as the last byte of the query, for itself. */
  lemma QuotedBackslash(c: char, s: string)
    ensures Quoted(['\\', c] + s) == ([c] + Quoted(s).0, 2 + Quoted(s).1)
    ensures Quoted(['\\']) == (['\\'], 1)
  {
    assert (['\\', c] + s)[2..] == s;
    assert ['\\'][1..] == "" && ['\\'] + "" == ['\\'];
  }

  /** A quoted string, closed or not: both give the text up to the closing quote or the end. */
  lemma StringToken(v: string, s: string)
    requires PlainBytes(v)
    ensures Lex("\"" + (v + ("\"" + s))) == [Str(v)] + Lex(s)
    ensures Lex("\"" + v) == [Str(v)]
  {
    var closed, open := "\"" + (v + ("\"" + s)), "\"" + v;
    QuotedPlain(v, "\"" + s);
    QuotedPlain(v, "");
    assert closed[1..] == v + ("\"" + s) && closed[|v| + 2..] == s;
    assert open[1..] == v && v + "" == v && open[|v| + 1..] == "";
    assert v + Quoted("\"" + s).0 == v;
    hide Quoted;
    assert Lex(open[|v| + 1..]) == [];
  }

  /** Every token is where its place says, and the places grow. */
  lemma {:induction false} Places(src: string, i: nat)
    requires i <= |src|
    ensures var ls := Lexemes(src[i..], i);
            && (forall k :: 0 <= k < |ls| ==> TokenAt(src, ls[k]) && i <= ls[k].start)
            && (forall k, l :: 0 <= k < l < |ls| ==> ls[k].start < ls[l].start)
    decreases |src| - i
  {
    hide FirstTok, Lexemes;
    if i == |src| {
      LexemesEnd(src, i);
    } else {
      LexemesStep(src, i);
      if IsSpace(src[i]) {
        Places(src, i + 1);
      } else {
        Places(src, i + FirstTok(src[i..]).1);
      }
    }
  }

  predicate TokenAt(src: string, l: Lexeme) {
    l.start < |src| && !IsSpace(src[l.start]) && FirstTok(src[l.start..]).0 == l.tok
  }

  // ---------- the lexer itself ----------

  method Tokenize(src: string) returns (out: seq<Lexeme>)
    ensures out == Lexemes(src, 0)
  {
    hide Lexemes, FirstTok;
    out := [];
    var i := 0;
    assert src[0..] == src;
    while i < |src|
      invariant 0 <= i <= |src|
      invariant out + Lexemes(src[i..], i) == Lexemes(src, 0)
    {
      LexemesStep(src, i);
      if IsSpace(src[i]) {
        i := i + 1;
        continue;
      }
      ghost var before := out;
      var start, tok := i, EOF;
      tok, i := NextToken(src, i);
      out := out + [Lexeme(tok, start)];
      Assoc(before, [Lexeme(tok, start)], Lexemes(src[i..], i));
    }
    LexemesEnd(src, i);
  }

  /** One turn of the lexer's switch: the token that starts at byte `from`, and the byte after it. */
  method NextToken(src: string, from: nat) returns (tok: Tok, i: nat)
    requires from < |src| && !IsSpace(src[from])
    ensures from < i <= |src| && (tok, i - from) == FirstTok(src[from..])
  {
    ghost var rest := src[from..];
    i := from;
    if src[i] == '(' {
      tok := LParen;
      i := i + 1;
    } else if src[i] == ')' {
      tok := RParen;
      i := i + 1;
    } else if src[i] == ':' {
      tok := Colon;
      i := i + 1;
    } else if src[i] == '"' {
      var v;
      v, i := ReadQuoted(src, i + 1);
      tok := Str(v);
      assert rest[1..] == src[from + 1..];
    } else {
      i := ReadWord(src, i);
      tok := Ident(src[from..i]);
      assert src[from..i] == rest[..i - from];
    }
  }

  /** Reads a quoted string from just after its opening quote; gives the byte after it. */
  method ReadQuoted(src: string, from: nat) returns (v: string, i: nat)
    requires from <= |src|
    ensures from <= i <= |src| && (v, i - from) == Quoted(src[from..])
  {
    v, i := "", from;
    while i < |src| && src[i] != '"'
      invariant from <= i <= |src|
      invariant v + Quoted(src[i..]).0 == Quoted(src[from..]).0
      invariant i - from + Quoted(src[i..]).1 == Quoted(src[from..]).1
    {
      ghost var rest, before := src[i..], v;
      QuotedStep(rest);
      if src[i] == '\\' && i + 1 < |src| {
        v := v + [src[i + 1]];
        i := i + 2;
        assert rest[2..] == src[i..];
        Assoc(before, [src[i - 1]], Quoted(src[i..]).0);
        continue;
      }
      v := v + [src[i]];
      i := i + 1;
      assert rest[1..] == src[i..];
      Assoc(before, [src[i - 1]], Quoted(src[i..]).0);
    }
    assert Quoted(src[i..]).0 == "" && v + "" == v;
    if i < |src| && src[i] == '"' {
      i := i + 1;
    }
  }

  lemma QuotedStep(s: string)
    requires s != "" && s[0] != '"'
    ensures var k := if s[0] == '\\' && |s| > 1 then 1 else 0;
            Quoted(s).0 == [s[k]] + Quoted(s[k + 1..]).0 && Quoted(s).1 == Quoted(s[k + 1..]).1 + k + 1
  {
  }

  method ReadWord(src: string, from: nat) returns (i: nat)
    requires from <= |src|
    ensures from <= i <= |src| && i - from == WordLength(src[from..])
  {
    i := from;
    while i < |src|
      invariant from <= i <= |src|
      invariant i - from + WordLength(src[i..]) == WordLength(src[from..])
    {
      if EndsWord(src[i]) {
        break;
      }
      assert src[i..][1..] == src[i + 1..];
      i := i + 1;
    }
  }

  // ---------- writing tokens back ----------

  /** Escapes the quote and the backslash. */
  function Escape(v: string): string {
    if v == "" then ""
    else (if v[0] == '"' || v[0] == '\\' then ['\\', v[0]] else [v[0]]) + Escape(v[1..])
  }

  function TokText(t: Tok): string {
    match t
    case EOF => ""
    case Ident(v) => v
    case Str(v) => "\"" + Escape(v) + "\""
    case Colon => ":"
    case LParen => "("
    case RParen => ")"
  }

  /** Tokens written one after the other, with a blank only between two words. */
  function Render(ts: seq<Tok>): string {
    if ts == [] then "" else TokText(ts[0]) + (Gap(ts) + Render(ts[1..]))
  }

  function Gap(ts: seq<Tok>): string {
    if |ts| > 1 && ts[0].Ident? && ts[1].Ident? then " " else ""
  }

  predicate Writable(t: Tok) {
    t != EOF && (t.Ident? ==> IsWord(t.val))
  }

  lemma {:induction false} QuotedEscape(v: string, tail: string)
    ensures Quoted(Escape(v) + "\"" + tail) == (v, |Escape(v)| + 1)
    decreases |v|
  {
    var s := Escape(v) + "\"" + tail;
    if v != "" {
      var rest := Escape(v[1..]) + "\"" + tail;
      QuotedEscape(v[1..], tail);
      assert v == [v[0]] + v[1..];
      if v[0] == '"' || v[0] == '\\' {
        assert s == ['\\', v[0]] + rest;
        assert s[2..] == rest;
      } else {
        assert s == [v[0]] + rest;
        assert s[1..] == rest;
      }
    }
  }

  lemma {:induction false} WordLengthOf(v: string, tail: string)
    requires forall i :: 0 <= i < |v| ==> !EndsWord(v[i])
    requires tail == "" || EndsWord(tail[0])
    ensures WordLength(v + tail) == |v|
    decreases |v|
  {
    if v == "" {
      assert v + tail == tail;
    } else {
      assert (v + tail)[1..] == v[1..] + tail;
      WordLengthOf(v[1..], tail);
    }
  }

  lemma FirstWord(v: string, tail: string)
    requires IsWord(v)
    requires tail == "" || EndsWord(tail[0])
    ensures var s := v + tail;
            s != "" && !IsSpace(s[0]) && FirstTok(s) == (Ident(v), |v|) && s[|v|..] == tail
  {
    var s := v + tail;
    WordLengthOf(v, tail);
    assert s[0] == v[0] && !EndsWord(s[0]);
    assert s[..|v|] == v;
  }

  lemma FirstString(v: string, tail: string)
    ensures var t := "\"" + Escape(v) + "\""; var s := t + tail;
            !IsSpace(s[0]) && FirstTok(s) == (Str(v), |t|) && s[|t|..] == tail
  {
    hide Escape, Quoted;
    var t := "\"" + Escape(v) + "\"";
    var s := t + tail;
    QuotedEscape(v, tail);
    assert s[1..] == Escape(v) + "\"" + tail;
  }

  lemma FirstTokOf(t: Tok, tail: string)
    requires Writable(t)
    requires t.Ident? ==> tail == "" || EndsWord(tail[0])
    ensures var s := TokText(t) + tail;
            s != "" && !IsSpace(s[0]) && FirstTok(s) == (t, |TokText(t)|) && s[|TokText(t)|..] == tail
  {
    if t.Ident? {
      FirstWord(t.val, tail);
    } else if t.Str? {
      FirstString(t.val, tail);
    }
  }

  lemma LexFirst(t: Tok, tail: string)
    requires Writable(t)
    requires t.Ident? ==> tail == "" || EndsWord(tail[0])
    ensures Lex(TokText(t) + tail) == [t] + Lex(tail)
  {
    FirstTokOf(t, tail);
  }

  lemma LexBlank(tail: string)
    ensures Lex(" " + tail) == Lex(tail)
  {
    assert (" " + tail)[1..] == tail;
  }

  lemma TokTextStart(t: Tok)
    requires Writable(t) && !t.Ident?
    ensures TokText(t) != "" && EndsWord(TokText(t)[0])
  {
  }

  /** The text after a word starts with a byte that ends the word. */
  lemma GapEndsWord(ts: seq<Tok>)
    requires ts != [] && forall i :: 0 <= i < |ts| ==> Writable(ts[i])
    ensures var tail := Gap(ts) + Render(ts[1..]);
            Lex(tail) == Lex(Render(ts[1..])) && (ts[0].Ident? ==> tail == "" || EndsWord(tail[0]))
  {
    var rest := Render(ts[1..]);
    if Gap(ts) == " " {
      LexBlank(rest);
    } else {
      assert Gap(ts) + rest == rest;
      if |ts| > 1 && ts[0].Ident? {
        TokTextStart(ts[1]);
        assert rest[0] == TokText(ts[1])[0];
      }
    }
  }

  /** Lexing what was written gives the tokens back. */
  lemma {:induction false} LexRender(ts: seq<Tok>)
    requires forall i :: 0 <= i < |ts| ==> Writable(ts[i])
    ensures Lex(Render(ts)) == ts
    decreases |ts|
  {
    if ts != [] {
      LexRender(ts[1..]);
      GapEndsWord(ts);
      LexFirst(ts[0], Gap(ts) + Render(ts[1..]));
    }
  }
}
