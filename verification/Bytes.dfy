/** Byte strings. A Go string is a sequence of bytes; here each char of a `string` stands for one byte. */
module Bytes {

  /** unicode.IsSpace on one byte read as a Latin-1 code point. */
  predicate IsSpace(c: char) {
    c == ' ' || ('\t' <= c <= '\r') || c as int == 0x85 || c as int == 0xA0
  }

  predicate IsAsciiSpace(c: char) {
    c == ' ' || ('\t' <= c <= '\r')
  }

  /** The UTF-8 encodings of the white-space code points outside ASCII. */
  predicate IsWide2(a: char, b: char) {
    a as int == 0xC2 && (b as int == 0x85 || b as int == 0xA0)
  }

  predicate IsWide3(a: char, b: char, c: char) {
    || (a as int == 0xE1 && b as int == 0x9A && c as int == 0x80)
    || (a as int == 0xE2 && b as int == 0x80
        && (0x80 <= c as int <= 0x8A || c as int == 0xA8 || c as int == 0xA9 || c as int == 0xAF))
    || (a as int == 0xE2 && b as int == 0x81 && c as int == 0x9F)
    || (a as int == 0xE3 && b as int == 0x80 && c as int == 0x80)
  }

  /** The number of bytes of the white-space character at the front of a text, 0 if there is none. */
  function SpaceAtFront(s: string): (n: nat)
    ensures n <= |s|
  {
    if s != "" && IsAsciiSpace(s[0]) then 1
    else if |s| >= 2 && IsWide2(s[0], s[1]) then 2
    else if |s| >= 3 && IsWide3(s[0], s[1], s[2]) then 3
    else 0
  }

  function SpaceAtBack(s: string): (n: nat)
    ensures n <= |s|
  {
    var k := |s|;
    if s != "" && IsAsciiSpace(s[k - 1]) then 1
    else if k >= 2 && IsWide2(s[k - 2], s[k - 1]) then 2
    else if k >= 3 && IsWide3(s[k - 3], s[k - 2], s[k - 1]) then 3
    else 0
  }

  function TrimLeft(s: string): string {
    var n := SpaceAtFront(s);
    if n == 0 then s else TrimLeft(s[n..])
  }

  function TrimRight(s: string): string {
    var n := SpaceAtBack(s);
    if n == 0 then s else TrimRight(s[..|s| - n])
  }

  /** strings.TrimSpace. */
  function TrimSpace(s: string): string {
    TrimRight(TrimLeft(s))
  }

  predicate IsAscii(c: char) {
    c as int < 0x80
  }

  /** A text that starts and ends in ASCII characters other than white space is left alone. */
  lemma TrimSpaceStable(s: string)
    requires s != "" && IsAscii(s[0]) && !IsAsciiSpace(s[0])
    requires IsAscii(s[|s| - 1]) && !IsAsciiSpace(s[|s| - 1])
    ensures TrimSpace(s) == s
  {
    assert SpaceAtFront(s) == 0 && SpaceAtBack(s) == 0;
  }

  /** ASCII lower-casing of one byte. */
  function LowerChar(c: char): char {
    if 'A' <= c <= 'Z' then (c as int + 32) as char else c
  }

  /** strings.ToLower on ASCII text. */
  function Lower(s: string): (t: string)
    ensures |t| == |s| && forall i :: 0 <= i < |s| ==> t[i] == LowerChar(s[i])
  {
    seq(|s|, i requires 0 <= i < |s| => LowerChar(s[i]))
  }

  /** strings.ToUpper on ASCII text. */
  function Upper(s: string): string {
    seq(|s|, i requires 0 <= i < |s| => if 'a' <= s[i] <= 'z' then (s[i] as int - 32) as char else s[i])
  }

  /** strings.EqualFold on ASCII text. */
  predicate EqualFold(a: string, b: string) {
    Lower(a) == Lower(b)
  }

  lemma Assoc<T>(a: seq<T>, b: seq<T>, c: seq<T>)
    ensures a + b + c == a + (b + c)
  {
  }

  lemma DropDrop<T>(s: seq<T>, i: nat, n: nat)
    requires i + n <= |s|
    ensures s[i..][n..] == s[i + n..]
  {
  }

  predicate Contains(s: string, sub: string) {
    exists i {:trigger s[i..]} :: 0 <= i <= |s| && sub <= s[i..]
  }

  // ---------- white space and case, spelled out ----------

  predicate OtherCase(c: char, d: char) {
    || ('A' <= c <= 'Z' && d as int == c as int + 32)
    || ('a' <= c <= 'z' && d as int == c as int - 32)
  }

  /** The same text but for the case of ASCII letters. */
  predicate SameLetters(a: string, b: string) {
    |a| == |b| && forall i :: 0 <= i < |a| ==> a[i] == b[i] || OtherCase(a[i], b[i])
  }

  lemma FoldMeans(a: string, b: string)
    ensures EqualFold(a, b) <==> SameLetters(a, b)
    ensures Lower(a) == Lower(b) <==> SameLetters(a, b)
  {
    if Lower(a) == Lower(b) {
      forall i | 0 <= i < |a|
        ensures a[i] == b[i] || OtherCase(a[i], b[i])
      {
        assert Lower(a)[i] == Lower(b)[i];
      }
    }
  }

  /** Lowering and raising change the case of letters and nothing else. */
  lemma CaseOnly(s: string)
    ensures SameLetters(s, Lower(s)) && forall i :: 0 <= i < |s| ==> !('A' <= Lower(s)[i] <= 'Z')
    ensures SameLetters(s, Upper(s)) && forall i :: 0 <= i < |s| ==> !('a' <= Upper(s)[i] <= 'z')
  {
  }

  /** A text occurs in another but for case. */
  ghost predicate Occurs(s: string, text: string) {
    exists i {:trigger s[i..]} :: 0 <= i && i + |text| <= |s| && SameLetters(s[i..][..|text|], text)
  }

  lemma LowerSlice(s: string, i: nat, n: nat)
    requires i + n <= |s|
    ensures Lower(s)[i..][..n] == Lower(s[i..][..n])
  {
  }

  lemma ContainsMeans(s: string, text: string)
    ensures Contains(Lower(s), Lower(text)) <==> Occurs(s, text)
  {
    if Contains(Lower(s), Lower(text)) {
      var i :| 0 <= i <= |Lower(s)| && Lower(text) <= Lower(s)[i..];
      LowerSlice(s, i, |text|);
      FoldMeans(s[i..][..|text|], text);
      assert Lower(s)[i..][..|text|] == Lower(text);
    }
    if Occurs(s, text) {
      var i :| 0 <= i && i + |text| <= |s| && SameLetters(s[i..][..|text|], text);
      LowerSlice(s, i, |text|);
      FoldMeans(s[i..][..|text|], text);
      assert Lower(text) <= Lower(s)[i..];
    }
  }

  /** Blanks of ASCII: blank, tab, line feed, vertical tab, form feed, carriage return. */
  predicate Blanks(s: string) {
    forall i :: 0 <= i < |s| ==> s[i] as int in {9, 10, 11, 12, 13, 32}
  }

  lemma {:induction false} TrimFrontBlanks(a: string, s: string)
    requires Blanks(a)
    ensures TrimLeft(a + s) == TrimLeft(s)
  {
    if a == "" {
      assert a + s == s;
    } else {
      assert a[0] == (a + s)[0] && (a + s)[1..] == a[1..] + s;
      TrimFrontBlanks(a[1..], s);
    }
  }

  lemma {:induction false} TrimBackBlanks(s: string, b: string)
    requires Blanks(b)
    ensures TrimRight(s + b) == TrimRight(s)
  {
    if b == "" {
      assert s + b == s;
    } else {
      var init := b[..|b| - 1];
      assert (s + b)[|s + b| - 1] == b[|b| - 1] && (s + b)[..|s + b| - 1] == s + init;
      TrimBackBlanks(s, init);
    }
  }

  /** The text starts and ends in ASCII characters that are no blanks. */
  predicate Solid(s: string) {
    && s != ""
    && s[0] as int < 0x80 && s[0] as int !in {9, 10, 11, 12, 13, 32}
    && s[|s| - 1] as int < 0x80 && s[|s| - 1] as int !in {9, 10, 11, 12, 13, 32}
  }

  lemma SolidEnds(s: string, b: string)
    requires Solid(s)
    ensures TrimLeft(s + b) == s + b && TrimRight(s) == s
  {
    assert (s + b)[0] == s[0];
    assert SpaceAtFront(s + b) == 0 && SpaceAtBack(s) == 0;
  }

  lemma TrimNothing()
    ensures TrimLeft("") == "" && TrimRight("") == ""
  {
  }

  /** Blanks around a text are removed; a text that starts and ends in other ASCII characters stays whole. */
  lemma TrimMeans(a: string, s: string, b: string)
    requires Blanks(a) && Blanks(b) && (s == "" || Solid(s))
    ensures TrimSpace(a + s + b) == s
  {
    hide TrimLeft, TrimRight, Blanks;
    assert a + s + b == a + (s + b);
    TrimFrontBlanks(a, s + b);
    TrimNothing();
    if s == "" {
      assert s + b == b && b == b + "";
      TrimFrontBlanks(b, "");
    } else {
      SolidEnds(s, b);
      TrimBackBlanks(s, b);
    }
  }

  /** The UTF-8 encoding of a code point of two or three bytes. */
  function Utf8(cp: int): string
    requires 0x80 <= cp < 0xD800 || 0xE000 <= cp < 0x1_0000
  {
    if cp < 0x800 then [(0xC0 + cp / 0x40) as char, (0x80 + cp % 0x40) as char]
    else [(0xE0 + cp / 0x1000) as char, (0x80 + cp / 0x40 % 0x40) as char, (0x80 + cp % 0x40) as char]
  }

  /** The code points beyond ASCII that Unicode calls white space. */
  predicate WideSpace(cp: int) {
    || cp in {0x85, 0xA0, 0x1680, 0x2028, 0x2029, 0x202F, 0x205F, 0x3000} || 0x2000 <= cp <= 0x200A
  }

  /** White space is removed at both ends, and nothing else beyond ASCII is. */
  lemma WideSpaces(cp: int, s: string)
    requires 0x80 <= cp < 0xD800 || 0xE000 <= cp < 0x1_0000
    ensures TrimLeft(Utf8(cp) + s) == if WideSpace(cp) then TrimLeft(s) else Utf8(cp) + s
    ensures TrimRight(s + Utf8(cp)) == if WideSpace(cp) then TrimRight(s) else s + Utf8(cp)
  {
    hide SpaceAtFront, SpaceAtBack, WideSpace;
    var u := Utf8(cp);
    WideFront(cp, s);
    assert (u + s)[|u|..] == s && (s + u)[..|s + u| - |u|] == s;
    hide Utf8;
  }

  lemma WideFront(cp: int, s: string)
    requires 0x80 <= cp < 0xD800 || 0xE000 <= cp < 0x1_0000
    ensures var u := Utf8(cp);
            SpaceAtFront(u + s) == SpaceAtBack(s + u) == if WideSpace(cp) then |u| else 0
  {
  }
}
