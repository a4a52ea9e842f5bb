/** Decimal printing and parsing of 64-bit integers: itoaq, strconv.Itoa, strconv.ParseInt and strconv.Atoi. */
module Decimal {
  import opened Bytes

  const MAX_INT64: int := 0x7FFF_FFFF_FFFF_FFFF
  const MIN_INT64: int := -0x8000_0000_0000_0000
  const MAX_UINT64: int := 0xFFFF_FFFF_FFFF_FFFF

  type Int64 = n: int | MIN_INT64 <= n <= MAX_INT64

  /** Two's complement wrap-around of an arbitrary integer. */
  function Wrap64(n: int): Int64 {
    (n - MIN_INT64) % (MAX_UINT64 + 1) + MIN_INT64
  }

  // ---------- the number a numeral denotes ----------

  function DigitChar(d: int): char
    requires 0 <= d < 10
  {
    ('0' as int + d) as char
  }

  predicate IsDigit(c: char) {
    '0' <= c <= '9'
  }

  /** The shortest decimal numeral of a natural number. */
  function Digits(n: nat): (s: string)
    ensures s != "" && forall i :: 0 <= i < |s| ==> IsDigit(s[i])
  {
    if n < 10 then [DigitChar(n)] else Digits(n / 10) + [DigitChar(n % 10)]
  }

  /** strconv.Itoa. */
  function Itoa(n: int): string {
    if n < 0 then "-" + Digits(-n) else Digits(n)
  }

  datatype ParsedInt = Parsed(value: int) | SyntaxError | RangeError(clamped: int)

  /** The digit loop of strconv.ParseUint: it stops at the first bad character or at the first overflow. */
  function ScanUint(s: string, acc: nat): ParsedInt
    decreases |s|
  {
    if s == "" then Parsed(acc)
    else if !IsDigit(s[0]) then SyntaxError
    else
      var next := acc * 10 + (s[0] as int - '0' as int);
      if next > MAX_UINT64 then RangeError(MAX_UINT64) else ScanUint(s[1..], next)
  }

  /** strconv.ParseInt(s, 10, 64). */
  function ParseInt64(s: string): ParsedInt {
    if s == "" then SyntaxError
    else
      var neg := s[0] == '-';
      var body := if neg || s[0] == '+' then s[1..] else s;
      if body == "" then SyntaxError
      else
        match ScanUint(body, 0)
        case SyntaxError => SyntaxError
        case RangeError(_) => RangeError(if neg then MIN_INT64 else MAX_INT64)
        case Parsed(m) =>
          if !neg && m > MAX_INT64 then RangeError(MAX_INT64)
          else if neg && -m < MIN_INT64 then RangeError(MIN_INT64)
          else Parsed(if neg then -m else m)
  }

  /** strconv.Atoi with its error thrown away: 0 on bad syntax, the nearest bound on overflow. */
  function AtoiLenient(s: string): int {
    match ParseInt64(s)
    case Parsed(v) => v
    case SyntaxError => 0
    case RangeError(c) => c
  }

  // ---------- round trip ----------

  lemma {:induction false} ScanAppend(s: string, c: char, acc: nat)
    requires ScanUint(s, acc).Parsed? && IsDigit(c)
    requires ScanUint(s, acc).value >= 0
    ensures var next := ScanUint(s, acc).value * 10 + (c as int - '0' as int);
            ScanUint(s + [c], acc) == if next > MAX_UINT64 then RangeError(MAX_UINT64) else Parsed(next)
    decreases |s|
  {
    if s == "" {
      assert s + [c] == [c];
      assert [c][1..] == "";
    } else {
      assert (s + [c])[1..] == s[1..] + [c];
      ScanAppend(s[1..], c, acc * 10 + (s[0] as int - '0' as int));
    }
  }

  lemma {:induction false} ScanDigits(n: nat)
    requires n <= MAX_UINT64
    ensures ScanUint(Digits(n), 0) == Parsed(n)
  {
    if n < 10 {
      assert Digits(n)[1..] == "";
    } else {
      ScanDigits(n / 10);
      ScanAppend(Digits(n / 10), DigitChar(n % 10), 0);
    }
  }

  /** Printing a 64-bit integer and parsing it back is the identity. */
  lemma {:induction false} ItoaRoundTrip(n: int)
    requires MIN_INT64 <= n <= MAX_INT64
    ensures ParseInt64(Itoa(n)) == Parsed(n)
  {
    if n < 0 {
      ScanDigits(-n);
      assert Itoa(n)[1..] == Digits(-n);
    } else {
      ScanDigits(n);
      assert IsDigit(Digits(n)[0]);
    }
  }

  lemma ItoaInjective(m: Int64, n: Int64)
    requires Itoa(m) == Itoa(n)
    ensures m == n
  {
    ItoaRoundTrip(m);
    ItoaRoundTrip(n);
  }

  lemma ItoaNoSpace(n: Int64)
    ensures TrimSpace(Itoa(n)) == Itoa(n)
  {
    TrimSpaceStable(Itoa(n));
  }

  // ---------- itoaq ----------

  lemma {:induction false} DigitsFit(n: nat, limit: nat, k: nat)
    requires n < limit && k >= 1
    requires limit <= Pow10(k)
    ensures |Digits(n)| <= k
    decreases k
  {
    if n >= 10 {
      assert k > 1;
      DigitsFit(n / 10, Pow10(k - 1), k - 1);
    }
  }

  function Pow10(k: nat): nat {
    if k == 0 then 1 else 10 * Pow10(k - 1)
  }

  lemma NineteenDigits(n: nat)
    requires n <= MAX_INT64
    ensures |Digits(n)| <= 19
  {
    assert Pow10(5) == 100000;
    assert Pow10(10) == 100000 * 100000;
    assert Pow10(15) == 100000 * 100000 * 100000;
    assert Pow10(19) == 10000 * 100000 * 100000 * 100000;
    DigitsFit(n, n + 1, 19);
  }

  function ItoaqSpec(n: Int64): string {
    if n == MIN_INT64 then "-" else Itoa(n)
  }

  lemma NegationWraps(n: int)
    requires MIN_INT64 <= n <= MAX_INT64
    ensures Wrap64(-n) == if n == MIN_INT64 then MIN_INT64 else -n
  {
  }

  /** The digits still to be written in front of those already in the buffer. */
  function Pending(m: int): string {
    if m > 0 then Digits(m) else ""
  }

  lemma PendingStep(m: int)
    requires m > 0
    ensures Pending(m) == Pending(m / 10) + [DigitChar(m % 10)]
  {
  }

  /** The digit loop of itoaq: it fills the buffer from the back and gives the first byte it wrote. */
  method WriteDigits(buf: array<char>, n: int) returns (i: nat)
    requires buf.Length == 20 && |Pending(n)| <= 19
    modifies buf
    ensures 1 <= i <= 20 && buf[i..] == Pending(n)
  {
    hide Digits;
    i := 20;
    var m := n;
    ghost var todo := Pending(n);
    while m > 0
      invariant 0 <= i <= 20 && todo == Pending(m)
      invariant |todo| + 20 - i == |Pending(n)|
      invariant todo + buf[i..] == Pending(n)
      decreases m
    {
      PendingStep(m);
      var d := DigitChar(m % 10);
      ghost var written := buf[i..];
      m := m / 10;
      todo := Pending(m);
      i := i - 1;
      buf[i] := d;
      assert buf[i..] == [d] + written;
      Assoc(todo, [d], written);
    }
    assert buf[i..] == Pending(n);
  }

  /** itoaq. No index leaves the 20-byte buffer; the result is the decimal numeral for every 64-bit integer
      but the least, whose negation wraps round to itself. */
  method Itoaq(n: Int64) returns (s: string)
    ensures s == ItoaqSpec(n)
  {
    if n == 0 {
      return "0";
    }
    var buf := new char[20];
    var neg := n < 0;
    var m: int := n;
    if neg {
      NegationWraps(n);
      m := Wrap64(-m);
    }
    if m > 0 {
      NineteenDigits(m);
    }
    var i := WriteDigits(buf, m);
    if neg {
      i := i - 1;
      buf[i] := '-';
      assert buf[i..] == ['-'] + buf[i + 1..];
    }
    s := buf[i..];
  }

  /** The text printed for n denotes n exactly when n is not the least 64-bit integer. */
  lemma ItoaqDenotes(n: Int64)
    ensures ParseInt64(ItoaqSpec(n)) == Parsed(n) <==> n != MIN_INT64
  {
    ItoaRoundTrip(n);
    assert "-"[1..] == "";
  }

  // ---------- what a text denotes ----------

  predicate AllDigits(s: string) {
    forall i :: 0 <= i < |s| ==> '0' <= s[i] <= '9'
  }

  /** The number that digits denote, from the units up. */
  function Value(s: string): nat
    requires AllDigits(s)
  {
    if s == "" then 0 else 10 * Value(s[..|s| - 1]) + (s[|s| - 1] as int - 48)
  }

  /** The sign is '-'. */
  predicate Minus(s: string) {
    s != "" && s[0] == '-'
  }

  /** What follows the sign, if there is one. */
  function Unsigned(s: string): string {
    if s != "" && (s[0] == '-' || s[0] == '+') then s[1..] else s
  }

  function Denoted(s: string): int
    requires AllDigits(Unsigned(s))
  {
    var v: int := Value(Unsigned(s));
    if Minus(s) then -v else v
  }

  /** A loop that has stopped with an error does not look at what follows. */
  lemma {:induction false} ScanStops(s: string, t: string, acc: nat)
    requires !ScanUint(s, acc).Parsed?
    ensures ScanUint(s + t, acc) == ScanUint(s, acc)
    decreases |s|
  {
    if IsDigit(s[0]) {
      assert (s + t)[1..] == s[1..] + t;
      var next := acc * 10 + (s[0] as int - '0' as int);
      if next <= MAX_UINT64 {
        ScanStops(s[1..], t, next);
      }
    }
  }

  lemma {:induction false} ScanValue(s: string)
    requires AllDigits(s)
    ensures ScanUint(s, 0) == if Value(s) <= MAX_UINT64 then Parsed(Value(s)) else RangeError(MAX_UINT64)
  {
    if s != "" {
      var init, c := s[..|s| - 1], s[|s| - 1];
      ScanValue(init);
      assert s == init + [c];
      if Value(init) <= MAX_UINT64 {
        ScanAppend(init, c, 0);
      } else {
        ScanStops(init, [c], 0);
      }
    }
  }

  lemma {:induction false} ScanOther(s: string, acc: nat, k: nat)
    requires k < |s| && !('0' <= s[k] <= '9') && AllDigits(s[..k]) && ScanUint(s[..k], acc).Parsed?
    ensures ScanUint(s, acc) == SyntaxError
    decreases k
  {
    if k > 0 {
      var d := s[..k];
      assert d[0] == s[0] && d[1..] == s[1..][..k - 1];
      ScanOther(s[1..], acc * 10 + (s[0] as int - '0' as int), k - 1);
    }
  }

  /** ParseInt on a sign and digits: the number they denote, or the nearest bound. */
  lemma ParseNumeral(s: string)
    requires Unsigned(s) != "" && AllDigits(Unsigned(s))
    ensures var n := Denoted(s);
            ParseInt64(s) == if n > MAX_INT64 then RangeError(MAX_INT64)
                             else if n < MIN_INT64 then RangeError(MIN_INT64) else Parsed(n)
  {
    ScanValue(Unsigned(s));
  }

  /** ParseInt on any other text, with the first character that is no digit at k after the sign: an error of syntax,
      unless the digits before it are too many for 64 bits already. */
  lemma ParseOther(s: string, k: nat)
    requires var body := Unsigned(s); k <= |body| && AllDigits(body[..k])
    requires var body := Unsigned(s); if k < |body| then !('0' <= body[k] <= '9') else body == ""
    ensures ParseInt64(s) == if Value(Unsigned(s)[..k]) <= MAX_UINT64 then SyntaxError
                             else RangeError(if Minus(s) then MIN_INT64 else MAX_INT64)
  {
    var body := Unsigned(s);
    if body != "" {
      ScanValue(body[..k]);
      if Value(body[..k]) <= MAX_UINT64 {
        ScanOther(body, 0, k);
      } else {
        assert body == body[..k] + body[k..];
        ScanStops(body[..k], body[k..], 0);
      }
    }
  }

  function FirstOther(s: string): (k: nat)
    ensures k <= |s| && AllDigits(s[..k]) && (k < |s| ==> !('0' <= s[k] <= '9'))
  {
    if s == "" || !('0' <= s[0] <= '9') then 0
    else
      var k := FirstOther(s[1..]);
      assert s[..k + 1] == [s[0]] + s[1..][..k];
      k + 1
  }

  /** The text reads as the positive number n: its digits denote n, or n is the greatest and they denote more. Digits
      that are too many for 64 bits count whatever follows them. */
  ghost predicate Reads(s: string, n: int) {
    var body := Unsigned(s);
    && n > 0 && !Minus(s)
    && if AllDigits(body) then n == (if Value(body) <= MAX_INT64 then Value(body) else MAX_INT64)
       else n == MAX_INT64 && Value(body[..FirstOther(body)]) > MAX_UINT64
  }

  /** Atoi with its error thrown away. */
  lemma AtoiReads(s: string, n: int)
    requires n > 0
    ensures AtoiLenient(s) == n <==> Reads(s, n)
  {
    var body := Unsigned(s);
    if body != "" && AllDigits(body) {
      ParseNumeral(s);
    } else {
      ParseOther(s, FirstOther(body));
    }
  }

  /** The printed form of a positive number reads as that number and as no other. */
  lemma PrintedReads(m: int, n: int)
    requires 0 < m <= MAX_INT64 && n > 0
    ensures Reads(Itoa(m), n) <==> n == m
  {
    ItoaRoundTrip(m);
    AtoiReads(Itoa(m), n);
  }

  /** A text without a digit where digits should start reads as no number. */
  lemma SilentText(s: string, n: int)
    requires var body := Unsigned(s); body == "" || !('0' <= body[0] <= '9')
    ensures !Reads(s, n)
  {
    if n > 0 {
      ParseOther(s, 0);
      AtoiReads(s, n);
    }
  }
}
