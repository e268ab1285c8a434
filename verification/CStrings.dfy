/** The C library's string functions as far as the firmware uses them, on strings without
    terminator and on buffers with one. */
module CStrings {

  import opened Prelude

  const NUL: char := '\0'

  /** The next token of a text and what follows the delimiter that ends it, if one does. */
  datatype Token = Token(text: string, rest: Option<string>)

  /** s without the delimiters it starts with. */
  function SkipAll(s: string, d: char): (r: string)
    ensures |r| <= |s|
  {
    if s != [] && s[0] == d then SkipAll(s[1..], d) else s
  }

  /** The number of characters before the first d. */
  function Span(s: string, d: char): (n: nat)
    ensures n <= |s|
  {
    if s == [] || s[0] == d then 0 else 1 + Span(s[1..], d)
  }

  /** strtok_r with a single delimiter. */
  function NextToken(s: string, d: char): Option<Token> {
    var t := SkipAll(s, d);
    if t == [] then None
    else
      var n := Span(t, d);
      Some(Token(t[..n], if n == |t| then Option.None else Option.Some(t[n + 1..])))
  }

  /** strstr(s, p) is not null. */
  predicate Contains(s: string, p: string) {
    exists i | 0 <= i <= |s| :: OccursAt(s, p, i)
  }

  predicate OccursAt(s: string, p: string, i: int) {
    0 <= i <= |s| - |p| && s[i..i + |p|] == p
  }

  // ---- numbers ----

  predicate IsSpace(c: char) {
    c == ' ' || '\t' <= c <= '\r'
  }

  predicate IsDigit(c: char) {
    '0' <= c <= '9'
  }

  function DigitValue(c: char): nat
    requires IsDigit(c)
  {
    c as int - '0' as int
  }

  function DigitChar(n: nat): (c: char)
    requires n < 10
    ensures IsDigit(c) && DigitValue(c) == n
  {
    ('0' as int + n) as char
  }

  /** The value of the digits s starts with, after acc. */
  function Digits(s: string, acc: nat): nat
    decreases |s|
  {
    if s == [] || !IsDigit(s[0]) then acc else Digits(s[1..], 10 * acc + DigitValue(s[0]))
  }

  /** atoi: white space, a sign, digits; anything else ends the number. */
  function Atoi(s: string): int
    decreases |s|
  {
    if s != [] && IsSpace(s[0]) then Atoi(s[1..])
    else if s != [] && s[0] == '-' then 0 - Digits(s[1..], 0)
    else if s != [] && s[0] == '+' then Digits(s[1..], 0)
    else Digits(s, 0)
  }

  /** %d of a number that is not negative. */
  function Decimal(n: nat): (s: string)
    ensures |s| > 0 && forall c :: c in s ==> IsDigit(c)
  {
    if n < 10 then [DigitChar(n)] else Decimal(n / 10) + [DigitChar(n % 10)]
  }

  lemma {:induction false} DigitsAppend(s: string, c: char, acc: nat)
    requires (forall x :: x in s ==> IsDigit(x)) && IsDigit(c)
    ensures Digits(s + [c], acc) == 10 * Digits(s, acc) + DigitValue(c)
    decreases |s|
  {
    if s == [] {
      assert s + [c] == [c];
      assert Digits([c][1..], 10 * acc + DigitValue(c)) == 10 * acc + DigitValue(c);
    } else {
      DigitsAppend(s[1..], c, 10 * acc + DigitValue(s[0]));
      assert (s + [c])[1..] == s[1..] + [c];
    }
  }

  lemma {:induction false} DigitsOfDecimal(n: nat)
    ensures Digits(Decimal(n), 0) == n
  {
    if n < 10 {
      var s := Decimal(n);
      assert s[1..] == [];
      assert Digits(s, 0) == Digits(s[1..], 10 * 0 + DigitValue(s[0]));
    } else {
      DigitsOfDecimal(n / 10);
      DigitsAppend(Decimal(n / 10), DigitChar(n % 10), 0);
    }
  }

  /** Parsing undoes printing. */
  lemma AtoiOfDecimal(n: nat)
    ensures Atoi(Decimal(n)) == n
  {
    DigitsOfDecimal(n);
    assert IsDigit(Decimal(n)[0]);
  }

  lemma {:induction false} DigitsStop(s: string, rest: string, acc: nat)
    requires (forall x :: x in s ==> IsDigit(x)) && (rest == [] || !IsDigit(rest[0]))
    ensures Digits(s + rest, acc) == Digits(s, acc)
    decreases |s|
  {
    if s == [] {
      assert s + rest == rest;
    } else {
      DigitsStop(s[1..], rest, 10 * acc + DigitValue(s[0]));
      assert (s + rest)[1..] == s[1..] + rest;
    }
  }

  lemma {:induction false} BlanksSkipped(blanks: string, s: string)
    requires forall x :: x in blanks ==> IsSpace(x)
    ensures Atoi(blanks + s) == Atoi(s)
    decreases |blanks|
  {
    if blanks == [] {
      assert blanks + s == s;
    } else {
      BlanksSkipped(blanks[1..], s);
      assert (blanks + s)[1..] == blanks[1..] + s;
    }
  }

  /** A number may have blanks and a sign in front and anything but a digit behind. */
  lemma AtoiReads(blanks: string, n: nat, rest: string)
    requires (forall x :: x in blanks ==> IsSpace(x)) && (rest == [] || !IsDigit(rest[0]))
    ensures Atoi(blanks + Decimal(n) + rest) == n && Atoi(blanks + "+" + Decimal(n) + rest) == n
    ensures Atoi(blanks + "-" + Decimal(n) + rest) == 0 - n
  {
    hide Atoi, Decimal;
    var s := Decimal(n) + rest;
    DigitsOfDecimal(n);
    DigitsStop(Decimal(n), rest, 0);
    assert blanks + Decimal(n) + rest == blanks + s;
    assert blanks + "+" + Decimal(n) + rest == blanks + ("+" + s);
    assert blanks + "-" + Decimal(n) + rest == blanks + ("-" + s);
    BlanksSkipped(blanks, s);
    BlanksSkipped(blanks, "+" + s);
    BlanksSkipped(blanks, "-" + s);
    SignsRead(s);
  }

  lemma SignsRead(s: string)
    requires s != [] && IsDigit(s[0])
    ensures Atoi(s) == Atoi("+" + s) == Digits(s, 0) && Atoi("-" + s) == 0 - Digits(s, 0)
  {
    assert ("+" + s)[1..] == s && ("-" + s)[1..] == s;
  }

  /** A text that does not start with a number reads as zero. */
  lemma NoNumber(s: string)
    requires s == [] || !(IsSpace(s[0]) || IsDigit(s[0]) || s[0] == '-' || s[0] == '+')
    ensures Atoi(s) == 0
  {
  }

  /** The printed number has as many digits as its size calls for. */
  lemma {:induction false} DecimalLength(n: nat, k: nat, bound: nat)
    requires k > 0 && n < bound && bound == Power10(k)
    ensures |Decimal(n)| <= k
    decreases k
  {
    if n >= 10 {
      assert k > 1;
      DecimalLength(n / 10, k - 1, Power10(k - 1));
    }
  }

  function Power10(k: nat): nat {
    if k == 0 then 1 else 10 * Power10(k - 1)
  }

  // ---- strings in a buffer ----

  /** Where the string at i ends: the first NUL, or the end of the buffer. */
  function StrEnd(b: string, i: nat): (e: nat)
    requires i <= |b|
    ensures i <= e <= |b|
    decreases |b| - i
  {
    if i == |b| || b[i] == NUL then i else StrEnd(b, i + 1)
  }

  /** The C string that starts at i. */
  function CStr(b: string, i: nat): string
    requires i <= |b|
  {
    b[i..StrEnd(b, i)]
  }

  /** The string that starts at i ends inside the buffer. */
  predicate Terminated(b: string, i: nat) {
    i < |b| && StrEnd(b, i) < |b|
  }

  lemma {:induction false} StrEndIs(b: string, i: nat, e: nat)
    requires i <= e < |b| && (forall k :: i <= k < e ==> b[k] != NUL) && b[e] == NUL
    ensures StrEnd(b, i) == e
    decreases e - i
  {
    if i < e {
      StrEndIs(b, i + 1, e);
    }
  }

  lemma {:induction false} StrEndFacts(b: string, i: nat)
    requires i <= |b|
    ensures forall k :: i <= k < StrEnd(b, i) ==> b[k] != NUL
    ensures StrEnd(b, i) < |b| ==> b[StrEnd(b, i)] == NUL
    decreases |b| - i
  {
    if i < |b| && b[i] != NUL {
      StrEndFacts(b, i + 1);
    }
  }

  /** A string before a changed place stays what it was. */
  lemma CStrFrame(b: string, b': string, i: nat, k: nat)
    requires |b| == |b'| && Terminated(b, i) && StrEnd(b, i) < k
    requires forall j :: 0 <= j < k && j < |b| ==> b'[j] == b[j]
    ensures Terminated(b', i) && StrEnd(b', i) == StrEnd(b, i) && CStr(b', i) == CStr(b, i)
  {
    var e := StrEnd(b, i);
    StrEndFacts(b, i);
    StrEndIs(b', i, e);
    assert b'[i..e] == b[i..e];
  }
}
