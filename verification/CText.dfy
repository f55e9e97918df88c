/** C strings, the characters the JSON code tests for, and decimal numerals. */
module CText {
  // The characters of a C string, without the terminating NUL.
  type Text = string

  predicate NulFree(s: Text) {
    forall i | 0 <= i < |s| :: s[i] != '\0'
  }

  // What a cursor reads at position i of a NUL-terminated string.
  function At(s: Text, i: nat): char
    requires i <= |s|
  {
    if i < |s| then s[i] else '\0'
  }

  // A buffer with the C string t at its start.
  ghost predicate HasText(out: array<char>, t: Text)
    reads out
  {
    |t| < out.Length && out[..|t|] == t && out[|t|] == '\0'
  }

  predicate StartsWith(s: Text, c: char) {
    s != [] && s[0] == c
  }

  predicate IsDigit(c: char) {
    '0' <= c <= '9'
  }

  function DigitValue(c: char): nat
    requires IsDigit(c)
  {
    c as int - '0' as int
  }

  // Everything up to and including the blank is whitespace for the parser.
  function Skip(s: Text): (r: Text)
    ensures |r| <= |s|
    ensures r == [] || r[0] > ' '
  {
    if s != [] && s[0] <= ' ' then Skip(s[1..]) else s
  }

  lemma Assoc<T>(a: seq<T>, b: seq<T>, c: seq<T>)
    ensures a + b + c == a + (b + c)
  {}

  lemma Assoc4<T>(a: seq<T>, b: seq<T>, c: seq<T>, d: seq<T>)
    ensures a + b + c + d == a + b + (c + d) == a + (b + c + d) == a + (b + (c + d))
  {}

  lemma Assoc5<T>(a: seq<T>, b: seq<T>, c: seq<T>, d: seq<T>, e: seq<T>)
    ensures a + b + c + d + e == a + (b + (c + (d + e)))
  {}

  lemma HeadTail<T>(s: seq<T>)
    requires s != []
    ensures [s[0]] + s[1..] == s
  {}

  predicate Blank(s: Text) {
    forall i | 0 <= i < |s| :: s[i] <= ' '
  }

  lemma {:induction false} SkipBlanks(blank: Text, s: Text)
    requires Blank(blank) && (s == [] || s[0] > ' ')
    ensures Skip(blank + s) == s
  {
    if blank == [] {
      assert blank + s == s;
    } else {
      assert (blank + s)[1..] == blank[1..] + s;
      SkipBlanks(blank[1..], s);
    }
  }

  function Tabs(n: int): (r: Text)
    ensures |r| == (if n < 0 then 0 else n) && forall i | 0 <= i < |r| :: r[i] == '\t'
  {
    if n <= 0 then [] else Tabs(n - 1) + "\t"
  }

  function Digit(n: nat): (c: char)
    requires n < 10
    ensures IsDigit(c) && DigitValue(c) == n
  {
    ('0' as int + n) as char
  }

  function Digits(n: nat): (r: Text)
    ensures r != [] && forall i | 0 <= i < |r| :: IsDigit(r[i])
    ensures n > 0 ==> r[0] != '0'
  {
    if n < 10 then [Digit(n)] else Digits(n / 10) + [Digit(n % 10)]
  }

  // The text "%d" writes for an integer.
  function Decimal(k: int): (r: Text)
    ensures r != [] && NulFree(r)
  {
    if k < 0 then "-" + Digits(-k) else Digits(k)
  }

  // Accumulates the leading digits of s onto n.
  function TakeDigits(s: Text, n: int): (r: (int, Text))
    ensures |r.1| <= |s|
    ensures r.1 == [] || !IsDigit(r.1[0])
    ensures s != [] && IsDigit(s[0]) ==> |r.1| < |s|
  {
    if s != [] && IsDigit(s[0]) then TakeDigits(s[1..], n * 10 + DigitValue(s[0])) else (n, s)
  }

  lemma {:induction false} TakeDigitsOfDigits(n: nat, r: Text)
    ensures TakeDigits(Digits(n) + r, 0) == TakeDigits(r, n)
  {
    if n < 10 {
      TakeOneDigit(Digit(n), r, 0);
      assert Digits(n) + r == [Digit(n)] + r;
    } else {
      var d := Digit(n % 10);
      TakeDigitsOfDigits(n / 10, [d] + r);
      TakeOneDigit(d, r, n / 10);
      assert Digits(n) + r == Digits(n / 10) + ([d] + r);
    }
  }

  lemma TakeOneDigit(d: char, r: Text, n: int)
    requires IsDigit(d)
    ensures TakeDigits([d] + r, n) == TakeDigits(r, n * 10 + DigitValue(d))
  {
    assert ([d] + r)[1..] == r;
  }
}
