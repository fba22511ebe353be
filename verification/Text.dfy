/** Strings of bytes: every `char` stands for one byte of the source's UTF-8 text.
    Character classes, first-occurrence search, splitting, and decimal numerals. */
module Text {

  datatype Option<+T> = None | Some(value: T)

  /** Bounds of the source's signed 64-bit Unix times. */
  const I64_MIN: int := -0x8000_0000_0000_0000
  const I64_MAX: int := 0x7fff_ffff_ffff_ffff

  type I64 = x: int | I64_MIN <= x <= I64_MAX

  type Byte = b: int | 0 <= b < 256

  /** Every character is a byte. */
  predicate IsBytes(s: string) {
    forall i :: 0 <= i < |s| ==> s[i] as int < 256
  }

  predicate IsDigit(c: char) { '0' <= c <= '9' }

  predicate IsUpper(c: char) { 'A' <= c <= 'Z' }

  predicate IsLower(c: char) { 'a' <= c <= 'z' }

  /** Characters of a token in HTTP, section 5.6.2 of RFC 9110. */
  predicate IsToken(c: char) {
    IsDigit(c) || IsUpper(c) || IsLower(c) || c in "!#$%&'*+-.^_`|~"
  }

  /** The same from the other side: visible, and none of the delimiters of section 5.6.2 of RFC 9110. */
  lemma TokenClass(c: char)
    ensures IsToken(c) <==> '!' <= c <= '~' && c !in "\"(),/:;<=>?@[\\]{}"
  {
  }

  predicate AllDigits(s: string) {
    forall i :: 0 <= i < |s| ==> IsDigit(s[i])
  }

  function LowerChar(c: char): char {
    if IsUpper(c) then c + ' ' else c
  }

  function Lower(s: string): (r: string)
    ensures |r| == |s|
  {
    seq(|s|, i requires 0 <= i < |s| => LowerChar(s[i]))
  }

  /** Exactly the twenty-six capital letters change, each to its small letter. */
  lemma LowerLetters(c: char)
    ensures var capitals, small := "ABCDEFGHIJKLMNOPQRSTUVWXYZ", "abcdefghijklmnopqrstuvwxyz";
            && (c !in capitals ==> LowerChar(c) == c)
            && forall i :: 0 <= i < 26 ==> LowerChar(capitals[i]) == small[i]
  {
    var capitals, small := "ABCDEFGHIJKLMNOPQRSTUVWXYZ", "abcdefghijklmnopqrstuvwxyz";
    assert forall i :: 0 <= i < 26 ==> capitals[i] == 'A' + i as char && small[i] == 'a' + i as char;
    if IsUpper(c) {
      assert capitals[(c - 'A') as int] == c;
    }
  }

  lemma LowerConcat(a: string, b: string)
    ensures Lower(a + b) == Lower(a) + Lower(b)
  {
  }

  lemma ConcatAssociative(a: string, b: string, c: string)
    ensures a + (b + c) == (a + b) + c
  {
  }

  predicate HasPrefix(s: string, p: string) {
    |p| <= |s| && s[..|p|] == p
  }

  /** Index of the first character of `s` that lies in `needles`, or `|s|`. */
  function FindFirst(s: string, needles: set<char>): (k: nat)
    ensures k <= |s|
    ensures forall i :: 0 <= i < k ==> s[i] !in needles
    ensures k < |s| ==> s[k] in needles
  {
    if s == "" || s[0] in needles then 0 else 1 + FindFirst(s[1..], needles)
  }

  lemma FindFirstIs(s: string, needles: set<char>, k: nat)
    requires k <= |s|
    requires forall i :: 0 <= i < k ==> s[i] !in needles
    requires k < |s| ==> s[k] in needles
    ensures FindFirst(s, needles) == k
  {
    var _ := FindFirst(s, needles);
  }

  predicate Excludes(s: string, bad: set<char>) {
    forall i :: 0 <= i < |s| ==> s[i] !in bad
  }

  /** The pieces of `s` between occurrences of `sep`; never empty. */
  function Split(s: string, sep: char): (r: seq<string>)
    ensures |r| >= 1
    ensures forall i :: 0 <= i < |r| ==> Excludes(r[i], {sep})
  {
    if s == "" then [""]
    else
      var rest := Split(s[1..], sep);
      if s[0] == sep then [""] + rest else [[s[0]] + rest[0]] + rest[1..]
  }

  /** Splitting peels off the text up to the first separator. */
  lemma {:induction false} SplitFirst(s: string, sep: char)
    ensures var k := FindFirst(s, {sep});
            Split(s, sep) == [s[..k]] + (if k < |s| then Split(s[k + 1..], sep) else [])
  {
    if s != "" && s[0] != sep {
      SplitFirst(s[1..], sep);
      var k := FindFirst(s[1..], {sep});
      assert s[..k + 1] == [s[0]] + s[1..][..k];
      if k < |s[1..]| {
        assert s[k + 2..] == s[1..][k + 1..];
      }
    }
  }

  function Digit(d: nat): (c: char)
    requires d < 10
    ensures IsDigit(c)
  {
    '0' + d as char
  }

  lemma DigitTable(d: nat)
    requires d < 10
    ensures Decimal(d) == ["0123456789"[d]]
  {
    assert forall i :: 0 <= i < 10 ==> "0123456789"[i] == '0' + i as char;
  }

  /** Decimal numeral without leading zeros. */
  function Decimal(n: nat): (s: string)
    ensures |s| >= 1 && AllDigits(s)
  {
    if n < 10 then [Digit(n)] else Decimal(n / 10) + [Digit(n % 10)]
  }

  /** Value of a string of decimal digits, leading zeros allowed. */
  function DecimalValue(s: string): nat
    requires AllDigits(s)
  {
    if s == "" then 0 else 10 * DecimalValue(s[..|s| - 1]) + (s[|s| - 1] - '0') as nat
  }

  lemma {:induction false} DecimalRoundTrip(n: nat)
    ensures DecimalValue(Decimal(n)) == n
  {
    var s := Decimal(n);
    if n >= 10 {
      DecimalRoundTrip(n / 10);
      assert s[..|s| - 1] == Decimal(n / 10);
    } else {
      assert s[..0] == "";
    }
  }

  /** Printing a parsed numeral never makes it longer: only leading zeros disappear. */
  lemma {:induction false} DecimalNotLonger(s: string)
    requires s != "" && AllDigits(s)
    ensures |Decimal(DecimalValue(s))| <= |s|
  {
    if |s| > 1 {
      DecimalNotLonger(s[..|s| - 1]);
    } else {
      assert s[..0] == "";
    }
  }

  /** Exactly the leading zeros disappear. */
  lemma {:induction false} DecimalWithoutZeros(s: string)
    requires s != "" && AllDigits(s)
    ensures s[0] != '0' ==> DecimalValue(s) > 0 && |Decimal(DecimalValue(s))| == |s|
    ensures |s| == 1 ==> |Decimal(DecimalValue(s))| == 1
  {
    if |s| > 1 {
      DecimalWithoutZeros(s[..|s| - 1]);
    } else {
      assert s[..0] == "";
    }
  }

  lemma {:induction false} LeadingZero(s: string)
    requires |s| > 1 && AllDigits(s) && s[0] == '0'
    ensures DecimalValue(s) == DecimalValue(s[1..]) && |Decimal(DecimalValue(s))| < |s|
  {
    if |s| > 2 {
      LeadingZero(s[..|s| - 1]);
      assert s[1..][..|s| - 2] == s[..|s| - 1][1..];
    } else {
      assert s[..1] == "0" && s[1..][..0] == "" && "0"[..0] == "";
    }
    DecimalNotLonger(s[1..]);
  }

  function Pow10(k: nat): (p: nat)
    ensures p >= 1
  {
    if k == 0 then 1 else 10 * Pow10(k - 1)
  }

  lemma {:induction false} DecimalLength(n: nat, k: nat)
    requires k >= 1 && n < Pow10(k)
    ensures |Decimal(n)| <= k
  {
    if n >= 10 {
      DecimalLength(n / 10, k - 1);
    }
  }

  /** Every I64 prints in at most nineteen digits. */
  lemma I64Digits(n: nat)
    requires n <= -I64_MIN
    ensures |Decimal(n)| <= 19
  {
    assert Pow10(4) == 10_000;
    assert Pow10(8) == 100_000_000;
    assert Pow10(12) == 1_000_000_000_000;
    assert Pow10(16) == 10_000_000_000_000_000;
    assert Pow10(19) == 10_000_000_000_000_000_000;
    DecimalLength(n, 19);
  }
}
