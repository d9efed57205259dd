/** The usual optional-value datatype. */
module Wrappers {
  datatype Option<+T> = None | Some(value: T)
}

/**
  Camelot-wheel codes: parsing a code such as "8A" into its number and
  letter, rendering a code back as text, and the 0-3 harmonic
  compatibility score of two codes.
 */
module Camelot {
  import opened Wrappers

  /** A parsed code: the integer prefix and the final letter. */
  datatype Code = Code(number: int, letter: char)

  /** One of the 24 codes of the wheel: positions 1..12, letter A (minor) or B (major). */
  predicate ValidCode(c: Code) {
    1 <= c.number <= 12 && (c.letter == 'A' || c.letter == 'B')
  }

  predicate IsDigit(ch: char) { '0' <= ch <= '9' }

  predicate AllDigits(s: string) {
    forall i :: 0 <= i < |s| ==> IsDigit(s[i])
  }

  /** Decimal value of a digit string, most significant digit first. */
  function DigitsValue(s: string): nat
    requires AllDigits(s)
  {
    if s == [] then 0
    else 10 * DigitsValue(s[..|s| - 1]) + (s[|s| - 1] as int - '0' as int)
  }

  /** Decimal rendering of a natural number, without leading zeros. */
  function NatToDigits(n: nat): (s: string)
    ensures s != [] && AllDigits(s)
  {
    if n < 10 then [('0' as int + n) as char]
    else NatToDigits(n / 10) + [('0' as int + n % 10) as char]
  }

  /**
    The part of `int(...)` used on a code prefix: a non-empty string of
    ASCII digits.
   */
  predicate IsNumeral(s: string) {
    s != [] && AllDigits(s)
  }

  /**
    extrair_camelot: everything but the last character is read as an
    integer, the last character is the letter. A key whose prefix is not
    a numeral (the empty key, a bare letter, "xA") has no code.
   */
  function ExtractCamelot(key: string): (r: Option<Code>)
    ensures r.Some? <==> |key| >= 2 && IsNumeral(key[..|key| - 1])
    ensures r.Some? ==> r.value.letter == key[|key| - 1] && r.value.number >= 0
  {
    if |key| >= 2 && IsNumeral(key[..|key| - 1]) then
      Some(Code(DigitsValue(key[..|key| - 1]), key[|key| - 1]))
    else
      None
  }

  /** The text of a code: its number in decimal followed by its letter. */
  function FormatCode(c: Code): string
    requires c.number >= 0
  {
    NatToDigits(c.number) + [c.letter]
  }

  predicate Parses(key: string) {
    ExtractCamelot(key).Some?
  }

  function Parsed(key: string): Code
    requires Parses(key)
  {
    ExtractCamelot(key).value
  }

  lemma {:induction false} DigitsRoundTrip(n: nat)
    ensures DigitsValue(NatToDigits(n)) == n
  {
    if n >= 10 {
      DigitsRoundTrip(n / 10);
      var s := NatToDigits(n);
      assert s[..|s| - 1] == NatToDigits(n / 10);
    }
  }

  /** A numeral's value is positive when its first digit is not '0'. */
  lemma {:induction false} LeadingDigitPositive(s: string)
    requires IsNumeral(s) && s[0] != '0'
    ensures DigitsValue(s) > 0
  {
    if |s| > 1 {
      LeadingDigitPositive(s[..|s| - 1]);
    }
  }

  /** A numeral without a leading zero is its own value's rendering. */
  lemma {:induction false} DigitsCanonical(s: string)
    requires IsNumeral(s) && (|s| == 1 || s[0] != '0')
    ensures NatToDigits(DigitsValue(s)) == s
  {
    var v := DigitsValue(s);
    if |s| > 1 {
      var p := s[..|s| - 1];
      LeadingDigitPositive(p);
      DigitsCanonical(p);
      assert v / 10 == DigitsValue(p);
      assert s == p + [s[|s| - 1]];
    }
  }

  /**
    Parsing a rendered code gives the code back; in particular every
    wheel code such as "12B" parses to its number and letter (12, 'B').
   */
  lemma ExtractFormatRoundTrip(c: Code)
    requires c.number >= 0
    ensures ExtractCamelot(FormatCode(c)) == Some(c)
  {
    var s := FormatCode(c);
    assert s[..|s| - 1] == NatToDigits(c.number);
    DigitsRoundTrip(c.number);
  }

  /** Examples: "12B" is position 12 with letter B, "8A" position 8 with letter A. */
  lemma ExtractExamples()
    ensures ExtractCamelot("12B") == Some(Code(12, 'B'))
    ensures ExtractCamelot("8A") == Some(Code(8, 'A'))
  {
    ExtractFormatRoundTrip(Code(12, 'B'));
    assert FormatCode(Code(12, 'B')) == "12B";
    ExtractFormatRoundTrip(Code(8, 'A'));
    assert FormatCode(Code(8, 'A')) == "8A";
  }

  /**
    Conversely, a key that parses and has no leading zero in its prefix
    is exactly the rendering of what it parses to.
   */
  lemma FormatExtractRoundTrip(key: string)
    requires Parses(key)
    requires key[0] != '0' || |key| == 2
    ensures Parsed(key).number >= 0 && FormatCode(Parsed(key)) == key
  {
    var p := key[..|key| - 1];
    DigitsCanonical(p);
    assert key == p + [key[|key| - 1]];
  }

  function Abs(x: int): nat { if x < 0 then -x else x }

  function SortedPair(a: int, b: int): seq<int> { if a <= b then [a, b] else [b, a] }

  /**
    Neighbouring wheel numbers: they differ by one, or they are 1 and 12,
    which the wheel's cycle makes adjacent.
   */
  predicate Adjacent(a: int, b: int) {
    a - b == 1 || b - a == 1 || (a == 1 && b == 12) || (a == 12 && b == 1)
  }

  /** On the wheel itself, adjacency is being the cyclic successor of one another. */
  lemma AdjacentOnWheel(a: int, b: int)
    requires 1 <= a <= 12 && 1 <= b <= 12
    ensures Adjacent(a, b) <==> (a % 12 + 1 == b || b % 12 + 1 == a)
  {
    if a == 12 || b == 12 {
    } else {
      assert a % 12 == a && b % 12 == b;
    }
  }

  /**
    calcular_pontuacao_harmonica: 3 for a neighbour with the same letter,
    2 for the same number with the other letter, 1 for a neighbour with
    the other letter, 0 otherwise.
   */
  function HarmonicScore(keyCurrent: string, keyCandidate: string): (r: int)
    requires Parses(keyCurrent) && Parses(keyCandidate)
    ensures 0 <= r <= 3
    ensures var cur, cand := Parsed(keyCurrent), Parsed(keyCandidate);
      && (r == 3 <==> cur.letter == cand.letter && Adjacent(cur.number, cand.number))
      && (r == 2 <==> cur.letter != cand.letter && cur.number == cand.number)
      && (r == 1 <==> cur.letter != cand.letter && Adjacent(cur.number, cand.number))
      && (r == 0 <==> !Adjacent(cur.number, cand.number)
                      && (cur.letter == cand.letter || cur.number != cand.number))
  {
    var cur, cand := Parsed(keyCurrent), Parsed(keyCandidate);
    if cur.letter == cand.letter && Abs(cur.number - cand.number) == 1 then 3
    else if cur.letter == cand.letter && SortedPair(cur.number, cand.number) == [1, 12] then 3
    else if cur.number == cand.number && cur.letter != cand.letter then 2
    else if cur.letter != cand.letter && Abs(cur.number - cand.number) == 1 then 1
    else if cur.letter != cand.letter && SortedPair(cur.number, cand.number) == [1, 12] then 1
    else 0
  }

  /** The score does not depend on which code is the current one. */
  lemma HarmonicScoreSymmetric(a: string, b: string)
    requires Parses(a) && Parses(b)
    ensures HarmonicScore(a, b) == HarmonicScore(b, a)
  {
  }

  /** A code is not compatible with itself under this rule. */
  lemma SameCodeScoresZero(a: string)
    requires Parses(a)
    ensures HarmonicScore(a, a) == 0
  {
  }

  /** The wrap-around pairs of the wheel score like any other neighbours. */
  lemma CyclicNeighbours()
    ensures HarmonicScore("12A", "1A") == 3 && HarmonicScore("1A", "2A") == 3
    ensures HarmonicScore("12A", "1B") == 1 && HarmonicScore("1A", "2B") == 1
  {
    ExtractFormatRoundTrip(Code(12, 'A'));
    assert FormatCode(Code(12, 'A')) == "12A";
    ExtractFormatRoundTrip(Code(1, 'A'));
    assert FormatCode(Code(1, 'A')) == "1A";
    ExtractFormatRoundTrip(Code(2, 'A'));
    assert FormatCode(Code(2, 'A')) == "2A";
    ExtractFormatRoundTrip(Code(1, 'B'));
    assert FormatCode(Code(1, 'B')) == "1B";
    ExtractFormatRoundTrip(Code(2, 'B'));
    assert FormatCode(Code(2, 'B')) == "2B";
  }
}
