/** Spreadsheet column names: bijective base 26 over the letters 'A'..'Z', with no zero
    digit (1 is "A", 26 is "Z", 27 is "AA", 702 is "ZZ", 705 is "AAC"). */
module ColumnCodec {

  /** Character code of 'A', the letter for the remainder 0. */
  const BaseChar: char := 'A'
  /** Number of letters, and the column number of "Z". */
  const ColumnNumberZ: int := 26

  predicate IsLetter(c: char) {
    'A' <= c <= 'Z'
  }

  /** A column name: at least one letter, and only upper-case letters. */
  predicate IsColumnName(s: string) {
    |s| > 0 && forall i :: 0 <= i < |s| ==> IsLetter(s[i])
  }

  /** `String.fromCharCode(baseChar + d)` for a remainder `d` of a division by 26. */
  function Letter(d: int): (c: char)
    requires 0 <= d < ColumnNumberZ
    ensures IsLetter(c)
  {
    (BaseChar as int + d) as char
  }

  /** The name of column `n`: the letter for `(n - 1) % 26` comes last, and it is preceded
      by the name of column `(n - 1) / 26` when that quotient is not 0. */
  function Name(n: int): (r: string)
    requires n >= 1
    ensures IsColumnName(r)
    decreases n
  {
    var q, d := (n - 1) / ColumnNumberZ, (n - 1) % ColumnNumberZ;
    if q > 0 then Name(q) + [Letter(d)] else [Letter(d)]
  }

  /** The value of one letter: `parseInt(c, 36) - 9`, where `parseInt` reads 'A'..'Z'
      as the base-36 digits 10..35. */
  function Digit(c: char): (d: int)
    requires IsLetter(c)
    ensures 1 <= d <= ColumnNumberZ
  {
    (c as int - 'A' as int + 10) - 9
  }

  /** `letters.split('').reduce((r, a) => r * 26 + parseInt(a, 36) - 9, 0)`: a left fold,
      so the last letter is the least significant digit. */
  function ColumnNameToNumber(letters: string): (v: int)
    requires forall i :: 0 <= i < |letters| ==> IsLetter(letters[i])
    ensures v >= 0
    ensures letters != [] ==> v >= 1
    decreases |letters|
  {
    if letters == [] then 0
    else ColumnNameToNumber(letters[..|letters| - 1]) * ColumnNumberZ + Digit(letters[|letters| - 1])
  }

  /** Horner step of the fold: appending a letter multiplies by 26 and adds its digit. */
  lemma HornerStep(s: string, c: char)
    requires forall i :: 0 <= i < |s| ==> IsLetter(s[i])
    requires IsLetter(c)
    ensures ColumnNameToNumber(s + [c]) == 26 * ColumnNameToNumber(s) + Digit(c)
  {
    assert (s + [c])[..|s + [c]| - 1] == s;
  }

  lemma DigitOfLetter(d: int)
    requires 0 <= d < ColumnNumberZ
    ensures Digit(Letter(d)) == d + 1
  {
  }

  lemma LetterOfDigit(c: char)
    requires IsLetter(c)
    ensures Letter(Digit(c) - 1) == c
  {
  }

  /** Round trip: reading back the name of column `n` gives `n`. */
  lemma {:induction false} NumberNameRoundTrip(n: int)
    requires n >= 1
    ensures ColumnNameToNumber(Name(n)) == n
    decreases n
  {
    var q, d := (n - 1) / ColumnNumberZ, (n - 1) % ColumnNumberZ;
    DigitOfLetter(d);
    if q > 0 {
      NumberNameRoundTrip(q);
      HornerStep(Name(q), Letter(d));
    } else {
      HornerStep([], Letter(d));
      assert [] + [Letter(d)] == [Letter(d)];
    }
  }

  /** Converse round trip: every column name is the name of the number it reads as. */
  lemma {:induction false} NameNumberRoundTrip(s: string)
    requires IsColumnName(s)
    ensures Name(ColumnNameToNumber(s)) == s
    decreases |s|
  {
    var p, c := s[..|s| - 1], s[|s| - 1];
    assert s == p + [c];
    var v, w := ColumnNameToNumber(s), ColumnNameToNumber(p);
    HornerStep(p, c);
    LetterOfDigit(c);
    assert (v - 1) / ColumnNumberZ == w && (v - 1) % ColumnNumberZ == Digit(c) - 1;
    if p != [] {
      NameNumberRoundTrip(p);
    }
  }

  /** Distinct column numbers have distinct names. */
  lemma NameInjective(m: int, n: int)
    requires m >= 1 && n >= 1
    requires Name(m) == Name(n)
    ensures m == n
  {
    NumberNameRoundTrip(m);
    NumberNameRoundTrip(n);
  }

  /** Exactly the columns 1..26 have one-letter names. */
  lemma {:induction false} SingleLetterNames(n: int)
    requires n >= 1
    ensures |Name(n)| == 1 <==> n <= ColumnNumberZ
  {
    var q := (n - 1) / ColumnNumberZ;
    if q > 0 {
      assert |Name(n)| == |Name(q)| + 1;
    }
  }

  /** The names the client's test tables expect, and "CV", the last of the 100 header
      columns the client reads. */
  lemma NameExamples()
    ensures Name(1) == "A" && Name(26) == "Z" && Name(51) == "AY" && Name(52) == "AZ"
    ensures Name(80) == "CB" && Name(676) == "YZ" && Name(702) == "ZZ" && Name(705) == "AAC"
    ensures Name(100) == "CV"
  {
  }

  lemma ColumnNameToNumberExamples()
    ensures ColumnNameToNumber("A") == 1 && ColumnNameToNumber("Z") == 26
    ensures ColumnNameToNumber("AY") == 51 && ColumnNameToNumber("AZ") == 52
    ensures ColumnNameToNumber("CB") == 80 && ColumnNameToNumber("YZ") == 676
    ensures ColumnNameToNumber("ZZ") == 702 && ColumnNameToNumber("AAC") == 705
  {
  }
}
