/**
 * Spreadsheet coordinates as text ("AA12"): column letters in bijective
 * base 26, the decimal row number, and the two parsers the locator in
 * app/modules/utils.py relies on (`_sorting_key`, and openpyxl's
 * `coordinate_from_string` with `column_index_from_string`).
 */
module Coordinates {
  import opened Wrappers
  import opened Cells

  predicate IsUpper(ch: char) {
    'A' <= ch <= 'Z'
  }

  /** `str.isalpha`, restricted to ASCII letters. */
  predicate IsAlpha(ch: char) {
    'A' <= ch <= 'Z' || 'a' <= ch <= 'z'
  }

  /** `str.isdigit`, restricted to ASCII digits. */
  predicate IsDigit(ch: char) {
    '0' <= ch <= '9'
  }

  predicate AllUpper(s: string) {
    forall k :: 0 <= k < |s| ==> IsUpper(s[k])
  }

  predicate AllDigits(s: string) {
    forall k :: 0 <= k < |s| ==> IsDigit(s[k])
  }

  /** `get_column_letter(c)`: 1 is "A", 26 is "Z", 27 is "AA"; 0 has no letters. */
  function ColumnLetters(c: nat): (s: string)
    ensures AllUpper(s)
    ensures |s| > 0 <==> c > 0
  {
    if c == 0 then ""
    else ColumnLetters((c - 1) / 26) + [('A' as int + (c - 1) % 26) as char]
  }

  /** `column_index_from_string(s)` for upper-case letters: the inverse of ColumnLetters. */
  function ColumnIndex(s: string): nat
    requires AllUpper(s)
  {
    if |s| == 0 then 0
    else ColumnIndex(s[..|s| - 1]) * 26 + (s[|s| - 1] as int - 'A' as int + 1)
  }

  lemma {:induction false} ColumnIndexOfLetters(c: nat)
    ensures ColumnIndex(ColumnLetters(c)) == c
  {
    if c > 0 {
      var s := ColumnLetters(c);
      assert s[..|s| - 1] == ColumnLetters((c - 1) / 26);
      ColumnIndexOfLetters((c - 1) / 26);
    }
  }

  lemma {:induction false} ColumnLettersOfIndex(s: string)
    requires AllUpper(s)
    ensures ColumnLetters(ColumnIndex(s)) == s
  {
    if |s| > 0 {
      var init := s[..|s| - 1];
      var m := ColumnIndex(init);
      var d := s[|s| - 1] as int - 'A' as int;
      assert ColumnIndex(s) - 1 == m * 26 + d;
      assert (ColumnIndex(s) - 1) / 26 == m && (ColumnIndex(s) - 1) % 26 == d;
      ColumnLettersOfIndex(init);
      assert s == init + [s[|s| - 1]];
    }
  }

  /** Distinct columns have distinct letters. */
  lemma ColumnLettersInjective(c: nat, d: nat)
    requires ColumnLetters(c) == ColumnLetters(d)
    ensures c == d
  {
    ColumnIndexOfLetters(c);
    ColumnIndexOfLetters(d);
  }

  /** The decimal numeral of n, without leading zeros. */
  function Digits(n: nat): (s: string)
    ensures AllDigits(s) && |s| > 0
  {
    if n < 10 then [('0' as int + n) as char]
    else Digits(n / 10) + [('0' as int + n % 10) as char]
  }

  /** `int(s)` for a non-empty string of decimal digits. */
  function ParseDigits(s: string): nat
    requires AllDigits(s)
  {
    if |s| == 0 then 0
    else ParseDigits(s[..|s| - 1]) * 10 + (s[|s| - 1] as int - '0' as int)
  }

  lemma {:induction false} ParseDigitsOfDigits(n: nat)
    ensures ParseDigits(Digits(n)) == n
  {
    if n >= 10 {
      var s := Digits(n);
      assert s[..|s| - 1] == Digits(n / 10);
      ParseDigitsOfDigits(n / 10);
    }
  }

  /** `cell.coordinate` of the cell at row r, column c. */
  function Coordinate(r: nat, c: nat): string {
    ColumnLetters(c) + Digits(r)
  }

  /** `''.join(filter(str.isalpha, s))` */
  function Letters(s: string): (r: string)
    ensures forall k :: 0 <= k < |r| ==> IsAlpha(r[k])
  {
    if |s| == 0 then ""
    else Letters(s[..|s| - 1]) + (if IsAlpha(s[|s| - 1]) then [s[|s| - 1]] else "")
  }

  /** `''.join(filter(str.isdigit, s))` */
  function Numerals(s: string): (r: string)
    ensures AllDigits(r)
  {
    if |s| == 0 then ""
    else Numerals(s[..|s| - 1]) + (if IsDigit(s[|s| - 1]) then [s[|s| - 1]] else "")
  }

  lemma {:induction false} LettersConcat(a: string, b: string)
    ensures Letters(a + b) == Letters(a) + Letters(b)
    ensures Numerals(a + b) == Numerals(a) + Numerals(b)
  {
    if |b| > 0 {
      var ab := a + b;
      assert ab[..|ab| - 1] == a + b[..|b| - 1];
      LettersConcat(a, b[..|b| - 1]);
    } else {
      assert a + b == a;
    }
  }

  lemma {:induction false} LettersOfUpper(s: string)
    requires AllUpper(s)
    ensures Letters(s) == s && Numerals(s) == ""
  {
    if |s| > 0 {
      LettersOfUpper(s[..|s| - 1]);
      assert s == s[..|s| - 1] + [s[|s| - 1]];
    }
  }

  lemma {:induction false} LettersOfDigits(s: string)
    requires AllDigits(s)
    ensures Letters(s) == "" && Numerals(s) == s
  {
    if |s| > 0 {
      LettersOfDigits(s[..|s| - 1]);
      assert s == s[..|s| - 1] + [s[|s| - 1]];
    }
  }

  /**
   * `_sorting_key(coordinate)`: the letters and the number the digits spell;
   * `int('')` raises when there are no digits.
   */
  function SortingKey(coord: string): (r: Outcome<(string, nat)>)
    ensures r.Success? <==> |Numerals(coord)| > 0
    ensures r.Failure? ==> r.error == NotANumber
    ensures r.Success? ==> r.value.0 == Letters(coord)
  {
    var digits := Numerals(coord);
    if |digits| == 0 then Failure(NotANumber) else Success((Letters(coord), ParseDigits(digits)))
  }

  /** Sorting a cell's coordinate by `_sorting_key` sorts it by (column letters, row). */
  lemma SortingKeyOfCoordinate(r: nat, c: nat)
    ensures SortingKey(Coordinate(r, c)) == Success((ColumnLetters(c), r))
  {
    LettersConcat(ColumnLetters(c), Digits(r));
    LettersOfUpper(ColumnLetters(c));
    LettersOfDigits(Digits(r));
    ParseDigitsOfDigits(r);
    var coord := Coordinate(r, c);
    assert ColumnLetters(c) + "" == ColumnLetters(c);
    assert "" + Digits(r) == Digits(r);
    assert Letters(coord) == ColumnLetters(c);
    assert Numerals(coord) == Digits(r);
    assert |Numerals(coord)| > 0;
    assert SortingKey(coord) == Success((Letters(coord), ParseDigits(Numerals(coord))));
  }

  /** Length of the longest prefix of upper-case letters. */
  function LeadingLetters(s: string): (n: nat)
    ensures n <= |s| && AllUpper(s[..n])
    ensures n < |s| ==> !IsUpper(s[n])
  {
    if |s| == 0 || !IsUpper(s[0]) then 0
    else
      var n := LeadingLetters(s[1..]);
      assert s[..n + 1] == [s[0]] + s[1..][..n];
      n + 1
  }

  /**
   * `coordinate_from_string` then `column_index_from_string`: one to three
   * upper-case letters followed by a row number of at least 1, read as
   * (row, column); anything else is refused.
   */
  function ParseCoordinate(coord: string): (r: Outcome<(nat, nat)>)
    ensures r.Success? ==> 1 <= r.value.0 && 1 <= r.value.1 <= 18278
    ensures r.Failure? ==> r.error == BadCoordinate
  {
    var n := LeadingLetters(coord);
    var letters, digits := coord[..n], coord[n..];
    if n == 0 || n > 3 || |digits| == 0 || !AllDigits(digits) then Failure(BadCoordinate)
    else
      var row := ParseDigits(digits);
      if row == 0 then Failure(BadCoordinate)
      else
        LettersBound(letters);
        Success((row, ColumnIndex(letters)))
  }

  /** One to three letters name a column from 1 to 18278 ("ZZZ"). */
  lemma {:induction false} LettersBound(s: string)
    requires AllUpper(s) && |s| <= 3
    ensures ColumnIndex(s) <= if |s| == 0 then 0 else if |s| == 1 then 26 else if |s| == 2 then 702 else 18278
    ensures |s| > 0 ==> ColumnIndex(s) >= 1
  {
    if |s| > 0 {
      LettersBound(s[..|s| - 1]);
    }
  }

  /** `ColumnLetters(c)` has at most three letters exactly when c <= 18278. */
  lemma {:induction false} ShortLetters(c: nat)
    ensures |ColumnLetters(c)| <= 3 <==> c <= 18278
  {
    if c > 0 {
      ShortLetters((c - 1) / 26);
    }
  }

  /** Parsing a cell's own coordinate gives its row and column back. */
  lemma ParseCoordinateRoundTrip(r: nat, c: nat)
    requires r >= 1 && 1 <= c <= 18278
    ensures ParseCoordinate(Coordinate(r, c)) == Success((r, c))
  {
    var letters, digits := ColumnLetters(c), Digits(r);
    var coord := letters + digits;
    ShortLetters(c);
    assert coord[..|letters|] == letters && coord[|letters|..] == digits;
    assert LeadingLetters(coord) == |letters| by {
      LeadingLettersOfPrefix(letters, digits);
    }
    ParseDigitsOfDigits(r);
    ColumnIndexOfLetters(c);
  }

  lemma {:induction false} LeadingLettersOfPrefix(letters: string, rest: string)
    requires AllUpper(letters)
    requires |rest| > 0 ==> !IsUpper(rest[0])
    ensures LeadingLetters(letters + rest) == |letters|
  {
    if |letters| > 0 {
      assert (letters + rest)[1..] == letters[1..] + rest;
      LeadingLettersOfPrefix(letters[1..], rest);
    }
  }
}
