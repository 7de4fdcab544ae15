/** The expected taxpayer identifier (RFC) that the form derives from the
    names and the birth date: a simplified approximation of the Mexican RFC,
    not the tax authority's algorithm. */
module Rfc {
  import opened JsStrings
  import opened AgeGate

  /** The fixed placeholder that stands for the homonymy key. */
  const HomoKey := "xxx"

  /** Interpolating `s[0]` into a template: the first character, or the text
      "undefined" that JavaScript produces when `s` is empty. */
  function FirstChar(s: string): string {
    if |s| > 0 then [s[0]] else "undefined"
  }

  /** A character of the regular-expression class `[AEIOUaeiou]`. */
  predicate IsVowel(c: char) { c in "AEIOUaeiou" }

  /** `s.match(/[AEIOUaeiou]/)?.[0] || ""`: the earliest vowel of `s`, of
      either case, or the empty string when `s` has none. */
  function FirstVowel(s: string): (r: string)
    ensures |r| <= 1
    ensures r == "" <==> forall i :: 0 <= i < |s| ==> !IsVowel(s[i])
    ensures r != "" ==> exists i :: 0 <= i < |s| && r == [s[i]] && IsVowel(s[i])
                                   && forall j :: 0 <= j < i ==> !IsVowel(s[j])
  {
    if s == [] then ""
    else if IsVowel(s[0]) then [s[0]]
    else
      var r := FirstVowel(s[1..]);
      assert forall i :: 1 <= i < |s| ==> s[i] == s[1..][i - 1];
      if r != "" then
        var k :| 0 <= k < |s[1..]| && r == [s[1..][k]] && IsVowel(s[1..][k])
                 && forall j :: 0 <= j < k ==> !IsVowel(s[1..][j]);
        assert r == [s[k + 1]] && forall j :: 0 <= j < k + 1 ==> !IsVowel(s[j]);
        r
      else r
  }

  /** The letter block: father's initial, the first vowel of the father's
      surname, mother's initial and the first name's initial, upper-cased. */
  function LetterPart(firstName: string, fatherLastName: string, motherLastName: string): string {
    ToUpperCase(FirstChar(fatherLastName) + FirstVowel(fatherLastName)
                + FirstChar(motherLastName) + FirstChar(firstName))
  }

  /** The date block: the last two characters of the year, the 1-based month
      padded to two digits and the day plus one padded to two digits. */
  function DatePart(birth: Date): string {
    SliceLast(IntToString(birth.year), 2)
    + PadStart(IntToString(birth.month0 + 1), 2, '0')
    + PadStart(IntToString(birth.day + 1), 2, '0')
  }

  /** The whole identifier: letters, date and the placeholder suffix. */
  function GenerateRFC(firstName: string, fatherLastName: string, motherLastName: string, birth: Date): string {
    LetterPart(firstName, fatherLastName, motherLastName) + DatePart(birth) + HomoKey
  }

  /** The identifier ends with the placeholder, and dropping its last three
      characters leaves exactly the letter and date blocks. */
  lemma GenerateRFCSuffix(firstName: string, fatherLastName: string, motherLastName: string, birth: Date)
    ensures var r := GenerateRFC(firstName, fatherLastName, motherLastName, birth);
      |r| >= 3 && r[|r| - 3..] == HomoKey
      && SliceDropLast(r, 3) == LetterPart(firstName, fatherLastName, motherLastName) + DatePart(birth)
  {
    SliceDropLastAppend(LetterPart(firstName, fatherLastName, motherLastName) + DatePart(birth), HomoKey, 3);
  }

  /** An upper-cased vowel is a capital vowel. */
  lemma UpperVowel(c: char)
    requires IsVowel(c)
    ensures UpperChar(c) in "AEIOU"
  {
  }

  lemma ToUpperCaseSingle(c: char)
    ensures ToUpperCase([c]) == [UpperChar(c)]
  {
  }

  /** The letter block, character by character. */
  lemma LetterPartBlocks(firstName: string, fatherLastName: string, motherLastName: string)
    requires firstName != "" && fatherLastName != "" && motherLastName != ""
    ensures LetterPart(firstName, fatherLastName, motherLastName)
            == [UpperChar(fatherLastName[0])] + ToUpperCase(FirstVowel(fatherLastName))
               + [UpperChar(motherLastName[0]), UpperChar(firstName[0])]
  {
    var v := FirstVowel(fatherLastName);
    var f, m, n := fatherLastName[0], motherLastName[0], firstName[0];
    calc {
      LetterPart(firstName, fatherLastName, motherLastName);
      ToUpperCase([f] + v + [m] + [n]);
      { ToUpperCaseConcat([f] + v + [m], [n]); }
      ToUpperCase([f] + v + [m]) + ToUpperCase([n]);
      { ToUpperCaseConcat([f] + v, [m]); }
      ToUpperCase([f] + v) + ToUpperCase([m]) + ToUpperCase([n]);
      { ToUpperCaseConcat([f], v); }
      ToUpperCase([f]) + ToUpperCase(v) + ToUpperCase([m]) + ToUpperCase([n]);
      { ToUpperCaseSingle(f); ToUpperCaseSingle(m); ToUpperCaseSingle(n); }
      [UpperChar(f)] + ToUpperCase(v) + [UpperChar(m)] + [UpperChar(n)];
    }
  }

  /** An initial as it appears in the letter block: the upper-cased first
      character, or "UNDEFINED" for an empty name. */
  lemma FirstCharUpper(s: string)
    ensures ToUpperCase(FirstChar(s)) == if s == "" then "UNDEFINED" else [UpperChar(s[0])]
  {
    if s == "" {
      UndefinedUpper();
    }
  }

  lemma UndefinedUpper()
    ensures ToUpperCase("undefined") == "UNDEFINED"
  {
    var u := ToUpperCase("undefined");
    assert |u| == 9;
    assert u[0] == 'U' && u[1] == 'N' && u[2] == 'D' && u[3] == 'E' && u[4] == 'F';
    assert u[5] == 'I' && u[6] == 'N' && u[7] == 'E' && u[8] == 'D';
  }

  /** With an empty father's surname the letter block starts with the nine
      characters "UNDEFINED", which JavaScript writes for the missing initial,
      finds no vowel, and ends with the other two initials, upper-cased. */
  lemma LetterPartEmptyFatherSurname(firstName: string, motherLastName: string)
    ensures LetterPart(firstName, "", motherLastName)
            == "UNDEFINED" + ToUpperCase(FirstChar(motherLastName)) + ToUpperCase(FirstChar(firstName))
    ensures firstName != "" && motherLastName != "" ==>
              LetterPart(firstName, "", motherLastName)
              == "UNDEFINED" + [UpperChar(motherLastName[0]), UpperChar(firstName[0])]
  {
    var u, m, n := FirstChar(""), FirstChar(motherLastName), FirstChar(firstName);
    assert FirstVowel("") == "";
    calc {
      LetterPart(firstName, "", motherLastName);
      ToUpperCase(u + "" + m + n);
      { assert u + "" + m + n == u + m + n; }
      ToUpperCase(u + m + n);
      { ToUpperCaseConcat(u + m, n); ToUpperCaseConcat(u, m); }
      ToUpperCase(u) + ToUpperCase(m) + ToUpperCase(n);
      { FirstCharUpper(""); }
      "UNDEFINED" + ToUpperCase(m) + ToUpperCase(n);
    }
    FirstCharUpper(motherLastName);
    FirstCharUpper(firstName);
  }

  /** The vowel found, upper-cased, is one capital vowel. */
  lemma FirstVowelUpper(s: string)
    requires FirstVowel(s) != ""
    ensures |ToUpperCase(FirstVowel(s))| == 1 && ToUpperCase(FirstVowel(s))[0] in "AEIOU"
  {
    var i :| 0 <= i < |s| && FirstVowel(s) == [s[i]] && IsVowel(s[i]);
    UpperVowel(s[i]);
  }

  /** With non-empty names the letter block has one character per initial,
      plus one for the vowel when the father's surname has one; each is the
      upper-cased character it comes from. */
  lemma LetterPartShape(firstName: string, fatherLastName: string, motherLastName: string)
    requires firstName != "" && fatherLastName != "" && motherLastName != ""
    ensures var l := LetterPart(firstName, fatherLastName, motherLastName);
      var v := FirstVowel(fatherLastName);
      && l[0] == UpperChar(fatherLastName[0])
      && (v == "" ==> |l| == 3)
      && (v != "" ==> |l| == 4 && l[1] in "AEIOU")
      && l[|l| - 2] == UpperChar(motherLastName[0])
      && l[|l| - 1] == UpperChar(firstName[0])
  {
    LetterPartBlocks(firstName, fatherLastName, motherLastName);
    if FirstVowel(fatherLastName) != "" {
      FirstVowelUpper(fatherLastName);
    }
  }

  /** Three two-character blocks written one after the other. */
  lemma ThreeBlocks(y: string, m: string, d: string)
    requires |y| == 2 && |m| == 2 && |d| == 2
    requires AllDigits(y) && AllDigits(m) && AllDigits(d)
    ensures var s := y + m + d;
      |s| == 6 && AllDigits(s) && s[..2] == y && s[2..4] == m && s[4..] == d
  {
    var s := y + m + d;
    assert s[..2] == y;
    assert s[2..4] == m;
    assert s[4..] == d;
    forall i | 0 <= i < 6 ensures IsDigit(s[i]) {
      if i < 2 { assert s[i] == y[i]; }
      else if i < 4 { assert s[i] == m[i - 2]; }
      else { assert s[i] == d[i - 4]; }
    }
  }

  /** For a year of at least two digits and a month and day in the ranges that
      `getMonth` and `getDate` return, the date block is six digits that read
      back, two at a time, as the year modulo 100, the 1-based month and the
      day plus one. */
  lemma DatePartDigits(birth: Date)
    requires 10 <= birth.year
    requires 0 <= birth.month0 <= 11
    requires 1 <= birth.day <= 31
    ensures var d := DatePart(birth);
      && |d| == 6 && AllDigits(d)
      && AllDigits(d[..2]) && AllDigits(d[2..4]) && AllDigits(d[4..])
      && ParseDigits(d[..2]) == birth.year % 100
      && ParseDigits(d[2..4]) == birth.month0 + 1
      && ParseDigits(d[4..]) == birth.day + 1
  {
    assert IntToString(birth.year) == NatToString(birth.year);
    assert IntToString(birth.month0 + 1) == NatToString(birth.month0 + 1);
    assert IntToString(birth.day + 1) == NatToString(birth.day + 1);
    var y := SliceLast(NatToString(birth.year), 2);
    var m := PadStart(NatToString(birth.month0 + 1), 2, '0');
    var dd := PadStart(NatToString(birth.day + 1), 2, '0');
    LastTwoDigits(birth.year);
    PadTwoDigits(birth.month0 + 1);
    PadTwoDigits(birth.day + 1);
    ThreeBlocks(y, m, dd);
    var d := DatePart(birth);
    assert d == y + m + dd;
    assert d[..2] == y && d[2..4] == m && d[4..] == dd;
  }

  /** The day is not wrapped: the 31st is written "32". */
  lemma DayThirtyOne(year: int, month0: int)
    ensures DatePart(Date(year, month0, 31))[|DatePart(Date(year, month0, 31))| - 2..] == "32"
  {
    var p := PadStart(IntToString(32), 2, '0');
    assert NatToString(32) == NatToString(3) + [DigitChar(2)];
    assert p == "32";
  }

  /** With non-empty names, a vowel in the father's surname and a year of at
      least two digits, the identifier has 13 characters. */
  lemma GenerateRFCLength(firstName: string, fatherLastName: string, motherLastName: string, birth: Date)
    requires firstName != "" && fatherLastName != "" && motherLastName != ""
    requires exists i :: 0 <= i < |fatherLastName| && IsVowel(fatherLastName[i])
    requires 10 <= birth.year
    requires 0 <= birth.month0 <= 11
    requires 1 <= birth.day <= 31
    ensures |GenerateRFC(firstName, fatherLastName, motherLastName, birth)| == 13
  {
    LetterPartShape(firstName, fatherLastName, motherLastName);
    DatePartDigits(birth);
  }

  /** A worked example: Ana Lopez Garcia, born 10 May 2000. */
  lemma ExampleAnaLopezGarcia()
    ensures GenerateRFC("Ana", "Lopez", "Garcia", Date(2000, 4, 10)) == "LOGA000511xxx"
  {
    ExampleLetters();
    ExampleDate();
    GenerateRFCJoin("Ana", "Lopez", "Garcia", Date(2000, 4, 10), "LOGA", "000511");
    ExampleJoin();
  }

  lemma GenerateRFCJoin(firstName: string, fatherLastName: string, motherLastName: string, birth: Date,
                        letters: string, date: string)
    requires LetterPart(firstName, fatherLastName, motherLastName) == letters
    requires DatePart(birth) == date
    ensures GenerateRFC(firstName, fatherLastName, motherLastName, birth) == letters + date + "xxx"
  {
  }

  lemma ExampleLetters()
    ensures LetterPart("Ana", "Lopez", "Garcia") == "LOGA"
  {
    assert FirstVowel("Lopez") == "o" by {
      assert "Lopez"[1..] == "opez";
    }
    LetterPartBlocks("Ana", "Lopez", "Garcia");
    ToUpperCaseSingle('o');
  }

  /** `PadStart(s, 2, '0')` of a single digit. */
  lemma PadOneDigit(c: char)
    ensures PadStart([c], 2, '0') == ['0', c]
  {
    var p := PadStart([c], 2, '0');
    assert p[1..] == [c];
    assert p[0] == '0' && p[1] == c;
  }

  lemma ExampleDate()
    ensures DatePart(Date(2000, 4, 10)) == "000511"
  {
    var y := NatToString(2000);
    assert y == NatToString(200) + [DigitChar(0)];
    assert NatToString(200) == NatToString(20) + [DigitChar(0)];
    assert NatToString(20) == NatToString(2) + [DigitChar(0)];
    assert y == [DigitChar(2), DigitChar(0), DigitChar(0), DigitChar(0)];
    assert SliceLast(y, 2) == "00";
    assert NatToString(11) == NatToString(1) + [DigitChar(1)];
    assert PadStart(NatToString(11), 2, '0') == "11";
    assert NatToString(5) == "5";
    PadOneDigit('5');
    assert DatePart(Date(2000, 4, 10)) == "00" + "05" + "11";
    ExampleDateJoin();
  }

  // The two literal joins below are separate lemmas so that the examples'
  // proofs do not unfold the string functions applied to literals.
  lemma ExampleJoin()
    ensures "LOGA" + "000511" + "xxx" == "LOGA000511xxx"
  {
  }

  lemma ExampleDateJoin()
    ensures "00" + "05" + "11" == "000511"
  {
  }
}
