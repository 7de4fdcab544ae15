/** The JavaScript string built-ins that the user form relies on (`toUpperCase`,
    `slice` with negative bounds, `padStart`, `Number.prototype.toString`),
    stated over `seq<char>`. Upper-casing is restricted to ASCII letters. */
module JsStrings {

  predicate IsDigit(c: char) { '0' <= c <= '9' }

  predicate AllDigits(s: string) { forall i :: 0 <= i < |s| ==> IsDigit(s[i]) }

  predicate IsLowerAscii(c: char) { 'a' <= c <= 'z' }

  predicate IsUpperAscii(c: char) { 'A' <= c <= 'Z' }

  /** `toUpperCase` on one character: an ASCII lower-case letter becomes its
      capital, every other character is left alone. */
  function UpperChar(c: char): (u: char)
    ensures IsLowerAscii(c) ==> IsUpperAscii(u) && u as int + 32 == c as int
    ensures !IsLowerAscii(c) ==> u == c
    ensures !IsLowerAscii(u)
  {
    if IsLowerAscii(c) then (c as int - 32) as char else c
  }

  /** `s.toUpperCase()`: the same length, upper-cased character by character. */
  function ToUpperCase(s: string): (r: string)
    ensures |r| == |s|
    ensures forall i :: 0 <= i < |s| ==> r[i] == UpperChar(s[i])
  {
    if s == [] then [] else [UpperChar(s[0])] + ToUpperCase(s[1..])
  }

  /** Upper-casing distributes over concatenation. */
  lemma ToUpperCaseConcat(a: string, b: string)
    ensures ToUpperCase(a + b) == ToUpperCase(a) + ToUpperCase(b)
  {
    var l, r := ToUpperCase(a + b), ToUpperCase(a) + ToUpperCase(b);
    assert |l| == |r|;
    forall i | 0 <= i < |l| ensures l[i] == r[i] {
      if i < |a| { assert (a + b)[i] == a[i]; } else { assert (a + b)[i] == b[i - |a|]; }
    }
  }

  /** Upper-casing twice is upper-casing once. */
  lemma ToUpperCaseIdempotent(s: string)
    ensures ToUpperCase(ToUpperCase(s)) == ToUpperCase(s)
  {
    var u := ToUpperCase(s);
    assert forall i :: 0 <= i < |u| ==> UpperChar(u[i]) == u[i];
  }

  /** `s.slice(-k)` for a positive `k`: the last `k` characters, or all of `s`
      when it is shorter than `k`. */
  function SliceLast(s: string, k: nat): (r: string)
    requires 0 < k
    ensures |r| == if |s| < k then |s| else k
    ensures s == s[..|s| - |r|] + r
  {
    if |s| <= k then s else s[|s| - k..]
  }

  /** `s.slice(0, -k)` for a positive `k`: `s` without its last `k` characters,
      or the empty string when `s` has at most `k`. */
  function SliceDropLast(s: string, k: nat): (r: string)
    requires 0 < k
    ensures |r| == if |s| < k then 0 else |s| - k
    ensures r <= s
  {
    if |s| <= k then "" else s[..|s| - k]
  }

  /** Dropping the last `k` characters ignores what those characters were. */
  lemma SliceDropLastAppend(s: string, t: string, k: nat)
    requires 0 < k && |t| == k
    ensures SliceDropLast(s + t, k) == s
  {
    assert (s + t)[..|s|] == s;
  }

  /** `s.padStart(n, fill)` for a one-character `fill`. */
  function PadStart(s: string, n: nat, fill: char): (r: string)
    ensures |r| == if |s| < n then n else |s|
    ensures r[|r| - |s|..] == s
    ensures forall i :: 0 <= i < |r| - |s| ==> r[i] == fill
  {
    if n <= |s| then s else seq(n - |s|, _ => fill) + s
  }

  function DigitChar(d: nat): (c: char)
    requires d < 10
    ensures IsDigit(c)
  {
    ('0' as int + d) as char
  }

  function DigitValue(c: char): (d: nat)
    requires IsDigit(c)
    ensures d < 10
  {
    c as int - '0' as int
  }

  /** The value of a string of decimal digits, most significant first. */
  function ParseDigits(s: string): nat
    requires AllDigits(s)
  {
    if s == [] then 0 else 10 * ParseDigits(s[..|s| - 1]) + DigitValue(s[|s| - 1])
  }

  /** `n.toString()` for a non-negative integer: its decimal digits without
      leading zeros. */
  function NatToString(n: nat): (r: string)
    ensures 1 <= |r|
    ensures AllDigits(r)
    ensures r[0] == '0' ==> n == 0
    ensures (|r| == 1) == (n < 10)
  {
    if n < 10 then [DigitChar(n)]
    else
      var r := NatToString(n / 10) + [DigitChar(n % 10)];
      assert AllDigits(r) by {
        forall i | 0 <= i < |r| ensures IsDigit(r[i]) {
          if i < |r| - 1 { assert r[i] == NatToString(n / 10)[i]; }
        }
      }
      r
  }

  /** `n.toString()` for any integer: a minus sign before the digits of a
      negative number. */
  function IntToString(n: int): string {
    if n < 0 then "-" + NatToString(-n) else NatToString(n)
  }

  /** The text of any integer reads back as that integer: digits alone for a
      non-negative one, a minus sign and the digits of its magnitude for a
      negative one. */
  lemma IntToStringReadBack(n: int)
    ensures var r := IntToString(n);
      && (0 <= n ==> AllDigits(r) && ParseDigits(r) == n)
      && (n < 0 ==> 2 <= |r| && r[0] == '-' && AllDigits(r[1..]) && ParseDigits(r[1..]) == -n)
  {
    if n < 0 {
      ParseNatToString(-n);
      assert IntToString(n)[1..] == NatToString(-n);
    } else {
      ParseNatToString(n);
    }
  }

  /** Reading back the decimal digits of `n` gives `n`. */
  lemma {:induction false} ParseNatToString(n: nat)
    ensures ParseDigits(NatToString(n)) == n
  {
    if n >= 10 {
      var s := NatToString(n);
      assert s[..|s| - 1] == NatToString(n / 10);
      ParseNatToString(n / 10);
      assert DigitValue(DigitChar(n % 10)) == n % 10;
    } else {
      assert DigitValue(DigitChar(n)) == n;
    }
  }

  /** The decimal digits of a number below 100 have at most two characters. */
  lemma NatToStringBelow100(n: nat)
    requires n < 100
    ensures |NatToString(n)| <= 2
  {
    if n >= 10 { assert n / 10 < 10; }
  }

  /** The last two digits of a number of at least two digits are the digits of
      that number modulo 100. */
  lemma LastTwoDigits(n: nat)
    requires 10 <= n
    ensures |SliceLast(NatToString(n), 2)| == 2
    ensures AllDigits(SliceLast(NatToString(n), 2))
    ensures ParseDigits(SliceLast(NatToString(n), 2)) == n % 100
  {
    var s := NatToString(n);
    var h := NatToString(n / 10);
    assert s == h + [DigitChar(n % 10)];
    var t := SliceLast(s, 2);
    assert t == [h[|h| - 1], DigitChar(n % 10)];
    assert ParseDigits(t[..1]) == DigitValue(h[|h| - 1]);
    var q := n / 10;
    if q >= 10 {
      assert h == NatToString(q / 10) + [DigitChar(q % 10)];
      assert DigitValue(h[|h| - 1]) == q % 10;
    } else {
      assert DigitValue(h[|h| - 1]) == q % 10;
    }
    DivModHundred(n);
  }

  lemma DivModHundred(n: nat)
    ensures 10 * ((n / 10) % 10) + n % 10 == n % 100
  {
    var q, r0 := n / 10, n % 10;
    var k, r1 := q / 10, q % 10;
    assert n == 10 * q + r0;
    assert q == 10 * k + r1;
    assert n == 100 * k + (10 * r1 + r0);
    ModHundredUnique(n, k, 10 * r1 + r0);
  }

  lemma ModHundredUnique(n: int, k: int, r: int)
    requires n == 100 * k + r && 0 <= r < 100
    ensures n % 100 == r
  {
  }

  /** Padding the digits of a number below 100 to two characters with '0'
      gives two digits that read back as that number. */
  lemma PadTwoDigits(n: nat)
    requires n < 100
    ensures |PadStart(NatToString(n), 2, '0')| == 2
    ensures AllDigits(PadStart(NatToString(n), 2, '0'))
    ensures ParseDigits(PadStart(NatToString(n), 2, '0')) == n
  {
    NatToStringBelow100(n);
    ParseNatToString(n);
    var s := NatToString(n);
    var p := PadStart(s, 2, '0');
    if n < 10 {
      assert p == ['0', s[0]];
      assert p[..1] == ['0'];
      assert ParseDigits(['0']) == 0;
      assert ParseDigits(s) == DigitValue(s[0]);
    } else {
      assert p == s;
    }
  }
}
