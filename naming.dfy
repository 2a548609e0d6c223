/** Revision file naming: `REV_FILE_NAME_FORMAT = 'revision-{0:03d}.py'`. */
module Naming {

  predicate IsDigit(ch: char) {
    '0' <= ch <= '9'
  }

  predicate AllDigits(s: string) {
    forall i :: 0 <= i < |s| ==> IsDigit(s[i])
  }

  function DigitChar(d: nat): (ch: char)
    requires d < 10
    ensures IsDigit(ch)
  {
    ('0' as int + d) as char
  }

  function DigitValue(ch: char): (d: nat)
    requires IsDigit(ch)
    ensures d < 10
  {
    ch as int - '0' as int
  }

  /** The decimal text of `n` without leading zeros, as Python's `str(n)`. */
  function Decimal(n: nat): (s: string)
    decreases n
  {
    if n < 10 then [DigitChar(n)] else Decimal(n / 10) + [DigitChar(n % 10)]
  }

  /** The decimal text is a non-empty run of digits that starts with `0` only for zero itself. */
  lemma {:induction false} DecimalDigits(n: nat)
    ensures 1 <= |Decimal(n)| && AllDigits(Decimal(n))
    ensures IsDigit(Decimal(n)[0]) && (|Decimal(n)| > 1 ==> Decimal(n)[0] != '0')
    decreases n
  {
    if n >= 10 {
      DecimalDigits(n / 10);
      assert Decimal(n)[0] == Decimal(n / 10)[0];
    }
  }

  /** The number a string of decimal digits denotes; leading zeros are allowed, as in Python's `int()`. */
  function DigitsValue(s: string): (n: nat)
    requires AllDigits(s)
  {
    if s == [] then 0 else DigitsValue(s[..|s| - 1]) * 10 + DigitValue(s[|s| - 1])
  }

  function Zeros(k: nat): (z: string) {
    if k == 0 then [] else Zeros(k - 1) + ['0']
  }

  /** Reading back the decimal text of `n` gives `n`. */
  lemma {:induction false} DecimalRoundTrip(n: nat)
    ensures AllDigits(Decimal(n)) && DigitsValue(Decimal(n)) == n
    decreases n
  {
    DecimalDigits(n);
    if n >= 10 {
      DecimalRoundTrip(n / 10);
      var s := Decimal(n);
      assert s[..|s| - 1] == Decimal(n / 10);
    }
  }

  lemma {:induction false} ZerosValue(k: nat)
    ensures |Zeros(k)| == k && AllDigits(Zeros(k)) && DigitsValue(Zeros(k)) == 0
  {
    if k > 0 {
      ZerosValue(k - 1);
      assert Zeros(k)[..k - 1] == Zeros(k - 1);
    }
  }

  /** Leading zeros do not change the value of a digit string. */
  lemma {:induction false} LeadingZerosValue(k: nat, s: string)
    requires AllDigits(s)
    ensures AllDigits(Zeros(k) + s) && DigitsValue(Zeros(k) + s) == DigitsValue(s)
    decreases |s|
  {
    var z := Zeros(k) + s;
    if s == [] {
      assert z == Zeros(k);
      ZerosValue(k);
    } else {
      LeadingZerosValue(k, s[..|s| - 1]);
      assert z[..|z| - 1] == Zeros(k) + s[..|s| - 1];
    }
  }

  /** The decimal text of `n` has at most three digits below 1000 and at least three from 100 on. */
  lemma DecimalLength(n: nat)
    ensures n < 1000 ==> |Decimal(n)| <= 3
    ensures n >= 100 ==> |Decimal(n)| >= 3
  {
    if n >= 10 {
      if n >= 100 {
        assert |Decimal(n / 10)| >= 2 by { assert (n / 10) / 10 >= 1; }
      } else {
        assert |Decimal(n / 10)| == 1;
      }
      if n < 1000 {
        assert |Decimal(n / 10)| <= 2 by { assert (n / 10) / 10 < 10; }
      }
    }
  }

  /** `'{0:03d}'.format(n)`: the decimal text of `n`, left-padded with zeros to width three. */
  function Pad3(n: nat): (s: string) {
    var d := Decimal(n);
    if |d| < 3 then Zeros(3 - |d|) + d else d
  }

  /**
   * The padded text still denotes `n`; it is exactly three characters below 1000 and is
   * the plain decimal text from 100 on.
   */
  lemma Pad3Value(n: nat)
    ensures AllDigits(Pad3(n)) && DigitsValue(Pad3(n)) == n
    ensures n < 1000 ==> |Pad3(n)| == 3
    ensures n >= 100 ==> Pad3(n) == Decimal(n)
  {
    DecimalLength(n);
    DecimalRoundTrip(n);
    var d := Decimal(n);
    if |d| < 3 {
      ZerosValue(3 - |d|);
      LeadingZerosValue(3 - |d|, d);
    }
  }

  const RevisionPrefix: string := "revision-"
  const RevisionSuffix: string := ".py"

  /** `REV_FILE_NAME_FORMAT.format(n)`: the file that holds revision `n`. */
  function RevisionFileName(n: nat): (name: string)
  {
    RevisionPrefix + Pad3(n) + RevisionSuffix
  }

  /** Below 1000 the padded text is the hundreds, tens and units digit of `n`. */
  lemma Pad3Digits(n: nat)
    requires n < 1000
    ensures Pad3(n) == [DigitChar(n / 100), DigitChar(n / 10 % 10), DigitChar(n % 10)]
  {
    DecimalLength(n);
    var a := n / 10;
    if n >= 100 {
      assert a / 10 == n / 100 && 1 <= n / 100 < 10 && a >= 10;
      assert Decimal(a) == [DigitChar(n / 100), DigitChar(a % 10)];
      assert Decimal(n) == [DigitChar(n / 100), DigitChar(a % 10), DigitChar(n % 10)];
    } else if n >= 10 {
      assert n / 100 == 0 && a % 10 == a && 1 <= a < 10;
      assert Decimal(n) == [DigitChar(a), DigitChar(n % 10)];
      assert Zeros(1) == ['0'];
    } else {
      assert n / 100 == 0 && a % 10 == 0 && n % 10 == n;
      assert Zeros(2) == ['0', '0'];
    }
  }

  /** Below 1000 the name is "revision-", the three decimal digits of `n`, then ".py". */
  lemma RevisionFileNameDigits(n: nat)
    requires n < 1000
    ensures RevisionFileName(n)
         == "revision-" + [DigitChar(n / 100), DigitChar(n / 10 % 10), DigitChar(n % 10)] + ".py"
  {
    Pad3Digits(n);
  }

  /** Distinct revision numbers never share a file. */
  lemma RevisionFileNameInjective(m: nat, n: nat)
    ensures RevisionFileName(m) == RevisionFileName(n) <==> m == n
  {
    if RevisionFileName(m) == RevisionFileName(n) {
      Pad3Value(m);
      Pad3Value(n);
      var a, b := RevisionFileName(m), RevisionFileName(n);
      assert Pad3(m) == a[|RevisionPrefix|..|a| - |RevisionSuffix|];
      assert Pad3(n) == b[|RevisionPrefix|..|b| - |RevisionSuffix|];
    }
  }
}
