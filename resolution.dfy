/** Target resolution: the branch on the target string at the top of `Flexigrate.migrate`. */
module Resolution {
  import opened Wrappers
  import opened Naming

  /** Python's `int()` raised `ValueError` on this text. */
  datatype ResolveError = InvalidLiteral(text: string)

  /** The text after one optional leading sign. */
  function NumericPart(s: string): (digits: string)
    ensures |digits| <= |s|
  {
    if |s| > 0 && s[0] in "+-" then s[1..] else s
  }

  /**
   * Python's `int(s)` on an optionally signed decimal literal: one optional `+` or `-`,
   * then at least one ASCII digit (leading zeros allowed).
   */
  function ParseInt(s: string): (r: Option<int>)
    ensures r.Some? <==> |NumericPart(s)| > 0 && AllDigits(NumericPart(s))
    ensures r.Some? ==> |s| > 0 && (if s[0] == '-' then r.value <= 0 else r.value >= 0)
  {
    if |s| > 0 && (s[0] == '-' || s[0] == '+') then
      var digits := s[1..];
      if |digits| > 0 && AllDigits(digits) then
        var magnitude: int := DigitsValue(digits);
        Some(if s[0] == '-' then -magnitude else magnitude)
      else None
    else if |s| > 0 && AllDigits(s) then Some(DigitsValue(s))
    else None
  }

  /** `int()` reads back the decimal text of every natural number. */
  lemma ParseDecimal(n: nat)
    ensures ParseInt(Decimal(n)) == Some(n)
  {
    DecimalDigits(n);
    DecimalRoundTrip(n);
  }

  /** `int()` on an optional sign followed by digits is the signed value of those digits. */
  lemma {:induction false} ParseSignedDigits(sign: string, digits: string)
    requires sign == "" || sign == "+" || sign == "-"
    requires |digits| > 0 && AllDigits(digits)
    ensures ParseInt(sign + digits)
         == Some(if sign == "-" then -(DigitsValue(digits) as int) else DigitsValue(digits) as int)
  {
    if sign == "" {
      assert sign + digits == digits;
      assert IsDigit(digits[0]);
    } else {
      assert (sign + digits)[1..] == digits;
    }
  }

  /** Zeros in front of the decimal text of `n` give a non-empty digit run that still denotes `n`. */
  lemma PaddedDecimalValue(k: nat, n: nat)
    ensures var digits := Zeros(k) + Decimal(n);
      |digits| > 0 && AllDigits(digits) && DigitsValue(digits) == n
  {
    DecimalDigits(n);
    DecimalRoundTrip(n);
    LeadingZerosValue(k, Decimal(n));
  }

  /**
   * `int()` reads a literal with an optional sign and leading zeros as the signed value of
   * its digits: `int("-3") == -3`, `int("+007") == 7`.
   */
  lemma {:induction false} ParseSignedPadded(sign: string, k: nat, n: nat)
    requires sign == "" || sign == "+" || sign == "-"
    ensures ParseInt(sign + Zeros(k) + Decimal(n)) == Some(if sign == "-" then -(n as int) else n as int)
  {
    var digits := Zeros(k) + Decimal(n);
    PaddedDecimalValue(k, n);
    ParseSignedDigits(sign, digits);
    assert sign + Zeros(k) + Decimal(n) == sign + digits;
  }

  /**
   * The target revision named by `spec`, given the stored `current` revision and the
   * number of loaded revisions: `-N` is `current - N`, `+N` is `current + N`, `head` is
   * the last revision, anything else is read as an absolute number.
   */
  function Resolve(spec: string, current: int, count: nat): (r: Result<int, ResolveError>)
    ensures r.Err? ==> r.error.text == (if |spec| > 0 && spec[0] in "+-" then spec[1..] else spec)
  {
    if |spec| > 0 && spec[0] == '-' then
      match ParseInt(spec[1..])
      case Some(n) => Ok(current - n)
      case None => Err(InvalidLiteral(spec[1..]))
    else if |spec| > 0 && spec[0] == '+' then
      match ParseInt(spec[1..])
      case Some(n) => Ok(current + n)
      case None => Err(InvalidLiteral(spec[1..]))
    else if spec == "head" then
      Ok(count - 1)
    else
      match ParseInt(spec)
      case Some(n) => Ok(n)
      case None => Err(InvalidLiteral(spec))
  }

  /**
   * Resolution fails exactly when the spec is not `head` and the text handed to `int()`,
   * the spec without one leading sign, is not an optionally signed run of digits.
   */
  lemma ResolveFailsExactly(spec: string, current: int, count: nat)
    ensures Resolve(spec, current, count).Err?
        <==> spec != "head" && ParseInt(NumericPart(spec)).None?
  {
    if |spec| > 0 && spec[0] in "+-" {
      assert spec != "head";
    }
  }

  /** `-N` steps back N revisions from the stored one. */
  lemma ResolveBackward(n: nat, current: int, count: nat)
    ensures Resolve("-" + Decimal(n), current, count) == Ok(current - n)
  {
    ParseDecimal(n);
    assert ("-" + Decimal(n))[1..] == Decimal(n);
  }

  /** `+N` steps forward N revisions from the stored one. */
  lemma ResolveForward(n: nat, current: int, count: nat)
    ensures Resolve("+" + Decimal(n), current, count) == Ok(current + n)
  {
    ParseDecimal(n);
    assert ("+" + Decimal(n))[1..] == Decimal(n);
  }

  /** `--N` strips one `-` and hands `-N` to `int()`: it steps N revisions forward. */
  lemma DoubleMinusStepsForward(n: nat, current: int, count: nat)
    ensures Resolve("--" + Decimal(n), current, count) == Ok(current + n)
  {
    ParseSignedPadded("-", 0, n);
    assert ("--" + Decimal(n))[1..] == "-" + Zeros(0) + Decimal(n);
  }

  /** `-1` is always relative: it never names the "nothing applied" revision -1 outright. */
  lemma MinusOneIsRelative(current: int, count: nat)
    ensures Resolve("-1", current, count) == Ok(current - 1)
  {
    ResolveBackward(1, current, count);
  }

  /** `head` is the last loaded revision whatever the stored revision is. */
  lemma ResolveHead(current: int, count: nat)
    ensures Resolve("head", current, count) == Ok(count - 1)
  {
  }

  /** A plain number is absolute: it resolves to itself and ignores the stored revision. */
  lemma ResolveAbsolute(n: nat, current: int, count: nat)
    ensures Resolve(Decimal(n), current, count) == Ok(n)
  {
    ParseDecimal(n);
    DecimalDigits(n);
    assert Decimal(n) != "head" by { assert !IsDigit("head"[0]); }
  }

  /**
   * Only the signed forms read the stored revision; an unsigned spec resolves the same
   * from every current revision, and never to a negative target.
   */
  lemma UnsignedSpecIgnoresCurrent(spec: string, c1: int, c2: int, count: nat)
    requires |spec| == 0 || spec[0] !in "+-"
    ensures Resolve(spec, c1, count) == Resolve(spec, c2, count)
    ensures spec != "head" && Resolve(spec, c1, count).Ok? ==> Resolve(spec, c1, count).value >= 0
  {
  }
}
