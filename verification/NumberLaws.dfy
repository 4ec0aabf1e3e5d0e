/** What the accepted numeric literals look like. */
module NumberLaws {
  import opened Numbers
  import opened Tokens
  import opened Unicode

  /** A run is as long as its digits go. */
  lemma {:induction false} RunMeaning(radix: Radix, separators: bool, buf: seq<Byte>, p: nat)
    requires p <= |buf|
    ensures
      var end := RunEnd(radix, separators, buf, p);
      && (forall i | p <= i < end :: Digit(radix, buf[i]).Some? || (separators && buf[i] == SEPARATOR))
      && Digit(radix, At(buf, end)).None? && (separators ==> At(buf, end) != SEPARATOR)
    decreases |buf| - p
  {
    if RunEnd(radix, separators, buf, p) != p {
      RunMeaning(radix, separators, buf, p + 1);
    }
  }

  /** Acceptance after the prefix of a binary, octal or hexadecimal literal. */
  lemma RadixAccepted(radix: Radix, buf: seq<Byte>, start: nat)
    requires start + 2 <= |buf|
    ensures
      var run := buf[start + 2..RunEnd(radix, true, buf, start + 2)];
      RadixLexeme(radix, buf, start).Ok? <==> run != [] && SeparatorsSingle(run)
  {
    var p := start + 2;
    var end := RunEnd(radix, true, buf, p);
    RunMeaning(radix, true, buf, p);
    if Digit(radix, At(buf, p)).Some? {
      RunErrorMeaning(buf, p, end);
    } else if p < end {
      assert buf[p..end][0] == SEPARATOR;
    }
  }

  /** Separators do not count. */
  lemma {:induction false} PositionalSkips(radix: Radix, s: seq<Byte>)
    ensures Positional(radix, WithoutSeparators(s)) == Positional(radix, s)
  {
    if s != [] {
      var before := WithoutSeparators(s[..|s| - 1]);
      PositionalSkips(radix, s[..|s| - 1]);
      if s[|s| - 1] == SEPARATOR {
        assert WithoutSeparators(s) == before;
      } else {
        assert WithoutSeparators(s)[..|before|] == before;
      }
    }
  }

  predicate DigitsAndSeparators(s: seq<Byte>) {
    forall i | 0 <= i < |s| :: IsDecimalDigit(s[i]) || s[i] == SEPARATOR
  }

  lemma {:induction false} DigitsRemain(s: seq<Byte>)
    requires DigitsAndSeparators(s)
    ensures IsDigits(WithoutSeparators(s))
    ensures s != [] && s[0] != SEPARATOR ==> WithoutSeparators(s) != []
  {
    if s != [] { DigitsRemain(s[..|s| - 1]); }
  }

  lemma {:induction false} RemovesFromBoth(s: seq<Byte>, t: seq<Byte>)
    ensures WithoutSeparators(s + t) == WithoutSeparators(s) + WithoutSeparators(t)
  {
    if t == [] {
      assert s + t == s;
    } else {
      assert (s + t)[..|s + t| - 1] == s + t[..|t| - 1];
      RemovesFromBoth(s, t[..|t| - 1]);
    }
  }

  /** A part of digits at `p`, and what is left of it without separators. */
  lemma DigitsPart(separators: bool, buf: seq<Byte>, p: nat) returns (digits: seq<Byte>)
    requires p <= |buf|
    ensures
      var end := DigitsEnd(separators, buf, p);
      && DigitsAndSeparators(buf[p..end]) && digits == WithoutSeparators(buf[p..end])
      && IsDigits(digits) && (IsDecimalDigit(At(buf, p)) ==> digits != [])
      && !IsDecimalDigit(At(buf, end))
  {
    RunMeaning(Decimal, separators, buf, p);
    var s := buf[p..DigitsEnd(separators, buf, p)];
    DigitsRemain(s);
    digits := WithoutSeparators(s);
  }

  lemma WholePart(buf: seq<Byte>, start: nat, whole: nat) returns (digits: seq<Byte>)
    requires start < |buf| && whole == DigitsEnd(buf[start] != ZERO, buf, start)
    ensures digits == WithoutSeparators(buf[start..whole]) && IsDigits(digits)
    ensures IsDecimalDigit(buf[start]) ==> digits != []
  {
    digits := DigitsPart(buf[start] != ZERO, buf, start);
  }

  lemma FractionPart(separators: bool, buf: seq<Byte>, p: nat) returns (fraction: seq<Byte>)
    requires p <= |buf|
    ensures fraction == WithoutSeparators(buf[p..FractionEnd(separators, buf, p)]) && IsFraction(fraction)
    ensures At(buf, p) == PERIOD && IsDecimalDigit(At(buf, p + 1)) ==> |fraction| > 1
  {
    hide RunEnd, DigitsEnd, WithoutSeparators, IsDigits, DigitsAndSeparators;
    var end := FractionEnd(separators, buf, p);
    if At(buf, p) == PERIOD {
      var digits := DigitsPart(separators, buf, p + 1);
      PeriodIsKept(buf, p, end);
      PeriodForm(digits);
      fraction := [PERIOD] + digits;
    } else {
      fraction := buf[p..end];
      NothingToRemove(fraction);
    }
  }

  lemma PeriodIsKept(buf: seq<Byte>, p: nat, end: nat)
    requires p < end <= |buf| && buf[p] == PERIOD
    ensures WithoutSeparators(buf[p..end]) == [PERIOD] + WithoutSeparators(buf[p + 1..end])
  {
    assert buf[p..p + 1] == [PERIOD];
    SliceExtends(buf, p, p + 1, end);
    RemovesFromBoth(buf[p..p + 1], buf[p + 1..end]);
    NothingToRemove([PERIOD]);
    hide WithoutSeparators;
  }

  lemma PeriodForm(digits: seq<Byte>)
    requires IsDigits(digits)
    ensures IsFraction([PERIOD] + digits)
  {
    assert ([PERIOD] + digits)[1..] == digits;
  }

  /** A mark, perhaps a sign, and digits make an exponent. */
  lemma ExponentForm(mark: seq<Byte>, digits: seq<Byte>)
    requires |mark| == 1 || (|mark| == 2 && mark[1] in [PLUS, MINUS])
    requires mark[0] in [LOWER_E, UPPER_E] && IsDigits(digits) && digits != []
    ensures IsExponent(mark + digits)
  {
    var all := mark + digits;
    assert all[|mark|..] == digits;
    if |mark| == 1 { assert IsDecimalDigit(all[1]) by { assert all[1] == digits[0]; } }
    hide IsDigits;
  }

  /** The mark of an exponent at `p`. */
  lemma ExponentMark(buf: seq<Byte>, p: nat, q: nat)
    requires p < |buf| && buf[p] in [LOWER_E, UPPER_E] && q == ExponentDigits(buf, p) <= |buf|
    ensures
      var mark := buf[p..q];
      && WithoutSeparators(mark) == mark && mark[0] in [LOWER_E, UPPER_E]
      && (|mark| == 1 || (|mark| == 2 && mark[1] in [PLUS, MINUS]))
  {
    NothingToRemove(buf[p..q]);
    hide WithoutSeparators;
  }

  lemma ExponentPart(separators: bool, buf: seq<Byte>, p: nat, end: nat) returns (exponent: seq<Byte>)
    requires p <= |buf| && ExponentEnd(separators, buf, p) == Ok(end)
    ensures exponent == WithoutSeparators(buf[p..end]) && IsExponent(exponent)
  {
    hide RunEnd, RunError, WithoutSeparators, IsDigits, DigitsAndSeparators;
    exponent := [];
    if p < end {
      var q := ExponentDigits(buf, p);
      var digits := DigitsPart(separators, buf, q);
      ExponentMark(buf, p, q);
      ExponentForm(buf[p..q], digits);
      SliceExtends(buf, p, q, end);
      RemovesFromBoth(buf[p..q], buf[q..end]);
      exponent := buf[p..q] + digits;
    } else {
      NothingToRemove(buf[p..end]);
    }
    hide IsExponent;
  }

  /** A number read at a digit, or at a period before one, is text that converts to a double. */
  lemma NumberIsDecimalText(buf: seq<Byte>, start: nat)
    requires start < |buf| && DecimalLexeme(buf, start).Ok? && DecimalLexeme(buf, start).value.token.NumberLiteral?
    requires IsDecimalDigit(buf[start]) || (buf[start] == PERIOD && IsDecimalDigit(At(buf, start + 1)))
    ensures
      var lexed := DecimalLexeme(buf, start).value;
      && start < lexed.end <= |buf|
      && lexed.token.number == Text(WithoutSeparators(buf[start..lexed.end]))
      && IsDecimalText(lexed.token.number.text)
  {
    hide DigitsEnd, FractionEnd, ExponentEnd, PartError, WithoutSeparators, IsDigits, IsFraction, IsExponent;
    var separators := buf[start] != ZERO;
    var whole := DigitsEnd(separators, buf, start);
    var fraction := FractionEnd(separators, buf, whole);
    var end := DecimalLexeme(buf, start).value.end;
    var a := WholePart(buf, start, whole);
    var b := FractionPart(separators, buf, whole);
    var c := ExponentPart(separators, buf, fraction, end);
    assert buf[start..end] == (buf[start..whole] + buf[whole..fraction]) + buf[fraction..end];
    RemovesFromBoth(buf[start..whole], buf[whole..fraction]);
    RemovesFromBoth(buf[start..whole] + buf[whole..fraction], buf[fraction..end]);
    assert WithoutSeparators(buf[start..end]) == a + b + c;
  }

  lemma PartSeparators(separators: bool, buf: seq<Byte>, p: nat, i: nat)
    requires p < |buf| && p <= i < DigitsEnd(separators, buf, p)
    requires PartError(buf, p, DigitsEnd(separators, buf, p)).None?
    requires buf[i] == SEPARATOR
    ensures separators && p < i && i + 1 < DigitsEnd(separators, buf, p)
    ensures IsDecimalDigit(buf[i - 1]) && IsDecimalDigit(buf[i + 1])
  {
    RunMeaning(Decimal, separators, buf, p);
    var end := DigitsEnd(separators, buf, p);
    assert buf[p] != SEPARATOR;
    assert !AdjacentSeparatorsIn(buf, p, end) && buf[end - 1] != SEPARATOR;
    assert buf[i - 1] != SEPARATOR && buf[(i + 1) - 1] == SEPARATOR;
  }

  /** Where separators may be in a number. */
  lemma NumberSeparators(buf: seq<Byte>, start: nat)
    requires start < |buf| && DecimalLexeme(buf, start).Ok? && DecimalLexeme(buf, start).value.token.NumberLiteral?
    ensures start <= DecimalLexeme(buf, start).value.end <= |buf|
    ensures SeparatorsAllowed(buf[start..DecimalLexeme(buf, start).value.end])
  {
    hide DigitsEnd, RunError, WithoutSeparators;
    var end := DecimalLexeme(buf, start).value.end;
    forall k | start <= k < end && buf[k] == SEPARATOR
      ensures IsSeparatorAt(buf, start, end, k)
    {
      SeparatorPlace(buf, start, k);
    }
    hide DecimalLexeme;
    SeparatorsOfSlice(buf, start, end);
  }

  /** A separator between digits, in a number that does not start with zero. */
  predicate IsSeparatorAt(buf: seq<Byte>, start: nat, end: nat, k: nat)
    requires end <= |buf|
  {
    && start < k && k + 1 < end && buf[start] != ZERO
    && IsDecimalDigit(buf[k - 1]) && IsDecimalDigit(buf[k + 1])
  }

  lemma SeparatorPlace(buf: seq<Byte>, start: nat, k: nat)
    requires start < |buf| && DecimalLexeme(buf, start).Ok? && DecimalLexeme(buf, start).value.token.NumberLiteral?
    requires start <= k < DecimalLexeme(buf, start).value.end <= |buf| && buf[k] == SEPARATOR
    ensures IsSeparatorAt(buf, start, DecimalLexeme(buf, start).value.end, k)
  {
    hide DigitsEnd, RunError, WithoutSeparators;
    var separators := buf[start] != ZERO;
    var whole := DigitsEnd(separators, buf, start);
    var fraction := FractionEnd(separators, buf, whole);
    if k < whole {
      PartSeparators(separators, buf, start, k);
    } else if k < fraction {
      PartSeparators(separators, buf, whole + 1, k);
    } else {
      PartSeparators(separators, buf, ExponentDigits(buf, fraction), k);
    }
  }

  lemma SeparatorsOfSlice(buf: seq<Byte>, start: nat, end: nat)
    requires start <= end <= |buf|
    requires forall k | start <= k < end && buf[k] == SEPARATOR :: IsSeparatorAt(buf, start, end, k)
    ensures SeparatorsAllowed(buf[start..end])
  {
    SliceElements(buf, start, end);
    var s := buf[start..end];
    forall i | 0 <= i < |s| && s[i] == SEPARATOR
      ensures 0 < i < |s| - 1 && IsDecimalDigit(s[i - 1]) && IsDecimalDigit(s[i + 1]) && s[0] != ZERO
    {
      assert IsSeparatorAt(buf, start, end, start + i);
    }
  }

  // Which texts are accepted as decimal numbers, without the scan.

  /** A part of digits that goes on as far as it can, with separators singly between digits where they are allowed. */
  ghost predicate DigitPart(separators: bool, buf: seq<Byte>, from: nat, to: nat) {
    && from <= to <= |buf|
    && DigitsAndSeparators(buf[from..to]) && SeparatorsSingle(buf[from..to])
    && (SEPARATOR in buf[from..to] ==> separators)
    && !IsDecimalDigit(At(buf, to)) && (from < to && separators ==> At(buf, to) != SEPARATOR)
  }

  /** A decimal number: digits, optional fraction, optional exponent; a leading zero forbids separators. */
  ghost predicate DecimalParts(buf: seq<Byte>, start: nat, whole: nat, fraction: nat, end: nat)
    requires start < |buf|
  {
    var separators := buf[start] != ZERO;
    && DigitPart(separators, buf, start, whole) && At(buf, whole) != LOWER_N
    && (if At(buf, whole) == PERIOD then DigitPart(separators, buf, whole + 1, fraction) else fraction == whole)
    && (if At(buf, fraction) in [LOWER_E as nat, UPPER_E as nat] then
          var digits := ExponentDigits(buf, fraction);
          digits < end && DigitPart(separators, buf, digits, end)
        else end == fraction)
  }

  lemma {:induction false} RunIsUnique(separators: bool, buf: seq<Byte>, from: nat, to: nat)
    requires from <= to <= |buf|
    requires forall i | from <= i < to :: IsDecimalDigit(buf[i]) || (separators && buf[i] == SEPARATOR)
    requires !IsDecimalDigit(At(buf, to)) && (separators ==> At(buf, to) != SEPARATOR)
    ensures RunEnd(Decimal, separators, buf, from) == to
    decreases |buf| - from
  {
    if from < to { RunIsUnique(separators, buf, from + 1, to); }
  }

  /** A part is what the scan finds, when it finds no error. */
  lemma DigitPartIsScanned(separators: bool, buf: seq<Byte>, from: nat, to: nat)
    requires from <= |buf|
    ensures DigitPart(separators, buf, from, to) <==>
      to == DigitsEnd(separators, buf, from) && PartError(buf, from, to).None?
  {
    if from <= to <= |buf| { SliceElements(buf, from, to); }
    if DigitPart(separators, buf, from, to) && from < to {
      assert buf[from..to][0] == buf[from];
      RunIsUnique(separators, buf, from, to);
      RunErrorMeaning(buf, from, to);
    }
    if to == DigitsEnd(separators, buf, from) && PartError(buf, from, to).None? && from < to {
      RunMeaning(Decimal, separators, buf, from);
      RunErrorMeaning(buf, from, to);
    }
  }

  lemma SliceElements(buf: seq<Byte>, from: nat, to: nat)
    requires from <= to <= |buf|
    ensures forall i | 0 <= i < to - from :: buf[from..to][i] == buf[from + i]
    ensures forall i | from <= i < to :: buf[i] == buf[from..to][i - from]
  {
  }

  lemma ExponentIsScanned(separators: bool, buf: seq<Byte>, p: nat, end: nat)
    requires p <= |buf|
    ensures
      (if At(buf, p) in [LOWER_E as nat, UPPER_E as nat] then
         ExponentDigits(buf, p) < end && DigitPart(separators, buf, ExponentDigits(buf, p), end)
       else end == p)
      <==> ExponentEnd(separators, buf, p) == Ok(end)
  {
    if At(buf, p) in [LOWER_E as nat, UPPER_E as nat] {
      DigitPartIsScanned(separators, buf, ExponentDigits(buf, p), end);
    }
    hide DigitPart, RunEnd;
  }

  lemma PartsAreRead(buf: seq<Byte>, start: nat, whole: nat, fraction: nat, end: nat)
    requires start < |buf| && DecimalParts(buf, start, whole, fraction, end)
    ensures start <= end <= |buf| && DecimalLexeme(buf, start) == Ok(DecimalNumber(buf, start, end))
  {
    hide DigitPart, DigitsEnd, RunError, WithoutSeparators;
    var separators := buf[start] != ZERO;
    DigitPartIsScanned(separators, buf, start, whole);
    if At(buf, whole) == PERIOD { DigitPartIsScanned(separators, buf, whole + 1, fraction); }
    ExponentIsScanned(separators, buf, fraction, end);
    hide ExponentEnd;
  }

  lemma ReadHasParts(buf: seq<Byte>, start: nat, end: nat) returns (whole: nat, fraction: nat)
    requires start < |buf| && start <= end <= |buf|
    requires DecimalLexeme(buf, start) == Ok(DecimalNumber(buf, start, end))
    ensures DecimalParts(buf, start, whole, fraction, end)
  {
    hide DigitPart, DigitsEnd, RunError, WithoutSeparators;
    var separators := buf[start] != ZERO;
    whole := DigitsEnd(separators, buf, start);
    fraction := FractionEnd(separators, buf, whole);
    DigitPartIsScanned(separators, buf, start, whole);
    if At(buf, whole) == PERIOD { DigitPartIsScanned(separators, buf, whole + 1, fraction); }
    ExponentIsScanned(separators, buf, fraction, end);
    hide ExponentEnd;
  }

  /** A decimal number is read to `end` exactly when its text is a number and cannot go on there. */
  lemma DecimalAccepted(buf: seq<Byte>, start: nat, end: nat)
    requires start < |buf|
    ensures
      (start <= end <= |buf| && DecimalLexeme(buf, start) == Ok(DecimalNumber(buf, start, end)))
      <==> exists whole: nat, fraction: nat :: DecimalParts(buf, start, whole, fraction, end)
  {
    hide DecimalParts, DecimalLexeme, DecimalNumber;
    if whole: nat, fraction: nat :| DecimalParts(buf, start, whole, fraction, end) {
      PartsAreRead(buf, start, whole, fraction, end);
    }
    if start <= end <= |buf| && DecimalLexeme(buf, start) == Ok(DecimalNumber(buf, start, end)) {
      var whole, fraction := ReadHasParts(buf, start, end);
    }
  }

  /** A decimal big integer has digits with single separators, and starts with zero only if it is zero. */
  lemma BigIntDigits(buf: seq<Byte>, start: nat)
    requires start < |buf| && DecimalLexeme(buf, start).Ok? && DecimalLexeme(buf, start).value.token.BigIntLiteral?
    requires IsDecimalDigit(buf[start]) || buf[start] == PERIOD
    ensures
      var lexed := DecimalLexeme(buf, start).value;
      var digits := lexed.token.digits;
      && start < lexed.end <= |buf| && buf[start..lexed.end] == digits + [LOWER_N]
      && digits != [] && DigitsAndSeparators(digits) && SeparatorsSingle(digits)
      && (digits[0] == ZERO ==> |digits| == 1)
  {
    var whole := DigitsEnd(buf[start] != ZERO, buf, start);
    RunMeaning(Decimal, buf[start] != ZERO, buf, start);
    RunErrorMeaning(buf, start, whole);
    assert buf[start..whole + 1] == buf[start..whole] + [LOWER_N];
  }
}
