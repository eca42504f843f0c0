/** Checked decimal parsing, and the decimal printing it inverts. */
module Uint {
  import opened Wrappers
  import opened ByteStrings

  const ZERO: byte := 48
  const NINE: byte := 57

  datatype ParseUintError = Empty | InvalidByte(b: byte) | Overflow

  predicate IsDigit(b: byte) {
    ZERO <= b <= NINE
  }

  predicate AllDigits(s: Bytes) {
    forall i :: 0 <= i < |s| ==> IsDigit(s[i])
  }

  function Digit(b: byte): (d: nat)
    requires IsDigit(b)
    ensures d < 10
  {
    (b - ZERO) as nat
  }

  /** The number a digit string denotes. */
  function Value(s: Bytes): nat
    requires AllDigits(s)
  {
    if s == [] then 0 else 10 * Value(s[..|s| - 1]) + Digit(s[|s| - 1])
  }

  /** The length of the longest all-digit prefix. */
  function DigitRun(s: Bytes, from: nat := 0): (k: nat)
    requires from <= |s|
    requires AllDigits(s[..from])
    ensures from <= k <= |s|
    ensures AllDigits(s[..k])
    ensures k < |s| ==> !IsDigit(s[k])
    decreases |s| - from
  {
    if from < |s| && IsDigit(s[from]) then DigitRun(s, from + 1) else from
  }

  /** What the parser answers, in terms of the denoted number alone: no accumulator, no order of checks. */
  function Parse(max: nat, s: Bytes): Result<nat, ParseUintError> {
    if s == [] then Err(Empty)
    else
      var k := DigitRun(s);
      if Value(s[..k]) > max then Err(Overflow)
      else if k < |s| then Err(InvalidByte(s[k]))
      else Ok(Value(s[..k]))
  }

  lemma DigitRunCovers(s: Bytes, j: nat)
    requires j <= |s| && AllDigits(s[..j])
    ensures j <= DigitRun(s)
    ensures j < |s| && !IsDigit(s[j]) ==> DigitRun(s) == j
  {
    assert forall i :: 0 <= i < j ==> s[..j][i] == s[i];
    var k := DigitRun(s);
    assert forall i :: 0 <= i < k ==> s[..k][i] == s[i];
  }

  /** Longer digit strings denote larger numbers, so an overflowing prefix decides the whole. */
  lemma {:induction false} ValueMonotone(s: Bytes, k: nat)
    requires AllDigits(s) && k <= |s|
    ensures Value(s[..k]) <= Value(s)
  {
    if k == |s| {
      assert s[..k] == s;
    } else {
      var t := s[..|s| - 1];
      ValueMonotone(t, k);
      assert t[..k] == s[..k];
    }
  }

  /** The accumulator loop: one byte at a time, each multiplication and addition checked against the type's maximum. */
  method ParseUnsigned(max: nat, buf: Bytes) returns (r: Result<nat, ParseUintError>)
    requires max >= 9
    ensures r == Parse(max, buf)
  {
    if |buf| == 0 {
      return Err(Empty);
    }
    var val: nat := 0;
    for i := 0 to |buf|
      invariant AllDigits(buf[..i])
      invariant val == Value(buf[..i]) <= max
    {
      var b := buf[i];
      DigitRunCovers(buf, i);
      if !IsDigit(b) {
        return Err(InvalidByte(b));
      }
      ghost var next := buf[..i + 1];
      assert next[..i] == buf[..i];
      assert AllDigits(next);
      assert Value(next) == 10 * val + Digit(b);
      if Value(next) > max {
        OverflowOfPrefix(max, buf, i + 1);
      }
      if 10 * val > max {
        return Err(Overflow);
      }
      val := 10 * val;
      if val + Digit(b) > max {
        return Err(Overflow);
      }
      val := val + Digit(b);
    }
    DigitRunCovers(buf, |buf|);
    return Ok(val);
  }

  /** `Ok(v)` exactly for a non-empty digit string denoting `v`, when `v` fits the type. */
  lemma ParseOk(max: nat, s: Bytes, v: nat)
    ensures Parse(max, s) == Ok(v) <==> s != [] && AllDigits(s) && Value(s) == v && v <= max
  {
    if s != [] {
      var k := DigitRun(s);
      if k == |s| {
        assert s[..k] == s;
      } else {
        assert !AllDigits(s);
      }
    }
  }

  /** Overflow of any all-digit prefix is overflow of the whole input. */
  lemma OverflowOfPrefix(max: nat, s: Bytes, k: nat)
    requires k <= |s|
    requires AllDigits(s[..k]) && Value(s[..k]) > max
    ensures Parse(max, s) == Err(Overflow)
  {
    DigitRunCovers(s, k);
    var n := DigitRun(s);
    ValueMonotone(s[..n], k);
    assert s[..n][..k] == s[..k];
  }

  /** What is wrong with a text that is no number of the type: its first bad byte, unless the digits before it overflow. */
  ghost predicate Refused(max: nat, s: Bytes, cause: ParseUintError) {
    match cause
    case Empty => s == []
    case Overflow => exists k :: 0 <= k <= |s| && AllDigits(s[..k]) && Value(s[..k]) > max
    case InvalidByte(b) =>
      exists k :: 0 <= k < |s| && AllDigits(s[..k]) && Value(s[..k]) <= max && s[k] == b && !IsDigit(b)
  }

  lemma ParseRefused(max: nat, s: Bytes, cause: ParseUintError)
    ensures Parse(max, s) == Err(cause) <==> Refused(max, s, cause)
  {
    assert s[..0] == [];
    forall k | 0 <= k <= |s| && AllDigits(s[..k]) && Value(s[..k]) > max
      ensures Parse(max, s) == Err(Overflow)
    {
      OverflowOfPrefix(max, s, k);
    }
    forall k | 0 <= k < |s| && AllDigits(s[..k]) && !IsDigit(s[k])
      ensures DigitRun(s) == k
    {
      DigitRunCovers(s, k);
    }
  }

  /** Decimal printing without leading zeros, as `itoa` formats. */
  function Print(n: nat): (s: Bytes)
    ensures s != [] && AllDigits(s) && Value(s) == n
    ensures n > 0 ==> s[0] != ZERO
    decreases n
  {
    if n < 10 then
      var s := [ZERO + n as byte];
      assert s[..0] == [];
      s
    else
      var q := Print(n / 10);
      var s := q + [ZERO + (n % 10) as byte];
      assert s[..|s| - 1] == q;
      s
  }

  /** Parsing inverts printing exactly on the numbers of the type. */
  lemma ParsePrint(max: nat, n: nat)
    ensures Parse(max, Print(n)) == if n <= max then Ok(n) else Err(Overflow)
  {
    ParseOk(max, Print(n), n);
    if n > max {
      var s := Print(n);
      assert s[..|s|] == s;
      OverflowOfPrefix(max, s, |s|);
    }
  }
}
