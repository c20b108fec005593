/** Decimal printing (%d, strconv.FormatInt) and the digit scanning beneath
    fmt.Sscanf and strconv.ParseInt. */
module Decimal {
  import opened Wrappers
  import opened Text

  predicate IsDigit(c: char) {
    '0' <= c <= '9'
  }

  function DigitValue(c: char): (d: nat)
    requires IsDigit(c)
    ensures d < 10
  {
    c as int - '0' as int
  }

  function Digit(d: nat): (c: char)
    requires d < 10
    ensures IsDigit(c) && DigitValue(c) == d
  {
    ('0' as int + d) as char
  }

  function Print(n: nat): (s: string)
    ensures s != "" && forall c :: c in s ==> IsDigit(c)
  {
    if n < 10 then [Digit(n)] else Print(n / 10) + [Digit(n % 10)]
  }

  function Value(s: string): nat
    requires forall c :: c in s ==> IsDigit(c)
  {
    if s == "" then 0 else Value(s[..|s| - 1]) * 10 + DigitValue(s[|s| - 1])
  }

  lemma {:induction false} ValuePrint(n: nat)
    ensures Value(Print(n)) == n
  {
    if n < 10 {
      assert Print(n)[..0] == "";
    } else {
      ValuePrint(n / 10);
      assert Print(n)[..|Print(n)| - 1] == Print(n / 10);
    }
  }

  /** The length of the run of digits `s` starts with. */
  function DigitRun(s: string): (k: nat)
    ensures k <= |s|
    ensures forall i :: 0 <= i < k ==> IsDigit(s[i])
    ensures k < |s| ==> !IsDigit(s[k])
  {
    if s != "" && IsDigit(s[0]) then 1 + DigitRun(s[1..]) else 0
  }

  lemma {:induction false} DigitRunOfPrinted(d: string, rest: string)
    requires forall c :: c in d ==> IsDigit(c)
    requires rest != "" ==> !IsDigit(rest[0])
    ensures DigitRun(d + rest) == |d|
  {
    var s := d + rest;
    assert forall i :: 0 <= i < |d| ==> s[i] == d[i] && d[i] in d;
    assert rest != "" ==> s[|d|] == rest[0];
  }

  const MAX_INT64: int := 0x7FFF_FFFF_FFFF_FFFF

  /** strconv.ParseInt(v, 10, 64) restricted to what ParseOffset lets through:
      a leading sign is legal for ParseInt, and only a non-negative result is
      kept. */
  function ParseOffset(v: string): Option<nat> {
    var body := if v != "" && (v[0] == '+' || v[0] == '-') then v[1..] else v;
    if body == "" || DigitRun(body) != |body| then None
    else
      assert forall c :: c in body ==> IsDigit(c);
      var n := Value(body);
      if v[0] == '-' then (if n == 0 then Some(0) else None)
      else if n <= MAX_INT64 then Some(n) else None
  }

  /** Every 64-bit length or offset survives being printed into a header and
      parsed on the other side. */
  lemma ParsePrintedOffset(n: nat)
    requires n <= MAX_INT64
    ensures ParseOffset(Print(n)) == Some(n)
  {
    var s := Print(n);
    assert s[0] in s;
    DigitRunOfPrinted(s, "");
    assert s + "" == s;
    ValuePrint(n);
  }

  // ---- What ParseOffset accepts --------------------------------------------------------

  function Zeros(k: nat): (s: string)
    ensures |s| == k
  {
    seq(k, _ => '0')
  }

  /** Digits are zeros in front of the decimal form of their value. */
  lemma {:induction false} DigitsAre(s: string) returns (k: nat)
    requires s != "" && forall c :: c in s ==> IsDigit(c)
    ensures s == Zeros(k) + Print(Value(s))
  {
    var front, last := s[..|s| - 1], s[|s| - 1];
    assert s == front + [last];
    if front == "" {
      k := 0;
      assert Value(s) == DigitValue(last) && Print(Value(s)) == [last];
    } else {
      var j := DigitsAre(front);
      var v := Value(front);
      assert Value(s) == v * 10 + DigitValue(last);
      if v == 0 {
        k := j + 1;
        assert Print(v) == "0" && Print(Value(s)) == [last];
        assert Zeros(k) == Zeros(j) + "0";
      } else {
        k := j;
        assert Value(s) / 10 == v && Value(s) % 10 == DigitValue(last);
        assert Print(Value(s)) == Print(v) + [last];
      }
    }
  }

  lemma {:induction false} ValueOfPadded(k: nat, n: nat)
    ensures forall c :: c in Zeros(k) + Print(n) ==> IsDigit(c)
    ensures Value(Zeros(k) + Print(n)) == n
    decreases n
  {
    var s := Zeros(k) + Print(n);
    var last := s[|s| - 1];
    if n < 10 {
      ZerosAreNothing(k);
      assert s[..|s| - 1] == Zeros(k);
    } else {
      ValueOfPadded(k, n / 10);
      assert s[..|s| - 1] == Zeros(k) + Print(n / 10);
    }
  }

  lemma {:induction false} ZerosAreNothing(k: nat)
    ensures Value(Zeros(k)) == 0
  {
    if k > 0 {
      ZerosAreNothing(k - 1);
      assert Zeros(k)[..k - 1] == Zeros(k - 1);
    }
  }

  predicate IsSign(s: string) {
    s == "" || s == "+" || s == "-"
  }

  /** An optional sign, zeros, and the decimal form of a 64-bit number; a minus only in
      front of zero. */
  ghost predicate Denotes(v: string, n: nat) {
    exists sign: string, k: nat ::
      v == sign + (Zeros(k) + Print(n)) && IsSign(sign) && n <= MAX_INT64 && (sign == "-" ==> n == 0)
  }

  /** ParseOffset accepts exactly these, and everything else is refused. */
  lemma ParseOffsetExactly(v: string, n: nat)
    ensures ParseOffset(v) == Some(n) <==> Denotes(v, n)
  {
    if ParseOffset(v) == Some(n) {
      ParsedDenotes(v, n);
    }
    if Denotes(v, n) {
      var sign: string, k: nat :|
        v == sign + (Zeros(k) + Print(n)) && IsSign(sign) && n <= MAX_INT64 && (sign == "-" ==> n == 0);
      DenotedParses(sign, k, n);
    }
  }

  lemma ParsedDenotes(v: string, n: nat)
    requires ParseOffset(v) == Some(n)
    ensures Denotes(v, n)
  {
    var signed := v != "" && (v[0] == '+' || v[0] == '-');
    var sign, body := if signed then v[..1] else "", if signed then v[1..] else v;
    assert forall c :: c in body ==> IsDigit(c);
    var k := DigitsAre(body);
    assert n == Value(body) && n <= MAX_INT64 && (sign == "-" ==> n == 0);
    hide ParseOffset, Print, Value, DigitRun, Zeros;
    assert v == sign + (Zeros(k) + Print(n)) && IsSign(sign);
  }

  /** A sign in front of digits is read as such. */
  lemma SignedDigits(sign: string, digits: string)
    requires IsSign(sign) && digits != "" && forall c :: c in digits ==> IsDigit(c)
    ensures var n := Value(digits);
      ParseOffset(sign + digits)
      == if sign == "-" then (if n == 0 then Some(0) else None) else if n <= MAX_INT64 then Some(n) else None
  {
    var v := sign + digits;
    assert digits[0] in digits;
    DigitRunOfPrinted(digits, "");
    assert digits + "" == digits;
    if sign == "" {
      assert v == digits;
    } else {
      assert v[0] == sign[0] && v[1..] == digits;
    }
    hide Value, DigitRun;
  }

  lemma DenotedParses(sign: string, k: nat, n: nat)
    requires IsSign(sign) && n <= MAX_INT64 && (sign == "-" ==> n == 0)
    ensures ParseOffset(sign + (Zeros(k) + Print(n))) == Some(n)
  {
    ValueOfPadded(k, n);
    SignedDigits(sign, Zeros(k) + Print(n));
    hide ParseOffset, Value, Print, Zeros;
  }
}
