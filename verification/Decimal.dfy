/** strconv.Itoa and strconv.Atoi, and Go's int32 conversion. */
module Decimal {
  import opened Common

  const MAX_INT64 := 0x7FFF_FFFF_FFFF_FFFF

  function Digit(d: int): char
    requires 0 <= d < 10
  { '0' + d as char }

  predicate IsDigit(c: char) { '0' <= c <= '9' }

  predicate AllDigits(s: string) { forall i :: 0 <= i < |s| ==> IsDigit(s[i]) }

  function Itoa(n: int): (s: string)
    ensures |s| > 0 && (n >= 0 ==> AllDigits(s)) && (n < 0 ==> s[0] == '-' && AllDigits(s[1..]) && |s| > 1)
    decreases if n < 0 then 1 - n else n
  {
    if n < 0 then "-" + Itoa(-n) else if n < 10 then [Digit(n)] else Itoa(n / 10) + [Digit(n % 10)]
  }

  function DigitsValue(s: string): nat
    requires AllDigits(s)
  {
    if s == "" then 0 else 10 * DigitsValue(s[..|s| - 1]) + (s[|s| - 1] - '0') as nat
  }

  function Atoi(s: string): Option<int> {
    var signed := s != "" && (s[0] == '+' || s[0] == '-');
    var digits := if signed then s[1..] else s;
    if digits == "" || !AllDigits(digits) then None
    else if signed && s[0] == '-' then
      if DigitsValue(digits) <= MAX_INT64 + 1 then Some(-(DigitsValue(digits) as int)) else None
    else if DigitsValue(digits) <= MAX_INT64 then Some(DigitsValue(digits)) else None
  }

  lemma {:induction false} DigitsOfItoa(n: nat)
    ensures DigitsValue(Itoa(n)) == n
  {
    if n >= 10 {
      DigitsOfItoa(n / 10);
      var s := Itoa(n);
      assert s[..|s| - 1] == Itoa(n / 10);
    } else {
      assert Itoa(n)[..0] == "";
    }
  }

  /** Numbers are written in base ten, the highest digit first. */
  lemma ItoaTen(n: nat, d: nat)
    requires d < 10
    ensures Itoa(d) == ["0123456789"[d]]
    ensures n > 0 ==> Itoa(10 * n + d) == Itoa(n) + ["0123456789"[d]]
    ensures n > 0 ==> Itoa(-(n as int)) == "-" + Itoa(n)
  {
    assert Digit(d) == "0123456789"[d];
  }

  lemma AtoiDigits(digits: string)
    requires digits != "" && AllDigits(digits) && DigitsValue(digits) <= MAX_INT64
    ensures Atoi(digits) == Some(DigitsValue(digits))
  {
    assert IsDigit(digits[0]);
  }

  lemma AtoiMinus(digits: string)
    requires digits != "" && AllDigits(digits) && DigitsValue(digits) <= MAX_INT64 + 1
    ensures Atoi("-" + digits) == Some(-(DigitsValue(digits) as int))
  {
    assert ("-" + digits)[1..] == digits;
  }

  /** Atoi undoes Itoa on every 64-bit integer. */
  lemma AtoiItoa(n: int)
    requires -MAX_INT64 - 1 <= n <= MAX_INT64
    ensures Atoi(Itoa(n)) == Some(n)
  {
    if n < 0 {
      DigitsOfItoa(-n);
      AtoiMinus(Itoa(-n));
    } else {
      DigitsOfItoa(n);
      AtoiDigits(Itoa(n));
    }
  }

  /** int32(n) */
  function Int32(n: int): int {
    var low := n % 0x1_0000_0000;
    if low >= 0x8000_0000 then low - 0x1_0000_0000 else low
  }
}
