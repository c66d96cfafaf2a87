/** Reading decimal integers the way std::stoi and std::stoll do, and writing them. */
module Numbers {
  import opened Lexer
  import opened Values

  function DigitSpan(s: string): (n: nat)
    ensures n <= |s| && (forall i :: 0 <= i < n ==> IsDigit(s[i])) && (n < |s| ==> !IsDigit(s[n]))
  {
    if s == "" || !IsDigit(s[0]) then 0 else 1 + DigitSpan(s[1..])
  }

  predicate AllDigits(s: string) { forall i :: 0 <= i < |s| ==> IsDigit(s[i]) }

  function DigitsValue(s: string): nat
    requires AllDigits(s)
  {
    if s == "" then 0 else 10 * DigitsValue(s[..|s| - 1]) + (s[|s| - 1] as int - '0' as int)
  }

  // White space, a sign, digits; what follows the digits is ignored. None: no digits, or out of range.
  function ReadInteger(s: string, lo: int, hi: int): (r: Option<int>)
    ensures r.Some? ==> lo <= r.value < hi
  {
    if s != "" && IsSpace(s[0]) then ReadInteger(s[1..], lo, hi)
    else
      var signed := s != "" && (s[0] == '-' || s[0] == '+');
      var digits := if signed then s[1..] else s;
      var n := DigitSpan(digits);
      if n == 0 then None else
        var magnitude: int := DigitsValue(digits[..n]);
        var value := if signed && s[0] == '-' then -magnitude else magnitude;
        if lo <= value < hi then Some(value) else None
  }

  // std::stoi and std::stoll
  function Stoi(s: string): Option<int> { ReadInteger(s, -0x8000_0000, 0x8000_0000) }
  function Stoll(s: string): Option<int> { ReadInteger(s, -0x8000_0000_0000_0000, 0x8000_0000_0000_0000) }

  function NatText(n: nat): (s: string)
    ensures s != "" && AllDigits(s)
  {
    (if n < 10 then "" else NatText(n / 10)) + [('0' as int + n % 10) as char]
  }

  lemma DigitsSnoc(s: string, d: int)
    requires AllDigits(s) && 0 <= d < 10
    ensures AllDigits(s + [('0' as int + d) as char])
            && DigitsValue(s + [('0' as int + d) as char]) == 10 * DigitsValue(s) + d
  {
    var t := s + [('0' as int + d) as char];
    assert t[..|s|] == s;
  }

  lemma TenTimes(n: nat)
    ensures 10 * (n / 10) + n % 10 == n && 0 <= n % 10 < 10 && (n < 10 ==> n % 10 == n)
  {
  }

  lemma {:induction false} NatTextValue(n: nat)
    ensures DigitsValue(NatText(n)) == n
  {
    hide DigitsValue;
    TenTimes(n);
    if n < 10 {
      DigitsSnoc("", n % 10);
      NoDigits();
    } else {
      NatTextValue(n / 10);
      DigitsSnoc(NatText(n / 10), n % 10);
    }
  }

  lemma NoDigits()
    ensures DigitsValue("") == 0
  {
  }

  lemma {:induction false} DigitSpanAll(s: string)
    requires AllDigits(s)
    ensures DigitSpan(s) == |s|
  {
    if s != "" { DigitSpanAll(s[1..]); }
  }

  // ---- Integer literals ----

  // An optional minus sign and digits.
  predicate IntText(s: string) {
    if s != "" && s[0] == '-' then |s| > 1 && AllDigits(s[1..]) else s != "" && AllDigits(s)
  }

  function IntValue(s: string): int
    requires IntText(s)
  {
    if s[0] == '-' then 0 - DigitsValue(s[1..]) else DigitsValue(s)
  }

  predicate FitsInt(n: int) { -0x8000_0000 <= n < 0x8000_0000 }

  // std::stoi reads an integer literal as its value if that fits 32 bits; if not, it throws.
  lemma StoiIntText(s: string)
    requires IntText(s)
    ensures Stoi(s) == if FitsInt(IntValue(s)) then Some(IntValue(s)) else None
  {
    hide DigitsValue, DigitSpan;
    var digits := if s[0] == '-' then s[1..] else s;
    DigitSpanAll(digits);
    assert IsDigit(digits[0]);
    assert digits[..|digits|] == digits;
  }

  function IntegerText(n: int): string { if n < 0 then "-" + NatText(-n) else NatText(n) }

  lemma IntegerTextValue(n: int)
    ensures IntText(IntegerText(n)) && IntValue(IntegerText(n)) == n
  {
    hide DigitsValue, NatText;
    if n < 0 {
      NatTextValue(-n);
      assert ("-" + NatText(-n))[1..] == NatText(-n);
    } else {
      NatTextValue(n);
      assert IsDigit(NatText(n)[0]);
    }
  }
}
