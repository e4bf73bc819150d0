/** strconv.Itoa and strconv.Atoi on a 64-bit int. */
module Decimal {
  import opened Options

  const MIN_INT := -0x8000_0000_0000_0000
  const MAX_INT := 0x7fff_ffff_ffff_ffff

  function Digit(d: nat): char
    requires d < 10
  {
    "0123456789"[d]
  }

  predicate IsDigit(c: char) {
    '0' <= c <= '9'
  }

  function Digits(n: nat): string {
    if n < 10 then [Digit(n)] else Digits(n / 10) + [Digit(n % 10)]
  }

  function Itoa(n: int): string {
    if n < 0 then "-" + Digits(-n) else Digits(n)
  }

  function ParseDigits(s: string): Option<nat> {
    if s == "" then None
    else
      var c := s[|s| - 1];
      var init := s[..|s| - 1];
      if !IsDigit(c) then None
      else if init == "" then Some(c as int - '0' as int)
      else
        match ParseDigits(init)
        case None => None
        case Some(high) => Some(10 * high + (c as int - '0' as int))
  }

  /** An optional sign and at least one digit, within the range of int. */
  function Atoi(s: string): Option<int> {
    var signed := s != "" && (s[0] == '-' || s[0] == '+');
    match ParseDigits(if signed then s[1..] else s)
    case None => None
    case Some(n) =>
      var v := if signed && s[0] == '-' then -(n as int) else n as int;
      if MIN_INT <= v <= MAX_INT then Some(v) else None
  }

  lemma DigitFacts(d: nat)
    requires d < 10
    ensures IsDigit(Digit(d)) && Digit(d) as int - '0' as int == d
  {
  }

  lemma {:induction false} DigitsParse(n: nat)
    ensures Digits(n) != "" && ParseDigits(Digits(n)) == Some(n)
    ensures forall i :: 0 <= i < |Digits(n)| ==> IsDigit(Digits(n)[i])
  {
    DigitFacts(n % 10);
    if n >= 10 {
      DigitsParse(n / 10);
      var s := Digits(n);
      assert s[..|s| - 1] == Digits(n / 10);
    }
  }

  /** Parsing what was printed gives the number back. */
  lemma ItoaAtoi(n: int)
    requires MIN_INT <= n <= MAX_INT
    ensures Atoi(Itoa(n)) == Some(n)
  {
    var digits := Digits(if n < 0 then -n else n);
    DigitsParse(if n < 0 then -n else n);
    assert digits[0] != '-' && digits[0] != '+';
    assert ("-" + digits)[1..] == digits;
  }

  lemma DigitsInjective(m: nat, n: nat)
    requires Digits(m) == Digits(n)
    ensures m == n
  {
    DigitsParse(m);
    DigitsParse(n);
  }

  lemma PrintedBytes(n: int)
    ensures forall c :: c in Itoa(n) ==> IsDigit(c) || (n < 0 && c == '-')
  {
    DigitsParse(if n < 0 then -n else n);
  }
}
