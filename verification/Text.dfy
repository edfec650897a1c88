/** Decimal and hexadecimal text, as the C++ library prints and parses it. */
module Text {
  import opened Wrappers

  type U64 = n: int | 0 <= n < 0x1_0000_0000_0000_0000
  type I64 = n: int | -0x8000_0000_0000_0000 <= n < 0x8000_0000_0000_0000
  type I32 = n: int | -0x8000_0000 <= n < 0x8000_0000

  /** static_cast<std::int64_t> of an unsigned value: two's complement wrap-around. */
  function AsI64(n: U64): I64 {
    if n < 0x8000_0000_0000_0000 then n else n - 0x1_0000_0000_0000_0000
  }

  /** static_cast<int> of a 64-bit register: the low 32 bits, read as a signed number. */
  function ToI32(n: int): I32 {
    var low := n % 0x1_0000_0000;
    if low < 0x8000_0000 then low else low - 0x1_0000_0000
  }

  /** The cast keeps the low 32 bits and reads them as a signed number. */
  lemma CastKeepsLowBits(n: int, k: I32, laps: int)
    requires n == laps * 0x1_0000_0000 + k
    ensures ToI32(n) == k
  {
    if k >= 0 {
      assert n % 0x1_0000_0000 == k;
    } else {
      assert n == (laps - 1) * 0x1_0000_0000 + (k + 0x1_0000_0000);
    }
  }

  predicate IsDigit(c: char) {
    '0' <= c <= '9'
  }

  predicate AllDigits(s: string) {
    forall i | 0 <= i < |s| :: IsDigit(s[i])
  }

  function DecimalNat(n: nat): string {
    if n < 10 then [n as char + '0'] else DecimalNat(n / 10) + [(n % 10) as char + '0']
  }

  function Abs(n: int): nat {
    if n < 0 then -n else n
  }

  /** std::to_string */
  function Decimal(n: int): string {
    if n < 0 then "-" + DecimalNat(-n) else DecimalNat(n)
  }

  function HexDigit(d: nat): char
    requires d < 16
  {
    if d < 10 then d as char + '0' else (d - 10) as char + 'a'
  }

  /** std::hex output of an unsigned number. */
  function Hex(n: nat): string {
    if n < 16 then [HexDigit(n)] else Hex(n / 16) + [HexDigit(n % 16)]
  }

  /** The number that a run of digits denotes. */
  function Value(digits: string): nat
    requires AllDigits(digits)
  {
    if digits == "" then 0
    else
      var k := |digits| - 1;
      Value(digits[..k]) * 10 + (digits[k] - '0') as int
  }

  lemma {:induction false} DecimalNatValue(n: nat)
    ensures DecimalNat(n) != "" && AllDigits(DecimalNat(n)) && Value(DecimalNat(n)) == n
  {
    if n >= 10 {
      DecimalNatValue(n / 10);
      var s := DecimalNat(n);
      assert s[..|s| - 1] == DecimalNat(n / 10);
    }
  }

  /** Only a negative number is printed with a sign. */
  lemma {:induction false} DecimalHead(n: int)
    ensures Decimal(n) != ""
    ensures n < 0 ==> Decimal(n)[0] == '-' && Decimal(n)[1..] == DecimalNat(-n)
    ensures n >= 0 ==> IsDigit(Decimal(n)[0])
  {
    DecimalNatValue(Abs(n));
  }

  predicate IsSpace(c: char) {
    c == ' ' || '\t' <= c <= '\r'
  }

  function SkipSpaces(s: string): string {
    if s != "" && IsSpace(s[0]) then SkipSpaces(s[1..]) else s
  }

  function DigitPrefix(s: string): (r: string)
    ensures AllDigits(r)
  {
    if s != "" && IsDigit(s[0]) then [s[0]] + DigitPrefix(s[1..]) else ""
  }

  lemma {:induction false} DigitPrefixOfDigits(s: string)
    requires AllDigits(s)
    ensures DigitPrefix(s) == s
  {
    if s != "" {
      DigitPrefixOfDigits(s[1..]);
    }
  }

  /** std::stoll: leading blanks, a sign and a digit prefix; None stands for either exception. */
  function Stoll(s: string): Option<I64> {
    var t := SkipSpaces(s);
    var signed := t != "" && (t[0] == '-' || t[0] == '+');
    var digits := DigitPrefix(if signed then t[1..] else t);
    if digits == "" then None
    else
      var m: int := Value(digits);
      var v := if signed && t[0] == '-' then -m else m;
      if -0x8000_0000_0000_0000 <= v < 0x8000_0000_0000_0000 then Some(v) else None
  }

  /** Reading back what std::to_string printed, for every value that fits. */
  lemma StollOfDecimal(n: int)
    ensures Stoll(Decimal(n)) ==
            if -0x8000_0000_0000_0000 <= n < 0x8000_0000_0000_0000 then Some(n) else None
  {
    DecimalHead(n);
    var d := DecimalNat(Abs(n));
    DecimalNatValue(Abs(n));
    DigitPrefixOfDigits(d);
    assert SkipSpaces(Decimal(n)) == Decimal(n);
  }

  /** std::from_chars for an unsigned 64-bit number that must use up the whole text. */
  function FromCharsU64(s: string): Option<U64> {
    if s != "" && AllDigits(s) && Value(s) < 0x1_0000_0000_0000_0000 then Some(Value(s)) else None
  }

  /** std::from_chars for an int that must use up the whole text. */
  function FromCharsInt(s: string): Option<I32> {
    var negative := s != "" && s[0] == '-';
    var digits := if negative then s[1..] else s;
    if digits != "" && AllDigits(digits) then
      var m: int := Value(digits);
      var v := if negative then -m else m;
      if -0x8000_0000 <= v < 0x8000_0000 then Some(v) else None
    else None
  }

  lemma FromCharsU64OfDecimal(n: U64)
    ensures FromCharsU64(Decimal(n)) == Some(n)
  {
    DecimalNatValue(n);
  }

  lemma FromCharsIntOfDecimal(n: I32)
    ensures FromCharsInt(Decimal(n)) == Some(n)
  {
    DecimalHead(n);
    DecimalNatValue(Abs(n));
  }

  /** Printed numbers hold no NUL byte. */
  lemma DecimalHasNoNul(n: int)
    ensures '\0' !in Decimal(n)
  {
    DecimalHead(n);
    var d := DecimalNat(Abs(n));
    DecimalNatValue(Abs(n));
    assert forall i | 0 <= i < |d| :: IsDigit(d[i]);
  }

  /** A decimal text is at most as long as the number of digits allows. */
  lemma {:induction false} DecimalNatLength(n: nat, digits: nat, bound: nat)
    requires digits > 0 && bound == Power10(digits) && n < bound
    ensures |DecimalNat(n)| <= digits
    decreases digits
  {
    if n >= 10 {
      DecimalNatLength(n / 10, digits - 1, bound / 10);
    }
  }

  function Power10(k: nat): nat {
    if k == 0 then 1 else 10 * Power10(k - 1)
  }
}
