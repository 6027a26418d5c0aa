/**
 * Decimal numerals and the integer parses the parsers apply to their
 * `(\d*)` captures: `str::parse::<u64>()` and `str::parse::<u8>()`, whose
 * error (empty text, or a value beyond the type) every caller turns into 0.
 */
module Numbers {
  import opened Wrappers
  import opened Text

  const U64_LIMIT: nat := 0x1_0000_0000_0000_0000
  const U8_LIMIT: nat := 0x100

  type U64 = n: nat | n < 0x1_0000_0000_0000_0000
  type U8 = n: nat | n < 0x100

  predicate IsNumeral(s: string) {
    |s| > 0 && forall k :: 0 <= k < |s| ==> IsDigit(s[k])
  }

  function DigitValue(c: char): (d: nat)
    requires IsDigit(c)
    ensures d < 10
  {
    c as int - '0' as int
  }

  function DigitChar(d: nat): (c: char)
    requires d < 10
    ensures IsDigit(c) && DigitValue(c) == d
  {
    ('0' as int + d) as char
  }

  /** The value of a run of decimal digits (0 for the empty run). */
  function NumeralValue(s: string): nat
    requires forall k :: 0 <= k < |s| ==> IsDigit(s[k])
  {
    if s == [] then 0 else NumeralValue(s[..|s| - 1]) * 10 + DigitValue(s[|s| - 1])
  }

  /** The decimal numeral of n, without leading zeros. */
  function Decimal(n: nat): (s: string)
    ensures IsNumeral(s)
    ensures |s| > 1 ==> s[0] != '0'
  {
    if n < 10 then [DigitChar(n)] else Decimal(n / 10) + [DigitChar(n % 10)]
  }

  /** Reading back the numeral of n gives n. */
  lemma {:induction false} DecimalValue(n: nat)
    ensures NumeralValue(Decimal(n)) == n
  {
    if n >= 10 {
      var s := Decimal(n);
      assert s[..|s| - 1] == Decimal(n / 10);
      DecimalValue(n / 10);
    }
  }

  /** `parse::<u64>()` of a capture: the value when it is a numeral that fits. */
  function ParseU64(s: string): (r: Option<U64>)
    ensures r.Some? ==> IsNumeral(s) && r.value == NumeralValue(s)
    ensures r.None? ==> !IsNumeral(s) || NumeralValue(s) >= U64_LIMIT
  {
    if IsNumeral(s) && NumeralValue(s) < U64_LIMIT then Some(NumeralValue(s)) else None
  }

  /** `parse::<u8>()` of a capture: the value when it is a numeral that fits. */
  function ParseU8(s: string): (r: Option<U8>)
    ensures r.Some? ==> IsNumeral(s) && r.value == NumeralValue(s)
    ensures r.None? ==> !IsNumeral(s) || NumeralValue(s) >= U8_LIMIT
  {
    if IsNumeral(s) && NumeralValue(s) < U8_LIMIT then Some(NumeralValue(s)) else None
  }

  /** `match s.parse::<u64>() { Ok(n) => n, _ => 0 }` */
  function U64Or0(s: string): U64 {
    match ParseU64(s)
    case Some(n) => n
    case None => 0
  }

  /** `match s.parse::<u8>() { Ok(n) => n, _ => 0 }` */
  function U8Or0(s: string): U8 {
    match ParseU8(s)
    case Some(n) => n
    case None => 0
  }

  /** Parsing the numeral of n gives n when n fits the type and fails
      otherwise (a major number 259 is no u8); the empty capture fails. */
  lemma {:induction false} ParseDecimal(n: nat)
    ensures ParseU64(Decimal(n)) == if n < U64_LIMIT then Some(n) else None
    ensures ParseU8(Decimal(n)) == if n < U8_LIMIT then Some(n) else None
    ensures U64Or0(Decimal(n)) == if n < U64_LIMIT then n else 0
    ensures U8Or0(Decimal(n)) == if n < U8_LIMIT then n else 0
    ensures ParseU64("") == None && ParseU8("") == None
  {
    DecimalValue(n);
  }
}
