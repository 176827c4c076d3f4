/** Numbers as text: std::to_string, std::stoul, std::stoi and the S-NSSAI SD parser built on them. */
module Numerals {

  type uint8 = x: int | 0 <= x < 0x100
  type uint32 = x: int | 0 <= x < 0x1_0000_0000
  type int32 = x: int | -0x8000_0000 <= x < 0x8000_0000

  const ULONG_RANGE: nat := 0x1_0000_0000_0000_0000
  const UINT_RANGE: nat := 0x1_0000_0000
  const SD_NO_VALUE: uint32 := 0xFF_FFFF

  datatype Option<T> = None | Some(value: T)

  lemma SomeElement<T>(s: set<T>) returns (x: T)
    requires s != {}
    ensures x in s
  {
    x :| x in s;
  }

  lemma Associate<T>(a: seq<T>, b: seq<T>, c: seq<T>)
    ensures a + (b + c) == a + b + c
  {
  }

  /** Where the first holds, the next holds iff the condition does. */
  ghost predicate Tied(good: seq<bool>, met: seq<bool>, n: nat) {
    |good| == |met| + 1 && n < |met| && (good[n] ==> (good[n + 1] <==> met[n]))
  }

  /** All hold iff all conditions do. */
  lemma AllIff(good: seq<bool>, met: seq<bool>)
    requires |good| == |met| + 1 && good[0] && forall n :: 0 <= n < |met| ==> Tied(good, met, n)
    ensures (forall n :: 0 <= n < |good| ==> good[n]) <==> (forall n :: 0 <= n < |met| ==> met[n])
  {
    if forall n :: 0 <= n < |met| ==> met[n] {
      forall n | 0 <= n < |good| ensures good[n] {
        AllUpTo(good, met, n);
      }
    }
    if forall n :: 0 <= n < |good| ==> good[n] {
      forall n | 0 <= n < |met| ensures met[n] {
        assert Tied(good, met, n) && good[n] && good[n + 1];
      }
    }
  }

  lemma {:induction false} AllUpTo(good: seq<bool>, met: seq<bool>, n: nat)
    requires |good| == |met| + 1 && good[0] && forall m :: 0 <= m < |met| ==> Tied(good, met, m)
    requires n < |good| && forall m :: 0 <= m < |met| ==> met[m]
    ensures good[n]
  {
    if n > 0 {
      AllUpTo(good, met, n - 1);
      assert Tied(good, met, n - 1);
    }
  }

  /** The two's complement reading of a 32-bit pattern, as when an uint32_t is stored in an int32_t. */
  function ToInt32(x: uint32): int32 {
    if x < 0x8000_0000 then x else x - UINT_RANGE
  }

  function ToUint32(x: int): uint32 {
    x % UINT_RANGE
  }

  // ---------------------------------------------------------------- digits

  predicate IsSpace(c: char) {
    c == ' ' || '\U{9}' <= c <= '\U{D}'
  }

  /** Space, tab, line feed, vertical tab, form feed, carriage return. */
  lemma Spaces(c: char)
    ensures IsSpace(c) <==> c as int in {32, 9, 10, 11, 12, 13}
  {
  }

  /** The value of a digit in bases up to 16, or 16 for any other character. */
  function DigitValue(c: char): (v: nat)
    ensures v <= 16
  {
    if '0' <= c <= '9' then c as int - '0' as int
    else if 'a' <= c <= 'f' then c as int - 'a' as int + 10
    else if 'A' <= c <= 'F' then c as int - 'A' as int + 10
    else 16
  }

  function DigitChar(d: nat): (c: char)
    requires d < 10
    ensures DigitValue(c) == d && !IsSpace(c) && c != '+' && c != '-'
  {
    ('0' as int + d) as char
  }

  predicate AllDigits(s: string, base: nat) {
    forall i :: 0 <= i < |s| ==> DigitValue(s[i]) < base
  }

  /** Positional value, most significant digit first. */
  function Value(s: string, base: nat): nat {
    if s == "" then 0 else Value(s[..|s| - 1], base) * base + DigitValue(s[|s| - 1])
  }

  /** std::to_string of a non-negative number. */
  function ToDecimal(n: nat): string {
    if n < 10 then [DigitChar(n)] else ToDecimal(n / 10) + [DigitChar(n % 10)]
  }

  /** The printed digits read back, most significant first, as the number. */
  lemma {:induction false} DecimalDigits(n: nat)
    ensures ToDecimal(n) != "" && AllDigits(ToDecimal(n), 10) && Value(ToDecimal(n), 10) == n
  {
    if n >= 10 {
      DecimalDigits(n / 10);
      assert ToDecimal(n)[..|ToDecimal(n)| - 1] == ToDecimal(n / 10);
    }
  }

  /** std::to_string of a signed number. */
  function ToSignedDecimal(n: int): string {
    if n < 0 then "-" + ToDecimal(-n) else ToDecimal(n)
  }

  lemma {:induction false} DecimalLength(n: nat, k: nat, bound: nat)
    requires k >= 1 && bound == Pow10(k)
    ensures |ToDecimal(n)| <= k <==> n < bound
  {
    if k == 1 {
      assert Pow10(1) == 10 * Pow10(0);
    } else if n >= 10 {
      DecimalLength(n / 10, k - 1, Pow10(k - 1));
    } else {
      Pow10Grows(k);
    }
  }

  function Pow10(k: nat): nat {
    if k == 0 then 1 else 10 * Pow10(k - 1)
  }

  lemma Pow10Grows(k: nat)
    requires k >= 1
    ensures Pow10(k) >= 10
  {
  }

  /** Decimal strings of equal numbers only: the printer is injective. */
  lemma ToDecimalInjective(m: nat, n: nat)
    requires ToDecimal(m) == ToDecimal(n)
    ensures m == n
  {
    DecimalDigits(m);
    DecimalDigits(n);
  }

  // ---------------------------------------------------------------- strtoul

  function SkipSpaces(s: string): string {
    if s != "" && IsSpace(s[0]) then SkipSpaces(s[1..]) else s
  }

  function DigitRun(s: string, base: nat): (k: nat)
    ensures k <= |s|
  {
    if s != "" && DigitValue(s[0]) < base then 1 + DigitRun(s[1..], base) else 0
  }

  predicate HasHexPrefix(s: string) {
    |s| >= 2 && s[0] == '0' && (s[1] == 'x' || s[1] == 'X')
  }

  /** The sign, and the magnitude of the longest numeral at the front of the string. */
  function ReadNumeral(s: string, base: nat): Option<(bool, nat)> {
    var t := SkipSpaces(s);
    var negative := t != "" && t[0] == '-';
    var u := if t != "" && (t[0] == '-' || t[0] == '+') then t[1..] else t;
    var v := if base == 16 && HasHexPrefix(u) && |u| > 2 && DigitValue(u[2]) < 16 then u[2..] else u;
    var k := DigitRun(v, base);
    if k == 0 then None else Some((negative, Value(v[..k], base)))
  }

  /** std::stoul; None stands for its invalid_argument and out_of_range exceptions. */
  function Stoul(s: string, base: nat): Option<nat> {
    match ReadNumeral(s, base)
    case None => None
    case Some((negative, magnitude)) =>
      if magnitude >= ULONG_RANGE then None
      else if negative && magnitude > 0 then Some(ULONG_RANGE - magnitude)
      else Some(magnitude)
  }

  /** std::stoi in base 10. */
  function Stoi(s: string): Option<int> {
    match ReadNumeral(s, 10)
    case None => None
    case Some((negative, magnitude)) =>
      var v: int := if negative then -(magnitude as int) else magnitude;
      if -0x8000_0000 <= v < 0x8000_0000 then Some(v) else None
  }

  /** conv::sd_string_to_int: the returned flag and the value stored. */
  function SdStringToInt(s: string): (bool, uint32) {
    if s == "" then (false, SD_NO_VALUE)
    else
      var base := if |s| > 2 && HasHexPrefix(s) then 16 else 10;
      match Stoul(s, base)
      case None => (false, SD_NO_VALUE)
      case Some(v) => (true, v % UINT_RANGE)
  }

  function SdValue(s: string): uint32 {
    SdStringToInt(s).1
  }

  // ---------------------------------------------------------------- round trips

  lemma {:induction false} DigitRunOfDigits(s: string, base: nat)
    requires AllDigits(s, base)
    ensures DigitRun(s, base) == |s|
  {
    if s != "" {
      DigitRunOfDigits(s[1..], base);
    }
  }

  lemma ReadDigits(d: string)
    requires d != "" && AllDigits(d, 10)
    ensures ReadNumeral(d, 10) == Some((false, Value(d, 10)))
  {
    assert DigitValue(d[0]) < 10;
    DigitRunOfDigits(d, 10);
    assert SkipSpaces(d) == d && d[..|d|] == d;
  }

  lemma ReadNegativeDigits(d: string)
    requires d != "" && AllDigits(d, 10)
    ensures ReadNumeral("-" + d, 10) == Some((true, Value(d, 10)))
  {
    DigitRunOfDigits(d, 10);
    var m := "-" + d;
    assert m[0] == '-' && SkipSpaces(m) == m && m[1..] == d && d[..|d|] == d;
  }

  lemma ReadDecimal(n: nat)
    ensures ReadNumeral(ToDecimal(n), 10) == Some((false, n))
    ensures ReadNumeral("-" + ToDecimal(n), 10) == Some((true, n))
  {
    DecimalDigits(n);
    ReadDigits(ToDecimal(n));
    ReadNegativeDigits(ToDecimal(n));
  }

  lemma StoiOfDecimal(n: nat)
    requires n < 0x8000_0000
    ensures Stoi(ToDecimal(n)) == Some(n)
  {
    ReadDecimal(n);
  }

  /** std::stoi reads back every number of 32 bits, and throws on any other. */
  lemma StoiReadsInts(n: int)
    ensures Stoi(ToSignedDecimal(n)) == if -0x8000_0000 <= n < 0x8000_0000 then Some(n) else None
  {
    ReadDecimal(if n < 0 then -n else n);
  }

  lemma DigitsAreNotHexPrefixed(s: string)
    requires AllDigits(s, 10)
    ensures !HasHexPrefix(s) && !HasHexPrefix("-" + s)
  {
    if |s| >= 2 {
      assert DigitValue(s[1]) < 10;
    }
    assert ("-" + s)[0] == '-';
  }

  lemma SdOfNumeral(s: string, negative: bool, magnitude: nat)
    requires s != "" && !HasHexPrefix(s) && ReadNumeral(s, 10) == Some((negative, magnitude))
    requires magnitude < ULONG_RANGE
    ensures SdStringToInt(s)
         == (true, (if negative && magnitude > 0 then ULONG_RANGE - magnitude else magnitude) % UINT_RANGE)
  {
  }

  lemma TwosComplement(sd: int)
    requires -0x8000_0000 <= sd < 0x1_0000_0000
    ensures (ULONG_RANGE + sd) % UINT_RANGE == sd % UINT_RANGE
    ensures sd >= 0 ==> sd % UINT_RANGE == sd
    ensures sd < 0x8000_0000 ==> ToInt32(sd % UINT_RANGE) == sd
  {
  }

  /** Every 32-bit SD survives being printed (as a signed number) and parsed again. */
  lemma SdRoundTrip(sd: int32)
    ensures SdStringToInt(ToSignedDecimal(sd)) == (true, ToUint32(sd))
    ensures ToInt32(SdValue(ToSignedDecimal(sd))) == sd
  {
    var magnitude: nat := if sd < 0 then -(sd as int) else sd as int;
    ReadDecimal(magnitude);
    DecimalDigits(magnitude);
    DigitsAreNotHexPrefixed(ToDecimal(magnitude));
    SdOfNumeral(ToSignedDecimal(sd), sd < 0, magnitude);
    TwosComplement(sd);
  }

  lemma BarePrefixIsZero()
    ensures SdStringToInt("0x") == (true, 0)
  {
    assert DigitValue('x') == 16 && "0x"[1..] == "x" && DigitRun("x", 10) == 0;
    assert SkipSpaces("0x") == "0x" && DigitRun("0x", 10) == 1 && "0x"[..1] == "0";
    assert "0"[..0] == "" && Value("0", 10) == 0;
    assert ReadNumeral("0x", 10) == Some((false, 0));
  }

  /** White space and a sign before the number are skipped, and so is what follows it. */
  lemma LeadingNumber()
    ensures SdStringToInt(" +7x") == (true, 7)
  {
    var s := " +7x";
    assert s[1..] == "+7x" && SkipSpaces("+7x") == "+7x" && SkipSpaces(s) == "+7x";
    assert "+7x"[1..] == "7x" && "7x"[1..] == "x" && DigitValue('x') == 16 && DigitRun("x", 10) == 0;
    assert DigitRun("7x", 10) == 1 && "7x"[..1] == "7" && "7"[..0] == "" && Value("7", 10) == 7;
    assert ReadNumeral(s, 10) == Some((false, 7));
  }

  lemma NoNumberIsNoSd(s: string)
    requires ReadNumeral(s, 10) == None && !HasHexPrefix(s)
    ensures SdStringToInt(s) == (false, SD_NO_VALUE)
  {
  }

  /** What sd_string_to_int makes of texts that are no decimal number: the empty one has no SD, "0x" alone is the number
      0, and with a digit behind it the prefix, in either case, makes the base 16. */
  lemma SdTexts()
    ensures SdStringToInt("") == (false, SD_NO_VALUE)
    ensures SdStringToInt("0x") == (true, 0)
    ensures SdStringToInt("0x0A") == (true, 10) && SdStringToInt("0Xff") == (true, 255)
    ensures SdStringToInt("none") == (false, SD_NO_VALUE)
    ensures SdStringToInt(" +7x") == (true, 7)
  {
    LeadingNumber();
    HexText("0x0A", "0A", 10);
    HexText("0Xff", "ff", 255);
    BarePrefixIsZero();
    assert SkipSpaces("none") == "none" && DigitRun("none", 10) == 0;
    NoNumberIsNoSd("none");
  }

  lemma HexText(s: string, digits: string, v: nat)
    requires |digits| == 2 && AllDigits(digits, 16) && (s == "0x" + digits || s == "0X" + digits)
    requires v == DigitValue(digits[0]) * 16 + DigitValue(digits[1])
    ensures SdStringToInt(s) == (true, v)
  {
    assert SkipSpaces(s) == s && s[2..] == digits;
    DigitRunOfDigits(digits, 16);
    assert digits[..2] == digits && digits[..1][..0] == "" && Value(digits[..1], 16) == DigitValue(digits[0]);
    assert ReadNumeral(s, 16) == Some((false, v));
  }

  /** The unsigned printer, used where the configuration is sent to the gNB. */
  lemma SdRoundTripUnsigned(sd: uint32)
    ensures SdStringToInt(ToDecimal(sd)) == (true, sd)
  {
    ReadDecimal(sd);
    DecimalDigits(sd);
    DigitsAreNotHexPrefixed(ToDecimal(sd));
    SdOfNumeral(ToDecimal(sd), false, sd);
    TwosComplement(sd);
  }
}
