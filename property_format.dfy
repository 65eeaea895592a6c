/**
 * Rendering of device property values, which the runtime carries as a
 * type-erased `any`. The tag says which C++ type the value holds; only the
 * tags the formatters distinguish get a constructor of their own.
 */
module PropertyFormat {
  import opened Common
  import opened Arith

  const U64_LIMIT: nat := 0x1_0000_0000_0000_0000
  type u64 = x: nat | x < U64_LIMIT
  type u16 = x: nat | x < 0x1_0000
  type u8 = x: nat | x < 0x100

  /** The name the C++ runtime reports for `uint8_t` (Itanium C++ ABI mangling). */
  const U8_TYPE_NAME: string := "h"
  /** The name the C++ runtime reports for `int` (Itanium C++ ABI mangling). */
  const INT_TYPE_NAME: string := "i"

  datatype AnyValue =
    | AnyString(s: string)
    | AnyU64(u: u64)
    | AnyU16(w: u16)
    | AnyU8(b: u8)
    | AnyBool(flag: bool)
    | AnyOther(typeName: string)  // any other held type, by the name typeid reports

  /** The name typeid reports for the held type, where the formatters print it. */
  function TypeName(v: AnyValue): (name: string)
    requires v.AnyU8? || v.AnyOther?
    ensures v.AnyU8? ==> name == U8_TYPE_NAME
    ensures v.AnyOther? ==> name == v.typeName
  {
    if v.AnyU8? then U8_TYPE_NAME else v.typeName
  }

  // ---------------------------------------------------------------------
  // Numerals

  const DIGITS: string := "0123456789abcdef"

  /** The lowercase digit for d. */
  function DigitChar(d: nat): (c: char)
    requires d < 16
  {
    DIGITS[d]
  }

  /** The value of a lowercase digit; 16 for anything else. */
  function DigitValue(c: char): (d: nat)
  {
    if '0' <= c <= '9' then c as nat - '0' as nat
    else if 'a' <= c <= 'f' then c as nat - 'a' as nat + 10
    else 16
  }

  lemma DigitRoundTrip(d: nat)
    requires d < 16
    ensures DigitValue(DigitChar(d)) == d
  {
  }

  /** The number a numeral in the given base denotes, most significant digit first. */
  function ValueOf(s: string, base: nat): (v: nat)
  {
    if s == [] then 0 else ValueOf(s[..|s| - 1], base) * base + DigitValue(s[|s| - 1])
  }

  /** A canonical numeral: digits of the base only, and no leading zero unless it is "0". */
  predicate IsNumeral(s: string, base: nat)
  {
    && |s| > 0
    && (forall i :: 0 <= i < |s| ==> DigitValue(s[i]) < base)
    && (|s| > 1 ==> s[0] != '0')
  }

  /** n in the given base, as std::to_string (base 10) or "%x" (base 16) writes it. */
  function Numeral(n: nat, base: nat): (s: string)
    requires 2 <= base <= 16
    ensures IsNumeral(s, base)
    ensures ValueOf(s, base) == n
    decreases n
  {
    if n < base then
      DigitRoundTrip(n);
      [DigitChar(n)]
    else
      QuotientPositive(n, base);
      var prefix := Numeral(n / base, base);
      NumeralStep(n, base, prefix);
      prefix + [DigitChar(n % base)]
  }

  /** The recursive case of Numeral: the numeral of n / base followed by the digit n % base. */
  lemma NumeralStep(n: nat, base: nat, prefix: string)
    requires 2 <= base <= 16 && base <= n
    requires IsNumeral(prefix, base) && ValueOf(prefix, base) == n / base
    ensures IsNumeral(prefix + [DigitChar(n % base)], base)
    ensures ValueOf(prefix + [DigitChar(n % base)], base) == n
  {
    QuotientPositive(n, base);
    AppendDigit(prefix, n % base, base);
    DivModSplit(n, base);
  }

  /** Appending a digit to a numeral of a positive number multiplies by the base and adds the digit. */
  lemma AppendDigit(prefix: string, d: nat, base: nat)
    requires 2 <= base <= 16 && d < base
    requires IsNumeral(prefix, base) && ValueOf(prefix, base) > 0
    ensures IsNumeral(prefix + [DigitChar(d)], base)
    ensures ValueOf(prefix + [DigitChar(d)], base) == ValueOf(prefix, base) * base + d
  {
    var s := prefix + [DigitChar(d)];
    DigitRoundTrip(d);
    assert s[..|s| - 1] == prefix;
    if |prefix| == 1 {
      assert prefix[0] != '0';
    }
    assert s[0] == prefix[0];
  }

  /** Canonical numerals are unique: two numerals of the same value are the same string. */
  lemma {:induction false} NumeralUnique(s: string, t: string, base: nat)
    requires 2 <= base <= 16
    requires IsNumeral(s, base) && IsNumeral(t, base)
    requires ValueOf(s, base) == ValueOf(t, base)
    ensures s == t
    decreases |s|
  {
    var s', t' := s[..|s| - 1], t[..|t| - 1];
    var ds, dt := DigitValue(s[|s| - 1]), DigitValue(t[|t| - 1]);
    ValueDivMod(s', ds, base, ValueOf(s, base));
    ValueDivMod(t', dt, base, ValueOf(t, base));
    assert ds == dt && ValueOf(s', base) == ValueOf(t', base);
    if |s| == 1 || |t| == 1 {
      if |s| == 1 && |t| == 1 {
        CharOfDigit(s[0], t[0]);
      } else if |s| == 1 {
        LeadingDigitPositive(t', base);
        assert false;
      } else {
        LeadingDigitPositive(s', base);
        assert false;
      }
    } else {
      assert IsNumeral(s', base) && IsNumeral(t', base);
      NumeralUnique(s', t', base);
      CharOfDigit(s[|s| - 1], t[|t| - 1]);
      assert s == s' + [s[|s| - 1]] && t == t' + [t[|t| - 1]];
    }
  }

  /** Splitting off the last digit: v == p * base + d with d < base determines p and d. */
  lemma ValueDivMod(prefix: string, d: nat, base: nat, v: nat)
    requires 2 <= base && d < base
    requires v == ValueOf(prefix, base) * base + d
    ensures v / base == ValueOf(prefix, base) && v % base == d
  {
    DivModUnique(v, base, ValueOf(prefix, base), d);
  }

  /** Two lowercase digits with the same value are the same character. */
  lemma CharOfDigit(a: char, b: char)
    requires DigitValue(a) < 16 && DigitValue(a) == DigitValue(b)
    ensures a == b
  {
  }

  /** A numeral with no leading zero denotes a positive number. */
  lemma {:induction false} LeadingDigitPositive(s: string, base: nat)
    requires 2 <= base && |s| > 0 && s[0] != '0'
    requires forall i :: 0 <= i < |s| ==> DigitValue(s[i]) < base
    ensures ValueOf(s, base) > 0
    decreases |s|
  {
    if |s| == 1 {
      assert DigitValue(s[0]) != 0;
    } else {
      var p := s[..|s| - 1];
      assert p[0] == s[0];
      LeadingDigitPositive(p, base);
      MulMonotone(1, base, ValueOf(p, base));
    }
  }

  /** Decimal rendering. */
  function Decimal(n: nat): (s: string)
    ensures IsNumeral(s, 10) && ValueOf(s, 10) == n
  {
    Numeral(n, 10)
  }

  /** Lowercase hexadecimal rendering, without prefix or padding. */
  function Hex(n: nat): (s: string)
    ensures IsNumeral(s, 16) && ValueOf(s, 16) == n
  {
    Numeral(n, 16)
  }

  // ---------------------------------------------------------------------
  // The formatters

  /** s is "0x" followed by the canonical lowercase hex numeral of n. */
  predicate IsHexLiteral(s: string, n: nat)
  {
    |s| > 2 && s[..2] == "0x" && IsNumeral(s[2..], 16) && ValueOf(s[2..], 16) == n
  }

  /**
   * Strings as they are, unsigned integers in decimal, booleans as words;
   * any other held type is an error naming that type.
   */
  function FormatPrimative(v: AnyValue): (r: Result<string>)
    ensures r.Err? <==> v.AnyU8? || v.AnyOther?
    ensures r.Err? ==> r.error == UnsupportedAny(TypeName(v))
    ensures v.AnyString? ==> r == Ok(v.s)
    ensures v.AnyU64? ==> r.Ok? && IsNumeral(r.value, 10) && ValueOf(r.value, 10) == v.u
    ensures v.AnyU16? ==> r.Ok? && IsNumeral(r.value, 10) && ValueOf(r.value, 10) == v.w
    ensures v.AnyBool? ==> r.Ok? && (r.value == "true" <==> v.flag) && (r.value == "false" <==> !v.flag)
  {
    match v
    case AnyString(s) => Ok(s)
    case AnyU64(u) => Ok(Decimal(u))
    case AnyU16(w) => Ok(Decimal(w))
    case AnyBool(flag) => Ok(if flag then "true" else "false")
    case _ => Err(UnsupportedAny(TypeName(v)))
  }

  /**
   * Unsigned integers as "0x" and lowercase hex; a `uint8_t` is streamed as
   * the character with that code; anything else as FormatPrimative has it.
   */
  function FormatHex(v: AnyValue): (r: Result<string>)
    ensures v.AnyU64? ==> r.Ok? && IsHexLiteral(r.value, v.u)
    ensures v.AnyU16? ==> r.Ok? && IsHexLiteral(r.value, v.w)
    ensures v.AnyU8? ==> r.Ok? && |r.value| == 3 && r.value[..2] == "0x" && r.value[2] as nat == v.b
    ensures !(v.AnyU64? || v.AnyU16? || v.AnyU8?) ==> r == FormatPrimative(v)
  {
    match v
    case AnyU64(u) => Ok("0x" + Hex(u))
    case AnyU16(w) => Ok("0x" + Hex(w))
    case AnyU8(b) => Ok("0x" + [b as char])
    case _ => FormatPrimative(v)
  }

  /** A 64-bit left shift by 30, which drops the bits shifted past bit 63. */
  function ShiftUp30(u: u64): (r: u64)
    ensures r % 0x4000_0000 == 0
    ensures r == (u % 0x4_0000_0000) * 0x4000_0000
  {
    ShiftUp30Wraps(u);
    (u * 0x4000_0000) % U64_LIMIT
  }

  /** u * 2^30 mod 2^64 keeps only the low 34 bits of u. */
  lemma ShiftUp30Wraps(u: nat)
    ensures (u * 0x4000_0000) % U64_LIMIT == (u % 0x4_0000_0000) * 0x4000_0000
  {
    var q, r := u / 0x4_0000_0000, u % 0x4_0000_0000;
    assert u == q * 0x4_0000_0000 + r;
    assert u * 0x4000_0000 == q * U64_LIMIT + r * 0x4000_0000;
    assert r * 0x4000_0000 < U64_LIMIT;
  }

  /**
   * Hex of the value shifted up by 30 bits (giga units). Only a `uint64_t`
   * keeps its type through the shift; a `uint16_t` or `uint8_t` is promoted
   * to `int`, which the later formatting rejects as an unsupported type.
   */
  function FormatHexBase2Shiftup30(v: AnyValue): (r: Result<string>)
    ensures v.AnyU64? ==> r.Ok? && IsHexLiteral(r.value, (v.u % 0x4_0000_0000) * 0x4000_0000)
    ensures v.AnyU16? || v.AnyU8? ==> r == Err(UnsupportedAny(INT_TYPE_NAME))
    ensures !(v.AnyU64? || v.AnyU16? || v.AnyU8?) ==> r == FormatPrimative(v)
  {
    match v
    case AnyU64(u) => FormatHex(AnyU64(ShiftUp30(u)))
    case AnyU16(_) => FormatHex(AnyOther(INT_TYPE_NAME))
    case AnyU8(_) => FormatHex(AnyOther(INT_TYPE_NAME))
    case _ => FormatPrimative(v)
  }

  /** Hex output is a faithful rendering: equal strings come from equal values. */
  lemma FormatHexInjective(u: u64, w: u64)
    requires FormatHex(AnyU64(u)) == FormatHex(AnyU64(w))
    ensures u == w
  {
    var r := FormatHex(AnyU64(u)).value;
    assert IsHexLiteral(r, u) && IsHexLiteral(r, w);
  }

  /** Shifting by 30 is invisible only modulo 2^34: values that agree there print alike. */
  lemma ShiftupAgreesModulo34Bits(u: u64, w: u64)
    requires u % 0x4_0000_0000 == w % 0x4_0000_0000
    ensures FormatHexBase2Shiftup30(AnyU64(u)) == FormatHexBase2Shiftup30(AnyU64(w))
  {
  }
}
