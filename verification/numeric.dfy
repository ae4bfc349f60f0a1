/** Machine integers and the decimal/hexadecimal text the collector reads and
    prints: the conversions behind `operator<<` with `std::setw`/`std::setfill`,
    and the strtoul-style conversion behind `operator>>` and
    `boost::lexical_cast<unsigned int>`. */
module Numeric {

  /** An `uint8_t`. */
  type Byte = x: int | 0 <= x < 256

  /** A 4-bit bit-field. */
  type Nibble = x: int | 0 <= x < 16

  const U32Modulus: nat := 0x1_0000_0000
  const MaxU32: nat := 0xFFFF_FFFF

  datatype Option<T> = None | Some(value: T)

  /** The truncating conversion `(uint8_t) n`. */
  function ToByte(n: int): Byte { n % 256 }

  /** Unsigned-int subtraction `a - b`, which wraps modulo 2^32. */
  function SubU32(a: nat, b: nat): (r: nat)
    requires a <= MaxU32 && b <= MaxU32
    ensures r <= MaxU32
    ensures a >= b ==> r == a - b
    ensures a < b ==> r == U32Modulus + a - b
  {
    (a - b) % U32Modulus
  }

  predicate IsDigit(c: char) { '0' <= c <= '9' }

  predicate AllDigits(s: string) { forall i :: 0 <= i < |s| ==> IsDigit(s[i]) }

  function DigitChar(d: nat): (c: char)
    requires d < 10
    ensures IsDigit(c) && c as int - '0' as int == d
  {
    (d + '0' as int) as char
  }

  /** The value of a run of decimal digits, most significant first (an empty run is 0). */
  function DigitsValue(s: string): nat
    requires AllDigits(s)
  {
    if s == [] then 0 else DigitsValue(s[..|s| - 1]) * 10 + (s[|s| - 1] as int - '0' as int)
  }

  /** The decimal text of `n`, without padding, as `operator<<` prints an unsigned integer. */
  function Decimal(n: nat): (s: string)
    ensures 1 <= |s| && AllDigits(s)
    ensures DigitsValue(s) == n
    ensures |s| == 1 <==> n < 10
    ensures n < 100 ==> |s| <= 2
    ensures n > 0 ==> s[0] != '0'
  {
    if n < 10 then [DigitChar(n)]
    else
      var s := Decimal(n / 10) + [DigitChar(n % 10)];
      assert s[..|s| - 1] == Decimal(n / 10);
      s
  }

  /** `s` padded on the left with `fill` to at least `width` characters, as `std::setw(width)`
      with `std::setfill(fill)` pads the next item printed. */
  function PadLeft(s: string, width: nat, fill: char): (r: string)
    ensures |r| == if |s| >= width then |s| else width
  {
    if |s| >= width then s else [fill] + PadLeft(s, width - 1, fill)
  }

  /** The padding is `width - |s|` fill characters in front of `s`. */
  lemma {:induction false} PadLeftShape(s: string, width: nat, fill: char)
    ensures PadLeft(s, width, fill) == seq(if |s| >= width then 0 else width - |s|, _ => fill) + s
  {
    if |s| < width {
      PadLeftShape(s, width - 1, fill);
    }
  }

  /** `std::setw(width) << std::setfill('0') << n`. */
  function ZeroPad(n: nat, width: nat): string
  {
    PadLeft(Decimal(n), width, '0')
  }

  /** Leading zeros do not change the value of a digit run. */
  lemma {:induction false} LeadingZeros(z: string, s: string)
    requires forall i :: 0 <= i < |z| ==> z[i] == '0'
    requires AllDigits(s)
    ensures AllDigits(z + s) && DigitsValue(z + s) == DigitsValue(s)
  {
    if s == [] {
      assert z + s == z;
      if z != [] {
        assert z[..|z| - 1] + [] == z[..|z| - 1];
        LeadingZeros(z[..|z| - 1], []);
      }
    } else {
      assert (z + s)[..|z + s| - 1] == z + s[..|s| - 1];
      LeadingZeros(z, s[..|s| - 1]);
    }
  }

  /** Zero padding keeps a number readable back: its digits still denote `n`. */
  lemma ZeroPadValue(n: nat, width: nat)
    ensures AllDigits(ZeroPad(n, width)) && DigitsValue(ZeroPad(n, width)) == n
    ensures |ZeroPad(n, width)| == (if |Decimal(n)| >= width then |Decimal(n)| else width)
  {
    var d := Decimal(n);
    PadLeftShape(d, width, '0');
    LeadingZeros(seq(if |d| >= width then 0 else width - |d|, _ => '0'), d);
  }

  /** A number from 1000 to 9999 is printed in exactly four digits. */
  lemma {:induction false} FourDigits(n: nat)
    requires 1000 <= n < 10000
    ensures |Decimal(n)| == 4
  {
    assert Decimal(n) == Decimal(n / 10) + [DigitChar(n % 10)];
    assert Decimal(n / 10) == Decimal(n / 10 / 10) + [DigitChar(n / 10 % 10)];
    assert Decimal(n / 10 / 10) == Decimal(n / 10 / 10 / 10) + [DigitChar(n / 10 / 10 % 10)];
  }

  /** A two-digit field for a number below 100 is its tens digit then its units digit. */
  lemma {:induction false} ZeroPad2Digits(n: nat)
    requires n < 100
    ensures ZeroPad(n, 2) == [DigitChar(n / 10), DigitChar(n % 10)]
  {
    if n >= 10 {
      assert Decimal(n / 10) == [DigitChar(n / 10)];
    } else {
      assert Decimal(n) == [DigitChar(n)];
      PadLeftShape(Decimal(n), 2, '0');
      assert DigitChar(n / 10) == '0';
    }
  }

  function HexDigit(d: nat): (c: char)
    requires d < 16
  {
    if d < 10 then (d + '0' as int) as char else (d - 10 + 'a' as int) as char
  }

  predicate IsHexDigit(c: char) { '0' <= c <= '9' || 'a' <= c <= 'f' }

  function HexDigitValue(c: char): nat
    requires IsHexDigit(c)
  {
    if c <= '9' then c as int - '0' as int else c as int - 'a' as int + 10
  }

  /** The value of a run of lower-case hexadecimal digits. */
  function HexValue(s: string): nat
    requires forall i :: 0 <= i < |s| ==> IsHexDigit(s[i])
  {
    if s == [] then 0 else HexValue(s[..|s| - 1]) * 16 + HexDigitValue(s[|s| - 1])
  }

  /** The lower-case hexadecimal text of `n`, as `std::hex << n` prints it. */
  function Hex(n: nat): (s: string)
    ensures 1 <= |s| && forall i :: 0 <= i < |s| ==> IsHexDigit(s[i])
    ensures HexValue(s) == n
  {
    if n < 16 then [HexDigit(n)]
    else
      var s := Hex(n / 16) + [HexDigit(n % 16)];
      assert s[..|s| - 1] == Hex(n / 16);
      s
  }

  /** strtoul-style conversion of a sign and a digit magnitude to `unsigned int`: a
      magnitude beyond the type's range fails, a minus sign negates modulo 2^32. */
  function ToUnsigned(negative: bool, magnitude: nat): (r: Option<nat>)
    ensures r.Some? <==> magnitude <= MaxU32
    ensures r.Some? ==> r.value <= MaxU32
    ensures r.Some? && !negative ==> r.value == magnitude
    ensures r.Some? && negative && magnitude > 0 ==> r.value == U32Modulus - magnitude
  {
    if magnitude > MaxU32 then None
    else Some(if negative then (U32Modulus - magnitude) % U32Modulus else magnitude)
  }

  /** Big-endian 16-bit decoding, `__be16_to_cpu` applied to two bytes as stored. */
  function Be16(hi: Byte, lo: Byte): (r: nat)
    ensures r < 0x1_0000
  {
    hi * 256 + lo
  }

  /** The two bytes, high first, that hold `n` in big-endian order. */
  function Be16Bytes(n: nat): (b: (Byte, Byte))
    requires n < 0x1_0000
  {
    (n / 256, n % 256)
  }

  /** Encoding then decoding a 16-bit value gives it back, and every byte pair is
      the encoding of its decoded value. */
  lemma Be16RoundTrip(n: nat, hi: Byte, lo: Byte)
    requires n < 0x1_0000
    ensures Be16(Be16Bytes(n).0, Be16Bytes(n).1) == n
    ensures Be16Bytes(Be16(hi, lo)) == (hi, lo)
  {
  }
}
