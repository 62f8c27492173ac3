/** Two's-complement conversion of a hex field to a signed integer, as
    twos_complement_hex_to_signed_int does it: parse unsigned, and if bit
    (width - 1) is set subtract 2^width. */
module TwosComplement {
  import opened PyBuiltins
  import opened BitFlags

  /** twos_complement_hex_to_signed_int(hex, bits).  int() runs first; then
      1 << (bits - 1) raises ValueError ("negative shift count") for bits = 0.
      Only bit bits - 1 is tested, so a value of 2^bits or more is not
      reduced into range. */
  function HexToSigned(hex: string, bits: nat): (r: Result<int>)
    requires IsPlainText(hex)
    ensures r.Raise? <==> hex == [] || !IsHexText(hex) || bits == 0
    ensures r.Raise? ==> r.error == ValueError
    ensures r.Ok? ==> r.value == HexValue(hex) || r.value == HexValue(hex) - Pow2(bits)
  {
    var v :- ParseHex(hex);
    if bits == 0 then Raise(ValueError)
    else Ok(if Bit(v, bits - 1) then v - Pow2(bits) else v)
  }

  /** The bit pattern in `bits` bits of a signed value: its inverse. */
  function Unsigned(x: int, bits: nat): int {
    if x < 0 then x + Pow2(bits) else x
  }

  /** For v < 2^(k+1), bit k is set exactly when v >= 2^k. */
  lemma {:induction false} TopBit(v: nat, k: nat)
    requires v < Pow2(k + 1)
    ensures Bit(v, k) <==> v >= Pow2(k)
  {
    if k > 0 {
      TopBit(v / 2, k - 1);
    }
  }

  /** On a field of value v < 2^bits the result is v when the top bit is
      clear and v - 2^bits when it is set, so it lies in
      [-2^(bits-1), 2^(bits-1)). */
  lemma SignedValue(hex: string, bits: nat)
    requires IsPlainText(hex) && IsHexText(hex) && hex != []
    requires bits >= 1 && HexValue(hex) < Pow2(bits)
    ensures HexToSigned(hex, bits).Ok?
    ensures var v, r := HexValue(hex), HexToSigned(hex, bits).value;
            (!Bit(v, bits - 1) ==> r == v) && (Bit(v, bits - 1) ==> r == v - Pow2(bits))
    ensures var r := HexToSigned(hex, bits).value;
            -(Pow2(bits - 1) as int) <= r < Pow2(bits - 1)
  {
    TopBit(HexValue(hex), bits - 1);
  }

  /** The conversion is undone by Unsigned, and encoding a value in range as
      hex digits and converting it back gives that value. */
  lemma RoundTrip(x: int, bits: nat, digits: nat)
    requires bits >= 1 && Pow2(bits) <= Pow16(digits)
    requires -(Pow2(bits - 1) as int) <= x < Pow2(bits - 1)
    ensures 0 <= Unsigned(x, bits) < Pow16(digits)
    ensures HexToSigned(HexEncode(Unsigned(x, bits), digits), bits) == Ok(x)
  {
    var u := Unsigned(x, bits);
    var hex := HexEncode(u, digits);
    HexRoundTrip(u, digits);
    TopBit(u, bits - 1);
  }

  /** Of a field value v < 2^bits, Unsigned recovers v. */
  lemma UnsignedInverse(hex: string, bits: nat)
    requires IsPlainText(hex) && IsHexText(hex) && hex != []
    requires bits >= 1 && HexValue(hex) < Pow2(bits)
    ensures HexToSigned(hex, bits).Ok?
    ensures Unsigned(HexToSigned(hex, bits).value, bits) == HexValue(hex)
  {
    SignedValue(hex, bits);
  }

  /** Width 16: "8000" is -32768, "7FFF" is 32767, "0001" is 1, "FFFF" is -1. */
  lemma Examples()
    ensures HexToSigned("8000", 16) == Ok(-32768)
    ensures HexToSigned("7FFF", 16) == Ok(32767)
    ensures HexToSigned("0001", 16) == Ok(1)
    ensures HexToSigned("FFFF", 16) == Ok(-1)
  {
    Pow2Values();
    Value4("8000", 8, 0, 0, 0);
    Value4("7FFF", 7, 15, 15, 15);
    Value4("0001", 0, 0, 0, 1);
    Value4("FFFF", 15, 15, 15, 15);
    TopBit(32768, 15);
    TopBit(32767, 15);
    TopBit(1, 15);
    TopBit(65535, 15);
  }

  /** The value of a four-digit field from its digit values. */
  lemma Value4(s: string, a: nat, b: nat, c: nat, d: nat)
    requires |s| == 4 && IsHexText(s)
    requires HexDigitValue(s[0]) == a && HexDigitValue(s[1]) == b
    requires HexDigitValue(s[2]) == c && HexDigitValue(s[3]) == d
    ensures HexValue(s) == 4096 * a + 256 * b + 16 * c + d
  {
    var s1, s2, s3 := s[..1], s[..2], s[..3];
    assert s1[..0] == [] && s2[..1] == s1 && s3[..2] == s2 && s[..3] == s3;
    assert HexValue(s1) == a;
    assert HexValue(s2) == 16 * a + b;
    assert HexValue(s3) == 256 * a + 16 * b + c;
  }
}
