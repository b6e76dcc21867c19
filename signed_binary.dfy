/** The saturating two's-complement encoder `to_signed_binary` of matrix.py, and the
    two's-complement decoder it is proved against. Bit strings are `string`s of '0'/'1',
    most significant bit first. */
module SignedBinary {

  /** 2 to the power e (`2**e`, `1 << e`). */
  function Pow2(e: nat): (r: nat)
    ensures r >= 1
  {
    if e == 0 then 1 else 2 * Pow2(e - 1)
  }

  predicate IsBinary(s: string) {
    forall i :: 0 <= i < |s| ==> s[i] == '0' || s[i] == '1'
  }

  /** Smallest value representable in `bits`-bit two's complement. */
  function MinSigned(bits: nat): int
    requires bits >= 1
  {
    -(Pow2(bits - 1) as int)
  }

  /** Largest value representable in `bits`-bit two's complement. */
  function MaxSigned(bits: nat): int
    requires bits >= 1
  {
    Pow2(bits - 1) - 1
  }

  lemma WidthBounds()
    ensures MinSigned(8) == -128 && MaxSigned(8) == 127
    ensures MinSigned(16) == -32768 && MaxSigned(16) == 32767
    ensures Pow2(8) == 256 && Pow2(16) == 65536
  {
  }

  /** The clamping step: a number above the range becomes the maximum, one below it the
      minimum, and one inside it (bounds included) is kept. */
  function Saturate(number: int, bits: nat): (v: int)
    requires bits >= 1
    ensures MinSigned(bits) <= v <= MaxSigned(bits)
    ensures MinSigned(bits) <= number <= MaxSigned(bits) ==> v == number
    ensures number > MaxSigned(bits) ==> v == MaxSigned(bits)
    ensures number < MinSigned(bits) ==> v == MinSigned(bits)
  {
    if number > MaxSigned(bits) then MaxSigned(bits)
    else if number < MinSigned(bits) then MinSigned(bits)
    else number
  }

  function Digit(b: nat): char
    requires b < 2
  {
    if b == 1 then '1' else '0'
  }

  /** Python's `format(x, 'b')`: the shortest binary numeral of x ("0" for zero). */
  function Bin(x: nat): (s: string)
    ensures |s| >= 1 && IsBinary(s)
  {
    if x < 2 then [Digit(x)] else Bin(x / 2) + [Digit(x % 2)]
  }

  /** k '0' characters. */
  function Zeros(k: nat): (z: string)
  {
    seq(k, _ => '0')
  }

  /** Python's `format(x, '0{width}b')`: Bin(x) left-padded with '0' to `width` characters;
      never truncated when the numeral is longer. */
  function FormatBinary(x: nat, width: nat): (s: string)
    ensures IsBinary(s) && |s| >= width
  {
    var digits := Bin(x);
    if |digits| >= width then digits else Zeros(width - |digits|) + digits
  }

  /** The unsigned number whose `bits`-digit numeral is the two's-complement form of v:
      v itself when non-negative, `(1 << bits) + v` when negative. */
  function Offset(v: int, bits: nat): (u: nat)
    requires bits >= 1 && MinSigned(bits) <= v <= MaxSigned(bits)
    ensures u < Pow2(bits)
    ensures v >= 0 <==> u < Pow2(bits - 1)
  {
    if v >= 0 then v else Pow2(bits) + v
  }

  /** `to_signed_binary(number, bits)`: saturate into the signed range of `bits` bits, then
      write the Offset of the clamped value in binary, zero-padded to `bits` characters. */
  function ToSignedBinary(number: int, bits: nat): (r: string)
    requires bits >= 1
    ensures |r| == bits && IsBinary(r)
  {
    var u := Offset(Saturate(number, bits), bits);
    BinFits(u, bits);
    FormatBinary(u, bits)
  }

  // ----- Decoder -----

  /** A bit string read as an unsigned binary numeral. */
  function Unsigned(s: string): (r: nat)
    ensures r < Pow2(|s|)
  {
    if s == [] then 0 else (if s[0] == '1' then Pow2(|s| - 1) else 0) + Unsigned(s[1..])
  }

  /** A bit string read as a |s|-bit two's-complement integer: the leading bit weighs
      -2^(|s|-1). */
  function Signed(s: string): (r: int)
    ensures s != [] ==> -(Pow2(|s| - 1) as int) <= r < Pow2(|s| - 1)
  {
    if s != [] && s[0] == '1' then Unsigned(s) - Pow2(|s|) else Unsigned(s)
  }

  // ----- Lemmas -----

  /** A value below 2^w has a binary numeral of at most w digits. */
  lemma {:induction false} BinFits(x: nat, w: nat)
    requires w >= 1 && x < Pow2(w)
    ensures |Bin(x)| <= w
  {
    if x >= 2 {
      BinFits(x / 2, w - 1);
    }
  }

  lemma {:induction false} UnsignedAppend(s: string, c: char)
    ensures Unsigned(s + [c]) == 2 * Unsigned(s) + (if c == '1' then 1 else 0)
  {
    if s != [] {
      assert (s + [c])[1..] == s[1..] + [c];
      UnsignedAppend(s[1..], c);
    }
  }

  /** Bin is the inverse of Unsigned on natural numbers. */
  lemma {:induction false} UnsignedBin(x: nat)
    ensures Unsigned(Bin(x)) == x
  {
    if x >= 2 {
      UnsignedBin(x / 2);
      UnsignedAppend(Bin(x / 2), Digit(x % 2));
    }
  }

  /** Leading zeros do not change the unsigned value. */
  lemma {:induction false} UnsignedZeros(k: nat, s: string)
    ensures Unsigned(Zeros(k) + s) == Unsigned(s)
  {
    if k > 0 {
      var z := Zeros(k) + s;
      assert z[0] == '0' && z[1..] == Zeros(k - 1) + s;
      assert Unsigned(z) == Unsigned(z[1..]);
      UnsignedZeros(k - 1, s);
    } else {
      assert Zeros(k) + s == s;
    }
  }

  lemma UnsignedFormat(x: nat, width: nat)
    ensures Unsigned(FormatBinary(x, width)) == x
  {
    UnsignedBin(x);
    if |Bin(x)| < width {
      UnsignedZeros(width - |Bin(x)|, Bin(x));
    }
  }

  /** The unsigned reading of the encoder's output is the Offset of the clamped value. */
  lemma UnsignedEncoding(number: int, bits: nat)
    requires bits >= 1
    ensures Unsigned(ToSignedBinary(number, bits)) == Offset(Saturate(number, bits), bits)
  {
    UnsignedFormat(Offset(Saturate(number, bits), bits), bits);
  }

  /** The leading bit of a bit string is set exactly when its unsigned value reaches
      2^(|s|-1). */
  lemma TopBit(s: string)
    requires s != [] && IsBinary(s)
    ensures s[0] == '1' <==> Unsigned(s) >= Pow2(|s| - 1)
  {
    assert Unsigned(s[1..]) < Pow2(|s| - 1);
  }

  /** Decoding the encoder's output gives the saturated input: saturation and round trip
      in one statement. */
  lemma EncodeDecode(number: int, bits: nat)
    requires bits >= 1
    ensures Signed(ToSignedBinary(number, bits)) == Saturate(number, bits)
  {
    var r := ToSignedBinary(number, bits);
    UnsignedEncoding(number, bits);
    TopBit(r);
  }

  /** Inside [-2^(bits-1), 2^(bits-1)-1], bounds included, decoding gives the number back. */
  lemma RoundTrip(number: int, bits: nat)
    requires bits >= 1 && MinSigned(bits) <= number <= MaxSigned(bits)
    ensures Signed(ToSignedBinary(number, bits)) == number
  {
    EncodeDecode(number, bits);
  }

  /** Out-of-range numbers encode as the nearest bound, without any error. */
  lemma Saturation(number: int, bits: nat)
    requires bits >= 1
    ensures number > MaxSigned(bits) ==>
              ToSignedBinary(number, bits) == ToSignedBinary(MaxSigned(bits), bits)
    ensures number < MinSigned(bits) ==>
              ToSignedBinary(number, bits) == ToSignedBinary(MinSigned(bits), bits)
  {
  }

  /** The first character is '0' exactly when the clamped value is non-negative. */
  lemma SignBit(number: int, bits: nat)
    requires bits >= 1
    ensures ToSignedBinary(number, bits)[0] == '0' <==> Saturate(number, bits) >= 0
    ensures ToSignedBinary(number, bits)[0] == '1' <==> Saturate(number, bits) < 0
  {
    UnsignedEncoding(number, bits);
    TopBit(ToSignedBinary(number, bits));
  }

  /** Two bit strings of one length with the same unsigned value are equal. */
  lemma {:induction false} UnsignedInjective(s: string, t: string)
    requires |s| == |t| && IsBinary(s) && IsBinary(t) && Unsigned(s) == Unsigned(t)
    ensures s == t
  {
    if s != [] {
      TopBit(s);
      TopBit(t);
      assert s[0] == t[0];
      UnsignedInjective(s[1..], t[1..]);
      assert s == [s[0]] + s[1..];
      assert t == [t[0]] + t[1..];
    }
  }

  /** The other round trip: every bit string of width >= 1 is the encoding of its own
      two's-complement value, so the encoder maps the signed range onto all bit strings. */
  lemma DecodeEncode(s: string)
    requires |s| >= 1 && IsBinary(s)
    ensures ToSignedBinary(Signed(s), |s|) == s
  {
    var bits := |s|;
    var v := Signed(s);
    TopBit(s);
    assert Saturate(v, bits) == v;
    UnsignedEncoding(v, bits);
    UnsignedInjective(ToSignedBinary(v, bits), s);
  }

  // Worked examples of the encoding at 8 bits; 128 and -129 saturate.

  lemma ExampleFive()
    ensures ToSignedBinary(5, 8) == "00000101"
  {
  }

  lemma ExampleMinusFive()
    ensures ToSignedBinary(-5, 8) == "11111011"
  {
  }

  lemma ExampleAboveRange()
    ensures ToSignedBinary(127, 8) == ToSignedBinary(128, 8) == "01111111"
  {
  }

  lemma ExampleBelowRange()
    ensures ToSignedBinary(-128, 8) == ToSignedBinary(-129, 8) == "10000000"
  {
  }
}
