/** Big integers in a JWK: `_b64url`, the Base64urlUInt encoding of RFC 7518 section 2. */
module Base64Url {
  import opened Common

  type Byte = b: nat | b < 256

  type Sextet = v: nat | v < 64

  function Power(base: nat, k: nat): (p: nat)
    ensures base > 0 ==> p > 0
  {
    if k == 0 then 1 else base * Power(base, k - 1)
  }

  // ---------------------------------------------------------------------------
  // Integers and bytes
  // ---------------------------------------------------------------------------

  /** `int.bit_length` */
  function BitLength(n: nat): nat {
    if n == 0 then 0 else 1 + BitLength(n / 2)
  }

  function ByteLength(n: nat): nat {
    (BitLength(n) + 7) / 8
  }

  /** `n.to_bytes(length, "big")`, None standing for its OverflowError. */
  function ToBytes(n: nat, length: nat): Option<seq<Byte>> {
    if length == 0 then (if n == 0 then Some([]) else None)
    else match ToBytes(n / 256, length - 1)
         case None => None
         case Some(high) => Some(high + [n % 256])
  }

  /** Big-endian value, `int.from_bytes(bytes, "big")`. */
  function FromBytes(bytes: seq<Byte>): nat {
    if bytes == [] then 0 else 256 * FromBytes(bytes[..|bytes| - 1]) + bytes[|bytes| - 1]
  }

  lemma {:induction false} BitLengthBounds(n: nat)
    requires n > 0
    ensures BitLength(n) > 0
    ensures Power(2, BitLength(n) - 1) <= n < Power(2, BitLength(n))
  {
    if n > 1 {
      BitLengthBounds(n / 2);
    }
  }

  lemma {:induction false} PowerOfBytes(k: nat)
    ensures Power(2, 8 * k) == Power(256, k)
  {
    if k == 0 {
    } else {
      PowerOfBytes(k - 1);
      assert Power(2, 8 * k) == 2 * Power(2, 8 * k - 1);
      assert Power(2, 8 * k - 1) == 2 * Power(2, 8 * k - 2);
      assert Power(2, 8 * k - 2) == 2 * Power(2, 8 * k - 3);
      assert Power(2, 8 * k - 3) == 2 * Power(2, 8 * k - 4);
      assert Power(2, 8 * k - 4) == 2 * Power(2, 8 * k - 5);
      assert Power(2, 8 * k - 5) == 2 * Power(2, 8 * k - 6);
      assert Power(2, 8 * k - 6) == 2 * Power(2, 8 * k - 7);
      assert Power(2, 8 * k - 7) == 2 * Power(2, 8 * (k - 1));
    }
  }

  lemma {:induction false} PowerMonotone(base: nat, j: nat, k: nat)
    requires base > 0 && j <= k
    ensures Power(base, j) <= Power(base, k)
  {
    if j < k {
      PowerMonotone(base, j, k - 1);
      assert Power(base, k) == base * Power(base, k - 1);
    }
  }

  /** The byte count chosen for n > 0 is enough, and one byte fewer would not be. */
  lemma ByteLengthBounds(n: nat)
    requires n > 0
    ensures ByteLength(n) > 0
    ensures Power(256, ByteLength(n) - 1) <= n < Power(256, ByteLength(n))
  {
    var bits, bytes := BitLength(n), ByteLength(n);
    BitLengthBounds(n);
    PowerOfBytes(bytes);
    PowerOfBytes(bytes - 1);
    PowerMonotone(2, bits, 8 * bytes);
    PowerMonotone(2, 8 * (bytes - 1), bits - 1);
  }

  /** `to_bytes` succeeds exactly when the value fits, and then `from_bytes` undoes it. */
  lemma {:induction false} ToBytesFits(n: nat, length: nat)
    ensures ToBytes(n, length).Some? <==> n < Power(256, length)
    ensures ToBytes(n, length).Some? ==>
             |ToBytes(n, length).value| == length && FromBytes(ToBytes(n, length).value) == n
  {
    if length == 0 {
    } else {
      ToBytesFits(n / 256, length - 1);
      assert n / 256 < Power(256, length - 1) <==> n < 256 * Power(256, length - 1);
    }
  }

  lemma {:induction false} LeadingByte(n: nat, length: nat)
    requires length > 0 && Power(256, length - 1) <= n && ToBytes(n, length).Some?
    ensures |ToBytes(n, length).value| == length && ToBytes(n, length).value[0] != 0
  {
    ToBytesFits(n, length);
    if length == 1 {
      assert ToBytes(n / 256, 0).Some?;
    } else {
      assert Power(256, length - 1) == 256 * Power(256, length - 2);
      LeadingByte(n / 256, length - 1);
    }
  }

  // ---------------------------------------------------------------------------
  // Base64url
  // ---------------------------------------------------------------------------

  function SextetChar(v: Sextet): (c: char)
    ensures c != '='
  {
    if v < 26 then ('A' as int + v) as char
    else if v < 52 then ('a' as int + (v - 26)) as char
    else if v < 62 then ('0' as int + (v - 52)) as char
    else if v == 62 then '-'
    else '_'
  }

  function CharSextet(c: char): Option<Sextet> {
    if 'A' <= c <= 'Z' then Some(c as int - 'A' as int)
    else if 'a' <= c <= 'z' then Some(c as int - 'a' as int + 26)
    else if '0' <= c <= '9' then Some(c as int - '0' as int + 52)
    else if c == '-' then Some(62)
    else if c == '_' then Some(63)
    else None
  }

  lemma SextetRoundTrip(v: Sextet)
    ensures CharSextet(SextetChar(v)) == Some(v)
  {
  }

  function Quad(x: Byte, y: Byte, z: Byte): (quad: string)
    ensures |quad| == 4 && quad[3] != '='
  {
    [SextetChar(x / 4), SextetChar(x % 4 * 16 + y / 16), SextetChar(y % 16 * 4 + z / 64), SextetChar(z % 64)]
  }

  /** `base64.urlsafe_b64encode`, with padding. */
  function EncodePadded(bytes: seq<Byte>): string {
    if bytes == [] then ""
    else if |bytes| == 1 then
      [SextetChar(bytes[0] / 4), SextetChar(bytes[0] % 4 * 16), '=', '=']
    else if |bytes| == 2 then
      [SextetChar(bytes[0] / 4), SextetChar(bytes[0] % 4 * 16 + bytes[1] / 16), SextetChar(bytes[1] % 16 * 4), '=']
    else
      Quad(bytes[0], bytes[1], bytes[2]) + EncodePadded(bytes[3..])
  }

  /** `rstrip(b"=")` */
  function StripPadding(s: string): string {
    if s != "" && s[|s| - 1] == '=' then StripPadding(s[..|s| - 1]) else s
  }

  /** Decoding without padding, as RFC 7515 appendix C prescribes for JOSE values. */
  function Decode(s: string): Option<seq<Byte>> {
    if s == "" then Some([])
    else if |s| == 1 || CharSextet(s[0]).None? || CharSextet(s[1]).None? then None
    else
      var a, b := CharSextet(s[0]).value, CharSextet(s[1]).value;
      var first := a * 4 + b / 16;
      if |s| == 2 then Some([first])
      else if CharSextet(s[2]).None? then None
      else
        var c := CharSextet(s[2]).value;
        var second := b % 16 * 16 + c / 4;
        if |s| == 3 then Some([first, second])
        else if CharSextet(s[3]).None? then None
        else
          match Decode(s[4..])
          case None => None
          case Some(rest) => Some([first, second, c % 4 * 64 + CharSextet(s[3]).value] + rest)
  }

  lemma StripAfterPrefix(a: string, s: string)
    requires s != "" && s[0] != '='
    ensures StripPadding(a + s) == a + StripPadding(s)
    ensures StripPadding(s) != "" && StripPadding(s)[0] != '='
    decreases |s|
  {
    if s[|s| - 1] == '=' {
      assert (a + s)[..|a + s| - 1] == a + s[..|s| - 1];
      StripAfterPrefix(a, s[..|s| - 1]);
    }
  }

  lemma DecodeEncodeOne(x: Byte)
    ensures Decode(StripPadding(EncodePadded([x]))) == Some([x])
  {
    var s := [SextetChar(x / 4), SextetChar(x % 4 * 16)];
    assert EncodePadded([x]) == s + "==";
    StripTail(s);
    SextetRoundTrip(x / 4);
    SextetRoundTrip(x % 4 * 16);
  }

  lemma DecodeEncodeTwo(x: Byte, y: Byte)
    ensures Decode(StripPadding(EncodePadded([x, y]))) == Some([x, y])
  {
    var s := [SextetChar(x / 4), SextetChar(x % 4 * 16 + y / 16), SextetChar(y % 16 * 4)];
    assert EncodePadded([x, y]) == s + "=";
    StripTail(s);
    SextetRoundTrip(x / 4);
    SextetRoundTrip(x % 4 * 16 + y / 16);
    SextetRoundTrip(y % 16 * 4);
  }

  lemma EncodePaddedMore(x: Byte, y: Byte, z: Byte, rest: seq<Byte>)
    ensures EncodePadded([x, y, z] + rest) == Quad(x, y, z) + EncodePadded(rest)
  {
  }

  lemma DecodeEncodeMore(x: Byte, y: Byte, z: Byte, rest: seq<Byte>)
    requires Decode(StripPadding(EncodePadded(rest))) == Some(rest)
    ensures Decode(StripPadding(EncodePadded([x, y, z] + rest))) == Some([x, y, z] + rest)
  {
    EncodePaddedMore(x, y, z, rest);
    StripAfterQuad(Quad(x, y, z), rest);
    DecodeQuad(x, y, z, StripPadding(EncodePadded(rest)));
  }

  lemma {:induction false} DecodeEncode(bytes: seq<Byte>)
    ensures Decode(StripPadding(EncodePadded(bytes))) == Some(bytes)
    decreases |bytes|
  {
    if bytes == [] {
    } else if |bytes| == 1 {
      assert bytes == [bytes[0]];
      DecodeEncodeOne(bytes[0]);
    } else if |bytes| == 2 {
      assert bytes == [bytes[0], bytes[1]];
      DecodeEncodeTwo(bytes[0], bytes[1]);
    } else {
      var x, y, z, rest := bytes[0], bytes[1], bytes[2], bytes[3..];
      assert bytes == [x, y, z] + rest;
      DecodeEncode(rest);
      DecodeEncodeMore(x, y, z, rest);
    }
  }

  lemma StripTail(s: string)
    requires s != "" && s[|s| - 1] != '='
    ensures StripPadding(s + "=") == s && StripPadding(s + "==") == s
  {
    assert (s + "=")[..|s|] == s;
    assert (s + "==")[..|s| + 1] == s + "=";
  }

  /** Splitting three bytes into four sextets loses nothing. */
  lemma Regroup(x: Byte, y: Byte, z: Byte)
    ensures x / 4 * 4 + (x % 4 * 16 + y / 16) / 16 == x
    ensures (x % 4 * 16 + y / 16) % 16 * 16 + (y % 16 * 4 + z / 64) / 4 == y
    ensures (y % 16 * 4 + z / 64) % 4 * 64 + z % 64 == z
  {
  }

  lemma DecodeFourChars(s: string, a: Sextet, b: Sextet, c: Sextet, d: Sextet)
    requires |s| >= 4 && CharSextet(s[0]) == Some(a) && CharSextet(s[1]) == Some(b)
    requires CharSextet(s[2]) == Some(c) && CharSextet(s[3]) == Some(d) && Decode(s[4..]).Some?
    ensures Decode(s) == Some([a * 4 + b / 16, b % 16 * 16 + c / 4, c % 4 * 64 + d] + Decode(s[4..]).value)
  {
  }

  lemma DecodeFour(a: Sextet, b: Sextet, c: Sextet, d: Sextet, tail: string)
    requires Decode(tail).Some?
    ensures Decode([SextetChar(a), SextetChar(b), SextetChar(c), SextetChar(d)] + tail)
         == Some([a * 4 + b / 16, b % 16 * 16 + c / 4, c % 4 * 64 + d] + Decode(tail).value)
  {
    var s := [SextetChar(a), SextetChar(b), SextetChar(c), SextetChar(d)] + tail;
    assert s[4..] == tail;
    SextetRoundTrip(a);
    SextetRoundTrip(b);
    SextetRoundTrip(c);
    SextetRoundTrip(d);
    DecodeFourChars(s, a, b, c, d);
  }

  lemma StripAfterQuad(quad: string, rest: seq<Byte>)
    requires |quad| == 4 && quad[3] != '='
    ensures StripPadding(quad + EncodePadded(rest)) == quad + StripPadding(EncodePadded(rest))
  {
    var tail := EncodePadded(rest);
    if tail == "" {
      assert quad + tail == quad;
    } else {
      assert tail[0] != '=';
      StripAfterPrefix(quad, tail);
    }
  }

  lemma DecodeQuad(x: Byte, y: Byte, z: Byte, tail: string)
    requires Decode(tail).Some?
    ensures Decode(Quad(x, y, z) + tail) == Some([x, y, z] + Decode(tail).value)
  {
    DecodeFour(x / 4, x % 4 * 16 + y / 16, y % 16 * 4 + z / 64, z % 64, tail);
    Regroup(x, y, z);
  }

  // ---------------------------------------------------------------------------
  // The JWK integer encoding
  // ---------------------------------------------------------------------------

  function EncodeUInt(n: nat): (text: string)
    ensures ToBytes(n, ByteLength(n)).Some?
  {
    FitsItsByteLength(n);
    StripPadding(EncodePadded(ToBytes(n, ByteLength(n)).value))
  }

  lemma FitsItsByteLength(n: nat)
    ensures ToBytes(n, ByteLength(n)).Some?
  {
    if n > 0 {
      ByteLengthBounds(n);
      ToBytesFits(n, ByteLength(n));
    }
  }

  function DecodeUInt(text: string): Option<nat> {
    match Decode(text)
    case None => None
    case Some(bytes) => Some(FromBytes(bytes))
  }

  /** For every n > 0 the encoding is minimal (no leading zero byte) and decodes to n. */
  lemma UIntRoundTrip(n: nat)
    requires n > 0
    ensures DecodeUInt(EncodeUInt(n)) == Some(n)
    ensures Decode(EncodeUInt(n)).Some? && |Decode(EncodeUInt(n)).value| > 0 && Decode(EncodeUInt(n)).value[0] != 0
  {
    ByteLengthBounds(n);
    ToBytesFits(n, ByteLength(n));
    var bytes := ToBytes(n, ByteLength(n)).value;
    LeadingByte(n, ByteLength(n));
    DecodeEncode(bytes);
  }

  /** No byte string shorter than the one encoded has the value n. */
  lemma ShortestBytes(n: nat, bytes: seq<Byte>)
    requires FromBytes(bytes) == n
    ensures |bytes| >= ByteLength(n)
  {
    FromBytesBound(bytes);
    if n > 0 && |bytes| < ByteLength(n) {
      ByteLengthBounds(n);
      PowerMonotone(256, |bytes|, ByteLength(n) - 1);
    }
  }

  lemma {:induction false} FromBytesBound(bytes: seq<Byte>)
    ensures FromBytes(bytes) < Power(256, |bytes|)
  {
    if bytes == [] {
    } else {
      FromBytesBound(bytes[..|bytes| - 1]);
    }
  }

  /** Distinct moduli and exponents have distinct encodings. Zero, which RFC 7518 writes "AA", is given as "". */
  lemma EncodingIsInjective(m: nat, n: nat)
    requires EncodeUInt(m) == EncodeUInt(n)
    ensures m == n
    ensures EncodeUInt(0) == ""
  {
    if m > 0 {
      UIntRoundTrip(m);
    }
    if n > 0 {
      UIntRoundTrip(n);
    }
  }
}
