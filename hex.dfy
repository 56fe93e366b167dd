/**
 * Hex encoding of token ids, secrets and hashes (`bytes_to_hex` and
 * `hex_to_bytes` in both daemon generations' auth modules).
 *
 * Strings are taken to be ASCII here: each `char` stands for one byte of the
 * UTF-8 text Rust slices, so `s.len()` is `|s|`.
 */
module Hex {
  import opened Wrappers

  type byte = x: int | 0 <= x < 256

  /** A 32-byte blake3 digest. */
  type Digest = s: seq<byte> | |s| == 32 witness seq(32, _ => 0)

  predicate IsLowerHexDigit(c: char) {
    ('0' <= c <= '9') || ('a' <= c <= 'f')
  }

  /** The lowercase digit `format!("{:x}")` writes for `d`. */
  function HexDigit(d: nat): (c: char)
    requires d < 16
    ensures IsLowerHexDigit(c)
    ensures DigitValue(c) == Some(d)
  {
    if d < 10 then ('0' as int + d) as char else ('a' as int + d - 10) as char
  }

  /** The value of one radix-16 digit; both cases are accepted. */
  function DigitValue(c: char): (r: Option<nat>)
    ensures r.Some? ==> r.value < 16
    ensures r.Some? <==> ('0' <= c <= '9') || ('a' <= c <= 'f') || ('A' <= c <= 'F')
  {
    if '0' <= c <= '9' then Some(c as int - '0' as int)
    else if 'a' <= c <= 'f' then Some(c as int - 'a' as int + 10)
    else if 'A' <= c <= 'F' then Some(c as int - 'A' as int + 10)
    else None
  }

  /** `format!("{b:02x}")`. */
  function ByteToHex(b: byte): (r: string)
    ensures |r| == 2 && IsLowerHexDigit(r[0]) && IsLowerHexDigit(r[1])
  {
    [HexDigit(b / 16), HexDigit(b % 16)]
  }

  /** `bytes_to_hex`: two lowercase digits per byte, most significant first. */
  function BytesToHex(bs: seq<byte>): (r: string)
    ensures |r| == 2 * |bs|
    ensures forall i :: 0 <= i < |r| ==> IsLowerHexDigit(r[i])
  {
    if |bs| == 0 then "" else ByteToHex(bs[0]) + BytesToHex(bs[1..])
  }

  /**
   * `u8::from_str_radix(pair, 16)` on a two-character string. Rust skips one
   * leading `'+'` before the digits, so `"+f"` is the byte 15; a `'-'` is
   * never accepted for an unsigned type.
   */
  function ParsePair(a: char, b: char): (r: Option<byte>)
    ensures r.Some? && a != '+' ==>
              DigitValue(a).Some? && DigitValue(b).Some?
              && r.value == 16 * DigitValue(a).value + DigitValue(b).value
    ensures r.Some? && a == '+' ==> DigitValue(b) == Some(r.value)
    ensures r.None? <==> DigitValue(b).None? || (a != '+' && DigitValue(a).None?)
  {
    if a == '+' then
      match DigitValue(b)
      case None => None
      case Some(d) => Some(d)
    else
      match (DigitValue(a), DigitValue(b))
      case (Some(h), Some(l)) => Some(16 * h + l)
      case _ => None
  }

  datatype HexError = OddLength | InvalidDigit

  /** `hex_to_bytes`: odd lengths are refused first, then each pair is parsed. */
  function HexToBytes(s: string): (r: Result<seq<byte>, HexError>)
    ensures |s| % 2 != 0 <==> r == Failure(OddLength)
    ensures r.Success? ==> 2 * |r.value| == |s|
  {
    if |s| % 2 != 0 then Failure(OddLength) else Pairs(s)
  }

  function Pairs(s: string): (r: Result<seq<byte>, HexError>)
    requires |s| % 2 == 0
    ensures r.Success? ==> 2 * |r.value| == |s|
    ensures r.Failure? ==> r.error == InvalidDigit
  {
    if |s| == 0 then Success([])
    else
      match ParsePair(s[0], s[1])
      case None => Failure(InvalidDigit)
      case Some(b) =>
        match Pairs(s[2..])
        case Failure(e) => Failure(e)
        case Success(rest) => Success([b] + rest)
  }

  lemma PairOfByteToHex(b: byte)
    ensures ParsePair(ByteToHex(b)[0], ByteToHex(b)[1]) == Some(b)
  {
  }

  /** Decoding what `bytes_to_hex` wrote gives back the bytes. */
  lemma {:induction false} HexRoundTrip(bs: seq<byte>)
    ensures HexToBytes(BytesToHex(bs)) == Success(bs)
  {
    if |bs| > 0 {
      var s := BytesToHex(bs);
      PairOfByteToHex(bs[0]);
      assert s[2..] == BytesToHex(bs[1..]);
      HexRoundTrip(bs[1..]);
      assert [bs[0]] + bs[1..] == bs;
    }
  }

  lemma BytesToHexInjective(a: seq<byte>, b: seq<byte>)
    requires BytesToHex(a) == BytesToHex(b)
    ensures a == b
  {
    HexRoundTrip(a);
    HexRoundTrip(b);
  }

  /** Two lowercase digits parse to the byte that is written back as the same two digits. */
  lemma DigitsRoundTrip(a: char, b: char)
    requires IsLowerHexDigit(a) && IsLowerHexDigit(b)
    ensures ParsePair(a, b).Some? && ByteToHex(ParsePair(a, b).value) == [a, b]
  {
    var h, l := DigitValue(a).value, DigitValue(b).value;
    assert (16 * h + l) / 16 == h && (16 * h + l) % 16 == l;
  }

  /** Every even-length lowercase hex string is the encoding of the bytes it decodes to. */
  lemma {:induction false} CanonicalHexRoundTrip(s: string)
    requires |s| % 2 == 0
    requires forall i :: 0 <= i < |s| ==> IsLowerHexDigit(s[i])
    ensures HexToBytes(s).Success?
    ensures BytesToHex(HexToBytes(s).value) == s
  {
    if |s| > 0 {
      var rest := s[2..];
      assert forall i :: 0 <= i < |rest| ==> rest[i] == s[i + 2];
      CanonicalHexRoundTrip(rest);
      DigitsRoundTrip(s[0], s[1]);
      assert ByteToHex(ParsePair(s[0], s[1]).value) == s[..2];
      assert s == s[..2] + rest;
    }
  }

  /** A leading `'+'` in a pair is accepted: `"+f"` decodes to the byte 15. */
  lemma PlusPairAccepted()
    ensures HexToBytes("+f") == Success([15])
  {
    var s := "+f";
    assert s[0] == '+' && s[1] == 'f';
    assert s[2..] == "";
    assert Pairs(s) == Success([15] + []);
    assert [15] + [] == [15];
  }

  /** Uppercase digits are accepted: `"FF"` decodes to 255, though it is never written. */
  lemma UppercaseAccepted()
    ensures HexToBytes("FF") == Success([255])
    ensures BytesToHex([255]) == "ff"
  {
    var s := "FF";
    assert s[0] == 'F' && s[1] == 'F';
    assert s[2..] == "";
    assert Pairs(s) == Success([255] + []);
    assert [255] + [] == [255];
  }
}
