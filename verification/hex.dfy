/**
 * Lower-case hexadecimal encoding of a digest, as written in
 * `Array.from(digest).map(b => b.toString(16).padStart(2, '0')).join('')`
 * and as produced by Node's `digest('hex')`.
 */
module Hex {
  import opened Wrappers

  type byte = b: int | 0 <= b < 256

  /** An HMAC-SHA256 digest: 32 bytes. */
  type Digest = d: seq<byte> | |d| == 32 witness seq(32, _ => 0)

  predicate IsLowerHex(c: char) {
    '0' <= c <= '9' || 'a' <= c <= 'f'
  }

  /** The digit `toString(16)` writes for a value below 16: `0-9`, then `a-f`. */
  function HexDigit(d: int): (c: char)
    requires 0 <= d < 16
    ensures IsLowerHex(c)
  {
    if d < 10 then ('0' as int + d) as char else ('a' as int + d - 10) as char
  }

  /** Value of a lower-case hex digit: the inverse of `HexDigit`. */
  function DigitValue(c: char): (v: int)
    requires IsLowerHex(c)
    ensures 0 <= v < 16 && HexDigit(v) == c
    ensures forall d :: 0 <= d < 16 && HexDigit(d) == c ==> d == v
  {
    if c <= '9' then c as int - '0' as int else c as int - 'a' as int + 10
  }

  /** `n.toString(16)`: base-16 digits without padding. */
  function ToRadix16(n: nat): (r: string)
    ensures |r| >= 1
    decreases n
  {
    if n < 16 then [HexDigit(n)] else ToRadix16(n / 16) + [HexDigit(n % 16)]
  }

  /** `s.padStart(width, fill)` with a one-character fill. */
  function PadStart(s: string, width: nat, fill: char): (r: string)
    ensures |s| >= width ==> r == s
    ensures |s| < width ==> |r| == width && r[width - |s|..] == s
    ensures forall i :: 0 <= i < |r| - |s| ==> r[i] == fill
  {
    if |s| >= width then s else seq(width - |s|, _ => fill) + s
  }

  /** One byte as exactly two lower-case hex digits, high nibble first. */
  function ByteHex(b: byte): (r: string)
    ensures r == [HexDigit(b / 16), HexDigit(b % 16)]
  {
    var digits := ToRadix16(b);
    assert b < 16 ==> digits == [HexDigit(b)];
    assert b >= 16 ==> ToRadix16(b / 16) == [HexDigit(b / 16)];
    PadStart(digits, 2, '0')
  }

  /** Hex encoding of a byte sequence: the bytes' digit pairs concatenated. */
  function Encode(bs: seq<byte>): (r: string)
    ensures |r| == 2 * |bs|
    ensures forall i :: 0 <= i < |bs| ==> r[2 * i] == HexDigit(bs[i] / 16) && r[2 * i + 1] == HexDigit(bs[i] % 16)
    decreases |bs|
  {
    if bs == [] then "" else ByteHex(bs[0]) + Encode(bs[1..])
  }

  /** Every character of an encoding is one of `0-9a-f`. */
  lemma {:induction false} EncodeIsLowerHex(bs: seq<byte>)
    ensures forall k :: 0 <= k < |Encode(bs)| ==> IsLowerHex(Encode(bs)[k])
    decreases |bs|
  {
    if bs != [] {
      EncodeIsLowerHex(bs[1..]);
      EncodeHead(bs);
      LowerHexCons(Encode(bs));
    }
  }

  /** Two lower-case hex digits followed by lower-case hex digits are all lower-case hex digits. */
  lemma LowerHexCons(r: string)
    requires |r| >= 2 && IsLowerHex(r[0]) && IsLowerHex(r[1])
    requires forall k :: 0 <= k < |r[2..]| ==> IsLowerHex(r[2..][k])
    ensures forall k :: 0 <= k < |r| ==> IsLowerHex(r[k])
  {
    forall k | 2 <= k < |r| ensures IsLowerHex(r[k]) {
      assert r[k] == r[2..][k - 2];
    }
  }

  /** Strict decoder: pairs of lower-case hex digits, nothing else. */
  function Decode(s: string): Option<seq<byte>>
    decreases |s|
  {
    if s == [] then Some([])
    else if |s| == 1 || !IsLowerHex(s[0]) || !IsLowerHex(s[1]) then None
    else
      match Decode(s[2..])
      case None => None
      case Some(rest) => Some([16 * DigitValue(s[0]) + DigitValue(s[1])] + rest)
  }

  /** Decoding an encoding gives back the bytes. */
  lemma {:induction false} DecodeEncode(bs: seq<byte>)
    ensures Decode(Encode(bs)) == Some(bs)
    decreases |bs|
  {
    if bs != [] {
      EncodeHead(bs);
      DecodeEncode(bs[1..]);
      DecodeCons(Encode(bs), bs[0], bs[1..]);
      assert [bs[0]] + bs[1..] == bs;
    }
  }

  /** A string starting with the two digits of `b` decodes to `b` followed by the decoding of the rest. */
  lemma DecodeCons(s: string, b: byte, rest: seq<byte>)
    requires |s| >= 2 && s[0] == HexDigit(b / 16) && s[1] == HexDigit(b % 16)
    requires Decode(s[2..]) == Some(rest)
    ensures Decode(s) == Some([b] + rest)
  {
    DigitValueOf(b / 16);
    DigitValueOf(b % 16);
    NibblesRecombine(b);
    DecodePair(s);
  }

  /** A byte is its high nibble times sixteen plus its low nibble. */
  lemma NibblesRecombine(b: byte)
    ensures 16 * (b / 16) + b % 16 == b
  {
  }

  /** Reading back a digit gives its value. */
  lemma DigitValueOf(d: int)
    requires 0 <= d < 16
    ensures DigitValue(HexDigit(d)) == d
  {
  }

  /** The encoding of a non-empty sequence: the first byte's two digits, then the rest. */
  lemma EncodeHead(bs: seq<byte>)
    requires bs != []
    ensures Encode(bs)[0] == HexDigit(bs[0] / 16) && Encode(bs)[1] == HexDigit(bs[0] % 16)
    ensures Encode(bs)[2..] == Encode(bs[1..])
  {
    assert Encode(bs) == ByteHex(bs[0]) + Encode(bs[1..]);
  }

  /** One step of the decoder on a well-formed first pair. */
  lemma DecodePair(s: string)
    requires |s| >= 2 && IsLowerHex(s[0]) && IsLowerHex(s[1]) && Decode(s[2..]).Some?
    ensures Decode(s) == Some([16 * DigitValue(s[0]) + DigitValue(s[1])] + Decode(s[2..]).value)
  {
  }

  /** Two byte sequences with the same encoding are equal. */
  lemma EncodeInjective(a: seq<byte>, b: seq<byte>)
    requires Encode(a) == Encode(b)
    ensures a == b
  {
    DecodeEncode(a);
    DecodeEncode(b);
  }

  /** Some nibble of the digest is 10 or more, so its hex form contains a letter. */
  predicate HasLetterNibble(bs: seq<byte>) {
    exists i :: 0 <= i < |bs| && bs[i] % 16 >= 10
  }

  /** A low nibble of 10 or more is written as one of the letters `a-f`. */
  lemma LetterAt(bs: seq<byte>, i: nat)
    requires i < |bs| && bs[i] % 16 >= 10
    ensures 2 * i + 1 < |Encode(bs)| && 'a' <= Encode(bs)[2 * i + 1] <= 'f'
  {
    var d := bs[i] % 16;
    assert Encode(bs)[2 * i + 1] == HexDigit(d);
    assert 'a' <= HexDigit(d) <= 'f';
  }
}
