/** The cursor transport encoding: base64url without padding (section 5 of
    RFC 4648), as Node's `Buffer.toString("base64url")` emits it, and the
    decoder behind `Buffer.from(s, "base64url")`, which never fails: it reads
    characters of either base64 alphabet, skips any other character, stops at
    the first '=', and drops a final lone character. */
module Base64Url {
  import opened Wrappers

  type byte = x: int | 0 <= x < 256
  type sextet = x: int | 0 <= x < 64

  /** The url-safe alphabet of RFC 4648 section 5. */
  function SextetChar(v: sextet): char {
    if v < 26 then ('A' as int + v) as char
    else if v < 52 then ('a' as int + v - 26) as char
    else if v < 62 then ('0' as int + v - 52) as char
    else if v == 62 then '-'
    else '_'
  }

  predicate IsUrlSafeChar(c: char) {
    ('A' <= c <= 'Z') || ('a' <= c <= 'z') || ('0' <= c <= '9') || c == '-' || c == '_'
  }

  /** Node's decoding table accepts both the url-safe and the standard alphabet. */
  function SextetOf(c: char): (r: Option<sextet>)
    ensures IsUrlSafeChar(c) ==> r.Some?
    ensures c == '=' ==> r.None?
  {
    if 'A' <= c <= 'Z' then Some(c as int - 'A' as int)
    else if 'a' <= c <= 'z' then Some(c as int - 'a' as int + 26)
    else if '0' <= c <= '9' then Some(c as int - '0' as int + 52)
    else if c == '-' || c == '+' then Some(62)
    else if c == '_' || c == '/' then Some(63)
    else None
  }

  lemma SextetRoundTrip(v: sextet)
    ensures IsUrlSafeChar(SextetChar(v))
    ensures SextetOf(SextetChar(v)) == Some(v)
  {
  }

  /** Every three bytes become four sextets; a final one or two bytes become
      two or three sextets with zero low bits, and no padding is added. */
  function EncodeSextets(bs: seq<byte>): (v: seq<sextet>)
    ensures |v| == |bs| / 3 * 4 + (if |bs| % 3 == 0 then 0 else |bs| % 3 + 1)
    decreases |bs|
  {
    if |bs| == 0 then []
    else if |bs| == 1 then [bs[0] / 4, bs[0] % 4 * 16]
    else if |bs| == 2 then [bs[0] / 4, bs[0] % 4 * 16 + bs[1] / 16, bs[1] % 16 * 4]
    else
      [bs[0] / 4, bs[0] % 4 * 16 + bs[1] / 16, bs[1] % 16 * 4 + bs[2] / 64, bs[2] % 64]
      + EncodeSextets(bs[3..])
  }

  /** Four sextets give three bytes; a final two or three give one or two; a
      final single sextet carries no whole byte and is dropped. */
  function DecodeSextets(v: seq<sextet>): seq<byte>
    decreases |v|
  {
    if |v| < 2 then []
    else
      var b0: byte := v[0] as int * 4 + v[1] / 16;
      if |v| == 2 then [b0]
      else
        var b1: byte := v[1] as int % 16 * 16 + v[2] / 4;
        if |v| == 3 then [b0, b1]
        else
          var b2: byte := v[2] as int % 4 * 64 + v[3];
          [b0, b1, b2] + DecodeSextets(v[4..])
  }

  function Chars(v: seq<sextet>): (s: string)
    ensures |s| == |v|
    ensures forall i :: 0 <= i < |s| ==> s[i] == SextetChar(v[i])
  {
    seq(|v|, i requires 0 <= i < |v| => SextetChar(v[i]))
  }

  /** The sextets Node's decoder reads from `s`. */
  function Sextets(s: string): seq<sextet>
    decreases |s|
  {
    if s == [] || s[0] == '=' then []
    else match SextetOf(s[0])
      case Some(v) => [v] + Sextets(s[1..])
      case None => Sextets(s[1..])
  }

  /** `Buffer.from(bytes).toString("base64url")`: only url-safe characters,
      never padding, and a length that is the unpadded base64 length. */
  function Encode(bs: seq<byte>): (s: string)
    ensures |s| == |bs| / 3 * 4 + (if |bs| % 3 == 0 then 0 else |bs| % 3 + 1)
    ensures forall i :: 0 <= i < |s| ==> IsUrlSafeChar(s[i])
  {
    var v := EncodeSextets(bs);
    forall i | 0 <= i < |v| ensures IsUrlSafeChar(SextetChar(v[i])) {
      SextetRoundTrip(v[i]);
    }
    Chars(v)
  }

  /** `Buffer.from(s, "base64url")`: total, it never throws. */
  function Decode(s: string): seq<byte> {
    DecodeSextets(Sextets(s))
  }

  lemma {:induction false} SextetsOfChars(v: seq<sextet>)
    ensures Sextets(Chars(v)) == v
    decreases |v|
  {
    if v != [] {
      SextetRoundTrip(v[0]);
      assert Chars(v)[1..] == Chars(v[1..]);
      SextetsOfChars(v[1..]);
    }
  }

  lemma GroupRoundTrip(b0: byte, b1: byte, b2: byte)
    ensures (b0 / 4) * 4 + (b0 % 4 * 16 + b1 / 16) / 16 == b0
    ensures (b0 % 4 * 16 + b1 / 16) % 16 * 16 + (b1 % 16 * 4 + b2 / 64) / 4 == b1
    ensures (b1 % 16 * 4 + b2 / 64) % 4 * 64 + b2 % 64 == b2
  {
    var h0, l0 := b0 / 4, b0 % 4;
    var h1, l1 := b1 / 16, b1 % 16;
    var h2, l2 := b2 / 64, b2 % 64;
    assert b0 == h0 * 4 + l0 && b1 == h1 * 16 + l1 && b2 == h2 * 64 + l2;
    assert 0 <= h1 < 16 && 0 <= h2 < 4;
    assert (l0 * 16 + h1) / 16 == l0 && (l0 * 16 + h1) % 16 == h1;
    assert (l1 * 4 + h2) / 4 == l1 && (l1 * 4 + h2) % 4 == h2;
  }

  lemma {:induction false} DecodeEncodeSextets(bs: seq<byte>)
    ensures DecodeSextets(EncodeSextets(bs)) == bs
    decreases |bs|
  {
    if |bs| == 0 {
    } else if |bs| == 1 {
      GroupRoundTrip(bs[0], 0, 0);
    } else if |bs| == 2 {
      GroupRoundTrip(bs[0], bs[1], 0);
    } else {
      GroupRoundTrip(bs[0], bs[1], bs[2]);
      var v := EncodeSextets(bs);
      var rest := EncodeSextets(bs[3..]);
      assert v[4..] == rest;
      DecodeEncodeSextets(bs[3..]);
      assert bs == bs[..3] + bs[3..];
    }
  }

  /** The cursor codec's transport layer loses nothing: decoding an encoding
      gives back the bytes. */
  lemma DecodeEncode(bs: seq<byte>)
    ensures Decode(Encode(bs)) == bs
  {
    SextetsOfChars(EncodeSextets(bs));
    DecodeEncodeSextets(bs);
  }

  /** Distinct byte strings never share an encoding. */
  lemma EncodeInjective(a: seq<byte>, b: seq<byte>)
    requires Encode(a) == Encode(b)
    ensures a == b
  {
    DecodeEncode(a);
    DecodeEncode(b);
  }
}
