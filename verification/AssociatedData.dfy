/** The length-delimited associated data that binds an encrypted Credential to its place in the graph. */
module AssociatedData {
  import opened Basics

  type Bytes = seq<byte>

  const U32_RANGE: int := 0x1_0000_0000

  datatype EncodeError = SegmentTooLong

  function Ascii(s: string): Bytes {
    seq(|s|, i requires 0 <= i < |s| => s[i] as int % 256)
  }

  const DOMAIN: Bytes := Ascii("cpa-rust-gateway") + Ascii("/control-plane/") + Ascii("credential-aad/v1")

  function BigEndian(n: nat): (r: Bytes)
    requires n < U32_RANGE
    ensures |r| == 4
  {
    [n / 0x100_0000, n / 0x1_0000 % 256, n / 256 % 256, n % 256]
  }

  function FromBigEndian(b: Bytes): (n: nat)
    requires |b| == 4
    ensures n < U32_RANGE
  {
    var b0: int, b1: int, b2: int, b3: int := b[0], b[1], b[2], b[3];
    b0 * 0x100_0000 + b1 * 0x1_0000 + b2 * 256 + b3
  }

  lemma DecodeBigEndian(n: nat)
    requires n < U32_RANGE
    ensures FromBigEndian(BigEndian(n)) == n
  {
    assert n / 0x1_0000 == n / 256 / 256 && n / 0x100_0000 == n / 0x1_0000 / 256;
  }

  lemma EncodeBigEndian(b: Bytes)
    requires |b| == 4
    ensures BigEndian(FromBigEndian(b)) == b
  {
    var b0: int, b1: int, b2: int, b3: int := b[0], b[1], b[2], b[3];
    DigitsOf(b0, b1, b2, b3);
  }

  lemma DigitsOf(b0: int, b1: int, b2: int, b3: int)
    requires 0 <= b0 < 256 && 0 <= b1 < 256 && 0 <= b2 < 256 && 0 <= b3 < 256
    ensures var m := b0 * 0x100_0000 + b1 * 0x1_0000 + b2 * 256 + b3;
            m / 0x100_0000 == b0 && m / 0x1_0000 % 256 == b1 && m / 256 % 256 == b2 && m % 256 == b3
  {
    var m := b0 * 0x100_0000 + b1 * 0x1_0000 + b2 * 256 + b3;
    assert m / 256 == b0 * 0x1_0000 + b1 * 256 + b2;
    assert m / 0x1_0000 == b0 * 256 + b1;
  }

  /** A length before each segment. */
  lemma DelimitedShape(a: Bytes, b: Bytes)
    requires |a| < U32_RANGE && |b| < U32_RANGE
    ensures Delimited([a, b]) == BigEndian(|a|) + a + BigEndian(|b|) + b
  {
    hide BigEndian;
    assert [a, b][1..] == [b] && [b][1..] == [];
    assert Delimited([]) == [];
    assert Delimited([b]) == BigEndian(|b|) + b + [];
  }

  /** The domain's own bytes, and lengths with their highest byte first. */
  lemma Layout()
    ensures DOMAIN == [99, 112, 97, 45, 114, 117, 115, 116, 45, 103, 97, 116, 101, 119, 97, 121]
                      + [47, 99, 111, 110, 116, 114, 111, 108, 45, 112, 108, 97, 110, 101, 47]
                      + [99, 114, 101, 100, 101, 110, 116, 105, 97, 108, 45, 97, 97, 100, 47, 118, 49]
    ensures BigEndian(0x0102_0304) == [1, 2, 3, 4]
  {
    assert Ascii("cpa-rust-gateway") == [99, 112, 97, 45, 114, 117, 115, 116, 45, 103, 97, 116, 101, 119, 97, 121];
    assert Ascii("/control-plane/") == [47, 99, 111, 110, 116, 114, 111, 108, 45, 112, 108, 97, 110, 101, 47];
    assert Ascii("credential-aad/v1") == [99, 114, 101, 100, 101, 110, 116, 105, 97, 108, 45, 97, 97, 100, 47, 118, 49];
  }

  predicate Fits(segments: seq<Bytes>) {
    forall i :: 0 <= i < |segments| ==> |segments[i]| < U32_RANGE
  }

  function Delimited(segments: seq<Bytes>): Bytes
    requires Fits(segments)
  {
    if segments == [] then []
    else BigEndian(|segments[0]|) + segments[0] + Delimited(segments[1..])
  }

  /** Appends each segment after its length, failing on the first one that is too long. */
  method Encode(segments: seq<Bytes>) returns (r: Result<Bytes, EncodeError>)
    ensures r.Ok? <==> Fits(segments)
    ensures r.Ok? ==> r.value == DOMAIN + Delimited(segments)
  {
    var data := DOMAIN;
    for i := 0 to |segments|
      invariant Fits(segments[..i])
      invariant Fits(segments) ==> data + Delimited(segments[i..]) == DOMAIN + Delimited(segments)
    {
      var segment := segments[i];
      if |segment| >= U32_RANGE {
        return Err(SegmentTooLong);
      }
      assert segments[..i + 1] == segments[..i] + [segment];
      assert segments[i..][1..] == segments[i + 1..];
      ghost var before := data;
      data := data + BigEndian(|segment|);
      data := data + segment;
      if Fits(segments) {
        assert before + Delimited(segments[i..]) == data + Delimited(segments[i + 1..]);
      }
    }
    assert segments[..|segments|] == segments;
    r := Ok(data);
  }

  method CredentialAssociatedData(versionId: Bytes, credentialId: Bytes, upstreamId: Bytes)
    returns (r: Result<Bytes, EncodeError>)
    ensures r.Ok? <==> Fits([versionId, credentialId, upstreamId])
    ensures r.Ok? ==> r.value == DOMAIN + Delimited([versionId, credentialId, upstreamId])
  {
    r := Encode([versionId, credentialId, upstreamId]);
  }

  // ---- A decoder that inverts it ----

  datatype Decoded = Decoded(segments: seq<Bytes>, rest: Bytes)

  /** Reads `n` length-delimited segments from the front. */
  function Decode(data: Bytes, n: nat): Option<Decoded> {
    if n == 0 then Some(Decoded([], data))
    else if |data| < 4 then None
    else
      var length := FromBigEndian(data[..4]);
      if |data| < 4 + length then None
      else
        match Decode(data[4 + length..], n - 1)
        case None => None
        case Some(d) => Some(Decoded([data[4..4 + length]] + d.segments, d.rest))
  }

  /** One segment at the front of the data is read back, whatever follows it. */
  lemma DecodeOne(head: Bytes, rest: Bytes, n: nat)
    requires |head| < U32_RANGE && n > 0
    ensures var data := BigEndian(|head|) + head + rest;
            Decode(data, n) ==
            match Decode(rest, n - 1)
            case None => None
            case Some(d) => Some(Decoded([head] + d.segments, d.rest))
  {
    hide BigEndian, FromBigEndian;
    var data := BigEndian(|head|) + head + rest;
    DecodeBigEndian(|head|);
    assert data[..4] == BigEndian(|head|);
    assert data[4..4 + |head|] == head;
    assert data[4 + |head|..] == rest;
  }

  lemma DecodeNothing(rest: Bytes)
    ensures Decode(rest, 0) == Some(Decoded([], rest))
  {
  }

  /** Decoding what was encoded returns the segments and whatever followed them. */
  lemma {:induction false} DecodeEncoded(segments: seq<Bytes>, rest: Bytes)
    requires Fits(segments)
    ensures Decode(Delimited(segments) + rest, |segments|) == Some(Decoded(segments, rest))
  {
    hide BigEndian, FromBigEndian, Decode;
    if segments == [] {
      assert Delimited(segments) + rest == rest;
      DecodeNothing(rest);
    } else {
      var head, tail := segments[0], segments[1..];
      DecodeEncoded(tail, rest);
      DecodeOne(head, Delimited(tail) + rest, |segments|);
      assert Delimited(segments) + rest == BigEndian(|head|) + head + (Delimited(tail) + rest);
      assert segments == [head] + tail;
    }
  }

  /** Whatever decodes is the encoding of what was decoded. */
  lemma {:induction false} EncodeDecoded(data: Bytes, n: nat)
    requires Decode(data, n).Some?
    ensures var d := Decode(data, n).value;
            |d.segments| == n && Fits(d.segments) && data == Delimited(d.segments) + d.rest
  {
    hide BigEndian, FromBigEndian;
    if n > 0 {
      var length := FromBigEndian(data[..4]);
      var head, tail := data[4..4 + length], data[4 + length..];
      EncodeDecoded(tail, n - 1);
      EncodeBigEndian(data[..4]);
      var d := Decode(tail, n - 1).value;
      Reassembled(data, length, d.segments, d.rest);
      hide Decode, Delimited;
      assert Decoded([head] + d.segments, d.rest) == Decode(data, n).value;
    }
  }

  /** A length, its segment and an encoding of the others make up one encoding. */
  lemma Reassembled(data: Bytes, length: nat, others: seq<Bytes>, rest: Bytes)
    requires length < U32_RANGE && 4 + length <= |data| && BigEndian(length) == data[..4] && Fits(others)
    requires data[4 + length..] == Delimited(others) + rest
    ensures Fits([data[4..4 + length]] + others)
    ensures data == Delimited([data[4..4 + length]] + others) + rest
  {
    hide BigEndian;
    var head := data[4..4 + length];
    var all := [head] + others;
    assert all[1..] == others;
    assert Delimited(all) == BigEndian(length) + head + Delimited(others);
    hide Delimited;
    assert data == data[..4] + head + data[4 + length..];
    assert data[..4] + head + (Delimited(others) + rest) == (data[..4] + head + Delimited(others)) + rest;
  }

  lemma CommonPrefix(d: Bytes, a: Bytes, b: Bytes)
    requires d + a <= d + b
    ensures |a| <= |b| && a + b[|a|..] == b
  {
    assert a == (d + a)[|d|..] && b == (d + b)[|d|..];
    forall i | 0 <= i < |a|
      ensures a[i] == b[i]
    {
      assert (d + a)[|d| + i] == (d + b)[|d| + i];
    }
  }

  /** No two tuples of equally many segments share an encoding, and none encodes to a proper prefix of another. */
  lemma EncodingIsPrefixFree(a: seq<Bytes>, b: seq<Bytes>)
    requires Fits(a) && Fits(b) && |a| == |b|
    requires DOMAIN + Delimited(a) <= DOMAIN + Delimited(b)
    ensures a == b
  {
    CommonPrefix(DOMAIN, Delimited(a), Delimited(b));
    SamePrefix(a, b, Delimited(b)[|Delimited(a)|..]);
  }

  lemma SamePrefix(a: seq<Bytes>, b: seq<Bytes>, rest: Bytes)
    requires Fits(a) && Fits(b) && |a| == |b|
    requires Delimited(a) + rest == Delimited(b)
    ensures a == b
  {
    hide Decode, Delimited;
    DecodeEncoded(a, rest);
    DecodeEncoded(b, []);
    assert Delimited(b) + [] == Delimited(b);
  }
}
