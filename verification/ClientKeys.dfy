/** Client Keys: hexadecimal printing, canonical parsing, issuance and verification. */
module ClientKeys {
  import opened Basics

  const PREFIX_BYTES := 8
  const SECRET_BYTES := 32
  const SCHEME := "rgw"
  const SEPARATOR := '_'
  const HEX := "0123456789abcdef"

  datatype KeyError = InvalidClientKeyPrefix | InvalidExpiryTimestamp | InvalidCurrentTimestamp

  // ---- Hexadecimal ----

  predicate IsHexDigit(c: char) {
    '0' <= c <= '9' || 'a' <= c <= 'f'
  }

  function HexDigit(n: nat): (c: char)
    requires n < 16
    ensures IsHexDigit(c)
  {
    HEX[n]
  }

  function HexValue(c: char): (n: nat)
    requires IsHexDigit(c)
    ensures n < 16
  {
    if '0' <= c <= '9' then c as int - '0' as int else c as int - 'a' as int + 10
  }

  lemma HexDigitInverse(n: nat, c: char)
    requires n < 16 && IsHexDigit(c)
    ensures HexValue(HexDigit(n)) == n
    ensures HexDigit(HexValue(c)) == c
  {
    assert HEX == ['0', '1', '2', '3', '4', '5', '6', '7', '8', '9', 'a', 'b', 'c', 'd', 'e', 'f'];
  }

  function Hex(bytes: seq<byte>): string {
    if bytes == [] then "" else [HexDigit(bytes[0] / 16), HexDigit(bytes[0] % 16)] + Hex(bytes[1..])
  }

  lemma HexNext(bytes: seq<byte>, i: nat, before: string)
    requires i < |bytes|
    ensures before + Hex(bytes[i..]) == before + [HexDigit(bytes[i] / 16)] + [HexDigit(bytes[i] % 16)] + Hex(bytes[i + 1..])
  {
    hide HexDigit;
    assert bytes[i..][1..] == bytes[i + 1..];
  }

  method EncodeLowerHex(bytes: seq<byte>) returns (encoded: string)
    ensures encoded == Hex(bytes)
  {
    encoded := "";
    for i := 0 to |bytes|
      invariant encoded + Hex(bytes[i..]) == Hex(bytes)
    {
      HexNext(bytes, i, encoded);
      hide Hex, HexDigit;
      encoded := encoded + [HexDigit(bytes[i] / 16)];
      encoded := encoded + [HexDigit(bytes[i] % 16)];
    }
  }

  predicate IsLowerHex(s: string, length: nat) {
    |s| == length && forall i :: 0 <= i < |s| ==> IsHexDigit(s[i])
  }

  function Unhex(s: string): seq<byte>
    requires |s| % 2 == 0 && IsLowerHex(s, |s|)
  {
    if s == "" then [] else [HexValue(s[0]) * 16 + HexValue(s[1])] + Unhex(s[2..])
  }

  lemma {:induction false} HexIsLowerHex(bytes: seq<byte>)
    ensures IsLowerHex(Hex(bytes), 2 * |bytes|)
  {
    if bytes != [] { HexIsLowerHex(bytes[1..]); }
  }

  lemma {:induction false} UnhexHex(bytes: seq<byte>)
    ensures IsLowerHex(Hex(bytes), |Hex(bytes)|) && |Hex(bytes)| % 2 == 0
    ensures Unhex(Hex(bytes)) == bytes
  {
    HexIsLowerHex(bytes);
    if bytes != [] {
      UnhexHex(bytes[1..]);
      HexDigitInverse(bytes[0] / 16, '0');
      HexDigitInverse(bytes[0] % 16, '0');
      assert Hex(bytes)[2..] == Hex(bytes[1..]);
    }
  }

  lemma HighAndLow(high: nat, low: nat)
    requires high < 16 && low < 16
    ensures (high * 16 + low) / 16 == high && (high * 16 + low) % 16 == low
  {
  }

  lemma ByteOfDigits(high: char, low: char)
    requires IsHexDigit(high) && IsHexDigit(low)
    ensures var b := HexValue(high) * 16 + HexValue(low);
            b / 16 < 16 && HexDigit(b / 16) == high && HexDigit(b % 16) == low
  {
    hide HexDigit, HexValue;
    HexDigitInverse(0, high);
    HexDigitInverse(0, low);
    HighAndLow(HexValue(high), HexValue(low));
  }

  lemma {:induction false} HexUnhex(s: string)
    requires |s| % 2 == 0 && IsLowerHex(s, |s|)
    ensures 2 * |Unhex(s)| == |s| && Hex(Unhex(s)) == s
  {
    hide HexDigit, HexValue;
    if s != "" {
      HexUnhex(s[2..]);
      ByteOfDigits(s[0], s[1]);
      assert Unhex(s)[1..] == Unhex(s[2..]);
      assert s == [s[0], s[1]] + s[2..];
    }
  }

  // ---- Printing and parsing ----

  function PrefixText(prefix: seq<byte>): string {
    SCHEME + [SEPARATOR] + Hex(prefix)
  }

  function Print(prefix: seq<byte>, secret: seq<byte>): string {
    PrefixText(prefix) + [SEPARATOR] + Hex(secret)
  }

  /** Two lower-case digits for each byte, the high half first. */
  lemma {:induction false} HexAt(bytes: seq<byte>, i: nat)
    requires i < |bytes|
    ensures |Hex(bytes)| == 2 * |bytes|
    ensures Hex(bytes)[2 * i] == "0123456789abcdef"[bytes[i] / 16]
    ensures Hex(bytes)[2 * i + 1] == "0123456789abcdef"[bytes[i] % 16]
  {
    var tail := bytes[1..];
    if tail == [] {
      assert Hex(tail) == "";
    } else {
      HexAt(tail, if i == 0 then 0 else i - 1);
    }
  }

  /** A printed key is `rgw_`, 16 digits, `_` and 64 digits. */
  lemma KeyShape(prefix: seq<byte>, secret: seq<byte>)
    ensures PrefixText(prefix) == "rgw_" + Hex(prefix)
    ensures Print(prefix, secret) == "rgw_" + Hex(prefix) + "_" + Hex(secret)
    ensures Sizes(prefix, secret) ==> |Hex(prefix)| == 16 && |Hex(secret)| == 64
  {
    if Sizes(prefix, secret) {
      HexAt(prefix, 0);
      HexAt(secret, 0);
    }
    hide Hex;
    assert SCHEME + [SEPARATOR] == "rgw_" && [SEPARATOR] == "_";
  }

  function StripPrefix(s: string, prefix: string): (r: Option<string>)
    ensures r.Some? <==> prefix <= s
    ensures r.Some? ==> s == prefix + r.value
  {
    if prefix <= s then Some(s[|prefix|..]) else None
  }

  /** Splits around the first separator. */
  function SplitOnce(s: string, separator: char): (r: Option<(string, string)>)
    ensures r.None? <==> separator !in s
    ensures r.Some? ==> s == r.value.0 + [separator] + r.value.1 && separator !in r.value.0
  {
    if s == "" then None
    else if s[0] == separator then Some(("", s[1..]))
    else
      match SplitOnce(s[1..], separator)
      case None => None
      case Some((a, b)) => Some(([s[0]] + a, b))
  }

  /** The split is the only one whose left part is free of the separator. */
  lemma {:induction false} SplitOnceUnique(a: string, separator: char, b: string)
    requires separator !in a
    ensures SplitOnce(a + [separator] + b, separator) == Some((a, b))
  {
    var s := a + [separator] + b;
    if a == "" {
      assert s[1..] == b;
    } else {
      SplitOnceUnique(a[1..], separator, b);
      assert s[1..] == a[1..] + [separator] + b;
      assert a == [a[0]] + a[1..];
    }
  }

  /** Validates a stored public prefix. */
  function TryNewPrefix(value: string): Result<string, KeyError> {
    match StripPrefix(value, SCHEME)
    case None => Err(InvalidClientKeyPrefix)
    case Some(rest) =>
      match StripPrefix(rest, [SEPARATOR])
      case None => Err(InvalidClientKeyPrefix)
      case Some(segment) =>
        if IsLowerHex(segment, 2 * PREFIX_BYTES) then Ok(value) else Err(InvalidClientKeyPrefix)
  }

  /** Extracts the public prefix of a complete presented key. */
  function ParsePresented(key: string): Result<string, KeyError> {
    match StripPrefix(key, SCHEME)
    case None => Err(InvalidClientKeyPrefix)
    case Some(rest) =>
      match StripPrefix(rest, [SEPARATOR])
      case None => Err(InvalidClientKeyPrefix)
      case Some(remainder) =>
        match SplitOnce(remainder, SEPARATOR)
        case None => Err(InvalidClientKeyPrefix)
        case Some((prefix, secret)) =>
          if SEPARATOR in secret || !IsLowerHex(prefix, 2 * PREFIX_BYTES) || !IsLowerHex(secret, 2 * SECRET_BYTES)
          then Err(InvalidClientKeyPrefix)
          else TryNewPrefix(SCHEME + [SEPARATOR] + prefix)
  }

  predicate Sizes(prefix: seq<byte>, secret: seq<byte>) {
    |prefix| == PREFIX_BYTES && |secret| == SECRET_BYTES
  }

  lemma PrefixTextAccepted(prefix: seq<byte>)
    requires |prefix| == PREFIX_BYTES
    ensures TryNewPrefix(PrefixText(prefix)) == Ok(PrefixText(prefix))
  {
    HexIsLowerHex(prefix);
    assert PrefixText(prefix)[3..] == [SEPARATOR] + Hex(prefix);
    assert PrefixText(prefix)[3..][1..] == Hex(prefix);
  }

  /** The accepted stored prefixes are exactly the printed ones. */
  lemma PrefixAcceptedIff(value: string)
    ensures TryNewPrefix(value).Ok? <==> exists p :: |p| == PREFIX_BYTES && value == PrefixText(p)
    ensures TryNewPrefix(value) in {Ok(value), Err(InvalidClientKeyPrefix)}
  {
    if TryNewPrefix(value).Ok? {
      var segment := StripPrefix(StripPrefix(value, SCHEME).value, [SEPARATOR]).value;
      HexUnhex(segment);
      var p := Unhex(segment);
      assert value == SCHEME + ([SEPARATOR] + Hex(p)) == PrefixText(p);
    }
    forall p | |p| == PREFIX_BYTES && value == PrefixText(p)
      ensures TryNewPrefix(value).Ok?
    {
      PrefixTextAccepted(p);
    }
  }

  /** Parsing a printed key returns its prefix. */
  lemma ParsePrinted(prefix: seq<byte>, secret: seq<byte>)
    requires Sizes(prefix, secret)
    ensures ParsePresented(Print(prefix, secret)) == Ok(PrefixText(prefix))
  {
    hide Hex, SplitOnce, TryNewPrefix;
    var key := Print(prefix, secret);
    HexIsLowerHex(prefix);
    HexIsLowerHex(secret);
    assert key[3..] == [SEPARATOR] + (Hex(prefix) + [SEPARATOR] + Hex(secret));
    assert key[3..][1..] == Hex(prefix) + [SEPARATOR] + Hex(secret);
    SplitOnceUnique(Hex(prefix), SEPARATOR, Hex(secret));
    PrefixTextAccepted(prefix);
  }

  lemma AcceptedParts(key: string) returns (prefix: string, secret: string)
    requires ParsePresented(key).Ok?
    ensures IsLowerHex(prefix, 2 * PREFIX_BYTES) && IsLowerHex(secret, 2 * SECRET_BYTES)
    ensures key == SCHEME + [SEPARATOR] + prefix + [SEPARATOR] + secret
  {
    hide SplitOnce, IsLowerHex;
    var rest := StripPrefix(key, SCHEME).value;
    var parts := SplitOnce(StripPrefix(rest, [SEPARATOR]).value, SEPARATOR).value;
    prefix, secret := parts.0, parts.1;
  }

  /** The bytes behind an accepted key. */
  lemma AcceptedIsPrinted(key: string) returns (prefix: seq<byte>, secret: seq<byte>)
    requires ParsePresented(key).Ok?
    ensures Sizes(prefix, secret) && key == Print(prefix, secret)
  {
    hide ParsePresented, Hex, Unhex;
    var p, s := AcceptedParts(key);
    HexUnhex(p);
    HexUnhex(s);
    prefix, secret := Unhex(p), Unhex(s);
    assert Print(prefix, secret) == SCHEME + [SEPARATOR] + p + [SEPARATOR] + s;
  }

  /** The accepted strings are exactly the printed keys. */
  lemma AcceptedIffPrinted(key: string)
    ensures ParsePresented(key).Ok? <==> exists p, s :: Sizes(p, s) && key == Print(p, s)
    ensures ParsePresented(key).Err? ==> ParsePresented(key).error == InvalidClientKeyPrefix
  {
    if ParsePresented(key).Ok? {
      var p, s := AcceptedIsPrinted(key);
    }
    forall p, s | Sizes(p, s) && key == Print(p, s)
      ensures ParsePresented(key).Ok?
    {
      ParsePrinted(p, s);
    }
  }

  /** Printing is injective, so every accepted string is the print of exactly one key. */
  lemma PrintInjective(p: seq<byte>, s: seq<byte>, p': seq<byte>, s': seq<byte>)
    requires Sizes(p, s) && Sizes(p', s') && Print(p, s) == Print(p', s')
    ensures p == p' && s == s'
  {
    HexIsLowerHex(p);
    HexIsLowerHex(p');
    assert Hex(p) == Print(p, s)[4..20] == Hex(p');
    assert Hex(s) == Print(p, s)[21..] == Hex(s');
    UnhexHex(p);
    UnhexHex(p');
    UnhexHex(s);
    UnhexHex(s');
  }

  // ---- Issuing and verifying ----

  datatype Status = Active | Disabled | Revoked

  datatype Record = Record(id: string, group: string, prefix: string, digest: seq<byte>, status: Status, expiresAt: Option<i64>)

  predicate PermitsAt(record: Record, now: i64) {
    record.status.Active? && (record.expiresAt.Some? ==> now < record.expiresAt.value)
  }

  function Issue(digest: string -> seq<byte>, id: string, group: string, expiresAt: Option<i64>, prefix: seq<byte>, secret: seq<byte>)
    : Result<(Record, string), KeyError>
  {
    if expiresAt.Some? && expiresAt.value < 0 then Err(InvalidExpiryTimestamp)
    else
      match TryNewPrefix(PrefixText(prefix))
      case Err(e) => Err(e)
      case Ok(text) =>
        var key := Print(prefix, secret);
        Ok((Record(id, group, text, digest(key), Active, expiresAt), key))
  }

  function Verify(digest: string -> seq<byte>, key: string, record: Record, now: i64): Result<bool, KeyError> {
    if now < 0 then Err(InvalidCurrentTimestamp)
    else
      match ParsePresented(key)
      case Err(_) => Ok(false)
      case Ok(prefix) =>
        if prefix != record.prefix then Ok(false)
        else Ok(digest(key) == record.digest && PermitsAt(record, now))
  }

  /** For any digest, issuing succeeds exactly for an absent or non-negative expiry, and the issued key then
      verifies at every time before its expiry and at no time from it on. */
  lemma IssuedVerifiesUntilExpiry(digest: string -> seq<byte>, id: string, group: string, expiresAt: Option<i64>,
                                  prefix: seq<byte>, secret: seq<byte>, now: i64)
    requires Sizes(prefix, secret) && 0 <= now
    ensures var r := Issue(digest, id, group, expiresAt, prefix, secret);
            && (r.Ok? <==> expiresAt.None? || 0 <= expiresAt.value)
            && (r.Err? ==> r.error == InvalidExpiryTimestamp)
            && (r.Ok? ==> && r.value.1 == "rgw_" + Hex(prefix) + "_" + Hex(secret)
                          && r.value.0 == Record(id, group, "rgw_" + Hex(prefix), digest(r.value.1), Active, expiresAt))
            && (r.Ok? ==> Verify(digest, r.value.1, r.value.0, now) == Ok(expiresAt.None? || now < expiresAt.value))
  {
    hide Hex, TryNewPrefix, ParsePresented;
    PrefixTextAccepted(prefix);
    ParsePrinted(prefix, secret);
    KeyShape(prefix, secret);
  }

  /** Verification fails only for a negative clock. Otherwise it says yes to nothing but a canonical key of the record's
      prefix with the record's digest, while the record is active and unexpired, and no to everything else. */
  lemma VerifiesOnlyWhen(digest: string -> seq<byte>, key: string, record: Record, now: i64)
    ensures Verify(digest, key, record, now) == Ok(true) <==>
            && 0 <= now
            && (exists p, s :: Sizes(p, s) && key == Print(p, s) && record.prefix == PrefixText(p))
            && digest(key) == record.digest
            && record.status == Active
            && (record.expiresAt.Some? ==> now < record.expiresAt.value)
    ensures Verify(digest, key, record, now).Err? <==> now < 0
    ensures now < 0 ==> Verify(digest, key, record, now) == Err(InvalidCurrentTimestamp)
  {
    if Verify(digest, key, record, now) == Ok(true) {
      var p, s := AcceptedIsPrinted(key);
      ParsePrinted(p, s);
    }
    forall p, s | Sizes(p, s) && key == Print(p, s) && record.prefix == PrefixText(p)
      ensures ParsePresented(key) == Ok(record.prefix)
    {
      ParsePrinted(p, s);
    }
  }

  class ClientKeyRecord {
    var fields: Record

    constructor (fields: Record)
      ensures this.fields == fields
    {
      this.fields := fields;
    }

    /** Changes the lifecycle state only; a record that is not active never verifies again until it is. */
    method SetStatus(status: Status)
      modifies this
      ensures fields == old(fields).(status := status)
      ensures !status.Active? ==> forall digest: string -> seq<byte>, key: string, now: i64 ::
                Verify(digest, key, fields, now) != Ok(true)
    {
      fields := fields.(status := status);
    }
  }
}
