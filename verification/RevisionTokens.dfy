/** The opaque `rev-<decimal>` tokens of conditional management writes. */
module RevisionTokens {
  import opened Basics

  const PREFIX := "rev-"

  datatype RevisionError = InvalidRevision

  datatype Revision = Revision(value: i64)

  function TryNew(value: i64): Result<Revision, RevisionError> {
    if value < 0 then Err(InvalidRevision) else Ok(Revision(value))
  }

  predicate IsDigit(c: char) {
    '0' <= c <= '9'
  }

  function Digit(n: nat): (c: char)
    requires n < 10
    ensures IsDigit(c)
  {
    ('0' as int + n) as char
  }

  function Decimal(n: nat): string {
    if n < 10 then [Digit(n)] else Decimal(n / 10) + [Digit(n % 10)]
  }

  predicate AllDigits(s: string) {
    forall i :: 0 <= i < |s| ==> IsDigit(s[i])
  }

  function Value(s: string): nat
    requires AllDigits(s)
  {
    if s == "" then 0 else Value(s[..|s| - 1]) * 10 + (s[|s| - 1] as int - '0' as int)
  }

  function AsToken(r: Revision): string
    requires 0 <= r.value
  {
    PREFIX + Decimal(r.value)
  }

  function FromToken(token: string): Result<Revision, RevisionError> {
    if !(PREFIX <= token) then Err(InvalidRevision)
    else
      var decimal := token[|PREFIX|..];
      if decimal == "" || (|decimal| > 1 && decimal[0] == '0') || !AllDigits(decimal) then Err(InvalidRevision)
      else if Value(decimal) > I64_MAX then Err(InvalidRevision)
      else TryNew(Value(decimal))
  }

  predicate Canonical(s: string) {
    s != "" && AllDigits(s) && (|s| > 1 ==> s[0] != '0')
  }

  lemma {:induction false} DecimalIsCanonical(n: nat)
    ensures Canonical(Decimal(n)) && Value(Decimal(n)) == n
    ensures n > 0 ==> Decimal(n)[0] != '0'
  {
    if n >= 10 {
      DecimalIsCanonical(n / 10);
      var s := Decimal(n);
      assert s[..|s| - 1] == Decimal(n / 10);
    }
  }

  lemma {:induction false} CanonicalIsDecimal(s: string)
    requires Canonical(s)
    ensures Decimal(Value(s)) == s
    ensures s[0] != '0' ==> Value(s) > 0
  {
    var last := s[|s| - 1];
    assert IsDigit(last);
    if |s| == 1 {
      assert s == [last];
      assert Value(s[..0]) == 0;
    } else {
      var front := s[..|s| - 1];
      assert Canonical(front) && front[0] == s[0];
      CanonicalIsDecimal(front);
      assert Value(s) / 10 == Value(front) && Value(s) % 10 == last as int - '0' as int;
      assert s == front + [last];
    }
  }

  /** Rendering and parsing are inverse over all non-negative revisions, and every accepted token is canonical. */
  lemma TokensRoundTrip(r: Revision, token: string)
    ensures 0 <= r.value ==> FromToken(AsToken(r)) == Ok(r)
    ensures FromToken(token).Ok? ==> 0 <= FromToken(token).value.value && AsToken(FromToken(token).value) == token
  {
    if 0 <= r.value {
      DecimalIsCanonical(r.value);
      assert AsToken(r)[|PREFIX|..] == Decimal(r.value);
    }
    if FromToken(token).Ok? {
      CanonicalIsDecimal(token[|PREFIX|..]);
      assert token == PREFIX + token[|PREFIX|..];
    }
  }

  /** Tokens are `rev-` and the decimal number without leading zeros. */
  lemma TokenShape()
    ensures AsToken(Revision(0)) == "rev-0"
    ensures AsToken(Revision(1207)) == "rev-1207"
    ensures FromToken("rev-01").Err? && FromToken("rev-").Err? && FromToken("1").Err?
  {
    assert Decimal(1) == "1" && Decimal(12) == "12" && Decimal(120) == "120" && Decimal(1207) == "1207";
    assert "rev-01"[4..] == "01" && "rev-"[4..] == "";
  }

  /** The accepted tokens are exactly the rendered ones. */
  lemma AcceptedIffRendered(token: string)
    ensures FromToken(token).Ok? <==> exists r: Revision :: 0 <= r.value && token == AsToken(r)
  {
    if FromToken(token).Ok? { TokensRoundTrip(FromToken(token).value, token); }
    forall r: Revision | 0 <= r.value && token == AsToken(r)
      ensures FromToken(token).Ok?
    {
      TokensRoundTrip(r, token);
    }
  }
}
