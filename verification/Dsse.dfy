/** The DSSE pre-authentication encoding: what a signature over a payload actually covers. */
module Dsse {
  import opened Bytes
  import opened Outcomes

  const SPACE: byte := 32
  const ZERO: byte := 48
  const HEADER: bytes := [68, 83, 83, 69, 118, 49, SPACE]

  // ---- decimal numbers ----

  function Decimal(n: nat): bytes {
    (if n < 10 then [] else Decimal(n / 10)) + [ZERO + (n % 10) as byte]
  }

  predicate AllDigits(s: bytes) {
    forall i :: 0 <= i < |s| ==> ZERO <= s[i] < ZERO + 10
  }

  /** Digits read as a number, most significant first. */
  function Number(s: bytes): nat
    requires AllDigits(s)
  {
    if s == [] then 0 else 10 * Number(s[..|s| - 1]) + (s[|s| - 1] - ZERO) as nat
  }

  lemma {:induction false} NumberAppend(s: bytes, digit: byte)
    requires AllDigits(s) && ZERO <= digit < ZERO + 10
    ensures AllDigits(s + [digit]) && Number(s + [digit]) == 10 * Number(s) + (digit - ZERO) as nat
  {
    assert (s + [digit])[..|s + [digit]| - 1] == s;
  }

  lemma {:induction false} NumberOfDecimal(n: nat)
    ensures AllDigits(Decimal(n)) && Number(Decimal(n)) == n
  {
    var prefix := if n < 10 then [] else Decimal(n / 10);
    if n >= 10 {
      NumberOfDecimal(n / 10);
    }
    NumberAppend(prefix, ZERO + (n % 10) as byte);
  }

  // ---- encoding ----

  /** A field announced by its length. */
  function Field(content: bytes): bytes {
    Decimal(|content|) + [SPACE] + content
  }

  function Pae(payloadType: bytes, payload: bytes): bytes {
    HEADER + Field(payloadType) + [SPACE] + Field(payload)
  }

  method DssePae(payloadType: bytes, payload: bytes) returns (pae: bytes)
    ensures pae == Pae(payloadType, payload)
  {
    pae := [];
    pae := pae + HEADER;
    pae := pae + Decimal(|payloadType|);
    pae := pae + [SPACE];
    pae := pae + payloadType;
    pae := pae + [SPACE];
    pae := pae + Decimal(|payload|);
    pae := pae + [SPACE];
    pae := pae + payload;
  }

  /** Decimal digits that read as n, with no leading zero. */
  predicate Denotes(digits: bytes, n: nat) {
    && (forall i :: 0 <= i < |digits| ==> 48 <= digits[i] < 58)
    && AllDigits(digits) && Number(digits) == n && digits != [] && (digits[0] == 48 ==> digits == [48])
  }

  lemma {:induction false} DecimalDenotes(n: nat)
    ensures Denotes(Decimal(n), n)
  {
    NumberOfDecimal(n);
    if n >= 10 {
      DecimalDenotes(n / 10);
      assert Decimal(n)[0] == Decimal(n / 10)[0];
      assert Number([48]) == 0;
    }
  }

  lemma {:induction false} Flatten(h: bytes, m: bytes, t: bytes, n: bytes, p: bytes, sp: bytes)
    ensures h + (m + sp + t) + sp + (n + sp + p) == h + m + sp + t + sp + n + sp + p
  {
    Reassociate(h, m, sp, t);
    Reassociate(h + m + sp + t + sp, n, sp, p);
    assert h + (m + sp + t) == h + m + sp + t;
    assert h + m + sp + t + sp + (n + sp + p) == h + m + sp + t + sp + n + sp + p;
  }

  /** "DSSEv1", then the length and the bytes of the type, then those of the payload, all set off by spaces. */
  lemma {:induction false} PaeLayout(payloadType: bytes, payload: bytes)
    ensures exists m, n :: Denotes(m, |payloadType|) && Denotes(n, |payload|) &&
              Pae(payloadType, payload) ==
              [68, 83, 83, 69, 118, 49] + [32] + m + [32] + payloadType + [32] + n + [32] + payload
  {
    var m, n := Decimal(|payloadType|), Decimal(|payload|);
    DecimalDenotes(|payloadType|);
    DecimalDenotes(|payload|);
    assert [68, 83, 83, 69, 118, 49] + [32] == HEADER;
    Flatten(HEADER, m, payloadType, n, payload, [32]);
  }

  // ---- decoding ----

  function UntilSpace(b: bytes): (digits: bytes)
    ensures |digits| <= |b| && digits == b[..|digits|] && SPACE !in digits
    ensures |digits| < |b| ==> b[|digits|] == SPACE
  {
    if b == [] || b[0] == SPACE then [] else [b[0]] + UntilSpace(b[1..])
  }

  /** Splits a field off the front of b; a length must be in the form the encoder writes. */
  function ReadField(b: bytes): Option<(bytes, bytes)> {
    var digits := UntilSpace(b);
    if |digits| == |b| || !AllDigits(digits) || Decimal(Number(digits)) != digits then None else
    var rest := b[|digits| + 1..];
    var n := Number(digits);
    if n > |rest| then None else Some((rest[..n], rest[n..]))
  }

  function Decode(b: bytes): Option<(bytes, bytes)> {
    if !(HEADER <= b) then None else
    match ReadField(b[|HEADER|..])
    case None => None
    case Some((payloadType, rest)) =>
      if rest == [] || rest[0] != SPACE then None else
      match ReadField(rest[1..])
      case None => None
      case Some((payload, end)) => if end == [] then Some((payloadType, payload)) else None
  }

  lemma {:induction false} UntilSpaceStops(digits: bytes, rest: bytes)
    requires SPACE !in digits
    ensures UntilSpace(digits + [SPACE] + rest) == digits
  {
    var b := digits + [SPACE] + rest;
    if digits != [] {
      UntilSpaceStops(digits[1..], rest);
      assert b[1..] == digits[1..] + [SPACE] + rest;
    }
  }

  lemma {:induction false} DigitsAreNotSpace(s: bytes)
    requires AllDigits(s)
    ensures SPACE !in s
  {
    assert forall i :: 0 <= i < |s| ==> s[i] != SPACE;
  }

  lemma {:induction false} Reassociate(a: bytes, b: bytes, c: bytes, d: bytes)
    ensures a + b + c + d == a + b + (c + d)
  {
  }

  lemma {:induction false} ReadWritten(content: bytes, rest: bytes)
    ensures ReadField(Field(content) + rest) == Some((content, rest))
  {
    var digits, b := Decimal(|content|), Field(content) + rest;
    NumberOfDecimal(|content|);
    DigitsAreNotSpace(digits);
    Reassociate(digits, [SPACE], content, rest);
    UntilSpaceStops(digits, content + rest);
    assert b[|digits| + 1..] == content + rest;
  }

  lemma {:induction false} Rejoin(b: bytes, n: nat, m: nat)
    requires n < |b| && b[n] == SPACE && m <= |b| - n - 1
    ensures b == b[..n] + [SPACE] + b[n + 1..][..m] + b[n + 1..][m..]
  {
  }

  lemma {:induction false} WrittenAsRead(b: bytes, content: bytes, rest: bytes)
    requires ReadField(b) == Some((content, rest))
    ensures b == Field(content) + rest
  {
    Rejoin(b, |UntilSpace(b)|, |content|);
  }

  lemma {:induction false} DecodeWritten(payloadType: bytes, payload: bytes)
    ensures Decode(Pae(payloadType, payload)) == Some((payloadType, payload))
  {
    PaeParts(Field(payloadType), Field(payload));
    ReadWritten(payloadType, [SPACE] + Field(payload));
    ReadWritten(payload, []);
  }

  lemma {:induction false} PaeParts(first: bytes, second: bytes)
    ensures var b := HEADER + first + [SPACE] + second;
            HEADER <= b && b[|HEADER|..] == first + ([SPACE] + second)
    ensures ([SPACE] + second)[1..] == second + []
  {
    Reassociate(HEADER, first, [SPACE], second);
  }

  lemma {:induction false} RejoinPae(b: bytes, first: bytes, rest: bytes, second: bytes)
    requires HEADER <= b && b[|HEADER|..] == first + rest
    requires rest != [] && rest[0] == SPACE && rest[1..] == second + []
    ensures b == HEADER + first + [SPACE] + second
  {
    assert rest == [SPACE] + second;
    assert b == HEADER + (first + rest);
  }

  lemma {:induction false} WrittenAsDecoded(b: bytes, payloadType: bytes, payload: bytes)
    requires Decode(b) == Some((payloadType, payload))
    ensures b == Pae(payloadType, payload)
  {
    var fields := b[|HEADER|..];
    var rest := ReadField(fields).value.1;
    WrittenAsRead(fields, payloadType, rest);
    WrittenAsRead(rest[1..], payload, []);
    RejoinPae(b, Field(payloadType), rest, Field(payload));
  }

  /** The decoder accepts exactly the encodings and returns what was encoded. */
  lemma {:induction false} DecodeExact(b: bytes, payloadType: bytes, payload: bytes)
    ensures Decode(b) == Some((payloadType, payload)) <==> b == Pae(payloadType, payload)
  {
    DecodeWritten(payloadType, payload);
    if Decode(b) == Some((payloadType, payload)) {
      WrittenAsDecoded(b, payloadType, payload);
    }
  }

  /** Two payloads share an encoding only if they are the same payload of the same type. */
  lemma {:induction false} PaeInjective(type0: bytes, payload0: bytes, type1: bytes, payload1: bytes)
    requires Pae(type0, payload0) == Pae(type1, payload1)
    ensures type0 == type1 && payload0 == payload1
  {
    DecodeExact(Pae(type0, payload0), type0, payload0);
    DecodeExact(Pae(type0, payload0), type1, payload1);
  }
}
