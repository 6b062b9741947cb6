/** DSSE envelopes: pre-authentication encoding, signing, co-signing and shape limits. */
module Dsse {
  import opened ByteStrings
  import opened Crypto
  import opened Results

  const PAYLOAD_TYPE_COMMAND := Ascii("application/vnd.kut.cmd.v2")
  const PAYLOAD_TYPE_TRUST := Ascii("application/vnd.kut.trust.v2")
  const COMMAND_TYPE_PREFIX := Ascii("application/vnd.kut.cmd.")
  const TRUST_TYPE_PREFIX := Ascii("application/vnd.kut.trust.")

  const MAX_SIGNATURES := 8
  const MAX_PAYLOAD_BYTES := 4096

  datatype Signature = Signature(keyId: Bytes, sig: Bytes)

  datatype Envelope = Envelope(payloadType: Bytes, payload: Bytes, signatures: seq<Signature>)

  // ---- pre-authentication encoding ----------------------------------------------------

  const SPACE: Byte := 32

  /** ASCII decimal without leading zeros. */
  function Decimal(n: nat): (d: Bytes)
    ensures forall i | 0 <= i < |d| :: 48 <= d[i] <= 57
  {
    if n < 10 then [48 + n] else Decimal(n / 10) + [48 + n % 10]
  }

  function DecimalValue(d: Bytes): int {
    if d == [] then 0 else 10 * DecimalValue(d[..|d| - 1]) + (d[|d| - 1] as int - 48)
  }

  lemma {:induction false} DecimalRoundTrip(n: nat)
    ensures DecimalValue(Decimal(n)) == n
  {
    var d := Decimal(n);
    if n < 10 {
      assert d[..|d| - 1] == [];
    } else {
      DecimalRoundTrip(n / 10);
      assert d[..|d| - 1] == Decimal(n / 10);
    }
  }

  /** LEN SP bytes: a byte string behind its decimal length. */
  function Counted(s: Bytes): Bytes {
    Decimal(|s|) + [SPACE] + s
  }

  /** "DSSEv1" SP LEN(type) SP type SP LEN(payload) SP payload. */
  function PAE(payloadType: Bytes, payload: Bytes): Bytes {
    Ascii("DSSEv1 ") + Counted(payloadType) + [SPACE] + Counted(payload)
  }

  function FirstSpace(b: Bytes): nat {
    if b == [] || b[0] == SPACE then 0 else 1 + FirstSpace(b[1..])
  }

  lemma {:induction false} FirstSpaceAfterDigits(d: Bytes, r: Bytes)
    requires forall i | 0 <= i < |d| :: 48 <= d[i] <= 57
    ensures FirstSpace(d + ([SPACE] + r)) == |d|
  {
    if d != [] {
      FirstSpaceAfterDigits(d[1..], r);
      assert (d + ([SPACE] + r))[1..] == d[1..] + ([SPACE] + r);
    }
  }

  /** A decimal length ends at the first space, so it is self-delimiting. */
  lemma DigitsDelimited(d: Bytes, e: Bytes, r: Bytes, s: Bytes)
    requires forall i | 0 <= i < |d| :: 48 <= d[i] <= 57
    requires forall i | 0 <= i < |e| :: 48 <= e[i] <= 57
    requires d + ([SPACE] + r) == e + ([SPACE] + s)
    ensures d == e && r == s
  {
    FirstSpaceAfterDigits(d, r);
    FirstSpaceAfterDigits(e, s);
    SplitEqual(d, [SPACE] + r, e, [SPACE] + s);
    SplitEqual([SPACE], r, [SPACE], s);
  }

  lemma CountedCancel(t: Bytes, u: Bytes, r: Bytes, s: Bytes)
    requires Counted(t) + r == Counted(u) + s
    ensures t == u && r == s
  {
    assert Counted(t) + r == Decimal(|t|) + ([SPACE] + (t + r));
    assert Counted(u) + s == Decimal(|u|) + ([SPACE] + (u + s));
    DigitsDelimited(Decimal(|t|), Decimal(|u|), t + r, u + s);
    DecimalRoundTrip(|t|);
    DecimalRoundTrip(|u|);
    SplitEqual(t, r, u, s);
  }

  /** A message determines its payload type and payload: what was signed under one type is
      never a message under another. */
  lemma PAEInjective(t: Bytes, p: Bytes, u: Bytes, q: Bytes)
    requires PAE(t, p) == PAE(u, q)
    ensures t == u && p == q
  {
    var head := Ascii("DSSEv1 ");
    var x, y := Counted(t) + ([SPACE] + Counted(p)), Counted(u) + ([SPACE] + Counted(q));
    assert PAE(t, p) == head + x && PAE(u, q) == head + y;
    SplitEqual(head, x, head, y);
    CountedCancel(t, u, [SPACE] + Counted(p), [SPACE] + Counted(q));
    SplitEqual([SPACE], Counted(p), [SPACE], Counted(q));
    assert Counted(p) + [] == Counted(q) + [];
    CountedCancel(p, q, [], []);
  }

  // ---- signing ------------------------------------------------------------------------

  function SignDsse(c: Primitives, priv: Bytes, payloadType: Bytes, payload: Bytes): Result<Signature, Reason> {
    if |priv| != PRIVATE_KEY_SIZE then Err(UnknownKey)
    else Ok(Signature(KeyId(c, c.publicOf(priv)), c.sign(priv, PAE(payloadType, payload))))
  }

  /** The first entry carrying s's key id is overwritten; without one, s is appended. */
  function Upsert(sigs: seq<Signature>, s: Signature): (r: seq<Signature>) {
    if sigs == [] then [s]
    else if sigs[0].keyId == s.keyId then [s] + sigs[1..]
    else [sigs[0]] + Upsert(sigs[1..], s)
  }

  predicate HasKeyId(sigs: seq<Signature>, id: Bytes) {
    exists i | 0 <= i < |sigs| :: sigs[i].keyId == id
  }

  function CoSigned(c: Primitives, priv: Bytes, e: Envelope): Result<Envelope, Reason> {
    match SignDsse(c, priv, e.payloadType, e.payload)
    case Err(r) => Err(r)
    case Ok(s) =>
      if !HasKeyId(e.signatures, s.keyId) && |e.signatures| >= MAX_SIGNATURES then Err(MalformedEnvelope)
      else Ok(e.(signatures := Upsert(e.signatures, s)))
  }

  method CoSign(c: Primitives, priv: Bytes, e: Envelope) returns (r: Result<Envelope, Reason>)
    ensures r == CoSigned(c, priv, e)
  {
    var signed := SignDsse(c, priv, e.payloadType, e.payload);
    if signed.Err? {
      return Err(signed.error);
    }
    var s := signed.value;
    var out := e.signatures;
    for i := 0 to |out|
      invariant forall k | 0 <= k < i :: out[k].keyId != s.keyId
      invariant out == e.signatures
    {
      if out[i].keyId == s.keyId {
        UpsertAt(out, s, i);
        out := out[i := s];
        return Ok(e.(signatures := out));
      }
    }
    if |out| >= MAX_SIGNATURES {
      return Err(MalformedEnvelope);
    }
    UpsertAt(out, s, |out|);
    return Ok(e.(signatures := out + [s]));
  }

  lemma {:induction false} UpsertAt(sigs: seq<Signature>, s: Signature, i: nat)
    requires i <= |sigs| && forall k | 0 <= k < i :: sigs[k].keyId != s.keyId
    requires i < |sigs| ==> sigs[i].keyId == s.keyId
    ensures Upsert(sigs, s) == if i < |sigs| then sigs[i := s] else sigs + [s]
  {
    if 0 < i {
      UpsertAt(sigs[1..], s, i - 1);
      assert sigs == [sigs[0]] + sigs[1..];
    }
  }

  /** Every entry under another key id survives, and the new entry is present. */
  lemma {:induction false} UpsertKeeps(sigs: seq<Signature>, s: Signature)
    ensures s in Upsert(sigs, s)
    ensures forall t :: t in sigs && t.keyId != s.keyId ==> t in Upsert(sigs, s)
    ensures forall t :: t in Upsert(sigs, s) ==> t == s || t in sigs
    ensures |Upsert(sigs, s)| == |sigs| + if HasKeyId(sigs, s.keyId) then 0 else 1
  {
    if sigs != [] {
      assert sigs == [sigs[0]] + sigs[1..];
      UpsertKeeps(sigs[1..], s);
      assert HasKeyId(sigs, s.keyId) <==> sigs[0].keyId == s.keyId || HasKeyId(sigs[1..], s.keyId);
    }
  }

  // ---- shape --------------------------------------------------------------------------

  predicate WellFormedSignature(s: Signature) {
    IsLowerHex(s.keyId, KEY_ID_HEX_LEN) && |s.sig| == SIGNATURE_LEN
  }

  /** validateShape: payload 1..4096 bytes, 1..8 signatures, each well formed. */
  predicate WellShaped(e: Envelope) {
    && 0 < |e.payload| <= MAX_PAYLOAD_BYTES
    && 0 < |e.signatures| <= MAX_SIGNATURES
    && forall i | 0 <= i < |e.signatures| :: WellFormedSignature(e.signatures[i])
  }

  /** Co-signing keeps the payload type and payload and the shape. */
  lemma CoSignKeepsShape(c: Primitives, priv: Bytes, e: Envelope)
    requires SigningWorks(c, priv) && WellShaped(e)
    ensures CoSigned(c, priv, e).Ok? ==>
      var f := CoSigned(c, priv, e).value;
      f.payloadType == e.payloadType && f.payload == e.payload && WellShaped(f)
  {
    var signed := SignDsse(c, priv, e.payloadType, e.payload);
    if signed.Ok? {
      var s := signed.value;
      UpsertKeeps(e.signatures, s);
      var out := Upsert(e.signatures, s);
      assert |c.publicOf(priv)| == PUBLIC_KEY_SIZE && |c.sign(priv, PAE(e.payloadType, e.payload))| == SIGNATURE_LEN;
      forall i | 0 <= i < |out| ensures WellFormedSignature(out[i]) {
        assert out[i] in out;
      }
    }
  }
}
