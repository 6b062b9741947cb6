/** The signed body of a command: field limits, canonical encoding and strict parser. */
module CommandBody {
  import opened ByteStrings
  import opened Crypto
  import opened Dsse
  import opened Readers
  import opened Results

  const DOMAIN_ENVELOPE := Ascii("kut-cmd-envelope-v2")
  const COMMAND_ID_LEN := 36
  const NONCE_HEX_LEN := 32
  const MAX_DEVICE_ID_LEN := 64
  const MAX_TENANT_ID_LEN := 63
  const MAX_PRINCIPAL_LEN := 128
  const MAX_TYPE_LEN := 32
  const MAX_LIFETIME := 2_678_400_000_000_000 // 31 days in nanoseconds

  /** The command types of the shared table. */
  const KNOWN_TYPES: seq<Bytes> := [
    Ascii("QUARANTINE"), Ascii("UNQUARANTINE"), Ascii("RUN_SIGNED_SCRIPT"), Ascii("UNINSTALL"),
    Ascii("COLLECT_DIAGNOSTICS"), Ascii("COLLECT_FILE"), Ascii("LOCK"), Ascii("RESTART"), Ascii("WIPE")]

  datatype Fields = Fields(
    commandId: Bytes, deviceId: Bytes, tenantId: Bytes, cmdType: Bytes,
    requestedBy: Bytes, approvedBy: Bytes, correlationId: Bytes,
    sequence: U64, nonce: Bytes, issuedAt: I64, expiresAt: I64, paramsDigest: Digest)

  // ---- character sets and limits ------------------------------------------------------

  predicate Printable(s: Bytes) {
    forall i | 0 <= i < |s| :: 0x21 <= s[i] <= 0x7E
  }

  predicate CanonicalUuid4(s: Bytes) {
    && |s| == COMMAND_ID_LEN
    && forall i | 0 <= i < |s| ::
         if i == 8 || i == 13 || i == 18 || i == 23 then s[i] == 45
         else if i == 14 then s[i] == 52
         else if i == 19 then s[i] == 56 || s[i] == 57 || s[i] == 97 || s[i] == 98
         else IsLowerHexByte(s[i])
  }

  predicate ValidDeviceId(s: Bytes) {
    && 0 < |s| <= MAX_DEVICE_ID_LEN && Printable(s)
    && forall i | 0 <= i < |s| :: !(65 <= s[i] <= 90)
  }

  predicate Principal(s: Bytes) {
    |s| <= MAX_PRINCIPAL_LEN && Printable(s)
  }

  /** The first limit the fields break, in the order they are checked. */
  function FieldsError(f: Fields): Option<Reason> {
    if !CanonicalUuid4(f.commandId) then Some(MalformedEnvelope)
    else if !ValidDeviceId(f.deviceId) then Some(BadDeviceId)
    else if |f.tenantId| > MAX_TENANT_ID_LEN || !Printable(f.tenantId) then Some(MalformedEnvelope)
    else if f.cmdType !in KNOWN_TYPES then Some(UnknownType)
    else if |f.requestedBy| < 1 || !Principal(f.requestedBy) then Some(MalformedEnvelope)
    else if !Principal(f.approvedBy) then Some(MalformedEnvelope)
    else if f.approvedBy != [] && f.approvedBy == f.requestedBy then Some(MalformedEnvelope)
    else if !Principal(f.correlationId) then Some(MalformedEnvelope)
    else if !IsLowerHex(f.nonce, NONCE_HEX_LEN) then Some(MalformedEnvelope)
    else if f.issuedAt <= 0 || f.expiresAt <= f.issuedAt || f.expiresAt - f.issuedAt > MAX_LIFETIME then
      Some(BadLifetime)
    else None
  }

  predicate ValidFields(f: Fields) {
    FieldsError(f).None?
  }

  // ---- canonical encoding -------------------------------------------------------------

  /** The fields after correlation_id, followed by rest. */
  function EncodeTail(f: Fields, rest: Bytes): Bytes {
    EncU64(f.sequence) + (LP(f.nonce) + (EncI64(f.issuedAt) + (EncI64(f.expiresAt) + (LP(f.paramsDigest) + rest))))
  }

  function EncodePrincipals(f: Fields, rest: Bytes): Bytes {
    LP(f.requestedBy) + (LP(f.approvedBy) + (LP(f.correlationId) + rest))
  }

  function EncodeIdentity(f: Fields, rest: Bytes): Bytes {
    LP(f.commandId) + (LP(f.deviceId) + (LP(f.tenantId) + (LP(f.cmdType) + rest)))
  }

  /** EncodeUnvalidated. */
  function EncodeFields(f: Fields): Bytes {
    LP(DOMAIN_ENVELOPE) + EncodeIdentity(f, EncodePrincipals(f, EncodeTail(f, [])))
  }

  /** Encode: limits first. */
  function Encoded(f: Fields): Result<Bytes, Reason> {
    match FieldsError(f)
    case Some(r) => Err(r)
    case None => Ok(EncodeFields(f))
  }

  lemma KnownTypeLength(t: Bytes)
    requires t in KNOWN_TYPES
    ensures |t| <= 19
  {
  }

  /** A valid body has at most 713 bytes, well inside the payload limit. */
  lemma BodySize(f: Fields)
    requires ValidFields(f)
    ensures 0 < |EncodeFields(f)| <= 713 < MAX_PAYLOAD_BYTES
  {
    KnownTypeLength(f.cmdType);
    assert |EncodeTail(f, [])| == 8 + 36 + 8 + 8 + 36;
  }

  // ---- strict parser ------------------------------------------------------------------

  /** The length limits the parser applies before any other check. */
  predicate WithinLimits(f: Fields) {
    && |f.commandId| <= COMMAND_ID_LEN && |f.deviceId| <= MAX_DEVICE_ID_LEN && |f.tenantId| <= MAX_TENANT_ID_LEN
    && |f.cmdType| <= MAX_TYPE_LEN && |f.requestedBy| <= MAX_PRINCIPAL_LEN && |f.approvedBy| <= MAX_PRINCIPAL_LEN
    && |f.correlationId| <= MAX_PRINCIPAL_LEN && |f.nonce| <= NONCE_HEX_LEN
  }

  lemma ValidWithinLimits(f: Fields)
    requires ValidFields(f)
    ensures WithinLimits(f)
  {
  }

  lemma TailCancel(f: Fields, g: Fields)
    requires WithinLimits(f) && WithinLimits(g) && EncodeTail(f, []) == EncodeTail(g, [])
    ensures f.sequence == g.sequence && f.nonce == g.nonce && f.issuedAt == g.issuedAt
    ensures f.expiresAt == g.expiresAt && f.paramsDigest == g.paramsDigest
  {
    var f4, g4 := LP(f.paramsDigest) + [], LP(g.paramsDigest) + [];
    var f3, g3 := EncI64(f.expiresAt) + f4, EncI64(g.expiresAt) + g4;
    var f2, g2 := EncI64(f.issuedAt) + f3, EncI64(g.issuedAt) + g3;
    U64Cancel(f.sequence, g.sequence, LP(f.nonce) + f2, LP(g.nonce) + g2);
    LPCancel(f.nonce, g.nonce, f2, g2);
    I64Cancel(f.issuedAt, g.issuedAt, f3, g3);
    I64Cancel(f.expiresAt, g.expiresAt, f4, g4);
    LPCancel(f.paramsDigest, g.paramsDigest, [], []);
  }

  /** Distinct fields have distinct bodies. */
  lemma EncodeFieldsInjective(f: Fields, g: Fields)
    requires WithinLimits(f) && WithinLimits(g) && EncodeFields(f) == EncodeFields(g)
    ensures f == g
  {
    var f7, g7 := LP(f.correlationId) + EncodeTail(f, []), LP(g.correlationId) + EncodeTail(g, []);
    var f6, g6 := LP(f.approvedBy) + f7, LP(g.approvedBy) + g7;
    var f5, g5 := LP(f.requestedBy) + f6, LP(g.requestedBy) + g6;
    var f4, g4 := LP(f.cmdType) + f5, LP(g.cmdType) + g5;
    var f3, g3 := LP(f.tenantId) + f4, LP(g.tenantId) + g4;
    var f2, g2 := LP(f.deviceId) + f3, LP(g.deviceId) + g3;
    LPCancel(DOMAIN_ENVELOPE, DOMAIN_ENVELOPE, LP(f.commandId) + f2, LP(g.commandId) + g2);
    LPCancel(f.commandId, g.commandId, f2, g2);
    LPCancel(f.deviceId, g.deviceId, f3, g3);
    LPCancel(f.tenantId, g.tenantId, f4, g4);
    LPCancel(f.cmdType, g.cmdType, f5, g5);
    LPCancel(f.requestedBy, g.requestedBy, f6, g6);
    LPCancel(f.approvedBy, g.approvedBy, f7, g7);
    LPCancel(f.correlationId, g.correlationId, EncodeTail(f, []), EncodeTail(g, []));
    TailCancel(f, g);
  }

  ghost predicate IsBodyOf(b: Bytes, f: Fields) {
    WithinLimits(f) && EncodeFields(f) == b
  }

  /** What a strict parser must answer: the fields encoded by b if they are valid, the limit
      they break if not, and a malformed envelope when b encodes nothing. */
  ghost function ParsedFields(b: Bytes): Result<Fields, Reason> {
    if exists f :: IsBodyOf(b, f) then
      var f :| IsBodyOf(b, f);
      match FieldsError(f)
      case Some(r) => Err(r)
      case None => Ok(f)
    else Err(MalformedEnvelope)
  }

  lemma ParsedFieldsUnique(b: Bytes, f: Fields)
    requires IsBodyOf(b, f)
    ensures ParsedFields(b) == if ValidFields(f) then Ok(f) else Err(FieldsError(f).value)
  {
    forall g | IsBodyOf(b, g) ensures g == f {
      EncodeFieldsInjective(f, g);
    }
  }

  /** Parsing the encoding of valid fields gives them back, and an accepted body re-encodes
      to itself: the two are inverse both ways. */
  lemma BodyRoundTrip(f: Fields, b: Bytes)
    requires ValidFields(f)
    ensures ParsedFields(b) == Ok(f) <==> Encoded(f) == Ok(b)
  {
    ValidWithinLimits(f);
    if EncodeFields(f) == b {
      ParsedFieldsUnique(b, f);
    } else if ParsedFields(b).Ok? {
      var g :| IsBodyOf(b, g);
      ParsedFieldsUnique(b, g);
    }
  }

  /** Reads the fields after correlation_id and requires the input to end there. */
  method ReadTail(r: Reader) returns (f: Option<Fields>)
    modifies r
    ensures f.Some? ==> !old(r.failed) && old(r.b) == EncodeTail(f.value, []) && |f.value.nonce| <= NONCE_HEX_LEN
    ensures forall x | !old(r.failed) && WithinLimits(x) && old(r.b) == EncodeTail(x, []) :: f.Some?
  {
    var sequence := r.ReadU64();
    var nonce := r.ReadLP(NONCE_HEX_LEN);
    var issuedAt := r.ReadI64();
    var expiresAt := r.ReadI64();
    var digest := r.ReadLP(32);
    if !r.failed && |digest| != 32 {
      return None;
    }
    var done := r.Done();
    if !done {
      return None;
    }
    f := Some(BLANK.(sequence := sequence, nonce := nonce, issuedAt := issuedAt, expiresAt := expiresAt,
                     paramsDigest := digest));
  }

  const BLANK := Fields([], [], [], [], [], [], [], 0, [], 0, 0, seq(32, _ => 0))

  method ReadIdentity(r: Reader) returns (f: Fields)
    modifies r
    ensures old(r.failed) ==> r.failed
    ensures !r.failed ==> WithinLimits(f) && old(r.b) == EncodeIdentity(f, r.b)
    ensures forall x, rest | !old(r.failed) && WithinLimits(x) && old(r.b) == EncodeIdentity(x, rest) ::
              !r.failed && r.b == rest
  {
    var commandId := r.ReadLP(COMMAND_ID_LEN);
    var deviceId := r.ReadLP(MAX_DEVICE_ID_LEN);
    var tenantId := r.ReadLP(MAX_TENANT_ID_LEN);
    var cmdType := r.ReadLP(MAX_TYPE_LEN);
    f := BLANK.(commandId := commandId, deviceId := deviceId, tenantId := tenantId, cmdType := cmdType);
  }

  method ReadPrincipals(r: Reader) returns (f: Fields)
    modifies r
    ensures old(r.failed) ==> r.failed
    ensures !r.failed ==> WithinLimits(f) && old(r.b) == EncodePrincipals(f, r.b)
    ensures forall x, rest | !old(r.failed) && WithinLimits(x) && old(r.b) == EncodePrincipals(x, rest) ::
              !r.failed && r.b == rest
  {
    var requestedBy := r.ReadLP(MAX_PRINCIPAL_LEN);
    var approvedBy := r.ReadLP(MAX_PRINCIPAL_LEN);
    var correlationId := r.ReadLP(MAX_PRINCIPAL_LEN);
    f := BLANK.(requestedBy := requestedBy, approvedBy := approvedBy, correlationId := correlationId);
  }

  /** The fields put together from the three parts read encode to what was read. */
  lemma Assembled(ids: Fields, people: Fields, tail: Fields, f: Fields)
    requires f == tail.(commandId := ids.commandId, deviceId := ids.deviceId, tenantId := ids.tenantId,
                        cmdType := ids.cmdType, requestedBy := people.requestedBy,
                        approvedBy := people.approvedBy, correlationId := people.correlationId)
    ensures EncodeFields(f) == LP(DOMAIN_ENVELOPE) + EncodeIdentity(ids, EncodePrincipals(people, EncodeTail(tail, [])))
    ensures WithinLimits(ids) && WithinLimits(people) && |tail.nonce| <= NONCE_HEX_LEN ==> WithinLimits(f)
  {
  }

  method ParseFields(b: Bytes) returns (result: Result<Fields, Reason>)
    ensures result == ParsedFields(b)
  {
    hide FieldsError;
    ghost var found := exists w :: IsBodyOf(b, w);
    ghost var w :| found ==> IsBodyOf(b, w);
    var r := new Reader(b);
    var domain := r.ReadLP(|DOMAIN_ENVELOPE|);
    if domain != DOMAIN_ENVELOPE {
      return Err(MalformedEnvelope);
    }
    var ids := ReadIdentity(r);
    var people := ReadPrincipals(r);
    var tail := ReadTail(r);
    if tail.None? {
      return Err(MalformedEnvelope);
    }
    var f := tail.value.(commandId := ids.commandId, deviceId := ids.deviceId, tenantId := ids.tenantId,
                         cmdType := ids.cmdType, requestedBy := people.requestedBy,
                         approvedBy := people.approvedBy, correlationId := people.correlationId);
    Assembled(ids, people, tail.value, f);
    ParsedFieldsUnique(b, f);
    if FieldsError(f).Some? {
      return Err(FieldsError(f).value);
    }
    return Ok(f);
  }
}
