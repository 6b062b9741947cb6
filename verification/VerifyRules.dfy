/** The acceptance of commands written out: which keys count as signers, how many are needed, and
    what each reason for a rejection means. */
module VerifyRules {
  import opened ByteStrings
  import opened Crypto
  import opened Dsse
  import opened Statements
  import opened Trust
  import opened CommandBody
  import opened Verify
  import opened Results
  import P = Params

  // ---- who signs ----------------------------------------------------------------------

  /** A command or approver key that is not weak. */
  predicate Trusted(c: Primitives, k: KeyEntry) {
    (k.role == ROLE_COMMAND || k.role == ROLE_APPROVER) && |k.pub| == PUBLIC_KEY_SIZE && !c.listedWeak(k.pub)
  }

  /** Signature s names the i-th key, which is trusted and shares its identifier with no other
      trusted key. */
  ghost predicate Names(c: Primitives, keys: seq<KeyEntry>, i: nat, s: Signature) {
    && i < |keys| && Trusted(c, keys[i]) && s.keyId == KeyId(c, keys[i].pub)
    && forall j | 0 <= j < |keys| && j != i && Trusted(c, keys[j]) :: KeyId(c, keys[j].pub) != KeyId(c, keys[i].pub)
  }

  /** It names the i-th key, which was in its window at the given time and verifies it. */
  ghost predicate Signs(c: Primitives, keys: seq<KeyEntry>, i: nat, msg: Bytes, at: I64, s: Signature) {
    && Names(c, keys, i, s)
    && keys[i].notAfter != 0 && keys[i].notBefore <= at <= keys[i].notAfter
    && c.verify(keys[i].pub, msg, s.sig)
  }

  /** The positions of the keys that sign the message. */
  ghost function SigningKeys(c: Primitives, keys: seq<KeyEntry>, msg: Bytes, at: I64, sigs: seq<Signature>): set<nat> {
    set i, s | 0 <= i < |keys| && s in sigs && Signs(c, keys, i, msg, at, s) :: i
  }

  lemma SignsIndexed(c: Primitives, keys: seq<KeyEntry>, i: nat, msg: Bytes, at: I64, s: Signature)
    ensures Signs(c, keys, i, msg, at, s) <==>
              && Verify.Verifies(c, SignerIndex(c, keys), msg, at, s) && ListedOnce(c, keys, i)
              && KeyId(c, keys[i].pub) == s.keyId
    ensures Signs(c, keys, i, msg, at, s) ==> SignerIndex(c, keys)[s.keyId].role == keys[i].role
  {
    hide KeyId;
    if ListedOnce(c, keys, i) {
      assert SignerIndex(c, keys)[KeyId(c, keys[i].pub)] == Identified(c, keys[i]);
    }
  }

  lemma SigningKeyIsGood(c: Primitives, keys: seq<KeyEntry>, msg: Bytes, at: I64, sigs: seq<Signature>, i: nat)
    requires i in SigningKeys(c, keys, msg, at, sigs)
    ensures var idx, id := SignerIndex(c, keys), KeyId(c, keys[i].pub);
            && id in GoodSigners(c, idx, msg, at, sigs) && id in idx && idx[id].role == keys[i].role
            && ListedOnce(c, keys, i)
  {
    hide KeyId, SignerIndex, ListedOnce, Signs;
    var s :| s in sigs && Signs(c, keys, i, msg, at, s);
    SignsIndexed(c, keys, i, msg, at, s);
  }

  lemma GoodIsSigningKey(c: Primitives, keys: seq<KeyEntry>, msg: Bytes, at: I64, sigs: seq<Signature>, id: Bytes)
    returns (i: nat)
    requires id in GoodSigners(c, SignerIndex(c, keys), msg, at, sigs)
    ensures i in SigningKeys(c, keys, msg, at, sigs) && KeyId(c, keys[i].pub) == id
  {
    hide KeyId, SignerIndex, ListedOnce, Signs, Verify.Verifies;
    var s :| s in sigs && Verify.Verifies(c, SignerIndex(c, keys), msg, at, s) && s.keyId == id;
    i := IndexedPosition(c, keys, msg, at, s);
    SignsIndexed(c, keys, i, msg, at, s);
  }

  /** The identifier of the i-th key. */
  function IdAt(c: Primitives, keys: seq<KeyEntry>, i: nat): Bytes {
    if i < |keys| then KeyId(c, keys[i].pub) else []
  }

  /** The keys that sign, by identifier or by position: as many, and of the same roles. */
  lemma SignersAreKeys(c: Primitives, keys: seq<KeyEntry>, msg: Bytes, at: I64, sigs: seq<Signature>)
    ensures var good := GoodSigners(c, SignerIndex(c, keys), msg, at, sigs);
            var signing := SigningKeys(c, keys, msg, at, sigs);
            && good == (set i | i in signing :: IdAt(c, keys, i)) && |good| == |signing|
            && (HasCommandKey(SignerIndex(c, keys), good) <==> exists i | i in signing :: keys[i].role == ROLE_COMMAND)
  {
    var idx := SignerIndex(c, keys);
    var good, signing := GoodSigners(c, idx, msg, at, sigs), SigningKeys(c, keys, msg, at, sigs);
    assert forall i | i in signing :: i < |keys|;
    hide KeyId, Signs, ListedOnce, GoodSigners, SigningKeys, SignerIndex;
    forall i | i in signing ensures IdAt(c, keys, i) in good && IdAt(c, keys, i) in idx && ListedOnce(c, keys, i)
                            ensures idx[IdAt(c, keys, i)].role == keys[i].role {
      SigningKeyIsGood(c, keys, msg, at, sigs, i);
    }
    forall id | id in good ensures exists i | i in signing :: IdAt(c, keys, i) == id {
      var i := GoodIsSigningKey(c, keys, msg, at, sigs, id);
      assert IdAt(c, keys, i) == id;
    }
    forall i, j | i in signing && j in signing && IdAt(c, keys, i) == IdAt(c, keys, j) ensures i == j {
      DistinctListed(c, keys, i, j);
    }
    ImageSize(signing, (i: nat) => IdAt(c, keys, i), good);
  }

  lemma IndexedPosition(c: Primitives, keys: seq<KeyEntry>, msg: Bytes, at: I64, s: Signature) returns (i: nat)
    requires Verify.Verifies(c, SignerIndex(c, keys), msg, at, s)
    ensures i < |keys| && ListedOnce(c, keys, i) && KeyId(c, keys[i].pub) == s.keyId
  {
    i :| 0 <= i < |keys| && ListedOnce(c, keys, i) && KeyId(c, keys[i].pub) == s.keyId;
  }

  lemma DistinctListed(c: Primitives, keys: seq<KeyEntry>, i: nat, j: nat)
    requires ListedOnce(c, keys, i) && ListedOnce(c, keys, j) && KeyId(c, keys[i].pub) == KeyId(c, keys[j].pub)
    ensures i == j
  {
  }

  lemma {:induction false} ImageSize(xs: set<nat>, f: nat -> Bytes, ys: set<Bytes>)
    requires forall i, j | i in xs && j in xs && f(i) == f(j) :: i == j
    requires ys == set i | i in xs :: f(i)
    ensures |ys| == |xs|
    decreases |xs|
  {
    if xs != {} {
      var x :| x in xs;
      ImageSize(xs - {x}, f, ys - {f(x)});
    }
  }

  // ---- what is accepted ---------------------------------------------------------------

  /** Enough keys sign the body, a command key among them: at least one, and at least as many as the
      verifier asks for. */
  ghost predicate WellSigned(c: Primitives, d: Envelope, at: I64, input: Input) {
    var signing := SigningKeys(c, input.keys, PAE(PAYLOAD_TYPE_COMMAND, d.payload), at, d.signatures);
    && |signing| >= 1 && |signing| >= input.minSignatures
    && exists i | i in signing :: input.keys[i].role == ROLE_COMMAND
  }

  /** Every limit on the fields of a command, among them a lifetime of at most 31 days and that nobody
      approves what they requested themselves. */
  predicate WellFormed(f: Fields) {
    && CanonicalUuid4(f.commandId) && ValidDeviceId(f.deviceId) && f.cmdType in KNOWN_TYPES
    && |f.tenantId| <= 63 && Printable(f.tenantId) && IsLowerHex(f.nonce, 32)
    && 1 <= |f.requestedBy| <= 128 && Printable(f.requestedBy)
    && |f.approvedBy| <= 128 && Printable(f.approvedBy) && f.approvedBy != f.requestedBy
    && |f.correlationId| <= 128 && Printable(f.correlationId)
    && 0 < f.issuedAt < f.expiresAt <= f.issuedAt + 31 * 86_400 * 1_000_000_000
  }

  lemma WellFormedExactly(f: Fields)
    ensures ValidFields(f) <==> WellFormed(f)
  {
    hide CanonicalUuid4, ValidDeviceId, Printable, IsLowerHex;
  }

  /** The envelope holds the fields of a command for this verifier, and nothing else. */
  predicate Carries(d: Envelope, f: Fields, input: Input) {
    && d.payloadType == PAYLOAD_TYPE_COMMAND && d.payload == EncodeFields(f) && WellFormed(f)
    && 1 <= |d.signatures| <= 8 && (forall s | s in d.signatures :: IsLowerHex(s.keyId, 32) && |s.sig| == 64)
    && f.deviceId == input.deviceId
    && (input.expectTenant.None? || input.expectTenant.value == f.tenantId)
    && (input.wireCommandId == [] || input.wireCommandId == f.commandId)
    && (input.wireType == [] || input.wireType == f.cmdType)
  }

  predicate OnTime(f: Fields, now: Clock) {
    now.Some? && f.issuedAt <= WrapI64(now.value + 120_000_000_000) && now.value <= f.expiresAt
  }

  ghost predicate ByTheBook(c: Primitives, d: Envelope, params: seq<P.Param>, input: Input, f: Fields) {
    && Carries(d, f, input) && WellSigned(c, d, f.issuedAt, input) && OnTime(f, input.now)
    && P.ValidParams(params) && c.sha256(P.EncodingOf(params)) == f.paramsDigest
  }

  lemma EnoughIsWellSigned(c: Primitives, d: Envelope, f: Fields, input: Input)
    requires ParsedFields(d.payload) == Ok(f) && d.payloadType == PAYLOAD_TYPE_COMMAND
    ensures EnoughSigners(c, d, input) <==> WellSigned(c, d, f.issuedAt, input)
  {
    SignersAreKeys(c, input.keys, PAE(PAYLOAD_TYPE_COMMAND, d.payload), f.issuedAt, d.signatures);
    hide SigningKeys, GoodSigners, SignerIndex, HasCommandKey, PAE, ParsedFields;
  }

  lemma CarriedShape(d: Envelope, f: Fields, input: Input)
    requires ParsedFields(d.payload) == Ok(f)
    ensures Carries(d, f, input) <==>
              d.payloadType == PAYLOAD_TYPE_COMMAND && WellShaped(d) && AddressedTo(f, input)
    ensures Carries(d, f, input) ==> ValidDeviceId(input.deviceId)
  {
    ParsedIsValid(d.payload, f);
    WellFormedExactly(f);
    BodySize(f);
    assert ValidDeviceId(f.deviceId);
    hide EncodeFields, ParsedFields, FieldsError, WellFormed, ValidDeviceId, IsLowerHex;
    assert forall i | 0 <= i < |d.signatures| :: d.signatures[i] in d.signatures;
  }

  lemma ParsedIsValid(b: Bytes, f: Fields)
    ensures ParsedFields(b) == Ok(f) <==> ValidFields(f) && b == EncodeFields(f)
  {
    if ValidFields(f) {
      BodyRoundTrip(f, b);
    } else if ParsedFields(b) == Ok(f) {
      var g :| IsBodyOf(b, g);
      ParsedFieldsUnique(b, g);
    }
    hide EncodeFields, WithinLimits;
  }

  lemma ParsedByTheBook(c: Primitives, d: Envelope, params: seq<P.Param>, input: Input, f: Fields)
    requires ParsedFields(d.payload) == Ok(f)
    ensures Acceptable(c, d, params, input) <==> ByTheBook(c, d, params, input, f)
  {
    hide ParsedFields, EnoughSigners, WellSigned, Carries, WellShaped, AddressedTo, ValidDeviceId;
    hide P.ValidParams, P.EncodingOf;
    CarriedShape(d, f, input);
    if d.payloadType == PAYLOAD_TYPE_COMMAND {
      EnoughIsWellSigned(c, d, f, input);
    }
  }

  /** A command is accepted if and only if it is the well-shaped envelope of valid fields for this
      verifier, well signed when it was issued, with the parameters it names, and on time. */
  lemma AcceptedByTheBook(c: Primitives, d: Envelope, params: seq<P.Param>, input: Input)
    ensures Verdict(c, d, params, input).Ok? <==> exists f :: ByTheBook(c, d, params, input, f)
    ensures Verdict(c, d, params, input).Ok? ==>
              var v := Verdict(c, d, params, input).value;
              && ByTheBook(c, d, params, input, v.fields)
              && |v.keyIds| >= 1 && |v.keyIds| >= input.minSignatures
  {
    AcceptsExactly(c, d, params, input);
    hide Verdict, P.ValidParams, P.EncodingOf, ParsedFields, WellSigned;
    if Verdict(c, d, params, input).Ok? {
      ParsedByTheBook(c, d, params, input, Verdict(c, d, params, input).value.fields);
    }
    forall f | ByTheBook(c, d, params, input, f) ensures Verdict(c, d, params, input).Ok? {
      WellFormedExactly(f);
      ParsedIsValid(d.payload, f);
      ParsedByTheBook(c, d, params, input, f);
    }
  }

  // ---- how many signatures ------------------------------------------------------------

  /** The envelope is signed by one trusted key in its window, for this verifier. */
  ghost predicate SignedOnce(
    c: Primitives, priv: Bytes, d: Envelope, f: Fields, input: Input, i: nat)
  {
    && AddressedTo(f, input) && i < |input.keys| && |d.signatures| == 1
    && input.keys[i].pub == c.publicOf(priv)
    && Signs(c, input.keys, i, PAE(PAYLOAD_TYPE_COMMAND, d.payload), f.issuedAt, d.signatures[0])
  }

  lemma OneTally(c: Primitives, keys: seq<KeyEntry>, msg: Bytes, at: I64, s: Signature, i: nat)
    requires i < |keys| && Signs(c, keys, i, msg, at, s)
    ensures TallyOf(c, SignerIndex(c, keys), msg, at, [s])
         == Tally([s.keyId], if keys[i].role == ROLE_COMMAND then 1 else 0, false, false)
  {
    SignsIndexed(c, keys, i, msg, at, s);
    assert [s][..0] == [];
    hide SignerIndex, Names, KeyId;
    assert TallyOf(c, SignerIndex(c, keys), msg, at, []) == Tally([], 0, false, false);
  }

  lemma SignedOncePasses(
    c: Primitives, priv: Bytes, deviceId: Bytes, e: Command, d: Envelope, f: Fields,
    wire: seq<P.Param>, input: Input, i: nat)
    requires SigningWorks(c, priv) && Signed(c, priv, deviceId, e) == Ok(d) && FieldsFor(c, e, deviceId) == Ok(f)
    requires multiset(wire) == multiset(e.params) && SignedOnce(c, priv, d, f, input, i)
    ensures EarlyRejection(c, d, wire, input).None? && ParsedFields(d.payload) == Ok(f)
    ensures d.payloadType == PAYLOAD_TYPE_COMMAND
  {
    SignedShape(c, priv, deviceId, e, d, f);
    P.EncodingIgnoresOrder(e.params, wire);
    assert WellShaped(d) by {
      assert WellFormedSignature(d.signatures[0]);
    }
    hide ParsedFields, FieldsFor, Signed, ValidDeviceId, P.ValidParams, P.EncodingOf, WellShaped, PAE, KeyId;
    hide SigningWorks, Signs;
  }

  /** One signature is not enough exactly when more are asked for or it is an approver's: whatever is
      signed by one trusted key, and is otherwise in order, is then refused for too few signatures. */
  lemma OneSignatureIsEnoughExactly(
    c: Primitives, priv: Bytes, deviceId: Bytes, e: Command, d: Envelope, f: Fields,
    wire: seq<P.Param>, input: Input, i: nat)
    requires SigningWorks(c, priv) && Signed(c, priv, deviceId, e) == Ok(d) && FieldsFor(c, e, deviceId) == Ok(f)
    requires multiset(wire) == multiset(e.params) && SignedOnce(c, priv, d, f, input, i)
    ensures Verdict(c, d, wire, input) == Err(InsufficientSignatures) <==>
              input.minSignatures >= 2 || input.keys[i].role == ROLE_APPROVER
  {
    hide EarlyRejection, ParsedFields, Signed, FieldsFor, TallyOf, SignerIndex, KeyId, PAE, P.EncodingOf;
    SignedOncePasses(c, priv, deviceId, e, d, f, wire, input, i);
    OneTally(c, input.keys, PAE(PAYLOAD_TYPE_COMMAND, d.payload), f.issuedAt, d.signatures[0], i);
    assert d.signatures == [d.signatures[0]];
  }

  // ---- why a command is rejected ------------------------------------------------------

  ghost predicate NamesAny(c: Primitives, keys: seq<KeyEntry>, s: Signature) {
    exists i: nat :: Names(c, keys, i, s)
  }

  /** An entry names a key that was in its window when the command was issued, but is not its signature. */
  ghost predicate HasBad(c: Primitives, d: Envelope, at: I64, keys: seq<KeyEntry>) {
    exists i: nat, s | s in d.signatures && Names(c, keys, i, s) ::
      && keys[i].notAfter != 0 && keys[i].notBefore <= at <= keys[i].notAfter
      && !c.verify(keys[i].pub, PAE(PAYLOAD_TYPE_COMMAND, d.payload), s.sig)
  }

  /** An entry names a key that was not in its window when the command was issued. */
  ghost predicate HasExpired(c: Primitives, d: Envelope, at: I64, keys: seq<KeyEntry>) {
    exists i: nat, s | s in d.signatures && Names(c, keys, i, s) ::
      keys[i].notAfter == 0 || at < keys[i].notBefore || at > keys[i].notAfter
  }

  /** What the flags of a tally say of the entries looked at. */
  lemma {:induction false} TallyFlags(
    c: Primitives, idx: map<Bytes, KeyEntry>, msg: Bytes, at: I64, sigs: seq<Signature>)
    ensures var t := TallyOf(c, idx, msg, at, sigs);
            && (t.sawBad ==> exists s | s in sigs && s.keyId in idx ::
                               InSignerWindow(idx[s.keyId], at) && !c.verify(idx[s.keyId].pub, msg, s.sig))
            && (t.sawExpired ==> exists s | s in sigs && s.keyId in idx :: !InSignerWindow(idx[s.keyId], at))
            && (!t.sawBad && !t.sawExpired && t.good == [] ==> forall s | s in sigs :: s.keyId !in idx)
  {
    if sigs != [] {
      hide InSignerWindow;
      var front, s := sigs[..|sigs| - 1], sigs[|sigs| - 1];
      TallyFlags(c, idx, msg, at, front);
      assert sigs == front + [s];
    }
  }

  lemma NamedIndexed(c: Primitives, keys: seq<KeyEntry>, s: Signature)
    ensures s.keyId in SignerIndex(c, keys) <==> NamesAny(c, keys, s)
    ensures forall i: nat | Names(c, keys, i, s) ::
              SignerIndex(c, keys)[s.keyId] == keys[i].(keyId := KeyId(c, keys[i].pub))
  {
    hide KeyId;
    forall i: nat ensures Names(c, keys, i, s) <==> ListedOnce(c, keys, i) && KeyId(c, keys[i].pub) == s.keyId {
    }
    hide Names, ListedOnce;
    if s.keyId in SignerIndex(c, keys) {
      var i :| 0 <= i < |keys| && ListedOnce(c, keys, i) && KeyId(c, keys[i].pub) == s.keyId;
      assert Names(c, keys, i, s);
    }
    forall i: nat | Names(c, keys, i, s)
      ensures s.keyId in SignerIndex(c, keys)
      ensures SignerIndex(c, keys)[s.keyId] == keys[i].(keyId := KeyId(c, keys[i].pub))
    {
      assert SignerIndex(c, keys)[KeyId(c, keys[i].pub)] == Identified(c, keys[i]);
    }
  }

  /** Who signs, when it is not enough, and what the entries are otherwise. */
  ghost predicate SignedBecause(c: Primitives, d: Envelope, at: I64, input: Input, reason: Reason) {
    var nobody := SigningKeys(c, input.keys, PAE(PAYLOAD_TYPE_COMMAND, d.payload), at, d.signatures) == {};
    && !WellSigned(c, d, at, input)
    && match reason
       case BadSignature => HasBad(c, d, at, input.keys)
       case InsufficientSignatures => !nobody
       case KeyExpired => nobody && HasExpired(c, d, at, input.keys)
       case UnknownKey => forall s | s in d.signatures :: !NamesAny(c, input.keys, s)
       case _ => false
  }

  lemma FlagsBecause(c: Primitives, d: Envelope, at: I64, keys: seq<KeyEntry>)
    ensures var t := TallyOf(c, SignerIndex(c, keys), PAE(PAYLOAD_TYPE_COMMAND, d.payload), at, d.signatures);
            && (t.sawBad ==> HasBad(c, d, at, keys)) && (t.sawExpired ==> HasExpired(c, d, at, keys))
            && (!t.sawBad && !t.sawExpired && t.good == [] ==> forall s | s in d.signatures :: !NamesAny(c, keys, s))
  {
    var idx, msg := SignerIndex(c, keys), PAE(PAYLOAD_TYPE_COMMAND, d.payload);
    var t := TallyOf(c, idx, msg, at, d.signatures);
    TallyFlags(c, idx, msg, at, d.signatures);
    hide SignerIndex, TallyOf, PAE, Names, KeyId;
    forall s: Signature ensures s.keyId in idx <==> NamesAny(c, keys, s) {
      NamedIndexed(c, keys, s);
    }
    if t.sawBad {
      var s :| s in d.signatures && s.keyId in idx
               && InSignerWindow(idx[s.keyId], at) && !c.verify(idx[s.keyId].pub, msg, s.sig);
      var i: nat :| Names(c, keys, i, s);
      NamedIndexed(c, keys, s);
    }
    if t.sawExpired {
      var s :| s in d.signatures && s.keyId in idx && !InSignerWindow(idx[s.keyId], at);
      var i: nat :| Names(c, keys, i, s);
      NamedIndexed(c, keys, s);
    }
  }

  lemma SignaturesRejectedBecause(c: Primitives, d: Envelope, at: I64, input: Input)
    ensures var t := TallyOf(c, SignerIndex(c, input.keys), PAE(PAYLOAD_TYPE_COMMAND, d.payload), at, d.signatures);
            match SignatureRejection(t, Required(input))
            case None => WellSigned(c, d, at, input)
            case Some(r) => SignedBecause(c, d, at, input, r)
  {
    var idx, msg := SignerIndex(c, input.keys), PAE(PAYLOAD_TYPE_COMMAND, d.payload);
    TallyExact(c, idx, msg, at, d.signatures);
    SignersAreKeys(c, input.keys, msg, at, d.signatures);
    FlagsBecause(c, d, at, input.keys);
    var t, good := TallyOf(c, idx, msg, at, d.signatures), GoodSigners(c, idx, msg, at, d.signatures);
    hide SignerIndex, TallyOf, PAE, HasBad, HasExpired, NamesAny, SigningKeys, GoodSigners, HasCommandKey;
  }

  /** The fields of the envelope if it is rejected for what they say. */
  ghost predicate BodyBecause(b: Bytes, reason: Reason) {
    exists f :: IsBodyOf(b, f) && match reason
      case BadDeviceId => !ValidDeviceId(f.deviceId)
      case UnknownType => f.cmdType !in KNOWN_TYPES
      case BadLifetime => !(0 < f.issuedAt < f.expiresAt <= f.issuedAt + 31 * 86_400 * 1_000_000_000)
      case MalformedEnvelope => !WellFormed(f)
      case _ => false
  }

  /** What each reason says about the envelope, the verifier and the clock. */
  ghost predicate Because(c: Primitives, d: Envelope, params: seq<P.Param>, input: Input, reason: Reason) {
    match ParsedFields(d.payload)
    case Err(_) =>
      match reason {
        case UnsupportedVersion => d.payloadType != PAYLOAD_TYPE_COMMAND && COMMAND_TYPE_PREFIX <= d.payloadType
        case BadPayloadType => !(COMMAND_TYPE_PREFIX <= d.payloadType)
        case BadDeviceId => !ValidDeviceId(input.deviceId) || BodyBecause(d.payload, reason)
        case MalformedEnvelope =>
          !WellShaped(d) || (forall f :: !IsBodyOf(d.payload, f)) || BodyBecause(d.payload, reason)
        case _ => BodyBecause(d.payload, reason)
      }
    case Ok(f) =>
      match reason {
        case UnsupportedVersion => d.payloadType != PAYLOAD_TYPE_COMMAND && COMMAND_TYPE_PREFIX <= d.payloadType
        case BadPayloadType => !(COMMAND_TYPE_PREFIX <= d.payloadType)
        case BadDeviceId => !ValidDeviceId(input.deviceId)
        case MalformedEnvelope =>
          !WellShaped(d) || input.wireCommandId !in {[], f.commandId} || input.wireType !in {[], f.cmdType}
        case WrongDevice => f.deviceId != input.deviceId
        case WrongTenant => input.expectTenant.Some? && f.tenantId != input.expectTenant.value
        case MalformedParams => !P.ValidParams(params)
        case ClockUnsynced => input.now.None?
        case NotYetValid => input.now.Some? && f.issuedAt > WrapI64(input.now.value + 120_000_000_000)
        case Expired => input.now.Some? && input.now.value > f.expiresAt
        case BadSignature =>
          c.sha256(P.EncodingOf(params)) != f.paramsDigest || SignedBecause(c, d, f.issuedAt, input, reason)
        case _ => SignedBecause(c, d, f.issuedAt, input, reason)
      }
  }

  lemma ParsedBecause(b: Bytes)
    ensures match ParsedFields(b)
            case Ok(_) => true
            case Err(r) =>
              && (BodyBecause(b, r) || (r == MalformedEnvelope && forall f :: !IsBodyOf(b, f)))
              && (r == MalformedEnvelope || r == BadDeviceId || r == UnknownType || r == BadLifetime)
  {
    if f :| IsBodyOf(b, f) {
      ParsedFieldsUnique(b, f);
      WellFormedExactly(f);
      hide IsBodyOf, WellFormed, CanonicalUuid4, Printable, ParsedFields;
      assert FieldsError(f).Some? ==> BodyBecause(b, FieldsError(f).value);
    }
  }

  lemma EarlyBecause(c: Primitives, d: Envelope, params: seq<P.Param>, input: Input)
    requires EarlyRejection(c, d, params, input).Some?
    ensures Because(c, d, params, input, EarlyRejection(c, d, params, input).value)
  {
    ParsedBecause(d.payload);
    hide ParsedFields, IsBodyOf, BodyBecause, ValidDeviceId, WellShaped, P.ValidParams, P.EncodingOf, SignedBecause;
  }

  /** Every reason for a rejection is true of what was rejected. */
  lemma RejectedBecause(c: Primitives, d: Envelope, params: seq<P.Param>, input: Input)
    requires Verdict(c, d, params, input).Err?
    ensures Because(c, d, params, input, Verdict(c, d, params, input).error)
  {
    hide ParsedFields, IsBodyOf, BodyBecause, WellShaped, P.ValidParams, P.EncodingOf, SignedBecause, TallyOf;
    hide SignerIndex, EarlyRejection, PAE, WellSigned;
    if EarlyRejection(c, d, params, input).Some? {
      EarlyBecause(c, d, params, input);
    } else {
      EarlyNone(c, d, params, input);
      SignaturesRejectedBecause(c, d, ParsedFields(d.payload).value.issuedAt, input);
    }
  }

  lemma EarlyNone(c: Primitives, d: Envelope, params: seq<P.Param>, input: Input)
    requires EarlyRejection(c, d, params, input).None?
    ensures ParsedFields(d.payload).Ok? && d.payloadType == PAYLOAD_TYPE_COMMAND
  {
  }
}
