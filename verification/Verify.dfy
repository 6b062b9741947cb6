/** Signing and verifying commands: the multi-signature verifier, its exact acceptance
    condition, and what signing and co-signing guarantee. */
module Verify {
  import opened ByteStrings
  import opened Sorting
  import opened Crypto
  import opened Dsse
  import opened Statements
  import opened Trust
  import opened CommandBody
  import opened Results
  import P = Params

  datatype Input = Input(
    deviceId: Bytes, expectTenant: Option<Bytes>, keys: seq<KeyEntry>, now: Clock,
    minSignatures: int, wireCommandId: Bytes, wireType: Bytes)

  datatype Verified = Verified(digest: Digest, keyIds: seq<Bytes>, fields: Fields)

  // ---- trusted signing keys -----------------------------------------------------------

  predicate Eligible(c: Primitives, k: KeyEntry) {
    (k.role == ROLE_COMMAND || k.role == ROLE_APPROVER) && !IsWeak(c, k.pub)
  }

  /** The i-th key is eligible and no other eligible key has its id. */
  ghost predicate ListedOnce(c: Primitives, keys: seq<KeyEntry>, i: nat) {
    && i < |keys| && Eligible(c, keys[i])
    && forall j | 0 <= j < |keys| && j != i && Eligible(c, keys[j]) :: KeyId(c, keys[j].pub) != KeyId(c, keys[i].pub)
  }

  function Identified(c: Primitives, k: KeyEntry): KeyEntry {
    k.(keyId := KeyId(c, k.pub))
  }

  /** The trusted keys by derived id; an ambiguous id is dropped altogether. */
  ghost function SignerIndex(c: Primitives, keys: seq<KeyEntry>): map<Bytes, KeyEntry> {
    map i | 0 <= i < |keys| && ListedOnce(c, keys, i) :: KeyId(c, keys[i].pub) := Identified(c, keys[i])
  }

  ghost predicate HasId(c: Primitives, k: KeyEntry, id: Bytes) {
    Eligible(c, k) && KeyId(c, k.pub) == id
  }

  /** What the loop knows about one id after i keys: idx holds the first key with it, and dup
      tells whether there was a second. */
  ghost predicate IndexedAt(
    c: Primitives, keys: seq<KeyEntry>, i: nat, idx: map<Bytes, KeyEntry>, dup: set<Bytes>, id: Bytes)
    requires i <= |keys|
  {
    if id !in idx then id !in dup && forall k | 0 <= k < i :: !HasId(c, keys[k], id)
    else exists j | 0 <= j < i :: HasId(c, keys[j], id) && idx[id] == Identified(c, keys[j])
           && (id in dup <==> exists k | 0 <= k < i && k != j :: HasId(c, keys[k], id))
  }

  lemma IndexedStep(
    c: Primitives, keys: seq<KeyEntry>, i: nat, idx: map<Bytes, KeyEntry>, dup: set<Bytes>,
    idx': map<Bytes, KeyEntry>, dup': set<Bytes>, id: Bytes)
    requires i < |keys| && IndexedAt(c, keys, i, idx, dup, id)
    requires var k := keys[i]; var n := KeyId(c, k.pub);
             if !Eligible(c, k) then idx' == idx && dup' == dup
             else if n in idx then idx' == idx && dup' == dup + {n}
             else idx' == idx[n := Identified(c, k)] && dup' == dup
    ensures IndexedAt(c, keys, i + 1, idx', dup', id)
  {
  }

  lemma IndexEntry(c: Primitives, keys: seq<KeyEntry>, idx: map<Bytes, KeyEntry>, dup: set<Bytes>, id: Bytes)
    requires IndexedAt(c, keys, |keys|, idx, dup, id)
    ensures id in idx && id !in dup <==> id in SignerIndex(c, keys)
    ensures id in idx && id !in dup ==> SignerIndex(c, keys)[id] == idx[id]
  {
  }

  /** After all keys, dropping the ambiguous ids leaves the index. */
  lemma IndexComplete(c: Primitives, keys: seq<KeyEntry>, idx: map<Bytes, KeyEntry>, dup: set<Bytes>)
    requires forall id :: IndexedAt(c, keys, |keys|, idx, dup, id)
    ensures idx - dup == SignerIndex(c, keys)
  {
    forall id: Bytes
      ensures id in idx && id !in dup <==> id in SignerIndex(c, keys)
      ensures id in idx && id !in dup ==> SignerIndex(c, keys)[id] == idx[id]
    {
      IndexEntry(c, keys, idx, dup, id);
    }
    hide SignerIndex, IndexedAt;
  }

  method BuildSignerIndex(c: Primitives, keys: seq<KeyEntry>) returns (idx: map<Bytes, KeyEntry>)
    ensures idx == SignerIndex(c, keys)
  {
    idx := map[];
    var dup: set<Bytes> := {};
    assert forall id :: IndexedAt(c, keys, 0, idx, dup, id);
    hide IndexedAt;
    for i := 0 to |keys|
      invariant forall id :: IndexedAt(c, keys, i, idx, dup, id)
    {
      ghost var idx0, dup0 := idx, dup;
      if Eligible(c, keys[i]) {
        var id := KeyId(c, keys[i].pub);
        if id in idx {
          dup := dup + {id};
        } else {
          idx := idx[id := Identified(c, keys[i])];
        }
      }
      ghost var next := i + 1;
      forall id ensures IndexedAt(c, keys, next, idx, dup, id) {
        IndexedStep(c, keys, i, idx0, dup0, idx, dup, id);
      }
    }
    IndexComplete(c, keys, idx, dup);
    idx := idx - dup;
  }

  // ---- tallying signatures ------------------------------------------------------------

  predicate Verifies(c: Primitives, idx: map<Bytes, KeyEntry>, msg: Bytes, at: I64, s: Signature) {
    && s.keyId in idx && InSignerWindow(idx[s.keyId], at)
    && c.verify(idx[s.keyId].pub, msg, s.sig)
  }

  /** The keys with a verifying signature entry. */
  ghost function GoodSigners(
    c: Primitives, idx: map<Bytes, KeyEntry>, msg: Bytes, at: I64, sigs: seq<Signature>): set<Bytes>
  {
    set s | s in sigs && Verifies(c, idx, msg, at, s) :: s.keyId
  }

  datatype Tally = Tally(good: seq<Bytes>, commands: nat, sawBad: bool, sawExpired: bool)

  function Count(c: Primitives, idx: map<Bytes, KeyEntry>, msg: Bytes, at: I64, t: Tally, s: Signature): Tally {
    if s.keyId !in idx || s.keyId in t.good then t
    else if !InSignerWindow(idx[s.keyId], at) then t.(sawExpired := true)
    else if !c.verify(idx[s.keyId].pub, msg, s.sig) then t.(sawBad := true)
    else t.(good := t.good + [s.keyId],
            commands := t.commands + if idx[s.keyId].role == ROLE_COMMAND then 1 else 0)
  }

  function TallyOf(c: Primitives, idx: map<Bytes, KeyEntry>, msg: Bytes, at: I64, sigs: seq<Signature>): Tally {
    if sigs == [] then Tally([], 0, false, false)
    else Count(c, idx, msg, at, TallyOf(c, idx, msg, at, sigs[..|sigs| - 1]), sigs[|sigs| - 1])
  }

  ghost predicate HasCommandKey(idx: map<Bytes, KeyEntry>, ids: set<Bytes>) {
    exists id | id in ids :: id in idx && idx[id].role == ROLE_COMMAND
  }

  lemma GoodSnoc(
    c: Primitives, idx: map<Bytes, KeyEntry>, msg: Bytes, at: I64, sigs: seq<Signature>, s: Signature)
    ensures GoodSigners(c, idx, msg, at, sigs + [s])
         == GoodSigners(c, idx, msg, at, sigs) + if Verifies(c, idx, msg, at, s) then {s.keyId} else {}
  {
  }

  /** A tally lists the keys of a set, each once, and knows whether a command key is among them. */
  ghost predicate TallyLists(t: Tally, idx: map<Bytes, KeyEntry>, good: set<Bytes>) {
    && NoRepeats(t.good) && (forall id :: id in t.good <==> id in good) && |t.good| == |good|
    && (t.commands > 0 <==> HasCommandKey(idx, good))
  }

  /** The running tally lists exactly the keys with a verifying entry, each once. */
  lemma {:induction false} TallyExact(
    c: Primitives, idx: map<Bytes, KeyEntry>, msg: Bytes, at: I64, sigs: seq<Signature>)
    ensures TallyLists(TallyOf(c, idx, msg, at, sigs), idx, GoodSigners(c, idx, msg, at, sigs))
  {
    if sigs != [] {
      hide GoodSigners, Verifies, Count;
      var front, s := sigs[..|sigs| - 1], sigs[|sigs| - 1];
      TallyExact(c, idx, msg, at, front);
      assert sigs == front + [s];
      GoodSnoc(c, idx, msg, at, front, s);
      var t, good := TallyOf(c, idx, msg, at, front), GoodSigners(c, idx, msg, at, front);
      TallyStep(c, idx, msg, at, t, good, s);
    }
  }

  lemma CountCases(c: Primitives, idx: map<Bytes, KeyEntry>, msg: Bytes, at: I64, t: Tally, s: Signature)
    ensures var u := Count(c, idx, msg, at, t, s);
            if Verifies(c, idx, msg, at, s) && s.keyId !in t.good
            then u.good == t.good + [s.keyId] && s.keyId in idx
                 && u.commands == t.commands + if idx[s.keyId].role == ROLE_COMMAND then 1 else 0
            else u.good == t.good && u.commands == t.commands
  {
  }

  lemma TallyStep(
    c: Primitives, idx: map<Bytes, KeyEntry>, msg: Bytes, at: I64, t: Tally, good: set<Bytes>, s: Signature)
    requires TallyLists(t, idx, good)
    ensures TallyLists(Count(c, idx, msg, at, t, s), idx,
                       good + if Verifies(c, idx, msg, at, s) then {s.keyId} else {})
  {
    hide Count, Verifies;
    CountCases(c, idx, msg, at, t, s);
    if Verifies(c, idx, msg, at, s) && s.keyId !in good {
      TallyGrows(t, idx, good, s.keyId, Count(c, idx, msg, at, t, s));
      hide TallyLists;
      return;
    }
    assert good + (if Verifies(c, idx, msg, at, s) then {s.keyId} else {}) == good;
    hide HasCommandKey;
  }

  lemma TallyGrows(t: Tally, idx: map<Bytes, KeyEntry>, good: set<Bytes>, id: Bytes, u: Tally)
    requires TallyLists(t, idx, good) && id !in good && id in idx
    requires u.good == t.good + [id]
    requires u.commands == t.commands + if idx[id].role == ROLE_COMMAND then 1 else 0
    ensures TallyLists(u, idx, good + {id})
  {
  }

  // ---- verification -------------------------------------------------------------------

  function Required(input: Input): int {
    if input.minSignatures <= 0 then 1 else input.minSignatures
  }

  /** The first reason to reject before any signature is looked at. */
  ghost function EarlyRejection(c: Primitives, d: Envelope, params: seq<P.Param>, input: Input): Option<Reason> {
    if d.payloadType != PAYLOAD_TYPE_COMMAND then
      Some(if HasPrefix(d.payloadType, COMMAND_TYPE_PREFIX) then UnsupportedVersion else BadPayloadType)
    else if !ValidDeviceId(input.deviceId) then Some(BadDeviceId)
    else if !WellShaped(d) then Some(MalformedEnvelope)
    else
      match ParsedFields(d.payload)
      case Err(r) => Some(r)
      case Ok(f) =>
        if f.deviceId != input.deviceId then Some(WrongDevice)
        else if input.expectTenant.Some? && input.expectTenant.value != f.tenantId then Some(WrongTenant)
        else if input.wireCommandId != [] && input.wireCommandId != f.commandId then Some(MalformedEnvelope)
        else if input.wireType != [] && input.wireType != f.cmdType then Some(MalformedEnvelope)
        else if !P.ValidParams(params) then Some(MalformedParams)
        else None
  }

  /** The reason to reject given the signature tally. */
  function SignatureRejection(t: Tally, required: int): Option<Reason> {
    if |t.good| >= required && t.commands >= 1 then None
    else if t.sawBad then Some(BadSignature)
    else if |t.good| > 0 then Some(InsufficientSignatures)
    else if t.sawExpired then Some(KeyExpired)
    else Some(UnknownKey)
  }

  /** The reason to reject once the signatures are in order. */
  function LateRejection(c: Primitives, f: Fields, params: seq<P.Param>, now: Clock): Option<Reason> {
    if c.sha256(P.EncodingOf(params)) != f.paramsDigest then Some(BadSignature)
    else if now.None? then Some(ClockUnsynced)
    else if f.issuedAt > Horizon(now.value) then Some(NotYetValid)
    else if now.value > f.expiresAt then Some(Expired)
    else None
  }

  ghost function Verdict(c: Primitives, d: Envelope, params: seq<P.Param>, input: Input): Result<Verified, Reason> {
    var early := EarlyRejection(c, d, params, input);
    if early.Some? then Err(early.value)
    else
      var f := ParsedFields(d.payload).value;
      var msg := PAE(d.payloadType, d.payload);
      var t := TallyOf(c, SignerIndex(c, input.keys), msg, f.issuedAt, d.signatures);
      match SignatureRejection(t, Required(input))
      case Some(r) => Err(r)
      case None =>
        match LateRejection(c, f, params, input.now)
        case Some(r) => Err(r)
        case None => Ok(Verified(c.sha256(msg), t.good, f))
  }

  method CheckEarly(c: Primitives, d: Envelope, params: seq<P.Param>, input: Input)
    returns (rejection: Option<Reason>, f: Fields)
    ensures rejection == EarlyRejection(c, d, params, input)
    ensures rejection.None? ==> ParsedFields(d.payload) == Ok(f)
  {
    f := BLANK;
    if d.payloadType != PAYLOAD_TYPE_COMMAND {
      return Some(if HasPrefix(d.payloadType, COMMAND_TYPE_PREFIX) then UnsupportedVersion else BadPayloadType), f;
    }
    if !ValidDeviceId(input.deviceId) {
      return Some(BadDeviceId), f;
    }
    if !WellShaped(d) {
      return Some(MalformedEnvelope), f;
    }
    var parsed := ParseFields(d.payload);
    if parsed.Err? {
      return Some(parsed.error), f;
    }
    f := parsed.value;
    if f.deviceId != input.deviceId {
      return Some(WrongDevice), f;
    }
    if input.expectTenant.Some? && input.expectTenant.value != f.tenantId {
      return Some(WrongTenant), f;
    }
    if input.wireCommandId != [] && input.wireCommandId != f.commandId {
      return Some(MalformedEnvelope), f;
    }
    if input.wireType != [] && input.wireType != f.cmdType {
      return Some(MalformedEnvelope), f;
    }
    var paramsOk := P.ValidateParams(params);
    return if paramsOk then None else Some(MalformedParams), f;
  }

  method TallySignatures(c: Primitives, idx: map<Bytes, KeyEntry>, msg: Bytes, at: I64, sigs: seq<Signature>)
    returns (t: Tally)
    ensures t == TallyOf(c, idx, msg, at, sigs)
  {
    var good: seq<Bytes>, commands, sawBad, sawExpired := [], 0, false, false;
    for i := 0 to |sigs|
      invariant Tally(good, commands, sawBad, sawExpired) == TallyOf(c, idx, msg, at, sigs[..i])
    {
      var s := sigs[i];
      assert sigs[..i + 1][..i] == sigs[..i];
      if s.keyId !in idx || s.keyId in good {
        continue;
      }
      var k := idx[s.keyId];
      if k.notAfter == 0 || at < k.notBefore || at > k.notAfter {
        sawExpired := true;
        continue;
      }
      if c.verify(k.pub, msg, s.sig) {
        good := good + [s.keyId];
        if k.role == ROLE_COMMAND {
          commands := commands + 1;
        }
      } else {
        sawBad := true;
      }
    }
    assert sigs[..|sigs|] == sigs;
    t := Tally(good, commands, sawBad, sawExpired);
  }

  method VerifyCommand(c: Primitives, d: Envelope, params: seq<P.Param>, input: Input)
    returns (r: Result<Verified, Reason>)
    ensures r == Verdict(c, d, params, input)
  {
    var early, f := CheckEarly(c, d, params, input);
    if early.Some? {
      return Err(early.value);
    }
    var idx := BuildSignerIndex(c, input.keys);
    var msg := PAE(d.payloadType, d.payload);
    var t := TallySignatures(c, idx, msg, f.issuedAt, d.signatures);
    var rejection := SignatureRejection(t, Required(input));
    if rejection.Some? {
      return Err(rejection.value);
    }
    var digestInput := P.EncodeParams(params);
    assert digestInput == Ok(P.EncodingOf(params));
    if c.sha256(digestInput.value) != f.paramsDigest {
      return Err(BadSignature);
    }
    if input.now.None? {
      return Err(ClockUnsynced);
    }
    if f.issuedAt > Horizon(input.now.value) {
      return Err(NotYetValid);
    }
    if input.now.value > f.expiresAt {
      return Err(Expired);
    }
    return Ok(Verified(c.sha256(msg), t.good, f));
  }

  // ---- the acceptance condition -------------------------------------------------------

  ghost function Signers(c: Primitives, d: Envelope, keys: seq<KeyEntry>): set<Bytes>
    requires ParsedFields(d.payload).Ok?
  {
    var issuedAt := ParsedFields(d.payload).value.issuedAt;
    GoodSigners(c, SignerIndex(c, keys), PAE(d.payloadType, d.payload), issuedAt, d.signatures)
  }

  predicate AddressedTo(f: Fields, input: Input) {
    && f.deviceId == input.deviceId
    && (input.expectTenant.Some? ==> input.expectTenant.value == f.tenantId)
    && (input.wireCommandId == [] || input.wireCommandId == f.commandId)
    && (input.wireType == [] || input.wireType == f.cmdType)
  }

  predicate Timely(f: Fields, now: Clock) {
    now.Some? && f.issuedAt <= Horizon(now.value) && now.value <= f.expiresAt
  }

  ghost predicate EnoughSigners(c: Primitives, d: Envelope, input: Input)
    requires ParsedFields(d.payload).Ok?
  {
    && |Signers(c, d, input.keys)| >= 1 && |Signers(c, d, input.keys)| >= input.minSignatures
    && HasCommandKey(SignerIndex(c, input.keys), Signers(c, d, input.keys))
  }

  /** The condition under which a command is accepted, with no reference to the order in
      which anything is examined. */
  ghost predicate Acceptable(c: Primitives, d: Envelope, params: seq<P.Param>, input: Input) {
    && d.payloadType == PAYLOAD_TYPE_COMMAND && WellShaped(d)
    && ValidDeviceId(input.deviceId) && P.ValidParams(params)
    && ParsedFields(d.payload).Ok?
    && var f := ParsedFields(d.payload).value;
    && AddressedTo(f, input)
    && EnoughSigners(c, d, input)
    && c.sha256(P.EncodingOf(params)) == f.paramsDigest
    && Timely(f, input.now)
  }

  /** Verification accepts exactly the acceptable commands and reports their signers once each. */
  lemma AcceptsExactly(c: Primitives, d: Envelope, params: seq<P.Param>, input: Input)
    ensures Verdict(c, d, params, input).Ok? <==> Acceptable(c, d, params, input)
    ensures Verdict(c, d, params, input).Ok? ==>
              var v := Verdict(c, d, params, input).value;
              && ParsedFields(d.payload) == Ok(v.fields)
              && NoRepeats(v.keyIds) && (forall id :: id in v.keyIds <==> id in Signers(c, d, input.keys))
              && |v.keyIds| == |Signers(c, d, input.keys)|
  {
    hide ParsedFields, WellShaped, SignerIndex, P.ValidParams, P.EncodingOf;
    if ParsedFields(d.payload).Ok? {
      var f := ParsedFields(d.payload).value;
      TallyExact(c, SignerIndex(c, input.keys), PAE(d.payloadType, d.payload), f.issuedAt, d.signatures);
    }
  }

  /** A key listed once in one order is listed once in any other. */
  lemma ListedOncePermuted(c: Primitives, xs: seq<KeyEntry>, ys: seq<KeyEntry>, i: nat) returns (j: nat)
    requires multiset(xs) == multiset(ys) && ListedOnce(c, xs, i)
    ensures ListedOnce(c, ys, j) && ys[j] == xs[i]
  {
    SameElements(xs, ys);
    assert xs[i] in ys;
    j :| 0 <= j < |ys| && ys[j] == xs[i];
    forall k | 0 <= k < |ys| && k != j && Eligible(c, ys[k])
      ensures KeyId(c, ys[k].pub) != KeyId(c, ys[j].pub)
    {
      if ys[k] == ys[j] {
        RepeatedElement(ys, if j < k then j else k, if j < k then k else j);
        TwoOccurrences(xs, ys[j]);
        assert false;
      } else {
        assert ys[k] in xs;
      }
    }
  }

  lemma SignerIndexPermuted(c: Primitives, xs: seq<KeyEntry>, ys: seq<KeyEntry>)
    requires multiset(xs) == multiset(ys)
    ensures SignerIndex(c, xs) == SignerIndex(c, ys)
  {
    SignerIndexCovered(c, xs, ys);
    SignerIndexCovered(c, ys, xs);
    assert SignerIndex(c, xs).Keys == SignerIndex(c, ys).Keys;
  }

  lemma SignerIndexCovered(c: Primitives, xs: seq<KeyEntry>, ys: seq<KeyEntry>)
    requires multiset(xs) == multiset(ys)
    ensures forall id | id in SignerIndex(c, xs) ::
              id in SignerIndex(c, ys) && SignerIndex(c, ys)[id] == SignerIndex(c, xs)[id]
  {
    forall id | id in SignerIndex(c, xs)
      ensures id in SignerIndex(c, ys) && SignerIndex(c, ys)[id] == SignerIndex(c, xs)[id]
    {
      var i :| 0 <= i < |xs| && ListedOnce(c, xs, i) && KeyId(c, xs[i].pub) == id;
      var j := ListedOncePermuted(c, xs, ys, i);
      assert KeyId(c, ys[j].pub) == id;
    }
  }

  /** The verdict does not depend on the order of the signatures, of the trusted keys or of
      the parameters: neither acceptance nor, but for their order, what is reported. */
  lemma VerdictIgnoresOrder(
    c: Primitives, d: Envelope, params: seq<P.Param>, input: Input,
    sigs: seq<Signature>, keys: seq<KeyEntry>, wire: seq<P.Param>)
    requires multiset(sigs) == multiset(d.signatures) && multiset(keys) == multiset(input.keys)
    requires multiset(wire) == multiset(params)
    ensures var one := Verdict(c, d, params, input);
            var other := Verdict(c, d.(signatures := sigs), wire, input.(keys := keys));
            && (other.Ok? <==> one.Ok?)
            && (one.Ok? ==>
                  && other.value.fields == one.value.fields && other.value.digest == one.value.digest
                  && |other.value.keyIds| == |one.value.keyIds|
                  && forall id :: id in other.value.keyIds <==> id in one.value.keyIds)
  {
    var e, j := d.(signatures := sigs), input.(keys := keys);
    OrderIrrelevant(c, d, params, input, sigs, keys, wire);
    OrderIrrelevant(c, e, wire, j, d.signatures, input.keys, params);
    assert e.(signatures := d.signatures) == d && j.(keys := input.keys) == input;
    AcceptsExactly(c, d, params, input);
    AcceptsExactly(c, e, wire, j);
    if Verdict(c, d, params, input).Ok? {
      VerdictDigest(c, d, params, input);
      VerdictDigest(c, e, wire, j);
      SignersIgnoreOrder(c, d, sigs, keys, input.keys);
    }
    hide Verdict, Acceptable, ParsedFields, Signers;
  }

  lemma VerdictDigest(c: Primitives, d: Envelope, params: seq<P.Param>, input: Input)
    requires Verdict(c, d, params, input).Ok?
    ensures Verdict(c, d, params, input).value.digest == c.sha256(PAE(d.payloadType, d.payload))
  {
  }

  lemma ShapeIgnoresOrder(d: Envelope, sigs: seq<Signature>)
    requires multiset(sigs) == multiset(d.signatures) && WellShaped(d)
    ensures WellShaped(d.(signatures := sigs))
  {
    SameElements(sigs, d.signatures);
    forall i | 0 <= i < |sigs| ensures WellFormedSignature(sigs[i]) {
      assert sigs[i] in d.signatures;
    }
  }

  lemma SignersIgnoreOrder(c: Primitives, d: Envelope, sigs: seq<Signature>, keys: seq<KeyEntry>, others: seq<KeyEntry>)
    requires multiset(sigs) == multiset(d.signatures) && multiset(keys) == multiset(others)
    requires ParsedFields(d.payload).Ok?
    ensures Signers(c, d.(signatures := sigs), keys) == Signers(c, d, others)
  {
    hide ParsedFields, SignerIndex;
    SameElements(sigs, d.signatures);
    SignerIndexPermuted(c, keys, others);
  }

  lemma OrderIrrelevant(
    c: Primitives, d: Envelope, params: seq<P.Param>, input: Input,
    sigs: seq<Signature>, keys: seq<KeyEntry>, wire: seq<P.Param>)
    requires multiset(sigs) == multiset(d.signatures) && multiset(keys) == multiset(input.keys)
    requires multiset(wire) == multiset(params)
    ensures Acceptable(c, d, params, input) ==> Acceptable(c, d.(signatures := sigs), wire, input.(keys := keys))
  {
    if Acceptable(c, d, params, input) {
      ShapeIgnoresOrder(d, sigs);
      SignersIgnoreOrder(c, d, sigs, keys, input.keys);
      SignerIndexPermuted(c, keys, input.keys);
      P.EncodingIgnoresOrder(params, wire);
      hide ParsedFields, SignerIndex, Signers, WellShaped, P.ValidParams, P.EncodingOf, HasCommandKey, ValidDeviceId;
      assert EnoughSigners(c, d.(signatures := sigs), input.(keys := keys));
    }
  }

  // ---- signing ------------------------------------------------------------------------

  datatype Command = Command(
    commandId: Bytes, tenantId: Bytes, cmdType: Bytes, requestedBy: Bytes, approvedBy: Bytes,
    correlationId: Bytes, sequence: U64, nonce: Bytes, issuedAt: I64, expiresAt: I64, params: seq<P.Param>)

  ghost function FieldsFor(c: Primitives, e: Command, deviceId: Bytes): Result<Fields, Reason> {
    if !P.ValidParams(e.params) then Err(MalformedParams)
    else
      var f := Fields(e.commandId, deviceId, e.tenantId, e.cmdType, e.requestedBy, e.approvedBy, e.correlationId,
                      e.sequence, e.nonce, e.issuedAt, e.expiresAt, c.sha256(P.EncodingOf(e.params)));
      match FieldsError(f)
      case Some(r) => Err(r)
      case None => Ok(f)
  }

  /** SignV2. */
  ghost function Signed(c: Primitives, priv: Bytes, deviceId: Bytes, e: Command): Result<Envelope, Reason> {
    match FieldsFor(c, e, deviceId)
    case Err(r) => Err(r)
    case Ok(f) =>
      match SignDsse(c, priv, PAYLOAD_TYPE_COMMAND, EncodeFields(f))
      case Err(r) => Err(r)
      case Ok(s) => Ok(Envelope(PAYLOAD_TYPE_COMMAND, EncodeFields(f), [s]))
  }

  /** The verifier is the target device, trusts the signer's command key, unambiguously and in
      its window at issue time, and asks for one signature. */
  ghost predicate Trusts(c: Primitives, input: Input, priv: Bytes, deviceId: Bytes, e: Command, i: nat) {
    && input.deviceId == deviceId
    && (input.expectTenant.Some? ==> input.expectTenant.value == e.tenantId)
    && (input.wireCommandId == [] || input.wireCommandId == e.commandId)
    && (input.wireType == [] || input.wireType == e.cmdType)
    && input.minSignatures <= 1
    && ListedOnce(c, input.keys, i) && input.keys[i].pub == c.publicOf(priv)
    && input.keys[i].role == ROLE_COMMAND && InSignerWindow(input.keys[i], e.issuedAt)
  }

  /** A signature by a key that is listed once and in its window makes that key the one signer. */
  lemma SoleSigner(c: Primitives, priv: Bytes, keys: seq<KeyEntry>, i: nat, at: I64, payload: Bytes)
    requires SigningWorks(c, priv) && |priv| == PRIVATE_KEY_SIZE && ListedOnce(c, keys, i)
    requires keys[i].pub == c.publicOf(priv) && keys[i].role == ROLE_COMMAND && InSignerWindow(keys[i], at)
    ensures var msg := PAE(PAYLOAD_TYPE_COMMAND, payload);
            var s := Signature(KeyId(c, c.publicOf(priv)), c.sign(priv, msg));
            && WellFormedSignature(s)
            && GoodSigners(c, SignerIndex(c, keys), msg, at, [s]) == {s.keyId}
            && HasCommandKey(SignerIndex(c, keys), {s.keyId})
  {
  }

  /** A signed envelope holds the signed fields, one signature, and nothing else. */
  lemma SignedShape(c: Primitives, priv: Bytes, deviceId: Bytes, e: Command, d: Envelope, f: Fields)
    requires Signed(c, priv, deviceId, e) == Ok(d) && FieldsFor(c, e, deviceId) == Ok(f)
    ensures ParsedFields(d.payload) == Ok(f)
    ensures |priv| == PRIVATE_KEY_SIZE && 0 < |d.payload| <= MAX_PAYLOAD_BYTES && d.payloadType == PAYLOAD_TYPE_COMMAND
    ensures d.signatures == [Signature(KeyId(c, c.publicOf(priv)), c.sign(priv, PAE(PAYLOAD_TYPE_COMMAND, d.payload)))]
    ensures ValidDeviceId(deviceId) && P.ValidParams(e.params) && e.issuedAt > 0
    ensures f.deviceId == deviceId && f.tenantId == e.tenantId && f.commandId == e.commandId && f.cmdType == e.cmdType
    ensures f.issuedAt == e.issuedAt && f.expiresAt == e.expiresAt
    ensures f.paramsDigest == c.sha256(P.EncodingOf(e.params))
  {
    hide P.ValidParams, P.EncodingOf;
    ValidWithinLimits(f);
    ParsedFieldsUnique(d.payload, f);
    BodySize(f);
  }

  lemma SignedSigners(
    c: Primitives, priv: Bytes, deviceId: Bytes, e: Command, d: Envelope, f: Fields, input: Input, i: nat)
    requires SigningWorks(c, priv) && Signed(c, priv, deviceId, e) == Ok(d) && FieldsFor(c, e, deviceId) == Ok(f)
    requires Trusts(c, input, priv, deviceId, e, i)
    ensures ParsedFields(d.payload) == Ok(f) && Signers(c, d, input.keys) == {KeyId(c, c.publicOf(priv))}
    ensures WellShaped(d) && EnoughSigners(c, d, input) && AddressedTo(f, input)
  {
    hide ParsedFields, FieldsFor, Signed, ValidDeviceId, P.ValidParams, P.EncodingOf, SignerIndex, GoodSigners;
    SignedShape(c, priv, deviceId, e, d, f);
    SoleSigner(c, priv, input.keys, i, e.issuedAt, d.payload);
  }

  lemma SignedAcceptable(
    c: Primitives, priv: Bytes, deviceId: Bytes, e: Command, d: Envelope, f: Fields,
    wire: seq<P.Param>, input: Input, i: nat)
    requires SigningWorks(c, priv) && Signed(c, priv, deviceId, e) == Ok(d) && FieldsFor(c, e, deviceId) == Ok(f)
    requires Trusts(c, input, priv, deviceId, e, i) && multiset(wire) == multiset(e.params)
    ensures Acceptable(c, d, wire, input) <==> Timely(f, input.now)
    ensures ParsedFields(d.payload) == Ok(f) && Signers(c, d, input.keys) == {KeyId(c, c.publicOf(priv))}
  {
    SignedShape(c, priv, deviceId, e, d, f);
    SignedSigners(c, priv, deviceId, e, d, f, input, i);
    P.EncodingIgnoresOrder(e.params, wire);
    assert input.deviceId == deviceId;
    hide ParsedFields, FieldsFor, Signed, ValidDeviceId, P.ValidParams, P.EncodingOf, Timely, Signers;
    hide SigningWorks, Trusts, WellShaped, AddressedTo, EnoughSigners, KeyId;
  }

  /** What is signed verifies: on the target device, with the wire parameters in any order, at
      exactly the times within the clock skew before issue and the expiry (and before the last
      two minutes of the int64 range), and the fields that come back are the ones signed. */
  lemma SignThenVerify(
    c: Primitives, priv: Bytes, deviceId: Bytes, e: Command, d: Envelope, f: Fields,
    wire: seq<P.Param>, input: Input, i: nat, now: I64)
    requires SigningWorks(c, priv) && Signed(c, priv, deviceId, e) == Ok(d) && FieldsFor(c, e, deviceId) == Ok(f)
    requires Trusts(c, input, priv, deviceId, e, i) && multiset(wire) == multiset(e.params)
    requires input.now == Some(now)
    ensures Verdict(c, d, wire, input).Ok? <==>
              e.issuedAt - CLOCK_SKEW <= now <= e.expiresAt && now + CLOCK_SKEW <= MAX_I64
    ensures Verdict(c, d, wire, input).Ok? ==>
              var v := Verdict(c, d, wire, input).value;
              v.fields == f && v.keyIds == [KeyId(c, c.publicOf(priv))]
  {
    hide ParsedFields, FieldsFor, Signed, Verdict, Acceptable, Signers, Trusts, Horizon;
    SignedShape(c, priv, deviceId, e, d, f);
    SignedAcceptable(c, priv, deviceId, e, d, f, wire, input, i);
    AcceptsExactly(c, d, wire, input);
    HorizonCases(now);
    if Verdict(c, d, wire, input).Ok? {
      OnlyId(Verdict(c, d, wire, input).value.keyIds, KeyId(c, c.publicOf(priv)));
    }
  }

  // ---- two signatures -----------------------------------------------------------------

  /** The verifier is the target device, lists both keys once and in their windows at issue time,
      the first as a command key, and asks for no more than two signatures. */
  ghost predicate TrustsBoth(
    c: Primitives, input: Input, priv: Bytes, second: Bytes, deviceId: Bytes, e: Command, i: nat, j: nat)
  {
    && Trusts(c, input.(minSignatures := 1), priv, deviceId, e, i) && input.minSignatures <= 2
    && i != j && ListedOnce(c, input.keys, j) && input.keys[j].pub == c.publicOf(second)
    && InSignerWindow(input.keys[j], e.issuedAt)
  }

  /** An indexed key in its window counts for a signature it made. */
  lemma OwnSignatureVerifies(c: Primitives, priv: Bytes, keys: seq<KeyEntry>, i: nat, at: I64, msg: Bytes)
    requires SigningWorks(c, priv) && |priv| == PRIVATE_KEY_SIZE && ListedOnce(c, keys, i)
    requires keys[i].pub == c.publicOf(priv) && InSignerWindow(keys[i], at)
    ensures var s := Signature(KeyId(c, c.publicOf(priv)), c.sign(priv, msg));
            && WellFormedSignature(s) && Verifies(c, SignerIndex(c, keys), msg, at, s)
            && SignerIndex(c, keys)[s.keyId].role == keys[i].role
  {
    assert SignerIndex(c, keys)[KeyId(c, keys[i].pub)] == Identified(c, keys[i]);
    assert c.verify(c.publicOf(priv), msg, c.sign(priv, msg));
  }

  /** Co-signing a singly signed envelope with another key appends the second signature. */
  lemma CoSignedShape(c: Primitives, second: Bytes, d: Envelope, s: Signature)
    requires d.signatures == [s] && |second| == PRIVATE_KEY_SIZE && s.keyId != KeyId(c, c.publicOf(second))
    ensures var t := Signature(KeyId(c, c.publicOf(second)), c.sign(second, PAE(d.payloadType, d.payload)));
            CoSigned(c, second, d) == Ok(d.(signatures := [s, t]))
  {
    var t := Signature(KeyId(c, c.publicOf(second)), c.sign(second, PAE(d.payloadType, d.payload)));
    hide KeyId, PAE;
    assert d.signatures[1..] == [] && Upsert([], t) == [t];
    assert Upsert(d.signatures, t) == [s, t] && !HasKeyId(d.signatures, t.keyId);
  }

  lemma BothSigners(c: Primitives, idx: map<Bytes, KeyEntry>, msg: Bytes, at: I64, s: Signature, t: Signature)
    requires Verifies(c, idx, msg, at, s) && Verifies(c, idx, msg, at, t) && s.keyId != t.keyId
    requires idx[s.keyId].role == ROLE_COMMAND
    ensures var good := GoodSigners(c, idx, msg, at, [s, t]);
            good == {s.keyId, t.keyId} && |good| == 2 && HasCommandKey(idx, good)
  {
    GoodSnoc(c, idx, msg, at, [], s);
    GoodSnoc(c, idx, msg, at, [s], t);
    assert [] + [s] == [s] && [s] + [t] == [s, t];
  }

  lemma CoSignedAcceptable(
    c: Primitives, priv: Bytes, second: Bytes, deviceId: Bytes, e: Command, d: Envelope, both: Envelope, f: Fields,
    wire: seq<P.Param>, input: Input, i: nat, j: nat)
    requires SigningWorks(c, priv) && SigningWorks(c, second)
    requires Signed(c, priv, deviceId, e) == Ok(d) && FieldsFor(c, e, deviceId) == Ok(f)
    requires CoSigned(c, second, d) == Ok(both) && multiset(wire) == multiset(e.params)
    requires TrustsBoth(c, input, priv, second, deviceId, e, i, j)
    ensures Acceptable(c, both, wire, input) <==> Timely(f, input.now)
    ensures ParsedFields(both.payload) == Ok(f)
    ensures Signers(c, both, input.keys) == {KeyId(c, c.publicOf(priv)), KeyId(c, c.publicOf(second))}
    ensures |Signers(c, both, input.keys)| == 2
  {
    hide ParsedFields, FieldsFor, Signed, ValidDeviceId, P.ValidParams, P.EncodingOf, SignerIndex, GoodSigners;
    hide KeyId, SigningWorks, Verifies, HasCommandKey, Timely;
    SignedShape(c, priv, deviceId, e, d, f);
    var msg := PAE(PAYLOAD_TYPE_COMMAND, d.payload);
    assert |second| == PRIVATE_KEY_SIZE;
    OwnSignatureVerifies(c, priv, input.keys, i, e.issuedAt, msg);
    OwnSignatureVerifies(c, second, input.keys, j, e.issuedAt, msg);
    var s := d.signatures[0];
    CoSignedShape(c, second, d, s);
    var t := both.signatures[1];
    BothSigners(c, SignerIndex(c, input.keys), msg, e.issuedAt, s, t);
    P.EncodingIgnoresOrder(e.params, wire);
    hide CoSigned, ListedOnce, PAE;
  }

  /** Two signatures complete a command as well: what a command key signs and another listed key,
      an approver's or a second command key, co-signs verifies where two signatures are asked for,
      at exactly the same times, and reports both keys. */
  lemma CoSignThenVerify(
    c: Primitives, priv: Bytes, second: Bytes, deviceId: Bytes, e: Command, d: Envelope, both: Envelope, f: Fields,
    wire: seq<P.Param>, input: Input, i: nat, j: nat, now: I64)
    requires SigningWorks(c, priv) && SigningWorks(c, second)
    requires Signed(c, priv, deviceId, e) == Ok(d) && FieldsFor(c, e, deviceId) == Ok(f)
    requires CoSigned(c, second, d) == Ok(both) && multiset(wire) == multiset(e.params)
    requires TrustsBoth(c, input, priv, second, deviceId, e, i, j) && input.now == Some(now)
    ensures Verdict(c, both, wire, input).Ok? <==>
              e.issuedAt - CLOCK_SKEW <= now <= e.expiresAt && now + CLOCK_SKEW <= MAX_I64
    ensures Verdict(c, both, wire, input).Ok? ==>
              var v := Verdict(c, both, wire, input).value;
              && v.fields == f && |v.keyIds| == 2
              && forall id :: id in v.keyIds <==> id in {KeyId(c, c.publicOf(priv)), KeyId(c, c.publicOf(second))}
  {
    hide ParsedFields, FieldsFor, Signed, Verdict, Acceptable, Signers, TrustsBoth, CoSigned, Horizon;
    SignedShape(c, priv, deviceId, e, d, f);
    CoSignedAcceptable(c, priv, second, deviceId, e, d, both, f, wire, input, i, j);
    AcceptsExactly(c, both, wire, input);
    HorizonCases(now);
  }

  /** None of the keys shares its identifier with pub without being pub. */
  predicate IdUnshared(c: Primitives, pub: Bytes, keys: seq<KeyEntry>) {
    forall k | k in keys && |k.pub| == PUBLIC_KEY_SIZE && KeyId(c, k.pub) == KeyId(c, pub) :: k.pub == pub
  }

  lemma ActiveKeyListedOnce(c: Primitives, st: Statement, priv: Bytes, now: I64) returns (i: nat)
    requires SigningWorks(c, priv) && IdUnshared(c, c.publicOf(priv), st.keys) && ValidStatement(c, st)
    requires |priv| == PRIVATE_KEY_SIZE
    requires KeyVerdict(st.keys, KeyId(c, c.publicOf(priv)), Some(now)).Ok?
    ensures ListedOnce(c, st.keys, i) && st.keys[i].pub == c.publicOf(priv)
    ensures st.keys[i].role == ROLE_COMMAND && InSignerWindow(st.keys[i], now)
  {
    i := KeyVerdictFinds(st.keys, KeyId(c, c.publicOf(priv)), now);
    assert EntryId(st.keys[i]) == KeyId(c, st.keys[i].pub);
    assert |c.publicOf(priv)| == PUBLIC_KEY_SIZE && |c.sign(priv, [])| == SIGNATURE_LEN;
    forall j | 0 <= j < |st.keys| && j != i ensures KeyId(c, st.keys[j].pub) != KeyId(c, st.keys[i].pub) {
      assert EntryId(st.keys[j]) == KeyId(c, st.keys[j].pub) && EntryId(st.keys[j]) != EntryId(st.keys[i]);
    }
  }

  /** A server whose signing key passes the self-check against the current statement can
      command every agent that holds that statement: what the key signs at that moment
      verifies there at once. */
  lemma ActiveKeySigns(
    c: Primitives, st: Statement, priv: Bytes, deviceId: Bytes, e: Command, d: Envelope, f: Fields,
    wire: seq<P.Param>, input: Input, now: I64)
    requires SigningWorks(c, priv) && IdUnshared(c, c.publicOf(priv), st.keys) && ValidStatement(c, st)
    requires KeyVerdict(st.keys, KeyId(c, c.publicOf(priv)), Some(now)).Ok?
    requires Signed(c, priv, deviceId, e) == Ok(d) && FieldsFor(c, e, deviceId) == Ok(f)
    requires multiset(wire) == multiset(e.params) && e.issuedAt == now && now + CLOCK_SKEW <= MAX_I64
    requires input.keys == st.keys && input.now == Some(now) && input.minSignatures <= 1
    requires AddressedTo(f, input)
    ensures Verdict(c, d, wire, input).Ok?
  {
    SignedShape(c, priv, deviceId, e, d, f);
    assert f.issuedAt < f.expiresAt;
    hide ValidStatement, Signed, FieldsFor, Verdict, ParsedFields, KeyVerdict, ListedOnce, IdUnshared;
    hide P.EncodingOf, P.ValidParams, ValidDeviceId;
    var i := ActiveKeyListedOnce(c, st, priv, now);
    SignThenVerify(c, priv, deviceId, e, d, f, wire, input, i, now);
  }

  lemma OnlyId(ids: seq<Bytes>, id: Bytes)
    requires |ids| == 1 && id in ids
    ensures ids == [id]
  {
  }

  /** Co-signing with any key leaves the payload alone and never turns an accepted envelope
      into a rejected one, as long as no other trusted key shares its identifier. */
  lemma CoSigningIsMonotone(
    c: Primitives, priv: Bytes, d: Envelope, params: seq<P.Param>, input: Input)
    requires SigningWorks(c, priv) && IdUnshared(c, c.publicOf(priv), input.keys)
    requires Acceptable(c, d, params, input) && CoSigned(c, priv, d).Ok?
    ensures var e := CoSigned(c, priv, d).value;
            e.payload == d.payload && Acceptable(c, e, params, input)
  {
    var e := CoSigned(c, priv, d).value;
    CoSignKeepsShape(c, priv, d);
    CoSignKeepsSigners(c, priv, d, input.keys);
    MoreSigners(c, d, e, input);
    hide ParsedFields, WellShaped, P.ValidParams, P.EncodingOf, ValidDeviceId, AddressedTo, CoSigned;
    hide SigningWorks, IdUnshared, EnoughSigners, Timely;
  }

  lemma MoreSigners(c: Primitives, d: Envelope, e: Envelope, input: Input)
    requires ParsedFields(d.payload).Ok? && ParsedFields(e.payload).Ok?
    requires EnoughSigners(c, d, input) && Signers(c, d, input.keys) <= Signers(c, e, input.keys)
    ensures EnoughSigners(c, e, input)
  {
    hide ParsedFields, Signers, SignerIndex;
    var before, after := Signers(c, d, input.keys), Signers(c, e, input.keys);
    assert after == before + (after - before);
  }

  /** The entry that made an id count survives, or is replaced by one that counts as well. */
  lemma SignerKept(c: Primitives, priv: Bytes, d: Envelope, e: Envelope, keys: seq<KeyEntry>, at: I64, t: Signature)
    requires SigningWorks(c, priv) && IdUnshared(c, c.publicOf(priv), keys) && CoSigned(c, priv, d) == Ok(e)
    requires t in d.signatures && Verifies(c, SignerIndex(c, keys), PAE(d.payloadType, d.payload), at, t)
    ensures exists u :: u in e.signatures && u.keyId == t.keyId
                        && Verifies(c, SignerIndex(c, keys), PAE(d.payloadType, d.payload), at, u)
  {
    var idx, msg := SignerIndex(c, keys), PAE(d.payloadType, d.payload);
    var s := Signature(KeyId(c, c.publicOf(priv)), c.sign(priv, msg));
    UpsertKeeps(d.signatures, s);
    if t.keyId == s.keyId {
      var i :| 0 <= i < |keys| && ListedOnce(c, keys, i) && KeyId(c, keys[i].pub) == t.keyId;
      assert keys[i].pub == c.publicOf(priv);
      assert Verifies(c, idx, msg, at, s);
    } else {
      assert t in e.signatures;
    }
  }

  lemma CoSignKeepsSigners(c: Primitives, priv: Bytes, d: Envelope, keys: seq<KeyEntry>)
    requires SigningWorks(c, priv) && IdUnshared(c, c.publicOf(priv), keys)
    requires ParsedFields(d.payload).Ok? && CoSigned(c, priv, d).Ok?
    ensures CoSigned(c, priv, d).value.payload == d.payload
    ensures Signers(c, d, keys) <= Signers(c, CoSigned(c, priv, d).value, keys)
  {
    hide ParsedFields, SignerIndex, Verifies, IdUnshared, SigningWorks;
    var e := CoSigned(c, priv, d).value;
    var at := ParsedFields(d.payload).value.issuedAt;
    forall id | id in Signers(c, d, keys) ensures id in Signers(c, e, keys) {
      var t :| t in d.signatures && t.keyId == id
               && Verifies(c, SignerIndex(c, keys), PAE(d.payloadType, d.payload), at, t);
      SignerKept(c, priv, d, e, keys, at, t);
    }
  }
}
