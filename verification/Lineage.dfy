/** Who can ever move the trust state: a safety theorem over every run of the chain rules,
    and the one-way ratchet of the floors. */
module Lineage {
  import opened ByteStrings
  import opened Crypto
  import opened Dsse
  import opened Statements
  import opened Trust
  import opened TrustEnvelopes
  import opened Results

  // ---- assumptions --------------------------------------------------------------------

  ghost predicate IsPAE(m: Bytes) {
    exists t, p :: m == PAE(t, p)
  }

  /** A message that an honest key may sign: anything that is not an envelope's message at all,
      and of those messages one of another type or one whose body is that of an approved statement. */
  ghost predicate Sanctioned(m: Bytes, approved: iset<Statement>) {
    || !IsPAE(m)
    || exists t, p :: m == PAE(t, p) && (t == PAYLOAD_TYPE_TRUST ==> exists b :: b in approved && Encode(b) == p)
  }

  /** Messages with the signatures presented for them. */
  type Presented = iset<(Bytes, Bytes)>

  /** Among what is ever presented, whatever verifies under an honest key is something that key may
      sign. Nothing is said of signatures that exist but that nobody presents. */
  ghost predicate HonestSigning(c: Primitives, honest: iset<Bytes>, approved: iset<Statement>, seen: Presented) {
    forall p, m, s :: p in honest && (m, s) in seen && c.verify(p, m, s) ==> Sanctioned(m, approved)
  }

  /** The statement's signatures are among those presented. */
  ghost predicate Presents(st: Statement, seen: Presented) {
    forall s | s in st.signatures :: (TrustMessage(st), s.sig) in seen
  }

  /** The envelope's signatures are among those presented. */
  ghost predicate EnvelopePresents(d: Envelope, seen: Presented) {
    forall s | s in d.signatures :: (PAE(d.payloadType, d.payload), s.sig) in seen
  }

  ghost function DishonestRoots(honest: iset<Bytes>, keys: seq<KeyEntry>): set<Bytes> {
    var roots := RootsOf(keys);
    set id | id in roots && roots[id].pub !in honest
  }

  /** Every approved body is valid and keeps fewer dishonest roots than its threshold. */
  ghost predicate ThresholdsHold(c: Primitives, honest: iset<Bytes>, approved: iset<Statement>) {
    forall b :: b in approved ==>
      ValidStatement(c, b) && |DishonestRoots(honest, b.keys)| < b.rootThreshold
  }

  ghost predicate PinsHonest(honest: iset<Bytes>, pins: seq<Bytes>) {
    forall p | p in pins :: p in honest
  }

  /** st is an approved body, up to key order and signatures. */
  ghost predicate CarriesApprovedBody(approved: iset<Statement>, st: Statement) {
    exists b :: b in approved && Canon(b) == Canon(st)
  }

  // ---- one link -----------------------------------------------------------------------

  /** A trust message verified under an honest key has an approved body. */
  lemma HonestSignatureApproves(
    c: Primitives, honest: iset<Bytes>, approved: iset<Statement>, seen: Presented, pub: Bytes, sig: Bytes,
    st: Statement)
    requires HonestSigning(c, honest, approved, seen) && ThresholdsHold(c, honest, approved)
    requires ValidStatement(c, st) && pub in honest && c.verify(pub, TrustMessage(st), sig)
    requires (TrustMessage(st), sig) in seen
    ensures CarriesApprovedBody(approved, st)
  {
    hide PAE, Encode, Canon, ValidStatement, DishonestRoots;
    assert IsPAE(TrustMessage(st));
    var t, p :| TrustMessage(st) == PAE(t, p)
                && (t == PAYLOAD_TYPE_TRUST ==> exists b :: b in approved && Encode(b) == p);
    PAEInjective(PAYLOAD_TYPE_TRUST, Encode(st), t, p);
    var b :| b in approved && Encode(b) == p;
    EncodeInjective(c, b, st);
  }

  lemma SubsetSize<T>(a: set<T>, b: set<T>)
    requires a <= b
    ensures |a| <= |b|
  {
    assert b == a + (b - a);
  }

  /** A quorum of the roots of an approved body contains an honest root: the pigeonhole. */
  lemma QuorumHasHonestRoot(
    c: Primitives, honest: iset<Bytes>, approved: iset<Statement>, seen: Presented, local: Statement, st: Statement,
    others: map<Bytes, KeyEntry>)
    requires HonestSigning(c, honest, approved, seen) && ThresholdsHold(c, honest, approved)
    requires ValidStatement(c, local) && ValidStatement(c, st) && CarriesApprovedBody(approved, local)
    requires Presents(st, seen)
    requires QuorumFailure(c, st, RootsOf(local.keys), local.rootThreshold, others).None?
    ensures CarriesApprovedBody(approved, st)
  {
    var b :| b in approved && Canon(b) == Canon(local);
    assert b.rootThreshold == Canon(b).rootThreshold == Canon(local).rootThreshold == local.rootThreshold;
    assert multiset(b.keys) == multiset(Canon(b).keys) == multiset(local.keys);
    KeysOfRolePermuted(b.keys, local.keys, {ROLE_ROOT});
    var roots := RootsOf(local.keys);
    var ids := SignerIds(c, TrustMessage(st), st.signatures, roots, st.issuedAt);
    var bad := DishonestRoots(honest, local.keys);
    assert bad == DishonestRoots(honest, b.keys);
    if ids <= bad {
      SubsetSize(ids, bad);
    } else {
      var id :| id in ids && id !in bad;
      var s :| s in st.signatures && Counts(c, TrustMessage(st), s, roots, st.issuedAt) && s.keyId == id;
      HonestSignatureApproves(c, honest, approved, seen, roots[id].pub, s.sig, st);
    }
  }

  ghost predicate Anchored(approved: iset<Statement>, state: Option<Statement>, pins: seq<Bytes>) {
    if state.Some? then CarriesApprovedBody(approved, state.value) else pins != []
  }

  lemma PinSignatureApproves(
    c: Primitives, honest: iset<Bytes>, approved: iset<Statement>, seen: Presented, st: Statement, pins: seq<Bytes>)
    requires HonestSigning(c, honest, approved, seen) && ThresholdsHold(c, honest, approved) && PinsHonest(honest, pins)
    requires ValidStatement(c, st) && PinSigned(c, TrustMessage(st), st.signatures, pins) && Presents(st, seen)
    ensures CarriesApprovedBody(approved, st)
  {
    var byId, msg := PinIndex(c, pins), TrustMessage(st);
    var i :| 0 <= i < |st.signatures| && st.signatures[i].keyId in byId
             && c.verify(byId[st.signatures[i].keyId], msg, st.signatures[i].sig);
    PinIndexSound(c, pins);
    HonestSignatureApproves(c, honest, approved, seen, byId[st.signatures[i].keyId], st.signatures[i].sig, st);
  }

  lemma LinkStaysApproved(
    c: Primitives, honest: iset<Bytes>, approved: iset<Statement>, seen: Presented,
    local: Option<Statement>, st: Statement, pins: seq<Bytes>, now: Clock)
    requires HonestSigning(c, honest, approved, seen) && ThresholdsHold(c, honest, approved) && PinsHonest(honest, pins)
    requires Anchored(approved, local, pins) && Applied(c, local, st, pins, now).Ok? && Presents(st, seen)
    ensures CarriesApprovedBody(approved, st)
  {
    hide ValidStatement, SignerIds, PinSigned;
    if PinSigned(c, TrustMessage(st), st.signatures, pins) {
      PinSignatureApproves(c, honest, approved, seen, st, pins);
    } else {
      assert local.Some? && ChainFailure(c, local.value, st).None?;
      QuorumHasHonestRoot(c, honest, approved, seen, local.value, st, NonRootsOf(local.value.keys));
    }
  }

  lemma {:induction false} ChainStaysApproved(
    c: Primitives, honest: iset<Bytes>, approved: iset<Statement>, seen: Presented,
    local: Option<Statement>, sts: seq<Statement>, pins: seq<Bytes>, now: Clock)
    requires HonestSigning(c, honest, approved, seen) && ThresholdsHold(c, honest, approved) && PinsHonest(honest, pins)
    requires Anchored(approved, local, pins) && forall st | st in sts :: Presents(st, seen)
    ensures Anchored(approved, ChainRun(c, local, sts, pins, now).state, pins)
    decreases |sts|
  {
    hide Applied;
    if sts != [] {
      var acc := Applied(c, local, sts[0], pins, now);
      if acc.Ok? {
        LinkStaysApproved(c, honest, approved, seen, local, sts[0], pins, now);
        ChainStaysApproved(c, honest, approved, seen, Some(acc.value.statement), sts[1..], pins, now);
      }
    }
  }

  // ---- whole runs ---------------------------------------------------------------------

  /** One use of the chain rules: a list of statements or of envelopes, at some clock reading. */
  datatype Delivery =
    | Plain(statements: seq<Statement>, now: Clock)
    | Wrapped(entries: seq<Envelope>, now: Clock)

  ghost function Deliver(c: Primitives, state: Option<Statement>, d: Delivery, pins: seq<Bytes>): Option<Statement> {
    match d
    case Plain(sts, now) => ChainRun(c, state, sts, pins, now).state
    case Wrapped(entries, now) => EnvelopeRun(c, state, entries, pins, now, 0).state
  }

  ghost function Run(c: Primitives, state: Option<Statement>, ds: seq<Delivery>, pins: seq<Bytes>): Option<Statement>
    decreases |ds|
  {
    if ds == [] then state else Deliver(c, Run(c, state, ds[..|ds| - 1], pins), ds[|ds| - 1], pins)
  }

  /** All signatures of a delivery are among those presented. */
  ghost predicate DeliveryPresents(d: Delivery, seen: Presented) {
    match d
    case Plain(sts, _) => forall st | st in sts :: Presents(st, seen)
    case Wrapped(entries, _) => forall e | e in entries :: EnvelopePresents(e, seen)
  }

  /** A parsed statement presents what its envelope presents: it re-encodes to the payload. */
  lemma ParsedPresents(c: Primitives, d: Envelope, st: Statement, seen: Presented)
    requires EnvelopePresents(d, seen) && ParsedEnvelope(c, d) == Ok(st)
    ensures Presents(st, seen)
  {
    var parsed := Parsed(c, d.payload).value;
    ParsesExactly(c, d.payload, parsed);
    assert Encode(st) == Encode(parsed);
  }

  lemma {:induction false} StatementsPresent(c: Primitives, entries: seq<Envelope>, seen: Presented)
    requires forall e | e in entries :: EnvelopePresents(e, seen)
    ensures forall st | st in StatementsIn(c, entries) :: Presents(st, seen)
    decreases |entries|
  {
    hide EnvelopePresents, Presents, ParsedEnvelope;
    if entries != [] {
      StatementsPresent(c, entries[1..], seen);
      var parsed := ParsedEnvelope(c, entries[0]);
      if parsed.Ok? {
        ParsedPresents(c, entries[0], parsed.value, seen);
      }
    }
  }

  lemma DeliveryStaysApproved(
    c: Primitives, honest: iset<Bytes>, approved: iset<Statement>, seen: Presented,
    state: Option<Statement>, d: Delivery, pins: seq<Bytes>)
    requires HonestSigning(c, honest, approved, seen) && ThresholdsHold(c, honest, approved) && PinsHonest(honest, pins)
    requires Anchored(approved, state, pins) && DeliveryPresents(d, seen)
    ensures Anchored(approved, Deliver(c, state, d, pins), pins)
  {
    hide HonestSigning, ThresholdsHold, PinsHonest, Anchored, Presents, EnvelopePresents, ChainRun, EnvelopeRun;
    match d {
      case Plain(sts, now) =>
        ChainStaysApproved(c, honest, approved, seen, state, sts, pins, now);
      case Wrapped(entries, now) =>
        EnvelopesRefineChain(c, state, entries, pins, now, 0);
        StatementsPresent(c, entries, seen);
        ChainStaysApproved(c, honest, approved, seen, state, StatementsIn(c, entries), pins, now);
    }
  }

  /** Trust lineage: whatever is delivered, in whatever order and at whatever clock readings,
      with whatever signatures of dishonest keys, an agent that starts from an approved state (or
      from none, with pins) never holds anything but an approved body, as long as none of the
      signatures delivered is a forgery of an honest key's. */
  lemma {:induction false} TrustLineage(
    c: Primitives, honest: iset<Bytes>, approved: iset<Statement>, seen: Presented,
    start: Option<Statement>, ds: seq<Delivery>, pins: seq<Bytes>)
    requires HonestSigning(c, honest, approved, seen) && ThresholdsHold(c, honest, approved) && PinsHonest(honest, pins)
    requires Anchored(approved, start, pins) && forall d | d in ds :: DeliveryPresents(d, seen)
    ensures Anchored(approved, Run(c, start, ds, pins), pins)
    decreases |ds|
  {
    hide HonestSigning, ThresholdsHold, PinsHonest, Anchored, DeliveryPresents, Deliver;
    if ds != [] {
      TrustLineage(c, honest, approved, seen, start, ds[..|ds| - 1], pins);
      DeliveryStaysApproved(c, honest, approved, seen, Run(c, start, ds[..|ds| - 1], pins), ds[|ds| - 1], pins);
    }
  }

  lemma {:induction false} ChainRaisesEpoch(
    c: Primitives, local: Option<Statement>, sts: seq<Statement>, pins: seq<Bytes>, now: Clock)
    ensures var run := ChainRun(c, local, sts, pins, now);
            EpochOf(run.state) >= EpochOf(local) + run.applied && (run.applied == 0 ==> run.state == local)
    decreases |sts|
  {
    hide Applied;
    if sts != [] {
      var acc := Applied(c, local, sts[0], pins, now);
      if acc.Ok? {
        ChainRaisesEpoch(c, Some(acc.value.statement), sts[1..], pins, now);
      }
    }
  }

  /** No rollback: along every run the epoch only grows, and an unchanged epoch means an
      unchanged statement. */
  lemma {:induction false} EpochNeverFalls(
    c: Primitives, start: Option<Statement>, ds: seq<Delivery>, pins: seq<Bytes>)
    ensures EpochOf(Run(c, start, ds, pins)) >= EpochOf(start)
    ensures EpochOf(Run(c, start, ds, pins)) == EpochOf(start) ==> Run(c, start, ds, pins) == start
    decreases |ds|
  {
    hide Applied;
    if ds != [] {
      var d := ds[|ds| - 1];
      var before := Run(c, start, ds[..|ds| - 1], pins);
      EpochNeverFalls(c, start, ds[..|ds| - 1], pins);
      match d {
        case Plain(sts, now) =>
          ChainRaisesEpoch(c, before, sts, pins, now);
        case Wrapped(entries, now) =>
          EnvelopesRefineChain(c, before, entries, pins, now, 0);
          ChainRaisesEpoch(c, before, StatementsIn(c, entries), pins, now);
      }
    }
  }

  // ---- floors -------------------------------------------------------------------------

  datatype Floors = Floors(minVerifyMode: U32, minAgentBuild: U64) {
    function Raise(st: Statement): Floors {
      Floors(if st.minVerifyMode > minVerifyMode then st.minVerifyMode else minVerifyMode,
             if st.minAgentBuild > minAgentBuild then st.minAgentBuild else minAgentBuild)
    }

    predicate AtLeast(f: Floors) {
      minVerifyMode >= f.minVerifyMode && minAgentBuild >= f.minAgentBuild
    }

    predicate Covers(st: Statement) {
      minVerifyMode >= st.minVerifyMode && minAgentBuild >= st.minAgentBuild
    }
  }

  function RaiseAll(f: Floors, sts: seq<Statement>): Floors
    decreases |sts|
  {
    if sts == [] then f else RaiseAll(f.Raise(sts[0]), sts[1..])
  }

  /** The floors after any list of statements are the least ones at or above the old floors
      and everything the statements demanded. */
  lemma {:induction false} FloorsAreLeastBound(f: Floors, sts: seq<Statement>, g: Floors)
    ensures RaiseAll(f, sts).AtLeast(f) && forall st | st in sts :: RaiseAll(f, sts).Covers(st)
    ensures g.AtLeast(f) && (forall st | st in sts :: g.Covers(st)) ==> g.AtLeast(RaiseAll(f, sts))
    decreases |sts|
  {
    if sts != [] {
      FloorsAreLeastBound(f.Raise(sts[0]), sts[1..], g);
      assert sts == [sts[0]] + sts[1..];
      assert RaiseAll(f, sts).AtLeast(f.Raise(sts[0]));
      if g.AtLeast(f) && forall st | st in sts :: g.Covers(st) {
        assert g.Covers(sts[0]);
      }
    }
  }
}
