/** Statements in their envelopes: what is wrapped arrives as it was, signatures included, and is
    treated as if it had never been wrapped. */
module TrustRoundTrip {
  import opened ByteStrings
  import opened Sorting
  import opened Crypto
  import opened Dsse
  import opened Statements
  import opened Trust
  import opened TrustEnvelopes
  import opened Results

  // ---- key order is irrelevant --------------------------------------------------------

  /** The same statement with its keys in another order. */
  ghost predicate Reordered(x: Statement, y: Statement) {
    y == x.(keys := y.keys) && multiset(y.keys) == multiset(x.keys)
  }

  ghost predicate ReorderedState(x: Option<Statement>, y: Option<Statement>) {
    (x.None? && y.None?) || (x.Some? && y.Some? && Reordered(x.value, y.value))
  }

  lemma ReorderedAlike(c: Primitives, x: Statement, y: Statement)
    requires Reordered(x, y)
    ensures ValidStatement(c, x) == ValidStatement(c, y)
    ensures ValidStatement(c, x) ==>
              && TrustMessage(x) == TrustMessage(y)
              && RootsOf(x.keys) == RootsOf(y.keys) && NonRootsOf(x.keys) == NonRootsOf(y.keys)
  {
    ValidityIgnoresKeyOrder(c, x, y.keys);
    if ValidStatement(c, x) {
      SortPermuted(x.keys, y.keys, EntryId);
      KeysOfRolePermuted(x.keys, y.keys, {ROLE_ROOT});
      KeysOfRolePermuted(x.keys, y.keys, {ROLE_COMMAND, ROLE_APPROVER});
      SameElements(x.keys, y.keys);
      assert TrustMessage(x) == TrustMessage(y) by {
        hide PAE, KeysOfRole, ValidStatement;
      }
    }
    hide TrustMessage, KeysOfRole, ValidStatement;
  }

  /** The answer, for the statement and the local state with their keys in any order. */
  function Reworded(r: Result<Acceptance, Reason>, st: Statement): Result<Acceptance, Reason> {
    if r.Err? then r else Ok(r.value.(statement := st))
  }

  lemma QuorumReordered(c: Primitives, x: Statement, y: Statement, asked: Statement, other: Statement)
    requires ValidStatement(c, x) && ValidStatement(c, asked) && Reordered(x, y) && Reordered(asked, other)
    ensures QuorumFailure(c, x, RootsOf(asked.keys), asked.rootThreshold, NonRootsOf(asked.keys))
         == QuorumFailure(c, y, RootsOf(other.keys), other.rootThreshold, NonRootsOf(other.keys))
  {
    ReorderedAlike(c, x, y);
    ReorderedAlike(c, asked, other);
    hide ValidStatement, TrustMessage, KeysOfRole;
  }

  lemma ChainFailureReordered(c: Primitives, local: Statement, other: Statement, x: Statement, y: Statement)
    requires ValidStatement(c, x) && ValidStatement(c, local) && Reordered(x, y) && Reordered(local, other)
    ensures ChainFailure(c, local, x) == ChainFailure(c, other, y)
  {
    hide ValidStatement, QuorumFailure, RootsOf, NonRootsOf, TrustMessage, SameKeySet;
    assert x.epoch == y.epoch && x.issuedAt == y.issuedAt;
    assert local.epoch == other.epoch && local.issuedAt == other.issuedAt;
    QuorumReordered(c, x, y, local, other);
    QuorumReordered(c, x, y, x, y);
    ReorderedAlike(c, x, y);
    ReorderedAlike(c, local, other);
    hide Reordered;
  }

  /** Neither the order of the keys in a statement nor that in the local state matters. */
  lemma AppliedReordered(
    c: Primitives, local: Option<Statement>, other: Option<Statement>, x: Statement, y: Statement,
    pins: seq<Bytes>, now: Clock)
    requires Reordered(x, y) && ReorderedState(local, other)
    ensures Applied(c, other, y, pins, now) == Reworded(Applied(c, local, x, pins, now), y)
  {
    hide ValidStatement, QuorumFailure, ChainFailure, PinSigned, RootsOf, NonRootsOf, TrustMessage;
    assert x.epoch == y.epoch && x.issuedAt == y.issuedAt && x.signatures == y.signatures;
    assert x.rootThreshold == y.rootThreshold && EpochOf(local) == EpochOf(other);
    ReorderedAlike(c, x, y);
    if local.Some? {
      ReorderedAlike(c, local.value, other.value);
    }
    if ValidStatement(c, x) {
      QuorumReordered(c, x, y, x, y);
      if local.Some? && ValidStatement(c, local.value) {
        ChainFailureReordered(c, local.value, other.value, x, y);
      }
    }
    hide Reordered;
  }

  // ---- one statement in its envelope --------------------------------------------------

  function Wrapped(st: Statement): Envelope {
    Envelope(PAYLOAD_TYPE_TRUST, Encode(st), st.signatures)
  }

  /** What a statement is after its journey: keys in order, signatures kept. */
  function Arrived(st: Statement): Statement {
    st.(keys := Sort(st.keys, EntryId))
  }

  lemma WrappedParses(c: Primitives, st: Statement)
    requires ValidStatement(c, st) && st.signatures != []
    ensures ParsedEnvelope(c, Wrapped(st)) == Ok(Arrived(st)) && Reordered(st, Arrived(st))
  {
    ParseInvertsEncode(c, st);
    EncodedSize(c, st);
    hide PAE;
    assert WellShaped(Wrapped(st)) by {
      hide Encode, Parsed;
    }
    hide Encode, Parsed, ValidStatement;
  }

  /** A valid statement with a signature, wrapped in an envelope, is accepted exactly when the plain
      one is: in the same mode, with the same epoch jump and all its signatures, or refused for the
      same reason. */
  lemma WrappedIsApplied(c: Primitives, local: Option<Statement>, st: Statement, pins: seq<Bytes>, now: Clock)
    requires ValidStatement(c, st) && st.signatures != []
    ensures AppliedEnvelope(c, local, Envelope(PAYLOAD_TYPE_TRUST, Encode(st), st.signatures), pins, now)
         == match Applied(c, local, st, pins, now)
            case Err(r) => Err(r)
            case Ok(acc) => Ok(Acceptance(acc.mode, acc.epochJump, Canon(st).(signatures := st.signatures)))
  {
    WrappedParses(c, st);
    assert Reordered(st, Arrived(st));
    AppliedReordered(c, local, local, st, Arrived(st), pins, now);
    assert Arrived(st) == Canon(st).(signatures := st.signatures);
    assert ReorderedState(local, local);
    hide Applied, ParsedEnvelope, ValidStatement;
  }

  /** And nothing else is: an envelope is accepted if and only if it wraps a valid statement with its
      signatures that is accepted. */
  lemma EnvelopeAcceptedExactly(c: Primitives, local: Option<Statement>, d: Envelope, pins: seq<Bytes>, now: Clock)
    ensures AppliedEnvelope(c, local, d, pins, now).Ok? <==>
              exists st :: d == Wrapped(st) && ValidStatement(c, st) && st.signatures != []
                           && Applied(c, local, st, pins, now).Ok?
  {
    if AppliedEnvelope(c, local, d, pins, now).Ok? {
      var bare := Parsed(c, d.payload).value;
      var st := bare.(signatures := d.signatures);
      ParsesExactly(c, d.payload, bare);
      assert Encode(st) == Encode(bare);
      assert d == Wrapped(st) && ValidStatement(c, st);
    }
    forall st | d == Wrapped(st) && ValidStatement(c, st) && st.signatures != []
                && Applied(c, local, st, pins, now).Ok?
      ensures AppliedEnvelope(c, local, d, pins, now).Ok?
    {
      WrappedIsApplied(c, local, st, pins, now);
    }
  }

  /** What is refused for its form: a wrong type by name, anything else as malformed. */
  lemma FormRefused(c: Primitives, local: Option<Statement>, d: Envelope, pins: seq<Bytes>, now: Clock)
    requires forall st :: d == Wrapped(st) ==> !ValidStatement(c, st) || st.signatures == []
    ensures var r := AppliedEnvelope(c, local, d, pins, now);
            r == Err(if d.payloadType == PAYLOAD_TYPE_TRUST then MalformedStatement
                     else if TRUST_TYPE_PREFIX <= d.payloadType then UnsupportedVersion
                     else BadPayloadType)
  {
    if d.payloadType == PAYLOAD_TYPE_TRUST && WellShaped(d) && Parsed(c, d.payload).Ok? {
      var bare := Parsed(c, d.payload).value;
      var st := bare.(signatures := d.signatures);
      ParsesExactly(c, d.payload, bare);
      assert Encode(st) == Encode(bare);
      assert d == Wrapped(st) && ValidStatement(c, st);
    }
  }

  // ---- a chain in envelopes -----------------------------------------------------------

  function WrappedAll(sts: seq<Statement>): seq<Envelope> {
    seq(|sts|, i requires 0 <= i < |sts| => Wrapped(sts[i]))
  }

  lemma WrappedStep(
    c: Primitives, local: Option<Statement>, other: Option<Statement>, sts: seq<Statement>, pins: seq<Bytes>,
    now: Clock, index: nat)
    requires sts != [] && ValidStatement(c, sts[0]) && sts[0].signatures != [] && ReorderedState(local, other)
    ensures var acc := Applied(c, local, sts[0], pins, now);
            EnvelopeRun(c, other, WrappedAll(sts), pins, now, index)
            == if acc.Err? then EnvelopeOutcome(other, 0, [], Some(acc.error))
               else Resume(1, [], EnvelopeRun(c, Some(Arrived(sts[0])), WrappedAll(sts[1..]), pins, now, index + 1))
    ensures Reordered(sts[0], Arrived(sts[0]))
  {
    hide Applied, AppliedEnvelope, ValidStatement, EnvelopeRun;
    var st, entries := sts[0], WrappedAll(sts);
    assert entries[0] == Wrapped(st) && entries[1..] == WrappedAll(sts[1..]);
    EnvelopeStep(c, other, entries, pins, now, index);
    WrappedIsApplied(c, other, st, pins, now);
    AppliedReordered(c, local, other, st, st, pins, now);
  }

  /** A chain of wrapped statements runs as the plain chain: the same state up to key order, as many
      links applied, the same error, nothing skipped. */
  lemma {:induction false} WrappedChainRuns(
    c: Primitives, local: Option<Statement>, other: Option<Statement>, sts: seq<Statement>, pins: seq<Bytes>,
    now: Clock, index: nat)
    requires forall st | st in sts :: ValidStatement(c, st) && st.signatures != []
    requires ReorderedState(local, other)
    ensures var plain := ChainRun(c, local, sts, pins, now);
            var run := EnvelopeRun(c, other, WrappedAll(sts), pins, now, index);
            && ReorderedState(plain.state, run.state) && run.applied == plain.applied
            && run.error == plain.error && run.skipped == []
    decreases |sts|
  {
    hide Applied, ValidStatement, Reordered, Arrived, EnvelopeRun;
    if sts == [] {
      EnvelopeEnd(c, other, pins, now, index);
      assert WrappedAll(sts) == [];
    } else {
      hide WrappedAll;
      WrappedStep(c, local, other, sts, pins, now, index);
      if Applied(c, local, sts[0], pins, now).Ok? {
        WrappedChainRuns(c, Some(sts[0]), Some(Arrived(sts[0])), sts[1..], pins, now, index + 1);
      }
    }
  }
}
