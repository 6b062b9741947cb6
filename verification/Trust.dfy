/** Accepting trust statements: pins, threshold quorums, chains of statements and of envelopes. */
module Trust {
  import opened ByteStrings
  import opened Crypto
  import opened Dsse
  import opened Statements
  import opened Results

  const CLOCK_SKEW := 120_000_000_000 // two minutes in nanoseconds

  /** Trusted time in nanoseconds; None while the clock has never been synchronised. */
  type Clock = Option<I64>

  datatype Mode = Pin | Chain | Bootstrap

  datatype Acceptance = Acceptance(mode: Mode, epochJump: bool, statement: Statement)

  function TrustMessage(st: Statement): Bytes {
    PAE(PAYLOAD_TYPE_TRUST, Encode(st))
  }

  /** The latest issue time accepted at now; Go's int64 addition wraps around. */
  function Horizon(now: I64): I64 {
    WrapI64(now + CLOCK_SKEW)
  }

  lemma HorizonCases(now: I64)
    ensures now + CLOCK_SKEW <= MAX_I64 ==> Horizon(now) == now + CLOCK_SKEW
    ensures now + CLOCK_SKEW > MAX_I64 ==> Horizon(now) < 0
  {
  }

  // ---- signatures ---------------------------------------------------------------------

  /** The usable pins by key id; weak pins are never trusted. */
  function PinIndex(c: Primitives, pins: seq<Bytes>): map<Bytes, Bytes> {
    if pins == [] then map[]
    else
      var last := pins[|pins| - 1];
      var rest := PinIndex(c, pins[..|pins| - 1]);
      if IsWeak(c, last) then rest else rest[KeyId(c, last) := last]
  }

  lemma {:induction false} PinIndexSound(c: Primitives, pins: seq<Bytes>)
    ensures forall id | id in PinIndex(c, pins) :: PinIndex(c, pins)[id] in pins
  {
    if pins != [] {
      PinIndexSound(c, pins[..|pins| - 1]);
    }
  }

  ghost predicate PinSigned(c: Primitives, msg: Bytes, sigs: seq<Signature>, pins: seq<Bytes>) {
    var byId := PinIndex(c, pins);
    exists i | 0 <= i < |sigs| :: sigs[i].keyId in byId && c.verify(byId[sigs[i].keyId], msg, sigs[i].sig)
  }

  method CheckPinSigned(c: Primitives, msg: Bytes, sigs: seq<Signature>, pins: seq<Bytes>) returns (ok: bool)
    ensures ok == PinSigned(c, msg, sigs, pins)
  {
    var byId: map<Bytes, Bytes> := map[];
    for i := 0 to |pins|
      invariant byId == PinIndex(c, pins[..i])
    {
      assert pins[..i + 1][..i] == pins[..i];
      if !IsWeak(c, pins[i]) {
        byId := byId[KeyId(c, pins[i]) := pins[i]];
      }
    }
    assert pins[..|pins|] == pins;
    for i := 0 to |sigs|
      invariant forall j | 0 <= j < i :: !(sigs[j].keyId in byId && c.verify(byId[sigs[j].keyId], msg, sigs[j].sig))
    {
      if sigs[i].keyId in byId && c.verify(byId[sigs[i].keyId], msg, sigs[i].sig) {
        return true;
      }
    }
    return false;
  }

  /** Signature s counts: its key is among signers, in its window at the given time, and s verifies. */
  predicate Counts(c: Primitives, msg: Bytes, s: Signature, signers: map<Bytes, KeyEntry>, at: I64) {
    && s.keyId in signers
    && signers[s.keyId].InWindow(at)
    && c.verify(signers[s.keyId].pub, msg, s.sig)
  }

  /** The distinct keys whose signature counts. */
  ghost function SignerIds(
    c: Primitives, msg: Bytes, sigs: seq<Signature>, signers: map<Bytes, KeyEntry>, at: I64): set<Bytes>
  {
    set s | s in sigs && Counts(c, msg, s, signers, at) :: s.keyId
  }

  lemma SignerIdsSnoc(
    c: Primitives, msg: Bytes, sigs: seq<Signature>, s: Signature, signers: map<Bytes, KeyEntry>, at: I64)
    ensures SignerIds(c, msg, sigs + [s], signers, at)
         == SignerIds(c, msg, sigs, signers, at) + if Counts(c, msg, s, signers, at) then {s.keyId} else {}
  {
  }

  method ValidSigners(c: Primitives, msg: Bytes, sigs: seq<Signature>, signers: map<Bytes, KeyEntry>, at: I64)
    returns (n: nat)
    ensures n == |SignerIds(c, msg, sigs, signers, at)|
  {
    var counted: set<Bytes> := {};
    for i := 0 to |sigs|
      invariant counted == SignerIds(c, msg, sigs[..i], signers, at)
    {
      var s := sigs[i];
      assert sigs[..i + 1] == sigs[..i] + [s];
      SignerIdsSnoc(c, msg, sigs[..i], s, signers, at);
      if s.keyId !in signers || s.keyId in counted || !signers[s.keyId].InWindow(at) {
        continue;
      }
      if c.verify(signers[s.keyId].pub, msg, s.sig) {
        counted := counted + {s.keyId};
      }
    }
    assert sigs[..|sigs|] == sigs;
    n := |counted|;
  }

  /** Why at least need of roots have not signed st, or None when they have. */
  ghost function QuorumFailure(
    c: Primitives, st: Statement, roots: map<Bytes, KeyEntry>, need: U32, others: map<Bytes, KeyEntry>): Option<Reason>
  {
    var got := |SignerIds(c, TrustMessage(st), st.signatures, roots, st.issuedAt)|;
    if got >= need then None
    else if got == 0 && |SignerIds(c, TrustMessage(st), st.signatures, others, st.issuedAt)| > 0 then
      Some(SignerNotRoot)
    else Some(ThresholdNotMet)
  }

  method Quorum(c: Primitives, msg: Bytes, st: Statement, roots: map<Bytes, KeyEntry>, need: U32,
                others: map<Bytes, KeyEntry>) returns (failure: Option<Reason>)
    requires msg == TrustMessage(st)
    ensures failure == QuorumFailure(c, st, roots, need, others)
  {
    var got := ValidSigners(c, msg, st.signatures, roots, st.issuedAt);
    if got >= need {
      return None;
    }
    if got == 0 {
      var other := ValidSigners(c, msg, st.signatures, others, st.issuedAt);
      if other > 0 {
        return Some(SignerNotRoot);
      }
    }
    return Some(ThresholdNotMet);
  }

  predicate SameKeySet(a: map<Bytes, KeyEntry>, b: map<Bytes, KeyEntry>) {
    |a| == |b| && forall id | id in a :: id in b && a[id].pub == b[id].pub
  }

  // ---- one statement ------------------------------------------------------------------

  ghost function ChainFailure(c: Primitives, local: Statement, st: Statement): Option<Reason> {
    if st.epoch != local.epoch + 1 then Some(EpochSkipped)
    else if st.issuedAt < local.issuedAt then Some(Backdated)
    else
      var old_ := QuorumFailure(c, st, RootsOf(local.keys), local.rootThreshold, NonRootsOf(local.keys));
      if old_.Some? || SameKeySet(RootsOf(local.keys), RootsOf(st.keys)) then old_
      else QuorumFailure(c, st, RootsOf(st.keys), st.rootThreshold, NonRootsOf(st.keys))
  }

  function EpochOf(local: Option<Statement>): U64 {
    if local.Some? then local.value.epoch else 0
  }

  /** ApplyStatement's decision for statement st over the local state. */
  ghost function Applied(c: Primitives, local: Option<Statement>, st: Statement, pins: seq<Bytes>, now: Clock)
    : (r: Result<Acceptance, Reason>)
    ensures r.Ok? ==> r.value.statement == st && ValidStatement(c, st) && st.epoch > EpochOf(local)
    ensures r.Ok? && now.Some? ==> st.issuedAt <= Horizon(now.value)
  {
    if !ValidStatement(c, st) then Err(MalformedStatement)
    else if local.Some? && !ValidStatement(c, local.value) then Err(MalformedStatement)
    else if now.Some? && st.issuedAt > Horizon(now.value) then Err(NotYetValid)
    else if st.epoch <= EpochOf(local) then Err(StaleEpoch)
    else if PinSigned(c, TrustMessage(st), st.signatures, pins) then
      Ok(Acceptance(Pin, st.epoch != EpochOf(local) + 1, st))
    else if now.None? then Err(ClockUnsynced)
    else if local.None? then
      if pins != [] then Err(PinRequired)
      else
        match QuorumFailure(c, st, RootsOf(st.keys), st.rootThreshold, NonRootsOf(st.keys))
        case Some(r) => Err(r)
        case None => Ok(Acceptance(Bootstrap, false, st))
    else
      match ChainFailure(c, local.value, st)
      case Some(r) => Err(r)
      case None => Ok(Acceptance(Chain, false, st))
  }

  method ApplyStatement(c: Primitives, local: Option<Statement>, st: Statement, pins: seq<Bytes>, now: Clock)
    returns (r: Result<Acceptance, Reason>)
    ensures r == Applied(c, local, st, pins, now)
  {
    var valid := Validate(c, st);
    if !valid {
      return Err(MalformedStatement);
    }
    var localEpoch := 0;
    if local.Some? {
      var localValid := Validate(c, local.value);
      if !localValid {
        return Err(MalformedStatement);
      }
      localEpoch := local.value.epoch;
    }
    if now.Some? && st.issuedAt > Horizon(now.value) {
      return Err(NotYetValid);
    }
    if st.epoch <= localEpoch {
      return Err(StaleEpoch);
    }
    var body := EncodeStatement(st);
    var msg := PAE(PAYLOAD_TYPE_TRUST, body);
    var pinned := CheckPinSigned(c, msg, st.signatures, pins);
    if pinned {
      return Ok(Acceptance(Pin, st.epoch != localEpoch + 1, st));
    }
    if now.None? {
      return Err(ClockUnsynced);
    }
    if local.None? {
      if |pins| > 0 {
        return Err(PinRequired);
      }
      var own := Quorum(c, msg, st, RootsOf(st.keys), st.rootThreshold, NonRootsOf(st.keys));
      if own.Some? {
        return Err(own.value);
      }
      return Ok(Acceptance(Bootstrap, false, st));
    }
    if st.epoch != local.value.epoch + 1 {
      return Err(EpochSkipped);
    }
    if st.issuedAt < local.value.issuedAt {
      return Err(Backdated);
    }
    var oldRoots := RootsOf(local.value.keys);
    var failure := Quorum(c, msg, st, oldRoots, local.value.rootThreshold, NonRootsOf(local.value.keys));
    if failure.Some? {
      return Err(failure.value);
    }
    if !SameKeySet(oldRoots, RootsOf(st.keys)) {
      failure := Quorum(c, msg, st, RootsOf(st.keys), st.rootThreshold, NonRootsOf(st.keys));
      if failure.Some? {
        return Err(failure.value);
      }
    }
    return Ok(Acceptance(Chain, false, st));
  }

  // ---- chains of statements -----------------------------------------------------------

  /** The last accepted statement, the number of links applied, and why the run stopped early. */
  datatype ChainOutcome = ChainOutcome(state: Option<Statement>, applied: nat, error: Option<Reason>)

  ghost function ChainRun(c: Primitives, local: Option<Statement>, sts: seq<Statement>, pins: seq<Bytes>, now: Clock)
    : ChainOutcome
    decreases |sts|
  {
    if sts == [] then ChainOutcome(local, 0, None)
    else
      match Applied(c, local, sts[0], pins, now)
      case Err(r) => ChainOutcome(local, 0, Some(r))
      case Ok(acc) =>
        var rest := ChainRun(c, Some(acc.statement), sts[1..], pins, now);
        rest.(applied := rest.applied + 1)
  }

  method ApplyChain(c: Primitives, local: Option<Statement>, sts: seq<Statement>, pins: seq<Bytes>, now: Clock)
    returns (out: ChainOutcome)
    ensures out == ChainRun(c, local, sts, pins, now)
  {
    var cur := local;
    assert sts[0..] == sts;
    for i := 0 to |sts|
      invariant var rest := ChainRun(c, cur, sts[i..], pins, now);
                ChainRun(c, local, sts, pins, now) == rest.(applied := rest.applied + i)
    {
      assert sts[i..][1..] == sts[i + 1..];
      var acc := ApplyStatement(c, cur, sts[i], pins, now);
      if acc.Err? {
        return ChainOutcome(cur, i, Some(acc.error));
      }
      cur := Some(acc.value.statement);
    }
    return ChainOutcome(cur, |sts|, None);
  }

  /** A chain is processed in two halves exactly as in one piece. */
  lemma {:induction false} ChainSplit(
    c: Primitives, local: Option<Statement>, xs: seq<Statement>, ys: seq<Statement>, pins: seq<Bytes>, now: Clock)
    ensures var first := ChainRun(c, local, xs, pins, now);
            var second := ChainRun(c, first.state, ys, pins, now);
            ChainRun(c, local, xs + ys, pins, now)
            == if first.error.Some? then first else second.(applied := |xs| + second.applied)
    ensures ChainRun(c, local, xs, pins, now).error.None? ==> ChainRun(c, local, xs, pins, now).applied == |xs|
    decreases |xs|
  {
    hide Applied;
    if xs == [] {
      assert xs + ys == ys;
    } else {
      assert (xs + ys)[1..] == xs[1..] + ys;
      var acc := Applied(c, local, xs[0], pins, now);
      if acc.Ok? {
        ChainSplit(c, Some(acc.value.statement), xs[1..], ys, pins, now);
      }
    }
  }

  /** A complete run ends in its last link. */
  lemma {:induction false} ChainEndsInLast(
    c: Primitives, local: Option<Statement>, sts: seq<Statement>, pins: seq<Bytes>, now: Clock)
    requires sts != [] && ChainRun(c, local, sts, pins, now).error.None?
    ensures ChainRun(c, local, sts, pins, now).state == Some(sts[|sts| - 1])
    decreases |sts|
  {
    hide Applied;
    var acc := Applied(c, local, sts[0], pins, now);
    if |sts| > 1 {
      ChainEndsInLast(c, Some(acc.value.statement), sts[1..], pins, now);
    }
  }

  /** The state before the i-th link, if all links before it are accepted. */
  function Before(local: Option<Statement>, sts: seq<Statement>, i: nat): Option<Statement>
    requires i <= |sts|
  {
    if i == 0 then local else Some(sts[i - 1])
  }

  /** The outcome of a run, without the run: the links applied are accepted one after the other, the
      state is the last of them, and the run stops early only at a link that is refused. */
  ghost predicate IsRun(
    c: Primitives, local: Option<Statement>, sts: seq<Statement>, pins: seq<Bytes>, now: Clock, out: ChainOutcome)
  {
    && out.applied <= |sts|
    && (forall i | 0 <= i < out.applied :: Applied(c, Before(local, sts, i), sts[i], pins, now).Ok?)
    && out.state == Before(local, sts, out.applied)
    && (out.error.None? <==> out.applied == |sts|)
    && (out.error.Some? ==> Applied(c, out.state, sts[out.applied], pins, now) == Err(out.error.value))
  }

  lemma NoRunIsShorter(
    c: Primitives, local: Option<Statement>, sts: seq<Statement>, pins: seq<Bytes>, now: Clock,
    one: ChainOutcome, other: ChainOutcome)
    requires IsRun(c, local, sts, pins, now, one) && IsRun(c, local, sts, pins, now, other)
    ensures one.applied >= other.applied
  {
    hide Applied, ValidStatement;
    assert one.error.None? ==> one.applied == |sts|;
    hide Before;
  }

  lemma SameLengthSameRun(
    c: Primitives, local: Option<Statement>, sts: seq<Statement>, pins: seq<Bytes>, now: Clock,
    one: ChainOutcome, other: ChainOutcome)
    requires IsRun(c, local, sts, pins, now, one) && IsRun(c, local, sts, pins, now, other)
    requires one.applied == other.applied
    ensures one == other
  {
    hide Applied, ValidStatement, Before;
  }

  /** One more link in front. */
  lemma RunExtends(
    c: Primitives, local: Option<Statement>, sts: seq<Statement>, pins: seq<Bytes>, now: Clock, rest: ChainOutcome)
    requires sts != [] && Applied(c, local, sts[0], pins, now).Ok?
    requires IsRun(c, Some(sts[0]), sts[1..], pins, now, rest)
    ensures IsRun(c, local, sts, pins, now, rest.(applied := rest.applied + 1))
  {
    hide Applied, ValidStatement;
    var tail := sts[1..];
    forall i | 0 < i <= |sts| ensures Before(local, sts, i) == Before(Some(sts[0]), tail, i - 1) {
    }
    forall i | 0 <= i <= rest.applied ensures Applied(c, Before(local, sts, i), sts[i], pins, now).Ok? {
      if i > 0 {
        assert Applied(c, Before(Some(sts[0]), tail, i - 1), tail[i - 1], pins, now).Ok?;
      }
    }
  }

  lemma {:induction false} ChainRunIsRun(
    c: Primitives, local: Option<Statement>, sts: seq<Statement>, pins: seq<Bytes>, now: Clock)
    ensures IsRun(c, local, sts, pins, now, ChainRun(c, local, sts, pins, now))
    decreases |sts|
  {
    hide Applied, ValidStatement;
    if sts != [] && Applied(c, local, sts[0], pins, now).Ok? {
      ChainRunIsRun(c, Some(sts[0]), sts[1..], pins, now);
      RunExtends(c, local, sts, pins, now, ChainRun(c, Some(sts[0]), sts[1..], pins, now));
      hide IsRun;
    }
  }

  /** That describes the run, and nothing else. */
  lemma ChainRunExactly(
    c: Primitives, local: Option<Statement>, sts: seq<Statement>, pins: seq<Bytes>, now: Clock, out: ChainOutcome)
    ensures ChainRun(c, local, sts, pins, now) == out <==> IsRun(c, local, sts, pins, now, out)
  {
    var run := ChainRun(c, local, sts, pins, now);
    ChainRunIsRun(c, local, sts, pins, now);
    hide IsRun, ChainRun;
    if IsRun(c, local, sts, pins, now, out) {
      NoRunIsShorter(c, local, sts, pins, now, run, out);
      NoRunIsShorter(c, local, sts, pins, now, out, run);
      SameLengthSameRun(c, local, sts, pins, now, run, out);
    }
  }

  // ---- the server's chain file --------------------------------------------------------

  ghost predicate EpochsFromOne(sts: seq<Statement>) {
    forall i | 0 <= i < |sts| :: sts[i].epoch == i + 1
  }

  ghost function ChainVerdict(c: Primitives, sts: seq<Statement>, pins: seq<Bytes>, now: Clock)
    : Result<Statement, Reason>
  {
    if sts == [] || !EpochsFromOne(sts) then Err(ChainIncomplete)
    else
      var out := ChainRun(c, None, sts, pins, now);
      if out.error.Some? then Err(out.error.value)
      else if out.state.Some? then Ok(out.state.value)
      else Err(ChainIncomplete)
  }

  method VerifyChain(c: Primitives, sts: seq<Statement>, pins: seq<Bytes>, now: Clock)
    returns (r: Result<Statement, Reason>)
    ensures r == ChainVerdict(c, sts, pins, now)
    ensures r.Ok? ==> sts != [] && r.value == sts[|sts| - 1]
  {
    if |sts| == 0 {
      return Err(ChainIncomplete);
    }
    for i := 0 to |sts|
      invariant forall j | 0 <= j < i :: sts[j].epoch == j + 1
    {
      if sts[i].epoch != i + 1 {
        return Err(ChainIncomplete);
      }
    }
    var out := ApplyChain(c, None, sts, pins, now);
    if out.error.Some? {
      return Err(out.error.value);
    }
    ChainEndsInLast(c, None, sts, pins, now);
    return Ok(out.state.value);
  }

  ghost predicate Verifies(c: Primitives, sts: seq<Statement>, pins: seq<Bytes>, now: Clock) {
    sts != [] && ChainVerdict(c, sts, pins, now) == Ok(sts[|sts| - 1])
  }

  lemma VerifiesMeans(c: Primitives, sts: seq<Statement>, pins: seq<Bytes>, now: Clock)
    ensures Verifies(c, sts, pins, now) <==> ChainVerdict(c, sts, pins, now).Ok?
    ensures Verifies(c, sts, pins, now) <==>
              sts != [] && EpochsFromOne(sts) && ChainRun(c, None, sts, pins, now).error.None?
  {
    hide Applied;
    if sts != [] && ChainRun(c, None, sts, pins, now).error.None? {
      ChainEndsInLast(c, None, sts, pins, now);
    }
  }

  /** Every non-empty prefix of a verified chain verifies, and an agent that holds link k
      reaches the chain's final statement by applying the remaining links. */
  lemma ChainPrefixAndResume(c: Primitives, sts: seq<Statement>, pins: seq<Bytes>, now: Clock, k: nat)
    requires Verifies(c, sts, pins, now) && 1 <= k <= |sts|
    ensures Verifies(c, sts[..k], pins, now)
    ensures ChainRun(c, Some(sts[k - 1]), sts[k..], pins, now)
         == ChainOutcome(Some(sts[|sts| - 1]), |sts| - k, None)
  {
    hide Applied;
    VerifiesMeans(c, sts, pins, now);
    assert sts == sts[..k] + sts[k..];
    ChainSplit(c, None, sts[..k], sts[k..], pins, now);
    ChainEndsInLast(c, None, sts[..k], pins, now);
    VerifiesMeans(c, sts[..k], pins, now);
    ChainSplit(c, Some(sts[k - 1]), sts[k..], [], pins, now);
    ChainEndsInLast(c, None, sts, pins, now);
  }

  /** A statement accepted at one time is accepted at a later one unless the later horizon
      has wrapped past the end of the int64 range. */
  lemma AcceptedLater(c: Primitives, local: Option<Statement>, st: Statement, pins: seq<Bytes>, now: I64, later: I64)
    requires now <= later && later + CLOCK_SKEW <= MAX_I64
    ensures Applied(c, local, st, pins, Some(now)).Ok? ==>
              Applied(c, local, st, pins, Some(later)) == Applied(c, local, st, pins, Some(now))
  {
    hide ValidStatement, QuorumFailure, PinSigned;
    HorizonCases(now);
    HorizonCases(later);
  }

  lemma {:induction false} ChainRunLater(
    c: Primitives, local: Option<Statement>, sts: seq<Statement>, pins: seq<Bytes>, now: I64, later: I64)
    requires now <= later && later + CLOCK_SKEW <= MAX_I64
    requires ChainRun(c, local, sts, pins, Some(now)).error.None?
    ensures ChainRun(c, local, sts, pins, Some(later)) == ChainRun(c, local, sts, pins, Some(now))
    decreases |sts|
  {
    hide Applied;
    if sts != [] {
      var acc := Applied(c, local, sts[0], pins, Some(now));
      AcceptedLater(c, local, sts[0], pins, now, later);
      ChainRunLater(c, Some(acc.value.statement), sts[1..], pins, now, later);
    }
  }

  /** A chain that verifies keeps verifying at every later time, up to the last instant
      (in the year 2262) at which adding the clock skew still fits in an int64; after it,
      no chain verifies at all. */
  lemma ChainStableInTime(c: Primitives, sts: seq<Statement>, pins: seq<Bytes>, now: I64, later: I64)
    requires now <= later && Verifies(c, sts, pins, Some(now))
    ensures Verifies(c, sts, pins, Some(later)) <==> later + CLOCK_SKEW <= MAX_I64
  {
    VerifiesMeans(c, sts, pins, Some(now));
    VerifiesMeans(c, sts, pins, Some(later));
    if later + CLOCK_SKEW <= MAX_I64 {
      ChainRunLater(c, None, sts, pins, now, later);
    } else {
      HorizonCases(later);
    }
  }

  lemma LinkWithoutPins(c: Primitives, local: Statement, st: Statement, now: Clock)
    requires Applied(c, Some(local), st, [], now).Ok?
    ensures st.epoch == local.epoch + 1 && st.issuedAt >= local.issuedAt
  {
  }

  /** Without pins every accepted link raises the epoch by exactly one and never lowers the
      issue time. */
  lemma {:induction false} ChainWithoutPins(
    c: Primitives, local: Option<Statement>, sts: seq<Statement>, now: Clock, i: nat)
    requires i < ChainRun(c, local, sts, [], now).applied
    ensures ChainRun(c, local, sts, [], now).applied <= |sts|
    ensures i > 0 ==> sts[i].epoch == sts[i - 1].epoch + 1 && sts[i].issuedAt >= sts[i - 1].issuedAt
    ensures i == 0 && local.Some? ==> sts[0].epoch == local.value.epoch + 1 && sts[0].issuedAt >= local.value.issuedAt
    decreases |sts|
  {
    hide Applied;
    AppliedCount(c, local, sts, [], now);
    var acc := Applied(c, local, sts[0], [], now);
    if i > 0 {
      ChainWithoutPins(c, Some(acc.value.statement), sts[1..], now, i - 1);
    }
    if local.Some? {
      LinkWithoutPins(c, local.value, sts[0], now);
    }
  }

  lemma {:induction false} AppliedCount(
    c: Primitives, local: Option<Statement>, sts: seq<Statement>, pins: seq<Bytes>, now: Clock)
    ensures ChainRun(c, local, sts, pins, now).applied <= |sts|
    decreases |sts|
  {
    hide Applied;
    if sts != [] && Applied(c, local, sts[0], pins, now).Ok? {
      AppliedCount(c, Some(sts[0]), sts[1..], pins, now);
    }
  }

  // ---- is a key fit to sign commands now? ---------------------------------------------

  /** A command or approver key must have an expiry and cover the given time. */
  predicate InSignerWindow(k: KeyEntry, at: I64) {
    k.notAfter != 0 && k.notBefore <= at <= k.notAfter
  }

  /** ChainKeyValid's answer; the first entry with the id decides. */
  function KeyVerdict(keys: seq<KeyEntry>, keyId: Bytes, now: Clock): Result<KeyEntry, Reason> {
    if keys == [] then Err(KeyNotInChain)
    else if keys[0].keyId != keyId then KeyVerdict(keys[1..], keyId, now)
    else if keys[0].role != ROLE_COMMAND then Err(KeyNotInChain)
    else if now.None? then Err(ClockUnsynced)
    else if now.value < keys[0].notBefore then Err(NotYetValid)
    else if !InSignerWindow(keys[0], now.value) then Err(KeyExpired)
    else Ok(keys[0])
  }

  method ChainKeyValid(current: Statement, keyId: Bytes, now: Clock) returns (r: Result<KeyEntry, Reason>)
    ensures r == KeyVerdict(current.keys, keyId, now)
  {
    var keys := current.keys;
    assert keys[0..] == keys;
    for i := 0 to |keys|
      invariant KeyVerdict(keys, keyId, now) == KeyVerdict(keys[i..], keyId, now)
    {
      assert keys[i..][1..] == keys[i + 1..];
      var k := keys[i];
      if k.keyId != keyId {
        continue;
      }
      if k.role != ROLE_COMMAND {
        return Err(KeyNotInChain);
      }
      if now.None? {
        return Err(ClockUnsynced);
      }
      if now.value < k.notBefore {
        return Err(NotYetValid);
      }
      if k.notAfter == 0 || now.value > k.notAfter {
        return Err(KeyExpired);
      }
      return Ok(k);
    }
    return Err(KeyNotInChain);
  }

  lemma {:induction false} KeyVerdictFinds(keys: seq<KeyEntry>, keyId: Bytes, now: I64) returns (i: nat)
    requires KeyVerdict(keys, keyId, Some(now)).Ok?
    ensures i < |keys| && keys[i].keyId == keyId && keys[i].role == ROLE_COMMAND && InSignerWindow(keys[i], now)
  {
    if keys[0].keyId == keyId {
      return 0;
    }
    var j := KeyVerdictFinds(keys[1..], keyId, now);
    return j + 1;
  }

  /** The i-th entry is the first with the id. */
  predicate FirstWith(keys: seq<KeyEntry>, keyId: Bytes, i: nat) {
    i < |keys| && keys[i].keyId == keyId && forall j | 0 <= j < i :: keys[j].keyId != keyId
  }

  /** The first entry with the id decides: it is fit exactly if it is a command key with an expiry and
      a trusted clock reads a time in its window; no other entry matters. */
  lemma {:induction false} KeyVerdictExactly(keys: seq<KeyEntry>, keyId: Bytes, now: Clock, i: nat)
    requires FirstWith(keys, keyId, i)
    ensures var k, r := keys[i], KeyVerdict(keys, keyId, now);
            && (r.Ok? <==> k.role == ROLE_COMMAND && k.notAfter != 0
                           && now.Some? && k.notBefore <= now.value <= k.notAfter)
            && match r
               case Ok(found) => found == k
               case Err(KeyNotInChain) => k.role != ROLE_COMMAND
               case Err(ClockUnsynced) => now.None?
               case Err(NotYetValid) => now.Some? && now.value < k.notBefore
               case Err(KeyExpired) => k.notAfter == 0 || (now.Some? && now.value > k.notAfter)
               case Err(_) => false
  {
    if i > 0 {
      assert keys[0].keyId != keyId;
      assert forall j | 0 <= j < i - 1 :: keys[1..][j] == keys[j + 1];
      KeyVerdictExactly(keys[1..], keyId, now, i - 1);
    }
  }

  lemma {:induction false} KeyUnlisted(keys: seq<KeyEntry>, keyId: Bytes, now: Clock)
    requires forall k | k in keys :: k.keyId != keyId
    ensures KeyVerdict(keys, keyId, now) == Err(KeyNotInChain)
  {
    if keys != [] {
      assert keys[0] in keys;
      KeyUnlisted(keys[1..], keyId, now);
    }
  }
}
