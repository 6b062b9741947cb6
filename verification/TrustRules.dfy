/** The acceptance rules for trust statements written out: which keys must sign, over which local
    state, at what time, with no reference to the order in which anything is examined. */
module TrustRules {
  import opened ByteStrings
  import opened Sorting
  import opened Crypto
  import opened Dsse
  import opened Statements
  import opened Trust
  import opened Results

  // ---- who signs ----------------------------------------------------------------------

  /** The key is in its window when st was issued, and s is its signature of st. */
  ghost predicate Signs(c: Primitives, st: Statement, k: KeyEntry, s: Signature) {
    && s in st.signatures && s.keyId == k.keyId
    && k.notBefore <= st.issuedAt && (k.notAfter == 0 || st.issuedAt <= k.notAfter)
    && c.verify(k.pub, PAE(PAYLOAD_TYPE_TRUST, Encode(st)), s.sig)
  }

  /** The keys of the given roles that sign st. */
  ghost function SignersOf(c: Primitives, st: Statement, keys: seq<KeyEntry>, roles: set<U32>): set<Bytes> {
    set k, s | k in keys && s in st.signatures && k.role in roles && Signs(c, st, k, s) :: k.keyId
  }

  ghost function RootSigners(c: Primitives, st: Statement, keys: seq<KeyEntry>): set<Bytes> {
    SignersOf(c, st, keys, {ROLE_ROOT})
  }

  /** As many distinct roots of the given statement as its threshold asks for sign st. */
  ghost predicate EnoughRoots(c: Primitives, st: Statement, asked: Statement) {
    |RootSigners(c, st, asked.keys)| >= asked.rootThreshold
  }

  /** The roots of a statement, identifiers with public keys. */
  ghost function RootKeys(keys: seq<KeyEntry>): set<(Bytes, Bytes)> {
    set k | k in keys && k.role == ROLE_ROOT :: (k.keyId, k.pub)
  }

  /** Some pin that is not weak signs st; of pins that share an identifier the last one counts. */
  ghost predicate Pinned(c: Primitives, st: Statement, pins: seq<Bytes>) {
    exists i, s | 0 <= i < |pins| && s in st.signatures ::
      && UsablePin(c, pins, i) && s.keyId == KeyId(c, pins[i])
      && c.verify(pins[i], PAE(PAYLOAD_TYPE_TRUST, Encode(st)), s.sig)
  }

  ghost predicate UsablePin(c: Primitives, pins: seq<Bytes>, i: nat)
    requires i < |pins|
  {
    && |pins[i]| == PUBLIC_KEY_SIZE && !c.listedWeak(pins[i])
    && forall j | i < j < |pins| && |pins[j]| == PUBLIC_KEY_SIZE && !c.listedWeak(pins[j]) ::
         KeyId(c, pins[j]) != KeyId(c, pins[i])
  }

  /** The counting over the index by role finds the same signers. */
  lemma SignersCounted(c: Primitives, st: Statement, keys: seq<KeyEntry>, roles: set<U32>)
    requires DistinctKeys(keys, EntryId)
    ensures SignersOf(c, st, keys, roles)
         == SignerIds(c, TrustMessage(st), st.signatures, KeysOfRole(keys, roles), st.issuedAt)
  {
    KeysOfRoleSound(keys, roles);
    var index := KeysOfRole(keys, roles);
    hide PAE, Encode;
    forall id | id in SignersOf(c, st, keys, roles)
      ensures id in SignerIds(c, TrustMessage(st), st.signatures, index, st.issuedAt)
    {
      var k, s :| k in keys && s in st.signatures && k.role in roles && Signs(c, st, k, s) && id == k.keyId;
      SameIdSameEntry(keys, k, index[id]);
      assert Counts(c, TrustMessage(st), s, index, st.issuedAt);
    }
    forall id | id in SignerIds(c, TrustMessage(st), st.signatures, index, st.issuedAt)
      ensures id in SignersOf(c, st, keys, roles)
    {
      var s :| s in st.signatures && Counts(c, TrustMessage(st), s, index, st.issuedAt) && s.keyId == id;
      assert Signs(c, st, index[id], s);
    }
  }

  lemma SameRootKeys(xs: seq<KeyEntry>, ys: seq<KeyEntry>)
    requires DistinctKeys(xs, EntryId) && DistinctKeys(ys, EntryId)
    ensures SameKeySet(RootsOf(xs), RootsOf(ys)) <==> RootKeys(xs) == RootKeys(ys)
  {
    var a, b := RootsOf(xs), RootsOf(ys);
    RootKeysIndexed(xs);
    RootKeysIndexed(ys);
    assert |a| == |a.Keys| && |b| == |b.Keys|;
    if SameKeySet(a, b) {
      assert a.Keys <= b.Keys;
      SubsetOfSameSize(a.Keys, b.Keys);
    }
    if RootKeys(xs) == RootKeys(ys) {
      forall id ensures id in a <==> id in b {
        assert id in a ==> (id, a[id].pub) in RootKeys(ys);
        assert id in b ==> (id, b[id].pub) in RootKeys(xs);
      }
      assert a.Keys == b.Keys;
      forall id | id in a ensures a[id].pub == b[id].pub {
        assert (id, a[id].pub) in RootKeys(ys);
      }
    }
    hide RootsOf;
  }

  lemma SubsetOfSameSize(a: set<Bytes>, b: set<Bytes>)
    requires a <= b && |a| == |b|
    ensures a == b
  {
    assert b == a + (b - a);
  }

  lemma RootKeysIndexed(keys: seq<KeyEntry>)
    requires DistinctKeys(keys, EntryId)
    ensures forall id, pub :: (id, pub) in RootKeys(keys) <==> id in RootsOf(keys) && RootsOf(keys)[id].pub == pub
  {
    KeysOfRoleSound(keys, {ROLE_ROOT});
    forall id, pub | (id, pub) in RootKeys(keys) ensures id in RootsOf(keys) && RootsOf(keys)[id].pub == pub {
      var k :| k in keys && k.role == ROLE_ROOT && (k.keyId, k.pub) == (id, pub);
      SameIdSameEntry(keys, k, RootsOf(keys)[id]);
    }
  }

  lemma UsableStep(c: Primitives, front: seq<Bytes>, last: Bytes, i: nat)
    requires i < |front|
    ensures UsablePin(c, front + [last], i) <==>
              UsablePin(c, front, i) && (IsWeak(c, last) || KeyId(c, last) != KeyId(c, front[i]))
  {
    hide KeyId;
    var pins := front + [last];
    assert pins[|front|] == last && forall j | 0 <= j < |front| :: front[j] == pins[j];
  }

  /** The index of the pins holds exactly the usable ones. */
  lemma {:induction false} PinsIndexed(c: Primitives, pins: seq<Bytes>)
    ensures forall id | id in PinIndex(c, pins) ::
              exists i | 0 <= i < |pins| :: UsablePin(c, pins, i) && KeyId(c, pins[i]) == id
    ensures forall i | 0 <= i < |pins| && UsablePin(c, pins, i) ::
              KeyId(c, pins[i]) in PinIndex(c, pins) && PinIndex(c, pins)[KeyId(c, pins[i])] == pins[i]
  {
    if pins != [] {
      var n := |pins| - 1;
      var front, last := pins[..n], pins[n];
      PinsIndexed(c, front);
      assert UsablePin(c, pins, n) <==> !IsWeak(c, last);
      assert pins == front + [last];
      forall i | 0 <= i < n
        ensures UsablePin(c, pins, i) <==>
                  UsablePin(c, front, i) && (IsWeak(c, last) || KeyId(c, last) != KeyId(c, pins[i]))
      {
        UsableStep(c, front, last, i);
      }
      hide KeyId, UsablePin, IsWeak;
      forall id | id in PinIndex(c, pins)
        ensures exists i | 0 <= i < |pins| :: UsablePin(c, pins, i) && KeyId(c, pins[i]) == id
      {
        if IsWeak(c, last) || id != KeyId(c, last) {
          assert id in PinIndex(c, front);
          var i :| 0 <= i < n && UsablePin(c, front, i) && KeyId(c, front[i]) == id;
          assert KeyId(c, pins[i]) == id;
        }
      }
    }
  }

  lemma PinnedIndexed(c: Primitives, st: Statement, pins: seq<Bytes>)
    ensures Pinned(c, st, pins) <==> PinSigned(c, TrustMessage(st), st.signatures, pins)
  {
    PinsIndexed(c, pins);
    hide UsablePin, KeyId, PAE, Encode;
    if PinSigned(c, TrustMessage(st), st.signatures, pins) {
      var byId := PinIndex(c, pins);
      var j :| 0 <= j < |st.signatures| && st.signatures[j].keyId in byId
               && c.verify(byId[st.signatures[j].keyId], TrustMessage(st), st.signatures[j].sig);
      var i :| 0 <= i < |pins| && UsablePin(c, pins, i) && KeyId(c, pins[i]) == st.signatures[j].keyId;
    }
  }

  // ---- what is accepted ---------------------------------------------------------------

  /** What the local state asks of a statement that no pin signs: without one, the quorum of its own
      roots, and that there are no pins; with one, the next epoch, an issue time that does not go
      back, the quorum of the local roots and, if the roots change, of the new ones too. */
  ghost predicate Follows(c: Primitives, local: Option<Statement>, st: Statement, pins: seq<Bytes>) {
    match local
    case None => pins == [] && EnoughRoots(c, st, st)
    case Some(old_) =>
      && st.epoch == old_.epoch + 1 && st.issuedAt >= old_.issuedAt
      && EnoughRoots(c, st, old_)
      && (RootKeys(st.keys) != RootKeys(old_.keys) ==> EnoughRoots(c, st, st))
  }

  ghost predicate Sound(c: Primitives, local: Option<Statement>, st: Statement, now: Clock) {
    && ValidStatement(c, st) && (local.Some? ==> ValidStatement(c, local.value) && st.epoch > local.value.epoch)
    && (now.Some? ==> st.issuedAt <= WrapI64(now.value + 120_000_000_000))
  }

  lemma QuorumMeans(c: Primitives, st: Statement, asked: Statement, others: map<Bytes, KeyEntry>)
    requires ValidStatement(c, asked)
    ensures QuorumFailure(c, st, RootsOf(asked.keys), asked.rootThreshold, others).None? <==> EnoughRoots(c, st, asked)
  {
    SignersCounted(c, st, asked.keys, {ROLE_ROOT});
    hide SignersOf, SignerIds, KeysOfRole, TrustMessage;
  }

  lemma FollowsMeans(c: Primitives, old_: Statement, st: Statement, pins: seq<Bytes>)
    requires ValidStatement(c, old_) && ValidStatement(c, st)
    ensures ChainFailure(c, old_, st).None? <==> Follows(c, Some(old_), st, pins)
  {
    QuorumMeans(c, st, old_, NonRootsOf(old_.keys));
    QuorumMeans(c, st, st, NonRootsOf(st.keys));
    SameRootKeys(old_.keys, st.keys);
    hide ValidStatement, QuorumFailure, EnoughRoots, RootKeys, SameKeySet, KeysOfRole;
  }

  /** A statement is accepted if and only if it is valid, not from the future, of a higher epoch, and
      a pin signs it or, with a trusted clock, it follows the local state. */
  lemma AcceptedExactly(c: Primitives, local: Option<Statement>, st: Statement, pins: seq<Bytes>, now: Clock)
    ensures var r := Applied(c, local, st, pins, now);
            && (r.Ok? <==> Sound(c, local, st, now)
                           && (Pinned(c, st, pins) || (now.Some? && Follows(c, local, st, pins))))
            && (r.Ok? ==>
                  && r.value.statement == st
                  && (r.value.mode.Pin? <==> Pinned(c, st, pins))
                  && (r.value.mode.Bootstrap? ==> local.None?) && (r.value.mode.Chain? ==> local.Some?)
                  && (r.value.epochJump <==>
                        r.value.mode.Pin? && st.epoch != (if local.Some? then local.value.epoch else 0) + 1))
  {
    PinnedIndexed(c, st, pins);
    if ValidStatement(c, st) {
      if local.None? {
        QuorumMeans(c, st, st, NonRootsOf(st.keys));
      } else if ValidStatement(c, local.value) {
        FollowsMeans(c, local.value, st, pins);
      }
    }
    hide ValidStatement, Pinned, PinSigned, EnoughRoots, QuorumFailure, ChainFailure, RootKeys, RootsOf, NonRootsOf;
  }

  /** Nothing is accepted unsigned: a pin signs it, or a root of the local state does, or without one a
      root of its own. */
  lemma AcceptedIsSigned(c: Primitives, local: Option<Statement>, st: Statement, pins: seq<Bytes>, now: Clock)
    requires Applied(c, local, st, pins, now).Ok?
    ensures var roots := (if local.Some? then local.value else st).keys;
            Pinned(c, st, pins) || exists k, s | k in roots && k.role == ROLE_ROOT :: Signs(c, st, k, s)
  {
    AcceptedExactly(c, local, st, pins, now);
    hide Applied, Pinned, Signs;
    if !Pinned(c, st, pins) {
      var asked := if local.Some? then local.value else st;
      assert asked.rootThreshold >= 1;
      var id :| id in RootSigners(c, st, asked.keys);
      var k, s :| k in asked.keys && s in st.signatures && k.role == ROLE_ROOT && Signs(c, st, k, s) && id == k.keyId;
    }
  }

  // ---- why a statement is rejected ----------------------------------------------------

  /** Too few roots of the given statement sign st: none at all but some command or approver key, or
      otherwise. */
  ghost predicate FallsShort(c: Primitives, st: Statement, asked: Statement, nonRootOnly: bool) {
    && !EnoughRoots(c, st, asked)
    && (nonRootOnly <==> RootSigners(c, st, asked.keys) == {}
                         && SignersOf(c, st, asked.keys, {ROLE_COMMAND, ROLE_APPROVER}) != {})
  }

  /** What each reason says about the statement, the local state and the clock. */
  ghost predicate Because(
    c: Primitives, local: Option<Statement>, st: Statement, pins: seq<Bytes>, now: Clock, reason: Reason)
  {
    match reason
    case MalformedStatement => !ValidStatement(c, st) || (local.Some? && !ValidStatement(c, local.value))
    case NotYetValid => now.Some? && st.issuedAt > WrapI64(now.value + 120_000_000_000)
    case StaleEpoch => local.Some? && st.epoch <= local.value.epoch
    case ClockUnsynced => now.None? && !Pinned(c, st, pins)
    case PinRequired => local.None? && pins != [] && !Pinned(c, st, pins)
    case EpochSkipped => local.Some? && st.epoch > local.value.epoch + 1 && !Pinned(c, st, pins)
    case Backdated => local.Some? && st.issuedAt < local.value.issuedAt && !Pinned(c, st, pins)
    case SignerNotRoot => FallsShort(c, st, st, true) || (local.Some? && FallsShort(c, st, local.value, true))
    case ThresholdNotMet => FallsShort(c, st, st, false) || (local.Some? && FallsShort(c, st, local.value, false))
    case _ => false
  }

  lemma FallsShortMeans(c: Primitives, st: Statement, asked: Statement)
    requires ValidStatement(c, asked)
    ensures match QuorumFailure(c, st, RootsOf(asked.keys), asked.rootThreshold, NonRootsOf(asked.keys))
            case None => true
            case Some(r) => (r == SignerNotRoot && FallsShort(c, st, asked, true))
                            || (r == ThresholdNotMet && FallsShort(c, st, asked, false))
  {
    SignersCounted(c, st, asked.keys, {ROLE_ROOT});
    SignersCounted(c, st, asked.keys, {ROLE_COMMAND, ROLE_APPROVER});
    hide SignersOf, SignerIds, KeysOfRole, TrustMessage;
  }

  /** The two ways of missing the quorum that a statement asks for. */
  lemma QuorumFailsBecause(
    c: Primitives, local: Option<Statement>, st: Statement, asked: Statement, pins: seq<Bytes>, now: Clock)
    requires ValidStatement(c, asked) && (asked == st || local == Some(asked))
    ensures match QuorumFailure(c, st, RootsOf(asked.keys), asked.rootThreshold, NonRootsOf(asked.keys))
            case None => true
            case Some(r) => Because(c, local, st, pins, now, r)
  {
    hide FallsShort, QuorumFailure, ValidStatement, Pinned, RootsOf, NonRootsOf, WrapI64;
    FallsShortMeans(c, st, asked);
  }

  lemma UnsoundBecause(c: Primitives, local: Option<Statement>, st: Statement, pins: seq<Bytes>, now: Clock)
    ensures !ValidStatement(c, st) || (local.Some? && !ValidStatement(c, local.value)) ==>
              Because(c, local, st, pins, now, MalformedStatement)
    ensures now.Some? && st.issuedAt > Horizon(now.value) ==> Because(c, local, st, pins, now, NotYetValid)
    ensures ValidStatement(c, st) && st.epoch <= EpochOf(local) ==> Because(c, local, st, pins, now, StaleEpoch)
  {
    assert ValidStatement(c, st) ==> st.epoch != 0;
    hide ValidStatement;
  }

  lemma ChecksBecause(c: Primitives, local: Option<Statement>, st: Statement, pins: seq<Bytes>, now: Clock)
    requires !Pinned(c, st, pins)
    ensures now.None? ==> Because(c, local, st, pins, now, ClockUnsynced)
    ensures local.None? && pins != [] ==> Because(c, local, st, pins, now, PinRequired)
    ensures local.Some? && st.epoch > local.value.epoch + 1 ==> Because(c, local, st, pins, now, EpochSkipped)
    ensures local.Some? && st.issuedAt < local.value.issuedAt ==> Because(c, local, st, pins, now, Backdated)
  {
  }

  lemma ChainFailsBecause(c: Primitives, old_: Statement, st: Statement, pins: seq<Bytes>, now: Clock)
    requires ValidStatement(c, old_) && ValidStatement(c, st) && st.epoch > old_.epoch && !Pinned(c, st, pins)
    ensures match ChainFailure(c, old_, st)
            case None => true
            case Some(r) => Because(c, Some(old_), st, pins, now, r)
  {
    hide ValidStatement, Pinned, Because, QuorumFailure, SameKeySet, RootsOf, NonRootsOf;
    ChecksBecause(c, Some(old_), st, pins, now);
    QuorumFailsBecause(c, Some(old_), st, st, pins, now);
    QuorumFailsBecause(c, Some(old_), st, old_, pins, now);
  }

  /** Every reason for a rejection is true of what was rejected. */
  lemma RejectedBecause(c: Primitives, local: Option<Statement>, st: Statement, pins: seq<Bytes>, now: Clock)
    requires Applied(c, local, st, pins, now).Err?
    ensures Because(c, local, st, pins, now, Applied(c, local, st, pins, now).error)
  {
    assert ValidStatement(c, st) ==> st.epoch != 0;
    hide ValidStatement, Because, Pinned, PinSigned, ChainFailure, QuorumFailure, RootsOf, NonRootsOf;
    UnsoundBecause(c, local, st, pins, now);
    if !Sound(c, local, st, now) {
      return;
    }
    PinnedIndexed(c, st, pins);
    ChecksBecause(c, local, st, pins, now);
    if local.None? {
      QuorumFailsBecause(c, local, st, st, pins, now);
    } else {
      ChainFailsBecause(c, local.value, st, pins, now);
    }
  }
}
