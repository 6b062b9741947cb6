/** Chains of DSSE-wrapped trust statements: entries of an unsupported type are skipped, and
    what remains behaves as the plain chain. */
module TrustEnvelopes {
  import opened ByteStrings
  import opened Crypto
  import opened Dsse
  import opened Statements
  import opened Trust
  import opened Results

  datatype Skip = Skip(index: nat, payloadType: Bytes, reason: Reason)

  datatype EnvelopeOutcome = EnvelopeOutcome(
    state: Option<Statement>, applied: nat, skipped: seq<Skip>, error: Option<Reason>)

  function UnsupportedReason(payloadType: Bytes): Reason {
    if HasPrefix(payloadType, TRUST_TYPE_PREFIX) then UnsupportedVersion else BadPayloadType
  }

  /** ParseStatementDSSE. */
  ghost function ParsedEnvelope(c: Primitives, d: Envelope): Result<Statement, Reason> {
    if d.payloadType != PAYLOAD_TYPE_TRUST then Err(UnsupportedReason(d.payloadType))
    else if !WellShaped(d) then Err(MalformedStatement)
    else
      match Parsed(c, d.payload)
      case Err(r) => Err(r)
      case Ok(st) => Ok(st.(signatures := d.signatures))
  }

  /** ApplyStatementDSSE. */
  ghost function AppliedEnvelope(
    c: Primitives, local: Option<Statement>, d: Envelope, pins: seq<Bytes>, now: Clock): (r: Result<Acceptance, Reason>)
  {
    match ParsedEnvelope(c, d)
    case Err(r) => Err(r)
    case Ok(st) => Applied(c, local, st, pins, now)
  }

  method ApplyStatementEnvelope(c: Primitives, local: Option<Statement>, d: Envelope, pins: seq<Bytes>, now: Clock)
    returns (r: Result<Acceptance, Reason>)
    ensures r == AppliedEnvelope(c, local, d, pins, now)
  {
    if d.payloadType != PAYLOAD_TYPE_TRUST {
      return Err(UnsupportedReason(d.payloadType));
    }
    if !WellShaped(d) {
      return Err(MalformedStatement);
    }
    var parsed := ParseStatement(c, d.payload);
    if parsed.Err? {
      return Err(parsed.error);
    }
    r := ApplyStatement(c, local, parsed.value.(signatures := d.signatures), pins, now);
  }

  /** The run over entries, the first of which has the given index. */
  ghost function EnvelopeRun(
    c: Primitives, local: Option<Statement>, entries: seq<Envelope>, pins: seq<Bytes>, now: Clock, index: nat)
    : EnvelopeOutcome
    decreases |entries|
  {
    if entries == [] then EnvelopeOutcome(local, 0, [], None)
    else if entries[0].payloadType != PAYLOAD_TYPE_TRUST then
      var rest := EnvelopeRun(c, local, entries[1..], pins, now, index + 1);
      var skip := Skip(index, entries[0].payloadType, UnsupportedReason(entries[0].payloadType));
      rest.(skipped := [skip] + rest.skipped)
    else
      match AppliedEnvelope(c, local, entries[0], pins, now)
      case Err(r) => EnvelopeOutcome(local, 0, [], Some(r))
      case Ok(acc) =>
        var rest := EnvelopeRun(c, Some(acc.statement), entries[1..], pins, now, index + 1);
        rest.(applied := rest.applied + 1)
  }

  /** The outcome of a run whose first part already applied and skipped something. */
  function Resume(applied: nat, skipped: seq<Skip>, rest: EnvelopeOutcome): EnvelopeOutcome {
    rest.(applied := applied + rest.applied, skipped := skipped + rest.skipped)
  }

  lemma ResumeTwice(applied: nat, skipped: seq<Skip>, more: nat, skips: seq<Skip>, rest: EnvelopeOutcome)
    ensures Resume(applied, skipped, Resume(more, skips, rest)) == Resume(applied + more, skipped + skips, rest)
  {
  }

  /** One entry: skipped, failed on, or applied. */
  lemma EnvelopeStep(
    c: Primitives, local: Option<Statement>, entries: seq<Envelope>, pins: seq<Bytes>, now: Clock, index: nat)
    requires entries != []
    ensures var d, tail := entries[0], entries[1..];
            var acc := AppliedEnvelope(c, local, d, pins, now);
            EnvelopeRun(c, local, entries, pins, now, index)
            == if d.payloadType != PAYLOAD_TYPE_TRUST
               then Resume(0, [Skip(index, d.payloadType, UnsupportedReason(d.payloadType))],
                           EnvelopeRun(c, local, tail, pins, now, index + 1))
               else if acc.Err? then EnvelopeOutcome(local, 0, [], Some(acc.error))
               else Resume(1, [], EnvelopeRun(c, Some(acc.value.statement), tail, pins, now, index + 1))
  {
    hide AppliedEnvelope;
    var acc := AppliedEnvelope(c, local, entries[0], pins, now);
    if entries[0].payloadType == PAYLOAD_TYPE_TRUST && acc.Ok? {
      var rest := EnvelopeRun(c, Some(acc.value.statement), entries[1..], pins, now, index + 1);
      assert [] + rest.skipped == rest.skipped;
    }
  }

  lemma EnvelopeEnd(c: Primitives, local: Option<Statement>, pins: seq<Bytes>, now: Clock, index: nat)
    ensures EnvelopeRun(c, local, [], pins, now, index) == EnvelopeOutcome(local, 0, [], None)
  {
  }

  method ApplyChainEnvelopes(
    c: Primitives, local: Option<Statement>, entries: seq<Envelope>, pins: seq<Bytes>, now: Clock)
    returns (out: EnvelopeOutcome)
    ensures out == EnvelopeRun(c, local, entries, pins, now, 0)
  {
    hide EnvelopeRun, AppliedEnvelope;
    var state, applied, skipped: seq<Skip> := local, 0, [];
    ghost var whole := EnvelopeRun(c, local, entries, pins, now, 0);
    assert entries[0..] == entries;
    assert [] + whole.skipped == whole.skipped;
    for i := 0 to |entries|
      invariant whole == Resume(applied, skipped, EnvelopeRun(c, state, entries[i..], pins, now, i))
    {
      var d := entries[i];
      assert entries[i..][0] == d && entries[i..][1..] == entries[i + 1..];
      EnvelopeStep(c, state, entries[i..], pins, now, i);
      if d.payloadType != PAYLOAD_TYPE_TRUST {
        var skip := Skip(i, d.payloadType, UnsupportedReason(d.payloadType));
        ResumeTwice(applied, skipped, 0, [skip], EnvelopeRun(c, state, entries[i + 1..], pins, now, i + 1));
        skipped := skipped + [skip];
        continue;
      }
      var acc := ApplyStatementEnvelope(c, state, d, pins, now);
      if acc.Err? {
        return EnvelopeOutcome(state, applied, skipped, Some(acc.error));
      }
      state := Some(acc.value.statement);
      ResumeTwice(applied, skipped, 1, [], EnvelopeRun(c, state, entries[i + 1..], pins, now, i + 1));
      applied := applied + 1;
    }
    EnvelopeEnd(c, state, pins, now, |entries|);
    return EnvelopeOutcome(state, applied, skipped, None);
  }

  // ---- refinement ---------------------------------------------------------------------

  /** The statements of the trust-typed entries, up to the first one that does not parse. */
  ghost function StatementsIn(c: Primitives, entries: seq<Envelope>): seq<Statement>
    decreases |entries|
  {
    if entries == [] then []
    else if entries[0].payloadType != PAYLOAD_TYPE_TRUST then StatementsIn(c, entries[1..])
    else
      match ParsedEnvelope(c, entries[0])
      case Err(_) => []
      case Ok(st) => [st] + StatementsIn(c, entries[1..])
  }

  /** Why the first trust-typed entry that does not parse fails, if there is one. */
  ghost function FirstParseError(c: Primitives, entries: seq<Envelope>): Option<Reason>
    decreases |entries|
  {
    if entries == [] then None
    else if entries[0].payloadType != PAYLOAD_TYPE_TRUST then FirstParseError(c, entries[1..])
    else
      match ParsedEnvelope(c, entries[0])
      case Err(r) => Some(r)
      case Ok(_) => FirstParseError(c, entries[1..])
  }

  /** The envelope chain refines the plain chain on the parsed entries: same state, same
      number of links, and the same error unless the plain chain runs into the parse error. */
  lemma {:induction false} EnvelopesRefineChain(
    c: Primitives, local: Option<Statement>, entries: seq<Envelope>, pins: seq<Bytes>, now: Clock, index: nat)
    ensures var run := EnvelopeRun(c, local, entries, pins, now, index);
            var plain := ChainRun(c, local, StatementsIn(c, entries), pins, now);
            && run.state == plain.state && run.applied == plain.applied
            && run.error == if plain.error.Some? then plain.error else FirstParseError(c, entries)
    decreases |entries|
  {
    hide Applied, Parsed;
    if entries != [] {
      if entries[0].payloadType != PAYLOAD_TYPE_TRUST {
        EnvelopesRefineChain(c, local, entries[1..], pins, now, index + 1);
      } else {
        var parsed := ParsedEnvelope(c, entries[0]);
        if parsed.Ok? {
          var sts := StatementsIn(c, entries);
          assert sts[0] == parsed.value && sts[1..] == StatementsIn(c, entries[1..]);
          var acc := Applied(c, local, parsed.value, pins, now);
          if acc.Ok? {
            EnvelopesRefineChain(c, Some(acc.value.statement), entries[1..], pins, now, index + 1);
          }
        }
      }
    }
  }

  lemma {:induction false} SkippableEntry(c: Primitives, before: seq<Envelope>, d: Envelope, after: seq<Envelope>)
    requires d.payloadType != PAYLOAD_TYPE_TRUST
    ensures StatementsIn(c, before + [d] + after) == StatementsIn(c, before + after)
    ensures FirstParseError(c, before + [d] + after) == FirstParseError(c, before + after)
    decreases |before|
  {
    var x, y := before + [d] + after, before + after;
    if before == [] {
      assert x == [d] + after && x[1..] == after && y == after;
    } else {
      assert x[1..] == before[1..] + [d] + after && y[1..] == before[1..] + after;
      SkippableEntry(c, before[1..], d, after);
    }
  }

  /** An entry of an unsupported type, wherever it stands, changes neither the state reached
      nor the number of links applied nor the error. */
  lemma UnsupportedEntriesAreInert(
    c: Primitives, local: Option<Statement>, before: seq<Envelope>, d: Envelope, after: seq<Envelope>,
    pins: seq<Bytes>, now: Clock)
    requires d.payloadType != PAYLOAD_TYPE_TRUST
    ensures var x := EnvelopeRun(c, local, before + [d] + after, pins, now, 0);
            var y := EnvelopeRun(c, local, before + after, pins, now, 0);
            x.state == y.state && x.applied == y.applied && x.error == y.error
  {
    SkippableEntry(c, before, d, after);
    EnvelopesRefineChain(c, local, before + [d] + after, pins, now, 0);
    EnvelopesRefineChain(c, local, before + after, pins, now, 0);
  }

  /** The skip records of a list of entries. */
  function SkipsIn(entries: seq<Envelope>, index: nat): seq<Skip>
    decreases |entries|
  {
    if entries == [] then []
    else
      var rest := SkipsIn(entries[1..], index + 1);
      var t := entries[0].payloadType;
      if t == PAYLOAD_TYPE_TRUST then rest else [Skip(index, t, UnsupportedReason(t))] + rest
  }

  /** One record for each entry of an unsupported type, in strictly increasing index order. */
  lemma {:induction false} SkipsDescribed(entries: seq<Envelope>, index: nat)
    ensures forall i, j | 0 <= i < j < |SkipsIn(entries, index)| ::
              SkipsIn(entries, index)[i].index < SkipsIn(entries, index)[j].index
    ensures forall s :: s in SkipsIn(entries, index) <==>
              index <= s.index < index + |entries| && s.payloadType == entries[s.index - index].payloadType
              && s.payloadType != PAYLOAD_TYPE_TRUST && s.reason == UnsupportedReason(s.payloadType)
    decreases |entries|
  {
    if entries != [] {
      SkipsDescribed(entries[1..], index + 1);
      var all, rest := SkipsIn(entries, index), SkipsIn(entries[1..], index + 1);
      assert forall s | s in rest :: s.index > index;
      assert forall i | 0 <= i < |rest| :: rest[i] in rest;
    }
  }

  /** Applied and skipped entries together are exactly the entries before the stopping point,
      the skip records are those of that prefix, and the entry at the stopping point, if the
      run stopped early, is of the trust type and is the one that failed. */
  ghost predicate Accounted(
    c: Primitives, run: EnvelopeOutcome, entries: seq<Envelope>, pins: seq<Bytes>, now: Clock, index: nat)
  {
    var stop := run.applied + |run.skipped|;
    && stop <= |entries|
    && run.skipped == SkipsIn(entries[..stop], index)
    && (run.error.None? <==> stop == |entries|)
    && (run.error.Some? ==>
          entries[stop].payloadType == PAYLOAD_TYPE_TRUST
          && AppliedEnvelope(c, run.state, entries[stop], pins, now) == Err(run.error.value))
  }

  lemma AccountedStep(
    c: Primitives, rest: EnvelopeOutcome, entries: seq<Envelope>, pins: seq<Bytes>, now: Clock, index: nat)
    requires entries != [] && Accounted(c, rest, entries[1..], pins, now, index + 1)
    ensures var t := entries[0].payloadType;
            Accounted(c, if t == PAYLOAD_TYPE_TRUST then Resume(1, [], rest)
                         else Resume(0, [Skip(index, t, UnsupportedReason(t))], rest), entries, pins, now, index)
  {
    hide AppliedEnvelope;
    var stop := rest.applied + |rest.skipped| + 1;
    assert entries[..stop][0] == entries[0] && entries[..stop][1..] == entries[1..][..stop - 1];
    assert [] + rest.skipped == rest.skipped;
  }

  lemma {:induction false} EveryEntryAccounted(
    c: Primitives, local: Option<Statement>, entries: seq<Envelope>, pins: seq<Bytes>, now: Clock, index: nat)
    ensures Accounted(c, EnvelopeRun(c, local, entries, pins, now, index), entries, pins, now, index)
    decreases |entries|
  {
    hide AppliedEnvelope;
    if entries != [] {
      EnvelopeStep(c, local, entries, pins, now, index);
      var acc := AppliedEnvelope(c, local, entries[0], pins, now);
      if entries[0].payloadType != PAYLOAD_TYPE_TRUST {
        EveryEntryAccounted(c, local, entries[1..], pins, now, index + 1);
        AccountedStep(c, EnvelopeRun(c, local, entries[1..], pins, now, index + 1), entries, pins, now, index);
      } else if acc.Ok? {
        var next := Some(acc.value.statement);
        EveryEntryAccounted(c, next, entries[1..], pins, now, index + 1);
        AccountedStep(c, EnvelopeRun(c, next, entries[1..], pins, now, index + 1), entries, pins, now, index);
      }
    }
  }
}
