/** Inputs at which the code does not do what its documentation says, and one at which the
    assumptions of the lineage theorem hold; the exact conditions are proved next to the
    operations themselves. */
module LimitCases {
  import opened ByteStrings
  import opened Crypto
  import opened Dsse
  import opened Lineage
  import opened Statements
  import opened Trust
  import opened CommandBody
  import opened Results
  import opened Verify
  import E = PolicyEngine
  import P = Params
  import T = ProcessTree

  // ---- the agent in a condemned tree --------------------------------------------------

  const PROCESSES := [T.Process(1, 0, "x", "x"), T.Process(2, 1, "agent", "agent")]

  const RULES := [E.Rule("r", E.AppBlockAlways, "x", 0, 0, [false, false, false, false, false, false, false])]

  lemma ForbiddenParent(fold: E.Folding, p: T.Process)
    requires fold("x") == "x" && p == PROCESSES[0]
    ensures T.Decide(fold, RULES, p, None).Blocked? && T.Reachable(PROCESSES, 1, 2)
  {
    assert T.Walk(PROCESSES, 1, 1, 0) && T.Edge(PROCESSES, 1, 2) by {
      assert PROCESSES[1] in PROCESSES;
    }
    assert T.Walk(PROCESSES, 1, 2, 1);
  }

  /** A tick kills the agent, process 2, as the child of the forbidden process 1. */
  method TickKillsTheAgent(fold: E.Folding, succeeds: nat -> bool) returns (kills: seq<T.Pid>)
    requires fold("x") == "x"
    ensures 2 in kills
  {
    hide T.Decide, T.Reachable, T.IsKillList, T.TickOutcome, T.CondemnedOf;
    var enforced;
    kills, enforced := T.Tick(fold, RULES, 2, None, false, succeeds, PROCESSES);
    var p := PROCESSES[0];
    assert p in PROCESSES;
    ForbiddenParent(fold, p);
    T.AgentSparedExactly(fold, RULES, 2, None, PROCESSES, kills);
  }

  // ---- the end of the int64 range -----------------------------------------------------

  /** A private key that works and whose public key the code does not refuse as weak. */
  ghost predicate Usable(c: Primitives, priv: Bytes) {
    |priv| == PRIVATE_KEY_SIZE && SigningWorks(c, priv) && !IsWeak(c, c.publicOf(priv))
  }

  function RootEntry(c: Primitives, pub: Bytes): KeyEntry {
    KeyEntry(KeyId(c, pub), pub, ROLE_ROOT, 0, 0)
  }

  /** The first statement of a fleet with one root key, before it is signed. */
  function Unsigned(c: Primitives, pub: Bytes): Statement {
    Statement(1, [RootEntry(c, pub)], 1, 1, 0, 0, [])
  }

  /** The same, signed by that key. */
  function Genesis(c: Primitives, priv: Bytes): Statement {
    var st := Unsigned(c, c.publicOf(priv));
    st.(signatures := [Signature(KeyId(c, c.publicOf(priv)), c.sign(priv, TrustMessage(st)))])
  }

  lemma GenesisRoots(c: Primitives, pub: Bytes)
    ensures RootsOf([RootEntry(c, pub)]) == map[KeyId(c, pub) := RootEntry(c, pub)]
  {
    var keys := [RootEntry(c, pub)];
    assert keys[..0] == [] && KeysOfRole([], {ROLE_ROOT}) == map[];
  }

  lemma GenesisValid(c: Primitives, priv: Bytes)
    requires Usable(c, priv)
    ensures ValidStatement(c, Genesis(c, priv))
    ensures TrustMessage(Genesis(c, priv)) == TrustMessage(Unsigned(c, c.publicOf(priv)))
  {
    GenesisRoots(c, c.publicOf(priv));
    var st := Genesis(c, priv);
    assert |st.signatures[0].sig| == SIGNATURE_LEN;
    hide KeyId, RootsOf, PAE;
  }

  lemma GenesisSigned(c: Primitives, priv: Bytes)
    requires Usable(c, priv)
    ensures var st := Genesis(c, priv); QuorumFailure(c, st, RootsOf(st.keys), 1, NonRootsOf(st.keys)).None?
  {
    GenesisValid(c, priv);
    GenesisRoots(c, c.publicOf(priv));
    var st := Genesis(c, priv);
    var roots, msg, s := RootsOf(st.keys), TrustMessage(st), st.signatures[0];
    hide RootsOf, TrustMessage, KeyId;
    assert Counts(c, msg, s, roots, 1);
    assert s.keyId in SignerIds(c, msg, st.signatures, roots, 1);
    hide SignerIds, NonRootsOf, Counts;
  }

  lemma GenesisAccepted(c: Primitives, priv: Bytes)
    requires Usable(c, priv)
    ensures Applied(c, None, Genesis(c, priv), [], Some(1)).Ok?
  {
    GenesisValid(c, priv);
    GenesisSigned(c, priv);
    hide ValidStatement, QuorumFailure, TrustMessage, RootsOf, NonRootsOf;
    assert !PinSigned(c, TrustMessage(Genesis(c, priv)), Genesis(c, priv).signatures, []);
    hide PinSigned;
  }

  /** Whatever usable key signs it, a chain of one self-signed statement verifies now and does not
      verify at the end of time. */
  lemma ChainStopsVerifying(c: Primitives, priv: Bytes)
    requires Usable(c, priv)
    ensures Trust.Verifies(c, [Genesis(c, priv)], [], Some(1))
    ensures !Trust.Verifies(c, [Genesis(c, priv)], [], Some(MAX_I64))
  {
    GenesisAccepted(c, priv);
    hide Applied;
    var chain := [Genesis(c, priv)];
    assert ChainRun(c, None, chain, [], Some(1)).error.None?;
    VerifiesMeans(c, chain, [], Some(1));
    hide Trust.Verifies, ChainRun;
    ChainStableInTime(c, chain, [], 1, MAX_I64);
  }

  const DEVICE: Bytes := [100]

  const UUID := Ascii("00000000-0000-4000-8000-000000000000")

  const NONCE := Ascii("00000000000000000000000000000000")

  /** A command issued in the last instant but one, valid to the last. */
  const LAST := Command(UUID, [], Ascii("LOCK"), [97], [], [], 1, NONCE, MAX_I64 - 1, MAX_I64, [])

  /** A verifier that trusts the public key for commands, for as long as there is time. */
  function VerifierAt(c: Primitives, device: Bytes, pub: Bytes, now: I64): Input {
    Input(device, None, [KeyEntry(KeyId(c, pub), pub, ROLE_COMMAND, 0, MAX_I64)], Some(now), 0, [], [])
  }

  lemma IdentifiersValid()
    ensures CanonicalUuid4(UUID) && IsLowerHex(NONCE, NONCE_HEX_LEN) && P.ValidParams([])
  {
  }

  lemma LastFieldsValid(c: Primitives)
    ensures FieldsFor(c, LAST, DEVICE).Ok?
  {
    IdentifiersValid();
    assert KNOWN_TYPES[6] == LAST.cmdType;
    hide P.EncodingOf, P.ValidParams, CanonicalUuid4, IsLowerHex;
  }

  lemma LastTrusted(c: Primitives, priv: Bytes, now: I64)
    requires Usable(c, priv)
    ensures Trusts(c, VerifierAt(c, DEVICE, c.publicOf(priv), now), priv, DEVICE, LAST, 0)
  {
  }

  /** Whatever usable key signs it, the command verifies within the clock skew before its issue and
      not at its issue, although it has not expired. */
  lemma SignedButNotVerified(c: Primitives, priv: Bytes)
    requires Usable(c, priv)
    ensures Signed(c, priv, DEVICE, LAST).Ok?
    ensures var d, pub := Signed(c, priv, DEVICE, LAST).value, c.publicOf(priv);
            && Verdict(c, d, [], VerifierAt(c, DEVICE, pub, MAX_I64 - CLOCK_SKEW)).Ok?
            && !Verdict(c, d, [], VerifierAt(c, DEVICE, pub, LAST.issuedAt)).Ok?
  {
    LastFieldsValid(c);
    hide FieldsFor, Verdict, Trusts;
    assert Signed(c, priv, DEVICE, LAST).Ok?;
    var d, f := Signed(c, priv, DEVICE, LAST).value, FieldsFor(c, LAST, DEVICE).value;
    hide Signed, SigningWorks;
    var pub, before, issued := c.publicOf(priv), MAX_I64 - CLOCK_SKEW, LAST.issuedAt;
    LastTrusted(c, priv, before);
    LastTrusted(c, priv, issued);
    SignThenVerify(c, priv, DEVICE, LAST, d, f, [], VerifierAt(c, DEVICE, pub, before), 0, before);
    SignThenVerify(c, priv, DEVICE, LAST, d, f, [], VerifierAt(c, DEVICE, pub, issued), 0, issued);
  }

  // ---- the assumptions of the lineage theorem -----------------------------------------

  /** They are met by a fleet whose one root key is honest and works, in a world in which anything
      else is presented as well, for any statements and under any other keys, that is not a forgery
      of that key's signature. */
  lemma LineageApplies(c: Primitives, priv: Bytes, others: Presented)
    requires Usable(c, priv) && forall m, s | (m, s) in others :: !c.verify(c.publicOf(priv), m, s)
    ensures var st := Genesis(c, priv);
            var honest, approved := iset{c.publicOf(priv)}, iset{st};
            var seen := iset{(TrustMessage(st), st.signatures[0].sig)} + others;
            && HonestSigning(c, honest, approved, seen) && ThresholdsHold(c, honest, approved)
            && Presents(st, seen) && Anchored(approved, Some(st), [])
            && c.verify(c.publicOf(priv), TrustMessage(st), st.signatures[0].sig)
  {
    GenesisValid(c, priv);
    GenesisRoots(c, c.publicOf(priv));
    var st := Genesis(c, priv);
    assert TrustMessage(st) == PAE(PAYLOAD_TYPE_TRUST, Encode(st));
    hide TrustMessage, Encode, PAE, RootsOf, KeyId, ValidStatement;
    assert DishonestRoots(iset{c.publicOf(priv)}, st.keys) == {};
    assert Sanctioned(TrustMessage(st), iset{st});
  }
}
