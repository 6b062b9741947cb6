# Verified model of the endpoint security suite

A Dafny model of the protocols that decide what an endpoint agent may be told to do, and of the
small state machines around them. Everything is stated for all inputs or for all runs.

**The signed command fabric** (`Bytes`, `Reader`, `Sorting`, `Crypto`, `Dsse`, `Statement`, `Trust`,
`TrustRules`, `TrustEnvelopes`, `TrustRoundTrip`, `Lineage`, `Params`, `Utf8`, `CommandBody`, `Verify`,
`VerifyRules`, and `LimitCases` with the inputs at which the code breaks its promises). Byte strings
are sequences of bytes, integers have the source's widths, and int64 additions wrap. Signatures,
hashing and the weak-key list are uninterpreted functions in one record that every operation
receives; that signatures made with the key in question verify, and that no other trusted key shares
the signer's 128-bit identifier, are hypotheses of the lemmas that need them. Trusted time is an
optional int64. The strict parsers are specified without an algorithm, as the inverse of the encoders
(the one canonical value with this encoding, if there is one), and the imperative parsers over the
mutable reader are proved to answer exactly that. On top stand the acceptance rules of trust
statements and of multi-signature commands, each with its exact condition and the meaning of every
reason for a rejection; the equivalence of wrapped and plain chains; and a safety theorem about who
can ever move an agent's trust state, whose assumption on honest keys is about the signatures
presented to the agent only.

**The agent** (`Watchdog`, `ProcessTree`, `PolicyEngine`, `EventBuffer`, `CommandLog`). The watchdog
works on a model file system in which every copy, rename and removal can fail, a copy also half-way.
The command log and the event buffer are classes with the source's fields; around them a step
relation adds heartbeats, answers, losses and crashes, and the theorems range over all its runs.

**The server** (`Tenants`, `AdminStore`, `AdminService`, `AdminRuns`, `AdminRights`, `TenantWall`,
`LoginLimiter`). The admin service is a class over a store of maps. Each method runs the source's
guards in order and then writes; its contract equates the new store with a specification function.
Who may do what, and what an accepted operation has then done, is stated for all operations without
those functions' guards, and the theorems about tenants, policies, admins and wipes range over all
their runs and device enrolment. Decisions of the scope engine and of the command plane, new
identifiers and version labels are inputs; that random identifiers do not repeat is a hypothesis.

Where code and documentation differ, the model follows the code:

- A verified chain stays verified at every later time only until the clock skew no longer fits
  the int64 range (`Trust.ChainStableInTime`, under every usable key `LimitCases.ChainStopsVerifying`), and the
  same bound limits `Verify.SignThenVerify` (`LimitCases.SignedButNotVerified`).
- The enforcement tick skips the agent's own entry but not the agent as somebody's descendant
  (`ProcessTree.AgentSparedExactly`, `LimitCases.TickKillsTheAgent`), against the comment on the field
  that holds its pid.
- Redelivery is meant never to run a command twice, yet one whose record was saved runs again when
  the file cannot be read after a crash, as the comment on opening the log admits
  (`CommandLog.LostFileRunsTwice`; exactly when, `CommandLog.RunsAgainExactly`,
  `CommandLog.LostFileExactly` and `CommandLog.ForgottenExactly`).
- The watchdog's backoff doubles only while int64 durations allow it, up to about 146 years; then
  it sleeps a negative duration, that is, not at all (`Watchdog.BackoffDoublesExactly`).
- The default tenant's admins do affect devices whose rows predate tenancy, by policy version and
  wake-up (`TenantWall.WallExactly`, `TenantWall.ReachHappens`); nothing else crosses the wall.

## Model

| member | source | states |
|---|---|---|
| ByteStrings.ValueOfBigEndian | cmdenvelope/v2.go:196-208 | a fixed-width big-endian integer reads back as the number written, as long as it fits the width |
| ByteStrings.BigEndianOfValue | cmdenvelope/v2.go:236-252 | and every run of bytes is the encoding of its value: with the row above, a bijection |
| ByteStrings.LPCancel | cmdenvelope/v2.go:196-204 | a length-prefixed field at the head of a message can be read back in one way only, whatever follows it |
| Readers.Reader.constructor | cmdenvelope/v2.go:212-215 | a reader starts on the whole input without an error |
| Readers.Reader.Take | cmdenvelope/v2.go:217-234 | a read succeeds exactly when nothing failed before and enough bytes are left, and then splits the input; a failure consumes nothing and makes all later reads fail |
| Readers.Reader.ReadU32 | cmdenvelope/v2.go:236-242 | succeeds exactly on four bytes; the value is the only one whose encoding starts the input |
| Readers.Reader.ReadU64 | cmdenvelope/v2.go:244-250 | the same for eight bytes |
| Readers.Reader.ReadI64 | cmdenvelope/v2.go:252-252 | the same for two's complement |
| Readers.Reader.ReadByte | cmdenvelope/v2.go:254-260 | one byte, or the sticky failure |
| Readers.Reader.ReadLP | cmdenvelope/v2.go:264-274 | succeeds exactly when the input starts with a length-prefixed field of at most the given length, which is the only such reading |
| Readers.Reader.Done | cmdenvelope/v2.go:276-284 | true exactly when nothing failed and every byte was consumed |
| Sorting.SortSorted | cmdenvelope/trust.go:136-139 | entries with distinct keys come out strictly increasing |
| Sorting.SortedUnique | cmdenvelope/v2.go:495-500 | a strictly increasing arrangement of given elements is unique, so the digest does not depend on which sorting algorithm the library uses |
| Crypto.KeyId | cmdenvelope/v2.go:182-188 | an identifier is 32 lower-case hex digits for a key of the right size and empty for any other |
| Crypto.KeyIdExactly | cmdenvelope/v2.go:182-188 | two keys share an identifier if and only if their hashes agree in the first 128 bits |
| Dsse.DigitsDelimited | cmdenvelope/dsse.go:60-72 | the decimal lengths in a pre-authentication encoding are self-delimiting |
| Dsse.PAEInjective | cmdenvelope/dsse.go:60-72 | equal messages have equal payload types and payloads, for all byte strings: a message signed under one type is never a message under another |
| Dsse.CoSign | cmdenvelope/dsse.go:88-105 | the loop over a copied slice overwrites the first entry with the signer's identifier or appends within the limit, and refuses otherwise |
| Dsse.UpsertKeeps | cmdenvelope/dsse.go:88-105 | co-signing keeps every entry under another identifier, contains the new one and adds at most one entry |
| Dsse.CoSignKeepsShape | cmdenvelope/dsse.go:88-123 | co-signing leaves payload type, payload and all shape limits intact |
| Statements.ValidateKeys | cmdenvelope/trust.go:81-107 | the key loop with its seen-set accepts exactly the lists of individually valid entries with distinct ids, and counts the roots |
| Statements.Validate | cmdenvelope/trust.go:67-120 | accepts exactly the valid statements |
| Statements.ValidityIgnoresKeyOrder | cmdenvelope/trust.go:67-120 | the verdict on a statement does not depend on the order of its keys |
| Statements.KeysOfRolePermuted | cmdenvelope/trust.go:482-501 | the roots and non-roots of a statement do not depend on the order of its keys |
| Statements.EncodeStatement | cmdenvelope/trust.go:136-155 | the appending loop writes the canonical form, keys in id order |
| Statements.EncodedSize | cmdenvelope/trust.go:136-155 | a valid statement with n keys takes 56 + 92n bytes, at most 3000, so it always fits the 4096-byte payload limit |
| Statements.EncodeInjective | cmdenvelope/trust.go:136-155 | two valid statements with one encoding differ at most in key order and signatures |
| Statements.CanonValid | cmdenvelope/trust.go:129-155 | sorting the keys and dropping the signatures keeps a statement valid and its encoding unchanged |
| Statements.ParseInvertsEncode | cmdenvelope/trust.go:157-200 | parsing the encoding of a valid statement gives it back with keys sorted and signatures dropped |
| Statements.ParsesExactly | cmdenvelope/trust.go:157-200 | bytes parse to a statement if and only if it is valid, sorted, without signatures and encodes to exactly these bytes: accepted input re-encodes to itself |
| Statements.ReadHeader | cmdenvelope/trust.go:161-176 | the fixed fields are read exactly when the input starts with such a header |
| Statements.ReadKeys | cmdenvelope/trust.go:177-192 | the loop reads keys in strictly increasing id order exactly when the input starts with such a list |
| Statements.ParseStatement | cmdenvelope/trust.go:161-200 | the imperative parser answers, for every input, the one canonical statement with that encoding, or a malformed-statement error when there is none |
| Trust.CheckPinSigned | cmdenvelope/trust.go:461-480 | true exactly when some signature verifies under the last non-weak pin with its identifier |
| Trust.ValidSigners | cmdenvelope/trust.go:518-530 | counts the distinct keys in their window with a verifying signature, each once |
| Trust.Quorum | cmdenvelope/trust.go:534-543 | reports exactly when fewer than the threshold of distinct roots signed, and whether only non-roots did |
| Trust.Applied | cmdenvelope/trust.go:287-340 | an accepted statement is valid, is the one given, has a higher epoch than the local one and, with a clock, is not from beyond the skew |
| Trust.ApplyStatement | cmdenvelope/trust.go:287-340 | the acceptance decision with the source's order of checks: validity, clock, epoch, pins, bootstrap, old roots, new roots |
| TrustRules.AcceptedExactly | cmdenvelope/trust.go:259-340 | a statement is accepted if and only if it and the local state are valid, it is not from beyond the skew and of a higher epoch, and a usable pin signs it or, with a trusted clock: without local state there are no pins and its own quorum signs; with one, the epoch is the next, the issue time does not go back, at least the local threshold of distinct local roots in their windows sign, and if the sets of root ids and keys differ at least the new threshold of new roots sign too; the mode and the epoch jump say which |
| TrustRules.AcceptedIsSigned | cmdenvelope/trust.go:259-340 | nothing is accepted unsigned: a usable pin signs it, or a root of the local state, or without one a root of its own |
| TrustRules.RejectedBecause | cmdenvelope/trust.go:259-340 | each reason for a rejection is true of the statement, the local state and the clock, down to whether only non-roots signed |
| Trust.ApplyChain | cmdenvelope/trust.go:346-357 | the loop computes the run over the list: state, links applied, first error |
| Trust.ChainRunExactly | cmdenvelope/trust.go:346-357 | the outcome is the one in which the links applied are accepted one after the other, the state is the last of them, and the run stops early only at a link that is refused, with its reason; no other outcome is |
| Trust.ChainSplit | cmdenvelope/trust.go:346-357 | a chain processed in two parts gives what it gives in one piece |
| Trust.VerifyChain | cmdenvelope/trust.go:406-420 | epochs from one and the run decide; success returns the last link |
| Trust.VerifiesMeans | cmdenvelope/trust.go:406-420 | a chain verifies if and only if it is not empty, numbers its epochs from one and every link is accepted |
| Trust.ChainPrefixAndResume | cmdenvelope/trust.go:406-420 | every non-empty prefix of a verified chain verifies, and an agent holding link k reaches the same final statement on the rest |
| Trust.ChainStableInTime | cmdenvelope/trust.go:287-312 | a verified chain verifies at a later time if and only if that time plus the clock skew still fits in an int64 |
| Trust.ChainWithoutPins | cmdenvelope/trust.go:287-340 | without pins every accepted link raises the epoch by exactly one and never lowers the issue time |
| Trust.ChainKeyValid | cmdenvelope/trust.go:425-446 | the first entry with the id decides, with the source's order of reasons |
| Trust.KeyVerdictFinds | cmdenvelope/trust.go:425-446 | a key that passes is in the statement with the command role and inside its window |
| Trust.KeyVerdictExactly | cmdenvelope/trust.go:425-446 | the first entry with the id is fit if and only if it has the command role and an expiry and a trusted clock reads a time in its window, and each refusal names what is wrong with it |
| Trust.KeyUnlisted | cmdenvelope/trust.go:425-446 | an id that no entry has is refused as not in the chain |
| LimitCases.ChainStopsVerifying | cmdenvelope/trust.go:287-312 | whatever usable key signs it, a chain of one self-signed statement verifies now and does not verify at the end of the int64 range |
| TrustEnvelopes.ApplyStatementEnvelope | cmdenvelope/trust.go:560-585 | one wrapped statement: type, shape, strict parse, then the plain rule |
| TrustRoundTrip.AppliedReordered | cmdenvelope/trust.go:287-340 | the order of the keys, in the statement and in the local state, changes nothing about the decision |
| TrustRoundTrip.WrappedIsApplied | cmdenvelope/trust.go:560-585 | a valid statement with a signature, wrapped in its envelope, is accepted in the same mode and with all its signatures, or refused for the same reason, exactly as the plain one |
| TrustRoundTrip.EnvelopeAcceptedExactly | cmdenvelope/trust.go:560-585 | an envelope is accepted if and only if it wraps a valid, signed statement, with exactly its signatures, that is accepted |
| TrustRoundTrip.FormRefused | cmdenvelope/trust.go:553-585 | every other envelope is refused by type or as malformed |
| TrustRoundTrip.WrappedChainRuns | cmdenvelope/trust.go:346-401 | a chain of wrapped statements reaches the plain chain's state up to key order, with as many links applied, the same error and nothing skipped |
| TrustEnvelopes.ApplyChainEnvelopes | cmdenvelope/trust.go:381-401 | the loop with its skip list computes the run over wrapped entries |
| TrustEnvelopes.EnvelopesRefineChain | cmdenvelope/trust.go:346-401 | state and links applied are those of the plain chain on the trust-typed entries before the first that does not parse, and so is the error unless the chain gets that far |
| TrustEnvelopes.UnsupportedEntriesAreInert | cmdenvelope/trust.go:360-401 | an entry of an unsupported type, inserted anywhere, changes neither state, number of links nor error |
| TrustEnvelopes.SkipsDescribed | cmdenvelope/trust.go:360-401 | the skip records are exactly the entries of unsupported types, with strictly increasing indices |
| TrustEnvelopes.EveryEntryAccounted | cmdenvelope/trust.go:360-401 | applied plus skipped equals the stopping index, and the entry there, if any, is of the trust type and is the one that failed |
| Lineage.HonestSignatureApproves | cmdenvelope/trust.go:287-312 | a trust message presented with a signature that verifies under an honest key has an approved body, if no presented signature of an honest key is for anything else: message and body encodings are injective |
| Lineage.QuorumHasHonestRoot | cmdenvelope/trust.go:518-543 | pigeonhole: a quorum of distinct roots, with fewer dishonest ones among them than the threshold, has an honest one, so the presented statement is approved |
| Lineage.ChainStaysApproved | cmdenvelope/trust.go:346-357 | one run of the chain rules over presented statements from an approved state ends in an approved state |
| Lineage.TrustLineage | cmdenvelope/trust.go:287-401 | over every run of plain and wrapped deliveries at any clock readings, an agent that starts from an approved state, or from none with pins, never holds anything but an approved body; nothing is asked of signatures that are never delivered, so dishonest keys may sign anything |
| LimitCases.LineageApplies | cmdenvelope/trust.go:287-401 | the assumptions of that theorem hold for a fleet whose one honest root key works, beside any other presented messages and signatures that do not verify under it |
| Lineage.EpochNeverFalls | cmdenvelope/trust.go:287-401 | along every run the epoch never falls, and an unchanged epoch means an unchanged statement |
| Lineage.FloorsAreLeastBound | cmdenvelope/trust.go:250-264 | the raised floors are the least ones at or above the old floors and every demand |
| Params.ValidateParam | cmdenvelope/v2.go:448-486 | one parameter: exactly the limits on key, text and list, and its size |
| Params.ValidateParams | cmdenvelope/v2.go:434-476 | accepts exactly the lists with valid parameters, distinct keys and total size within the limits |
| Utf8.ValidExactly | cmdenvelope/v2.go:311-314 | text is valid if and only if it is the encoding of some sequence of Unicode scalar values: nothing overlong, no surrogates, nothing above U+10FFFF, nothing cut short |
| Params.EncodeParams | cmdenvelope/v2.go:495-517 | valid parameters are written in key order, invalid ones refused |
| Params.EncodingIgnoresOrder | cmdenvelope/v2.go:495-526 | the order of the parameters does not change validity, encoding or digest input |
| Params.EncodingSize | cmdenvelope/v2.go:434-526 | the encoding of valid parameters takes at most 532793 bytes, whatever they are |
| Params.ParseInvertsEncode | cmdenvelope/v2.go:528-580 | parsing an encoding gives the parameters back sorted by key |
| Params.ParsesExactly | cmdenvelope/v2.go:528-580 | bytes parse to a list if and only if it is valid, sorted and encodes to exactly these bytes |
| Params.ReadItems | cmdenvelope/v2.go:558-566 | the list items are read exactly when the input starts with that many |
| Params.ReadParam | cmdenvelope/v2.go:543-571 | one parameter is read exactly when the input starts with one, in one way |
| Params.ReadParamList | cmdenvelope/v2.go:540-572 | the loop reads strictly increasing keys exactly when the input starts with such a list |
| Params.ParseParams | cmdenvelope/v2.go:531-580 | the imperative parser answers, for every input, the one sorted list with that encoding, or an error when there is none |
| CommandBody.BodySize | cmdenvelope/v2.go:586-653 | every valid body has at most 713 bytes |
| CommandBody.EncodeFieldsInjective | cmdenvelope/v2.go:637-653 | distinct fields within the limits have distinct bodies |
| CommandBody.BodyRoundTrip | cmdenvelope/v2.go:628-688 | for valid fields, bytes parse to them if and only if they encode to these bytes |
| CommandBody.ParsedFieldsUnique | cmdenvelope/v2.go:658-688 | a body that encodes fields parses to them, or to the first limit they break |
| CommandBody.ReadIdentity | cmdenvelope/v2.go:664-667 | the four identity fields are read exactly when the input starts with them |
| CommandBody.ReadTail | cmdenvelope/v2.go:671-683 | the last fields are read exactly when they are all that is left |
| CommandBody.ParseFields | cmdenvelope/v2.go:658-688 | the imperative parser answers, for every input, the fields encoded by it, the limit they break, or a malformed-envelope error |
| Verify.BuildSignerIndex | cmdenvelope/v2.go:867-886 | the two-pass index holds exactly the non-weak command and approver keys whose derived id occurs once |
| Verify.TallySignatures | cmdenvelope/v2.go:803-827 | the loop's counters and flags after any list of signatures |
| Verify.TallyExact | cmdenvelope/v2.go:803-827 | the tally lists exactly the keys with a verifying entry, each once, and knows whether a command key is among them |
| Verify.CheckEarly | cmdenvelope/v2.go:770-801 | the checks before any signature is examined, in order |
| Verify.VerifyCommand | cmdenvelope/v2.go:770-862 | the whole verifier with its order of reasons |
| Verify.AcceptsExactly | cmdenvelope/v2.go:770-862 | a command is accepted if and only if shape, body, addressee, tenant, wire fields, parameters and times are right and the set of keys listed once, in window at issue and with a verifying entry is large enough and has a command key; the reported ids are that set, each once |
| VerifyRules.SignersAreKeys | cmdenvelope/v2.go:803-886 | the reported identifiers are those of the keys that sign: listed command or approver keys that are not weak, with an identifier of their own, in their window at issue and with a verifying entry, counted once each |
| VerifyRules.AcceptedByTheBook | cmdenvelope/v2.go:586-886 | a command is accepted if and only if its envelope is the encoding of fields within every limit, for this device, tenant and wire fields, with one to eight well-formed entries, at least one and at least minSignatures such keys sign it, one of them a command key, the parameters match their digest, and the clock is within skew and expiry |
| VerifyRules.OneSignatureIsEnoughExactly | cmdenvelope/v2.go:803-848 | what one trusted key signs, and is otherwise in order, is refused for too few signatures if and only if minSignatures is at least two or the key is an approver's |
| VerifyRules.RejectedBecause | cmdenvelope/v2.go:770-862 | each reason for a rejection is true of the envelope, its fields, its signatures or the clock |
| Verify.VerdictIgnoresOrder | cmdenvelope/v2.go:770-886 | acceptance, the returned fields and digest and the set of reported ids are invariant under permuting signatures, trusted keys and wire parameters |
| Verify.SignerIndexPermuted | cmdenvelope/v2.go:867-886 | the index does not depend on the order of the trusted keys |
| Verify.SignedShape | cmdenvelope/v2.go:692-730 | a signed envelope parses to the signed fields and holds one signature |
| Verify.SignThenVerify | cmdenvelope/v2.go:720-862 | what is signed verifies on its target device, with wire parameters in any order, at exactly the times from issue minus skew to expiry for which adding the skew fits in an int64, and returns the signed fields |
| Verify.CoSignThenVerify | cmdenvelope/v2.go:720-862 | a command signed by a command key and co-signed by another listed key, an approver's say, verifies where two signatures are asked for, at exactly the same times, with the signed fields and exactly the two ids |
| Verify.ActiveKeySigns | cmdenvelope/trust.go:422-457 | a key that passes the self-check against a statement signs commands that every agent holding that statement accepts at that moment, if no other key in it shares its key id |
| Verify.CoSigningIsMonotone | cmdenvelope/dsse.go:86-105 | co-signing by any key leaves the payload alone and never turns an accepted envelope into a rejected one, if no other trusted key shares its key id |
| LimitCases.SignedButNotVerified | cmdenvelope/v2.go:851-862 | whatever usable key signs it, a command that verifies within the clock skew before its issue and not at its issue, at the end of the int64 range |
| Watchdog.FileSwapper.constructor | agent/internal/watchdog/swap.go:20-35 | a swapper over a disk with an optional verification hook |
| Watchdog.FileSwapper.PendingStaged | agent/internal/watchdog/swap.go:42-48 | an update is pending exactly when the staged file exists; its path and the version file's content, empty when unreadable, are reported |
| Watchdog.FileSwapper.CopyFile | agent/internal/watchdog/swap.go:102-117 | a copy truncates its destination first, so a failed one can leave a prefix |
| Watchdog.FileSwapper.Swap | agent/internal/watchdog/swap.go:56-84 | the file operations in order: hook, backup, move or copy, clean-up, with every way they can fail |
| Watchdog.FileSwapper.Rollback | agent/internal/watchdog/swap.go:87-95 | the backup is copied onto the binary if there is one |
| Watchdog.Supervise | agent/internal/watchdog/supervisor.go:84-146 | the loop, turn by turn, computes the run of the step function and returns where the source does |
| Watchdog.SwapBacksUp | agent/internal/watchdog/swap.go:56-84 | a successful swap installs exactly the staged bytes, which the hook accepted, and keeps the replaced bytes as the backup |
| Watchdog.SwapSucceedsExactly | agent/internal/watchdog/swap.go:56-84 | a swap of a staged file succeeds if and only if the hook, if any, accepts it, an existing binary can be saved, and the file can be moved or copied; then the staging files are gone but for those that cannot be removed |
| Watchdog.RejectedIsCleared | agent/internal/watchdog/swap.go:56-65 | what the hook rejects is cleared away and nothing else changes |
| Watchdog.UpdateStaysExactly | agent/internal/watchdog/supervisor.go:99-144 | in every run, after a turn with a successful swap the binary is the staged file if the agent exited cleanly or ran through the trial window, and after an earlier crash what the rollback makes of the backup, so with a completed one the old binary |
| Watchdog.NoUpdateNoChange | agent/internal/watchdog/supervisor.go:99-144 | in every run, a turn without a successful swap leaves the binary as it was |
| Watchdog.TurnPauses | agent/internal/watchdog/supervisor.go:118-144 | in every run, a turn is followed by no pause after a clean run of at least base, by base after a shorter one or a rolled-back update, and by the backoff after any other crash |
| Watchdog.HaltedExactly | agent/internal/watchdog/supervisor.go:88-115 | the loop has returned if and only if it was asked to stop or cancelled |
| Watchdog.StepInstalls | agent/internal/watchdog/supervisor.go:84-146 | one turn installs nothing but the old binary, the old backup or a staged file the hook accepts |
| Watchdog.OnlyVouchedInstalled | agent/internal/watchdog/supervisor.go:84-146 | over every run with untorn copies, binary and backup are contents that were there at the start or that the hook accepted |
| Watchdog.BinaryMovesOnlyBy | agent/internal/watchdog/supervisor.go:84-146 | the installed binary changes only by a successful swap or by a rollback |
| Watchdog.RollbackUndoesSwap | agent/internal/watchdog/supervisor.go:99-140 | every rollback of every run follows a successful swap in the same turn and, when completed, restores the exact bytes of the binary that was there before it |
| Watchdog.NeverOnTrialAtTop | agent/internal/watchdog/supervisor.go:86-140 | no turn of a running loop starts on trial |
| Watchdog.HaltedStays | agent/internal/watchdog/supervisor.go:88-115 | a loop that has returned stays as it is |
| Watchdog.Configure | agent/internal/watchdog/supervisor.go:56-81 | options left at zero get one second, thirty seconds and ten seconds |
| Watchdog.BackoffDoubles | agent/internal/watchdog/supervisor.go:128-154 | as long as doubling base or max fits in an int64, the loop sleeps min(base * 2^k, max) after the k-th consecutive crash without rollback |
| Watchdog.BackoffDoublesExactly | agent/internal/watchdog/supervisor.go:148-154 | that law holds on every run if and only if doubling base or max fits in an int64 |
| Watchdog.OverflowBreaksLaw | agent/internal/watchdog/supervisor.go:148-154 | otherwise some number of plain crashes ends in a negative duration to sleep |
| Watchdog.TurnsTakeTime | agent/internal/watchdog/supervisor.go:84-154 | under the same condition n completed turns take at least n * base time when base is at most max, and n * max otherwise |
| Watchdog.TurnsPacedExactly | agent/internal/watchdog/supervisor.go:84-154 | every turn of every run takes at least the smaller of base and max if and only if that condition holds |
| ProcessTree.IndexChildren | agent/internal/enforce/monitor.go:292-299 | the children map holds each process's children in list order, without the children of pid 0 |
| ProcessTree.DepthsShortest | agent/internal/enforce/monitor.go:300-314 | breadth-first depths are shortest distances |
| ProcessTree.Descendants | agent/internal/enforce/monitor.go:289-314 | the queue loop terminates on any list, cyclic ones included, and returns exactly the pids reachable over non-zero parent links, without the start, each once, in non-decreasing distance |
| ProcessTree.AncestorsExact | agent/internal/enforce/monitor.go:254-287 | the parent walk repeats no pid, has at most its limit, follows parent links only and stops early only at pid 0, an unknown or an already met process |
| ProcessTree.ParentChain | agent/internal/enforce/monitor.go:261-287 | the display names of that walk, at most 16 |
| ProcessTree.NameTells | agent/internal/enforce/monitor.go:261-287 | a link of the chain is shown by the process's name, a nameless one by "pid-" and digits that read back as its pid |
| ProcessTree.ParentPidsExact | agent/internal/enforce/monitor.go:254-287 | the chain of a listed process starts with its parent, follows parent links, has at most 16, none twice and never the process itself, and ends early only at pid 0, an unknown or an already met process; an unlisted process has none |
| ProcessTree.CondemnedExactly | agent/internal/enforce/monitor.go:124-158 | a process is condemned if and only if it is neither the agent nor process 0 and some rule matches its path, or its name without one, and forbids it always or, with a trusted clock, in its weekly window |
| ProcessTree.Tick | agent/internal/enforce/monitor.go:116-206 | kills, per condemned process in list order, its descendants nearest first and then itself; counts the condemned whose own kill succeeds, which depends on the place of the call, so a second kill of one process may fail; in audit mode kills nothing and counts the condemned |
| ProcessTree.KillsExactly | agent/internal/enforce/monitor.go:160-190 | a process is killed if and only if it is reachable from a condemned one |
| ProcessTree.ChildrenKilledFirst | agent/internal/enforce/monitor.go:174-190 | whatever can be reached from a condemned process is killed before it |
| ProcessTree.AgentSparedExactly | agent/internal/enforce/monitor.go:125-190 | the agent's own pid is killed if and only if some condemned process is among its ancestors: skipping its own entry does not protect it |
| LimitCases.TickKillsTheAgent | agent/internal/enforce/monitor.go:116-206 | a tick over two processes and one rule kills the agent, whichever kills succeed |
| PolicyEngine.WindowIsWeekly | agent/internal/policy/engine.go:132-155 | the window test is membership in the intervals of length (end - start) mod 1440 that start on active days of the 10080-minute cycle, overnight wrap included |
| PolicyEngine.BlocksWithFirstRule | agent/internal/policy/engine.go:72-90 | the engine blocks with exactly the first matching rule that forbids the process at this moment, and allows it exactly when there is none |
| PolicyEngine.AlwaysImpliesEveryMoment | agent/internal/policy/engine.go:92-104 | what the clock-free evaluation blocks is blocked at every moment, and it blocks exactly what an always-rule matches |
| PolicyEngine.MatchesExactly | agent/internal/policy/engine.go:106-130 | a target matches if and only if it is not empty and, after folding, equals the process or has the same last component, whichever separators the paths use |
| EventBuffer.Buffer.constructor | agent/internal/collector/buffer.go:36-41 | an empty buffer with the default capacity for a request that is not positive |
| EventBuffer.Buffer.Add | agent/internal/collector/buffer.go:45-57 | the next number is assigned, the oldest events make room, drops are counted |
| EventBuffer.Buffer.Pending | agent/internal/collector/buffer.go:61-71 | a copy of the first events, the buffer unchanged |
| EventBuffer.Buffer.Ack | agent/internal/collector/buffer.go:75-86 | removes exactly the events up to the acknowledged number and reports how many |
| EventBuffer.NothingAckedUnsent | agent/cmd/agent/main.go:614-656 | over every interleaving of additions with flushes whose answers arrive or get lost, with a server that acknowledges at most what it was sent: numbers stay contiguous within capacity, every number is acknowledged, dropped or buffered, an event is removed as acknowledged once, in order and only if sent, and every event carries the payload added under its number |
| EventBuffer.OldestDropped | agent/internal/collector/buffer.go:45-58 | an addition to a full buffer drops its oldest events and only as many as it must |
| EventBuffer.AckRemovesExactly | agent/internal/collector/buffer.go:75-86 | an acknowledgement removes exactly the events up to its number |
| EventBuffer.FlushesDrain | agent/cmd/agent/main.go:614-656 | n successful flushes with nothing added move the oldest 500 n events from the buffer to the acknowledged ones, in order, and drop none |
| EventBuffer.AnswerSafeExactly | agent/cmd/agent/main.go:614-656 | an answer removes only events of the batch in flight if and only if it stays within the numbers of the batch or there is nothing buffered it could reach beyond them |
| EventBuffer.FreshIsSound | agent/internal/collector/buffer.go:36-41 | the world around a fresh buffer is sound, so the runs above may start there |
| LoginLimiter.Limiter.constructor | server/internal/adminapi/ratelimit.go:27-34 | an empty limiter that has never collected |
| LoginLimiter.Limiter.Gc | server/internal/adminapi/ratelimit.go:80-92 | at most once a window, removes exactly the records that are stale |
| LoginLimiter.Limiter.Allowed | server/internal/adminapi/ratelimit.go:38-51 | the answer and remaining lock time after collection |
| LoginLimiter.Limiter.RecordFailure | server/internal/adminapi/ratelimit.go:56-71 | the record counts within its window, locks from the limit on, and reports the failure that locks |
| LoginLimiter.Limiter.RecordSuccess | server/internal/adminapi/ratelimit.go:74-78 | the key's record is gone, others unchanged |
| LoginLimiter.RunsStayTrimmed | server/internal/adminapi/ratelimit.go:38-92 | with a clock that never goes back, a limiter with garbage collection and one without give identical answers on every call sequence |
| LoginLimiter.LocksExactly | server/internal/adminapi/ratelimit.go:38-71 | in any run of the limiter, whatever it knew and whatever other keys do, failures of a key that fall into one window lock it if and only if there are at least max of them, until a window after the last one, and the max-th reports the lock |
| LoginLimiter.SuccessForgives | server/internal/adminapi/ratelimit.go:38-78 | after a success, failures lock a key exactly as if they were its first, whatever happened before |
| LoginLimiter.NothingLingers | server/internal/adminapi/ratelimit.go:80-92 | with a clock that never goes back, every record kept was of use at the last collection, which after a question is less than a window ago |
| LoginLimiter.GuessingPaced | server/internal/adminapi/ratelimit.go:38-71 | after q windows a client that asks before every attempt has had at most (max + 1) failures a window |
| LoginLimiter.FailuresBounded | server/internal/adminapi/ratelimit.go:38-92 | from a fresh limiter, a client that asks before every attempt gets at most (max + 1)(T / window + 1) failures in within time T of its first |
| CommandLog.Log.constructor | agent/internal/cmdlog/cmdlog.go:49-65 | the saved record without entries older than 24 hours, no pending acknowledgements; an unreadable file counts as empty but stays where it is |
| CommandLog.Log.Prune | agent/internal/cmdlog/cmdlog.go:162-169 | removes exactly the entries older than 24 hours |
| CommandLog.Log.Executed | agent/internal/cmdlog/cmdlog.go:68-76 | an empty id is never known |
| CommandLog.Log.Record | agent/internal/cmdlog/cmdlog.go:80-89 | stamped, pruned and saved; the disk keeps its old content when saving fails |
| CommandLog.Log.QueueAck | agent/internal/cmdlog/cmdlog.go:92-99 | the id joins the queue |
| CommandLog.Log.TakeAcks | agent/internal/cmdlog/cmdlog.go:104-115 | a list of exactly the queued ids, each once, the queue unchanged |
| CommandLog.Log.ConfirmAcks | agent/internal/cmdlog/cmdlog.go:118-124 | exactly the confirmed ids leave the queue |
| CommandLog.HandleCommands | agent/cmd/agent/main.go:731-788 | the loop acknowledges known commands and runs, records and acknowledges the others, as the protocol's steps say |
| CommandLog.ExecutionsSeparated | agent/cmd/agent/main.go:535-788 | over every run with heartbeats that succeed or fail and crashes anywhere, two executions of one non-empty command id are separated by a crash before the record of the first was on disk, by a crash after which the file holding the record cannot be read, or by a clock reading more than 24 hours past it |
| CommandLog.ReadableRunsSeparated | agent/internal/cmdlog/cmdlog.go:49-89 | if the file can be read after every crash, only the crash before the save and the clock remain |
| CommandLog.RunsAgainExactly | agent/cmd/agent/main.go:731-788 | over every run, the next delivery of an executed command runs again if and only if some step took its record out of the log, by a crash after which the file gives none back or by discarding it as older than 24 hours, and no later crash brought one back |
| CommandLog.LostFileExactly | agent/internal/cmdlog/cmdlog.go:49-89 | if the record was on disk at every crash and no clock passed it by 24 hours, the next delivery runs again if and only if the file was lost to an unreadable crash and no later crash could read it |
| CommandLog.ForgottenExactly | agent/internal/cmdlog/cmdlog.go:49-169 | for the first record of a command and a clock that never goes back, the next delivery runs again if and only if there was a crash before the record was on disk, a clock reading more than 24 hours past it, or a lost file that no later crash could read |
| CommandLog.LostFileRunsTwice | agent/internal/cmdlog/cmdlog.go:49-65 | a concrete run in which the record is saved, no clock passes, the file is lost, and the command runs twice |
| CommandLog.AckLeavesOnlyDelivered | agent/cmd/agent/main.go:535-564 | a queued acknowledgement leaves the queue only when a heartbeat that carried it succeeds, or in a crash |
| CommandLog.QueuedExactly | agent/cmd/agent/main.go:535-788 | over every run from an empty queue, an id is queued if and only if its command was redelivered while known or completed, and since then neither a heartbeat that carried it succeeded nor the agent crashed |
| CommandLog.DeliveryIsAcknowledged | agent/cmd/agent/main.go:731-788 | along every run, each redelivery of a known command and each completed execution leaves its id queued at every later step until a heartbeat that carried it succeeds or the agent crashes |
| AdminStore.Gate | server/internal/admin/service.go:860-898 | a gate opens exactly for an active admin of the platform or of the owning tenant |
| AdminStore.HasOtherActiveAdmin | server/internal/admin/adminusers.go:143-166 | the scan finds another active ADMIN of exactly this scope, platform or tenant, if and only if there is one |
| Tenants.NormalizedExactly | server/internal/tenant/tenant.go:20-55 | a name is accepted if and only if, trimmed and lower-cased, it is a label of 1 to 63 letters, digits and inner dashes, which is the result, or empty, which means the default tenant |
| AdminService.Service.constructor | server/internal/admin/service.go:238-246 | a service over a store |
| AdminService.Service.IssueEnrollmentToken | server/internal/admin/service.go:370-394 | a tenant's admin issues for its own tenant only |
| AdminService.Service.RevokeEnrollmentToken | server/internal/admin/service.go:400-424 | a tenant's admin revokes its own tenant's tokens only; for the platform an unknown token is a no-op |
| AdminService.Service.NormalizeTags | server/internal/admin/service.go:565-586 | at most 20 tags, none twice, each of 1 to 40 bytes and the cut of a trimmed input, in order of first occurrence; an input's tag is missing only if it is empty or comes after all of a full list |
| AdminService.Service.SetDeviceTags | server/internal/admin/service.go:546-561 | the device's tags are replaced, nothing else changes |
| AdminService.Service.Enqueue | server/internal/admin/service.go:280-294 | the command is queued unless the plane it is routed through refuses |
| AdminService.Service.Command | server/internal/admin/service.go:900-923 | role, tenant, scope and plane in that order, then the queue and the shown status |
| AdminService.Service.CollectFromDevice | server/internal/admin/service.go:758-778 | a blank path is refused before the tenant is looked at |
| AdminService.Service.EraseDevice | server/internal/admin/service.go:935-955 | the device's events and commands are gone and its certificates revoked, others untouched |
| AdminService.Service.RevokeDevice | server/internal/admin/service.go:983-1002 | exactly the device's certificates are revoked |
| AdminService.Service.RequestWipe | server/internal/admin/service.go:660-682 | a request is stored, no command is queued |
| AdminService.Service.ApproveWipe | server/internal/admin/service.go:687-717 | somebody else's request is claimed and then the command queued; a refusal by the plane loses the claim |
| AdminService.Service.CancelWipe | server/internal/admin/service.go:720-732 | the request is gone |
| AdminService.Service.UpdateEventCase | server/internal/admin/service.go:736-754 | assignee and note change, the status stays |
| AdminService.Service.AckEvent | server/internal/admin/service.go:782-800 | the status changes, assignee and note stay |
| AdminService.Service.CreatePolicy | server/internal/admin/service.go:1046-1073 | the owner is the creator's tenant, or for the platform a normalised tenant or nobody |
| AdminService.Service.AssignPolicy | server/internal/admin/service.go:1078-1112 | the device gets the policy and its current version and is woken |
| AdminService.Service.AddPolicyRule | server/internal/admin/service.go:1117-1164 | the rule is appended, the version raised on the policy and on its devices |
| AdminService.Service.WakeAudience | server/internal/admin/service.go:1143-1163 | the loop wakes exactly the devices with the policy that fit its owner, each once |
| AdminService.Service.CreateAdmin | server/internal/admin/adminusers.go:57-103 | the new admin's tenant is the creator's, or for the platform a normalised tenant or none |
| AdminService.Service.GuardLastAdmin | server/internal/admin/adminusers.go:172-184 | refuses exactly an admin acting on itself as the last one of its scope |
| AdminService.Service.SetAdminRole | server/internal/admin/adminusers.go:190-211 | the target's role changes after all guards |
| AdminService.Service.DeactivateAdmin | server/internal/admin/adminusers.go:217-233 | the target is inactive after all guards |
| AdminService.CleanTagsAreFirst | server/internal/admin/service.go:565-586 | what is kept after some inputs and extended by the rest is again the first distinct tags of all inputs |
| AdminRights.RolesEnforced | server/internal/admin/service.go:36-47 | whoever is not a known active administrator, or operator where that suffices, is refused and changes nothing: scripts, removal, wipes, erasure, policies, rules and admins need an administrator |
| AdminRights.AcceptedExactly | server/internal/admin/service.go:370-1164 | each of the eighteen operations is accepted if and only if the actor has the role, the tenant reaches the row, the input is in order and the collaborators agree, in any order of checking |
| AdminRights.RefusedChangesNothing | server/internal/admin/service.go:370-1164 | a refusal leaves the store as it is, except that an approved wipe the command plane turns down has used up its request |
| AdminRights.DeviceOpDone | server/internal/admin/service.go:546-1002 | an accepted operation on a device has done there what it is for, and nothing to any other row |
| AdminRights.OtherOpDone | server/internal/admin/service.go:370-1164 | so has every other accepted operation: tokens, triage, policies with rules and wake-ups, admins |
| AdminRights.EnrolledDone | server/internal/memstore/memstore.go:252-305 | enrolment gives a device exactly this row: a new one is active in the token's tenant; a known one keeps its policy and any security status such as a quarantine, becomes active only if it was away, and moves to no other tenant |
| AdminRights.WithdrawnForGood | server/internal/admin/service.go:400-1002 | over every run a revoked certificate stays revoked and a used-up token used up |
| AdminRights.TenantsStayNamed | server/internal/admin/service.go:1046-1073 | over every run admins and policies belong to the platform or to a tenant with a well-formed name |
| AdminRuns.CommandQueuedExactly | server/internal/admin/service.go:900-923 | an accepted command is the last of its device's, a refused one changes nothing, no other device ever gets one |
| AdminRuns.Enrolled | server/internal/memstore/memstore.go:252-305 | enrolment, refused or not, touches devices only |
| AdminRuns.EnrolledKeepsAssigned | server/internal/memstore/memstore.go:252-305 | re-enrolment, which may rename a device's tenant to its default form, keeps every assignment fitting |
| AdminRuns.AssignmentsAlwaysFit | server/internal/admin/service.go:1004-1164 | in every reachable store, platform admins included, each assigned policy exists, is shared or of its device's tenant, and the device shows its current version |
| AdminRuns.LastAdminLostExactly | server/internal/admin/adminusers.go:112-233 | a step leaves a scope without active ADMIN if and only if a platform admin demotes or deactivates a tenant's only one; the platform never loses its last |
| AdminRuns.StaysGoverned | server/internal/admin/adminusers.go:112-233 | over every run the platform keeps an active ADMIN, and a tenant keeps one unless a platform admin steps in |
| AdminRuns.FourEyes | server/internal/admin/service.go:657-717 | under dual control a wipe command appears only when an ADMIN other than the requester approves, which uses the request up |
| AdminRuns.WipesNeedRequests | server/internal/admin/service.go:657-717 | under dual control no run queues more wipes of a device than were requested |
| TenantWall.GatedDevice | server/internal/admin/service.go:846-876 | a gate opens to another tenant's admin only for devices of that tenant |
| TenantWall.PerformedUnseen | server/internal/admin/service.go:370-1164 | no operation of another tenant's admin changes anything in a tenant's view, except for a rule that reaches one of its devices |
| TenantWall.WallExactly | server/internal/admin/service.go:1117-1164 | the sharp view of a tenant changes in such a step if and only if the step adds a rule that reaches one of its devices |
| TenantWall.ReachIsWithinATenant | server/internal/admin/service.go:1034-1040 | a rule reaches across only from the default tenant to rows from before tenancy, which are the same tenant under another name |
| TenantWall.ReachHappens | server/internal/admin/service.go:1034-1164 | a concrete store in which it does |
| TenantWall.NothingCrossesTheWall | server/internal/admin/service.go:370-1164 | over every run of moves by outsiders the view of a tenant, or of the platform, is unchanged: devices, policies, tokens and admins with none added, commands, certificates, wipe requests, events and wake-ups of its devices, triage of its events |

## Left out

- JSON form of DSSE envelopes and the conversion of dynamic maps to parameters: they rest on a general JSON library.
- Version 1 of the command encoding, which is never on the wire, and signing of trust statements, whose result the acceptance rules describe.
- Internals of Ed25519, SHA-256 and the weak-key table; only their interfaces appear.
- Error texts, logs, metrics and the audit trail; reasons and refusals are kept.
- Storage of the trust state and of the floors on disk.
- EventBuffer.Buffer.Add: sequence numbers are unbounded; the source's 64-bit counter would wrap after 2^64 events.
- Watchdog.Configure: options with negative durations are not modelled.
- LoginLimiter.FailuresBounded: time differences are unbounded; the source's saturate after about 292 years.
- CommandLog.Log.Record: only the file's content matters; the temporary file behind it is not modelled, and the queue of command results, which does not influence execution, is left out.
- AdminRuns.Enrolled: which known device a network address belongs to, and whether it clashes with another's, are inputs.
- CommandLog.Log.constructor: a file holding the JSON value null, which the log itself never writes, is not distinguished from an empty record.
- CommandLog.HandleCommands: a handled command is one effect; the handlers, scripts, file uploads and results behind it are not modelled.
- ProcessTree.Tick: process telemetry, anomaly scores and emitted events are not modelled; what it kills and counts is. A failing kill of a descendant has no further effect, as in the source.
- Flow of events on the server, correlation, compliance, inventory and the other collectors.
- HTTP and gRPC handlers, the SQL store (the in-memory store is followed), sessions, and MFA, which only touches the acting admin's own record.
- Concurrency inside one service call: each operation is one step; the wipe claim is atomic as in the store.
- AdminService.Service.CreateAdmin: password hashing and the index of admins by e-mail address are not modelled.
- AdminService.Service.EraseDevice: collected file artefacts, which are deleted too, and the counts reported are not modelled.
- AdminService.Service.Enqueue: command parameters and the pending queue that delivery empties are not modelled; the command history is.
- Read-only queries of the admin service.
