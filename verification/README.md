# Verification of the MPC wallet core

A Dafny model of the parts of the repository whose correctness is hard to see: the rendezvous between a
blocking protocol worker and the callers that step it, the loop that drives two such sessions against each
other, the threshold backup of a key share, and the two bit-level codecs. Everything is proved by Dafny's
verifier; `dafny verify dfyconfig.toml` checks the whole project.

## What is modelled

**Sessions and the dual loop** (`cpp/src/bridge.cpp`, `session/dkg.ts`, `session/sign.ts`, `transport.ts`).
`Rendezvous` gives every region that `AsyncSession` runs under its mutex as a function on the guarded state;
`AsyncSessions` is the object with those fields, each method proved equal to its region. The blocking protocol
is a *script* (`Workers`): what it sends, where it receives, how it ends. Scripts are universally quantified, so
a theorem about all scripts is a theorem about all protocol runs. `TwoParty` puts two workers, the driver's local
variables and the transport queues into one transition system whose steps are the lock-held regions, with the
unlocked read of the wait id and the push of the inbound message as steps of their own; a run is any interleaving.
`Alternating`, `Progress`, `Hangs` and `Conversations` are about runs, and `DualLoops` is the loop as a program over
two `AsyncSession` objects, of which every execution is a run. Participants are named by the order in which an
iteration steps them, so that one model covers `runDkg` (device first) and `runSign` (server first).

- Conservation holds for two arbitrary scripts exactly as long as no send meets an uncollected message and no
  empty payload passes through the binding (`outbound_.emplace` overwrites; the binding turns an empty payload
  into none, at `bindings/node/addon.cc:403` and `bindings/node/addon.cc:405`). For a conversation in which anyone may
  speak at any place, no interleaving loses a message if and only if nobody speaks twice in a row and no message
  is empty.
- Every run is finite, with an explicit bound, whatever the scripts are. What can go wrong is a hang.
- If a session is looked at only once its worker has sent, parked on an empty queue, or ended, the loop ends on
  every run if and only if the participant that speaks first is the one each iteration steps first; it then needs
  at most `(m + 1) / 2 + 1` iterations for `m` messages. A cap of `n` is enough exactly up to `2n - 2` messages, the
  code's 128 up to 254. If a participant fails on the way, at any place, the loop does not hang: it throws that
  participant's error.
- Without that scheduling hypothesis the loop can hang as soon as there are two messages: a worker that parks
  between the read of the wait id and the push lets its Step return early, and the next Step of the other
  participant has nothing to bring. `Hangs.NoRunHangsIff` gives the exact condition under which no interleaving
  hangs.

**Key and sign sessions.** `KeySessions` and `SignSessions` are about arbitrary sequences of calls interleaved
with the worker: a key is handed out at most once and only as promised, a failure is final, the message that is
signed is the first accepted one. `SetMessage` does not succeed only once, as its error text "message already set"
suggests: the worker clears the flag when it takes the message, so a second message is then accepted, and ignored.
`SignSessions.SecondMessageIsAccepted` is that run, and `SignSessions.AcceptedIff` says exactly when a message is
accepted. For both kinds of session `FinalizeAnswers` gives the answer of every Finalize of every run, so that what
a session owes its caller is stated as well as what it must not do.

**Threshold backup.** Shamir sharing and Lagrange interpolation are modelled concretely over the integers modulo
an arbitrary prime (the code uses the group order of secp256k1, section 2.4.1 of SEC 2), with the number theory
they need proved here: Bezout inverses, Euclid's lemma, the bound on the number of roots. AES-GCM (section 7 of
NIST SP 800-38D) and the key field converter are function parameters with round-trip preconditions. Random draws
are parameters; a failing generator is an error case.

Constants that both directions share, such as lengths, versions and enumerators, appear as numbers in the contracts
that speak about them, so that a theorem about a round trip is not the only thing that fixes them.

**Codecs.** JavaScript's 32-bit operators are modelled with wrap-around and sign (`JsInt32`). `Polymod` and
`ConvertBits` are the loops of `address.ts`, proved against an XOR-linear recurrence and against the unbounded
big-endian regrouping; `Bch` shows that the five generator constants really divide by the BIP-173 generator
polynomial over GF(32); `Address` ends in a decoder after BIP-173 that accepts exactly what the source issues.
`Base64` is `bytes.ts` against section 4 of RFC 4648, which it meets exactly on canonical texts.

## Files

| files | content |
|---|---|
| Common, Arith, Radix, Tables | shared types, small arithmetic facts, positional numbers, table lookup |
| JsInt32, Xor | JavaScript 32-bit operators, algebra of exclusive or |
| ConvertBits, Polymod, Bch, Address | Bech32 addresses |
| Base64 | Base64 |
| Modular, Polynomial, Shamir, Keys, Backup | threshold backup |
| Rendezvous, AsyncSession, Worker, KeySession, SignSession, SignSessionObject | one session |
| Transport, TwoParty, Alternating, Progress, Hangs, DualLoop, Conversations | two sessions and the loop |

## Model

| member | source | states |
|---|---|---|
| Rendezvous.FirstFailureWins | cpp/src/bridge.cpp:376-381 | after any sequence of events the stored failure is the first one that occurred; every later Step and Finalize throws exactly it, or nothing if there was none, and a receive after it is refused |
| Rendezvous.InboundIsFifo | cpp/src/bridge.cpp:321-345 | in any run the worker receives the pushed messages in their order, each once and empty ones included, and the rest waits in the queue |
| Rendezvous.StateIsHistory | cpp/src/bridge.cpp:298-381 | every field of a session is what the events since its creation say: the last message sent and not collected, the messages pushed and not taken, an unfinished wait, the number of waits, the first failure, the end |
| Rendezvous.LookTellsHistory | cpp/src/bridge.cpp:347-373 | what a Step and a Finalize answer after any events, in terms of those events alone |
| AsyncSessions.AsyncSession.constructor | cpp/src/bridge.cpp:421-432 | a new session is empty, not waiting, not failed and not done |
| AsyncSessions.AsyncSession.OnSend | cpp/src/bridge.cpp:306-314 | the whole new state after a send: the slot holds the message, nothing else changes |
| AsyncSessions.AsyncSession.EnterReceive | cpp/src/bridge.cpp:316-320 | the whole new state after entering the wait: waiting, with the next wait id |
| AsyncSessions.AsyncSession.LeaveReceive | cpp/src/bridge.cpp:321-331 | a failed or aborted session refuses and keeps its state; otherwise the oldest inbound message is taken and the wait ends |
| AsyncSessions.AsyncSession.PushInbound | cpp/src/bridge.cpp:336-345 | an inbound message, empty or not, goes to the end of the queue; no message changes nothing |
| AsyncSessions.AsyncSession.Inspect | cpp/src/bridge.cpp:347-373 | what one look decides, in the order failure, outbound, done, newer wait; only a returned message leaves the slot |
| AsyncSessions.AsyncSession.Fail | cpp/src/bridge.cpp:376-381 | the first failure is kept, and the session is aborted |
| AsyncSessions.AsyncSession.Exit | cpp/src/bridge.cpp:298-302 | the thread's last region sets the done flag and nothing else |
| AsyncSessions.AsyncSession.EnsureWorkerFinished | cpp/src/bridge.cpp:404-412 | waits until done or failed, and a failure has precedence |
| Workers.StepReturnsUnlessStuck | cpp/src/bridge.cpp:333-374 | for every script and outcome: a Step comes back if and only if its worker was not parked, in the wait the snapshot saw, with empty inbound queue and empty slot |
| Workers.StepWithMessageReturns | cpp/src/bridge.cpp:333-345 | a Step that brings a message to a parked worker comes back, whatever the rest of the script is |
| Workers.StepWithoutMessageBlocks | cpp/src/bridge.cpp:333-374 | a Step that brings nothing to a parked worker blocks exactly if there is neither an unread nor an uncollected message |
| Workers.SettlesWithinRank | cpp/src/bridge.cpp:306-331 | the worker settles within a number of regions that its script bounds |
| Workers.ReturnIsStable | cpp/src/bridge.cpp:347-366 | a message in the slot, the end and a failure stay return conditions while the worker goes on |
| KeySessions.KeySession.CreateDkg | cpp/src/bridge.cpp:474-482 | by number: a session exactly for curve 0, kind 0 or 1 and scheme 0, playing the first party for kind 0 and the second for kind 1; otherwise the error of the first failing check; the new session is idle, has no key and carries the labels of the options |
| KeySessions.KeySession.CreateRefresh | cpp/src/bridge.cpp:523-534 | by number: a session exactly for kind 0 or 1 and scheme 0, playing the party of the kind; otherwise the error of the first failing check; the new session is idle, has no key and carries the labels of the keypair |
| KeySessions.KeySession.Publish | cpp/src/bridge.cpp:505-511 | the worker's last region stores the key and raises the flag |
| KeySessions.KeySession.FinalizeKey | cpp/src/bridge.cpp:487-492 | the answer and the whole new state: failure, wait, not ready, or the key with the flag lowered even if the curve cannot be reported |
| KeySessions.NewDkg | cpp/src/bridge.cpp:474-482 | which options are accepted, the party and the curve of the session, and the error of all others in the order curve, kind, scheme, by enumerator number |
| KeySessions.NewRefresh | cpp/src/bridge.cpp:523-534 | which keypairs are accepted, the party of the session, the curve it will report, and the error of all others, by enumerator number |
| KeySessions.FinalizeAnswers | cpp/src/bridge.cpp:487-492 | the answer of every Finalize of every run from the creation on: the failure, a wait as long as the worker runs, the labelled key to the first call after a good end, a protocol state error to every later one |
| KeySessions.HandsOutAtMostOnce | cpp/src/bridge.cpp:487-492 | over any call sequence at most one key comes out, and none once the flag has been used up |
| KeySessions.HandsOutWhatWasPromised | cpp/src/bridge.cpp:487-511 | whatever comes out comes from Finalize after the worker ended without failure, and carries the kind, scheme, curve and key id fixed at creation |
| KeySessions.NeverFailedAndReady | cpp/src/bridge.cpp:495-511 | no run reaches a state that has failed and has a key ready |
| KeySessions.FailureIsFinal | cpp/src/bridge.cpp:404-412 | after a failure every Step and every Finalize of any later run throws that failure |
| KeySessions.FinalizeTwice | cpp/src/bridge.cpp:487-492 | the first Finalize after success hands out the key, the second one is refused as a protocol state error |
| KeySessions.DkgKeypair | cpp/src/bridge.cpp:472-492 | a DKG session exists only for ECDSA-2P on secp256k1 and labels its well-formed keypair with exactly its options |
| KeySessions.RefreshKeypair | cpp/src/bridge.cpp:521-548 | refreshing a well-formed keypair keeps kind, scheme, curve and key id and gives a well-formed keypair |
| SignSessionObjects.SignSession.SetMessage | cpp/src/bridge.cpp:595-602 | an empty message is refused, a second message is refused while the first is untaken, otherwise it is stored |
| SignSessionObjects.SignSession.TakeMessage | cpp/src/bridge.cpp:621-628 | the worker gets the stored message, and message and flag are cleared |
| SignSessionObjects.SignSession.StoreSignature | cpp/src/bridge.cpp:650-679 | DER form, raw form as two coordinates of full width side by side, and the ready flag |
| SignSessionObjects.SignSession.FinalizeSignature | cpp/src/bridge.cpp:606-618 | the answer in the order failure, wait, wrong share, not ready, requested form, without a change of the session; SignSessions.FinalizeAnswers says what it amounts to |
| SignSessionObjects.SignSession.CreateSign | cpp/src/bridge.cpp:580-589 | the error of the first failing check, or an idle session without message and signature for the party of the keypair |
| SignSessions.NewSign | cpp/src/bridge.cpp:580-589 | by number: kind 0 signs as the first party and kind 1 as the second, with scheme 0 only; the errors of all others in the order kind, scheme |
| SignSessions.FinalizeAnswers | cpp/src/bridge.cpp:606-618 | the answer of every Finalize of every run: the failure, a wait as long as the worker runs, a refusal on the server share, and on the device share the DER bytes of the protocol or the two parsed coordinates at full width whenever there are any |
| SignSessions.SignatureGoesToDevice | cpp/src/bridge.cpp:580-609 | in no run of any session does a keypair of another kind than 0 get a signature |
| SignSessions.FirstMessageIsSigned | cpp/src/bridge.cpp:595-628 | in every interleaving the protocol signs the first accepted message; at most one more is accepted, only after the first was taken, and never used |
| SignSessions.SecondMessageIsAccepted | cpp/src/bridge.cpp:595-628 | two SetMessage calls with the worker's take between them are both accepted |
| SignSessions.AcceptedIff | cpp/src/bridge.cpp:595-602 | in any run a SetMessage is accepted if and only if its message is not empty and either none was accepted before, or exactly one was and the worker has taken it |
| SignSessions.SetMessageRefusals | cpp/src/bridge.cpp:595-602 | in any run a SetMessage that is not accepted is refused as an invalid argument if its message is empty, and as a protocol state error otherwise |
| SignSessions.FinalizeIsStable | cpp/src/bridge.cpp:606-618 | whenever Finalize yields bytes they are the requested form of the signature of the one message the worker took, and the share is the device's |
| SignSessions.RepeatedFinalize | cpp/src/bridge.cpp:606-618 | two Finalize calls in one format, anywhere in a run after the first success, yield the same bytes |
| SignSessions.RawSplits | cpp/src/bridge.cpp:655-669 | the raw form has twice the coordinate width and splits back into the r and s that the DER form parses to |
| SignSessions.FailureIsFinal | cpp/src/bridge.cpp:404-412 | after a failure every Step and Finalize throws it |
| SignSessions.NeverFailedAndReady | cpp/src/bridge.cpp:621-680 | no run reaches a state that has failed and has a signature ready |
| Transports.InMemoryTransport.Send | packages/coordinator-node/src/transport.ts:19-22 | the payload goes to the end of the addressee's queue and the other queue stays |
| Transports.InMemoryTransport.Receive | packages/coordinator-node/src/transport.ts:24-28 | the oldest payload is taken from the participant's own queue; an empty queue gives nothing and stays |
| TwoParty.ConservedIffNothingLost | cpp/src/bridge.cpp:306-374 | for any two scripts and any interleaving, sent = heard ++ inbound queue ++ driver ++ transport ++ driver ++ slot in both directions if and only if no step overwrote an uncollected message or dropped an empty one |
| TwoParty.EveryRunIsBounded | packages/coordinator-node/src/session/dkg.ts:58-67 | no run of two workers and the capped loop is longer than 10 * cap plus twice the length of the scripts plus 4 |
| TwoParty.LoopGuards | packages/coordinator-node/src/session/dkg.ts:55-67 | for any two scripts and any interleaving only a participant that is not done is stepped, and only within the cap; the loop is left at the cap or as soon as both are done; a flag goes up only if the worker has ended without failure |
| Alternating.MessagesAreConserved | cpp/src/bridge.cpp:306-374 | for alternating dual scripts every reachable state conserves messages, has at most one on its way in both directions together, and what a party heard is a prefix of what was sent to it |
| Alternating.NothingIsEverLost | cpp/src/bridge.cpp:306-314 | for alternating dual scripts no step of any run overwrites an uncollected message or drops an empty one |
| Alternating.DoneIsComplete | cpp/src/bridge.cpp:347-366 | when a Step reports Done its worker has ended without failure with an empty slot, and the messages its Steps returned are exactly all it ever sent |
| Progress.LoopEndsWell | packages/coordinator-node/src/session/dkg.ts:55-69 | under the scheduling hypothesis every run that cannot go on has left the loop with both flags up within (m + 1) / 2 + 1 iterations, everything said was heard, and both finalizations are legal |
| Progress.FailureEndsLoop | packages/coordinator-node/src/session/dkg.ts:55-67 | under the scheduling hypothesis, if a participant fails at any place of the conversation, every run that cannot go on has thrown the error of the participant it was stepping |
| Progress.EagerRunReachesEnd | packages/coordinator-node/src/session/sign.ts:36-51 | under the scheduling hypothesis every state met on the way can be carried on to the end of the loop |
| Conversations.CapIsExact | packages/coordinator-node/src/session/dkg.ts:58 | with a cap of n every run of the scheduled system that cannot go on has ended with both flags up if and only if there are at most 2n - 2 messages |
| Conversations.TooFewIterations | packages/coordinator-node/src/session/dkg.ts:58-67 | with more messages there is a scheduled run that leaves the loop with a flag down |
| Conversations.NothingLostIffFair | cpp/src/bridge.cpp:306-314 | for a conversation in which anyone may speak at any place, no interleaving loses a message if and only if nobody speaks twice in a row and no message is empty |
| Conversations.RepeatedSpeakerLoses | cpp/src/bridge.cpp:308-311 | a run that overwrites a message, for every conversation in which somebody, anywhere, speaks twice in a row |
| Conversations.EmptyMessageLoses | packages/coordinator-node/src/session/dkg.ts:47-53 | a run that drops the first empty message of a conversation |
| Hangs.LoopEndsIffOpenerIsSteppedFirst | packages/coordinator-node/src/session/sign.ts:39-51 | under the scheduling hypothesis the loop ends on every run if and only if the participant that speaks first is stepped first, or nobody speaks |
| Hangs.NoRunHangsIff | cpp/src/bridge.cpp:334-366 | without any hypothesis no interleaving deadlocks if and only if nobody speaks, or only the first-stepped participant does, once |
| Hangs.OpenerSteppedSecondHangs | cpp/src/bridge.cpp:333-373 | a deadlocking run for every conversation that the second-stepped participant opens |
| Hangs.ParkingInsideAStepHangs | cpp/src/bridge.cpp:334-345 | a deadlocking run for every conversation of two messages or more that the first-stepped participant opens: the worker parks between the read of the wait id and the push |
| DualLoops.Handle.MoveWorker | cpp/src/bridge.cpp:287-331 | the worker thread's next lock-held region, performed on the session object, is the next move of the scripted worker |
| DualLoops.Handle.Step | cpp/src/bridge.cpp:333-374 | snapshot, push, the worker's moves until it settles, and one look, as one function of the session before |
| DualLoops.StepParticipant | packages/coordinator-node/src/session/dkg.ts:47-53 | receive, step and send: the session, both queues and the answer after half an iteration |
| DualLoops.DualLoop | packages/coordinator-node/src/session/dkg.ts:55-67 | for any two scripts the program's execution is a run of the transition system, and its result (ended with these flags, threw, or hangs) is what the run's last state shows |
| DualLoops.ProgramNeverHangs | packages/coordinator-node/src/session/dkg.ts:55-67 | on a conversation opened by the first-stepped participant, with enough iterations, the program never hangs: it throws the error of a participant that fails, and ends normally if nobody does |
| DualLoops.ProgramEndsWell | packages/coordinator-node/src/session/dkg.ts:55-69 | on a whole conversation opened by the first-stepped participant, with enough iterations, the program's result is the normal end with both flags up and everything heard |
| Modular.InverseWorks | cpp/src/bridge.cpp:884 | the extended-Euclid inverse inverts every number that is not zero modulo a prime |
| Modular.NoZeroDivisors | cpp/src/bridge.cpp:884 | modulo a prime a product is zero only if a factor is |
| Polynomial.TooManyRoots | cpp/src/bridge.cpp:884 | over a prime field a polynomial with as many distinct roots as coefficients has only zero coefficients |
| Polynomial.InterpolationIsExact | cpp/src/bridge.cpp:884 | Lagrange's formula through at least as many distinct points as coefficients gives the polynomial's value at every place |
| Polynomial.EvalIsPowerSum | cpp/src/bridge.cpp:845-852 | the value that a share holds is the sum of coefficient times power of the id |
| Shamir.AnyQuorumRecovers | cpp/src/bridge.cpp:845-852 | the shares of any distinct ids, at least threshold many, in any order, interpolate at zero to the secret |
| Shamir.BelowThresholdNothingIsKnown | cpp/src/bridge.cpp:845-852 | for any threshold - 1 distinct shares and any candidate secret exactly one choice of coefficients explains them |
| Keys.ImportInvertsExport | cpp/src/bridge.cpp:707-752 | an exported keypair is imported as itself if and only if it is well-formed |
| Keys.ImportedIsWellFormed | cpp/src/bridge.cpp:707-730 | whatever is imported is well-formed and describes the blob it came from |
| Keys.ImportKey | cpp/src/bridge.cpp:707-730 | by number: exactly the readable blobs with magic 0x4D50434B, version 1, the known curve and kind 0 or 1 are imported, every part at its place, as the first party for kind 0 and the second for kind 1; the error of all others |
| Keys.ExportKey | cpp/src/bridge.cpp:732-752 | what is exported is the converter output for the blob that describes the keypair, and a general error otherwise |
| Backup.EncodeShare | cpp/src/bridge.cpp:158-167 | the buffer that the two copies fill is the version byte and the two scalars, big-endian at full width |
| Backup.DecodeInvertsEncode | cpp/src/bridge.cpp:158-179 | a share is the byte 1, the id and the value at full width, and decodes to the id and the value it was made from |
| Backup.DecodableIffEncoding | cpp/src/bridge.cpp:169-179 | exactly the byte strings of the right length with first byte 1 decode, each of them is the encoding of what it decodes to, and all others are an invalid argument |
| Backup.OpenInvertsEncrypt | cpp/src/bridge.cpp:181-270 | a sealed payload is 28 bytes longer than its non-empty plaintext, starts with the 12 bytes of the nonce, and opens to the plaintext |
| Backup.SealedLayout | cpp/src/bridge.cpp:186-226 | a key of 32 bytes and a nonce of 12 are sealed, and the payload is nonce, 16 bytes of tag, ciphertext |
| Backup.SealingRefusals | cpp/src/bridge.cpp:186-226 | any other length of key or nonce is an invalid argument, and a failing cipher a crypto error |
| Backup.OpenedLayout | cpp/src/bridge.cpp:888-904 | the cipher gets exactly the 12 bytes, the 16 bytes and the rest that a payload was put together from, and its failure is a crypto error |
| Backup.ShortPayload | cpp/src/bridge.cpp:888-889 | a payload is refused for its length exactly if it has fewer than 28 bytes |
| Backup.MakeShares | cpp/src/bridge.cpp:837-855 | share i has id i + 1 and the value of the sharing polynomial there, encoded |
| Backup.CreateBackup | cpp/src/bridge.cpp:805-858 | the method agrees with the specification function for every input and every outcome of the random generator, error codes and their order included, and its ciphertext names the kind, scheme, curve and key id of the keypair, the threshold, the share count and the label |
| Backup.Backup | cpp/src/bridge.cpp:830-836 | every backup names the kind, scheme, curve and key id of its keypair, the threshold as given, the share count in 32 bits and the label, and has as many shares |
| Backup.BackupSucceedsIff | cpp/src/bridge.cpp:814-829 | a backup is made if and only if 1 <= threshold <= shares, the keypair serialises, seed and nonce are drawn, the scalar has 32 bytes, and the cipher seals the blob under the first scalar with the label |
| Backup.BackupRefusals | cpp/src/bridge.cpp:814-829 | the error of every backup that is not made, the first failing step deciding |
| Backup.PayloadOfBackup | cpp/src/bridge.cpp:829 | the payload is the drawn nonce and the tag and ciphertext of the blob of the keypair, 28 bytes longer than it |
| Backup.SharesSpellPoints | cpp/src/bridge.cpp:842-856 | share i decodes to the id i + 1 and the value there of the polynomial whose coefficients are the first threshold scalars drawn |
| Backup.RestoreBackup | cpp/src/bridge.cpp:860-910 | the method agrees with the specification function for every ciphertext and every list of shares, error codes and their order included; RestoreOpens and RestoreRefuses say what that function does |
| Backup.RestoreOpens | cpp/src/bridge.cpp:884-907 | for shares that decode: all their points are interpolated at zero, the result is the key that opens the payload, cut at 12 and 28, with the label, and what it holds is imported; the error of every failing step |
| Backup.AnyQuorumRestores | cpp/src/bridge.cpp:805-910 | from any threshold or more distinct shares of a backup, in any order, the restored keypair is the original one if and only if that was well-formed |
| Backup.OneShareShortFitsEveryScalar | cpp/src/bridge.cpp:845-866 | one share less than the threshold fits every sealing scalar in exactly one way |
| Backup.RestoreRefuses | cpp/src/bridge.cpp:863-880 | too few shares, a zero threshold, or one share that does not decode make the restore fail as an invalid argument |
| JsInt32.ShiftInDigit | packages/coordinator-node/src/cosmos/address.ts:46-47 | shifting left and or-ing in a digit on a wrapped accumulator is the wrapped unbounded accumulator |
| JsInt32.WindowOfInt32 | packages/coordinator-node/src/cosmos/address.ts:49-51 | a bit window inside the low 32 bits reads the same from the wrapped and from the unbounded number |
| ConvertBits.ConvertBits | packages/coordinator-node/src/cosmos/address.ts:42-61 | the loop with its never-masked, wrapping accumulator computes the unbounded big-endian regrouping, or its error, for all lengths and widths in use |
| ConvertBits.PaddedMeans | packages/coordinator-node/src/cosmos/address.ts:42-61 | a padded regrouping spells the number of the input followed by fewer zero bits than a word has |
| ConvertBits.UnpaddedMeans | packages/coordinator-node/src/cosmos/address.ts:55-59 | what is accepted without padding spells its input without fewer than a word of zero bits |
| ConvertBits.RegroupInverse | packages/coordinator-node/src/cosmos/address.ts:42-61 | padding to narrower words and unpadding back are inverse to each other, in both directions |
| ConvertBits.BytesRoundTrip | packages/coordinator-node/src/cosmos/address.ts:42-61 | every byte string survives 8 to 5 to 8 without the incomplete-group error, and the padded length is ceil(8n/5) |
| Polymod.Polymod | packages/coordinator-node/src/cosmos/address.ts:5-18 | the loop over 32-bit operators equals the unsigned recurrence, and the register stays below 2^30 |
| Polymod.FoldLinear | packages/coordinator-node/src/cosmos/address.ts:5-18 | the register is XOR-linear in its start value and its input together |
| Polymod.FoldFits | packages/coordinator-node/src/cosmos/address.ts:5-18 | the register never leaves 30 bits for any symbol list |
| Polymod.ZeroStepInjective | packages/coordinator-node/src/cosmos/address.ts:8-15 | feeding a zero never merges two 30-bit states |
| Polymod.BurstDetected | packages/coordinator-node/src/cosmos/address.ts:5-18 | sequences of any equal length that differ only inside six consecutive symbols have different registers |
| Polymod.SubstitutionAndSwapDetected | packages/coordinator-node/src/cosmos/address.ts:5-18 | a single wrong symbol and a swap of two unequal neighbours change the register |
| Bch.ConstantsAreMultiples | packages/coordinator-node/src/cosmos/address.ts:6 | each symbol column of the five constants is the row of multiples of one coefficient of the generator polynomial in GF(32) |
| Bch.PolymodIsRemainder | packages/coordinator-node/src/cosmos/address.ts:5-18 | the register is the remainder of the input, behind a leading 1, by the degree-six generator polynomial over GF(32) |
| Address.HrpExpand | packages/coordinator-node/src/cosmos/address.ts:20-30 | the two loops over code points compute the expansion; for a prefix of n units without surrogates it has 2n + 1 words with a zero in the middle, and word i with the five-bit word n + 1 + i spells unit i |
| Address.PlainExpansion | packages/coordinator-node/src/cosmos/address.ts:20-30 | the expansion of every prefix without surrogates, by position and without naming how it is computed |
| Address.ExpansionByCodePoint | packages/coordinator-node/src/cosmos/address.ts:20-30 | the expansion of every prefix, well-formed or not, from its decomposition into code points: the first unit of each is cut in two, the second unit of a pair leaves no trace |
| Address.EveryTextHasCodePoints | packages/coordinator-node/src/cosmos/address.ts:22 | every sequence of units has such a decomposition |
| Address.CharsetReversed | packages/coordinator-node/src/cosmos/address.ts:3 | the character table read backwards: the symbol of every digit and lower-case letter, and none for any other unit |
| Address.CreateChecksum | packages/coordinator-node/src/cosmos/address.ts:32-40 | the loop computes the six checksum symbols |
| Address.ChecksumIsTheValidOne | packages/coordinator-node/src/cosmos/address.ts:32-40 | for every prefix and every data part six symbols make the register end at 1 if and only if they are the computed checksum |
| Address.PubkeyToCosmosAddress | packages/coordinator-node/src/cosmos/address.ts:63-74 | the assembled string is the address of the digest, for arbitrary hash functions: the prefix, the character 1 and, for a digest of 20 bytes, 38 more |
| Address.AddressForm | packages/coordinator-node/src/cosmos/address.ts:66-73 | an address is the prefix, the character 1, ceil(8n/5) letters and six more, which stand for the words of the digest and the checksum |
| Address.DecodeInvertsEncode | packages/coordinator-node/src/cosmos/address.ts:63-74 | the reference decoder reads prefix and digest from a string if and only if the source issues that string for them |
| Address.DamagedAddressRejected | packages/coordinator-node/src/cosmos/address.ts:63-74 | an accepted address damaged within six consecutive data characters is rejected |
| Base64.TableEntry | packages/coordinator-rn/src/utils/bytes.ts:73 | the table of the source is Table 1 of RFC 4648 |
| Base64.AlphabetReversed | packages/coordinator-rn/src/utils/bytes.ts:116-123 | which characters decode and to which sextet, by ranges of ASCII |
| Base64.CleanByParts | packages/coordinator-rn/src/utils/bytes.ts:53 | cleaning drops each of the 25 white space units of ECMAScript wherever it stands and keeps everything else in order |
| Base64.ToBase64 | packages/coordinator-rn/src/utils/bytes.ts:36-50 | the loop and its partial last group compute the encoding of section 4 of RFC 4648 |
| Base64.EncodedLength | packages/coordinator-rn/src/utils/bytes.ts:36-50 | the text has 4 * ceil(n / 3) characters |
| Base64.PaddingOfEncoding | packages/coordinator-rn/src/utils/bytes.ts:43-48 | an encoding ends with one = for each byte missing in its last group of three, and has no other |
| Base64.CopyChunk | packages/coordinator-rn/src/utils/bytes.ts:65-67 | the inner loop appends the wanted bytes of a group to the filled part of the output |
| Base64.FromBase64 | packages/coordinator-rn/src/utils/bytes.ts:52-71 | the loop returns the bytes that the cleaned text's bits fill, less the padding, or the length or character error |
| Base64.DecodesIff | packages/coordinator-rn/src/utils/bytes.ts:52-71 | which texts decode, which fail for their length and which for a character, in numbers |
| Base64.DecodedBytesSpell | packages/coordinator-rn/src/utils/bytes.ts:59-70 | the decoded bytes, followed by as many as = stand at the end, two at most, spell the number of the sextets |
| Base64.QuadIsFilled | packages/coordinator-rn/src/utils/bytes.ts:102-123 | a group of four decodes to the three bytes its bits fill, exactly if its characters are acceptable at their places |
| Base64.RoundTrip | packages/coordinator-rn/src/utils/bytes.ts:36-71 | decoding inverts encoding for every byte array |
| Base64.ReencodesIffCanonical | packages/coordinator-rn/src/utils/bytes.ts:36-71 | a text comes back from decoding and encoding if and only if it is canonical: letters, padding only at the end and as long as needed, unused bits zero |

## Left out

- The protocol library cb-mpc (DKG, signing, refresh, Paillier, curve points, its random generator) is not part
  of this model: protocols are scripts with an outcome, draws are a parameter, and share_threshold and
  lagrange_interpolate are the textbook definitions.
- AES-GCM, SHA-256 and RIPEMD-160 internals; sealing an empty plaintext, which the backup never does.
- Session destructors and thread joins, and with them an abort from outside while a worker waits.
- Foreign-call bindings, the C interface in maany_mpc.cc, storage, WebSocket transports, the example server, the
  server-only and device-only polling loops, and the React Native copy of the Bech32 code: plumbing, or the same
  code again.
- Wrap-around of the 64-bit wait id: it is unbounded here.
- Backup.CreateBackup: the share count is below 2^31, where the casts to int at cpp/src/bridge.cpp:842 and
  cpp/src/bridge.cpp:848-849 are identities, and below the group order.
- Backup.RestoreBackup: with repeated share ids the model's interpolation gives some scalar; what the library does
  with a zero denominator is not known, and no theorem speaks of that case.
- Address.DecodeInvertsEncode: the reference decoder does not apply the limits of BIP-173 on length, on the
  characters of the prefix and on mixed case; the source applies none of them either when it encodes.
- Progress.LoopEndsWell: needs the scheduling hypothesis, since Hangs.NoRunHangsIff shows that the loop can hang
  without it; it says nothing about which participant of the real protocols speaks first.
- Texts of error messages: errors are compared by their code.
