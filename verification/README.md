# Keylix, modelled and proved in Dafny

Keylix verifies DPoP proofs (RFC 9449): a client signs a short-lived proof for one HTTP request, and a
verifier accepts each proof at most once. This project models the parts of Keylix on which that promise
rests and proves it over whole runs, including runs with failing I/O, killed processes and power losses.

| files | what they model |
|---|---|
| `Text`, `PercentEncoding`, `DotSegments`, `RequestTarget` | normalisation of request targets (RFC 3986, sections 5.2.4, 6.2.2, 6.2.3) |
| `ReplayLog`, `MemoryReplay` | what a replay store owes its callers, and the in-memory store |
| `MarkerFiles`, `ReplayMachine`, `CrashSafety`, `MarkerHistory`, `SelfReplay`, `StoreLimits`, `FileReplay` | the crash-safe file store: names and contents, a step machine of processes and a directory, its invariant, the origin of markers and answers, its limits, and the code as a class whose every directory call is a step of that machine |
| `DpopProof`, `Acceptance` | building and verifying proofs, replay keys, at-most-once acceptance |
| `NonceStores`, `VerifierApp`, `ServiceRuns`, `NonceFlow` | nonce state, the verifier application with sender binding, its whole runs, the client's single retry |
| `PeerIpc`, `Framing` | authenticated frames between host and verifier, and their newline framing |
| `UniqueJson`, `ArmorScan`, `Forwarded` | duplicate-member rejection, the chunked key-armor scan, the `Forwarded` parser |

## How to read the model

- A Dafny `char` is one byte of the source's text. Integers are unbounded; the source's `i64` times are the
  subset type `I64`, and its checked additions are explicit bounds.
- Clocks, random bytes, signatures, hashes, MACs, base64url, the JSON reader and IPv6 printing are
  arguments. What a proof needs of them is a hypothesis of the lemma that needs it (`V6Canonical`,
  `Base64`, `ReadsBack`, `MacSized`, `CollisionFree`, `Ideal`), never a global fact.
- A digest into 32 bytes cannot be injective on all strings, so the at-most-once results assume nothing
  about it, and the completeness results assume only that no two identities of the run collide.
- The disk keeps two directories and two contents for each file: what the kernel shows and what a power
  loss would leave. The kernel may write back any entry, or any torn version of a dirty file, at any
  moment. A call that reports an error may or may not have taken effect. Clock readings never decrease in
  the order in which calls take the store's lock; a process may be killed, and power may fail, between
  any two steps.
- Which directory calls of `FileReplay.Store` fail, and how, is decided by a schedule `io` outside the code, one entry for
  each call in order. Contracts that speak of a smooth stretch of it say what happens when the outside lets every call
  of that stretch succeed; the code has no say in that.
- `FileReplay.Store` is the code of one process. Its ghost fields hold the run of the machine so far, so
  every theorem about runs of the machine applies to it; interleavings with other processes are runs of the
  machine itself.

## Where the code and an expected property part

- A target is limited to 2048 bytes, and an empty path becomes `/`. A target of 2048 bytes that ends with its
  authority therefore has a normal form of 2049 bytes, unless normalisation shortens the authority (an escape
  of an unreserved byte, a default port, leading zeros of a port). That form is refused when it is normalised
  again; the builder puts it into a proof that the parser and the verifier refuse. The results say exactly
  when: see `RequestTarget.NormalizeTargetIdempotent`, `RequestTarget.IdempotentWhen`,
  `RequestTarget.LongTargetNotIdempotent`, `DpopProof.BuiltShape`, `DpopProof.BuiltAdmitted`.
- The file store writes a negative expiry with a minus sign and cannot read it back. Once such an expiry has
  been answered `Fresh`, every later answer of the directory is an error, over all failures, power losses and
  restarts, while the in-memory store goes on: `MarkerFiles.MarkerReads`, `StoreLimits.NegativeExpiryJams`,
  `FileReplay.StoresAgree`, `FileReplay.RunsAgree`, and at one input `FileReplay.StoresPart`. The verifier never records such an expiry:
  `DpopProof.ExpiryWindow`.
- When a call links its marker and the sync after it fails, its second attempt finds that marker and answers
  `Replay` for a key that was never presented before. `SelfReplay.FirstCallReplayed` is a run from an empty
  directory in which the very first call is answered so, `MarkerHistory.ReplayableWhen` says exactly when it can
  happen, and `FileReplay.Store.CheckAndRecord` gives the caller's condition: a call none of whose own directory
  calls failed never answers `Replay` for a key without a marker.
- A frame of exactly 65536 bytes is written but never read, because the reader's budget also has to hold
  the newline: `Framing.Exchange`. No sealed frame is that long: `Framing.SealedFramesCarried`.

## Model

| member | source | states |
|---|---|---|
| `CrashSafety.StepInv` | crates/keylix-verifier/src/replay.rs:157-313 | every step of every process, of the kernel and of a power loss keeps the invariant: markers complete and written back, answers on record, one lock holder |
| `CrashSafety.CrashSafe` | crates/keylix-verifier/src/replay.rs:245-313 | over every run with any number of processes, failures, kills and power losses, no key is declared fresh twice within its recorded expiry, and no call starts a third attempt |
| `CrashSafety.DurableBeforeFresh` | crates/keylix-verifier/src/replay.rs:283-301 | a step that answers Fresh starts with the marker already in the durable directory over a fully written-back file |
| `CrashSafety.FreshIsDurable` | crates/keylix-verifier/src/replay.rs:283-301 | at any moment of any run, a power loss leaves the whole marker of every key declared fresh whose expiry has not passed |
| `CrashSafety.MarkersComplete` | crates/keylix-verifier/src/replay.rs:172-204 | every marker visible after a power loss holds one complete expiry, readable whenever the clock and the markers found at the start were not negative |
| `CrashSafety.SingleWriter` | crates/keylix-verifier/src/replay.rs:68-90 | in every interleaving at most one process has a live store on the directory |
| `CrashSafety.PendingIsPrivate` | crates/keylix-verifier/src/replay.rs:157-170 | the pending file of a publication in progress is removed by the publishing process or lost with the power, by nothing else |
| `CrashSafety.MarkersRemovedOnlyExpired` | crates/keylix-verifier/src/replay.rs:206-238 | a marker disappears only in the cleanup of a call, or before its key is recorded anew, and only after its expiry; startup scavenging never removes one |
| `FileReplay.Store.Open` | crates/keylix-verifier/src/replay.rs:45-66 | a store that opened holds the instance lock, left no pending file, kept every other file, added at most the lock file and answered nothing; a capacity of zero is refused; otherwise it opens whenever no directory call fails and nobody holds the lock |
| `FileReplay.Store.AcquireInstanceLock` | crates/keylix-verifier/src/replay.rs:68-90 | creating or opening the lock file and locking it are steps of the machine; failure leaves the process without the lock, and a free lock is taken whenever no directory call fails |
| `FileReplay.Store.CleanupStartupPending` | crates/keylix-verifier/src/replay.rs:157-170 | on success all pending files are gone and every other file is as before, and it succeeds whenever no directory call fails |
| `FileReplay.Store.CleanupAndCount` | crates/keylix-verifier/src/replay.rs:206-238 | on success every file is a lock, pending or readable marker file, exactly the expired markers are gone and the count is the number of markers in force; without failed calls it fails only on a strange or unreadable file, and such files stay |
| `FileReplay.Store.Stage` | crates/keylix-verifier/src/replay.rs:283-290 | writing in any pieces, syncing and linking leaves the complete text under both names, or reports failure |
| `FileReplay.Store.Finish` | crates/keylix-verifier/src/replay.rs:291-301 | the two directory syncs around the unlink end in a Fresh answer and the pending name gone, or in the recovery path |
| `FileReplay.Store.Abandon` | crates/keylix-verifier/src/replay.rs:303-309 | a failed publication is repeated exactly in the first attempt and when the kernel reports the marker, and otherwise answered with an error; the pending file is removed and the directory synced whenever the kernel does so |
| `FileReplay.Store.CheckAndRecord` | crates/keylix-verifier/src/replay.rs:245-313 | every directory call is a step of the machine, the answers stay at most once and timely, and with a Fresh answer the whole directory is durable; in a directory with a strange file or an unreadable marker the answer is an error and those files stay; when the outside fails none of this call's directory calls, whatever failed before, the answer and the new directory are those of the in-memory rule on names and bytes, except that a publication fails when the random names of both attempts are those of left-over pending files; and then a key without a marker is never a replay |
| `FileReplay.StoresAgree` | crates/keylix-verifier/src/replay.rs:206-313 | a directory in order with one marker for each entry of a table gives the table's answer and stays in that correspondence, and it stays in order exactly when no negative expiry is answered Fresh |
| `FileReplay.RunsAgree` | crates/keylix-dpop/src/state.rs:108-132 | on every failure-free run the file store gives the in-memory store's answers until a negative expiry is answered Fresh and errors ever after; so the two agree throughout exactly when the in-memory store only refuses from there on |
| `FileReplay.StoresPart` | crates/keylix-dpop/src/state.rs:108-132 | the two do part: a key that lapses at -1, presented twice at -2 with room for one, is an error to the file store and a replay to the in-memory store |
| `FileReplay.RunBoth` | crates/keylix-dpop/src/state.rs:108-132 | driven side by side, the file store's code and the in-memory store's code give those answers call by call as long as no directory call has failed |
| `FileReplay.OpenedEmpty` | crates/keylix-verifier/src/replay.rs:45-66 | what opening leaves of an empty directory corresponds to an empty table |
| `FileReplay.OrderKeptIffNonNegative` | crates/keylix-verifier/src/replay.rs:245-301 | after a Fresh answer every marker is still readable exactly when the recorded expiry is not negative |
| `FileReplay.CoupledOrderly` | crates/keylix-verifier/src/replay.rs:172-204 | a directory with one marker for each entry of a table is in order exactly when no entry is negative |
| `StoreLimits.NegativeExpiryJams` | crates/keylix-verifier/src/replay.rs:206-313 | over every run with any failures, kills, power losses and restarts, every answer after a Fresh answer with a negative expiry is an error |
| `StoreLimits.JamStays` | crates/keylix-verifier/src/replay.rs:206-238 | no step takes an unreadable durable marker away or gets a call past it, and every answer meanwhile is an error |
| `StoreLimits.CapacityKept` | crates/keylix-verifier/src/replay.rs:206-301 | at every moment of every run at most as many markers are in force as the capacity, or as at the start if those were more, even when calls fail after their link |
| `MarkerHistory.MarkerOrigin` | crates/keylix-verifier/src/replay.rs:283-301 | every marker in the directory, now or after a power loss, was there at the start or is the complete text of an earlier call with its key and expiry |
| `MarkerHistory.ReplayOrigin` | crates/keylix-verifier/src/replay.rs:255-271 | a Replay answer rests on a readable marker in force that was there at the start or that an earlier call with that key wrote; in the second attempt it may be the call's own |
| `MarkerHistory.FirstSeenReplay` | crates/keylix-verifier/src/replay.rs:303-309 | a key never presented before and without a marker at the start is answered Replay only in the second attempt of its own call, on the marker its first attempt linked |
| `MarkerHistory.ReplayableWhen` | crates/keylix-verifier/src/replay.rs:255-309 | at its probe, such a key can be answered Replay exactly when the attempt is the second, the call's own marker is there and the expiry is not negative |
| `SelfReplay.FirstCallReplayed` | crates/keylix-verifier/src/replay.rs:45-309 | that does happen: from an empty directory, for every key and every expiry that is neither negative nor past, there is a run whose first and only answer is Replay |
| `SelfReplay.LostSync` | crates/keylix-verifier/src/replay.rs:291-309 | from a failed sync after the link there is a run to that answer |
| `MarkerFiles.BuildName` | crates/keylix-verifier/src/replay.rs:107-115 | the loop over the key's bytes yields the lower-case hexadecimal name |
| `MarkerFiles.HexRoundTrip` | crates/keylix-verifier/src/replay.rs:107-115 | decoding the name of any bytes gives the bytes back |
| `MarkerFiles.NamesAreKeys` | crates/keylix-verifier/src/replay.rs:107-115 | marker names and replay keys correspond one to one |
| `MarkerFiles.NamesDisjoint` | crates/keylix-verifier/src/replay.rs:117-141 | marker, pending and lock names never coincide |
| `MarkerFiles.MarkerReads` | crates/keylix-verifier/src/replay.rs:172-204 | what is written for an expiry reads back as that expiry exactly when it is not negative, and not at all otherwise |
| `MarkerFiles.ReadsExactly` | crates/keylix-verifier/src/replay.rs:172-204 | a file reads as an expiry exactly when it is 1 to 32 bytes of decimal digits of that value, with or without a newline |
| `MarkerFiles.PendingNames` | crates/keylix-verifier/src/replay.rs:117-141 | the pending names recognised are exactly those the store gives |
| `MarkerFiles.MarkerTextInjective` | crates/keylix-verifier/src/replay.rs:284 | different expiries leave different markers |
| `MemoryReplay.InMemoryReplayStore.New` | crates/keylix-dpop/src/state.rs:72-82 | capacity zero is refused; otherwise the store starts empty |
| `MemoryReplay.InMemoryReplayStore.CheckAndRecord` | crates/keylix-dpop/src/state.rs:108-132 | the answer and the new entries are those of the retain, probe, capacity, insert rule |
| `MemoryReplay.StepFaithful` | crates/keylix-dpop/src/state.rs:108-132 | one call with a later clock reading keeps the store faithful: nothing fresh twice, all records in force held, nothing invented, capacity respected |
| `MemoryReplay.PlaySafe` | crates/keylix-dpop/src/state.rs:108-132 | every run with clock readings in lock order is faithful |
| `MemoryReplay.PlayDecides` | crates/keylix-dpop/src/state.rs:108-132 | every answer of a run is the one its history dictates: replay exactly when the key was declared fresh within a record still in force, refusal exactly for a stale expiry or as many keys in force as the capacity, fresh otherwise |
| `ReplayLog.AppendEvent` | crates/keylix-dpop/src/ports.rs:159-172 | what one more answer must satisfy for the log to stay at most once and timely |
| `DpopProof.DeriveReplayKey` | crates/keylix-dpop/src/proof.rs:570-593 | the extended buffer is the length-prefixed material of the four parts, and its digest is the key |
| `DpopProof.IdentityMaterial` | crates/keylix-dpop/src/proof.rs:570-588 | the material is thumbprint, method, target and identifier in that order, each behind its eight-byte length |
| `DpopProof.BigEndianReads` | crates/keylix-dpop/src/proof.rs:577-584 | those eight bytes are the length, most significant first |
| `DpopProof.KeyedWhen` | crates/keylix-dpop/src/proof.rs:570-593 | there is a key exactly when each part is shorter than two to the sixty-fourth |
| `DpopProof.MaterialInjective` | crates/keylix-dpop/src/proof.rs:570-588 | equal length-prefixed material means equal parts, also between different numbers of parts |
| `DpopProof.IdentityMaterialInjective` | crates/keylix-dpop/src/proof.rs:570-588 | equal material means equal thumbprint, method, target and identifier |
| `DpopProof.Verify` | crates/keylix-dpop/src/proof.rs:341-425 | every check in the source's order with its error; the store is touched only after all of them, with the proof's own expiry |
| `DpopProof.AdmitsExactly` | crates/keylix-dpop/src/proof.rs:341-416 | the store is asked exactly when type, algorithm, signature, method, target, time window, nonce and token hash all hold, and it is asked with the digest of the identity and the end of the age window |
| `DpopProof.SignatureRefusals` | crates/keylix-dpop/src/proof.rs:350-365 | the algorithm, signature and key errors, each exactly when its check is the first to fail |
| `DpopProof.BindingRefusals` | crates/keylix-dpop/src/proof.rs:367-380 | the method, target and clock errors, each exactly when its check is the first to fail |
| `DpopProof.TimeRefusals` | crates/keylix-dpop/src/proof.rs:544-557 | expired exactly when now is past issue plus age, from the future exactly when issue is past now plus skew, with all earlier checks holding; and malformed exactly for a wrong type, a non-positive issue time or an oversized identity |
| `DpopProof.NonceRefusals` | crates/keylix-dpop/src/proof.rs:382-408 | missing and wrong nonce, missing and wrong token hash, and a window that ends past the last time, each exactly when its check is the first to fail |
| `DpopProof.ShapeLimits` | crates/keylix-dpop/src/proof.rs:486-506 | the limits of the parser on the claims, each by itself |
| `DpopProof.PoliciesMade` | crates/keylix-dpop/src/proof.rs:197-209 | the policies that can be made are those with two non-negative 64-bit values |
| `DpopProof.MethodExactly` | crates/keylix-dpop/src/request.rs:117-148 | a method is 1 to 64 visible characters without the delimiters of section 5.6.2 of RFC 9110 |
| `DpopProof.BuildsExactly` | crates/keylix-dpop/src/proof.rs:265-313 | when the builder succeeds, what stands in the proof, and each of its errors |
| `DpopProof.ExpiryWindow` | crates/keylix-dpop/src/proof.rs:398-416 | the recorded expiry lies between now and now plus age plus skew, is positive, and is the last second at which this proof is still fresh |
| `DpopProof.BuiltShape` | crates/keylix-dpop/src/proof.rs:486-506 | what the builder emits passes the parser's shape check exactly when the target is within 2048 bytes |
| `DpopProof.BuiltAdmitted` | crates/keylix-dpop/src/proof.rs:265-313 | what the builder emits passes every check before the store exactly when the target is within 2048 bytes, the clock is within the freshness window and the end of the window is a 64-bit time |
| `DpopProof.BuildThenVerify` | crates/keylix-dpop/src/proof.rs:265-313 | within those limits the verifier accepts, reporting the builder's key and time, exactly when the store's own clock is not past the window, the identity is not held and there is room |
| `Acceptance.AcceptancesApart` | crates/keylix-dpop/src/proof.rs:398-416 | two acceptances with the same key, method, target and identifier are separated by the end of the first proof's age window |
| `Acceptance.ProofAcceptedOnce` | crates/keylix-dpop/src/proof.rs:341-425 | against any store with a sound log, one proof is accepted at most once, for whatever requests it is presented with |
| `Acceptance.MemoryAcceptedOnce` | crates/keylix-dpop/src/state.rs:108-132 | so it is with the in-memory store and clock readings in lock order |
| `Acceptance.StoreRefusals` | crates/keylix-dpop/src/proof.rs:409-416 | over runs with the in-memory store, a proof that passed all other checks is a detected replay exactly when its key was accepted before within a record in force, finds the store unavailable exactly when its record would be stale or as many keys are in force as the capacity, and is accepted otherwise |
| `Acceptance.CrashAcceptedOnce` | crates/keylix-verifier/src/replay.rs:245-313 | so it is with the file store over kills and power losses, even when answers are lost with the process that asked |
| `Acceptance.UnusedIdentityIsFree` | crates/keylix-dpop/src/proof.rs:570-593 | an identity that a run never presented is not held after it, if the run's identities do not collide under the digest |
| `PercentEncoding.NormalizePercentEncoding` | crates/keylix-dpop/src/request.rs:256-302 | the index loop computes the rendering of the canonical tokens and fails exactly on malformed escapes |
| `PercentEncoding.CanonicalForm` | crates/keylix-dpop/src/request.rs:256-302 | two valid strings normalise alike exactly when their tokens agree up to hexadecimal case and escapes of unreserved bytes |
| `PercentEncoding.ReservedStaysEscaped` | crates/keylix-dpop/src/request.rs:272-286 | replacing the escape of any byte but letters, digits, '-', '.', '_', '~' and '%' by its literal always changes the normal form |
| `PercentEncoding.EscapeDecides` | crates/keylix-dpop/src/request.rs:256-302 | from the text: an escape in either case of its digits becomes the character exactly for letters, digits, '-', '.', '_' and '~', and otherwise the escape with upper-case digits |
| `PercentEncoding.LiteralKept` | crates/keylix-dpop/src/request.rs:256-270 | from the text: any character but a percent sign is kept |
| `PercentEncoding.BrokenEscape` | crates/keylix-dpop/src/request.rs:261-271 | from the text: a percent sign without two hexadecimal digits spoils everything |
| `PercentEncoding.CharacterClasses` | crates/keylix-dpop/src/request.rs:284-286 | the unreserved bytes are the visible ones that are neither reserved in section 2.2 of RFC 3986 nor excluded from URIs |
| `PercentEncoding.RenderRoundTrip` | crates/keylix-dpop/src/request.rs:288-302 | reading back rendered tokens gives the tokens |
| `PercentEncoding.NormalizeIdempotent` | crates/keylix-dpop/src/request.rs:256-302 | a normalised string normalises to itself |
| `PercentEncoding.NormalizeBounds` | crates/keylix-dpop/src/request.rs:256-302 | normalisation never lengthens, never empties, and adds only unreserved characters |
| `PercentEncoding.RegNameForm` | crates/keylix-dpop/src/request.rs:242-245 | the two passes of host normalisation amount to lowering the literals of the canonical tokens |
| `PercentEncoding.RegNameIdempotent` | crates/keylix-dpop/src/request.rs:242-245 | a normalised host normalises to itself |
| `DotSegments.RemoveDotSegments` | crates/keylix-dpop/src/request.rs:304-339 | the draining loop ends and equals the join of the segment stack, for every path that starts with a slash |
| `DotSegments.RemoveLastSegment` | crates/keylix-dpop/src/request.rs:341-347 | the output is cut at its last slash, or emptied when there is none |
| `DotSegments.RemoveDotsShape` | crates/keylix-dpop/src/request.rs:304-339 | the result starts with a slash, has no dot segment, is no longer than the path and holds no new character |
| `DotSegments.RemoveDotsIdempotent` | crates/keylix-dpop/src/request.rs:304-339 | removing dot segments again changes nothing |
| `DotSegments.SplitJoin` | crates/keylix-dpop/src/request.rs:304-339 | splitting joined segments gives the segments back |
| `DotSegments.JoinSplit` | crates/keylix-dpop/src/request.rs:304-339 | joining split segments gives the path back |
| `DotSegments.RemoveDotsCanonical` | crates/keylix-dpop/src/request.rs:187-192 | removing dot segments from a percent-normalised path leaves a percent-normalised path |
| `RequestTarget.DissectNormal` | crates/keylix-dpop/src/request.rs:150-254 | every accepted target comes apart into a normal scheme, host, port and path, and printing them adds at most one byte for a registered name |
| `RequestTarget.NamedTarget` | crates/keylix-dpop/src/request.rs:150-254 | from the text: a scheme in any case, a registered name, a port, a path and a query or fragment are refused exactly for an empty or malformed host, a malformed or too large port or a malformed path, and otherwise become the lower-case scheme, the normal host, the port unless it is the default, and the path without dot segments |
| `RequestTarget.BracketTarget` | crates/keylix-dpop/src/request.rs:150-254 | from the text: the same for a bracketed literal |
| `RequestTarget.AcceptedText` | crates/keylix-dpop/src/request.rs:150-254 | every accepted target is of one of these two forms, visible and within 2048 bytes |
| `RequestTarget.PrintRoundTrip` | crates/keylix-dpop/src/request.rs:150-254 | normal components printed within 2048 bytes are read back as the same components |
| `RequestTarget.NormalizeTargetIdempotent` | crates/keylix-dpop/src/request.rs:150-202 | the normal form of any accepted target normalises to itself exactly when it is within 2048 bytes |
| `RequestTarget.IdempotentWhen` | crates/keylix-dpop/src/request.rs:150-202 | for a registered name that is exactly when the given target has fewer than 2048 bytes, or a path, query or fragment follows the authority, or the authority as given has an escape of an unreserved byte, the default port or leading zeros of a port |
| `RequestTarget.AuthorityShrinks` | crates/keylix-dpop/src/request.rs:221-254 | normalisation shortens the authority of a registered name exactly when its text has one of these |
| `PercentEncoding.RegNameShortens` | crates/keylix-dpop/src/request.rs:242-245 | host normalisation shortens a host exactly when it has an escape of an unreserved byte |
| `RequestTarget.NormalFormsDistinguish` | crates/keylix-dpop/src/request.rs:150-202 | normal forms of accepted targets of any size are equal exactly when scheme, host, port and path are |
| `RequestTarget.PrintInjective` | crates/keylix-dpop/src/request.rs:192-202 | normal components print differently unless they are the same, whatever their size |
| `RequestTarget.LongTargetNotIdempotent` | crates/keylix-dpop/src/request.rs:150-202 | the bound is needed: a host of 2041 letters is accepted and its normal form refused |
| `VerifierApp.VerifierApplication.DemandNonce` | crates/keylix-verifier/src/lib.rs:281-294 | the nonce demanded and the nonce state follow the policy: the one in force, else one newly issued, else unavailable; a store that cannot be read is unavailable and unchanged |
| `VerifierApp.VerifierApplication.Verify` | crates/keylix-verifier/src/lib.rs:206-279 | result, replay entries and nonce state are those of the functional account of one request |
| `VerifierApp.VerifiedExactly` | crates/keylix-verifier/src/lib.rs:206-279 | a binding is reported exactly when the request is intact, its proof passes every check for this method, target, token and nonce, the store answers fresh, and the proof's key is the one the token confirms; the binding names that key |
| `ServiceRuns.VerifiedOnce` | crates/keylix-verifier/src/lib.rs:206-279 | over every run of the application with the in-memory store, of two calls that present the same proof at most one is accepted, whatever else they carry |
| `ServiceRuns.VerifiedOnceOnDisk` | crates/keylix-verifier/src/main.rs:173-198 | so it is with the file store that the service runs on, over failures, kills, power losses and restarts that lose the nonce state |
| `ServiceRuns.AcceptedOnce` | crates/keylix-verifier/src/lib.rs:206-279 | so it is with any replay store whose log is at most once and timely |
| `ServiceRuns.AcceptedApart` | crates/keylix-verifier/src/lib.rs:206-279 | two accepted requests with the same key, method, target and identifier, even in different proofs, are separated by the end of the first proof's age window, over any replay store whose log is at most once |
| `ServiceRuns.AcceptedApartOnDisk` | crates/keylix-verifier/src/main.rs:173-198 | so it is with the file store |
| `ServiceRuns.AttemptsPlayed` | crates/keylix-verifier/src/lib.rs:206-252 | what the replay store sees of a run of the application is a run of the store, with the same entries at the end |
| `VerifierApp.RequestRejections` | crates/keylix-verifier/src/lib.rs:206-238 | unsupported version, malformed request, unavailable nonce state and invalid proof are reported exactly for their causes |
| `VerifierApp.ProofRejections` | crates/keylix-verifier/src/lib.rs:297-321 | target, method, stale, future, clock, token-hash and nonce failures are reported exactly for the verifier's error of that kind |
| `VerifierApp.BindingRejections` | crates/keylix-verifier/src/lib.rs:254-279 | replay, unavailable store, missing binding, malformed binding and key mismatch are reported exactly for their causes, and an internal failure never |
| `VerifierApp.ChallengeCarried` | crates/keylix-verifier/src/lib.rs:240-252 | exactly the two nonce failures carry a nonce, and it is the one demanded |
| `VerifierApp.NonceDemanded` | crates/keylix-verifier/src/lib.rs:281-294 | no nonce without a policy; otherwise the one in force, or a new one if there is room and the generator works |
| `VerifierApp.ServeInserts` | crates/keylix-verifier/src/lib.rs:206-279 | a request records exactly one marker if its result is success, a missing or malformed binding or a key mismatch, and none otherwise |
| `VerifierApp.MarkersConserved` | crates/keylix-verifier/src/lib.rs:206-279 | over every run the markers inserted equal the number of those results |
| `VerifierApp.NoIdentityMismatch` | crates/keylix-oauth/src/binding.rs:212-240 | the application never reports a token identity mismatch |
| `VerifierApp.ServeNonce` | crates/keylix-verifier/src/lib.rs:206-294 | a nonce in force is never replaced, a nonce failure always carries a challenge, and a challenge carries the nonce in force |
| `VerifierApp.NonceIssuedOnce` | crates/keylix-verifier/src/lib.rs:281-294 | at most one step of a run issues the nonce of the context |
| `VerifierApp.ChallengesAgree` | crates/keylix-verifier/src/lib.rs:206-294 | all challenges of a run carry the same nonce |
| `VerifierApp.CarriedNoncePasses` | crates/keylix-dpop/src/proof.rs:559-568 | a proof that carries the nonce in force is not rejected for its nonce |
| `VerifierApp.ChallengeSettles` | crates/keylix-verifier/src/lib.rs:206-294 | after a challenge, proofs that carry its nonce are never rejected for their nonce in the rest of the run |
| `NonceFlow.OneRetrySettles` | crates/keylix-oauth/src/client.rs:254-316 | a client that records one challenge builds proofs that are never again rejected for their nonce, and a second challenge is refused and changes nothing |
| `NonceFlow.SendsExactly` | crates/keylix-oauth/src/client.rs:254-279 | when a protected-resource request is sent, with which nonce, and each reason why it is not |
| `NonceStores.InMemoryServerNonceStore.New` | crates/keylix-dpop/src/state.rs:393-403 | capacity zero is refused; otherwise the store starts empty |
| `NonceStores.InMemoryClientNonceStore.New` | crates/keylix-dpop/src/state.rs:249-258 | capacity zero is refused; otherwise the store starts empty |
| `NonceStores.InMemoryServerNonceStore.IssueNonce` | crates/keylix-dpop/src/state.rs:455-463 | a known context is updated, a new one needs room, and a failure changes nothing |
| `NonceStores.InMemoryClientNonceStore.RecordChallenge` | crates/keylix-dpop/src/state.rs:285-321 | a known context is updated, a new one needs room, and a refusal changes nothing |
| `NonceStores.InMemoryClientNonceStore.RecordSuccess` | crates/keylix-dpop/src/state.rs:323-333 | a response without a nonce never changes what is held |
| `NonceStores.NonceRetryBudget.Consume` | crates/keylix-oauth/src/retry.rs:27-33 | one retry is taken from the budget, or the budget is empty and stays so |
| `NonceStores.RecordNonceChallenge` | crates/keylix-oauth/src/client.rs:304-316 | an exhausted budget leaves the nonce state unchanged; otherwise one retry is spent whether or not the store has room |
| `NonceStores.RetriesBounded` | crates/keylix-oauth/src/client.rs:304-316 | over any sequence of challenges, those recorded never exceed the budget, each challenge spends one retry, and once the budget is spent the state is fixed |
| `NonceStores.ChallengeExactly` | crates/keylix-oauth/src/client.rs:304-316 | a challenge is refused exactly by a spent budget, and recorded exactly when its context is known or there is room |
| `PeerIpc.LoadPeers` | crates/keylix-verifier/src/lib.rs:422-459 | loading succeeds exactly on 1 to 16384 bytes that read as a document of this version with one to sixteen peers with valid, distinct identifiers and canonical 32-byte secrets, and keeps them in order |
| `PeerIpc.MacInputInjective` | crates/keylix-verifier/src/lib.rs:627-641 | the bytes under the MAC determine domain, peer, correlation and payload |
| `PeerIpc.SealedFits` | crates/keylix-verifier/src/lib.rs:582-617 | every sealed frame is within the envelope limit with a byte to spare |
| `PeerIpc.SealsExactly` | crates/keylix-verifier/src/lib.rs:582-594 | a payload is sealed exactly when it has 1 to 32768 bytes and the peer is known; a wrong size is malformed, an unknown peer unauthorised |
| `PeerIpc.SealedText` | crates/keylix-verifier/src/lib.rs:595-641 | the text of a sealed frame and the bytes under its MAC, written out |
| `PeerIpc.SealOpens` | crates/keylix-verifier/src/lib.rs:538-606 | every such payload opens, in its domain, to the peer, correlation and payload that were sealed |
| `PeerIpc.OpensExactly` | crates/keylix-verifier/src/lib.rs:538-580 | a frame opens exactly when it is a well-formed envelope of a known peer with the right MAC, and to what it says |
| `PeerIpc.OpenRefusals` | crates/keylix-verifier/src/lib.rs:538-580 | a frame is malformed exactly when it is not a well-formed envelope |
| `PeerIpc.PlainClass` | crates/keylix-verifier/src/lib.rs:619-625 | identifiers hold letters, digits, '-', '_' and '.', and no other visible character |
| `PeerIpc.OpenedRequestWasAsked` | crates/keylix-verifier/src/lib.rs:466-473 | with ideal MACs a request that opens was sealed by a client with that peer, correlation and payload, and a response never opens as a request |
| `PeerIpc.AcceptedIsGenuine` | crates/keylix-verifier/src/lib.rs:526-536 | with distinct correlations a response matched to a request was made for that request's peer, correlation and payload |
| `PeerIpc.ResponsesCorrelate` | crates/keylix-verifier/src/lib.rs:466-659 | in every run over a network that drops, reorders, repeats and invents frames, accepted responses are genuine and no request gets two |
| `Framing.ReadFrame` | crates/keylix-verifier/src/main.rs:352-387 | whatever the read sizes, a frame that is returned is the first line, ends within the limit, and nothing after it was taken; a stream of one line within the limit is always returned |
| `Framing.WriteAll` | crates/keylix-verifier/src/main.rs:400-418 | whatever the write sizes, all bytes go out in order, or a failed call leaves a proper prefix |
| `Framing.WriteFrame` | crates/keylix-verifier/src/main.rs:389-398 | empty and oversized frames are refused before anything is written; otherwise the frame and a newline go out |
| `Framing.Exchange` | crates/keylix-verifier/src/main.rs:352-418 | under any schedules of partial writes and reads a frame comes back exactly when it has 1 to 65535 bytes, no newline and no carriage return at its end |
| `Framing.UnframeExactly` | crates/keylix-verifier/src/main.rs:375-383 | one carriage return at the end of a line is dropped, and an empty frame is none |
| `Framing.ReadCarriage` | crates/keylix-verifier/src/main.rs:352-387 | a frame followed by a carriage return and a newline reads back as the frame, whatever the read sizes |
| `Framing.SealedFramesCarried` | crates/keylix-verifier/src/lib.rs:582-617 | every sealed frame is such a frame |
| `UniqueJson.CheckUnique` | crates/keylix-dpop/src/proof.rs:684-705 | the pass with a growing set of seen names accepts exactly the documents without a repeated member at any depth |
| `UniqueJson.AcceptedIffUnambiguous` | crates/keylix-dpop/src/proof.rs:595-705 | a document is accepted exactly when no path leads to two values |
| `UniqueJson.OneNodePerPath` | crates/keylix-dpop/src/proof.rs:595-705 | in an accepted document a first-wins and a last-wins lookup both find the only value at a path, or none |
| `UniqueJson.PoliciesAgree` | crates/keylix-dpop/src/proof.rs:95-106 | first-wins and last-wins parsers agree on every path of an accepted document |
| `UniqueJson.ReserializedLookup` | crates/keylix-dpop/src/proof.rs:104-106 | what is written out again through a sorted map holds at every path what a last-wins parser reads, for every document |
| `UniqueJson.ReserializedAsSigned` | crates/keylix-dpop/src/proof.rs:95-106 | after an accepted check the key that is parsed again is the key in the signed header at every path, whatever the two parsers' policies |
| `UniqueJson.ReserializedUnique` | crates/keylix-dpop/src/proof.rs:104-106 | what is written out again has no duplicate members |
| `ArmorScan.Scan` | scripts/check_publication.py:43-51 | for every file and every sequence of read sizes the scan reports a marker exactly when the whole file holds one, for markers of 1 to 101 bytes |
| `ArmorScan.ContainsPrivateArmor` | scripts/check_publication.py:23-51 | the scan reports exactly the files that hold one of the seven armor lines of the pattern, each written out |
| `ArmorScan.HoldsMeans` | scripts/check_publication.py:47-48 | a file holds a line when it is some text, the line and some text |
| `ArmorScan.ArmorFits` | scripts/check_publication.py:23-26 | every string that the pattern matches has 27 to 37 bytes |
| `ArmorScan.OverlapSuffices` | scripts/check_publication.py:27-28 | an overlap of n bytes is enough for a marker, however the file is cut, exactly when the marker has at most n + 1 bytes |
| `Forwarded.ParseSingleForwarded` | crates/keylix-http/src/lib.rs:227-262 | the loop with its two optional values equals the fold over the parameters, error by error |
| `Forwarded.ParseDecides` | crates/keylix-http/src/lib.rs:227-284 | parsing succeeds exactly when the value is within limits, every parameter is well formed and exactly one proto and one host occur, with those values; missing metadata is reported exactly when one is absent and none repeated |
| `Forwarded.ParamExactly` | crates/keylix-http/src/lib.rs:236-250 | a parameter is read exactly when it is a token, an equals sign and a value with whitespace around them only, and as that name and value |
| `Forwarded.ParseWritten` | crates/keylix-http/src/lib.rs:227-262 | parsing written parameters gives back the values written for proto and host exactly when there is one of each, in any case of the names |
| `Forwarded.WalkRefuses` | crates/keylix-http/src/lib.rs:234-257 | the first wrong parameter decides: malformed is invalid, a second proto or host is ambiguous |
| `Forwarded.RefusalReasons` | crates/keylix-http/src/lib.rs:227-284 | empty, too long, non-ASCII and blank values are invalid, and otherwise a comma, quote or backslash makes a value ambiguous |
| `Forwarded.OrderIrrelevant` | crates/keylix-http/src/lib.rs:227-262 | reordering the parameters changes neither success, nor the pair, nor the report of missing metadata |
| `Forwarded.TrimThenSplit` | crates/keylix-http/src/lib.rs:275-284 | trimming the value before it is split does not matter to the trimmed parameters |

## Left out

- Cryptography: signatures, SHA-256, HMAC and random bytes are function arguments with stated hypotheses.
- The base64url and JSON libraries: proofs and envelopes are modelled decoded, and the codec is an argument; the recursion limit of the JSON parser and the decoded-size limits of a compact proof are not modelled.
- IPv6 literals: parsing and printing are one function argument assumed to be canonical on its own output; the one-byte length bound is stated for registered names only.
- File metadata checks (owner, mode, size of the lock and pending files): a directory call that fails for such a reason is one of the failures that the model allows at every call.
- The limits on nonces, proof identifiers and nonce server names at their constructors: those are hypotheses where a result needs them.
- Lock poisoning of the replay store and of the client's nonce store, clock errors inside a store, and overflow of the marker count: not modelled; the in-memory store's clock reading is an argument of the call.
- Concurrent calls inside one process: the operation mutex makes them sequential, and the model has one call at a time for each process.
- Deadlines and timeouts of the socket loop, argument parsing and socket setup.
- MACs are ideal for every peer key, so a peer that misuses its own key is outside the response-correlation result.
- The token endpoint, refresh tokens and token-response checks of the client: they call the same builder with the same nonce store as the protected-resource request.
- The `X-Forwarded` family and the assembly of a target from forwarded parts: straight-line checks in front of `normalize_http_uri`.
- JWK validation and thumbprints, telemetry, evidence, debug output, the rmcp transport and the MCP adapter.
- Acceptance.CrashAcceptedOnce: the verifier's attempts see a selection of the directory's answers, because an answer that is lost with a killed process is seen by nobody.
- Forwarded.OrderIrrelevant: which of the two errors for invalid and for ambiguous metadata is reported does depend on the order when both occur.
