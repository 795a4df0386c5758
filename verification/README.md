# Contract signing, rate limiting and sessions of the invoice server

A Dafny model of the stateful parts of the server, with proofs about all their runs.

- **Signing** (`Tables`, `Signing`, `SigningInvariant`, `SigningTheorems`, `LostUpdate`, `Stranded`, `Signable`,
  `Expiry`, `Sequential`, `Answers`, `Database`). `sign_contract` is a sequence of separately committed SQL statements. The model is a transition
  system: shared tables, any number of handlers, one statement a step, and any handler may stop between two steps.
  `SigningInvariant` proves one invariant of every step; the theorems are about every run. `Database.Store` is the
  same code on mutable tables, and `Sequential` shows that requests served one at a time keep, per contract, the set
  of its signed slots; `Answers` says column by column what a creation and a request store and answer.
- **Verification** (`Crypto`, `Hex`, `Verify`, `Authenticity`, `Edits`). The signed message and the hashed text of the final
  hash, and what the proof page shows of rows that the signing protocol wrote, before an edit of the text, after it,
  and after a run that goes on from the edit.
- **Migration** (`Migration`). The conversion of one-signature contracts to slots starts runs of the protocol.
- **Rate limiter** (`RateLimit`, `RateLimitRuns`, `Requests`). The shared map with its cleanup, bounds over whole runs,
  and the handlers that share it: login, setup, the public contract pages and signing.
- **Sessions** (`Sessions`, `SessionTheorems`, `Rotations`, `Rfc3339`, `Rfc3339Reader`). Tokens, their tables and handlers; expiry is
  decided by comparing RFC 3339 texts of different lengths as text. `Rotations` interleaves two refreshes, or a
  refresh and a logout, statement by statement.
- **Text and money** (`LineItems`, `Invoices`). The line-item parser and printer; two computations of one total.

`Wrappers` holds Option and Result, `Sets` two facts on finite sets. `dafny verify dfyconfig.toml` checks everything.

## Reading the model

- Cryptography, token formats, password hashes and number printing are function values (`Primitives`, `Env`,
  `Passwords`, `Numbers`). What a theorem needs of them is a stated hypothesis (`Sound`): signatures made with a key
  verify, SHA-256 gives 32 bytes, a printed number reads back; `Crypto.SoundIsMet` and `LineItems.SoundIsMet` show that
  these hypotheses can be met. No theorem assumes that hashes never collide or that
  nothing else verifies: outputs of a fixed size cannot be injective on texts of any length. Where that matters the
  collision is an alternative in the conclusion. The repository's own README.md (line 17) speaks of
  ECDSA; the code uses Ed25519 (src/crypto.rs:1), and the model needs only sizes and sign/verify correctness.
- Clock readings and random draws are parameters (`Draw`). In the signing protocol they are unrestricted; the limiter's
  interval results take a nondecreasing clock (`Sorted`).
- A run of the signing protocol starts from a state without handlers whose counts are exact (`AtRest`), such as the
  empty database or the migrated tables. What a theorem says of signatures and hashes is stated per row and per
  contract, so rows and contracts from before the run do not spoil it for the others. `writers` records, per contract, the slots whose handler has done its final
  contract write.
- A database failure, a lost connection or a cancelled request is a handler that stops (`Stop`).

## What turned out false, and when it holds

- `completed_signatures` is not always the number of signers who got an answer, and a contract whose slots are all
  signed need not become "signed". `LostUpdate.OverlapLosesOne` is the run, with all its
  continuations; `SigningTheorems.SignedExactly` and
  `SigningTheorems.CompletedCountsSigners` say exactly when it does; `SigningTheorems.LostForEver` shows the loss is
  final. The safety claims ("signed" is final, complete and verifiable) hold in all runs all the same.
- A pending contract need not be signable any more. `Signable.SignableExactly`, for every state of every run: some
  further requests sign the contract iff completed_signatures equals the number of its signature rows, or is one short
  of it and a handler between its insert and its contract write holds a copy with the stored count. Once it has
  expired with slots unsigned, only a last slot can still be signed, by a handler already past the expiry check
  (`Expiry.SignableAtAnyTime` has both cases). With no such handler the tables alone tell (`Signable.SignableAtRest`), and after
  the migration a pending contract can be signed iff it had no signature row and has not expired (`Migration.MigratedSignableExactly`).
  `LostUpdate.OverlapLosesOne` and `LostUpdate.StoppedSigner` are the runs that spoil a contract, by overlapping and by
  stopping between insert and contract write.
- Preimages of the final hash with different numbers of signatures can coincide (`Crypto.CoincidingPair`);
  `Crypto.PreimagesCoincide` says exactly when. For equally many they cannot.
- A refresh whose revoke fails leaves the old token live (`SessionTheorems.RefreshSpends`), and of two overlapping
  refreshes with one token both can succeed: `Rotations.OverlapForks` gives the exact condition on the interleaving
  of their statements, `Rotations.BothOrders` two interleavings with and without it.
- A logout does not stop a refresh that has already looked the token up (`Rotations.RefreshOutrunsLogout`).
- A successful login is not the only thing that resets an address's failure count: one limiter serves every route, and
  a contract request with the right customer UUID, or the setup, resets it too (src/main.rs:103-140,
  src/handlers/contracts.rs:381, 493, 736, 868, src/handlers/auth.rs:444). So wrong passwords since the last successful
  login are not bounded (`Requests.GuessesUnlimited`); they are when no such request has come since
  (`Requests.GuessesLimited`), and failures since the last reset of any kind always are (`Requests.FailuresLimited`).
- Contracts signed before the migration have no final hash, and verification reports it invalid; after any run exactly
  these lack one (`Migration.HashMissingIsLegacy`).
- The first-user setup is not limited to one user when two overlap: `SessionTheorems.OverlappingSetUps`.
- Parsing, printing and parsing line items again loses an item with a blank label, and only such an item
  (`LineItems.ParseFormatParse`, `LineItems.BlankLabelLost`). Items stored otherwise survive the editor iff their labels
  are trimmed, not blank, and free of colons and line breaks (`LineItems.StoredItemsSurvive`).

## Model

| member | source | states |
|---|---|---|
| SigningInvariant.CreateKeepsTables | src/handlers/contracts.rs:195-227 | a created contract is pending with zero completed, no hash and as many fresh unfilled slots as it requires; other contract rows, other slots and all signatures are as before; the invariant of the tables holds again |
| SigningInvariant.WritersAreSlots | src/handlers/contracts.rs:625-669 | the slots whose contract write is done are slots of the contract, so at most `required`; the count reaches `required` only when all slots have been written |
| SigningInvariant.SignedHasNoLateWriter | src/handlers/contracts.rs:630-669 | on a signed contract no handler is between its insert and its contract write |
| SigningInvariant.StepKeepsInv | src/handlers/contracts.rs:461-684 | every statement of every handler, every creation, start and stop keeps the invariant on tables and on the locals of all handlers |
| SigningInvariant.ExecKeepsInv | src/handlers/contracts.rs:461-684 | so does every interleaving of any number of handlers |
| SigningTheorems.SignedIsFinal | src/handlers/contracts.rs:490-669 | once a contract is "signed" no later step of any run changes its row, its slots with their filled flags, or its signatures, whatever stale counts late handlers hold |
| SigningTheorems.CountsOrdered | src/handlers/contracts.rs:164-227 | in every state finished writes are filled slots, filled slots are signed, signed are slots; and completed <= writes <= filled <= signature rows <= slots = required |
| SigningTheorems.OneRowPerSlot | src/handlers/contracts.rs:630-645 | two different signature rows never share a slot |
| SigningTheorems.NoOverflow | src/handlers/contracts.rs:563-564 | the i32 addition completed + 1 stays in range in every run |
| SigningTheorems.HashMissingExactly | src/handlers/contracts.rs:657-669 | a run leaves a contract signed without a final hash iff it was so before the run |
| SigningTheorems.SignedIsComplete | src/handlers/contracts.rs:581-669 | a "signed" contract has every slot filled and signed exactly once and completed = required; its final hash is that of exactly its rows and content, and absent iff it was signed without one before the run |
| SigningTheorems.ConcurrentVerifyAgrees | src/handlers/contracts.rs:878-951 | a proof page that reads a signed contract at one moment and the signatures at any later one finds the final hash valid, iff the contract was not signed without one before the run |
| SigningTheorems.SignedExactly | src/handlers/contracts.rs:625-669 | completed equals the number of contract writes iff no write came between another finished handler's read and its write; "signed" iff in addition every slot has been written |
| SigningTheorems.LostForEver | src/handlers/contracts.rs:657-669 | a count once behind its writes stays behind in every continuation and the contract is never signed |
| SigningTheorems.CompletedCountsSigners | src/handlers/contracts.rs:563-669 | from an empty database: completed counts the finished signers iff they did not overlap, and "signed" iff all slots have finished signers and none overlapped |
| LostUpdate.EndOfInterleaving | src/handlers/contracts.rs:490-669 | the complete final state when two signers of a two-slot contract take their statements in turn |
| LostUpdate.OverlapLosesOne | src/handlers/contracts.rs:490-669 | in that run both finish and fill their slots, yet completed is 1 of 2 and the status "pending"; no continuation signs the contract |
| LostUpdate.StoppedSigner | src/handlers/contracts.rs:630-669 | a run in which a signer of a two-slot contract stops after its insert: no continuation signs the contract |
| Stranded.AbandonedForEver | src/handlers/contracts.rs:630-669 | a slot signed by a handler that never wrote the contract stays so in every continuation, and the contract is never signed |
| Stranded.StopAbandons | src/handlers/contracts.rs:630-669 | a request that stops after its insert and before its contract write makes its contract unsignable for ever |
| Signable.SignableExactly | src/handlers/contracts.rs:490-669 | in every state of every run a pending contract, not expired while a slot is unsigned, is signed by some further requests from that time on iff all its signature rows are counted, or all but one whose handler is in flight with the stored count; otherwise never |
| Signable.SignableAtRest | src/handlers/contracts.rs:490-669 | with no handler between insert and contract write: signable iff completed equals the number of signature rows |
| Expiry.SignableAtAnyTime | src/handlers/contracts.rs:490-669 | the same for every pending contract, expired or not: once expired with a slot unsigned it can still be signed iff that slot is the last, all signatures are counted, and a handler past the expiry check can insert for it with the stored count |
| Sequential.AloneIsRun | src/handlers/contracts.rs:461-684 | a request served from start to end is the run of its statements in the transition system |
| Sequential.ShowsColumns | src/handlers/contracts.rs:657-669 | between requests served one at a time, count, status and filled flags are functions of the set of signed slots |
| Sequential.AnswerIsVerdict | src/handlers/contracts.rs:474-536 | the status of a refused request and its tables unchanged, in the source's order of checks, and success otherwise, from the set of signed slots and used codes alone |
| Sequential.AcceptedAnswer | src/handlers/contracts.rs:671-683 | an accepted caller is told the size of the enlarged set, and "fully signed" iff the set is all slots |
| Sequential.CreationShows | src/handlers/contracts.rs:163-234 | create_contract adds a contract with the empty set of signed slots to the machine that the following rows are about |
| Sequential.RequestRefines | src/handlers/contracts.rs:474-684 | one request refines adding one new slot to the set, or changing nothing |
| Sequential.SequenceRefines | src/handlers/contracts.rs:474-684 | any sequence of requests served one at a time refines that machine |
| Sequential.HistoryRefines | src/handlers/contracts.rs:163-684 | so does any sequence of creations and requests from the empty database on |
| Answers.CreatedExactly | src/handlers/contracts.rs:174-227 | the stored contract has the request's customer, content and expiry, is pending and requires one signature a slot; its slots have the request's names and orders in turn and are unfilled; nothing else changes |
| Answers.CastExactly | src/handlers/contracts.rs:176 | the cast of the number of slots to 32 bits wraps around |
| Answers.RowExactly | src/handlers/contracts.rs:538-578 | the signature row: contract id, code, signature over id, content hash and stamp, the key's public key, SHA-256 of the content, the text of the stamp, the slot |
| Answers.OutcomeExactly | src/handlers/contracts.rs:474-683 | served alone, a refused request changes nothing and is answered with its status; an accepted one is answered with its code, its stamp, the count and the number of slots, appends its row, fills its slot and sets status, count and final hash, nothing else |
| Answers.ExpiryDecides | src/handlers/contracts.rs:527-536 | with everything else in order the answer is 410 iff there is an expiry and the check comes after it; at it, before it and without one the request is accepted |
| Answers.CreatedThenSigned | src/handlers/contracts.rs:131-684 | a contract just created: 401 for any other customer, 410 after the requested expiry, otherwise the first signer's answer with a row over the requested content |
| Database.Store.Create | src/handlers/contracts.rs:163-234 | create_contract on mutable tables: 400 without slots, otherwise contract and slots inserted in order |
| Database.Store.VerifyCustomer | src/handlers/contracts.rs:58-103 | the contract for its own customer, 401 or 404 in the source's order of checks |
| Database.Store.InsertSignature | src/handlers/contracts.rs:632-645 | inserts the row unless a UNIQUE index refuses it, and changes nothing else |
| Database.Store.ComputeFinalHash | src/handlers/contracts.rs:585-618 | the hash over the stored signatures and the new one, from three parallel vectors |
| Database.Store.SignWith | src/handlers/contracts.rs:580-683 | the three writes in order, nothing written after a conflict, and the answer |
| Database.Store.Sign | src/handlers/contracts.rs:461-684 | sign_contract on mutable tables does what the transition system's statements do in a row |
| Tables.RowsOfMembers | src/handlers/contracts.rs:587-591 | the signatures loaded for a contract are exactly the stored rows with its id |
| Verify.FindFinds | src/handlers/contracts.rs:900-904 | a proof is shown iff some signature of the contract has the code, and it is that signature's |
| Verify.RowShownExactly | src/handlers/contracts.rs:907-924 | a row is shown valid iff its public key is 32 bytes and a point, its signature 64 bytes, and the primitive verifies them on contract id, content hash and time joined by colons; tampered iff the content's SHA-256 is not the row's |
| Verify.PageExactly | src/handlers/contracts.rs:900-951 | the page exists iff a row has the code, and shows the first such; "fully signed" iff the status is "signed"; the final hash valid iff also the stored one is the SHA-256 of content and rows; every row in order |
| Authenticity.ProofShowsGenuine | src/handlers/contracts.rs:906-924 | the proof page shows every signature written in the run valid and untampered, even when rows are read later than the contract and whatever rows there were before the run |
| Authenticity.EditIsDetected | src/handlers/contracts.rs:906-951 | after an edit of the text alone, every signature written in the run stays valid and is shown tampered unless the two texts collide under SHA-256; the final hash is shown valid iff the two preimages, which differ, collide |
| Edits.RowsAfterEdit | src/handlers/contracts.rs:906-924 | the text is edited while handlers hold the old one, and the system runs on: every signature written since the start is shown valid; tampered, unless the texts collide, if it was stored or its handler had read the contract before the edit, and untampered if its handler read the new text |
| Edits.SignedThenEdited | src/handlers/contracts.rs:926-951 | when a signed contract's text is edited and the system runs on, its row and signatures stay, and every later page finds the final hash valid iff it had one and the two differing preimages collide |
| Hex.DecodeEncode | src/crypto.rs:26-27 | decoding the hexadecimal text of any bytes gives the bytes |
| Hex.EncodedExactly | src/crypto.rs:44 | two lower-case digits a byte, the high one first |
| Hex.DigitRead | src/crypto.rs:26-27 | digits are read in either case with their values, and nothing else is read |
| Hex.DecodableExactly | src/crypto.rs:26-27 | a text decodes iff its length is even and all its characters are digits |
| Hex.DecodedByte | src/crypto.rs:26-27 | each byte is that of its two digits |
| Crypto.SignedVerifies | src/crypto.rs:19-93 | what sign_contract produces with any 32-byte key, verify_signature accepts for the same contract, content hash and time |
| Crypto.SignedExactly | src/crypto.rs:19-45 | signing fails on bad hexadecimal and on any length but 32 bytes, each with its own error, and otherwise signs id, content hash and time joined by colons |
| Crypto.AcceptedExactly | src/crypto.rs:48-93 | a signature is accepted iff key and signature decode to a 32-byte point and 64 bytes that the primitive verifies on id, content hash and time joined by colons; everything else is refused |
| Crypto.MessageBinds | src/crypto.rs:38-39 | for ids and hashes without colons equal messages have equal id, hash and time |
| Crypto.AcceptedForItsOwn | src/crypto.rs:19-93 | a signature made for one id, content hash and time is accepted for another triple iff they are equal, or the primitive itself verifies it on the other, different text |
| Crypto.GenerateFinalHash | src/crypto.rs:123-140 | the index loop over three parallel vectors hashes the preimage of the zipped entries |
| Crypto.PreimageDecodes | src/crypto.rs:129-137 | for a known number of signatures the text without separators is read back uniquely |
| Crypto.PreimageInjective | src/crypto.rs:123-140 | equal preimages of equally many signatures iff equal content and equal signature lists |
| Crypto.PreimagesCoincide | src/crypto.rs:123-140 | with fewer against more signatures preimages coincide iff the content of the one with fewer is the other's content followed by its first entries |
| Crypto.CoincidingPair | src/crypto.rs:123-140 | content with one signature, and that content followed by the signature's text with none, have the same preimage |
| Crypto.FinalHashBinds | src/crypto.rs:123-140 | equal final hashes of equally many signatures mean equal content and signatures, or a SHA-256 collision of two different texts |
| Rfc3339.CivilRoundTrip | src/auth.rs:107-114 | the civil fields of an instant determine it |
| Rfc3339.YearLength | src/auth.rs:107-114 | the closed form for days before a year agrees with the lengths of the months |
| Rfc3339.CivilOrder | src/auth.rs:107-114 | instants are ordered as their civil fields, most significant first |
| Rfc3339.TextOrderIsTimeOrder | src/auth.rs:170-200 | for years 0000-9999 the texts with 0, 3, 6 or 9 fraction digits compare, as text, exactly as the instants do, and are equal only for equal instants |
| Rfc3339Reader.ReadsBack | src/auth.rs:107-114 | a reader of yyyy-mm-ddThh:mm:ss[.fraction]+00:00 reads every time text back as its instant |
| Rfc3339Reader.LengthExactly | src/auth.rs:107-114 | the fraction has as many digits of 0, 3, 6 and 9 as it needs |
| Rfc3339Reader.EpochText | src/auth.rs:107-114 | the text of the Unix epoch |
| Migration.Up | migrations/2026-05-02-124913-0002_backward_compatibility_signatures/up.sql:7-31 | the three statements on mutable tables; rolled back iff the second would break UNIQUE slot_id |
| Migration.OneSlotEach | migrations/2026-05-02-124913-0002_backward_compatibility_signatures/up.sql:7-31 | every contract gets exactly one slot, nameless, at position 0 and filled iff the contract was signed; required = 1, completed = the number of its filled slots, nothing else changed |
| Migration.OwnSlotEach | migrations/2026-05-02-124913-0002_backward_compatibility_signatures/up.sql:15-24 | every signature gets the slot of its own contract, NULL iff that contract is gone |
| Migration.UniqueExactly | migrations/2026-05-02-124913-0002_backward_compatibility_signatures/up.sql:15-24 | the update keeps UNIQUE slot_id iff no existing contract has two signatures |
| Migration.MigrationStartsRuns | migrations/2026-05-02-124913-0002_backward_compatibility_signatures/up.sql:1-36 | the migrated tables satisfy the signing invariant with exact counts, the only thing the theorems on runs ask of a start |
| Migration.HashMissingIsLegacy | migrations/2026-05-02-124913-0002_backward_compatibility_signatures/up.sql:33-36 | after the migration and any run, a contract is signed without a final hash iff it was signed before the migration |
| Migration.HalfSignedForEver | migrations/2026-05-02-124913-0002_backward_compatibility_signatures/up.sql:7-13 | a pending contract that already had a signature can be signed by no run after the migration |
| Migration.MigratedSignableExactly | migrations/2026-05-02-124913-0002_backward_compatibility_signatures/up.sql:7-31 | after the migration a pending contract can be signed from a given time on iff it had no signature row and has not expired |
| RateLimit.RateLimiter.CheckRateLimit | src/rate_limit.rs:35-68 | cleanup, lazy expiry and verdict of one check on the shared map |
| RateLimit.RateLimiter.RecordFailedAttempt | src/rate_limit.rs:71-94 | one failure joins the running window or opens a new one |
| RateLimit.RateLimiter.ResetAttempts | src/rate_limit.rs:97-100 | a reset removes the address and nothing else |
| RateLimit.RateLimiter.GetAttemptCount | src/rate_limit.rs:104-107 | the stored count of an address, 0 without an entry |
| RateLimit.CheckedExactly | src/rate_limit.rs:39-55 | in nanoseconds: a check keeps exactly the entries younger than 30 minutes, its own address's only if younger than 15, unchanged |
| RateLimit.VerdictExactly | src/rate_limit.rs:46-65 | refused iff at least 5 failures are in a window younger than 15 minutes; the advice is 15 less the whole minutes gone |
| RateLimit.RecordedExactly | src/rate_limit.rs:75-93 | a failure counts into a window younger than 15 minutes, opens a new one otherwise, and leaves other addresses alone |
| RateLimitRuns.CleanupInvisible | src/rate_limit.rs:39-55 | on a nondecreasing clock the limiter answers every run like one that removes entries only by reset |
| RateLimitRuns.AddressesIndependent | src/rate_limit.rs:35-100 | the answers to one address are those it would get alone |
| RateLimitRuns.CountStaysBelow | src/rate_limit.rs:57-93 | with at most k handlers of an address between check and outcome its count never exceeds max_attempts - 1 + k, whatever the clock does |
| RateLimitRuns.RefusedExactly | src/rate_limit.rs:46-65 | a check refuses iff at least 5 failures since the last reset fall into the window that the failures' times alone determine and that is still open; with the minutes it advises |
| RateLimitRuns.FailuresInInterval | src/rate_limit.rs:35-94 | any half-open 15-minute interval holds at most 2(max - 1 + k) - 1 failures of an address since its last reset; 9 for one handler at a time |
| RateLimitRuns.FailuresInRun | src/rate_limit.rs:35-94 | failures since the last reset that span D minutes number at most (max - 1 + k)(D / 15 + 1), rounded down |
| RateLimitRuns.AdvisedWaitIsRight | src/rate_limit.rs:57-64 | the advice is 1 to 15 minutes and overstates the wait by less than one; until the window ends the address is refused, whatever failures come, and then allowed |
| Requests.Server.HandleLogin | src/handlers/auth.rs:33-196 | the statuses 429, 500, 401, 200, what the limiter sees of each, and the token tables after it |
| Requests.Server.HandleSetUp | src/handlers/auth.rs:268-454 | the statuses 429, 500, 409, 201 in the source's order, failed user query, hashing or insert included, what the limiter sees of each, and users and tokens after it |
| Requests.Server.HandlePage | src/handlers/contracts.rs:855-875 | the part the public contract pages share: 429, or a recorded failure with the status of the customer check, or a reset |
| Requests.Server.HandleSign | src/handlers/contracts.rs:461-684 | sign_contract with its limiter: 400 before the check, 429, a recorded failure or a reset, then the signing handler |
| Requests.LoginExactly | src/handlers/auth.rs:33-196 | past the limiter, by bcrypt's verdict on the stored hash or the dummy: 200 iff the address is known, the verdict yes and both tokens can be stored; 401 iff there is a verdict and not (yes and known); 500 otherwise; only a 200 carries cookies, for that user, and which tables change |
| Requests.SetUpExactly | src/handlers/auth.rs:268-454 | 409 iff there is a user; 201 iff there is none and everything can be stored, with the user, its account and its cookies; 500 otherwise |
| Requests.RefusedByLimiter | src/handlers/contracts.rs:474-482 | a refused check is answered 429 and changes nothing, whatever is asked; only an unaccepted signing is refused before |
| Requests.PageExactly | src/handlers/contracts.rs:56-103 | 401 or 404 of the customer check, recorded as a failure, or the page and a reset |
| Requests.SignExactly | src/handlers/contracts.rs:461-684 | past the limiter the caller gets the verdict's status or the full response, and the limiter a failure iff the customer check fails, else a reset |
| Requests.FailuresLimited | src/handlers/contracts.rs:478-501 | in any sequence of logins, setups, contract pages and signings served one after another, at most 9 failures of an address since its last reset fall into any 15 minutes |
| Requests.GuessesLimited | src/handlers/auth.rs:41-95 | so at most 9 answers 401 since its last login answered 200, provided no verified contract request and no setup of that address came since |
| Requests.GuessesUnlimited | src/main.rs:103-140 | without that proviso no bound holds: for every n there are n answers 401 within one moment and no login in between, a verified contract page following each |
| Requests.AlternatesIsMet | src/main.rs:103-140 | requests of that kind exist |
| Sessions.Store.LogIn | src/handlers/auth.rs:120-163 | tokens of a login stored in order; no session when one cannot be stored |
| Sessions.Store.SetUp | src/handlers/auth.rs:288-426 | the first user and its session, only while there is no user |
| Sessions.Store.FromRequestParts | src/auth.rs:293-388 | the branches of the extractor on valid, expired, bad and missing JWTs, and the tables after it |
| Sessions.Store.RotateTokens | src/auth.rs:356-386 | new JWT, revoke of the old refresh token whose failure is ignored, new refresh token, in this order |
| Sessions.Store.LogOut | src/handlers/auth.rs:199-217 | logout revokes what the two cookies hold, failures ignored |
| SessionTheorems.JwtAcceptedExactly | src/auth.rs:103-152 | after any interleaving of token statements a JWT passes the table check iff it was stored and not revoked after its first insert |
| SessionTheorems.RefreshAcceptedExactly | src/auth.rs:165-222 | a refresh token is honoured for user u iff its first insert was for u, no revoke came after it, and less than 604800 seconds have passed since, although expiry is compared as text |
| SessionTheorems.AdmittedExactly | src/auth.rs:303-334 | a request is admitted on its JWT alone iff the JWT decodes as valid and the history of statements shows it stored and not revoked since; then as the JWT's email, and no table changes |
| SessionTheorems.RefreshedExactly | src/auth.rs:336-387 | a request gets new tokens iff its JWT is missing or expired, its refresh token is stored in the history for a known user, unrevoked since and younger than 604800 seconds, and both new tokens can be stored |
| SessionTheorems.RevokedStays | src/auth.rs:127-137 | a stored and revoked token stays revoked whatever statements follow |
| SessionTheorems.LoggedOutForEver | src/handlers/auth.rs:199-217 | after a logout whose one or two cookies held stored tokens no later request with these cookies gets a session, whether the JWT then counts as valid, expired or bad, and whatever ran between the logout's statements |
| SessionTheorems.OneSessionPerSecond | src/auth.rs:64-81 | within one second a user can start or refresh only one session, be the first a sign-in or a refresh: a repeated JWT fails on its UNIQUE hash, even after being revoked |
| SessionTheorems.OverlappingSetUps | src/handlers/auth.rs:288-390 | two setups that both found no user make two users iff their emails differ, whatever runs between their inserts |
| SessionTheorems.RotateIsStatements | src/auth.rs:356-386 | a rotation runs a prefix of its statements, all of them when it succeeds |
| SessionTheorems.IssueExactly | src/handlers/auth.rs:120-163 | login and setup get a session iff both tokens can be stored; the session holds the minted JWT and the drawn refresh token, whose rows are stored for the user, unrevoked, for 900 and 604800 seconds; otherwise at most a JWT row is left |
| SessionTheorems.RotateExactly | src/auth.rs:356-386 | the same of a refresh, which besides revokes the presented token's row and no other, unless that fails |
| SessionTheorems.IssuedPairWorks | src/handlers/auth.rs:120-163 | the pair handed out works: its JWT is not revoked, and its refresh token is the user's for 604800 seconds |
| SessionTheorems.RefreshedPairWorks | src/auth.rs:340-387 | the pair a refresh hands out works for the user whom the presented token was stored for |
| SessionTheorems.LivePairAdmits | src/auth.rs:303-387 | a live pair presented is admitted while its JWT decodes as valid, and gets a new pair once that is expired, if it can be stored |
| SessionTheorems.RefreshSpends | src/auth.rs:373-386 | after a refresh the old token is refused iff its revoke went through or it has expired; the new one is honoured for 604800 seconds |
| Rotations.AloneIsRefresh | src/auth.rs:336-387 | the four statements of a refresh, run in a row, are the extractor's refresh path |
| Rotations.OverlapForks | src/auth.rs:340-387 | of two refreshes with one unrevoked token, their statements taking turns in any way, both succeed iff each has four turns and alone would succeed, they mint different JWTs and draw different tokens, and neither has its first turn after three of the other's whose revoke does not fail |
| Rotations.BothOrders | src/auth.rs:340-387 | taking turns one by one both succeed whenever each alone would and JWTs and tokens differ; one after the other only if the first one's revoke fails too |
| Rotations.LiveAfterRace | src/auth.rs:340-387 | at any moment of such a race a finished request's new token is live for 604800 seconds, and the old one is dead once either revoke took effect |
| Rotations.OneOfTwoRefreshes | src/auth.rs:340-387 | when each alone would succeed and JWTs and tokens differ, at least one of the two succeeds |
| Rotations.RefreshOutrunsLogout | src/handlers/auth.rs:199-217 | a logout's revoke after n statements of a refresh with the same token: the refresh succeeds iff n > 0 and it would alone, its new token is then live for 604800 seconds, and the old one is dead |
| SessionTheorems.NoMoreLiveThanSignIns | src/auth.rs:340-387 | one request at a time and with every revoke carried out, unrevoked refresh tokens never outnumber successful sign-ins |
| SessionTheorems.ChainsOfSignIns | src/auth.rs:340-387 | then a token with a successor in its sign-in's chain is refused, and consecutive refreshes are less than 604800 seconds apart |
| LineItems.ParseLineItems | templates/dashboard/js_common.html:48-60 | the parsing loop computes the parse function |
| LineItems.LineExactly | templates/dashboard/js_common.html:52-56 | a line counts iff its first colon is not its first character and a number follows; label and number are the two sides, trimmed |
| LineItems.TrimExactly | templates/dashboard/js_common.html:54-55 | trimming takes white space off both ends and all of it |
| LineItems.SpacesExactly | templates/dashboard/js_common.html:50-55 | white space is that of ECMAScript, by code point |
| LineItems.PrintedExactly | templates/dashboard/js_common.html:63-69 | the printed text has one line an item, in order: label, colon, space, number |
| LineItems.LastLineWins | templates/dashboard/js_common.html:51-58 | a label is parsed iff some line gives it, with the number of the last line that does |
| LineItems.FormatThenParse | templates/dashboard/js_common.html:48-69 | printing any items a parse can yield, in any order, and parsing again gives the items minus a blank label |
| LineItems.StoredItemsSurvive | templates/dashboard/js_common.html:48-69 | parse(format(m)) = m iff every label is trimmed, not blank, and without colon or line break |
| LineItems.ParseFormatParse | templates/dashboard/js_common.html:48-69 | parse(format(parse(text))) = parse(text) iff the parse yields no blank label |
| LineItems.BlankLabelLost | templates/dashboard/js_common.html:48-69 | a line with a blank label is parsed as an item, which printing and parsing loses |
| Invoices.PageAgrees | src/main.rs:241-283 | the page, which computes from its own lists of display items, shows the subtotal and total of the invoice's own methods |
| Invoices.TotalIsScaledSubtotal | src/models.rs:227-242 | the total is the subtotal times one plus the sum of all percentages |
| Invoices.BalanceIsOpenAmount | src/main.rs:287-291 | the balance is the total less the payment, shown iff there is one |
| Invoices.ListedExactly | src/main.rs:243-283 | the page lists every amount under its name and in order: charges as they are, adjustments as their share of the subtotal, discounts iff negative |
| Invoices.SumAppended | src/models.rs:218-225 | one more amount adds itself to the sum |

## Left out

- Updating and deleting contracts as free steps, since they may overwrite count, status and hash with anything; only a change of the text is modelled.
- Edits.SignedThenEdited: of a contract edited while still pending, the final hash that its last signer later stores is not described; its signatures are (`Edits.RowsAfterEdit`).
- `update_user`: it changes the email a JWT is minted from, so `Rotations` and `SessionTheorems.OneSessionPerSecond` are about one email.
- SHA-256, Ed25519, bcrypt, HMAC and random generators: abstract functions and parameters.
- The web framework, connection pool, ORM, cookies, tracing and pool errors: a failed statement is a handler that stops.
- JWT internals (signature, `exp`, leeway): a JWT decodes as valid, expired or bad at a given time.
- Pages, masks, UUID syntax, length limits and UTC-to-local display.
- Generic CRUD, configuration and the invoice column migrations.
- Decimal and f64 rounding: invoice amounts are exact reals; a number no decimal can hold counts as absent.
- JavaScript's number printing (a number is a code of its double, NaN excluded, the two zeros identified), the `__proto__` key, and `formatLineItems` on a JSON string: labels form a plain map.
- The unordered load of signatures: rows are taken to come in insertion order in `sign_contract` and `verify_contract` alike.
- Freshness of a new contract's UUID: a creation whose id is in use is ignored by a run (in `Database` it fails with 500).
- Slot counts of 2^31 and more in `create_contract`: runs assume fewer, because a request of that size cannot be sent.
- Legacy contracts marked signed without a signature row: the migration claims assume the old handler stored the signature first.
- The order in which the migration reads contracts, and its subquery's choice among several slots: any order of contracts, and there is one slot each.
- RateLimit.RateLimiter.RecordFailedAttempt: the u32 counter is unbounded here; `RateLimitRuns.CountStaysBelow` keeps it far from wrapping.
- Sessions.Store.LogIn: expiry times are instants whose text is compared, within years 0000-9999.
- Sessions.Store.SetUp: the check for users and the insert are one step here; `SessionTheorems.OverlappingSetUps` has them apart.
- Requests.GuessesLimited: one request at a time; for k overlapping handlers of an address the bound is `RateLimitRuns.FailuresInInterval` with k.
- Sequential.AnswerIsVerdict: the limiter's 429 and its reset and record are not part of the signing machine; `Requests.Server.HandleSign` has them.
- Database.Store.Sign: likewise without the limiter.
- Rotations.OverlapForks: two requests; other handlers' statements between theirs are not part of the race.
- Requests.Server.HandlePage: what the three pages show after the customer check, a 404 for an unknown code included.
- An expiry text that does not parse is no expiry, as in the source; the parser itself is not modelled.
- Columns no statement depends on: title, type, creation times, signer name, address and agent.
