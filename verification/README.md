# ClaudeCode Remote, verified

A Dafny model of the parts of ClaudeCode Remote where correctness spans functions,
processes and time, and proofs of what those parts are for: an upload puts exactly
the client's bytes in place, an accepted path names something below a root, only a
paired and unrevoked device reaches the file and session handlers, guessing is slow for
who knows no factor, and no system update starts underneath an open terminal.

`dafny verify dfyconfig.toml` checks everything. The files group as follows.

- **Text and codecs.** `Text`, `Decimal`, `Base64` (section 4 of RFC 4648, with and
  without padding), `UploadMetadata` (the app prints, the daemon parses) and
  `PasswordHash` (the Argon2id text form).
- **Paths.** `Paths` (cleaning and rendering), `FileTree` (a tree with symbolic links
  and the walks that follow them: EvalSymlinks, and opening a file for writing), `Store`
  (`NewStore`, `Resolve` and its ancestor loop, and where a copy to an accepted path goes).
- **Uploads.** `Uploads` holds the daemon's critical sections as functions of the disk,
  with faults; `Uploader` is the object, its copy loop included, proved against them, and
  `UploadLaws` says of each function what it does to bytes, sizes, names and hashes without
  using the function's own terms.
  `TusProtocol` is the transition system of one client, the daemon's handlers, the disk
  and everybody else; `TusSafety` its invariant and results. `UploadApi` is the creating
  request, `TusClient` and `TusUpload` the app's retry and resume loops, proved equal to a
  function of the schedule: what the world does after each request and what of it is
  heard. `TusRuns` shows that this function walks through a run of the protocol,
  `TusOutcomes` when it succeeds, `TusWitness` that it can, also after being stopped.
- **Identity.** `Lockout` and `RateLimiter` (guess limits), `GuessRuns` (guessing with
  several requests in flight), `Pairing`, `PairingAttempt`,
  `PairingAttempts`, `PairingHandlers` (the factor handlers section by section, and that
  their runs are runs of `GuessRuns`) and `Owner` (pairing), `Devices` (the table), `DeviceAuth`
  (challenges), `StepUp` (grants), `Tickets` (WebSocket tickets), `Router` (the
  middleware). `IdentitySystem` puts them into one transition system whose steps are
  single critical sections and single table accesses, with any interleaving of any
  number of handlers; `IdentityInvariant` and `IdentitySteps` keep its invariant and
  `IdentitySafety` says what every run therefore satisfies. `Sweeping` compares each map
  with one that is never swept.
- **Sessions.** `Locks` (names, sanitising, the lock manager), `SessionTable`,
  `Terminal` (the manager), `SessionSystem`, `SessionSafety`, `SessionLocks` and
  `AgentLocks` (sessions, `agent-run` and the idle updater over one table and one
  directory).

Conventions. An object whose methods update fields is a class, and each method equates
its new state with a function of the old one; the runs and the results are about these
same functions. A step of a transition system that cannot happen changes nothing, so a
statement for every sequence of steps is a statement for every run. SHA-256, Ed25519
and Argon2 are uninterpreted functions, the verdicts of the factor verifiers are inputs,
and so are random draws, failures of the disk, the table or tmux, and the clock, which
is a non-decreasing integer (nanoseconds; seconds for the lock directory).

Where code and prose part, the model follows the code:

- The upload loop of the app is documented as resuming after failures; a file whose
  completing answer is lost is nevertheless reported as failed, because the next HEAD
  finds everything stored or nothing at all (`TusWitness.LostAnswerFails`). The exact
  condition of `TusUpload.Upload` contains this, and the empty file.
- An upload does not always stay in its own files. `Resolve` accepts a name that is a link
  to something that does not exist yet; when rename fails, the copy in `Finish` follows
  that link, which may lead anywhere, the upload directory included
  (`Uploads.LinkLeadsAstray`). The results about isolation and about whole runs are for
  copies that do not end up in that directory; `Uploads.GuardExactly` shows that this is
  exactly what is needed. Where rename works there is no copy, and a tree without such
  links makes it harmless.
- `NewStore` follows the links of its roots, `NewUploader` takes its directory as given.
  Two paths that look far apart may then be one place: given a path that leads by a link
  to a directory below a root, a plain rename of one upload replaces the part of another
  (`Uploads.LinkedDirectoryOverlaps`). The model's upload directory is therefore where the
  given path leads, the condition that no root overlaps it is about that place, and the
  results ask of every tree they use that the directory is there, with no links in it
  (`Uploads.Settled`). Then no accepted path is one of its files under any name
  (`Uploads.NoTargetIsInside`), and `Uploads.ClearExactly` says for which roots that holds.
- A root "/" accepts only itself: the separator is appended to a root that ends in one
  already. `Paths.AcceptsExactly` and `Store.ResolveExactly` say so.
- Metadata keys may contain some white space and still arrive;
  `UploadMetadata.RoundTripExactly` gives the exact set.
- `LimitedVerifier` guards nothing in the daemon. The pairing handlers ask Allow and count
  the outcome later, so requests that were let through together are counted together, and
  any accepted factor clears both counters. `GuessRuns` and `PairingHandlers` give the bound
  for that, and the run in which a caller who has one factor guesses another without any bound.
- Session locks are never taken by the stale sweep, but a lock can outlive its session
  (`SessionSafety.LockMayOutlive`); `SessionLocks` says exactly when. A session whose
  `Acquire` failed has an open row and no lock (`Terminal.Manager.Create`).
- The stale sweep looks before it deletes. If an agent ends and a new process with the same
  number starts in between, the sweep deletes the new lock (`AgentLocks.FreshLockSwept`).
- A failing `ls` counts as an empty directory for the updater, which then updates without
  knowing anything; `UpdateBlind` is that step, and no result is about it.
- A revocation stops requests, not streams: a ticket request admitted before it still gets
  its ticket and its stream (`IdentitySafety.TicketStillOpens`).

## Model

| member | source | states |
|---|---|---|
| Base64.RoundTrip | daemon/internal/identity/password.go:61-62 | decoding an encoding gives the bytes back, for every byte string, padded or not |
| Base64.DecodeExactly | daemon/internal/files/upload.go:273-276 | decoding succeeds exactly for texts that are, line breaks aside, full groups of four letters of the alphabet, padded as section 4 of RFC 4648 says |
| Text.EqualFoldExactly | daemon/internal/files/upload.go:188-191 | two texts are the same if and only if they are as long and at every position have the same character or the two cases of one letter |
| Decimal.ParseOffsetExactly | daemon/internal/files/upload.go:283-292 | a header value is read as n if and only if it is an optional sign, zeros and the decimal form of n, n fits 63 bits and a minus stands only before zero |
| UploadMetadata.ParseUploadMetadata | daemon/internal/files/upload.go:260-280 | the parsing loop computes the specification the round trips are about, for every header |
| UploadMetadata.RoundTripExactly | daemon/internal/files/upload.go:260-280 | parsing an encoded map gives the map back if and only if each key is non-empty, has no comma or blank, starts with no white space and, for an empty value, ends with none |
| UploadMetadata.PlainKeysRoundTrip | app/lib/api/upload.dart:49-51 | hence for every map whose keys are non-empty and free of commas and white space, empty values and the empty map included |
| UploadMetadata.PieceExactly | daemon/internal/files/upload.go:262-278 | of any header: a blank piece and one whose value is not base64 do nothing, a single word is a key without a value, a word and a value are that entry |
| UploadMetadata.LastPiece | daemon/internal/files/upload.go:260-280 | a pass over the pieces of a header, whatever it does with one, takes the last piece last, so the later of two values for a key stays |
| PasswordHash.RoundTrip | daemon/internal/identity/password.go:114-150 | decoding the stored form recovers parameters, salt and hash exactly, for all 32-bit costs, every parallelism of a byte and all non-empty salts and hashes, and fails exactly when one of these is empty |
| PasswordHash.HashedPasswordMatches | daemon/internal/identity/password.go:48-84 | a guess matches a stored hash if and only if it derives the same key; the hashed password always matches |
| PasswordHash.OtherVersion | daemon/internal/identity/password.go:114-150 | the stored form of any other Argon2 version is refused, whatever follows |
| Paths.AcceptsExactly | daemon/internal/files/store.go:88-92 | the string test of a root and a path holds exactly for component-wise descendants; for "/" only for itself |
| Paths.ComponentsRender | daemon/internal/files/store.go:81 | cleaning a rendered path gives its components back |
| Paths.NameCancels | daemon/internal/files/store.go:81 | a name and ".." behind it cancel anywhere in a path |
| Paths.NothingVanishes | daemon/internal/files/store.go:81 | empty pieces and "." vanish anywhere in a path |
| Paths.TopStays | daemon/internal/files/store.go:81 | ".." at the top stays there |
| FileTree.WalkEndsReal | daemon/internal/files/store.go:103-109 | what following symbolic links ends in is a path free of links that exists |
| FileTree.RealPathIsFixed | daemon/internal/files/store.go:103-109 | following the links of a real path changes nothing |
| FileTree.MissingBelow | daemon/internal/files/store.go:110-120 | below something missing everything is missing, so the ancestor loop skips no existing ancestor |
| FileTree.RelativeLink | daemon/internal/files/store.go:103-109 | a relative link starts from its own directory and ".." in it from the parent of that |
| FileTree.LoopIsBroken | daemon/internal/files/store.go:103-120 | a link to itself is an error, with whatever is behind it, and not a missing path |
| FileTree.OpensAgrees | daemon/internal/files/upload.go:226-237 | opening for writing ends where evaluating the links ends, or at a file to be made where that finds nothing |
| Store.NewStore | daemon/internal/files/store.go:33-52 | every root becomes absolute and clean, its real path when it exists; no roots is an error |
| Store.RootExactly | daemon/internal/files/store.go:38-47 | a root given by names, absolute or below the working directory, is kept as the path it leads to, or as it is if it leads nowhere |
| Store.LinkedRoot | daemon/internal/files/store.go:41-47 | a root that is a link to a directory is kept as that directory |
| Store.ResolveExisting | daemon/internal/files/store.go:99-122 | the loop terminates on every tree and path and returns what its specification says |
| Store.ResolveExactly | daemon/internal/files/store.go:71-94 | for every tree and input: an accepted path is the real path of the longest resolvable ancestor plus the untouched remainder, accepted if and only if it lies component by component under a root; otherwise which error |
| Store.CandidateJoins | daemon/internal/files/store.go:76-81 | a relative path of names is taken below the first root, all of it; an absolute one by itself |
| Store.NamesResolve | daemon/internal/files/store.go:71-94 | what exists below the first root under a path of names is what that path resolves to |
| Store.AcceptedIsCleanAndBelow | daemon/internal/files/store.go:71-94 | an accepted path is absolute, clean and below a root |
| Store.ResolveIdempotent | daemon/internal/files/store.go:71-122 | resolving an accepted path again on an unchanged tree gives the same path, whether or not its last components exist |
| Store.CopyGoes | daemon/internal/files/upload.go:226-237 | a copy to an accepted path stays there if and only if there is no link under that name; otherwise the link leads to nothing yet, and the copy fails or creates a file elsewhere |
| Store.NoLinkOnTheWay | daemon/internal/files/store.go:71-122 | when the directory of an accepted path is there or can be made, every name on the way that is there is a directory and no link: the path lies below a root in the tree and not only in its text |
| Store.CanMakeExactly | daemon/internal/files/upload.go:199-201 | the directory of an accepted path is there or can be made if and only if whatever is there on the way is a directory |
| Uploads.FilesAreSeparate | daemon/internal/files/upload.go:56-57 | the path functions are injective and never meet |
| Uploads.NoTargetIsInside | daemon/internal/files/store.go:71-94 | no accepted path names the same directory entry as a file of the upload directory, in a tree that has the directory where it is and no root overlapping it |
| Uploads.ClearExactly | daemon/internal/files/store.go:88-92 | that no accepted path is an entry of the upload directory holds if and only if no root other than "/" is that directory, above it or an entry of it |
| Uploads.LinkedDirectoryOverlaps | daemon/internal/files/upload.go:49-57 | why the directory must be taken where it leads: if the path NewUploader is given leads by a link below a root, an accepted path and the path of an upload's part are one file |
| Uploads.FinishExactly | daemon/internal/files/upload.go:175-211 | a mismatch is reported exactly when a declared hash differs from the part's at some position in more than the case of a letter, or in length, and leaves no part, no state and every other file, the target included, untouched; a success had the declared hash, wrote the part to the resolved target or, copying, where a link under that name leads, and it is there exactly if that is not one of the two files Finish removes |
| Uploads.PublishedIsThere | daemon/internal/files/upload.go:175-211 | on a tree that shows the upload's own files, a Finish that succeeds put the part's bytes at the resolved target, or, copying, where a link under that name leads, with the declared hash, the case of letters aside, if one was declared, and the part is gone |
| Uploads.OthersUntouched | daemon/internal/files/upload.go:62-224 | no operation on one id changes another id's part or state, when no root overlaps the place of the upload directory, the directory is there in the operation's tree, and the operation is not a copy that follows a link onto one of them |
| Uploads.OthersUntouchedExactly | daemon/internal/files/upload.go:202-207 | on a tree that shows the other upload's files this is an equivalence: they are left alone if and only if the operation is not such a copy |
| Uploads.GuardExactly | daemon/internal/files/upload.go:202-237 | in a tree that has the upload directory where it is: no link that an accepted path ends in leads into it if and only if no Finish, on any disk and with any outcome, touches anything there but its own two files |
| Uploads.LinkLeadsAstray | daemon/internal/files/upload.go:226-237 | whatever the configuration, a link in a root to a part that does not exist is accepted, and a Finish whose rename fails creates that part of another upload |
| Uploads.Isolation | daemon/internal/files/upload.go:62-224 | over every run of any clients without such copies, on trees that have the upload directory where it is, an upload's files end up as if no other upload had existed |
| UploadLaws.WrongOffsetIsRefused | daemon/internal/files/upload.go:145-149 | a chunk at any offset but the stored size is refused with that size, and the disk stays as it is |
| UploadLaws.RightOffsetAppends | daemon/internal/files/upload.go:151-165 | a chunk at the stored size is appended, up to where copying failed, and nothing else changes; it succeeds exactly if copied in full and within the declared length, and completes exactly at that length |
| UploadLaws.WritesKeepPrefix | daemon/internal/files/upload.go:128-166 | over every sequence of chunks that are slices of one byte string at their own offsets, sent twice or out of order or cut short, the part stays a prefix of it and never shrinks |
| UploadLaws.OffsetExactly | daemon/internal/files/upload.go:114-124 | a size and a length are answered if and only if the id is valid and part and state are there with just these |
| UploadLaws.IdsAreNames | daemon/internal/files/upload.go:244-256 | drawn ids are valid, and the two files of a valid id, whoever sent it, are entries of the upload directory |
| UploadLaws.CreateExactly | daemon/internal/files/upload.go:62-94 | when Create succeeds, what it leaves then, and that a refusal leaves nothing, or a part without a state if that is what could not be written |
| UploadLaws.FinishSucceedsExactly | daemon/internal/files/upload.go:175-211 | on a working disk Finish succeeds if and only if part and state are there, the hash is the declared one, the target resolves, is no directory, and whatever is there on the way to it is one |
| UploadLaws.FinishLeaves | daemon/internal/files/upload.go:175-224 | no file changes but the one it writes and the upload's two; these are gone after a success, a wrong hash or a target that no longer resolves, and stay after any other failure |
| UploadLaws.PublishedHasDeclaredHash | daemon/internal/files/upload.go:182-191 | over every run from an empty disk, with a hash in lower case, a Finish that succeeds has the hash of the part equal to the stored one, character by character |
| Uploader.Uploader.Create | daemon/internal/files/upload.go:62-94 | disk and answer of Create, faults included |
| Uploader.Uploader.Offset | daemon/internal/files/upload.go:114-124 | the stored size and the declared length, or not found |
| Uploader.Uploader.WriteChunk | daemon/internal/files/upload.go:128-166 | disk and answer of WriteChunk, the copy loop and its faults included |
| Uploader.Uploader.Finish | daemon/internal/files/upload.go:175-211 | disk and answer of Finish, faults included |
| Uploader.Uploader.Discard | daemon/internal/files/upload.go:214-224 | part and state are gone, nothing else changes |
| TusSafety.RunKeeps | daemon/internal/files/http.go:171-245 | every run whose trees have the upload directory where it is and whose copies stay out of it keeps the protocol's invariant: what is stored, in flight, copying, finishing, answered and published |
| TusSafety.PrefixInEveryRun | daemon/internal/files/upload.go:128-166 | with requests lost, cut short, delayed, duplicated and reordered, answers dropped and the daemon restarted, the part is a prefix of the client's bytes, never shrinks until it is gone, and never comes back, in every run whose trees have the upload directory where it is and whose copies stay out of it |
| TusSafety.OnlyTheBytesArePublished | daemon/internal/files/http.go:205-236 | whatever this upload publishes in any run is exactly the client's bytes; an answer with a hash means that it was published and carries the client's hash; no mismatch is ever answered; collisions play no part |
| TusSafety.PublishedIsOnDisk | daemon/internal/files/upload.go:192-210 | the step that publishes leaves those bytes at the path the declared target resolves to, or where a link under that name leads |
| TusSafety.PublishedByAStep | daemon/internal/files/upload.go:192-210 | whatever a run published, some step of that run put it in place |
| TusSafety.CopyRefinesWriteChunk | daemon/internal/files/upload.go:141-166 | copying byte by byte, visible to a HEAD in between, comes to what the one-section WriteChunk does, failures included |
| TusSafety.ArrivalRefinesWriteChunk | daemon/internal/files/upload.go:128-149 | and a PATCH is turned away at the door, with nothing written, exactly when WriteChunk fails without writing |
| UploadApi.ClientMetadataArrives | daemon/internal/files/http.go:126-169 | the three fields the app sends are the three the daemon reads |
| UploadApi.CreateArrives | app/lib/api/upload.dart:144-174 | 201 is answered exactly when there is a name, the target resolves, the drawn id is free and the disk works; the daemon then holds an empty part and the declared length, target and hash |
| UploadApi.TargetInDirectory | daemon/internal/files/http.go:149-151 | for every directory and name, ".." and absolute ones included: the joined target lies where directory and name one after the other lead, below the first root or from "/" |
| UploadApi.TargetIsJoin | daemon/internal/files/http.go:149-151 | for names it is their join |
| UploadApi.RequestExactly | daemon/internal/files/http.go:138-148 | a length that denotes no number and a missing file name are refused and leave nothing |
| TusClient.SendChunks | app/lib/api/upload.dart:117-129 | the chunks of one attempt are the corresponding part of the dialogue, up to the completing answer or the first failure, with the books of what was sent |
| TusClient.SendRounds | app/lib/api/upload.dart:113-141 | the nested loops terminate and equal the dialogue that the schedule determines, for every schedule; bounds, and when they succeed |
| TusClient.ChecksumExactly | app/lib/api/upload.dart:211-224 | the app believes a hash exactly if it came with a completing answer and is the local one, the case of letters aside |
| TusRuns.DialogueFollows | app/lib/api/upload.dart:113-141 | state and answers of a dialogue are those of the scheduled run of the protocol: request by request what the schedule does, and the scheduled reply heard exactly if the run had produced it |
| TusOutcomes.RunLands | daemon/internal/files/upload.go:141-166 | over every run: a whole part, a full HEAD or a completing answer goes back to a PATCH that stored the last byte, and there is at most one |
| TusOutcomes.DialogueHeard | app/lib/api/upload.dart:117-141 | the client succeeds exactly with a completing answer, the last and only one it hears |
| TusWitness.UploadCanSucceed | app/lib/api/upload.dart:113-141 | for every non-empty file there is a schedule on which upload returns its hash, with ceil(length/chunk) requests |
| TusWitness.UploadResumes | app/lib/api/upload.dart:113-141 | for every way of stopping it fewer times than it has attempts, each time after any number of bytes of a chunk and with nothing heard, there is a schedule on which upload asks where it stands, goes on from there and returns the hash |
| TusWitness.LostAnswerFails | app/lib/api/upload.dart:117-141 | for every non-empty file that fits a chunk there is one on which exactly its bytes are put in place and upload reports failure |
| TusUpload.Upload | app/lib/api/upload.dart:95-142 | outcome, final state and answers are determined by the disk and the schedule, and are those of the scheduled run; agreement: a returned hash is the file's and a step of that run put exactly the file's bytes where the target leads, nothing else being ever published; at most ceil(length/chunk) + maxAttempts PATCHes and length + maxAttempts * chunk body bytes; success if and only if created and the 201 heard, non-empty, fewer than maxAttempts PATCHes failed, every HEAD answered and no failed PATCH stored the last byte |
| RateLimiter.Backoff | daemon/internal/identity/ratelimit.go:107-119 | the doubling loop over 64-bit durations equals min(2^(n-1), 60) minutes for every n >= 1, its accumulator never above 64 minutes |
| RateLimiter.RateLimiter.Allow | daemon/internal/identity/ratelimit.go:68-79 | refused exactly while the address or the account is locked |
| RateLimiter.RateLimiter.RecordFailure | daemon/internal/identity/ratelimit.go:82-103 | one more failure for both keys, the fifth becoming a lockout |
| RateLimiter.RateLimiter.RecordSuccess | daemon/internal/identity/ratelimit.go:123-128 | both keys are forgotten |
| RateLimiter.RateLimiter.Verify | daemon/internal/identity/ratelimit.go:150-160 | the guarded verifier, as the step of the runs below |
| Lockout.GuessBound | daemon/internal/identity/ratelimit.go:68-128 | over every sequential run, F failed checks of one key with no success clearing it span at least the lockouts 1..floor((F-1)/5) |
| Lockout.GuessesWithin | daemon/internal/identity/ratelimit.go:107-119 | hence at most 35 + 5 * floor((T-63)/60) of them in any T >= 63 minutes |
| Lockout.LockedExactly | daemon/internal/identity/ratelimit.go:68-103 | over every sequence of recorded outcomes: a key with n failures since its last success is locked if and only if n >= 5 and the lockout of length min(2^(k-1), 60) minutes, k = n div 5, set by failure number 5k still lasts |
| Lockout.AllowedAgain | daemon/internal/identity/ratelimit.go:68-79 | so an hour after the last failure everybody is allowed |
| Lockout.RecordAllKeeps | daemon/internal/identity/ratelimit.go:90-103 | even when nobody asks Allow first, a key's count stays below five after every step and, without a success, its lockout never moves earlier |
| Lockout.FromTheStart | daemon/internal/identity/ratelimit.go:51-58 | so from a new limiter the count never reaches five |
| GuessRuns.OwnerGuessBound | daemon/internal/identity/owner.go:241-370 | with at most c requests of a key in flight and no success of it, and 5m >= c: 5 + 5m(k-1) + c failed checks span at least the lockouts 1..k |
| PairingHandlers.CountedExactly | daemon/internal/identity/owner.go:343-369 | refuted evidence for an attempt that is there, in time and not used up is answered 401 and is one more failure of address and account; accepted evidence is answered 200 and clears both; anything else leaves them; no other key changes |
| PairingHandlers.RefusalIs | daemon/internal/identity/owner.go:343-358 | which of 404, 409 and 410 answers an attempt that is not |
| PairingHandlers.RunIsShadows | daemon/internal/identity/owner.go:241-370 | every run of the handlers' sections, in any interleaving, is for the limiter a run of checks, failures, successes and leaves |
| PairingHandlers.HandlersAreBounded | daemon/internal/identity/owner.go:241-370 | so the bound holds of the handlers themselves, counted over the evidence they refuted |
| GuessRuns.SuccessLiftsTheBound | daemon/internal/identity/owner.go:350-352 | with one known factor there is no bound: any number of failed checks, one request at a time, at a single moment |
| PairingAttempt.Attempt.Satisfy | daemon/internal/identity/pairing.go:123-139 | order of the checks and the new state |
| PairingAttempt.Attempt.Outstanding | daemon/internal/identity/pairing.go:142-150 | the missing factors in the order of the chain |
| Pairing.MissingExactly | daemon/internal/identity/pairing.go:142-150 | password, code and passkey, each exactly if it was not satisfied |
| PairingAttempt.Attempt.Complete | daemon/internal/identity/pairing.go:158-171 | order of the checks, the outstanding loop and the new state |
| Pairing.CompleteExactly | daemon/internal/identity/pairing.go:158-171 | completing succeeds if and only if not used up, in time and all three factors satisfied |
| PairingAttempts.CompletedExactly | daemon/internal/identity/owner.go:385-406 | the section of handlePairComplete succeeds if and only if the attempt is there, in time and complete; it hands on the record that was started and removes it |
| PairingAttempts.PairingCompletes | daemon/internal/identity/owner.go:198-447 | three factors in any order within ten minutes do pair the device with the key it started with |
| Owner.Owner.Sweep | daemon/internal/identity/owner.go:145-151 | the loop drops exactly the attempts past their time |
| Owner.Owner.PairStart | daemon/internal/identity/owner.go:198-239 | a key of the wrong shape starts nothing; otherwise one new attempt |
| Owner.Owner.PairPassword | daemon/internal/identity/owner.go:241-272 | locked out nothing happens; a wrong email, or a wrong password for a live attempt, is answered 401 and is one more failure of both keys; the call is a run of three of the sections above |
| Owner.Owner.SatisfyFactor | daemon/internal/identity/owner.go:328-370 | attempts, counters and status: what refuted, accepted and unusable evidence does to each, over the attempt and the clock |
| Owner.Owner.PairFactor | daemon/internal/identity/owner.go:274-320 | the same for code and passkey |
| Owner.Owner.PairComplete | daemon/internal/identity/owner.go:372-447 | the attempt is used up first, then exactly one row is inserted, or the answer is an error, also when the database refuses |
| Owner.Owner.DevicesRevoke | daemon/internal/identity/owner.go:462-483 | status and table for an empty id, a missing row, a database error and success |
| Devices.Store.PairDevice | daemon/internal/identity/store.go:72-75 | a new row, or an error when the id is taken or the database refuses |
| Devices.Store.RevokeDevice | daemon/internal/db/db.go:270-276 | the row is revoked, or there is none, or the database refuses |
| Devices.KeyIsRead | daemon/internal/identity/store.go:50-54 | the text of a key is read as that key, if it has 32 bytes, and otherwise not at all |
| Devices.RowsExactly | daemon/internal/db/db.go:203-276 | revoking marks its row and works for every row there is; inserting adds its row and works for every new id; neither touches another |
| DeviceAuth.DeviceAuthenticator.IssueChallenge | daemon/internal/identity/device.go:141-160 | a device that is known and not revoked gets a new challenge in place of its old one; for others nothing changes |
| DeviceAuth.DeviceAuthenticator.Sweep | daemon/internal/identity/device.go:166-173 | the loop drops exactly the stale challenges |
| DeviceAuth.DeviceAuthenticator.Verify | daemon/internal/identity/device.go:187-222 | the challenge is gone whatever the answer; the answer is yes exactly for a fresh challenge, an unrevoked row and a valid signature |
| DeviceAuth.UnderItsKey | daemon/internal/identity/device.go:187-222 | a device paired with the text of k proves itself exactly with a signature under k and an unrevoked row |
| StepUp.StepUpGate.Grant | daemon/internal/identity/stepup.go:131-137 | one new grant for the pair |
| StepUp.StepUpGate.Consume | daemon/internal/identity/stepup.go:147-160 | the grant is gone either way; served exactly when it was there and not too old |
| StepUp.GrantKeyInjective | daemon/internal/identity/stepup.go:123-125 | the text key stands for the pair, for actions without NUL, whatever the device id contains |
| StepUp.ConfusedExactly | daemon/internal/identity/stepup.go:123-125 | without it: two different actions share a key for some two devices if and only if one ends with a NUL and the other |
| StepUp.GrantServesOnce | daemon/internal/identity/stepup.go:131-160 | a grant serves once, within five minutes, its own device and action only |
| StepUp.RunRefines | daemon/internal/identity/stepup.go:123-160 | over every run the text-keyed map answers as one keyed by device and action |
| Tickets.TicketStore.Issue | daemon/cmd/claudecode-remoted/main.go:480-492 | a new ticket, the stale ones swept |
| Tickets.TicketStore.Consume | daemon/cmd/claudecode-remoted/main.go:500-511 | the ticket is gone either way; honoured exactly before its expiry |
| Router.Router.RequireDevice | daemon/internal/identity/middleware.go:61-85 | what becomes of the challenges and who is let through |
| Router.Router.RequireStepUp | daemon/internal/identity/middleware.go:98-115 | refused without a device in the context; otherwise what the gate says |
| Router.Router.Sessions | daemon/cmd/claudecode-remoted/main.go:374-388 | the stream takes a ticket and no challenge, everything else the device check and no ticket |
| Router.Router.RevokeRoute | daemon/cmd/claudecode-remoted/main.go:284-286 | the device check outside, step-up inside |
| Router.LetThroughUnderKey | daemon/internal/identity/middleware.go:61-85 | a device paired with the text of k is let through exactly when it has a challenge in time, its row is not revoked and the signature of that challenge checks under k |
| Router.WhatIsLeft | daemon/internal/identity/middleware.go:61-85 | a request takes the challenge of the device it names exactly if it carries a signature to read, and no other |
| Router.ServedExactly | daemon/internal/identity/middleware.go:98-115 | every action, registered or not, needs a grant, and a grant serves exactly up to five minutes |
| Router.StreamExactly | daemon/cmd/claudecode-remoted/main.go:374-388 | the ticket is for every path x + "/stream" and no other |
| Router.OnceEach | daemon/cmd/claudecode-remoted/main.go:284-286 | over any requests, replayed ones included, and any tables: without a new challenge a device passes at most once, without a new grant it is served at most once, and never without passing |
| IdentitySteps.StepKeeps | daemon/cmd/claudecode-remoted/main.go:225-296 | every critical section and table access of every handler keeps the invariant |
| IdentitySafety.PairingSafety | daemon/internal/identity/owner.go:198-447 | over all interleavings and clock ticks: a device is in the table exactly if a row was inserted; every row belongs to one completed attempt with that attempt's key, all three factors verified after its start and within ten minutes; no attempt yields two rows |
| IdentitySafety.EndToEnd | daemon/internal/identity/device.go:141-222 | every admitted request used up the latest challenge stored for its device, at most two minutes old, with a valid signature, for a device whose row came from a completed attempt and was not revoked; no two requests share a challenge; pending challenges are only for devices of the table |
| IdentitySafety.HonestDeviceIsAdmitted | daemon/internal/identity/device.go:141-222 | the other way: a device with an unrevoked row that answers its challenge within two minutes is admitted, whatever else the daemon holds |
| IdentitySafety.AdmittedUnderItsKey | daemon/internal/identity/store.go:50-54 | every admission of a run was signed under the key whose text the device was paired with |
| IdentitySafety.HonestKeyIsAdmitted | daemon/internal/identity/store.go:50-54 | and a device paired with the text of k that signs its challenge under k in time is admitted |
| IdentitySafety.RevokedForGood | daemon/internal/db/db.go:203-276 | after a revocation no continuation of the run changes the row or admits a request of the device |
| IdentitySafety.AdmissionsConserved | daemon/internal/identity/device.go:187-222 | a device is never admitted more often than it was issued challenges |
| IdentitySafety.StepUpConservation | daemon/internal/identity/middleware.go:98-115 | a device is served the revoke handler at most as often as it was granted that action and as it was issued challenges; each service has its own grant, at most five minutes old, and its own authentic request |
| IdentitySafety.RevocationsCovered | daemon/internal/identity/owner.go:462-483 | a row is revoked only by a request of its own that named that device, was authentic and was served by step-up |
| IdentitySafety.StreamsTicketed | daemon/cmd/claudecode-remoted/main.go:374-388 | every stream opened used its own ticket, under thirty seconds old, that an authentic request had asked for |
| IdentitySafety.StreamsAfterRevocation | daemon/cmd/claudecode-remoted/main.go:374-388 | after a revocation a device opens at most as many streams as it had admitted ticket requests without one, each for a request of its own from before |
| IdentitySafety.TicketStillOpens | daemon/cmd/claudecode-remoted/main.go:480-511 | and such a request does get its ticket, which opens a stream if and only if it is used within thirty seconds, whatever has become of the row |
| Sweeping.AttemptSweepUnobservable | daemon/internal/identity/owner.go:145-151 | over every run, the swept attempts map verifies, refutes and completes exactly as one never swept |
| Sweeping.ChallengeSweepUnobservable | daemon/internal/identity/device.go:166-173 | the same for challenges handed back |
| Sweeping.TicketSweepUnobservable | daemon/cmd/claudecode-remoted/main.go:513-520 | the same for tickets honoured |
| Sweeping.SweepingUnobservable | daemon/internal/identity/owner.go:134-151 | all three, from empty maps |
| Locks.LockStaysInside | daemon/internal/locks/locks.go:95-110 | for every session id the lock's name has no slash and is no special directory |
| Locks.LockNamesApart | daemon/internal/locks/locks.go:48-50 | ids of the daemon's own making never share a lock |
| Locks.SameLockExactly | daemon/internal/locks/locks.go:99-110 | exactly which ids share a lock: as long, and different only where both have, or become, an underscore |
| Locks.SweepNamesAgentsOnly | server-provisioning/idle-update-check.sh:32 | the pattern of the stale sweep matches every agent's lock and no session's |
| Locks.Manager.Path | daemon/internal/locks/locks.go:48-50 | the sanitising loop computes the name |
| Locks.Manager.Acquire | daemon/internal/locks/locks.go:55-61 | idempotent: a lock that is there stays as it is |
| Locks.Manager.Release | daemon/internal/locks/locks.go:65-71 | the lock is gone and nothing else; an absent one is no error |
| Terminal.Manager.Create | daemon/internal/terminal/manager.go:44-68 | tmux, row and lock after success and after each kind of failure, the rollback included, and exactly which of them it is |
| Terminal.Manager.Close | daemon/internal/terminal/manager.go:82-100 | a row that is absent or closed changes nothing; otherwise the row is closed and the lock goes even if tmux does not |
| Terminal.TmuxNamesApart | daemon/internal/terminal/manager.go:49 | two sessions have two tmux names |
| Terminal.CreateRuns | daemon/internal/terminal/manager.go:44-68 | a Create that nothing interrupts does to rows and locks what the steps of the system below do, one after the other |
| Terminal.CloseRuns | daemon/internal/terminal/manager.go:82-100 | and so does a Close |
| SessionSafety.StepKeeps | server-provisioning/agent-run:33-52 | every step of Create, Close, Rename, Touch, agents, sweep and updater keeps the invariant |
| SessionSafety.OpenSessionsAreLocked | daemon/internal/terminal/manager.go:44-100 | at every point of every interleaving a session whose Create returned success and whose row is open has its lock |
| SessionSafety.NoUpdateUnderASession | server-provisioning/idle-update-check.sh:32-38 | an update starts only if every session created before the updater looked has been closed, although neither the sweep nor the listing is atomic |
| SessionSafety.ClosedOnce | daemon/internal/db/db.go:166-174 | of any number of closes of one id one gets past the row update, and a lock is released only after it |
| SessionSafety.LockMayOutlive | daemon/internal/terminal/manager.go:44-68 | the converse is false: a run that leaves a lock with no open session |
| SessionLocks.LockExactly | daemon/internal/locks/locks.go:55-71 | at every point of every interleaving a session's lock is there if and only if the last that happened to it was being acquired; so a closed session leaves a lock exactly then |
| SessionLocks.ClosedLockGone | daemon/internal/terminal/manager.go:91-98 | if the close came after Create had returned, the lock is gone if and only if that close released it |
| AgentLocks.AgentHoldsUpdates | server-provisioning/idle-update-check.sh:32-38 | for 360 minutes, until the agent ends, its lock stays and no update starts, whatever sessions, other agents, sweeps and listings do |
| AgentLocks.SweepTakesExactly | server-provisioning/idle-update-check.sh:32 | the sweep takes a file if and only if it is an agent's and older than 360 minutes |
| AgentLocks.FreshLockSwept | server-provisioning/idle-update-check.sh:32 | but it may take a new lock in place of an old one of the same name |

## Left out

- HTTP plumbing, JSON, header middleware, SQLite, tmux, PTYs and WebSocket pumping: input and output; tables are maps and failures are inputs.
- User interface, provisioning, backups, the reverse proxy and the installer scripts: nothing to prove beyond the lock logic of `idle-update-check.sh` and `agent-run`.
- SHA-256, Ed25519, Argon2, TOTP codes, passkey ceremonies and response timing: uninterpreted or inputs. `Owner` never calls `BindSession`, so with the concrete passkey verifier no pairing completes; the model takes the verifiers' verdicts as given.
- "A TOTP code is accepted at most once": not claimed, the verifier remembers only the last accepted code.
- "No update while an agent runs": claimed for the first 360 minutes only, agent locks are not refreshed and expire then.
- Sessions whose Create has not yet returned when the updater looks, and sessions created after it looked: the code does not keep an update from starting then, so nothing is claimed.
- "A published upload has exactly its declared length" when no hash is declared: Finish does not look at the length again, so nothing is claimed for concurrent clients of one id.
- Whole runs of the middleware with a sweep-free twin: `Sweeping` compares map by map, for every sequence of operations, rather than inside `IdentitySystem`.
- IdentitySystem.Step: the rate limiter and the sources of step-up grants are not steps of it; a factor that the limiter refuses is a step that does not happen, and grants may appear at any time.
- Owner.Owner.SatisfyFactor: a sweep reads the clock once, where the code reads it once per attempt; the reading for the attempt itself may come later.
- Uploads.Finish: removing files succeeds, except that the state file may stay after publishing; the target of a failed copy may be left holding a beginning of the part, as in the code.
- Uploads.Create: keeps the target as it is; the code stores it as JSON, which replaces invalid UTF-8, so that Finish may resolve another path than Create checked.
- Uploads.Settled: hard links, mounts and case-insensitive file systems are no part of the trees.
- Uploads.Finish: tree and disk are two views that a caller supplies; where a result needs them to agree it says so (`Sees`, `Grounded`). Directories that MkdirAll makes are not recorded.
- TusSafety.PrefixInEveryRun: is for runs whose copies stay out of the upload directory (`TameEvents`); GuardExactly shows that without this a Finish can create or change files there.
- SessionSafety.NoUpdateUnderASession: is about listings that succeed; after a failing `ls` the script updates whatever is open.
- ToLower and EqualFold fold ASCII letters only; hashes are hexadecimal, so nothing more is compared.
- UploadMetadata.RoundTripExactly: values are byte strings; the UTF-8 step between Dart strings and bytes is left out.
- Store.ResolveIdempotent: asks that no name in the tree and no root contains NUL, which no kernel stores.
- Store.ResolveExactly: the untouched remainder may begin with the name of a link that leads to nothing, as in the code.
- TusUpload.Upload: asks that the upload directory and the roots do not overlap, that the length fits a 64-bit integer and that the hash is ASCII text.
- ListDevices, ListOpenSessions, Roots, List and Delete: reading and ordering only.
