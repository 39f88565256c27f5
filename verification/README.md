# Protocol model of the remote-desktop host

A Dafny model of the parts of this repository in which correctness spans
several functions, several calls or several tasks:

- **Annex-B normaliser** (`AnnexB.dfy`): the scanner over an array, proved
  against a split of the buffer at `00 00 01`. Every buffer is shown to be a
  framing of its own bodies, and normalising any framing is characterised;
  round trip, idempotence, concatenation and growth follow. A zero in front of
  a 3-byte start code belongs to the code as the scanner reads it, so bodies
  come back unchanged exactly when none that ends in a zero stands before such
  a code.
- **Protected-range guard** (`DiffGuard.dfy`, `DiffSoundness.dfy`): the walk
  over the lines of a unified diff, related to applying the diff. Passing means
  the range is in the new file unchanged and in one piece. The walk takes a
  changed line that reads `---` or `+++` for a file header; on the diff's lines
  it is exact for every range if and only if there is no such line, and a
  concrete family of diffs deletes the only protected row unseen. The text is
  split at form feeds and Unicode line breaks too; it yields the diff's lines
  if and only if none of them holds such a break, and another family of diffs
  gets a deletion past the check behind one. Splitting a range around row m
  admits insertions in front of m and its deletion; replacing row m is flagged,
  because the new text lands on row m+1.
- **Chunked file transfer** (`TransferNames.dfy`, `FileTransfer.dfy`,
  `TransferRuns.dfy`, `TransferStory.dfy`): sender loop, receiver state machine and name allocation
  over a directory. Chunk counters are 32 bits wide and wrap, which only
  2^32 chunks, most of them empty, can reach. When all 10,000 names are taken
  the base name is handed out again and its file is emptied, even that of a
  completed transfer.
- **Hello-time authentication** (`HostTypes.dfy`, `PinLockout.dfy`,
  `EphemeralCode.dfy`, `AuthValidator.dfy`): PIN lockout over a clock,
  single-use code, trust on first use. The failure counter is a `u8` and wraps
  in the release profile (`Cargo.toml` turns no overflow checks on). Every
  result holds past the wrap: lockouts are told from the number of failures
  modulo 256, the guess rate is given for any number of failures and attained,
  and every failure from the threshold on costs a lockout for ever exactly when
  the threshold or the lockout is zero.
- **Session loop** (`SessionLoop.dfy`, `PeerMigration.dfy`): the consent gate,
  the Hello behind it, the peer store they share, and the store migrated from
  the legacy file. The peer file is written on remembered accepts only, but
  then with everything accepted so far, remembered or not.
- **Input task and control hand-off** (`InputTask.dfy`, `ControlHandoff.dfy`):
  the permission gates, and the bitrate channel and IDR flag under every
  interleaving with the video loop. A configured bitrate of zero makes the
  clamp panic, and no other does. A drain ends, and a waiting IDR request is
  answered, exactly when the video loop catches up with the rates sent; a peer
  that keeps sending them can hold off both.
- **Trust stores as text** (`Base64.dfy`, `TrustText.dfy`, `TrustLines.dfy`,
  `TrustOrder.dfy`, `KnownHosts.dfy`, `KnownPeersFile.dfy`): base64 (sections 3.2, 3.5 and 4 of RFC 4648), line
  parser, printer, and trust on first use through the printed file. Names that
  are empty, contain white space or start with `#` do not survive the text; the
  stores read back exactly when there are none.

`Prelude.dfy` and `Decimal.dfy` hold what the modules share. Code that changes
state in place is a class or a method with a loop, proved against a step
function; the theorems are about runs of these step functions.
`dafny verify dfyconfig.toml` checks everything.

Assumptions: file operations succeed; `validate` runs one call at a time, as
the session loop calls it; the clock never goes back; PIN verification is an
arbitrary function of the payload; random values, clock readings and the
operator's answers are inputs.

## Model

| member | source | states |
|---|---|---|
| AnnexB.NormalizeToAnnexB | crates/media-core/src/annexb.rs:22-72 | outcome and exact bytes appended: the parameter sets only on IDR, and also before NoStartCode; then the 4-byte framing of the buffer's bodies |
| AnnexB.FindNalEnd | crates/media-core/src/annexb.rs:47-59 | the inner scan stops at the first 3- or 4-byte start code, or at the end |
| AnnexB.NormalizeFramed | crates/media-core/src/annexb.rs:34-67 | normalising any mix of codes around code-free bodies, behind any junk, gives the 4-byte framing of the bodies less the zeros lost to 3-byte codes |
| AnnexB.RoundTrip | crates/media-core/src/annexb.rs:34-67 | the bodies come back unchanged if and only if none that ends in a zero stands before a 3-byte code |
| AnnexB.RoundTripOfNalUnits | crates/media-core/src/annexb.rs:34-67 | NAL units without trailing zeros always round-trip |
| AnnexB.TwoUnits | crates/media-core/src/annexb.rs:34-67 | in plain bytes: two units with a code of either width between them come out behind `00 00 00 01` each |
| AnnexB.Reassemble | crates/media-core/src/annexb.rs:44-63 | every byte string is the join of the bodies that the split reads from it; nothing is lost |
| AnnexB.Idempotent | crates/media-core/src/annexb.rs:34-67 | normalising the output again reproduces it |
| AnnexB.Concatenation | crates/media-core/src/annexb.rs:34-67 | a buffer followed by one that starts with a 4-byte code normalises to the two outputs in a row |
| AnnexB.Growth | crates/media-core/src/annexb.rs:60-61 | three times the output length is at most four times the input length |
| DiffGuard.Check | scripts/check-8bit-helpers-byte-identity.py:165-219 | on the diff's text: a blank one passes, any other is split as `splitlines` does and walked; verdict and flagged lines are the walk's |
| DiffGuard.SplitOfPrinted | scripts/check-8bit-helpers-byte-identity.py:177-177 | the printed lines are split as they were if and only if none holds a line break of its own |
| DiffGuard.EveryBreakBreaks | scripts/check-8bit-helpers-byte-identity.py:177-177 | each of the ten line-ending characters ends a line, and CR LF ends one |
| DiffGuard.SplitOfPlain | scripts/check-8bit-helpers-byte-identity.py:177-177 | lines of tabs and printable ASCII are split off whole |
| DiffGuard.Walk | scripts/check-8bit-helpers-byte-identity.py:173-208 | the loop collects exactly the flags, and both its counters are, at every line, those of the cursor semantics |
| DiffGuard.HeaderExactly | scripts/check-8bit-helpers-byte-identity.py:109-109 | a line is matched as a hunk header if and only if it is made of the expression's parts, and then for the rows its two start numbers say |
| DiffGuard.HeaderReads | scripts/check-8bit-helpers-byte-identity.py:109-109 | so a printed header, with or without counts, gives back both its start rows |
| DiffGuard.KindByCharacters | scripts/check-8bit-helpers-byte-identity.py:178-206 | any other line is classified by its first one and next two characters |
| Decimal.RenderExactly | crates/filetransfer/src/lib.rs:269-274 | the numeral of a number is its one string of digits without a leading zero |
| Decimal.ValueByPlaces | scripts/check-8bit-helpers-byte-identity.py:180-181 | a string of digits is read by places of ten |
| DiffGuard.BodyLineRead | scripts/check-8bit-helpers-byte-identity.py:178-206 | a body line is taken for what it is, unless it reads `---` or `+++`, when it is skipped |
| DiffGuard.SidesOfScript | scripts/check-8bit-helpers-byte-identity.py:167-169 | the edit script of a fitting diff has the old file as one side and the patched file as the other |
| DiffGuard.WalkHunks | scripts/check-8bit-helpers-byte-identity.py:177-206 | over the whole diff the walk flags exactly the script's changes that land in the range |
| DiffSoundness.FlagsAreLandings | scripts/check-8bit-helpers-byte-identity.py:177-208 | on the text of a safe diff the flags are exactly the deletions and insertions landing on a row in [lo, hi] |
| DiffSoundness.ExactForSafeDiffs | scripts/check-8bit-helpers-byte-identity.py:188-204 | on the diff's lines the walk is exact for every range if and only if no changed line reads `---` or `+++` |
| DiffSoundness.GuardSound | scripts/check-8bit-helpers-byte-identity.py:177-219 | nothing flagged: the new file holds old rows lo..hi as one block, shifted by additions minus deletions above lo |
| DiffSoundness.CheckSound | scripts/check-8bit-helpers-byte-identity.py:165-219 | the same from the diff's text, as long as no line holds one of the ten characters that end a line |
| DiffSoundness.DeletionBehindBreakMissed | scripts/check-8bit-helpers-byte-identity.py:177-177 | a kept row with a form feed or another break in it makes the check pass the deletion of the protected row behind it |
| DiffSoundness.GuardExact | scripts/check-8bit-helpers-byte-identity.py:188-204 | nothing flagged if and only if every row of the range is kept with nothing put in front of it |
| DiffSoundness.SplitRange | scripts/check-8bit-helpers-byte-identity.py:67-68 | passing [lo, m-1] and [m+1, hi] leaves both blocks whole with only inserted lines, and row m if kept, between them |
| DiffSoundness.Preserved | scripts/check-8bit-helpers-byte-identity.py:195-204 | a script of which nothing lands in the range copies its rows to the new file in one piece |
| DiffSoundness.RowInNewFile | scripts/check-8bit-helpers-byte-identity.py:195-206 | the images of the old rows, insertions in front included, follow one another in the new file |
| DiffSoundness.MadeIsShifted | scripts/check-8bit-helpers-byte-identity.py:188-206 | the new lines made by a row are its index plus additions minus deletions above it |
| DiffSoundness.AppendingPasses | scripts/check-8bit-helpers-byte-identity.py:200-204 | for a diff that inserts lines behind row hi, the guard flags what it would flag without them |
| DiffSoundness.ReplacingTheOpenRowIsFlagged | scripts/check-8bit-helpers-byte-identity.py:56-68 | the guard flags, for the second range of a split, every diff that replaces the row left open |
| DiffSoundness.RowsAreTrue | scripts/check-8bit-helpers-byte-identity.py:179-206 | at every body line of the diff, counters and hunk header agree if and only if no line before it in its hunk reads `---` or `+++`; and there the two files hold the line |
| DiffSoundness.MarkerDeletionMissed | scripts/check-8bit-helpers-byte-identity.py:188-188 | deleting a row that starts with `--` passes although the only protected row is gone |
| DiffSoundness.CountersWrongBehindMarker | scripts/check-8bit-helpers-byte-identity.py:188-208 | behind such a line the counters are off although the hunk header names the right rows |
| TransferNames.SafeBase | crates/filetransfer/src/lib.rs:152-163 | an accepted base name is no path and neither empty, a dot name nor one with a NUL |
| TransferNames.BaseOfPath | crates/filetransfer/src/lib.rs:152-156 | a plain name is its own base name, behind any directory |
| TransferNames.FileNameOfParts | crates/filetransfer/src/lib.rs:152-156 | the name of a path, component by component: empty and `.` components do not count, `..` is no name |
| TransferNames.OwnBaseName | crates/filetransfer/src/lib.rs:55-59 | the name a sender takes from its path is one the receiver keeps unchanged |
| TransferNames.CandidatesDistinct | crates/filetransfer/src/lib.rs:269-274 | the base name and all suffixed candidates differ pairwise |
| TransferNames.UniquePath | crates/filetransfer/src/lib.rs:262-280 | the first of 10,000 names that does not exist, numbered in front of the last dot that is not the first character; the base name when all exist |
| TransferNames.ExtensionKept | crates/filetransfer/src/lib.rs:269-274 | for `stem.ext` the names tried are `stem-1.ext`, `stem-2.ext`, ... |
| TransferNames.FewFilesLeaveAName | crates/filetransfer/src/lib.rs:269-279 | with fewer than 10,000 names taken a free one remains |
| FileTransfer.TransferReceiver.Handle | crates/filetransfer/src/lib.rs:140-257 | outcome and whole new state of table and directory for every message |
| FileTransfer.SendFile | crates/filetransfer/src/lib.rs:42-95 | size and name errors send nothing; otherwise one Begin with the size, the pieces as numbered chunks and a successful End |
| FileTransfer.WrittenExactly | crates/filetransfer/src/lib.rs:221-226 | a write at the handle's offset byte by byte: old bytes, new bytes, zeros in a gap |
| FileTransfer.SequenceNeverWraps | crates/filetransfer/src/lib.rs:72-86 | below 4 GiB there are fewer than 2^32 chunks and each carries its own index |
| FileTransfer.StepKeepsSound | crates/filetransfer/src/lib.rs:143-254 | no two live transfers share a file, each file is as long as written, and a message touches no other file |
| FileTransfer.ChunkAppends | crates/filetransfer/src/lib.rs:202-228 | an accepted chunk is the expected one and appends to its own file only |
| FileTransfer.BeginAltersOnlyWithoutName | crates/filetransfer/src/lib.rs:168-195 | an accepted Begin leaves existing contents as they are if and only if a name was free, or the base file was empty |
| FileTransfer.FewBeginsFindNames | crates/filetransfer/src/lib.rs:262-280 | in a directory with room for the whole run every Begin finds a name |
| TransferRuns.RunIsTallied | crates/filetransfer/src/lib.rs:143-228 | in every run, with free names or not, bytes, size and counter of a live transfer follow from the chunks accepted since its latest Begin |
| TransferRuns.RunIsRecorded | crates/filetransfer/src/lib.rs:143-254 | with free names, a live transfer's file is the payload of those chunks |
| TransferRuns.CompletionMeansPayload | crates/filetransfer/src/lib.rs:230-254 | in every run completion is successful exactly when the End says so and the chunks 0, 1, 2, ... accepted add up to the declared length; with free names the file holds them |
| TransferRuns.LiveTransfersAreBounded | crates/filetransfer/src/lib.rs:143-228 | in every run written <= declared <= cap, and the counter is the number of accepted chunks modulo 2^32; with free names the file is as long as written |
| TransferStory.RunTellsStory | crates/filetransfer/src/lib.rs:143-254 | the table refines, for each id, a story of what was declared and the pieces received |
| TransferStory.AnsweredByStory | crates/filetransfer/src/lib.rs:138-257 | over every run each message is answered as that story has it, and unrelated ones are left to others |
| TransferRuns.DeadUntilBegin | crates/filetransfer/src/lib.rs:202-237 | once out of the table, an id's chunks and Ends are dropped without effect until a Begin for it is accepted |
| TransferRuns.CompletedFileEmptied | crates/filetransfer/src/lib.rs:262-280 | with all other candidates taken, a completed transfer's file is emptied by the next Begin for its name under another id |
| TransferRuns.ClosedFilesKept | crates/filetransfer/src/lib.rs:143-254 | a file no live transfer holds is never changed again |
| TransferRuns.NonInterference | crates/filetransfer/src/lib.rs:140-257 | outcomes and contents for one id equal those of its own messages alone, whatever the directories held |
| TransferRuns.Delivery | crates/filetransfer/src/lib.rs:42-257 | a send of the file at a path, interleaved with anything else, completes with success, and the file ends as the source byte for byte |
| TransferRuns.DeliveryIntoSmallDirectory | crates/filetransfer/src/lib.rs:42-280 | the same with the free names guaranteed by counting |
| HostTypes.PeerStore.Record | crates/host/src/lib.rs:800-823 | an accept rewrites the first entry for its key or appends one |
| HostTypes.PeerStore.Find | crates/host/src/auth.rs:190-191 | the index of the first entry for a key |
| PinLockout.TableReadsHistory | crates/host/src/auth.rs:217-275 | what the table says of a peer is what the times of its wrong PINs say, wrapped counter and pruning included |
| PinLockout.OutcomeExactly | crates/host/src/auth.rs:217-270 | in every run an attempt is locked out if and only if the peer's last wrong PIN, by its number modulo 256, set a lockout and is less than the configured seconds old; else the PIN decides |
| PinLockout.RunIsCounted | crates/host/src/auth.rs:252-258 | a peer's entry counts its wrong PINs since the last success modulo 256 |
| PinLockout.PruningExactly | crates/host/src/auth.rs:220-224 | pruning removes exactly the entries at a multiple of 256 failures whose lockout is over, so none before a 256th failure |
| PinLockout.GuessRate | crates/host/src/auth.rs:217-275 | between a peer's k-th and n-th wrong PIN lie the configured seconds for every failure in between that sets a lockout, for all k and n, among any other peers' attempts |
| PinLockout.WaitsInClosedForm | crates/host/src/auth.rs:258-263 | their number from the threshold m on is n - m less the up to m failures in every further round of the counter |
| PinLockout.RateIsAttained | crates/host/src/auth.rs:217-275 | guessing as soon as each lockout ends takes exactly that time between any two guesses, for any number of them |
| PinLockout.BoundForeverExactly | crates/host/src/auth.rs:258-263 | the bound holds for every number of failures if and only if the threshold or the lockout is zero |
| PinLockout.OthersDoNotMatter | crates/host/src/auth.rs:217-280 | a peer's outcomes are those of its own attempts alone |
| EphemeralCode.SlotIsLatestRotation | crates/host/src/auth.rs:103-111 | the slot holds the latest rotation until the one grant on it |
| EphemeralCode.GrantExactly | crates/host/src/auth.rs:308-362 | granted if and only if the payload is the latest rotation's value, unused and at most the configured seconds old |
| EphemeralCode.GrantsUseDistinctRotations | crates/host/src/auth.rs:359-362 | no two grants rest on one rotation |
| AuthValidator.Validator.Validate | crates/host/src/auth.rs:129-177 | verdict and whole new state: version, size, then the configured mode's own check |
| AuthValidator.Validator.RotateEphemeral | crates/host/src/auth.rs:103-111 | a new code replaces the old one, used or not, and nothing else changes |
| AuthValidator.Validator.ValidatePin | crates/host/src/auth.rs:204-300 | one PIN attempt on the shared table, in place, is one step of the lockout protocol |
| AuthValidator.Validator.ValidateEphemeral | crates/host/src/auth.rs:302-379 | one attempt under the lock is one step of the single-use protocol |
| AuthValidator.Validator.ValidateTofu | crates/host/src/auth.rs:183-202 | stored permissions for a known key, otherwise consent is needed |
| AuthValidator.RunProjects | crates/host/src/auth.rs:129-177 | a run of the validator is a run of each protocol inside it, undisturbed by malformed Hellos, other modes and store changes |
| AuthValidator.VerdictExactly | crates/host/src/auth.rs:129-379 | the whole verdict read off the history: each rejection code for its own reason, stored or default permissions, or consent needed |
| AuthValidator.GrantedExactly | crates/host/src/auth.rs:129-379 | which Hellos are granted: stored key, right PIN outside a lockout, or fresh code; and with which permissions |
| AuthValidator.RejectionExactly | crates/host/src/auth.rs:137-357 | each code, the failed check and the malformed message included, for its one reason |
| SessionLoop.HostLoop.Gate | crates/host/src/lib.rs:752-842 | whether a connection goes on, whether the operator is asked, and the store and file afterwards |
| SessionLoop.HostLoop.Evaluate | crates/host/src/lib.rs:372-412 | the verdict mapped to a grant or a rejection, with silent-allow granting the defaults |
| SessionLoop.HostLoop.Serve | crates/host/src/lib.rs:718-842 | the loop over all arrivals ends in the state, and gives the answers, of the run of steps |
| SessionLoop.LoopIsValidatorRun | crates/host/src/lib.rs:752-940 | every run of the loop is a run of the validator over the same store |
| SessionLoop.StoreHoldsFirstConsent | crates/host/src/lib.rs:804-823 | a key's permissions are those loaded, else the first ever accepted for it |
| SessionLoop.LabelOfFirstConsent | crates/host/src/lib.rs:795-823 | a key's label is the one loaded, else the operator's at its first accept, or the key when that is empty |
| SessionLoop.PromptedExactly | crates/host/src/lib.rs:760-790 | the operator is asked if and only if the question can be delivered and the key was neither loaded nor accepted before |
| SessionLoop.NeverNeedsConsent | crates/host/src/lib.rs:384-409 | without silent-allow the Hello never meets an unknown key |
| SessionLoop.TofuGrantsFirstConsent | crates/host/src/auth.rs:183-202 | a TOFU grant carries exactly the loaded or first accepted permissions; without either there is none |
| SessionLoop.GrantCarriesFirstConsent | crates/host/src/auth.rs:282-299 | in every mode a grant behind the gate carries the loaded or first accepted permissions |
| SessionLoop.SessionStartsExactly | crates/host/src/lib.rs:752-940 | gate and validator together: a session starts if and only if the key is let through and the Hello carries what the mode asks for |
| SessionLoop.RefusedExactly | crates/host/src/lib.rs:372-412 | what a connection is answered over any run: nothing behind a shut gate, the code the history calls for, or a grant |
| SessionLoop.CodesExactly | crates/host/src/lib.rs:381-409 | the codes one by one: version, malformed, wrong method of each mode, lockout, failed check |
| SessionLoop.SilentRecordsNothing | crates/host/src/lib.rs:752-756 | with silent-allow neither store nor file ever changes |
| SessionLoop.KeysStayDistinct | crates/host/src/lib.rs:804-823 | keys stay pairwise distinct; loaded entries stay in file and store |
| SessionLoop.FileHoldsAllUpToLastSave | crates/host/src/lib.rs:824-834 | the file holds all keys accepted up to the last remembered accept, remembered or not, and none accepted after it |
| PeerMigration.MigratedStore | crates/host/src/lib.rs:663-681 | the migrated store has distinct keys and exactly the legacy ones, each with all permissions |
| PeerMigration.LegacyPeersKeepAll | crates/host/src/lib.rs:663-681 | in any later run a legacy peer never prompts, every session it gets has all permissions, and in TOFU mode it always gets one |
| InputTask.InputLoop.Serve | crates/host/src/lib.rs:1318-1414 | the loop over the received messages ends in the state of the run of steps |
| InputTask.InputLoop.HandleControl | crates/host/src/lib.rs:1335-1406 | whole new state after one control message, arm by arm |
| InputTask.InputLoop.HandleInputEvent | crates/host/src/lib.rs:444-455 | dispatched if and only if input is permitted |
| InputTask.PermissionFiltering | crates/host/src/lib.rs:1318-1414 | a session equals, in all it does and where it ends, the fully permitted one fed only the allowed messages |
| InputTask.ChannelsExactly | crates/host/src/lib.rs:425-455 | each channel holds exactly its own permitted messages from before the end, in order; receiver, rates and flag likewise |
| InputTask.PanicsExactly | crates/host/src/lib.rs:1385-1386 | the task can panic if and only if the configured bitrate is zero |
| InputTask.Clamp | crates/host/src/lib.rs:1316-1386 | clamping panics if and only if the bitrate is zero; otherwise a rate out of range becomes 1,000,000 or the smaller of the configured rate and 2^32 - 1 |
| ControlHandoff.DrainingToNewest | crates/host/src/lib.rs:1159-1168 | under every interleaving applied rates are in range, and outside a drain the target is that of applying all in order |
| ControlHandoff.NoRequestLost | crates/host/src/lib.rs:1169-1172 | under every interleaving the flag is up exactly while a request waits, each swap that finds one calls the encoder once, and calls never exceed requests |
| ControlHandoff.QuietPassCatchesUp | crates/host/src/lib.rs:1159-1172 | one pass with the input quiet empties the channel, applies the newest rate and answers a waiting request |
| ControlHandoff.VideoLoop.Pass | crates/host/src/lib.rs:1159-1172 | run while the input task does nothing, the body of the video loop is that pass |
| ControlHandoff.DrainEndsExactly | crates/host/src/lib.rs:1162-1164 | under every schedule a drain is still under way if and only if at each of the video loop's steps its earlier steps were fewer than the rates there were to take |
| ControlHandoff.SentBySchedule | crates/host/src/lib.rs:1382-1399 | those rates are the SetBitrate messages delivered before the input task ends |
| ControlHandoff.RequestAnsweredExactly | crates/host/src/lib.rs:1162-1172 | a request waiting during a drain is answered within a run if and only if the video loop catches up at some step of it and takes two more |
| ControlHandoff.BusyInputHoldsUpVideo | crates/host/src/lib.rs:1162-1172 | one rate before every step keeps the drain going for any number of rounds: nothing is applied and an IDR request made at the start still waits |
| Base64.DecodeOfEncode | crates/crypto/src/keypair.rs:46-61 | decoding undoes encoding |
| Base64.DecodeExact | crates/crypto/src/keypair.rs:46-61 | a text decodes to bytes if and only if it is their encoding, so pad bits must be zero |
| Base64.EncodeExactly | crates/crypto/src/keypair.rs:46-49 | the standard's definition: ceil(8n/6) characters, each the digit for its six bits, zeros behind the last |
| Base64.DigitsInOrder | crates/crypto/src/keypair.rs:46-49 | the digits are those of the standard alphabet, in order |
| TrustText.RowsRead | crates/crypto/src/known_hosts.rs:42-101 | rows with well-formed names are read back from the printed text, in order |
| TrustText.RowsWellFormed | crates/crypto/src/known_hosts.rs:44-67 | the parser never yields a name the format cannot hold |
| TrustLines.SpaceIsWhite | crates/crypto/src/known_hosts.rs:46-60 | what is trimmed and what ends a name are the characters with the property White_Space |
| TrustLines.SkippedExactly | crates/crypto/src/known_hosts.rs:46-49 | a line is skipped if and only if it is white space or its first other character is `#` |
| TrustLines.RowExactly | crates/crypto/src/known_hosts.rs:50-66 | a line is a row if and only if it is a well-formed name, white space and the key's base64 text, in any white space |
| TrustLines.ErrorsExactly | crates/crypto/src/known_hosts.rs:50-65 | a line with a name only lacks its key; any other that is neither skipped nor a row has a bad one |
| TrustLines.FirstErrorExactly | crates/crypto/src/known_hosts.rs:44-68 | the error of a text is that of its first bad line, under that line's number |
| TrustOrder.SortedExactly | crates/crypto/src/known_hosts.rs:90-91 | ascending means by the first character in which two names differ |
| TrustText.SortedNames | crates/crypto/src/known_hosts.rs:90-91 | the names of a map as their one sorted listing |
| KnownHosts.Parse | crates/crypto/src/known_hosts.rs:42-69 | the loop gives the map of the text's rows, later rows winning, or the first bad line with its number and reason |
| KnownHosts.CommentsSkipped | crates/crypto/src/known_hosts.rs:42-69 | a blank or comment line anywhere changes no entry, and only the line number of an error behind it |
| KnownHosts.LastLineEndIsOptional | crates/crypto/src/known_hosts.rs:44-44 | the last line is read with or without a line end |
| KnownHosts.LastRowCounts | crates/crypto/src/known_hosts.rs:66-66 | of several rows for a host the last one counts |
| KnownHosts.Save | crates/crypto/src/known_hosts.rs:88-101 | the loop prints the rows by ascending name |
| KnownHosts.SavedTextExactly | crates/crypto/src/known_hosts.rs:88-101 | the saved text character by character: a line of name, space, base64 key and LF for each host, in order |
| KnownHosts.SavedOnce | crates/crypto/src/known_hosts.rs:88-101 | a map has one text: saving again is byte-identical |
| KnownHosts.ParseOfSave | crates/crypto/src/known_hosts.rs:42-101 | the saved text reads back as the same map if and only if every name is well formed |
| KnownHosts.HostFile.VerifyOrRecord | crates/crypto/src/known_hosts.rs:104-128 | result and file after one call, parse errors included |
| KnownHosts.TrustOnFirstUse | crates/crypto/src/known_hosts.rs:104-128 | over whole runs: FirstSeen, Matched or Mismatch with the first key, by the history of calls; other entries and, but on FirstSeen, the file stay |
| KnownHosts.FirstKeysAreFirst | crates/crypto/src/known_hosts.rs:115-126 | what the run theorem calls the first key of a host is the key of its first call |
| KnownHosts.RecordsArePermanent | crates/crypto/src/known_hosts.rs:115-126 | a recorded key is never replaced |
| KnownHosts.FileFaithfulExactly | crates/crypto/src/known_hosts.rs:104-128 | the file of a run holds all first keys if and only if all host names are well formed |
| KnownPeersFile.Parse | crates/crypto/src/known_peers.rs:64-90 | the loop gives the map of the text's rows, later rows winning, or the first bad line with its number and reason |
| KnownPeersFile.CommentsSkipped | crates/crypto/src/known_peers.rs:64-90 | a blank or comment line anywhere changes no entry, and only the line number of an error behind it |
| KnownPeersFile.LastRowCounts | crates/crypto/src/known_peers.rs:87-87 | of several rows for a key the last one counts |
| KnownPeersFile.Save | crates/crypto/src/known_peers.rs:121-137 | the loop prints the rows by ascending base64 key |
| KnownPeersFile.SavedTextIs | crates/crypto/src/known_peers.rs:121-137 | the saved text character by character: a line of label, space, base64 key and LF for each peer, by the keys' texts |
| KnownPeersFile.SavedOnce | crates/crypto/src/known_peers.rs:119-137 | a store has one text |
| KnownPeersFile.ParseOfSave | crates/crypto/src/known_peers.rs:64-137 | the saved text reads back as the same store if and only if every label is well formed |

## Left out

- SessionLoop.NeverNeedsConsent: peers that the settings panel removes or edits while the loop runs are not modelled.
- DiffSoundness.GuardSound: hunks with an empty old side are not modelled, nor renames or diffs of several files.
- TransferRuns.Delivery: assumes a free name for each Begin; DeliveryIntoSmallDirectory discharges this by counting.
- DiffGuard.Check: non-ASCII digits in hunk headers are not modelled, nor is the cut of the report to twenty lines.
- DiffSoundness.CheckSound: rows that end in a carriage return count as holding a break, although they are split off correctly.
- AuthValidator.Validator.ValidatePin: the lockout check and the recording of a failure are separate critical sections; overlapping calls of `validate` are not modelled, and one pruning pass reads the clock once.
- TransferNames.SafeBase: Unix path rules; Windows separators and drive prefixes are not modelled.
- resolve_marker_range of the guard, which only finds the rows of a named region.
- File-system errors, directories, and byte counts beyond 64 bits.
- The Noise session, bcrypt, random values and TOML: inputs or arbitrary functions here.
- HostTypes.PeerStore.Record: the first-seen and last-seen time stamps are not modelled.
- ControlHandoff.VideoLoop.Pass: the method takes the pass as undisturbed; interleavings are covered by the step relation.
- Reason texts of rejections, and `remove_by_pubkey`, which the session loop never calls.
- The clipboard watcher, the audio gate, capture, encoding, injection and every foreign call.
- Codec negotiation, the transport's own version check in front of the hook, and the handshake timeout: a connection may have no Hello that reaches the validator.
- Frames between two passes of the video loop, and cancellation of its task.
- GUI, tray, themes, updater, configuration files, logs and statistics: input and output, or easy members.
