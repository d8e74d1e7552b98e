# turndb: the storage engines, modelled and proved

turndb keeps content in two stacked engines and serves it through three algorithms. This project models them
in Dafny and proves what their documentation promises.

* **The container** (`src/container.rs`) is one file with two superblock slots, an append-only allocator, a
  free list that is never reused, and a checksummed directory. `Directory`, `Layout`, `Superblocks`, `Varint`
  and `DirectoryCodec` are its format; `Device` is the file under power loss; `Staging` the directory edits;
  `Publication` the protocol as a state machine whose steps are single file operations; `Durability`,
  `DurabilitySteps`, `Readers`, `Checksums` and `Pens` the invariant and its preservation; `CrashSafety` what
  follows for whole runs, and `StaleHandles` what does not once a member handle outlives its turn. `Containers` is
  the handle itself, a class whose every method extends a recorded run of that state machine, so that every theorem
  about runs holds of every use of the class. `Compaction` and `Reclaims` are reclaim: the fresh container, and the
  protocol over file names that puts it in place.
* **The fold** (`src/fold/`) is the content-addressed piece store. `Frames`, `Segments` and `Sidecars` are its
  format; `Pipe` the compression pool, which finishes blocks in any order; `Segstore` the segments as growing
  container members; `FoldState`, `FoldImage` and `FoldCore` the state and what keeps it sound; `Folds` the
  writer class; `FoldReopen` the reopen; `FoldBody` folding a carved body and getting it back; `SegmentMembers` the
  segments as members of the proved container, from a fold's sync through every instant of its commit;
  `ErasedFolds` opening and reading segments of any origin, under declared erasures too.
* **Around them**: `Scans` with `ScanSpec`, `Cursors` and `Paging` (structured paging, `src/scan.rs`), `Carving`
  with `JsonSplit`, `JsonText` and `Chunker` (carving, `src/carve.rs`), `DedupTables`, `Lru` and `Extents`.

Code that updates fields or walks with a moving offset is a class method or a loop here too, proved against a
function on values; the theorems are then about that function and about the states the methods reach.

## What is taken from outside

* `Platform` holds the checksum, its combination, the 4-byte digest, the compressor and UTF-8 validity as
  functions. `Lawful` is all that is used of them: the combination extends a checksum over an appended part,
  decompression inverts compression, compressed text is not empty, digests have four bytes, and a slot of zeros is
  not its own digest (`Host.LawIsConsistent` shows the law can be met). A slot torn by a crash or a failed write
  holds bytes its digest does not cover (`Device.SlotOutcome`); that is the only use made of a checksum's strength.
* A write that has not been followed by a successful barrier may survive, vanish or be any mixture after a power
  loss. A failed barrier promises nothing and loses nothing: the same writes stay in doubt, and a later barrier
  that succeeds makes them durable. Reads of the file do not fail. A failed operation sets a ghost flag of the
  file, so that every method also says when it may fail.
* Read limits are checked on open and never on commit. Opening a published state can therefore be refused by
  limits too small for it, and by nothing else (`Durability.Selected`).
* The content hash separates the texts in play: the pieces already stored and the stretches of the body being
  stored (`FoldBody.Distinguishes`). Nothing is asked of it elsewhere.
* The scan's source is a sequence of id groups in id order, each live or all tombstones, with a positive
  resolution cost. Its merge of several runs is taken as that sequence.
* Worker threads are a pool that hands back any of the outstanding blocks at any time.
* Handles of an earlier opening of the file may outlive it in the same process, and none outlives a power loss.

## What the code does that its text does not say

* **Member-write handles.** `write_all_at` on a member handle looks at nothing but the handle, and `finish_member`
  registers the checksum accumulated while writing without looking at the file. A handle whose owner discarded the
  staged changes still writes at its old position, which is where the next member begins. The code is modelled as
  it is: the protocol's runs include writes through any handle at or past the published tail. Three runs show the
  damage. The member put in the handle's place is overwritten and published (`StaleHandles.DiscardedHandleDamages`);
  a second member begun in that place is overwritten while it is being written, and registered all the same
  (`StaleHandles.OpenMemberDamaged`); after a commit the published member itself is overwritten
  (`StaleHandles.PublishedMemberDamaged`). Short of the third, the superblocks, directories and readers of every run
  are safe whatever such handles write (`CrashSafety.CrashAtomicity`), and only the checksums of the members so
  touched, which the state names `marred`, may be wrong.
  A write through a handle leaves every published and staged byte, and those of the member being written, alone,
  whatever it writes, exactly when it starts at or past the end of the last live claim
  (`StaleHandles.HandleWriteHarmlessIff`). Runs in which every handle write does so keep every checksum right
  (`StaleHandles.HeedfulCrashAtomicity`), and every finished member reads as what was written through its handle
  (`StaleHandles.HeedfulFinishReads`). The check the code lacks, and that suffices, is one a caller can make before
  a write: the container lists this very handle, or it lists none, accepts changes, and its cursor is not past the
  handle's position (`StaleHandles.GuardSuffices`).
* **The anchor protocol and unlinks.** The text (`src/container.rs:1737`, `tests/dst.rs:80-82`) reasons about an
  unlink that never reaches the disk before a later rename or publication takes the name. Under that rule
  (`Sticky`), and under atomic replacement, the protocol is safe at every point, after it returns too. If an unlink
  may or may not survive a power loss (`Lagged`), it is safe before the anchor's unlink and not after it
  (`Reclaims.AnchorSafeExactly`). A store that is safe is not always the newest one: a commit made after the reclaim
  returned is found after every power loss exactly under atomic replacement. Otherwise the replacement may be undone
  and the old store found again, and under `Sticky` the store may be missing and the anchor, older than the commit,
  recovered in its place (`Reclaims.CommitAfterReclaimKeptExactly`).
* **The byte budget of a page.** The total passes the budget only when the first row alone does; further rows that
  reconstruct to no bytes may still follow it (`Scans.ScanSource`).
* **Cursor hex.** Decoding accepts upper-case digits and a plus sign in front of one digit, so several tokens spell
  one cursor (`Cursors.UnhexReadsExactly`); all of them are sealed by the checksum
  (`Cursors.DecodeAcceptsOnlySealedPayloads`).
* **Punching at the last sequence number.** An extent's age is compared through a sum that stops at the largest 64-bit
  number. At that sequence, and at no other, an extent is punched before its grace is over, although a state inside
  the window still reads it (`Readers.GraceEndsExactly`, `Readers.NoGraceAtLast`).

## Model

| member | source | states |
|---|---|---|
| CrashSafety.CrashAtomicity | src/container.rs:1169-1288 | over every run of stage, append, remove, discard, commit, failed writes and barriers, punch, reopen, crash and writes through any member handle at or past the published tail, every file a power loss may leave, its slots whole or holding any bytes that their digest does not cover, opens as exactly the last durable state or exactly the one being published: superblock, directory, free list, every member byte, and every checksum but those of members such a write has marred. Contradictory superblocks cannot be reached |
| CrashSafety.WritableHandleIsFresh | src/container.rs:1185-1193 | after any earlier error, an idle handle that still accepts mutation holds the superblock and slot a fresh open selects, with the same tables, free list and tail when nothing is staged; an acknowledged one is durable |
| CrashSafety.OverwrittenSlotHasDurablePeer | src/container.rs:1262-1288 | whenever a slot is about to be overwritten, the other slot and everything it names are durable and no write is in doubt, even when that slot was adopted without acknowledgement |
| CrashSafety.ReaderIsolation | src/container.rs:28-32 | in every state of every run, any state a reader may hold at or past the punch horizon still reads its member bytes unchanged, and each of its extents is a live member's or was freed after it |
| CrashSafety.ReadersPersist | src/container.rs:1342-1391 | only a power loss ends a reader's hold, and only a punch moves the horizon, to no later than the oldest state its grace spares |
| CrashSafety.PublishedSpaceAccounted | src/container.rs:948-953 | in every state of every run, for the durable, the current and every readable state: every byte of its region is claimed by at most one extent, free extent or directory, and an unclaimed one lies in a padding gap shorter than the alignment after some claim |
| CrashSafety.RunKeepsInv | src/container.rs:1169-1174 | the crash-safety, handle, reader, checksum and open-member invariants hold in every state of every run |
| CrashSafety.NextKeepsInv | src/container.rs:1169-1174 | each single file operation keeps them |
| StaleHandles.HandleWriteHarmlessIff | src/container.rs:1491-1518 | in every idle state of every run and for every position: a write there leaves the slots, the directory, every published and staged member's bytes and those of the member being written as they are, whatever it writes, exactly when the position is at or past the end of the last live claim |
| StaleHandles.DiscardedHandleDamages | src/container.rs:932-943 | begin a member, discard, put a member, write other bytes through the old handle, commit: a run after which the durable file opens and the member reads as the other bytes under the checksum of the bytes put |
| StaleHandles.OpenMemberDamaged | src/container.rs:891-909 | begin a member, discard, begin another, write through its handle, write as much through the old one, finish, commit: a run after which the finished member reads as the other bytes under the checksum of what its own handle wrote |
| StaleHandles.PublishedMemberDamaged | src/container.rs:932-943 | begin a member, discard, put a member and commit, then write through the old handle: the published member reads as the other bytes at once |
| StaleHandles.OtherFailsItsSum | src/container.rs:1434-1478 | such a directory fails its checksums whenever the platform's checksum separates the two texts |
| StaleHandles.MarredOnlyBy | src/container.rs:1491-1518 | no step mars a member but a write through a handle that meets one of its extents, or finishing it while the file does not hold what was written through its handle |
| StaleHandles.LateWriteKeepsInv | src/container.rs:1491-1518 | a write through any handle at or past the last live claim, whole or torn, is a step of the protocol that mars no member, and what was written through the listed handle stands as it stood |
| StaleHandles.HeedfulRunUnharmed | src/container.rs:891-909 | in runs whose handle writes all start at or past the last live claim no member is ever marred, and between calls the file holds what was written through the listed handle |
| StaleHandles.HeedfulCrashAtomicity | src/container.rs:1491-1518 | such runs keep crash atomicity at every point with every checksum right |
| StaleHandles.HeedfulFinishReads | src/container.rs:891-909 | in such runs every finished member reads as exactly what was written through its handle |
| StaleHandles.GuardSuffices | src/container.rs:1491-1518 | a write through the handle the container lists, or, when it lists none and accepts changes, through one not behind its cursor, is at or past every live claim and a step of the protocol |
| Durability.CrashSelectsOldOrNew | src/container.rs:121-136 | given the invariant, any surviving file selects exactly the durable state or exactly the attempted one, in its own slot, the other slot losing |
| Durability.VolatileSelectsCurrent | src/container.rs:609-680 | the file as a running process sees it selects the current state and holds all its bytes |
| Durability.NamedBelowTail | src/container.rs:1197-1259 | everything a published state names lies between the region start and its tail |
| Durability.ReadsLocal | src/container.rs:1993-2166 | reading a published state depends on no byte it does not name |
| DurabilitySteps.FlipKeepsInv | src/container.rs:1262-1288 | the slot write, whole or failed, keeps both the fallback and the attempted state openable and durable |
| DurabilitySteps.FlushKeepsInv | src/container.rs:1315-1329 | a successful barrier makes the selected state the durable one |
| Readers.PunchMissesReader | src/container.rs:1342-1391 | a punch with a grace window touches no extent of any state its grace spares |
| Readers.GraceEndsExactly | src/container.rs:1357-1364 | an extent is punched exactly when its grace is over or the sequence is the largest 64-bit number; a punch spares the states of the last `grace` commits, and at that number only the selected one |
| Readers.NoGraceAtLast | src/container.rs:1357-1364 | the input: at the last sequence number a free extent that the state one commit back still reads may be punched under a grace of four |
| Readers.FreeIsDisjoint | src/container.rs:1153-1167 | a free extent shares no byte with any live claim or any other free extent |
| Readers.UnseenWrite | src/container.rs:28-32 | writes in the slots or at or past the published tail are invisible to every reader |
| Checksums.GrownReads | src/container.rs:1065-1119 | an appended member reads as its old bytes followed by the delta, coalesced or not |
| Checksums.FreshReads | src/container.rs:1153-1167 | a member staged whole reads back the bytes written for it |
| Superblocks.DecodeInvertsEncode | src/container.rs:152-251 | a slot decodes to exactly the claim encoded into it when the claim is semantically valid, and is refused otherwise; it is never mistaken for a torn one |
| Superblocks.DecodeIsExact | src/container.rs:178-217 | for every slot: no claim exactly when bytes 52 to 56 are not the digest of the 52 before them, a claim exactly when the slot is byte for byte what this build writes for that valid claim, and a refusal for all else |
| Superblocks.TakesExactlyPlaced | src/container.rs:219-251 | in numbers, which claims are taken: the birth claim alone at sequence zero; above it those whose directory is not empty, within the ceilings, aligned, past the slots, and ends at the tail |
| Superblocks.HeadFields | src/container.rs:152-176 | each field of a superblock stands at its own offset, whatever follows |
| Superblocks.Select | src/container.rs:121-136 | the newest claim wins; refused exactly when there is none or two different ones share a sequence |
| Directory.ParseInvertsPayload | src/container.rs:1961-2166 | any directory and free list obeying the placement and name rules survive encoding and every field check of reading |
| Directory.ParseAcceptsExactlyPayloads | src/container.rs:1993-2166 | a payload is accepted as given tables exactly when it is their encoding byte for byte, as many members as announced, and every name, extent and free extent is well formed, in order, inside the region and no newer than the state |
| Directory.ParsedExtentsInRegion | src/container.rs:1993-2166 | every accepted extent, of a member or free, is not empty, aligned, past the slots and below the directory, and no freed one is newer than the state |
| Directory.PayloadExample | src/container.rs:1961-1989 | the layout of a payload, byte by byte, on one member and one free extent |
| Directory.ComponentsSpellName | src/container.rs:1909-1926 | the components checked are the one way to cut a name at every slash |
| Directory.NamesTaken | src/container.rs:1909-1926 | a name is taken exactly when it is of 1 to 4096 bytes, without backslash, and however cut at its slashes has no part that is empty, a dot or two dots |
| Layout.EveryByteAccounted | src/container.rs:948-953 | under the allocator's packing every byte below the tail is in exactly one claim or in a gap shorter than the alignment |
| Layout.PackedAppend | src/container.rs:951-967 | a fresh claim at the aligned tail keeps the packing and moves the tail to its end |
| Layout.PackedGrow | src/container.rs:1065-1119 | the claim ending at the tail is the last one, and growing it in place keeps the packing |
| Layout.PlacedPassesOverlapCheck | src/container.rs:2120-2166 | what the allocator places passes the reader's sorted overlap check, in any order |
| Layout.NoOverlapMeansDisjoint | src/container.rs:2120-2166 | the overlap check passes exactly when no byte is in two claims |
| Device.PublishedTablesRead | src/container.rs:1197-1259 | whatever `commit_staged` publishes passes every check of `read_directory` and reads back as exactly the staged members and free list |
| Device.ReadsExactlyPublished | src/container.rs:1993-2166 | reading the directory of a superblock gives tables exactly when the stored bytes carry their checksum, decompress to those tables' encoding, and place every claim in the region and apart from the others |
| Device.OpensExactly | src/container.rs:609-680 | any file opens as a given state exactly when one slot spells its superblock, the other claims nothing or something older, the state stands in the file as above, and the limits admit it |
| Host.KeepsTheShorter | src/fold/codec.rs:94-105 | the compressed form is kept exactly when it is strictly shorter |
| Host.DecodesExactly | src/fold/codec.rs:111-145 | stored and compressed payloads decode to exactly their bytes, and never to another length than the declared one |
| Staging.LookupAfterPut | src/container.rs:1153-1167 | the ordered directory is a map: a put is read back and no other name changes |
| Staging.LookupAfterDrop | src/container.rs:1125-1150 | a removed name is absent and no other name changes |
| Staging.PutKeepsStagedOk | src/container.rs:1153-1167 | staging a member keeps the tables publishable: names ascending, extents inside the region, every claim placed |
| Staging.GrowKeepsStagedOk | src/container.rs:1041-1119 | so does appending |
| Staging.GrowsInPlaceOrAligned | src/container.rs:1065-1119 | an append lengthens the last extent exactly when it ends at the tail, and otherwise adds one at the next aligned offset |
| Staging.DropKeepsStagedOk | src/container.rs:1125-1150 | so does removing: the member's extents become free extents and no space is lost |
| Varint.GetInvertsPut | src/part/idcol.rs:18-50 | every u64 decodes from its encoding, whatever follows |
| Varint.GetIsCanonical | src/part/idcol.rs:26-50 | whatever is accepted is the one encoding of the value returned |
| Varint.LenIsExact | src/container.rs:1928-1930 | the arithmetic length is the exact encoded length |
| DirectoryCodec.EncodedDirectoryLen | src/container.rs:1932-1959 | the computed length is exactly the encoding's |
| DirectoryCodec.EncodeDirectory | src/container.rs:1961-1989 | the encoding loop produces the directory payload, refused exactly when oversized |
| DirectoryCodec.ReadPayload | src/container.rs:1993-2166 | the reading loop accepts exactly what the field-by-field parse accepts, with the same tables |
| Containers.Container.Create | src/container.rs:551-596 | a new container is the one-slot birth image, durable, and starts a run |
| Containers.Container.OpenExisting | src/container.rs:609-680 | opening succeeds exactly when the file selects a readable state, which `Device.OpensExactly` spells out, and the handle is that state, unacknowledged |
| Containers.Container.PutStream | src/container.rs:1001-1022 | a put changes the staged view by exactly that member and reads back its bytes, and every other member reads as before; otherwise the view is untouched and a refusal, the producer or the device is to blame; no byte below the cursor moves |
| Containers.Container.AppendStream | src/container.rs:1041-1119 | an append makes the member its old bytes plus the delta, with the extended checksum; every other member reads as before and no byte below the cursor moves; otherwise the view is untouched, and only for a refusal, the producer or the device |
| Containers.Container.Remove | src/container.rs:1125-1150 | a remove drops exactly that member, frees its extents, and is refused exactly when the handle, the sequence or the free list cannot take it |
| Containers.Container.EditsStayUnderCeilings | src/container.rs:970-988 | no put, append or remove the handle accepts takes the counts of members, extents or free extents past what a commit refuses |
| Containers.Container.DiscardStaged | src/container.rs:932-942 | discarding restores exactly the selected state, and fails exactly when that state cannot be read |
| Containers.Container.Acknowledge | src/container.rs:1315-1328 | a barrier on the selected state makes it durable and changes nothing else |
| Containers.Container.Commit | src/container.rs:1175-1195 | success publishes exactly the staged members and the free list with the superseded directory, durably, at the next sequence; an error means a refusal or a failed device, and leaves a poisoned handle or the new state adopted |
| Containers.Container.CommitStaged | src/container.rs:1197-1259 | the same, up to what `commit` itself adds |
| Containers.Container.SealDirectory | src/container.rs:1197-1259 | before the flip the directory is written past the tail and durable, or refused exactly when a ceiling is passed |
| Containers.SealsUnderCeilings | src/container.rs:1197-1259 | in numbers, exactly what a commit refuses before it writes |
| Containers.Container.Flip | src/container.rs:1262-1288 | the flip publishes the sealed state, or reconciles with the file; after a failure the handle is mutable exactly when the file selects the new superblock from the other slot |
| Containers.Container.Reconcile | src/container.rs:1290-1313 | after a failed flip the handle is what the file selects: mutable exactly when that is the attempted superblock in the other slot, and poisoned otherwise |
| Containers.Container.PunchFreeExtents | src/container.rs:1357-1391 | on any handle, after success a byte is zero if its aligned page lies wholly inside a free extent whose grace is over, and otherwise as before; the counts are the number of such extents that hold a page and of those too young; on a healthy acknowledged handle it is a step of the protocol |
| Containers.Container.BeginMember | src/container.rs:861-888 | one writer takes the cursor, exactly when a member may be put, and gets a handle at the aligned cursor with nothing written |
| Containers.Container.FinishMember | src/container.rs:891-909 | only the handle that owns the cursor registers; the entry is its place, length and accumulated checksum whatever the file holds, and the member reads as what was written through the handle exactly when those bytes still stand; no other member changes |
| Containers.Container.AbandonMember | src/container.rs:911-930 | only the owner gives the cursor back, and nothing else changes |
| Containers.Container.AbandonOpenMember | src/container.rs:944-946 | the open member is forgotten, nothing else changes, and its handle lives on |
| Containers.Container.ReadFileBounded | src/container.rs:818-834 | reading returns exactly the member's bytes, refused exactly when absent or over the bound |
| Containers.Container.Verify | src/container.rs:1434-1478 | verification passes exactly when the selected state can be read and every member's bytes match its checksum; on a healthy handle over a run that marred no member it fails only when limits refuse the directory |
| Containers.FirstMismatch | src/container.rs:1434-1478 | the member loop finds the first member whose bytes do not match its checksum, over any file |
| Containers.MemberWrite.WriteAllAt | src/container.rs:1491-1518 | a sequential write through any handle, listed by the container or not, lands at the handle's own position, and fails only out of sequence, past the offset space or by the device; at or past the published tail it is a step of the protocol, and through the listed handle it always is and mars nothing |
| Compaction.Compact | src/container.rs:1801-1835 | the fresh container has the same names and bytes, at most one extent a member and an empty free list; it fails only for the device or when the members or their directory pass a ceiling |
| Reclaims.RenameSafeExactly | src/container.rs:1703-1747 | the rename protocol leaves a whole store at every crash point exactly under atomic replacement or before the replace; otherwise a state with neither store nor anchor is reachable from the replace on, when unlinks may survive or no anchor was there |
| Reclaims.AnchorSafeExactly | src/container.rs:1703-1747 | the anchor protocol leaves a whole store or a whole anchor at every crash point, exactly unless unlinks may reach the disk on their own and the anchor's unlink has begun |
| Reclaims.CommitAfterReclaimKeptExactly | src/container.rs:1720-1747 | a commit made after the anchor protocol returned is what a writer open finds after every power loss exactly under atomic replacement; otherwise the old store, and under the source's rule for unlinks also the older anchor, may be found instead |
| Reclaims.CommitAfterRenameKept | src/container.rs:1703-1716 | after the rename protocol, where replacement is atomic, a later commit is always found |
| Reclaims.RestoreIsSafe | src/store/mod.rs:2687-2733 | recovery from an anchor is safe at every crash point under every durability, and ends with the compacted store in place |
| Reclaims.AnchorLeavesNoDebris | src/container.rs:1703-1747 | whatever debris lies beside the store, each create and rename of the anchor protocol finds its target name free, and afterwards only the store is left, the copy |
| Reclaims.RenameLeavesNoDebris | src/container.rs:1703-1747 | so with the rename protocol, which leaves the fresh file |
| Reclaims.RestoreLeavesNoDebris | src/store/mod.rs:2687-2733 | so with the recovery: it ends with the copy as the store and without anchor or candidates |
| Paging.FollowingCursorsLosesNothing | src/scan.rs:614-852 | for any source, request, predicates and per-page choice of the four budgets, following `next` until absent returns exactly the filtered rows, in order, in at most as many pages as groups |
| Paging.EveryMatchingRowExactlyOnce | src/scan.rs:614-852 | the ids over all pages are exactly those of the live matching rows in range, strictly ordered in scan direction |
| Paging.NextResumes | src/scan.rs:498-505 | a returned token is accepted by any later page of the request and continues with exactly what is left, which is strictly less |
| Paging.AnswerIsTheFilteredRange | src/scan.rs:614-852 | filtering once means: the live groups from the lower bound on and below the upper that the predicates accept, each once, in order, each row with its record exactly when the request needs one |
| Scans.ScanSource | src/scan.rs:614-852 | a page consumes a prefix of the walk, returns exactly its live matching rows within every budget, stops only for a reason, and carries a cursor exactly when groups remain; refused exactly for a bad request or cursor, or an id too long to name |
| Scans.StartsExactly | src/scan.rs:472-497 | a request without a token starts at its bounds, and a token handed out for one request is taken up by another exactly where direction and fingerprint agree and budgets and bounds are allowed |
| Scans.StartsFromSealedOnly | src/scan.rs:472-497 | no other token is taken up: it spells the sealed payload of this direction, this fingerprint and the id continued past |
| Scans.GatherPage | src/scan.rs:646-822 | the gathering loop stops at a budget, a deferred row or the end of the range, and reports which truthfully |
| Scans.ExamineBatch | src/scan.rs:705-800 | examining candidates in demand-sized chunks with batched decoding is the same as taking them one at a time |
| Scans.ScanCandidates | src/store/read.rs:297-441 | the source resolves a prefix of the remaining groups within its limits, at least one when an oversized group is allowed, and reports where it stopped truthfully |
| ScanSpec.WalkPast | src/scan.rs:498-505 | continuing past the k-th group walks exactly the rest, in either direction |
| Cursors.AfterIsLeastAbove | src/scan.rs:1014-1018 | the lower bound used to continue is the least string above the last id |
| Cursors.DecodeInvertsEncode | src/scan.rs:1028-1080 | a cursor decodes to what was encoded |
| Cursors.DecodeAcceptsOnlySealedPayloads | src/scan.rs:1046-1080 | a token is accepted as a cursor exactly when it spells that cursor's payload sealed by its checksum |
| Cursors.UnhexReadsExactly | src/scan.rs:1174-1186 | a text decodes to given bytes exactly when each pair is the two digits of its byte in either case, or a plus sign and one digit |
| Cursors.PayloadFields | src/scan.rs:1028-1044 | each field of a cursor's payload stands at its own offset |
| Frames.EncodeFrame | src/fold/block.rs:164-199 | a frame is header, payload and tail checksum, refused exactly when empty or a length passes its field |
| Frames.ParseInvertsHdr | src/fold/block.rs:123-153 | a written header parses back to its own fields whatever follows |
| Frames.VerifyInvertsFrame | src/fold/block.rs:202-215 | a written frame is accepted whole |
| Frames.ParsesExactlyHeaders | src/fold/block.rs:123-153 | a header is accepted exactly when its fields may be carried and its sixteen bytes spell them |
| Frames.VerifiesExactlyFrames | src/fold/block.rs:202-215 | a frame is accepted exactly when its header reads, all its bytes are there, and the last four are the digest of the rest |
| Frames.FrameReadsBack | src/fold/mod.rs:1534-1612 | a frame standing in a segment reads back as exactly the block it was built from, through every check of a read |
| Frames.ReadsExactlyBlocks | src/fold/mod.rs:1534-1612 | a block reads as given bytes exactly when a whole frame of that id stands at the offset, within the limits and the segment bound, and its payload decompresses to bytes carrying the header's own check |
| Segments.DecodeInvertsSegHeader | src/fold/segment.rs:68-105 | a segment header decodes under its own number |
| Segments.DecodesExactlySegHeaders | src/fold/segment.rs:68-105 | a header is accepted under a number exactly when it is that segment's plaintext header |
| Segments.ScanFramesWindow | src/fold/segment.rs:289-406 | the scanning loop computes the frame walk of the window |
| Segments.TailScanOfCutSegment | src/fold/segment.rs:289-406 | a chain of frames cut at any byte scans to the largest frame boundary at or below the cut, with exactly the complete frames |
| Segments.HeaderDecides | src/fold/segment.rs:289-406 | one step of the scan where a header reads: refused when sizes or counts are not admitted, the end when the frame runs past the window, taken when it is whole or in a declared range, ends included, and otherwise the tail or a refusal by whether anything follows |
| Segments.DamageIsTailOrRefused | src/fold/segment.rs:289-406 | after a standing chain, an undeclared frame that is not whole is the torn tail if it would be the last, and refuses the segment if anything follows it |
| Segments.NoHeaderIsTailOrRefused | src/fold/segment.rs:289-406 | so are bytes that read as no header: a tail only if their lengths run past the end, or just to it without a digest |
| Segments.ScanIgnoresPunchedPayloads | src/fold/segment.rs:289-406 | two segments that differ only in payloads declared punched scan alike at every cut |
| Sidecars.EncodeDirSidecar | src/fold/segment.rs:459-471 | the encoding loop writes the sidecar's bytes |
| Sidecars.ParseAcceptsExactlyEncodings | src/fold/segment.rs:556-590 | a sidecar is accepted with given entries exactly when it is byte for byte their encoding and admitted |
| Sidecars.ParseDirSidecar | src/fold/segment.rs:556-590 | the parsing loop accepts exactly that |
| Sidecars.ValidateDirSidecarEntries | src/fold/segment.rs:595-626 | the validation loop decides whether the entries describe the chain of headers |
| Sidecars.ValidationRefinesScan | src/fold/segment.rs:595-626 | whenever the full walk reaches the end of the segment, validation accepts an entry list exactly when it is the walk's directory |
| Pipe.Pool.Submit | src/fold/pipe.rs:87-97 | a submitted block is outstanding once |
| Pipe.Pool.TryTake | src/fold/pipe.rs:99-107 | blocks handed back and blocks still outstanding are together the blocks there were |
| Pipe.Pool.TakeAll | src/fold/pipe.rs:109-123 | every outstanding block comes back exactly once, encoded from its own bytes, unless the workers died |
| Segstore.ContainerSegments.Append | src/fold/segstore.rs:168-189 | a frame is appended exactly at the segment's length |
| SegmentMembers.Append | src/fold/segstore.rs:168-189 | on the proved container: the segment member becomes its old bytes plus the frame exactly when it is there with the expected length and the append is accepted, and every other segment reads as before |
| SegmentMembers.CreateSegment | src/fold/segstore.rs:214-230 | the next segment member is its header, and the others read as before |
| SegmentMembers.WriteSidecar | src/fold/segstore.rs:200-206 | the sidecar member holds the encoded entries, and no segment moves |
| SegmentMembers.PiecesSurvivePowerLoss | src/fold/segstore.rs:191-194 | in any run, also while a later commit's slot write is unsettled: once the states in the balance carry the segments of synced folds, every power loss leaves a file that opens as one of them, rebuilds its block directory, and reads back every piece handed out before the older of them |
| SegmentMembers.CommitFold | src/fold/mod.rs:1711-1729 | committing the container of a synced fold, once it succeeds, makes every power loss give back exactly that fold; at every instant on the way, and when it fails, no power loss loses a piece published before; it fails only for the device, a handle that takes no changes, or staged tables past a ceiling |
| Folds.Fold.PutHashed | src/fold/mod.rs:1368-1430 | a put hands out a new final location for exactly these bytes, or the known one of that hash: the end of the open block, or the start of the next one when the open block has bytes and no room; the block is sealed by the put exactly when it reaches the target, so between calls an open block is short of it; every earlier location keeps its bytes; a refusal is exactly an unknown inadmissible piece and changes nothing |
| Folds.Fold.Read | src/fold/mod.rs:1443-1476 | a read of any location, handed out or not, gives exactly the range of the block it names, from the open block, the pipeline or disk through the cache, and an error when there is none; every location ever handed out reads back its piece |
| Folds.Fold.ReadVerified | src/fold/mod.rs:1478-1491 | a verified read returns the piece exactly when its hash is the expected one, and never other bytes |
| Folds.Fold.BlockBytes | src/fold/mod.rs:1534-1612 | a written block's bytes are the block, cached or not, and an id with no written block is an error |
| Folds.Fold.SealBlock | src/fold/mod.rs:1617-1636 | sealing moves the open block to the pipeline under the id it already had |
| Folds.Fold.WriteReady | src/fold/mod.rs:1640-1656 | finished blocks are written in whatever order they finish; with `wait`, all of them |
| Folds.Fold.WriteBlock | src/fold/mod.rs:1660-1704 | writing fails only for the store or a full segment namespace: no frame passes the segment bound and no block id is written twice; the frame goes to the tail, or to a new segment exactly when the active one already holds a frame and would pass the roll threshold |
| Folds.Fold.Roll | src/fold/mod.rs:2033-2062 | rolling opens the next segment and moves no piece |
| Folds.Fold.ActiveBlockEntries | src/fold/mod.rs:2015-2030 | what the writer lists for a segment is what a scan of it finds |
| Folds.Fold.Sync | src/fold/mod.rs:1711-1729 | after a sync every piece is in a written block below the returned tail, the block directory is full, and the active sidecar describes the segment |
| Folds.Fold.FrameUnwritten | src/fold/mod.rs:1669-1704 | a finished block fits a frame, is admitted, and is not in the directory: the refusals for oversize and reuse are unreachable |
| Folds.Fold.Note | src/fold/mod.rs:1750-1752 | noting a location adds to the window; the first location wins, except for the all-zero hash, whose last one does |
| Folds.Fold.ReleaseDedupWindow | src/fold/mod.rs:1760-1762 | forgetting the window moves no piece |
| FoldCore.JobReadable | src/fold/mod.rs:1386-1427 | no run of puts builds a block its own limits would refuse to read |
| FoldCore.DrainedIsWritten | src/fold/mod.rs:1711-1729 | with nothing outstanding and no failure, every sealed block is in the directory |
| FoldReopen.ReopenRebuildsWriter | src/fold/mod.rs:896-929 | scanning the segments of any sound fold with nothing in the pipeline rebuilds exactly the writer's block directory and next id, whatever order frames were completed in |
| FoldReopen.ReopenUnderErasures | src/fold/mod.rs:896-929 | so does scanning segments in which declared erasures have destroyed anything but the headers of the declared blocks |
| ErasedFolds.PiecesUnderErasures | src/fold/mod.rs:1534-1612 | after such a reopen every piece outside the declared blocks is read back and every piece in one is refused |
| ErasedFolds.ErasingKeepsChain | src/fold/mod.rs:1780-1935 | whatever is written over the payload of a declared block, the chain of frames still stands under the declaration |
| ErasedFolds.OpensExactly | src/fold/mod.rs:896-929 | segments of any origin open exactly when each has its own header and scans to its end, no block id occurs twice, and every id and their number are admitted; the directory then lists every frame |
| ErasedFolds.OpenMembers | src/fold/mod.rs:771-955 | the checks of the open over members of any origin accept exactly those, with an agreeing committed tail and declared ranges that name existing blocks |
| FoldReopen.RebuildDirectory | src/fold/mod.rs:2275-2297 | the install loop builds the index of every segment, refusing an id seen twice or not admitted |
| FoldReopen.OpenContainerWriter | src/fold/mod.rs:771-955 | over members a sound fold left, opening gives a writer with the same directory, append point, next id and pieces, refused exactly when a committed tail is given and is another; an empty member set is opened by staging segment 0, and refused when a tail is claimed for it |
| FoldBody.FoldSpans | src/store/mod.rs:3774-3805 | folding spans that tile a body yields a program that stands for exactly the body, one operation a span: a literal of its bytes, or for a foldable one their hash and length; it stops only because the fold was or is broken, or turned a piece of the body away and is as healthy as before |
| FoldBody.Reconstruct | src/part/mod.rs:1945-1975 | running a resolved program returns exactly the bytes it stands for |
| FoldBody.RenderedStays | src/part/mod.rs:1945-1975 | nothing the fold does later changes what a program stands for |
| FoldBody.StoreBody | src/store/mod.rs:3774-3805 | carving by any strategy, folding and reconstructing gives the body back byte for byte, unless folding stopped for one of those causes |
| Lru.BlockCache.Get | src/fold/mod.rs:241-254 | a lookup answers from the recency list and moves the entry to its hot end, the clock index staying the inverse of the map |
| Lru.BlockCache.Put | src/fold/mod.rs:262-285 | a put sheds the coldest entries until the new one fits, or is alone |
| Lru.BlockCache.Forget | src/fold/mod.rs:256-260 | forgetting removes exactly that entry, its weight and its clock |
| Lru.SectionCache.Get | src/part/cache.rs:144-154 | the same list, found by scanning |
| Lru.SectionCache.Put | src/part/cache.rs:157-175 | the same list, found by scanning |
| Lru.Replay | src/fold/mod.rs:213-285 | on every trace both caches answer alike and hold the same keys |
| Lru.AnyTraceIsBounded | src/fold/mod.rs:262-285 | after any trace keys are distinct and the weight is within budget or is one entry's |
| Lru.HitMovesToHotEnd | src/fold/mod.rs:241-254 | a hit moves its entry behind all others and keeps their order; a miss changes nothing |
| Lru.PutEvictsFewest | src/fold/mod.rs:262-285 | a put evicts from the cold end the least number of entries that makes room, then holds the new one hottest in place of its key's old entry |
| Lru.StoredEvictsOnly | src/fold/mod.rs:262-285 | a put leaves every other entry untouched or evicts it |
| DedupTables.DedupTable.Get | src/fold/dedup.rs:77-92 | a lookup returns exactly the stored location, for exactly the stored keys |
| DedupTables.DedupTable.Insert | src/fold/dedup.rs:95-103 | the first location wins for a non-zero hash, the last for the zero hash, and no other key changes |
| DedupTables.DedupTable.Grow | src/fold/dedup.rs:121-131 | doubling keeps the whole map |
| DedupTables.DedupTable.Clear | src/fold/dedup.rs:135-140 | clearing forgets everything and keeps the capacity |
| DedupTables.EmptySlot | src/fold/dedup.rs:95-118 | below the load bound some slot is empty, so that every probe ends |
| DedupTables.FillIndexes | src/fold/dedup.rs:106-118 | filling the empty slot a probe met adds exactly that key to the map the slots spell |
| JsonSplit.SplitJsonArray | src/carve.rs:110-171 | the loop computes the split of the text |
| JsonSplit.SplitIsOrdered | src/carve.rs:110-171 | any successful split has ordered, disjoint, non-empty ranges inside the brackets |
| JsonSplit.AppendIsStable | src/carve.rs:284-307 | if `p]` closes at its last byte, every successful split of `p,` followed by anything begins with the same ranges |
| JsonText.SplitsEveryArrayExactly | src/carve.rs:110-171 | every well-formed array (RFC 8259, sections 2 to 7), after whitespace and before anything, splits into one range per element |
| JsonText.RangesCutElements | src/carve.rs:110-171 | each range is its element's text from its first byte to the separator after it |
| Chunker.GearRanges | src/carve.rs:199-236 | the rolling-hash loop computes the chunks, whose ends `Chunker.ChunkEnds` states |
| Chunker.ChunkEnds | src/carve.rs:199-236 | every chunk ends at the first position more than a quarter of the target in where the sum of the last 64 table entries, each doubled once per later byte, has its top bits zero modulo 2^64, as many as its side of the target asks; or at four times the target, or with the body |
| Chunker.OldBytesVanish | src/carve.rs:211-224 | a byte more than 64 places back plays no part in the hash |
| Chunker.ChunksPartition | src/carve.rs:199-236 | chunks partition the body |
| Chunker.ChunkBounds | src/carve.rs:199-236 | a chunk is at most four times the target, and every chunk but the last at least a quarter of it |
| Chunker.AppendKeepsChunks | src/carve.rs:199-236 | appending bytes leaves every chunk but the last unchanged |
| Chunker.ChunksResynchronise | src/carve.rs:340-364 | two bodies with a cut before the same suffix have the same chunks from there on |
| Carving.Ranges | src/carve.rs:68-105 | the carve loop computes the spans of each strategy, which the laws below determine |
| Carving.FoldsExactly | src/carve.rs:68-105 | which bytes fold: none under `Inline`, those of the elements and no others where `Messages` finds elements, and all otherwise |
| Carving.ArrayFoldsItsElements | src/carve.rs:80-104 | over every well-formed array the default carve folds one piece per element: its text from its first byte to the separator |
| Carving.MessagesFoldTheElements | src/carve.rs:80-104 | over any body with elements the folded pieces join to the elements' texts in order, and are those texts when none is larger than `intra` |
| Carving.LargeElementChunked | src/carve.rs:86-95 | an element no larger than `intra` is one piece, and a larger one is cut by the chunker at that target |
| Carving.ChunkedSpans | src/carve.rs:79-103 | a body without elements, or under `Cdc`, folds exactly the chunker's cuts at the strategy's target or at 4096 |
| Carving.EveryCarveTiles | src/carve.rs:252-285 | every strategy tiles every body |
| Carving.TilesAssemble | src/carve.rs:242-250 | spans that tile a body concatenate to it |
| Carving.ResendFoldsTheSamePieces | src/carve.rs:284-307 | a conversation sent again with turns appended folds every earlier piece again, byte for byte and in order; those pieces join to the earlier elements' texts and, without `intra`, are those texts, one for each |
| Extents.PhysicalRanges | src/readat.rs:121-135 | the loop names the runs of a window |
| Extents.WindowPositions | src/readat.rs:121-135 | the runs named are exactly the window's bytes, in order, clamped at the end |
| Extents.WindowRuns | src/readat.rs:121-135 | each extent gives at most one run, none empty unless the window is |
| Extents.NewExtents | src/readat.rs:140-151 | the run table maps every logical byte to its place, empty extents dropped |
| Extents.ReadExactAt | src/readat.rs:154-190 | every in-range window is filled with exactly its bytes and any other is refused with the buffer untouched |
| Extents.ReadIsWindow | src/readat.rs:154-190 | those bytes are the window of the concatenated extents |
| Extents.ReadSlice | src/readat.rs:76-90 | a slice reads exactly its own bytes and never past its end |
| Extents.PunchWithinMember | src/container.rs:773-810 | punching a member range zeroes exactly the bytes a read of that range touches |
| Extents.PunchedImage | src/container.rs:773-810 | the member then reads as before outside the range and as zeros inside it |

## Left out

- Writes through a member handle are taken to happen between calls of the container, not within one.
- Containers.Container.FinishMember: that a handle's fields are those `begin_member` gave it and `write_all_at` kept is a precondition, as is that the opening it carries tells handles of an earlier opening apart, which the source does by comparing open files.
- Containers.Container.PunchFreeExtents: promises nothing of the published states on a poisoned or unacknowledged handle, where the source's caller acknowledges first.
- File locks, file identity and path handling: a handle is assumed to stay on the file it opened.
- Verification of a container with declared erasures, which goes through the store's manifest.
- The BLAKE3 digest a finished member returns, and the byte counts among the punch statistics.
- Overflow of the u64 length computation in `encoded_directory_len`: the length is exact over unbounded numbers.
- The end-offset check of `commit_staged` is made here before the directory is written, in the code after; the handle ends poisoned either way.
- Reclaim's refusals for a pending WAL, and its final reopen and verification.
- `punch_blocks` of the fold: the class has no punch; declared punched ranges are handled in the walk of a segment.
- FoldReopen.OpenContainerWriter: builds the fold object with no declared ranges and over members a sound fold left; what is accepted, refused and read otherwise is stated by `ErasedFolds` without the object.
- Folds.Fold: the class writes to the segment store of `Segstore`, a sequence of members; `SegmentMembers` shows that the container's calls keep exactly that sequence, and the class does not hold the container itself.
- Segments in a plain directory (`DirSegments`), encryption flags and trained dictionaries, which are never written.
- DedupTables.DedupTable.Get: the dedup window of `Folds.Fold` is a map, which the table refines; the class does not hold the table. The probe's mask is a remainder by the power-of-two capacity.
- Lru.SectionCache.Put: keys are numbers and values their bytes; the per-part `forget` and the lock are not modelled.
- Cancellation, deadlines and the timing and statistics fields of a page that no budget depends on.
- The request fingerprint is given, not hashed; content-name requests and their checks are not modelled.
- Scans.ScanCandidates: takes the k-way merge over parts and the write-ahead set as one sequence of id groups.
- The gear table and the rounded logarithm of the chunk target are parameters, the logarithm at most 64.
- JsonText.SplitsEveryArrayExactly: string bytes above the control range need not be valid UTF-8; nesting depth is unbounded, where the code counts in 32 bits.
- Folding is modelled for one fold and one content value; the WAL records of new pieces and the value's identity hash are not.
