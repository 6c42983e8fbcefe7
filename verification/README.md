# NP2PTP, modelled and proved

NP2PTP shares content-addressed files between peers: files are cut into chunks, chunk hashes form a
Merkle tree whose root is the content id, chunks live in an append-only store that several processes
open at once, and peers fetch manifests, chunks or erasure-coded symbols from each other under a
reciprocity policy backed by signed receipts. A bridge reads BitTorrent metainfo. This project models
the parts where those pieces have to agree with each other, and proves what they promise.

`dafny verify dfyconfig.toml` checks the whole project.

## How the model is laid out

| files | what they model |
|---|---|
| Basics, Text, Numerals | bytes, digests, saturation, decimal and hexadecimal text, and what numerals are |
| Merkle, MerkleTheorems | tagged hashing, levels with carried-up odd nodes, proofs; binding, completeness, soundness |
| Manifest, ManifestTheorems, BuildTheorems, DeclaredLengths, ManifestFaults | building, validating and reconstructing manifests, and every error of it |
| IndexLog, RefLog, LineGrammar | the text of `packs/index` and of `refs.tsv`, against a grammar of lines |
| StoreSpec, StoreInvariant, StoreSteps, StoreTheorems, TornLines, Store | the chunk store: steps, the invariant, whole runs with crashes, torn lines and surviving handles, the objects |
| RefTheorems, StoreFaults | where references lead in every run; every error of the store, and rotation |
| Reading, Transfer, RoundTrip, StoreTrees | what can be read out of a store; ingest and export, end to end |
| Bencode, BencodeTheorems, BencodeGrammar, Pieces | the metainfo decoder, against a printer and against the grammar of BEP 3, the `info` span, the two piece verifiers |
| Ledger, Receipts, EventLoop, EventLoopTheorems, EventLoopAccounts, EventLoopReplies | counters, the receipt bag, the event loop and its runs, what it replies and to whom |
| Requests, RequestTheorems, Fec, FecTheorems, FecDownload, FecFaults, HonestFec | the erasure-coded download against any provider and against an honest one |
| MultiFetch, MultiFetchTheorems, MultiFetchFailures, MultiFetchExport | the multi-provider download, every way it can end, and exporting what it brought |
| TwoNodes | from one node's files to another's, by either route |

Code that changes fields or accumulates in loops is a class or a method with loops; each is proved
equal to a step function on values (`PutStep`, `Serve`, `Drained`, ...), and the theorems are about
those functions and about runs made of them. What such a function computes is in turn stated without it:
by a grammar, by the last line or event that decides, by the first fault, or by a sum over what moved.

Conventions:

- **Hashes.** BLAKE3, SHA-1, receipt signatures, the chunker's cut points, the manifest file format
  and the fountain decoder are arbitrary function parameters. The hash is never assumed injective:
  where collision resistance matters the result reads "the claim, or these two explicit finite sets
  of hashed byte strings contain a collision" (`Collide`). A digest is the 256-bit number its 32
  bytes spell. The chunker is assumed to cut non-empty pieces of at most 256 KiB that tile the data.
- **Store granularity.** `open`, `put`, `has`, `get` and a reference are one atomic step each.
  Chunks of any size are put. A crash may stop a `put` at any byte of its pack write or of its index
  line, a reference at any byte of its line, and the trim inside `open` at any byte of the file it
  rewrites. It takes the handle at work; any others may survive. `put` advances its cursor by what it
  appended itself (crates/np2ptp-store/src/lib.rs:298), which is right exactly because of this
  granularity.
- **Orderly runs.** The theorems about runs (`Run`) ask that no handle that survived a crash appends
  to a file that still has the crash's torn line at its end, and that a trim that crashes has no
  survivors around it. Reading and opening are always allowed, and opening removes the torn line.
  If every crash takes every handle, every run is orderly (`TornLines.TotalCrashesAreOrderly`); what
  happens otherwise is `TornLines.PutBehindTorn`.
- **Integers** are unbounded except where the code saturates, clamps or casts: saturating sums,
  the 32-bit length cast of `put`, the `i64` reputation clamp and `saturating_neg`, the `u32` symbol
  cursor and the `i64` bencode integers are written out. `put` reports pack ids past 32 bits and pack
  files past 64 bits as errors.
- **Readable and welcome.** A chunk is readable (`Readable`) when the one place `get` would take it from,
  its pack region, else its legacy object, else the referenced file range, holds bytes with its hash.
  A chunk is welcome (`Welcome`) to a store when it is readable where it is already known to be,
  references the store would learn on the way included, or new to it and below 4 GiB (or what the
  truncated length leaves of it has its hash). Both are per chunk and speak of the
  files only; the rest of the store may be damaged in any way.
- **Network.** Providers answer anything. Requests, replies, failures, identification and closed
  connections are the events. For the receipt result, requests outstanding when a peer's last
  connection closed are answered or failed before that peer is identified again;
  `LostPullLeavesTwo` and `TwoPullsCreditTwice` show why that is needed.
- `hide` statements only limit what the verifier looks at in a proof.

## What differs from what one might expect

- The erasure-coded download refuses an honest provider of small content. The comment at
  crates/np2ptp-net/src/lib.rs:588-591 calls twice the content size generous headroom, but 64 repair
  symbols count too: within the transfer limit of 32 GiB, a correct encoding is refused exactly when
  0 < size < 77056 (`FecTheorems.HonestOutcome`); above the limit content is always refused, as
  intended (`HonestFec.HonestDownload`).
- `put` reports success for a chunk whose only copy is a reference to a file that has vanished, or a
  damaged legacy object, and stores nothing, so an ingest can succeed and the export of it fail
  (`RoundTrip.DanglingReferenceLosesIngest`, a reachable state). Export returns the ingested files
  exactly when every chunk was new to the store or readable where it was already known to be
  (`RoundTrip.IngestThenExport`).
- A crash while `open` trims a torn line can lose completed entries, because the file is emptied and
  written again. Seen before the `open`: it can lose one if and only if the index has a torn line and
  any completed entry (`TornLines.TrimMayLoseIff`), any beginning of the log can be what is left
  (`TornLines.TrimOutcomes`), and a run of four steps gets there (`TornLines.TrimLossReached`). The
  directory stays well formed (`StoreSteps.TrimKeeps`).
- A chunk of 4 GiB or more is packed with a truncated length. At every later state it reads back if and
  only if it is smaller (`StoreTheorems.PutStaysVisible`).
- A reference to a file whose path has a newline in it, or a carriage return at its end, is read back
  with another path; exactly the other paths survive (`RefLog.ReferenceReadsBackIff`).
- The file-by-file and the whole-stream reconstruction agree exactly when the declared sizes sum to a
  u64 (`ManifestTheorems.RoutesAgree`; the case past a u64 is arithmetic only, since chunk lengths are
  32-bit and no buffer is that long). The other way round, a manifest whose stream reconstructs may
  still fail file by file, because only hashes are committed to and not lengths:
  `DeclaredLengths.StreamWithoutFiles` is such a manifest and `DeclaredLengths.FilesFromStream` the
  exact condition.
- The plain download accepts a manifest whose declared total is not the true one, and what it brought
  then cannot be exported at all: `MultiFetchExport.MislabelledDownloads` is such a download, and
  `MultiFetchExport.ExportAfterDownload` says exactly when the export works.
- At the threshold `i64::MIN` the saturating negation serves a peer that is over the threshold, for one
  score (`EventLoopAccounts.ChokedIff`, `EventLoopAccounts.SaturatedThresholdServes`).
- A node keeps and hands out two receipts of one client under one epoch, and whoever pulls them credits
  only the first (`EventLoopReplies.RepeatHandedOut`). A pull credits the whole list if and only if
  nothing in it is so repeated, or the sum is cut off anyway (`EventLoopReplies.TwoNodePull`).
- `merkle_verify` ignores `proof.index`; the position is recovered from the directions of the steps
  (`MerkleTheorems.ProofSound`).
- Only decode-after-encode is an identity: `BencodeTheorems.SpellingsNotUnique` gives two spellings
  of one value.
- A handle that survives a sibling's crash and puts a chunk before anyone reopens the store is told it
  succeeded, but the chunk joins the log if and only if the crash left no torn line
  (`TornLines.PutBehindTorn`). Behind a torn line its cursor ends inside a line, and no other handle
  finds the chunk, surviving or opened later (`TornLines.SwallowedForOthers`,
  `TornLines.SwallowedForLater`).

## Model

| member | source | states |
|---|---|---|
| Merkle.BuildLevels | crates/np2ptp-core/src/hash.rs:92-111 | the loop builds the level structure: every level pairs the one below, the odd node carried up |
| Merkle.MerkleRoot | crates/np2ptp-core/src/hash.rs:114-120 | the top of the levels, or the tagged empty hash |
| Merkle.BuildProof | crates/np2ptp-core/src/hash.rs:123-142 | none out of range, otherwise one step a level that has a sibling |
| Merkle.VerifyProof | crates/np2ptp-core/src/hash.rs:145-155 | the accumulator climbs the steps by their directions; the index is not looked at |
| MerkleTheorems.RootIsTreeValue | crates/np2ptp-core/src/hash.rs:92-120 | the root computed level by level is the value of one binary tree |
| MerkleTheorems.TreeFringe | crates/np2ptp-core/src/hash.rs:92-120 | whose leaves, left to right, are exactly the chunk list |
| MerkleTheorems.RootIsSplitRoot | crates/np2ptp-core/src/hash.rs:54-120 | the level walk computes the root of the tree that splits top-down at `SplitPoint` |
| MerkleTheorems.SplitPointIsPowerOfTwo | crates/np2ptp-core/src/hash.rs:92-111 | which is the largest power of two strictly below the length |
| MerkleTheorems.RootRecursion | crates/np2ptp-core/src/hash.rs:54-120 | the recursion of section 2.1 of RFC 6962, on the roots themselves: the root of a list is the node over the roots of its parts, split at the largest power of two below the length |
| MerkleTheorems.TreeBinding | crates/np2ptp-core/src/hash.rs:54-71 | trees of any two shapes with one value are equal, or an input of one collides with an input of the other |
| MerkleTheorems.RootBinding | crates/np2ptp-core/src/hash.rs:54-120 | chunk lists of any lengths, empty included, with one root are the same list, or their hashed inputs collide |
| MerkleTheorems.ProofIsTreeProof | crates/np2ptp-core/src/hash.rs:123-142 | the proof read off the levels is the sibling path in the tree |
| MerkleTheorems.ProofComplete | crates/np2ptp-core/src/hash.rs:123-155 | for every length and index the produced proof verifies against a root if and only if it is the list's root |
| MerkleTheorems.ClimbSound | crates/np2ptp-core/src/hash.rs:145-155 | steps that climb from a hash to a tree's value are the sibling path of one of its leaves, or a collision is at hand |
| MerkleTheorems.ProofSound | crates/np2ptp-core/src/hash.rs:123-155 | an accepted proof is the produced proof of exactly one index, which holds the proved hash, or a collision is at hand |
| Manifests.PushChunks | crates/np2ptp-core/src/manifest.rs:97-110 | one reference a piece: hash, offset behind the pieces before it, length |
| Manifests.BuildManifest | crates/np2ptp-core/src/manifest.rs:91-123 | the loop over files with its chunk cursor and offset builds the specified manifest |
| Manifests.ValidateManifest | crates/np2ptp-core/src/manifest.rs:215-268 | the loop gives the specified verdict, the same error first |
| Manifests.ReconstructStream | crates/np2ptp-core/src/manifest.rs:304-329 | validated, every chunk fetched and verified, concatenated, total size compared |
| Manifests.SplitIntoFiles | crates/np2ptp-core/src/manifest.rs:334-355 | the stream cut at the declared sizes, or the first error |
| Manifests.ReconstructEachFile | crates/np2ptp-core/src/manifest.rs:360-390 | every file from its own chunk range, sizes compared |
| ManifestTheorems.VerifyChunkIsCheap | crates/np2ptp-core/src/manifest.rs:201-300 | `verify_chunk` holds if and only if the root is consistent and the chunk hash matches, for every manifest, index and bytes |
| ManifestTheorems.ValidateMeaning | crates/np2ptp-core/src/manifest.rs:215-268 | the cursor loop accepts exactly the manifests whose file ranges tile the chunk list with matching sums |
| ManifestTheorems.ValidSumsExact | crates/np2ptp-core/src/manifest.rs:215-268 | below 2^64-1 no sum of a valid manifest has saturated |
| ManifestTheorems.FilesAreStream | crates/np2ptp-core/src/manifest.rs:304-390 | files collected one by one concatenate to the chunks collected in one go |
| ManifestTheorems.SplitUndoes | crates/np2ptp-core/src/manifest.rs:334-355 | splitting the concatenation gives the files back |
| ManifestTheorems.RoutesAgree | crates/np2ptp-core/src/manifest.rs:304-390 | when the file route succeeds the stream route gives the same bytes if and only if the sizes sum to a u64, and splitting then gives the same files; the exact error otherwise |
| DeclaredLengths.FilesFromStream | crates/np2ptp-core/src/manifest.rs:304-390 | when the stream route succeeds the file route does if and only if every file's chunks really hold its declared size |
| DeclaredLengths.StreamWithoutFiles | crates/np2ptp-core/src/manifest.rs:304-390 | a valid manifest with swapped lengths: the stream reconstructs, the files do not |
| DeclaredLengths.MislabelledFails | crates/np2ptp-core/src/manifest.rs:304-329 | a valid, consistent manifest with a wrong total, given its true chunk: SizeMismatch(1, 2) |
| ManifestFaults.ValidateFault | crates/np2ptp-core/src/manifest.rs:215-268 | a rejected manifest is reported for its chunk lengths not summing to the total, else for its first faulty file range with that fault, else for chunks no file covers, else for its file sizes |
| ManifestFaults.CollectFault | crates/np2ptp-core/src/manifest.rs:315-327 | collecting chunks fails exactly when one is absent or does not verify, at the first such chunk |
| ManifestFaults.ReconstructFault | crates/np2ptp-core/src/manifest.rs:304-329 | every error of the stream reconstruction: that of validation, else of the first bad chunk, else the total with what was got and what expected |
| ManifestFaults.ReconstructFilesFault | crates/np2ptp-core/src/manifest.rs:360-390 | every error of the file-by-file reconstruction: the first file that fails, and why |
| ManifestFaults.SplitFault | crates/np2ptp-core/src/manifest.rs:334-355 | splitting fails exactly when the stream is not as long as declared, or the manifest does not validate, or its sizes sum past a u64, with the error of the first of these |
| BuildTheorems.BuildEntry | crates/np2ptp-core/src/manifest.rs:91-123 | entry k of a built manifest covers exactly the pieces of file k |
| BuildTheorems.BuiltChunk | crates/np2ptp-core/src/manifest.rs:91-123 | for every i, chunk i of a built manifest is piece i: at its offset in the concatenated files, which is the length of the pieces before it, are exactly its bytes, with its length and hash; the name is kept |
| BuildTheorems.BuiltManifestValid | crates/np2ptp-core/src/manifest.rs:91-268 | a built manifest validates and its root is consistent |
| BuildTheorems.CollectSupplied | crates/np2ptp-core/src/manifest.rs:315-327 | a source that supplies the right pieces yields their concatenation, by Merkle completeness |
| BuildTheorems.BuiltManifestRoundTrip | crates/np2ptp-core/src/manifest.rs:91-390 | any source of the right chunks reconstructs exactly the files the manifest was built from |
| IndexLog.ParseFormatted | crates/np2ptp-store/src/lib.rs:686-702 | parsing an index line gives back the entry it was written from |
| IndexLog.EntriesOfRendered | crates/np2ptp-store/src/lib.rs:757-788 | reading a whole index file gives back exactly the appended entries, in order |
| IndexLog.CompleteOfTorn | crates/np2ptp-store/src/lib.rs:738-755 | the complete part of an index with a torn tail is the index without it |
| Numerals.ParseUnsignedIff | crates/np2ptp-store/src/lib.rs:671-702 | parsing an unsigned number accepts exactly an optional plus, zeros and the decimal spelling, in range |
| LineGrammar.FromHexIff | crates/np2ptp-store/src/lib.rs:671-702 | parsing a hash accepts exactly its 64 hexadecimal digits, in either case |
| LineGrammar.ParseEntryIff | crates/np2ptp-store/src/lib.rs:686-702 | the parser of index lines accepts exactly hash, pack, offset and length between tabs, in range |
| LineGrammar.IndexLineAdds | crates/np2ptp-store/src/lib.rs:757-773 | a line of any text behind whole lines adds to what the index spells exactly the entry it is a line for, and nothing if it is none |
| RefLog.ParseRefText | crates/np2ptp-store/src/lib.rs:671-684 | parsing a reference line gives back hash, offset, length and path |
| RefLog.ReferencesAppend | crates/np2ptp-store/src/lib.rs:655-669 | text appended behind whole lines adds exactly the references it spells by itself |
| LineGrammar.ParseRefIff | crates/np2ptp-store/src/lib.rs:671-684 | the parser of reference lines accepts exactly hash, offset, length and path between tabs, in range |
| LineGrammar.RefLineAdds | crates/np2ptp-store/src/lib.rs:655-669 | the same for lines of the reference file |
| RefTheorems.InsertRefsMeaning | crates/np2ptp-store/src/lib.rs:655-669 | after absorbing references a chunk is where the last of them about it says, and where it was before if there is none |
| RefLog.AddedReference | crates/np2ptp-store/src/lib.rs:229-243 | the line of an added reference names its chunk whatever the path contains |
| RefLog.ReferenceReadsBackIff | crates/np2ptp-store/src/lib.rs:229-684 | it is read back as written if and only if the path has no newline and does not end in a carriage return |
| Stores.AbsorbLines | crates/np2ptp-store/src/lib.rs:757-773 | later lines win, unreadable lines are skipped |
| Stores.AbsorbRefs | crates/np2ptp-store/src/lib.rs:655-669 | the same for reference lines: a chunk is where its last line says |
| Stores.FindHighest | crates/np2ptp-store/src/lib.rs:803-821 | the highest pack id present, 0 when there is none |
| Stores.Store.constructor | crates/np2ptp-store/src/lib.rs:92-125 | torn lines of both files trimmed, index and references loaded, highest pack resumed |
| Stores.Store.RefreshPackIndex | crates/np2ptp-store/src/lib.rs:163-191 | only complete new lines are taken and the cursor moves by exactly those |
| Stores.Store.RefreshReferences | crates/np2ptp-store/src/lib.rs:197-222 | only complete new reference lines are taken and the cursor moves by exactly those |
| Stores.Store.Has | crates/np2ptp-store/src/lib.rs:141-155 | memory, objects, references, then one refresh of the pack index |
| Stores.Store.Get | crates/np2ptp-store/src/lib.rs:306-328 | the same order with contents checked against the key, and one retry after a refresh; reading no bytes succeeds behind the end of a file |
| Stores.Store.AppendToPack | crates/np2ptp-store/src/lib.rs:825-847 | rotation by the stale size, offset from the file's real end |
| Stores.Store.Put | crates/np2ptp-store/src/lib.rs:270-301 | dedup, double check after refresh, pack append, index append, cursor advance |
| Stores.Store.AddReference | crates/np2ptp-store/src/lib.rs:229-243 | the reference line is appended and the reference known at once to this handle |
| StoreInvariant.RefreshReaches | crates/np2ptp-store/src/lib.rs:163-191 | from any earlier cursor one refresh brings a handle level with the whole log |
| StoreInvariant.HasKeeps | crates/np2ptp-store/src/lib.rs:141-155 | `has` answers yes if and only if the chunk is packed by anyone, an object, or a reference this handle knows |
| StoreInvariant.RefreshRefsReaches | crates/np2ptp-store/src/lib.rs:197-222 | one refresh brings the known references level with the whole file |
| StoreInvariant.WrittenHeld | crates/np2ptp-store/src/lib.rs:825-847 | the pack holds all of an appended chunk where its entry says, for chunks of any size |
| StoreInvariant.HeldRegion | crates/np2ptp-store/src/lib.rs:270-301 | the bytes an entry names are the whole chunk if and only if it is below 4 GiB |
| StoreSteps.PutKeeps | crates/np2ptp-store/src/lib.rs:270-301 | `put` of any chunk keeps the invariant of directory and handle and adds at most its own entry |
| StoreSteps.PutPacks | crates/np2ptp-store/src/lib.rs:270-301 | a `put` that packs adds exactly its own entry and the packs hold the chunk |
| StoreSteps.OpenKeeps | crates/np2ptp-store/src/lib.rs:92-125 | opening restores the invariant from any torn tails |
| StoreSteps.ReferKeeps | crates/np2ptp-store/src/lib.rs:229-243 | adding a reference with any path keeps the invariant |
| StoreSteps.CrashKeeps | crates/np2ptp-store/src/lib.rs:270-301 | a `put` cut off at any byte leaves the old log, or the log with its one entry, and a torn tail |
| StoreSteps.TrimKeeps | crates/np2ptp-store/src/lib.rs:738-755 | a trim cut off at any byte leaves exactly the lines written again, a torn tail, and a well-formed directory |
| StoreSteps.StepKeeps | crates/np2ptp-store/src/lib.rs:92-347 | every orderly step of any handle, crashes with survivors included, keeps the invariant of the whole system, and does to the log exactly: a packing put adds its entry, a cut-off one adds it or nothing, a cut-off trim takes from the end, nothing else changes it |
| StoreTheorems.RunKeeps | crates/np2ptp-store/src/lib.rs:92-347 | the invariant holds at every state of every run; packs only grow, and so does the log except over a cut-off trim |
| StoreTheorems.EntryOrigin | crates/np2ptp-store/src/lib.rs:270-301 | every entry of every state was written by a put of the run, whose chunk the packs still hold in full |
| StoreTheorems.PackedIsFound | crates/np2ptp-store/src/lib.rs:141-347 | any handle, however stale, has every packed chunk and answers with exactly the bytes its entry names, or reports corruption if they do not hash to the key |
| StoreSteps.GetIsGenuine | crates/np2ptp-store/src/lib.rs:248-347 | in any state whatever, bytes that `get` returns hash to the key |
| StoreTheorems.CacheAgreesWithLog | crates/np2ptp-store/src/lib.rs:163-301 | in every run each handle's index is the parse of the file up to its cursor, the cursor is at a line boundary, and every entry stems from a put of the run and names in-bounds bytes, which are that chunk if and only if it was below 4 GiB |
| RefTheorems.ReferencesTraced | crates/np2ptp-store/src/lib.rs:197-243 | in every run the place a handle has for a chunk is the one named by the last line about it among the whole lines up to its cursor, or the one the handle itself wrote last since |
| RefTheorems.ReferredIsRead | crates/np2ptp-store/src/lib.rs:197-268 | in every run, a handle opened after a reference with a clean path was written, and no other for that chunk, gets exactly the range of the source file it names, when those bytes have the hash and the chunk is neither packed nor an object |
| StoreTheorems.NothingPackedTwice | crates/np2ptp-store/src/lib.rs:270-301 | in every run, over all handles, no hash is packed twice and recorded regions are disjoint |
| StoreTheorems.PackedStaysVisible | crates/np2ptp-store/src/lib.rs:141-347 | once packed, at every later state every open handle has it and answers as the packs had it then |
| StoreTheorems.PutAppends | crates/np2ptp-store/src/lib.rs:270-301 | at every state of every run, after any crashes and reopenings, a put that packs appends exactly its own entry, which parses, and the packs hold its chunk |
| StoreTheorems.PutStaysVisible | crates/np2ptp-store/src/lib.rs:141-347 | at every later state every open handle has the chunk and gets exactly the bytes put, if and only if they are below 4 GiB |
| StoreTheorems.CrashRecovers | crates/np2ptp-store/src/lib.rs:738-821 | after a put cut off at any byte, reopening knows exactly the completed entries, loses none, gains at most the one under way, and answers for every one as before |
| TornLines.TrimCrashKeeps | crates/np2ptp-store/src/lib.rs:738-755 | in every run, a cut-off trim keeps exactly the entries whose lines were written again |
| TornLines.TrimOutcomes | crates/np2ptp-store/src/lib.rs:738-755 | with a torn line, any beginning of the log is what a cut-off trim can leave |
| TornLines.TrimMayLoseIff | crates/np2ptp-store/src/lib.rs:738-755 | a cut-off trim can lose a completed entry if and only if, before it, the index has a torn line and any completed entry |
| TornLines.TrimLossReached | crates/np2ptp-store/src/lib.rs:92-301 | a run of an open, a put, a cut-off put and a cut-off trim that loses the one completed entry |
| StoreTheorems.PackedReadsBackIffSmall | crates/np2ptp-store/src/lib.rs:270-301 | a packed chunk reads back if and only if it is below 4 GiB |
| TornLines.TornLineSwallowsNext | crates/np2ptp-store/src/lib.rs:738-788 | any entry appended behind any torn line, the same chunk again included, leaves the index reading as before both |
| TornLines.PutBehindTorn | crates/np2ptp-store/src/lib.rs:270-301 | a put by a survivor reports success; its chunk joins the log, and its cursor stands at a line boundary, if and only if there is no torn line |
| TornLines.SwallowedForOthers | crates/np2ptp-store/src/lib.rs:141-347 | behind a torn line, no other surviving handle has or gets the chunk |
| TornLines.SwallowedForLater | crates/np2ptp-store/src/lib.rs:92-155 | nor does any handle opened later |
| TornLines.OpenHeals | crates/np2ptp-store/src/lib.rs:92-125 | opening makes both files whole again and loses no completed entry, whoever survived |
| TornLines.TotalCrashesAreOrderly | crates/np2ptp-store/src/lib.rs:92-347 | if every crash takes every handle, every sequence of steps is an orderly run |
| Transfer.PutStores | crates/np2ptp-store/src/lib.rs:270-301 | a successful `put` leaves the chunk known to the handle |
| Transfer.PutAllKeeps | crates/np2ptp-store/src/lib.rs:412-419 | any sequence of puts keeps the invariant, stores every piece when it succeeds, and loses nothing stored before |
| Reading.ReadsIff | crates/np2ptp-store/src/lib.rs:306-347 | `get` returns a chunk if and only if the one place it would be read from holds bytes with its hash |
| StoreFaults.GetUnpacked | crates/np2ptp-store/src/lib.rs:248-347 | everything `get` can answer about a chunk that is not packed: the object, or what the reference leads to, or which error |
| StoreFaults.GetPacked | crates/np2ptp-store/src/lib.rs:306-347 | everything it can answer about a packed one |
| StoreFaults.GetDamaged | crates/np2ptp-store/src/lib.rs:330-347 | in any state whatever, a known entry gives an I/O error if and only if its pack is gone or ends before its range |
| StoreFaults.PutError | crates/np2ptp-store/src/lib.rs:270-301 | which of its errors a failing `put` reports, and that it changes what no file holds |
| StoreFaults.OpenIsAccurate | crates/np2ptp-store/src/lib.rs:803-821 | a handle just opened writes to the newest pack and knows its size |
| StoreFaults.PutRotates | crates/np2ptp-store/src/lib.rs:825-847 | a sole writer appends below 256 MiB, to a new pack exactly when the newest has reached it |
| StoreFaults.PutLearnsSize | crates/np2ptp-store/src/lib.rs:825-847 | however many write, right after packing a chunk a handle knows the true size of its pack |
| StoreFaults.SoleWriterBound | crates/np2ptp-store/src/lib.rs:803-847 | no pack a sole writer fills exceeds 256 MiB by a whole chunk |
| Reading.CollectsIff | crates/np2ptp-store/src/lib.rs:384-398 | collecting a manifest's chunks from a store succeeds if and only if each is readable |
| Reading.ExportsIff | crates/np2ptp-store/src/lib.rs:384-398 | `export` succeeds if and only if every chunk is readable and they really hold the declared total |
| Reading.ExportsTreeIff | crates/np2ptp-store/src/lib.rs:425-438 | `export_tree` succeeds if and only if every chunk is readable and every file's chunks really hold its declared size |
| StoreFaults.ExportFault | crates/np2ptp-store/src/lib.rs:384-398 | everything a failing `export` reports: what validation does, else the first chunk not committed to or not readable, with the store's own error if it gave one, else the total |
| StoreFaults.ExportTreeFault | crates/np2ptp-store/src/lib.rs:425-438 | everything a failing `export_tree` reports: what validation does, else the first such chunk, or the size of a file all before which can be read |
| Transfer.PutAllEffect | crates/np2ptp-store/src/lib.rs:412-419 | what a sequence of puts adds: entries for its own pieces only, in no reference; and which references the handle knows afterwards |
| Transfer.ReadableIffWelcome | crates/np2ptp-store/src/lib.rs:270-347 | a chunk put, or stored before, is readable afterwards if and only if before it was readable where known, or new and what the 32-bit length leaves of it has its hash |
| Transfer.PutFailsIff | crates/np2ptp-store/src/lib.rs:270-301 | `put` fails if and only if the chunk is new and pack ids or 64-bit pack sizes are exhausted |
| Transfer.RoomSuffices | crates/np2ptp-store/src/lib.rs:412-419 | room for the pieces before an ingest is enough for every put to succeed |
| Transfer.GetIndependentOfProgress | crates/np2ptp-store/src/lib.rs:306-328 | what `get` answers does not depend on how far the handle has read |
| Transfer.BuiltExport | crates/np2ptp-store/src/lib.rs:425-438 | exporting a built manifest: exactly the files if every chunk is readable, or a collision; an error otherwise |
| RoundTrip.IngestThenExport | crates/np2ptp-store/src/lib.rs:403-438 | from any state meeting the invariant, when the ingest succeeds: if every chunk was welcome, exporting it returns exactly the files, or a chunk collides with what the store held; otherwise the export fails |
| RoundTrip.RoundTripWithRoom | crates/np2ptp-store/src/lib.rs:403-438 | with room in pack ids and packs the ingest does succeed, welcome or not, and the same follows |
| RoundTrip.RoundTripInEveryRun | crates/np2ptp-store/src/lib.rs:403-438 | the same at every state of every run without a torn line in the index, through every handle open in it |
| RoundTrip.InterleavedIngest | crates/np2ptp-store/src/lib.rs:270-438 | in every run whose steps packed the pieces, by any handles, in any order, interleaved with anything else, every handle open later exports exactly the files, with no collision alternative |
| RoundTrip.DanglingReached | crates/np2ptp-store/src/lib.rs:229-243 | the state with one reference to a file since deleted is reached by a run |
| RoundTrip.DanglingReferenceLosesIngest | crates/np2ptp-store/src/lib.rs:403-438 | there, ingesting that chunk succeeds without storing anything and the export fails |
| StoreTrees.IngestTree | crates/np2ptp-store/src/lib.rs:403-421 | the nested loops put exactly the pieces of the files in order and return the built manifest, or the first store error |
| StoreTrees.ExportStream | crates/np2ptp-store/src/lib.rs:384-398 | reconstruction over what the store answers, a store error taking precedence |
| StoreTrees.ExportTree | crates/np2ptp-store/src/lib.rs:425-438 | the same file by file |
| Bencode.ParseValue | crates/np2ptp-bridge/src/bencode.rs:56-70 | dispatch on the first byte under the depth limit |
| Bencode.ParseList | crates/np2ptp-bridge/src/bencode.rs:92-106 | the loop collects items up to the closing byte |
| Bencode.ParseDict | crates/np2ptp-bridge/src/bencode.rs:108-123 | the loop collects key and value pairs |
| Bencode.FindInfoOffset | crates/np2ptp-bridge/src/bencode.rs:129-146 | the second walk, skipping values until the first `info` key |
| Bencode.ReadInfo | crates/np2ptp-bridge/src/bencode.rs:167-172 | the value there and the bytes its decode consumed |
| BencodeTheorems.RoundTrip | crates/np2ptp-bridge/src/bencode.rs:52-123 | decoding an encoded value with any tail gives the value and the tail if and only if its height is at most 32, and that it is nested too deep otherwise |
| BencodeGrammar.DecodeIff | crates/np2ptp-bridge/src/bencode.rs:52-123 | the decoder accepts exactly what spells a value by the grammar of BEP 3, with integers in range and nested at most 32 deep, returns that value and leaves exactly what follows |
| BencodeGrammar.DecodeBytesIff | crates/np2ptp-bridge/src/bencode.rs:79-90 | a byte string is a length, a colon and exactly that many bytes; anything else is refused |
| BencodeGrammar.OneReading | crates/np2ptp-bridge/src/bencode.rs:52-123 | no input spells two values, or one value with two ends |
| BencodeGrammar.InfoOffsetIff | crates/np2ptp-bridge/src/bencode.rs:129-146 | the walk stops behind a key that spells `info`, before which come only whole entries with other keys, and nowhere else |
| BencodeTheorems.DecodeErrors | crates/np2ptp-bridge/src/bencode.rs:56-123 | nesting is blamed only where there are enough openings for it |
| BencodeTheorems.NoInfoReported | crates/np2ptp-bridge/src/bencode.rs:129-146 | a dictionary that decodes and has no `info` is reported as such |
| BencodeTheorems.NotADictionary | crates/np2ptp-bridge/src/bencode.rs:129-172 | anything but a dictionary at the top is malformed |
| BencodeTheorems.DecodeEncoded | crates/np2ptp-bridge/src/bencode.rs:52-123 | the same at any depth |
| BencodeTheorems.SpellingsNotUnique | crates/np2ptp-bridge/src/bencode.rs:72-90 | a leading zero decodes too |
| BencodeTheorems.Shallower | crates/np2ptp-bridge/src/bencode.rs:56-123 | what decodes at some depth decodes the same at any smaller one |
| BencodeTheorems.WalkFindsInfo | crates/np2ptp-bridge/src/bencode.rs:129-146 | the walk stops at the first `info` value of the decoded dictionary |
| BencodeTheorems.InfoSpanExact | crates/np2ptp-bridge/src/bencode.rs:129-172 | the infohash covers exactly the bytes the whole-file decode consumed for the first `info` value |
| Pieces.AcceptsByIndex | crates/np2ptp-bridge/src/lib.rs:105-125 | cutting repeatedly says the same as: right number of pieces, every slice matches its hash |
| Pieces.FullPiecesByIndex | crates/np2ptp-bridge/src/streaming.rs:58-80 | checking piece after piece as they fill says the same as: no more full pieces than hashes, every one matching its own |
| Pieces.VerifyPieces | crates/np2ptp-bridge/src/lib.rs:105-125 | the in-memory check accepts exactly the data so cut |
| Pieces.StreamingPieceVerifier.Feed | crates/np2ptp-bridge/src/streaming.rs:58-69 | what has been fed and what is still expected stay in step across piece boundaries |
| Pieces.StreamingPieceVerifier.Finish | crates/np2ptp-bridge/src/streaming.rs:82-91 | the short last piece, and no hash left over |
| Pieces.VerifyPiecesStreaming | crates/np2ptp-bridge/src/streaming.rs:23-45 | however reads fragment the files, accepted exactly when every file can be read and the in-memory check accepts; the error names the first file that cannot be read unless a full piece of what arrived before it is wrong |
| Ledgers.Ledger.RecordReceived | crates/np2ptp-rep/src/ledger.rs:63-66 | one counter of one peer grows, saturating |
| Ledgers.Ledger.RecordServed | crates/np2ptp-rep/src/ledger.rs:69-72 | likewise |
| Ledgers.Ledger.CreditReceipt | crates/np2ptp-rep/src/ledger.rs:78-81 | likewise |
| Ledgers.ReputationIsNearest | crates/np2ptp-rep/src/ledger.rs:100-111 | the reputation is the i64 closest to what the peer gave beyond what it took |
| Ledgers.Ledger.Totals | crates/np2ptp-rep/src/ledger.rs:89-98 | in whatever order the map is walked, each total is the true sum cut off at u64 |
| Receipts.ReceiptBag.Insert | crates/np2ptp-net/src/receipts.rs:57-64 | no duplicate, sorted by bytes, truncated to fifty |
| Receipts.SortIsDescending | crates/np2ptp-net/src/receipts.rs:57-64 | the sort is descending and a permutation |
| Receipts.InsertKeepsBest | crates/np2ptp-net/src/receipts.rs:57-64 | one insertion keeps: at most fifty, descending, distinct, nothing larger lost |
| Receipts.BagKeepsLargest | crates/np2ptp-net/src/receipts.rs:57-64 | hence after every history of submissions |
| Receipts.FullBagKeepsTies | crates/np2ptp-net/src/receipts.rs:57-64 | a full bag turns away a newcomer no larger than its smallest |
| EventLoops.EventLoop.Identified | crates/np2ptp-net/src/lib.rs:996-1020 | the key is noted and receipts are pulled once from a peer with no history |
| EventLoops.EventLoop.RequestSent | crates/np2ptp-net/src/lib.rs:947-949 | the caller of a request is registered |
| EventLoops.EventLoop.SetChokeThreshold | crates/np2ptp-net/src/lib.rs:951-953 | the threshold is replaced |
| EventLoops.EventLoop.ConnectionClosed | crates/np2ptp-net/src/lib.rs:1069-1079 | only the last connection forgets the peer |
| EventLoops.EventLoop.ReceivedResponse | crates/np2ptp-net/src/lib.rs:1091-1107 | chunk bytes recorded, internal requests dispatched, and the reply handed to the caller if one waits |
| EventLoops.EventLoop.RequestFailed | crates/np2ptp-net/src/lib.rs:1108-1113 | both pending maps forget the request, and the caller is told if one waits |
| EventLoops.EventLoop.HandleReceipts | crates/np2ptp-net/src/lib.rs:1127-1143 | credits the verified receipts naming the peer, first of each client and epoch |
| EventLoops.EventLoop.ServeRequest | crates/np2ptp-net/src/lib.rs:1147-1214 | choke on chunks only, symbols recorded, receipts accepted when genuine, the whole bag handed out |
| EventLoops.EventLoop.SubmitReceipt | crates/np2ptp-net/src/lib.rs:954-964 | a receipt for the peer's key under the next epoch, or nothing for an unidentified peer |
| EventLoopTheorems.CountableMeaning | crates/np2ptp-net/src/lib.rs:1127-1143 | the counted receipts are genuine, about the peer, distinct in (client, epoch), and none is left out |
| EventLoopTheorems.CountsFirst | crates/np2ptp-net/src/lib.rs:1127-1143 | of several genuine receipts with one (client, epoch) the first is the one counted |
| EventLoopTheorems.CreditEachSum | crates/np2ptp-rep/src/ledger.rs:78-81 | crediting them adds their sum, saturating once, and touches no other peer |
| EventLoopTheorems.StepInv | crates/np2ptp-net/src/lib.rs:996-1113 | at most one unanswered pull a peer, kept by every event |
| EventLoopTheorems.CreditIsUnique | crates/np2ptp-net/src/lib.rs:996-1143 | two different events of a run never both credit one peer |
| EventLoopTheorems.CreditedOnce | crates/np2ptp-net/src/lib.rs:996-1143 | in every run a peer's receipt credit is its initial one, or from an empty account the saturating sum of one single reply |
| EventLoopTheorems.TwoPullsCreditTwice | crates/np2ptp-net/src/lib.rs:1091-1143 | two pulls under way would credit one list twice |
| EventLoopTheorems.LostPullLeavesTwo | crates/np2ptp-net/src/lib.rs:996-1079 | losing and re-meeting a peer with a pull unanswered leads there |
| EventLoopTheorems.ChunkIsCovered | crates/np2ptp-net/src/lib.rs:1147-1172 | a chunk goes out only within the threshold and is then recorded |
| EventLoopTheorems.ChokeBound | crates/np2ptp-net/src/lib.rs:1084-1190 | in every run the chunk bytes sent to a peer are at most what it gave, its credit, the threshold and one largest chunk, symbols interleaved or not |
| EventLoopAccounts.AccountsExact | crates/np2ptp-net/src/lib.rs:1084-1214 | conservation: in every run each counter of each peer is its initial value plus exactly the bytes that moved, cut off at u64 once |
| EventLoopAccounts.ChokeBoundInBytes | crates/np2ptp-net/src/lib.rs:1084-1190 | the choke bound with the chunk bytes received and the credit of the run in place of the counters |
| EventLoopAccounts.ChunkServedIff | crates/np2ptp-net/src/lib.rs:1147-1172 | for every i64 threshold, a held chunk is sent if and only if the unclamped score is at least the saturating negation of the threshold |
| EventLoopAccounts.ChokedIff | crates/np2ptp-rep/src/ledger.rs:100-111 | the clamp never changes who is choked; the saturating negation does exactly at threshold i64::MIN for the score i64::MAX |
| EventLoopAccounts.SaturatedThresholdServes | crates/np2ptp-net/src/lib.rs:1147-1172 | a peer for which it does |
| EventLoopAccounts.BagHoldsBestGenuine | crates/np2ptp-net/src/lib.rs:1191-1214 | in every run from an empty bag it holds the best of the genuine receipts submitted and no other |
| EventLoopAccounts.EpochsDistinct | crates/np2ptp-net/src/lib.rs:954-964 | no two receipts issued in a run share an epoch |
| EventLoopAccounts.CallerHearsOnce | crates/np2ptp-net/src/lib.rs:1091-1113 | in every run a caller gets at most one answer or failure for its request |
| EventLoopReplies.CallerIsAnswered | crates/np2ptp-net/src/lib.rs:947-1113 | in every run an answer or failure for the request of a caller reaches it if and only if it is the first: the caller hears exactly once |
| EventLoopReplies.AllAccounted | crates/np2ptp-net/src/lib.rs:947-1113 | in every run the requests under way are exactly those the loop or a caller waits for |
| EventLoopReplies.KnownKeyIff | crates/np2ptp-net/src/lib.rs:996-1079 | in every run a peer is known by a key if and only if the last of its identifications and of the losses of its last connection is the identification with that key |
| EventLoopReplies.MarkedIff | crates/np2ptp-net/src/lib.rs:996-1079 | in every run a peer is marked as asked exactly from the pull sent to it, for lack of an account, to the loss of its last connection |
| EventLoopReplies.ThresholdInForce | crates/np2ptp-net/src/lib.rs:951-953 | in every run the threshold in force is the last one set |
| EventLoopReplies.Replies | crates/np2ptp-net/src/lib.rs:1147-1214 | what is replied to every kind of request, from the shelf, the unclamped score and the bag |
| EventLoopReplies.ReceiptsHandedOut | crates/np2ptp-net/src/lib.rs:1191-1214 | at every state of every run from an empty bag the reply to GetReceipts is the best of the genuine receipts submitted |
| EventLoopReplies.PulledIsCredited | crates/np2ptp-net/src/lib.rs:996-1143 | a peer without an account that identifies itself is pulled and then credited exactly the saturating sum of what counts in its answer |
| EventLoopReplies.TwoNodePull | crates/np2ptp-net/src/lib.rs:996-1214 | between two nodes: the puller credits exactly the saturating sum of the list handed out, less what a client repeats under one epoch; the whole sum if and only if nothing is repeated or it saturates |
| EventLoopReplies.RepeatHandedOut | crates/np2ptp-net/src/lib.rs:1191-1214 | two receipts of one client under one epoch are both kept and handed out |
| Requests.GetManifest | crates/np2ptp-net/src/lib.rs:474-494 | an accepted manifest has the root asked for, commits to its chunk list and validates |
| RequestTheorems.GetManifestMeaning | crates/np2ptp-net/src/lib.rs:474-494 | a manifest request succeeds exactly for a reply that parses, has the root, commits to its chunks and validates; the error for every other reply |
| Fec.RoundProgresses | crates/np2ptp-net/src/lib.rs:580-615 | whatever the answer, a round that continues keeps the byte cap and has spent attempts or gained symbols |
| Fec.FetchSymbols | crates/np2ptp-net/src/lib.rs:563-615 | against every provider: at most need + 15 max(need/4, 1) rounds, 16 decode attempts and twice the size held in a round that continues; one progress report a reply, of the needed symbols received so far |
| FecTheorems.FetchedMeaning | crates/np2ptp-net/src/lib.rs:576-615 | a successful fetch is the decoding of all symbols of the first k replies, counted to the byte, against any provider |
| FecFaults.NextSymbolsAsked | crates/np2ptp-net/src/lib.rs:576-586 | every round asks for 128 symbols from right behind those received, as long as they can be counted in 32 bits |
| FecFaults.FetchFails | crates/np2ptp-net/src/lib.rs:576-615 | a fetch fails only because the provider failed, ran out before the symbols decode, sent more than twice the content, or so many that sixteen spaced attempts failed, each with its error |
| FecTheorems.WithinCap | crates/np2ptp-net/src/lib.rs:588-594 | from 77056 bytes on, an honest stream of packets stays within the cap |
| FecTheorems.HonestOutcome | crates/np2ptp-net/src/lib.rs:563-615 | a correct encoding arrives, as exactly the encoded bytes, if and only if the size is 0 or at least 77056, and the bytes counted are those of enough of its packets |
| HonestFec.HonestSymbols | crates/np2ptp-net/src/lib.rs:1181-1190 | an event loop answers symbol requests from its encoding whatever the requester's standing |
| HonestFec.BuiltStreamAccepted | crates/np2ptp-net/src/lib.rs:617-623 | the true stream of a built manifest passes the recomputed root |
| HonestFec.HonestDownload | crates/np2ptp-net/src/lib.rs:550-629 | downloading built content from a node that serves it: BadManifest above 32 GiB, BadChunk when 0 < size < 77056, both leaving the store untouched; otherwise its pieces are put, and unless a put fails its manifest is returned and a receipt sent for the packets received |
| FecDownload.Download | crates/np2ptp-net/src/lib.rs:550-629 | the whole sequence with its errors, store effects, receipt and progress reports |
| FecDownload.SplitLosesNothing | crates/np2ptp-core/src/manifest.rs:334-355 | an accepted split concatenates to the stream |
| FecDownload.AcceptedStreamMatches | crates/np2ptp-net/src/lib.rs:617-623 | an accepted stream has exactly the manifest's chunks whatever lengths it declares, or a collision is at hand |
| FecDownload.FecIntegrity | crates/np2ptp-net/src/lib.rs:557-628 | after success, `export` of the returned manifest is exactly the decoded stream if every chunk was welcome before, and an error if not, unless a collision is at hand |
| FecDownload.FecReceiptExact | crates/np2ptp-net/src/lib.rs:625-627 | the receipt is for exactly the symbol bytes received, none for nothing |
| FecFaults.FecEnds | crates/np2ptp-net/src/lib.rs:550-629 | every way the download can end, with its error, and that nothing is stored unless the stream was accepted |
| FecFaults.FecStreamFails | crates/np2ptp-net/src/lib.rs:563-615 | the error of a stream that could not be fetched is one of the four reasons |
| MultiFetch.FirstManifest | crates/np2ptp-net/src/lib.rs:684-701 | the first provider with an acceptable manifest, else the last error |
| MultiFetch.MissingChunks | crates/np2ptp-net/src/lib.rs:706-712 | the indices `has` denies, in order |
| MultiFetch.FetchInTurn | crates/np2ptp-net/src/lib.rs:727-748 | providers asked in rotation until one answers correctly, else the last refusal |
| MultiFetch.Drain | crates/np2ptp-net/src/lib.rs:751-776 | results stored, tallied and reported as they complete; the first failure kept; a failed put ends it |
| MultiFetch.Download | crates/np2ptp-net/src/lib.rs:674-776 | the whole sequence with its store effects, progress and receipts |
| MultiFetchTheorems.PickMeaning | crates/np2ptp-net/src/lib.rs:688-701 | a manifest is obtained if and only if some provider offers an acceptable one, and it is the first such |
| MultiFetchTheorems.PickError | crates/np2ptp-net/src/lib.rs:688-701 | otherwise the last provider's error is reported |
| MultiFetchTheorems.RotationVisits | crates/np2ptp-net/src/lib.rs:728-730 | `(slot + k) % n` visits every provider exactly once |
| MultiFetchTheorems.DeliverMeaning | crates/np2ptp-net/src/lib.rs:727-748 | a chunk is delivered if and only if some listed provider answers correctly; it has the right hash and comes from the peer credited; otherwise the last refusal is reported |
| MultiFetchTheorems.ScanMeaning | crates/np2ptp-net/src/lib.rs:706-712 | missing are exactly the chunks not packed by anyone, not objects and not known references |
| MultiFetchTheorems.MissingInOrder | crates/np2ptp-net/src/lib.rs:706-712 | each once, in the order of the manifest |
| MultiFetchTheorems.TotalOfPermutation | crates/np2ptp-net/src/lib.rs:751-770 | sums over slots do not depend on completion order |
| MultiFetchTheorems.ReceiptsAreExact | crates/np2ptp-net/src/lib.rs:751-772 | each receipt is for exactly the bytes accepted from that provider |
| MultiFetchTheorems.FailureMeaning | crates/np2ptp-net/src/lib.rs:751-776 | the error reported is the first in completion order, and without one every result was accepted |
| MultiFetchTheorems.MultiFetchOutcome | crates/np2ptp-net/src/lib.rs:688-776 | for any replies and completion order, unless a put fails: success if and only if every missing chunk has a correct provider; then progress ends at the total and every chunk is stored; receipts are exact either way |
| MultiFetchFailures.DownloadEnds | crates/np2ptp-net/src/lib.rs:688-776 | for any replies and completion order, puts failing or not: the result is an error if and only if a put fails or some missing chunk is answered by nobody; a failing put ends it with the error of the first failing one in completion order, the puts before it reported and no receipts; otherwise the error is that of the first unanswered chunk, with exact reports and receipts |
| MultiFetchFailures.RefusalDictated | crates/np2ptp-net/src/lib.rs:727-748 | the error of an unanswered chunk is what the reply of the last provider of its rotation dictates: its own error, MissingChunk for an absent chunk, BadChunk for a wrong hash |
| MultiFetchFailures.FirstFailingPut | crates/np2ptp-net/src/lib.rs:751-756 | a failing sequence of puts stops at the first failing one, in its state and with its error |
| MultiFetchFailures.DeliveredIsStored | crates/np2ptp-net/src/lib.rs:751-776 | unless a put fails, every delivered chunk is stored, whatever became of the others |
| MultiFetchFailures.NoManifestNoEffect | crates/np2ptp-net/src/lib.rs:684-701 | without a manifest nothing is touched, reported or paid, and the last error is returned |
| MultiFetchExport.ExportAfterDownload | crates/np2ptp-store/src/lib.rs:384-398 | after a successful download `export` succeeds if and only if every chunk was welcome before it and the chunks really hold the declared total |
| MultiFetchExport.MislabelledDownloads | crates/np2ptp-net/src/lib.rs:674-776 | a manifest with a wrong total downloads into an empty store, and exporting it gives SizeMismatch(1, 2) |
| TwoNodes.FecTransfer | crates/np2ptp-net/src/lib.rs:550-629 | built content within the limits, from a serving node into a store with room: the download succeeds and the export gives exactly the files, or a collision, if every piece was welcome; an error otherwise |
| TwoNodes.WillingAnswers | crates/np2ptp-net/src/lib.rs:1147-1172 | a provider that holds a chunk and is owed no more than its threshold answers the chunk request correctly |
| TwoNodes.MultiTransfer | crates/np2ptp-net/src/lib.rs:674-776 | the same by the multi-provider route, when every missing chunk has such a provider and no put fails |

## Left out

- MultiFetchTheorems.MultiFetchOutcome: per-peer byte counts are unbounded integers.
- TornLines.PutBehindTorn: what a survivor's later steps do after it has appended behind a torn line is not followed further, nor is a reference appended behind a torn reference line.
- FecTheorems.HonestOutcome: RaptorQ itself is not modelled; a correct encoding is source plus 64 repair packets of 1204 bytes a block that decode to nothing or to the data, one block being systematic and several blocks having at least a thousand symbols each.
- RefLog.ReferenceReadsBackIff: paths are bytes; the lossy conversion of a path that is not valid UTF-8, and a torn line that ends inside a multi-byte character, which makes `open` fail, are not modelled.
- Disk I/O errors in the middle of a store operation, other than exhausted pack ids, oversized packs and unreadable ranges.
- Races inside one store operation between threads or processes, and the write guard's lock file.
- The streaming variants of ingest and export, and their progress callbacks.
- The cut points of FastCDC, the internals of BLAKE3, SHA-1, Ed25519 and RaptorQ.
- bincode, CBOR and JSON encodings, temporary-file renames, fsync, quarantine, and saving and loading the ledger and the receipt bag.
- libp2p: transports, Kademlia, relay, UPnP, mDNS, dialling.
- Ranking peers for unchoking, `apply_receipt`, the checks of file paths and names in torrents and on export, and the torrent fields other than `info` and `pieces`.
- The command line, daemon, tracker, Python wrapper and simulation harness.
