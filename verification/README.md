# GitCellar: a verified model of the storage pipeline and its trust decisions

GitCellar stores a repository as encrypted, deduplicated chunks on storage it does not trust. This
project models that path, from a stream of bytes to padded storage objects and back, together with
the other parts of the code base whose correctness is a statement about all inputs or all runs: what
is signed and what a signature proves, the policy of the key that protects files at rest, the creation
of the device key under crashes, and the typo correction of recovery words. `dafny verify dfyconfig.toml`
checks everything.

Code that updates state is modelled by methods and classes over the same state, and each such method is
proved equal to a specification function; the theorems are lemmas about those functions.

- **Chunking.** `Chunking` and `Resynchronization`: the FastCDC boundary search with its wrapping 64-bit
  fingerprint and masks, the batch driver, the incremental driver, and what an edit does to later chunks.
  `Words` and `Hex` hold the machine arithmetic and name encoding they use.
- **Packing.** `Padding`, `Packing` and `PackProperties`: the size ladder, the next-fit packer, slicing.
- **Sealing.** `Aead`, `SealedChunks` and `ParallelSealing`: chunk identities, the blob format, the batch helpers.
- **End to end.** `Pipeline` composes the three and reads the result back from an honest or an arbitrary provider.
- **Signatures.** `Canonical`, `Text`, `SignedObjects`, `CanonicalWriters`, `Signatures`, `Grants`,
  `SuccessionVerify` and `IncidentManifests`: the length-prefixed canonicals and the verifiers over them.
- **Local Protection Key.** `Keywrap`, `KeyLossSafety` and `MintRace`.
- **Device key and recovery words.** `Keystore` and `Levenshtein`. `Utf8` and `Wrappers` are shared helpers.

Cryptography is symbolic and every assumption about it is a hypothesis of the lemma that uses it. An AEAD
opens only what a log of sealings holds for that exact key, nonce and associated data. A signature verifies
only if a log of signatures holds it for that key and those bytes; the log ranges over arbitrary bytes, so a
key may have signed anything at all beside the objects modelled here. Hashes and HMACs are arbitrary functions;
where two names must not collide, the hypothesis names the finite set of messages involved. Nonces, keys, pack
ids, filler, task schedules and store failures are arbitrary inputs.

Where the code and its comments disagree the model follows the code:

- `ChunkConfig::new` accepts `min == 0`. A first chunk can then be empty, and both drivers loop forever. The
  drivers are modelled under the weakest condition that prevents this, which `AdvancesIffProgresses` shows to be exact;
  `EmptyChunkRepeats` shows that without it each of them is back where it was.
- The claim that inserting data at the start of a file changes only the first chunk is stronger than the code.
  `InsertionChangesOnlyFirstIff` gives the exact condition, decided by one boundary search on each stream;
  `InsertionCanChangeEveryChunk` gives an input that refutes the claim for every gear table; `AnchorResynchronizes`
  gives a condition on shared content alone that makes two streams meet whatever precedes it, and `AnchorsExist` shows
  that such content exists under both shipped profiles for every gear table with 65 words spread apart (by 2^45 and 2^49,
  where 256 words are 2^56 apart on average) and two words of different parity.
- The claim that every name in a pack index resolves into exactly one uploaded pack fails when a batch ends in an
  empty blob with no open pack to join. `EveryNameResolvesIff` gives the exact condition on a shuffled batch,
  `SomeShuffleLosesIff` the one on the batch itself, `TrailingEmptyBlobIsLost` an instance; sealed blobs are never empty.
- The claim that 32 bits are ample for a sealed chunk's length depends on the configuration, which may allow more.
  `ReadBackIsIdentity` shows that a stream reads back exactly when every sealed chunk's length fits;
  `FourGibChunkDoesNotFit` gives one that does not.
- The claim that re-reading the keyring after a mint makes racing processes converge is stronger than the code.
  `ConvergeIffOneSource` gives the exact condition on the schedule, whichever store accesses fail;
  `ConvergeIffWritesFirst` is what it comes to when none does.

One documented policy has a consequence the documentation does not draw. A keyring that fails falls back to a
configured headless secret, so one failed read can make an install use two keys. `StoredKeyIsOnlyKeyIff` and
`OneKeyIffOneSource` say exactly when an install keeps to one key, for a single resolve and over all runs.

## Model

| member | source | states |
|---|---|---|
| Words.MaskIsThreshold | vault-core/src/chunking.rs:92-102 | masking a fingerprint to zero is the same as the fingerprint lying below a power of two, and for widths above 64 the same as its being zero |
| Hex.DecodeIffSpells | vault-core/src/chunking.rs:200-207 | a name decodes to exactly the bytes its hex digits spell, two a byte, high half first |
| Chunking.Naming.VerifyNameIff | vault-core/src/chunking.rs:186-207 | a reader accepts exactly the names of 64 hex digits that spell the SHA-256 of the plaintext, or its HMAC under the repository's key; the writer's name does, and among lowercase names only it |
| Chunking.Naming.NamesCollideIff | vault-core/src/chunking.rs:179-197 | two plaintexts share a name, and one is accepted for the other, exactly where the hash collides |
| Words.AndIsBitwise | vault-core/src/chunking.rs:131-148 | the mask test's AND sets a bit exactly where both words do |
| Chunking.ChunkEngine.FastCdcBoundary | vault-core/src/chunking.rs:112-149 | a buffer up to min is one chunk; otherwise the cut is the first position from min on, short of max and the end, whose wrapping shift-and-add fingerprint is zero under the mask of its side of the average |
| Chunking.ChunkEngine.BoundaryIsFirstMaskedOut | vault-core/src/chunking.rs:112-149 | the boundary the drivers' specification uses is that position |
| Chunking.ChunkEngine.BoundaryIsStable | vault-core/src/chunking.rs:112-149 | whenever the incremental driver acts on a boundary, appending any bytes leaves that boundary where it is |
| Chunking.ChunkEngine.AdvancesIffProgresses | vault-core/src/chunking.rs:255-263 | exactly which accepted configurations give every non-empty input a non-empty first chunk |
| Chunking.ChunkEngine.EmptyChunkRepeats | vault-core/src/chunking.rs:613-644 | at a buffer whose first boundary is 0 neither driver gets further: the incremental one emits empty chunks, the batch one keeps its offset |
| Chunking.ChunkEngine.ChunkData | vault-core/src/chunking.rs:386-420 | the batch driver returns the chunk list defined by repeatedly taking the first boundary |
| Chunking.ChunkEngine.ChunksTileTheStream | vault-core/src/chunking.rs:386-420 | chunks are non-empty, contiguous from the start, named by their own data, and reassemble to the stream |
| Chunking.ChunkEngine.ChunkSizes | vault-core/src/chunking.rs:104-149 | no chunk exceeds max and none but the last is shorter than min |
| Chunking.ReassembleChunks | vault-core/src/chunking.rs:455-468 | the loop concatenates the chunks' data in order |
| Chunking.ChunkEngine.DrainThenFeed | vault-core/src/chunking.rs:613-644 | emitting before and after more data arrives leaves the same state as emitting once at the end |
| Chunking.ChunkEngine.FinishIsChunks | vault-core/src/chunking.rs:596-644 | from any state, draining and flushing appends exactly the batch chunk list of the buffered bytes |
| Chunking.ChunkEngine.StreamingEqualsBatch | vault-core/src/chunking.rs:587-644 | for every list of feeds, empty ones included, the incremental result is the batch chunk list of their concatenation |
| Chunking.StreamChunker.Feed | vault-core/src/chunking.rs:587-590 | after any feed the object's state is the drained state of everything fed so far |
| Chunking.StreamChunker.EmitChunks | vault-core/src/chunking.rs:613-644 | the emit loop ends, and moves chunks out of the buffer until it must wait |
| Chunking.StreamChunker.Finalize | vault-core/src/chunking.rs:596-610 | returns the batch chunk list of everything that was fed |
| Chunking.ChunkFeeds | vault-core/src/chunking.rs:587-644 | an actual chunker object fed any list of buffers and finalized returns the batch chunk list of their concatenation |
| Resynchronization.FingerprintIsWindow | vault-core/src/chunking.rs:131-148 | after 64 absorbed bytes the fingerprint depends on the last 64 only |
| Resynchronization.FingerprintFromFront | vault-core/src/chunking.rs:131-148 | the fingerprint of n bytes is the sum of their words, the k-th from the end weighing 2^k, modulo 2^64, one byte at a time from the front |
| Resynchronization.CutDependsOnWindow | vault-core/src/chunking.rs:131-148 | two positions past min+63 on the same side of the average, ending in the same 64 bytes, are both cuts or both not |
| Resynchronization.SuffixIsChunks | vault-core/src/chunking.rs:393-416 | the chunks from any chunk onwards are the chunk list of the bytes that remain there |
| Resynchronization.ChunkIsABoundary | vault-core/src/chunking.rs:393-416 | every chunk holds exactly the first boundary's worth of bytes from its offset on |
| Resynchronization.Resynchronize | vault-core/src/chunking.rs:393-416 | if two streams with a common suffix both start a chunk at one place in it, all later chunks agree in data, name and size, with offsets shifted by the length difference |
| Resynchronization.AnchorResynchronizes | vault-core/src/chunking.rs:112-149 | content with a low full window, then windows that all fail, then full windows that fail until one passes makes any two streams that share it cut there, and agree from there on |
| Resynchronization.AnchorsExist | vault-core/src/chunking.rs:112-149 | such content exists for every engine whose sizes leave room, with 65 spread gear words and two of different parity |
| Resynchronization.ShippedProfilesAreRoomy | vault-core/src/chunking.rs:234-276 | both shipped profiles leave that room, and the spread they ask is 2^45 and 2^49 |
| Resynchronization.EvenTableHasAnchors | vault-core/src/chunking.rs:268-275 | under the keyed profile an evenly spread table meets those hypotheses and has an anchor |
| Resynchronization.InsertionChangesOnlyFirstIff | vault-core/src/chunking.rs:329-331 | for every engine, insertion and stream, all chunks after the first are kept exactly when the new first chunk ends where the old one did |
| Resynchronization.InsertionCanChangeEveryChunk | vault-core/src/chunking.rs:329-331 | under an accepted configuration and any gear table, an input for which prepending one byte leaves no chunk's data in common |
| Padding.PadLadder.ComputeStepFor | vault-core/src/pack.rs:165-173 | the loop ends without leaving 64-bit or 128-bit range, for every ladder, and computes the specified step |
| Padding.PadLadder.StepForIsLeastRung | vault-core/src/pack.rs:159-174 | the step is the smallest ladder rung at or above the length |
| Padding.PadLadder.RungSpacing | vault-core/src/pack.rs:165-173 | the rungs start at max(floor, 1), and each next one is as far as the ratio reaches, rounded down, but at least one byte on |
| Padding.PadLadder.BetweenRungs | vault-core/src/pack.rs:159-174 | every length above one rung and up to the next is stored at the next |
| Padding.PadLadder.StepForMonotone | vault-core/src/pack.rs:159-174 | longer content never pads to a smaller size |
| Padding.PadLadder.StepForIdempotent | vault-core/src/pack.rs:159-174 | a padded size pads to itself |
| Padding.PadLadder.SameStepIffNotSeparated | vault-core/src/pack.rs:159-174 | two contents are stored at one size exactly when no rung separates them |
| Padding.PadLadder.OverheadBelowRatio | vault-core/src/pack.rs:159-174 | above the floor a growing ladder rounds up by strictly less than its ratio |
| Padding.DefaultLadderCost | vault-core/src/pack.rs:31-36 | production packs above 256 KiB grow by less than a quarter, all others are stored at 256 KiB |
| Padding.DefaultLadderStores | vault-core/src/pack.rs:31-36 | the production sizes by number, from 320 KiB for anything just above 256 KiB to 4,768,370 bytes for a full 4 MiB pack |
| Padding.PadPack | vault-core/src/pack.rs:183-190 | content is kept as a prefix and filler brings the length to the ladder step |
| Padding.FillerIsNoise | vault-core/src/pack.rs:183-190 | the filler is the drawn bytes, in order |
| Packing.PackChunks | vault-core/src/pack.rs:275-335 | the imperative packer yields, for every order, the packs and index of deduplicated next-fit bins, dropping a last bin without bytes |
| PackProperties.DedupKeepsFirst | vault-core/src/pack.rs:295-299 | what is packed under a name is the first item of the shuffled batch with that name |
| PackProperties.BinsKeepItems | vault-core/src/pack.rs:295-332 | the bins laid end to end are exactly the deduplicated items in order |
| PackProperties.IndexNamesInput | vault-core/src/pack.rs:295-320 | the index names are exactly the distinct input names, each once |
| PackProperties.NextFitGuarantee | vault-core/src/pack.rs:295-332 | each pack fits the target unless it holds one blob, neighbours together exceed it, and (packs-1)*t is at most twice the content |
| PackProperties.LastPackIsLostIff | vault-core/src/pack.rs:323-332 | the exact batches whose last pack is indexed but not uploaded |
| PackProperties.SliceChunkIs | vault-core/src/pack.rs:344-362 | a location is honoured in full or refused, with the error each violation gives |
| PackProperties.SliceOfPadded | vault-core/src/pack.rs:344-362 | cutting a location out of its padded pack yields the blob if and only if its length fits 32 bits |
| PackProperties.PackRoundTrip | vault-core/src/pack.rs:275-362 | for every order and distinct ids, exactly which index entries find a pack, and which of those slice to their item's blob |
| PackProperties.EveryNameResolvesIff | vault-core/src/pack.rs:231-232 | all index names resolve into uploaded packs exactly when the shuffled batch does not lose its last pack |
| PackProperties.SomeShuffleLosesIff | vault-core/src/pack.rs:284-332 | some shuffle of a batch loses a pack exactly when it has an empty blob and either every name has one or a blob of another name exceeds the target |
| PackProperties.TrailingEmptyBlobIsLost | vault-core/src/pack.rs:323-332 | a batch of two names that uploads one pack and leaves the second name unresolved |
| PackProperties.EntriesTilePack | vault-core/src/pack.rs:313-332 | the entries naming a pack are contiguous from 0 over its content, followed only by filler |
| SealedChunks.CanonicalInjective | vault-core/src/chunk_format.rs:229-270 | NUL-free identities encode alike only if they are equal |
| SealedChunks.CanonicalBytes | vault-core/src/chunk_format.rs:250-268 | the encoding byte by byte: field order, separators, widths, least significant byte first |
| SealedChunks.ContentBindsOffsetZero | vault-core/src/chunk_format.rs:186-188 | a content identity binds offset 0 and is refused exactly for a NUL in either string |
| SealedChunks.NulMakesIdentitiesCollide | vault-core/src/chunk_format.rs:109-114 | with NULs admitted, different identities would encode alike, and the check refuses both |
| SealedChunks.ChunkCipher.SealedLayout | vault-core/src/encryption.rs:248-272 | a blob is version 3, the nonce, then ciphertext and tag, 41 bytes over the plaintext |
| SealedChunks.ChunkCipher.SealThenOpen | vault-core/src/encryption.rs:248-332 | a sealed blob opens under its own identity to its own plaintext |
| SealedChunks.ChunkCipher.OpensIffSameIdentity | vault-core/src/encryption.rs:234-332 | a blob sealed under one identity opens under another exactly when they are equal, with the error each refusal gives |
| SealedChunks.ChunkCipher.AcceptedWasSealed | vault-core/src/encryption.rs:285-332 | any accepted bytes are, byte for byte, a sealing of the returned plaintext under this key and identity |
| SealedChunks.ChunkCipher.OtherVersionsRefused | vault-core/src/chunk_format.rs:278-301 | every first byte but 3, and the empty blob, is refused |
| ParallelSealing.BatchEngine.EncryptChunksParallel | gitcellar-crypto/src/encryption.rs:547-575 | under any task order each blob stands at its chunk's position under that chunk's content identity; exactly when and how the batch fails |
| ParallelSealing.BatchEngine.DecryptChunksParallel | gitcellar-crypto/src/encryption.rs:643-680 | blobs and identities pair by position; the batch succeeds exactly when every pair opens and no task is lost |
| ParallelSealing.BatchEngine.BatchKeyVersionIs | gitcellar-crypto/src/encryption.rs:102-113 | a batch is refused without a key version and for version 0, and otherwise sealed under the engine's own |
| ParallelSealing.BatchEngine.DuplicatesShareIdentity | vault-core/src/chunk_format.rs:116-129 | equal content is sealed under one identity wherever it stands in the stream |
| Pipeline.Repo.KeptItemOpens | vault-core/src/chunk_format.rs:116-129 | whichever duplicate the packer kept, its blob opens under the identity of every position of that content |
| Pipeline.Repo.ManifestIsContiguous | vault-core/src/chunking.rs:312-326 | the manifest lists the stream from byte 0, each entry starting where the one before it ends |
| Pipeline.Repo.ReadBackIsIdentity | vault-core/src/chunking.rs:386-468 | chunk, seal, pack in any order, then locate, slice, open, name-check and concatenate returns the written bytes, duplicates included, when every sealed chunk's length fits 32 bits, and otherwise fails if digests do not collide |
| Pipeline.Repo.FourGibChunkDoesNotFit | vault-core/src/pack.rs:197-200 | an accepted configuration and a stream whose one sealed chunk has no 32-bit length |
| Pipeline.Repo.ArbitraryProvider | vault-core/src/encryption.rs:285-332 | for any bytes in place of any pack and any index, reading an authentic manifest fails or returns exactly the written bytes |
| Pipeline.Repo.IdentityForcesName | vault-core/src/chunk_format.rs:186-196 | among writers that seal content chunks and named objects, opening under a chunk name's identity already implies the name check and the size |
| Pipeline.Repo.NamedObjectsAreApart | vault-core/src/chunk_format.rs:136-140 | every content chunk's name spells a digest and no named object's does |
| Pipeline.StoreStream | gitcellar-crypto/src/encryption.rs:547-575 | the drivers composed: feeds through the chunker, the parallel sealer and the packer succeed if and only if no task is lost, and read back as the feeds when every sealed chunk's length fits |
| Canonical.Buffer.LpPush | gitcellar-crypto/src/canonical.rs:9-14 | a push appends one field to the list the buffer encodes |
| Canonical.DecimalIs | gitcellar-crypto/src/canonical.rs:9-14 | a length is written in decimal digits without a leading zero |
| Canonical.EncodeExample | gitcellar-crypto/src/canonical.rs:21-28 | three fields, one holding both delimiters, encode to the text the repository's own example gives |
| Canonical.DecodeEncode | gitcellar-crypto/src/canonical.rs:1-14 | a decoder recovers any list of arbitrary byte fields from its encoding |
| Canonical.EncodeDecode | gitcellar-crypto/src/canonical.rs:1-14 | the decoder accepts nothing but encodings |
| Canonical.EncodeInjective | gitcellar-crypto/src/canonical.rs:1-14 | lists of any lengths encode alike only if equal |
| Canonical.EncodePrefixFree | gitcellar-crypto/src/canonical.rs:1-14 | among lists of one length no encoding is a proper prefix of another |
| Text.Unicode.NormalizeIs | gitcellar-crypto/src/grant_signing.rs:140-146 | whitespace disappears, every other character becomes its uppercase, and text normalizes piece by piece |
| Text.Unicode.SpacingIgnored | gitcellar-crypto/src/grant_signing.rs:133-139 | inserting whitespace anywhere changes nothing |
| Text.Unicode.CaseIgnored | gitcellar-crypto/src/grant_signing.rs:133-139 | neither does changing a character's case |
| Text.Unicode.FingerprintsApart | gitcellar-crypto/src/grant_signing.rs:140-146 | uppercase-hex fingerprints are their own normal form, so no two are taken for each other |
| Text.Unicode.NormalizeIdempotent | gitcellar-crypto/src/grant_signing.rs:140-146 | normalizing a fingerprint twice changes nothing more |
| Text.Unicode.AccountIs | gitcellar-crypto/src/identity_succession.rs:145-147 | the normal form is the text between the outer whitespace with ASCII capitals made small and all else kept |
| Text.Unicode.AccountIsFixed | gitcellar-crypto/src/identity_succession.rs:145-147 | trimmed text without ASCII capitals is its own normal form |
| Text.Unicode.NormalizeAccountIdempotent | gitcellar-crypto/src/identity_succession.rs:145-147 | normalizing an account twice changes nothing more |
| Text.AsciiTablesAreLawful | gitcellar-crypto/src/grant_signing.rs:140-146 | the laws asked of the Unicode tables can be met: the tables restricted to ASCII obey them |
| SignedObjects.Env.SignedBytesInjective | gitcellar-crypto/src/grant_signing.rs:202-238 | two signed objects of any kinds have equal bytes exactly when all typed fields agree up to normalization and certificate hashing; kinds and purposes never collide |
| SignedObjects.Env.RenderedBytesInjective | gitcellar-crypto/src/grant_signing.rs:202-238 | on objects whose fingerprints and accounts are rendered as the system renders them, equal signed bytes are equal objects |
| SignedObjects.Env.SignedBytesStartWithDigit | gitcellar-crypto/src/broadcast.rs:31-33 | no signed canonical can be a bare JSON payload |
| SignedObjects.Env.NewSignsAsLiteral | gitcellar-crypto/src/grant_signing.rs:196-201 | an object built with normalized fields signs the same bytes as one built verbatim |
| CanonicalWriters.GrantCanonical | gitcellar-crypto/src/grant_signing.rs:202-212 | the pushes produce the plain grant's signed bytes: these seven fields in this order under `gc-grant-v2` |
| CanonicalWriters.GrantCanonicalWithDelegation | gitcellar-crypto/src/grant_signing.rs:218-238 | the same for a delegated grant's fourteen fields under `gc-grant-delegated-v2`, or the plain bytes without a delegation |
| CanonicalWriters.IncidentManifestSignedBytes | gitcellar-crypto/src/broadcast.rs:433-449 | the pushes produce the envelope's signed bytes: version, state as `active` or `clear`, seq, signer, payload, under its tag |
| CanonicalWriters.SuccessionCanonical | gitcellar-crypto/src/identity_succession.rs:114-123 | the pushes produce the statement's signed bytes: account, old, new, version, time, under its tag |
| CanonicalWriters.FirstKeyEvidenceCanonical | gitcellar-crypto/src/identity_succession.rs:195-209 | the pushes produce the evidence's signed bytes: account, entry hash, master key and certificate hash in hex, under its tag |
| CanonicalWriters.ChallengeSigningPayload | passkey-core/src/auth/challenge.rs:53-68 | signs exactly the challenges of 64 lowercase hex characters, and then the purpose's tag and the challenge in the shared encoding |
| CanonicalWriters.ChallengeAnswersNothingElse | passkey-core/src/auth/challenge.rs:44-49 | what is signed for a challenge is the signed form of no other object, purpose or challenge |
| Signatures.SaysIff | gitcellar-crypto/src/grant_signing.rs:202-238 | bytes equal an object's canonical exactly when they are some object's canonical and of none that means anything else |
| Signatures.SignedIffAttested | gitcellar-crypto/src/broadcast.rs:456-507 | a signature over an object's canonical verifies exactly when, among all the bytes that key signed, some say that object and nothing else |
| Grants.ValidIff | gitcellar-crypto/src/grant_signing.rs:554-598 | exactly when a bundle is valid: whatever else the served key signed, it signed bytes that say this very tuple with this delegation or none, up to fingerprint rendering |
| Grants.RefusalsAre | gitcellar-crypto/src/grant_signing.rs:554-598 | which refusal every other bundle gets |
| Grants.BuildSignedRepoGrantBundle | gitcellar-crypto/src/grant_signing.rs:416-445 | what is signed is the canonical of the offer as given; the bundle claims that offer for its aim and carries that signature; it fails exactly when signing does |
| Grants.BuiltBundleVerifiesIff | gitcellar-crypto/src/grant_signing.rs:416-445 | a built bundle verifies for its own aim exactly when the repository uid is not empty |
| Grants.NothingElseVerifies | gitcellar-crypto/src/grant_signing.rs:554-585 | if the offer is the only grant the key signed, among whatever other bytes, every valid bundle has its aim, key material, timestamp, granter and delegation |
| Grants.NothingElseVerifiesRendered | gitcellar-crypto/src/grant_signing.rs:554-585 | for fingerprints as they are rendered the same with plain equality: a grant to one recipient is never valid for another |
| SuccessionVerify.AcceptedIff | gitcellar-crypto/src/identity_succession.rs:126-181 | exactly when a succession is accepted: account and identities not blank, identities different, newer, and among all bytes the master signed some say this statement |
| SuccessionVerify.RefusalsAre | gitcellar-crypto/src/identity_succession.rs:126-181 | which refusal every other statement gets, from signer and verifier alike |
| SuccessionVerify.SignedVerifies | gitcellar-crypto/src/identity_succession.rs:151-181 | signer and verifier refuse the same shapes with the same error; what is signed verifies |
| SuccessionVerify.NoStatementAcceptedTwice | gitcellar-crypto/src/identity_succession.rs:33-36 | over any presented sequence versions strictly rise and no statement is accepted twice, however rendered |
| IncidentManifests.Client.AcceptedIff | gitcellar-crypto/src/broadcast.rs:340-428 | exactly when a manifest is believed, exactly when it is stale, and which verdict a believed one gets |
| IncidentManifests.Client.RefusalsAre | gitcellar-crypto/src/broadcast.rs:340-428 | which reason every other manifest is refused for |
| IncidentManifests.Client.RunRises | gitcellar-crypto/src/broadcast.rs:340-428 | over any served sequence the mark is the seq of the last believed manifest and rises with each, and each one was signed by a pinned key and agrees with its payload |
| IncidentManifests.Client.RunIsSafe | gitcellar-crypto/src/broadcast.rs:340-449 | no envelope is believed twice; the seqs of believed manifests rise strictly up to the final mark |
| IncidentManifests.Client.MarkIs | gitcellar-crypto/src/broadcast.rs:340-428 | a stale or refused manifest leaves the mark alone, a believed one moves it to its own seq |
| IncidentManifests.SignManifest | gitcellar-crypto/src/broadcast.rs:316-333 | the signature is over the canonical of the envelope returned, which agrees with its payload; exactly when serializing fails, and that signing failed when it is reported |
| IncidentManifests.ProducedIsAccepted | gitcellar-crypto/src/broadcast.rs:316-428 | a manifest signed by a pinned key is believed exactly when its seq is new and its payload version current |
| IncidentManifests.BarePayloadSignatureRefused | gitcellar-crypto/src/broadcast.rs:22-33 | a signature made over bare payload text verifies no envelope |
| IncidentManifests.CanonicalSignatureIsNoPayload | gitcellar-crypto/src/broadcast.rs:22-33 | a signature made over a signed canonical verifies no bare payload |
| Keywrap.HeadlessOutcomes | passkey-core/src/keywrap.rs:176-210 | every outcome of the configuration, the 32-character minimum and the derivation from the trimmed secret included |
| Keywrap.HeadlessConfiguration | passkey-core/src/keywrap.rs:176-210 | only an absent configuration reads as absent; inline and file secrets give the same key |
| Keywrap.Slot.MintsOnlyWhenAllowed | passkey-core/src/keywrap.rs:297-366 | exactly when the stored key changes, when LPK_MISSING is reported and when the marker is set; a returned key is the one left in the store |
| Keywrap.Host.AnswersAre | passkey-core/src/keywrap.rs:227-265 | a keyring's key is returned as it is, LPK_MISSING is never papered over, and the headless configuration answers exactly when the keyring is not used or failed in another way |
| Keywrap.Keyring.ResolveLpk | passkey-core/src/keywrap.rs:297-366 | the in-place resolve is the slot policy, whatever store operation fails |
| Keywrap.LpkProcess.ResolveHostLpk | passkey-core/src/keywrap.rs:474-490 | a keyring that does not persist is never touched; otherwise the resolve is the slot policy under the fallback rule |
| Keywrap.LpkProcess.CachedLpk | passkey-core/src/keywrap.rs:494-512 | a cached key is returned untouched; otherwise the host's resolve is, and its success is cached |
| Keywrap.LpkProcess.RemintLocalProtectionKey | passkey-core/src/keywrap.rs:538-549 | always resolves, and replaces the cache only on success |
| Keywrap.WrapThenUnwrap | passkey-core/src/keywrap.rs:384-436 | sealing at rest round-trips and is recognized by its header |
| Keywrap.UnwrapIs | passkey-core/src/keywrap.rs:384-436 | data without the header passes through whatever the key; with it, it opens only as a sealing under the key, which it then is byte for byte |
| Keywrap.WrongKeyRefused | passkey-core/src/keywrap.rs:415-436 | a sealed file opens under no other key |
| KeyLossSafety.Config.OneKeyAndNoFailedOpens | passkey-core/src/keywrap.rs:297-366 | from any slot with one source, over every run of seals, opens, restarts and wipes without a re-mint or lost marker, one key is ever resolved, and opening an earlier seal returns its plaintext or reports the key unavailable, as LPK_MISSING whenever the store answers |
| KeyLossSafety.Config.KeyAtHandOpens | passkey-core/src/keywrap.rs:494-615 | after such a run an open that resolves a key returns the plaintext, and it resolves one if its process has it or the store holds one and answers |
| KeyLossSafety.Config.LostKeyStaysLost | passkey-core/src/keywrap.rs:320-340 | after a wipe, while the store answers and nobody re-mints, nothing resolves a key whatever headless secret is configured, and sealed files report LPK_MISSING |
| KeyLossSafety.Config.RemintEndsIt | passkey-core/src/keywrap.rs:341-366 | a deliberate re-mint returns a new key and leaves it for every other process |
| KeyLossSafety.Config.OneKeyIffOneSource | passkey-core/src/keywrap.rs:227-265 | all such runs resolve one key exactly when the keyring is not used, no headless key is configured, or the slot can supply no other key |
| KeyLossSafety.Config.TwoSourcesSplit | passkey-core/src/keywrap.rs:227-265 | with two sources, a run of two seals and a restart that resolves two keys |
| KeyLossSafety.Config.StoredKeyIsOnlyKeyIff | passkey-core/src/keywrap.rs:227-265 | over all modes and store failures, a stored key is the only key resolved exactly when no other headless key is configured |
| KeyLossSafety.Install.Do | passkey-core/src/keywrap.rs:494-615 | process and keyring objects carry out each event exactly as the run model's step |
| KeyLossSafety.RunInstall | passkey-core/src/keywrap.rs:494-615 | objects driven through any list of events put out what the model's run says |
| KeyLossSafety.Config.OpenKeepsStoredKey | passkey-core/src/keywrap.rs:321-328 | opening never changes the stored key |
| KeyLossSafety.Config.LostMarkerMintsAgain | passkey-core/src/keywrap.rs:368-378 | a run in which an unwritten marker lets a second key be minted over the first |
| MintRace.ConvergeIffOneSource | passkey-core/src/keywrap.rs:340-360 | for any number of processes, any interleaving in which writers finish and any failing store accesses, all adopted keys agree exactly when the returned keys have one source: one process's key, returned only while it is the last to have reached the store or by its own failed re-read |
| MintRace.ConvergeIffWritesFirst | passkey-core/src/keywrap.rs:449-456 | when no access fails, that is that every write precedes every adopting read |
| MintRace.FailedRereadSplits | passkey-core/src/keywrap.rs:350-357 | with both writes before both re-reads, one re-read that fails leaves two processes with two keys |
| MintRace.WriteRereadInTurnSplits | passkey-core/src/keywrap.rs:350-360 | the schedule set, re-read, set, re-read leaves two processes with two keys |
| MintRace.AloneIsResolve | passkey-core/src/keywrap.rs:297-366 | without interleaving, the race's steps are the resolve of the sequential model, whichever of them fail |
| Levenshtein.LevenshteinDistance | passkey-core/src/recovery/bip39_impl.rs:47-80 | the two-row loop with its row swap computes the recursive edit distance |
| Levenshtein.DistanceIsShortestScript | passkey-core/src/recovery/bip39_impl.rs:47-80 | that distance is attained by some script of insertions, deletions and substitutions, and no script is shorter |
| Levenshtein.DistanceSymmetric | passkey-core/src/recovery/bip39_impl.rs:47-80 | the distance is symmetric |
| Levenshtein.ZeroDistanceIffEqual | passkey-core/src/recovery/bip39_impl.rs:47-80 | distance zero means equal |
| Levenshtein.TriangleInequality | passkey-core/src/recovery/bip39_impl.rs:47-80 | the distance obeys the triangle inequality |
| Levenshtein.FindClosestWord | passkey-core/src/recovery/bip39_impl.rs:35-44 | the first word of least distance within the threshold, and none exactly when no word is within it |
| Keystore.FileSystemKeystore.GenerateDeviceKeypair | gitcellar-crypto/src/keystore.rs:322-360 | the in-place creation, interrupted after any file step, leaves exactly the specified disk, cache and outcome |
| Keystore.CrashSafe | gitcellar-crypto/src/keystore.rs:287-384 | through any attempts, crashes, I/O errors and restarts, a present public key matches the stored private key, exporting returns it, and a completed pair never changes |
| Keystore.CrashSafeFromEmpty | gitcellar-crypto/src/keystore.rs:322-384 | the same from an empty identity directory, including that whatever attempts follow leave a completed pair as it is |
| Keystore.OneDeviceKey | gitcellar-crypto/src/keystore.rs:322-360 | all calls of a run that return a key return the same key |
| Keystore.GenerateSucceedsIff | gitcellar-crypto/src/keystore.rs:322-360 | exactly when a call returns a key, that a created one is cached, and that a failed seal writes nothing |
| Keystore.ExportIs | gitcellar-crypto/src/keystore.rs:367-384 | a public-key file is exported only if it is 32 bytes that are a key |
| Keystore.PublicFirstIsUnsafeIff | gitcellar-crypto/src/keystore.rs:346-347 | were the two files written in the other order, the crash points that break the match, exactly; in the source's order none does |

## Left out

- The gear table's derivation, and cipher, hash, HMAC, HKDF and signature internals: the table is arbitrary, the rest symbolic as described above.
- The keyring's persistence test, the environment and the file system behind the headless secret: results of reading them are inputs.
- Chunking.StreamChunker.Feed: requires the bytes fed to number fewer than 2^64, because the source's 64-bit offset wraps beyond that.
- Packing.PackChunks: takes the shuffled order, the pack ids and the filler as inputs; how they are drawn is not modelled. Distinct ids are a hypothesis where they matter.
- Pipeline.StoreStream: requires the sealed batch, 41 bytes a chunk over the stream, to have a size that a 64-bit length can hold.
- The reader as one function: the Service that locates, fetches, slices, opens and checks is not part of this repository, so `ReadStream` composes the published pieces in their documented order. The manifest is taken as authentic and an index as given.
- JSON, CBOR and standard base64: deterministic functions, with round trips as hypotheses where a producer is involved. `GrantBundle::from_json` is not modelled.
- Unicode whitespace and uppercase tables: parameters with the laws of `Unicode.Lawful`; lowercasing of a typed word is a parameter.
- Keystore.FileSystemKeystore.GenerateDeviceKeypair: models one process at a time; creating the directory and durability below the rename (fsync) are not modelled. On systems without file modes the two mode-setting steps do not exist, which only removes behaviours.
- Test overrides of the key, zeroization, constant-time comparison and the quality of randomness.
- Statistical claims about chunk sizes, and what sizes and counts still reveal after padding.
- Device and revocation certificates, transfer, usernames, machine ids, multi-user records, phrase formatting and prefix suggestions: short decision lists that would only add easy members.
- Storage back ends, request signing, bounded HTTP reads, the foreign-function interface and tokens: I/O or thin wrappers.
