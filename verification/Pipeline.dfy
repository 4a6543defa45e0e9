/** The storage pipeline end to end: chunk, seal in parallel, pack in any order, and read back what
    was written, from an honest or an arbitrary storage provider (vault-core/src/chunking.rs,
    chunk_format.rs, encryption.rs and pack.rs; gitcellar-crypto/src/encryption.rs). */
module Pipeline {
  import opened Words
  import opened Wrappers
  import opened Chunking
  import opened Aead
  import opened SealedChunks
  import opened ParallelSealing
  import opened Packing
  import opened PackProperties
  import Hex
  import Utf8

  /** `ChunkMetadata`: a manifest entry, authenticated by the owner. */
  datatype ManifestEntry = ManifestEntry(hash: string, size: nat, offset: nat)

  function Manifest(chunks: seq<Chunk>): seq<ManifestEntry> {
    seq(|chunks|, i requires 0 <= i < |chunks| => ManifestEntry(chunks[i].hash, chunks[i].size, chunks[i].offset))
  }

  datatype ReadError = NotIndexed | PackMissing | BadSlice | NotAuthentic | NameMismatch

  function Locate(index: seq<IndexEntry>, name: string): Option<PackLocation> {
    if index == [] then None
    else if index[0].name == name then Some(index[0].loc)
    else Locate(index[1..], name)
  }

  ghost function Position(index: seq<IndexEntry>, name: string): (k: nat)
    requires exists k :: 0 <= k < |index| && index[k].name == name
    ensures k < |index| && index[k].name == name
    ensures forall j :: 0 <= j < k ==> index[j].name != name
  {
    if index[0].name == name then 0
    else
      assert exists k :: 0 <= k < |index[1..]| && index[1..][k].name == name by {
        var k :| 0 <= k < |index| && index[k].name == name;
        assert index[1..][k - 1] == index[k];
      }
      var k := Position(index[1..], name);
      assert forall j :: 0 < j < k + 1 ==> index[j] == index[1..][j - 1];
      1 + k
  }

  lemma {:induction false} LocateFinds(index: seq<IndexEntry>, name: string)
    requires exists k :: 0 <= k < |index| && index[k].name == name
    ensures Locate(index, name) == Some(index[Position(index, name)].loc)
  {
    if index[0].name != name {
      assert exists k :: 0 <= k < |index[1..]| && index[1..][k].name == name by {
        var k :| 0 <= k < |index| && index[k].name == name;
        assert index[1..][k - 1] == index[k];
      }
      LocateFinds(index[1..], name);
    }
  }

  /** The honest provider returns the pack stored under an id. */
  function Serve(packs: seq<BuiltPack>): string -> Option<Bytes> {
    id => match FindPack(packs, id) case Some(p) => Some(p.bytes) case None => None
  }

  /** A repository's write settings: its chunker, its engine with a key version, and its uid. */
  datatype Repo = Repo(engine: ChunkEngine, sealer: ChunkCipher, repoUid: string, keyVersion: u32) {

    ghost predicate Usable() {
      && engine.WellFormed() && engine.Progresses() && sealer.cipher.Lawful()
      && keyVersion >= 1 && 0 !in Utf8.Encode(repoUid)
    }

    function Identity(name: string, size: u64): ChunkAad {
      ChunkAad(repoUid, name, keyVersion, 0, size)
    }

    function Blob(chunk: Chunk, nonce: Bytes): Bytes
      requires chunk.size < W64
    {
      match sealer.Encrypt(chunk.data, nonce, Identity(chunk.hash, chunk.size))
      case Ok(blob) => blob
      case Err(_) => []
    }

    /** The named blobs of a stream, one an entry, as handed to the packer. */
    function Items(chunks: seq<Chunk>, nonces: seq<Bytes>): seq<Item>
      requires |nonces| == |chunks| && forall i :: 0 <= i < |chunks| ==> chunks[i].size < W64
    {
      seq(|chunks|, i requires 0 <= i < |chunks| => Item(chunks[i].hash, Blob(chunks[i], nonces[i])))
    }

    // ----- The reader

    /** Fetches, slices, opens and name-checks one manifest entry. `served` is what the provider returns. */
    function ReadEntry(log: Log, served: string -> Option<Bytes>, index: seq<IndexEntry>, entry: ManifestEntry)
      : Result<Bytes, ReadError>
    {
      match Locate(index, entry.hash)
      case None => Err(NotIndexed)
      case Some(loc) =>
        match served(loc.packId)
        case None => Err(PackMissing)
        case Some(pack) =>
          match SliceChunk(pack, loc)
          case Err(_) => Err(BadSlice)
          case Ok(blob) =>
            if entry.size >= W64 then Err(NotAuthentic)
            else match ContentAad(repoUid, entry.hash, keyVersion, entry.size)
              case Err(_) => Err(NotAuthentic)
              case Ok(aad) =>
                match sealer.Decrypt(log, blob, aad)
                case Err(_) => Err(NotAuthentic)
                case Ok(plaintext) =>
                  if engine.naming.VerifyName(entry.hash, plaintext) then Ok(plaintext) else Err(NameMismatch)
    }

    /** Reads the entries in order and concatenates them; the first failure fails the read. */
    function ReadStream(log: Log, served: string -> Option<Bytes>, index: seq<IndexEntry>, manifest: seq<ManifestEntry>)
      : Result<Bytes, ReadError>
    {
      if manifest == [] then Ok([])
      else match ReadEntry(log, served, index, manifest[0])
        case Err(e) => Err(e)
        case Ok(first) =>
          match ReadStream(log, served, index, manifest[1..])
          case Err(e) => Err(e)
          case Ok(rest) => Ok(first + rest)
    }

    /** If every entry reads as its chunk, the stream reads as the chunks reassembled. */
    lemma {:induction false} ReadsAsReassembly(log: Log, served: string -> Option<Bytes>, index: seq<IndexEntry>,
                                                chunks: seq<Chunk>)
      requires forall i :: 0 <= i < |chunks| ==>
        ReadEntry(log, served, index, Manifest(chunks)[i]) == Ok(chunks[i].data)
      ensures ReadStream(log, served, index, Manifest(chunks)) == Ok(Reassemble(chunks))
      decreases |chunks|
    {
      if chunks != [] {
        hide ReadEntry;
        assert Manifest(chunks)[1..] == Manifest(chunks[1..]);
        assert ReadEntry(log, served, index, Manifest(chunks)[0]) == Ok(chunks[0].data);
        forall i | 0 <= i < |chunks[1..]|
          ensures ReadEntry(log, served, index, Manifest(chunks[1..])[i]) == Ok(chunks[1..][i].data)
        {
          assert Manifest(chunks[1..])[i] == Manifest(chunks)[i + 1];
        }
        ReadsAsReassembly(log, served, index, chunks[1..]);
      }
    }

    /** If every entry reads as its chunk or fails, the stream reads as the chunks reassembled or fails. */
    lemma {:induction false} ReadsAsReassemblyOrFails(log: Log, served: string -> Option<Bytes>,
                                                       index: seq<IndexEntry>, chunks: seq<Chunk>)
      requires forall i :: 0 <= i < |chunks| ==>
        var r := ReadEntry(log, served, index, Manifest(chunks)[i]);
        r.Err? || r == Ok(chunks[i].data)
      ensures var r := ReadStream(log, served, index, Manifest(chunks));
        r.Err? || r == Ok(Reassemble(chunks))
      decreases |chunks|
    {
      if chunks != [] {
        hide ReadEntry;
        assert Manifest(chunks)[1..] == Manifest(chunks[1..]);
        var first := ReadEntry(log, served, index, Manifest(chunks)[0]);
        assert first.Err? || first == Ok(chunks[0].data);
        forall i | 0 <= i < |chunks[1..]|
          ensures var r := ReadEntry(log, served, index, Manifest(chunks[1..])[i]);
            r.Err? || r == Ok(chunks[1..][i].data)
        {
          assert Manifest(chunks[1..])[i] == Manifest(chunks)[i + 1];
        }
        ReadsAsReassemblyOrFails(log, served, index, chunks[1..]);
      }
    }

    // ----- What the writer produced

    /** Names are lowercase hex, so they hold no NUL. */
    lemma NameHasNoNul(data: Bytes)
      ensures 0 !in Utf8.Encode(engine.naming.Name(data))
    {
      var name := engine.naming.Name(data);
      Utf8.ZeroOnlyInNul(name);
      assert forall i :: 0 <= i < |name| ==> Hex.IsLowerHexDigit(name[i]);
    }

    /** Chunks as the chunker makes them. */
    ghost predicate WellNamed(chunks: seq<Chunk>) {
      forall i :: 0 <= i < |chunks| ==>
        && chunks[i].hash == engine.naming.Name(chunks[i].data)
        && chunks[i].size == |chunks[i].data|
        && chunks[i].size <= engine.config.max
    }

    lemma {:induction false} TilesAreWellNamed(chunks: seq<Chunk>, offset: nat)
      requires Tiles(chunks, offset, engine.naming)
      requires forall i :: 0 <= i < |chunks| ==> chunks[i].size <= engine.config.max
      ensures WellNamed(chunks)
    {
      if chunks != [] {
        forall i | 0 <= i < |chunks[1..]|
          ensures chunks[1..][i].size <= engine.config.max
        {
          assert chunks[1..][i] == chunks[i + 1];
        }
        TilesAreWellNamed(chunks[1..], offset + chunks[0].size);
        forall i | 0 <= i < |chunks|
          ensures chunks[i].hash == engine.naming.Name(chunks[i].data) && chunks[i].size == |chunks[i].data|
        {
          assert i > 0 ==> chunks[i] == chunks[1..][i - 1];
        }
      }
    }

    lemma ChunksAreWellNamed(data: Bytes)
      requires Usable()
      ensures WellNamed(engine.Chunks(data, 0))
      ensures Reassemble(engine.Chunks(data, 0)) == data
    {
      var chunks := engine.Chunks(data, 0);
      engine.ChunksTileTheStream(data, 0);
      forall i | 0 <= i < |chunks|
        ensures chunks[i].size <= engine.config.max
      {
        engine.ChunkSizes(data, 0, i);
      }
      TilesAreWellNamed(chunks, 0);
    }

    /** The manifest lists the stream from byte 0 on, each entry starting where the one before it ends. */
    lemma {:induction false} ManifestIsContiguous(chunks: seq<Chunk>, offset: nat, i: nat)
      requires Tiles(chunks, offset, engine.naming) && i < |chunks|
      ensures var m := Manifest(chunks);
        && |m| == |chunks| && m[0].offset == offset
        && m[i].hash == engine.naming.Name(chunks[i].data) && m[i].size == |chunks[i].data|
        && (i + 1 < |m| ==> m[i + 1].offset == m[i].offset + m[i].size)
      decreases |chunks|
    {
      if i > 0 {
        ManifestIsContiguous(chunks[1..], offset + chunks[0].size, i - 1);
        assert chunks[1..][i - 1] == chunks[i] && (i + 1 < |chunks| ==> chunks[1..][i] == chunks[i + 1]);
      } else if |chunks| > 1 {
        assert chunks[1..][0] == chunks[1];
      }
    }

    lemma BlobOpens(log: Log, chunk: Chunk, nonce: Bytes)
      requires Usable() && |nonce| == NonceSize
      requires chunk.hash == engine.naming.Name(chunk.data) && chunk.size == |chunk.data| <= engine.config.max
      requires sealer.Recorded(chunk.data, nonce, Identity(chunk.hash, chunk.size)) in log
      ensures |Blob(chunk, nonce)| == |chunk.data| + Overhead
      ensures sealer.Decrypt(log, Blob(chunk, nonce), Identity(chunk.hash, chunk.size)) == Ok(chunk.data)
    {
      hide ChunkCipher.Decrypt, ChunkAad.Canonical;
      NameHasNoNul(chunk.data);
      sealer.SealedLayout(chunk.data, nonce, Identity(chunk.hash, chunk.size));
      sealer.SealThenOpen(log, chunk.data, nonce, Identity(chunk.hash, chunk.size));
    }

    /** The log holds the sealing of every chunk, each under its own nonce. */
    ghost predicate Logged(log: Log, chunks: seq<Chunk>, nonces: nat -> Bytes) {
      forall i :: 0 <= i < |chunks| ==>
        && chunks[i].size < W64
        && sealer.Recorded(chunks[i].data, nonces(i), Identity(chunks[i].hash, chunks[i].size)) in log
    }

    lemma IdentitiesAccepted(chunks: seq<Chunk>)
      requires Usable() && WellNamed(chunks)
      ensures forall i :: 0 <= i < |chunks| ==> chunks[i].size < W64
      ensures BatchEngine(sealer, Some(keyVersion)).AllAccepted(repoUid, chunks, keyVersion)
    {
      forall i | 0 <= i < |chunks|
        ensures 0 !in Utf8.Encode(chunks[i].hash)
      {
        NameHasNoNul(chunks[i].data);
      }
    }

    /** Sealing adds 41 bytes to each chunk. */
    lemma SealedBatchSize(data: Bytes, chunks: seq<Chunk>, nonces: seq<Bytes>)
      requires Usable() && chunks == engine.Chunks(data, 0)
      requires |nonces| == |chunks|
      requires forall i :: 0 <= i < |chunks| ==> |nonces[i]| == NonceSize && chunks[i].size < W64
      ensures Size(Items(chunks, nonces)) == |data| + Overhead * |chunks|
    {
      ChunksAreWellNamed(data);
      engine.ChunksTileTheStream(data, 0);
      hide ChunkEngine.Chunks;
      BatchSize(chunks, 0, nonces);
    }

    lemma {:induction false} BatchSize(chunks: seq<Chunk>, offset: nat, nonces: seq<Bytes>)
      requires Usable() && WellNamed(chunks) && Tiles(chunks, offset, engine.naming)
      requires |nonces| == |chunks|
      requires forall i :: 0 <= i < |chunks| ==> |nonces[i]| == NonceSize && chunks[i].size < W64
      ensures Size(Items(chunks, nonces)) == |Reassemble(chunks)| + Overhead * |chunks|
      decreases |chunks|
    {
      if chunks != [] {
        hide Blob;
        var c, rest, restNonces := chunks[0], chunks[1..], nonces[1..];
        forall i | 0 <= i < |rest|
          ensures rest[i] == chunks[i + 1] && restNonces[i] == nonces[i + 1]
        {
        }
        BatchSize(rest, offset + c.size, restNonces);
        BlobOpens([sealer.Recorded(c.data, nonces[0], Identity(c.hash, c.size))], c, nonces[0]);
        var items := Items(chunks, nonces);
        assert items[1..] == Items(rest, restNonces);
      }
    }

    // ----- Theorems

    /** The conditions under which a stream was written: nonces of the right size, a log that holds
        what was sealed, the batch in any order, distinct pack ids, and room in memory. */
    ghost predicate Written(log: Log, chunks: seq<Chunk>, nonces: seq<Bytes>, order: seq<Item>,
                            target: nat, draws: Draws)
    {
      && WellNamed(chunks) && |nonces| == |chunks|
      && (forall i :: 0 <= i < |chunks| ==>
            && |nonces[i]| == NonceSize && chunks[i].size < W64
            && sealer.Recorded(chunks[i].data, nonces[i], Identity(chunks[i].hash, chunks[i].size)) in log)
      && multiset(order) == multiset(Items(chunks, nonces))
      && Size(order) < W64
      && draws.DistinctIds(|Bins(order, target)|)
    }

    /** The hash that names chunks does not collide on the stream's own chunks. */
    ghost predicate NamesSeparate(chunks: seq<Chunk>) {
      forall i, j :: 0 <= i < |chunks| && 0 <= j < |chunks| ==>
        engine.naming.HashAlike(chunks[i].data, chunks[j].data) ==> chunks[i].data == chunks[j].data
    }

    /** Whatever item the packer kept under a chunk's name, its blob opens under that chunk's identity
        to that chunk's data: duplicated content is sealed many times but stored once. */
    lemma KeptItemOpens(log: Log, chunks: seq<Chunk>, nonces: seq<Bytes>, order: seq<Item>, target: nat,
                        draws: Draws, i: nat, item: Item)
      requires Usable() && Written(log, chunks, nonces, order, target, draws) && NamesSeparate(chunks)
      requires i < |chunks| && item in order && item.name == chunks[i].hash
      ensures |item.blob| == |chunks[i].data| + Overhead
      ensures sealer.Decrypt(log, item.blob, Identity(chunks[i].hash, chunks[i].size)) == Ok(chunks[i].data)
    {
      hide ChunkCipher.Decrypt, ChunkAad.Canonical, Blob, Bins, Size;
      assert item in multiset(order);
      var items := Items(chunks, nonces);
      assert item in items;
      var j :| 0 <= j < |items| && items[j] == item;
      BlobOpens(log, chunks[j], nonces[j]);
      engine.naming.NamesCollideIff(chunks[j].data, chunks[i].data);
    }

    /** The index holds a sealed blob's length in 32 bits. */
    predicate FitsIndex(chunk: Chunk) {
      |chunk.data| + Overhead < W32
    }

    /** An entry of an honestly stored stream is located in an uploaded pack; slicing it there yields a blob
        that opens to the entry's chunk, unless the blob's length does not fit the index. */
    lemma EntryIsStored(log: Log, chunks: seq<Chunk>, nonces: seq<Bytes>, order: seq<Item>, target: nat,
                        draws: Draws, i: nat) returns (loc: PackLocation, pack: Bytes, blob: Bytes)
      requires Usable() && Written(log, chunks, nonces, order, target, draws) && NamesSeparate(chunks)
      requires i < |chunks|
      ensures var stored := PackAll(order, target, draws);
        && Locate(stored.index, chunks[i].hash) == Some(loc) && Serve(stored.packs)(loc.packId) == Some(pack)
      ensures loc.length == (|chunks[i].data| + Overhead) % W32
      ensures FitsIndex(chunks[i]) ==> SliceChunk(pack, loc) == Ok(blob)
      ensures sealer.Decrypt(log, blob, Identity(chunks[i].hash, chunks[i].size)) == Ok(chunks[i].data)
    {
      var stored := PackAll(order, target, draws);
      hide PackAll, ChunkCipher.Decrypt, ChunkAad.Canonical, Blob, Bins, Dedup, SliceChunk, FindPack, LosesLastPack;
      var name := chunks[i].hash;
      NameIsKept(log, chunks, nonces, order, target, draws, i);
      LocateFinds(stored.index, name);
      var k := Position(stored.index, name);
      IndexNamesInput(order, target, draws);
      var item := Dedup(order, {})[k];
      DedupKeepsItems(order, {});
      assert item in Dedup(order, {});
      KeptItemOpens(log, chunks, nonces, order, target, draws, i, item);
      PackRoundTrip(order, target, draws, k);
      loc, blob := stored.index[k].loc, item.blob;
      pack := FindPack(stored.packs, loc.packId).value.bytes;
    }

    /** Reading an entry yields its chunk, if its blob's length fits the index. */
    lemma EntryReadsBack(log: Log, chunks: seq<Chunk>, nonces: seq<Bytes>, order: seq<Item>, target: nat,
                         draws: Draws, i: nat)
      requires Usable() && Written(log, chunks, nonces, order, target, draws) && NamesSeparate(chunks)
      requires i < |chunks| && FitsIndex(chunks[i])
      ensures var stored := PackAll(order, target, draws);
        ReadEntry(log, Serve(stored.packs), stored.index, Manifest(chunks)[i]) == Ok(chunks[i].data)
    {
      var loc, pack, blob := EntryIsStored(log, chunks, nonces, order, target, draws, i);
      hide PackAll, ChunkCipher.Decrypt, ChunkAad.Canonical, Bins, SliceChunk, Serve, Locate;
      NameHasNoNul(chunks[i].data);
      engine.naming.VerifyNameIff(chunks[i].hash, chunks[i].data);
    }

    /** If it does not fit, and digests do not collide, reading the entry fails. */
    lemma OversizedEntryFails(log: Log, chunks: seq<Chunk>, nonces: seq<Bytes>, order: seq<Item>, target: nat,
                              draws: Draws, i: nat)
      requires Usable() && Written(log, chunks, nonces, order, target, draws) && NamesSeparate(chunks)
      requires CollisionFree(log, chunks) && i < |chunks| && !FitsIndex(chunks[i])
      ensures var stored := PackAll(order, target, draws);
        ReadEntry(log, Serve(stored.packs), stored.index, Manifest(chunks)[i]).Err?
    {
      var loc, pack, blob := EntryIsStored(log, chunks, nonces, order, target, draws, i);
      var stored := PackAll(order, target, draws);
      EntryIsChunkOrFails(log, Serve(stored.packs), stored.index, chunks, i);
      hide ReadEntry, PackAll, Locate, Serve;
      if ReadEntry(log, Serve(stored.packs), stored.index, Manifest(chunks)[i]).Ok? {
        ReadLengthIsStored(log, Serve(stored.packs), stored.index, Manifest(chunks)[i]);
      }
    }

    /** What an entry reads as is 41 bytes shorter than the length its index entry gives. */
    lemma ReadLengthIsStored(log: Log, served: string -> Option<Bytes>, index: seq<IndexEntry>, entry: ManifestEntry)
      requires sealer.cipher.Lawful() && ReadEntry(log, served, index, entry).Ok?
      ensures Locate(index, entry.hash).Some?
      ensures |ReadEntry(log, served, index, entry).value| + Overhead == Locate(index, entry.hash).value.length
    {
      hide ChunkCipher.Decrypt, ChunkAad.Canonical;
      var loc := Locate(index, entry.hash).value;
      var blob := SliceChunk(served(loc.packId).value, loc).value;
      sealer.AcceptedWasSealed(log, blob, Identity(entry.hash, entry.size));
    }

    lemma NameIsKept(log: Log, chunks: seq<Chunk>, nonces: seq<Bytes>, order: seq<Item>, target: nat,
                     draws: Draws, i: nat)
      requires Usable() && Written(log, chunks, nonces, order, target, draws) && i < |chunks|
      ensures var index := PackAll(order, target, draws).index;
        exists k :: 0 <= k < |index| && index[k].name == chunks[i].hash
    {
      hide PackAll, Dedup, Bins, Blob, ChunkAad.Canonical, NamesDistinct;
      var items := Items(chunks, nonces);
      assert items[i] in items;
      assert items[i] in multiset(items);
      assert items[i] in order;
      IndexNamesInput(order, target, draws);
      var kept := Dedup(order, {});
      assert chunks[i].hash in NameSet(kept);
      var x :| x in kept && x.name == chunks[i].hash;
      var k :| 0 <= k < |kept| && kept[k] == x;
      assert PackAll(order, target, draws).index[k].name == chunks[i].hash;
    }

    /** End to end: chunk, seal, pack in any order, then fetch, slice, open, name-check and concatenate
        returns the bytes that were written, for every stream, duplicated chunks included, if every sealed
        chunk's length fits the index; and if digests do not collide, exactly then: otherwise it fails. */
    lemma ReadBackIsIdentity(log: Log, data: Bytes, nonces: seq<Bytes>, order: seq<Item>, target: nat, draws: Draws)
      requires Usable()
      ensures var chunks, stored := engine.Chunks(data, 0), PackAll(order, target, draws);
        var r := ReadStream(log, Serve(stored.packs), stored.index, Manifest(chunks));
        Written(log, chunks, nonces, order, target, draws) && NamesSeparate(chunks) ==>
          && (AllFit(chunks) ==> r == Ok(data))
          && (CollisionFree(log, chunks) && !AllFit(chunks) ==> r.Err?)
    {
      hide ReadEntry, ReadStream, PackAll, ChunkEngine.Chunks, Written, NamesSeparate, CollisionFree, FitsIndex;
      var chunks, stored := engine.Chunks(data, 0), PackAll(order, target, draws);
      if !Written(log, chunks, nonces, order, target, draws) || !NamesSeparate(chunks) {
      } else if AllFit(chunks) {
        forall i | 0 <= i < |chunks|
          ensures ReadEntry(log, Serve(stored.packs), stored.index, Manifest(chunks)[i]) == Ok(chunks[i].data)
        {
          assert FitsIndex(chunks[i]);
          EntryReadsBack(log, chunks, nonces, order, target, draws, i);
        }
        ReadsAsReassembly(log, Serve(stored.packs), stored.index, chunks);
        ChunksAreWellNamed(data);
      } else if CollisionFree(log, chunks) {
        var i :| 0 <= i < |chunks| && !FitsIndex(chunks[i]);
        OversizedEntryFails(log, chunks, nonces, order, target, draws, i);
        OneFailureFailsTheRead(log, Serve(stored.packs), stored.index, Manifest(chunks), i);
      }
    }

    predicate AllFit(chunks: seq<Chunk>) {
      forall i :: 0 <= i < |chunks| ==> FitsIndex(chunks[i])
    }

    /** A stream that does not read back: 4 GiB under an accepted configuration that makes it one chunk. */
    lemma FourGibChunkDoesNotFit(data: Bytes)
      requires engine.config == ChunkConfig(W32, W32, W32) && |data| == W32
      ensures engine.WellFormed() && engine.Progresses() && !AllFit(engine.Chunks(data, 0))
    {
      assert engine.Boundary(data) == W32;
      engine.ChunksUnfold(data, 0, W32, W32);
      assert data[..W32] == data;
      assert !FitsIndex(engine.Chunks(data, 0)[0]);
    }

    lemma {:induction false} OneFailureFailsTheRead(log: Log, served: string -> Option<Bytes>,
                                                     index: seq<IndexEntry>, manifest: seq<ManifestEntry>, i: nat)
      requires i < |manifest| && ReadEntry(log, served, index, manifest[i]).Err?
      ensures ReadStream(log, served, index, manifest).Err?
      decreases |manifest|
    {
      hide ReadEntry;
      if i > 0 && ReadEntry(log, served, index, manifest[0]).Ok? {
        OneFailureFailsTheRead(log, served, index, manifest[1..], i - 1);
      }
    }

    /** The hash that names chunks does not collide between the stream's chunks and any message ever sealed. */
    ghost predicate CollisionFree(log: Log, chunks: seq<Chunk>) {
      forall i, s :: 0 <= i < |chunks| && s in log ==>
        engine.naming.HashAlike(s.msg, chunks[i].data) ==> s.msg == chunks[i].data
    }

    /** Against an arbitrary provider: whatever bytes come back for whatever pack, and even for an
        arbitrary index, a read of an authentic manifest fails or returns exactly what was written. */
    lemma ArbitraryProvider(log: Log, data: Bytes, served: string -> Option<Bytes>, index: seq<IndexEntry>)
      requires Usable() && CollisionFree(log, engine.Chunks(data, 0))
      ensures var r := ReadStream(log, served, index, Manifest(engine.Chunks(data, 0)));
        r.Err? || r == Ok(data)
    {
      hide ReadEntry, ChunkEngine.Chunks, CollisionFree;
      var chunks := engine.Chunks(data, 0);
      ChunksAreWellNamed(data);
      forall i | 0 <= i < |chunks|
        ensures var r := ReadEntry(log, served, index, Manifest(chunks)[i]);
          r.Err? || r == Ok(chunks[i].data)
      {
        EntryIsChunkOrFails(log, served, index, chunks, i);
      }
      ReadsAsReassemblyOrFails(log, served, index, chunks);
    }

    lemma EntryIsChunkOrFails(log: Log, served: string -> Option<Bytes>, index: seq<IndexEntry>,
                              chunks: seq<Chunk>, i: nat)
      requires Usable() && CollisionFree(log, chunks) && WellNamed(chunks) && i < |chunks|
      ensures var r := ReadEntry(log, served, index, Manifest(chunks)[i]);
        r.Err? || r == Ok(chunks[i].data)
    {
      hide ChunkCipher.Decrypt, ChunkAad.Canonical, SliceChunk;
      var entry := Manifest(chunks)[i];
      var r := ReadEntry(log, served, index, entry);
      if r.Ok? {
        var loc := Locate(index, entry.hash).value;
        var blob := SliceChunk(served(loc.packId).value, loc).value;
        var aad := Identity(entry.hash, entry.size);
        sealer.AcceptedWasSealed(log, blob, aad);
        var s := sealer.Recorded(r.value, blob[1..1 + NonceSize], aad);
        engine.naming.NamesCollideIff(r.value, chunks[i].data);
        assert s in log && s.msg == r.value;
      }
    }

    /** `own` is the identity of a content chunk that holds `msg`, or that of a named object such as the
        stream manifest, whose name spells no digest. */
    predicate OwnIdentity(own: ChunkAad, msg: Bytes) {
      own.Check() &&
      (DecodeName(own.chunkName).None?
       || (own.chunkName == engine.naming.Name(msg) && own.streamOffset == 0 && own.size == |msg|))
    }

    /** Every sealing under this key is of a message under such an identity, for whatever repository and
        key version. */
    ghost predicate HonestWriters(log: Log) {
      forall s :: s in log && s.key == sealer.key ==>
        exists own :: OwnIdentity(own, s.msg) && s.aad == [V3] + own.Canonical()
    }

    /** Among honest writers the sealed identity alone already forces the name and the size: a blob that
        opens under an entry's identity passes the name check, so splicing is caught by the cipher. */
    lemma IdentityForcesName(log: Log, blob: Bytes, name: string, size: u64)
      requires sealer.cipher.Lawful() && HonestWriters(log) && DecodeName(name).Some?
      requires sealer.Decrypt(log, blob, Identity(name, size)).Ok?
      ensures var m := sealer.Decrypt(log, blob, Identity(name, size)).value;
        engine.naming.VerifyName(name, m) && name == engine.naming.Name(m) && |m| == size
    {
      hide ChunkCipher.Decrypt, ChunkAad.Canonical, DecodeName, ChunkAad.Check;
      var aad := Identity(name, size);
      sealer.AcceptedWasSealed(log, blob, aad);
      var m := sealer.Decrypt(log, blob, aad).value;
      var s := sealer.Recorded(m, blob[1..1 + NonceSize], aad);
      var own :| OwnIdentity(own, s.msg) && s.aad == [V3] + own.Canonical();
      assert s.aad[1..] == own.Canonical() && s.aad[1..] == aad.Canonical();
      CanonicalInjective(own, aad);
      engine.naming.VerifyNameIff(name, m);
    }

    /** Every content chunk's name spells a digest and no named object's does. */
    lemma NamedObjectsAreApart(data: Bytes, head: string)
      ensures DecodeName(engine.naming.Name(data)).Some?
      ensures DecodeName("stream-manifest").None? && DecodeName("metadata").None?
      ensures DecodeName("contribution/" + head).None?
    {
      Hex.RoundTrip(engine.naming.DigestOf(data));
      var name := "contribution/" + head;
      assert name[0] == 'c' && name[1] == 'o';
    }
  }

  /** What a push uploads and what its manifest records. */
  datatype Stored = Stored(packs: PackSet, manifest: seq<ManifestEntry>)

  /** The random choices of a push: nonces, task schedules, the shuffle, and the packer's draws. */
  datatype Choices = Choices(nonces: nat -> Bytes, schedule: nat -> Schedule,
                             shuffle: seq<Item> -> seq<Item>, draws: Draws)
  {
    ghost predicate Lawful() {
      && (forall i: nat :: |nonces(i)| == NonceSize)
      && (forall n: nat :: schedule(n).Runs(n))
      && (forall items :: multiset(shuffle(items)) == multiset(items))
      && (forall n: nat :: draws.DistinctIds(n))
    }
  }

  lemma RemoveOne(items: seq<Item>, i: nat, others: seq<Item>)
    requires i < |items| && others == items[..i] + items[i + 1..]
    ensures multiset(others) == multiset(items) - multiset{items[i]}
    ensures Size(items) == Size(others) + |items[i].blob|
  {
    hide Size;
    var before, x, after := items[..i], items[i], items[i + 1..];
    assert items == before + [x] + after;
    ContentAppend(before, after);
    ContentAppend(before + [x], after);
    ContentSnoc(before, x);
  }

  lemma {:induction false} SizeOfPermutation(a: seq<Item>, b: seq<Item>)
    requires multiset(a) == multiset(b)
    ensures Size(a) == Size(b)
    decreases |a|
  {
    if a == [] {
      assert |multiset(b)| == 0;
    } else {
      assert a[0] in multiset(b);
      var i :| 0 <= i < |b| && b[i] == a[0];
      var rest, others := a[1..], b[..i] + b[i + 1..];
      RemoveOne(a, 0, rest);
      RemoveOne(b, i, others);
      SizeOfPermutation(rest, others);
    }
  }

  lemma SealedItems(repo: Repo, chunks: seq<Chunk>, nonces: seq<Bytes>, blobs: seq<Bytes>, items: seq<Item>)
    requires |nonces| == |chunks| == |blobs| == |items| && forall i :: 0 <= i < |chunks| ==> chunks[i].size < W64
    requires var batch := BatchEngine(repo.sealer, Some(repo.keyVersion));
      forall i :: 0 <= i < |chunks| ==>
        Ok(blobs[i]) == batch.SealedChunk(repo.repoUid, chunks[i], repo.keyVersion, nonces[i])
    requires forall i :: 0 <= i < |chunks| ==> items[i] == Item(chunks[i].hash, blobs[i])
    ensures items == repo.Items(chunks, nonces)
  {
  }

  lemma BatchFits(repo: Repo, data: Bytes, chunks: seq<Chunk>, nonces: seq<Bytes>, order: seq<Item>)
    requires repo.Usable() && |nonces| == |chunks|
    requires forall i :: 0 <= i < |chunks| ==> |nonces[i]| == NonceSize && chunks[i].size < W64
    ensures chunks == repo.engine.Chunks(data, 0) && multiset(order) == multiset(repo.Items(chunks, nonces)) ==>
      Size(order) == |data| + Overhead * |chunks|
  {
    if chunks == repo.engine.Chunks(data, 0) && multiset(order) == multiset(repo.Items(chunks, nonces)) {
      hide *;
      repo.SealedBatchSize(data, chunks, nonces);
      SizeOfPermutation(order, repo.Items(chunks, nonces));
    }
  }

  lemma StoredReadsBack(log: Log, repo: Repo, data: Bytes, choices: Choices, nonces: seq<Bytes>, order: seq<Item>,
                        target: nat)
    requires repo.Usable() && choices.Lawful()
    requires forall i :: 0 <= i < |nonces| ==> nonces[i] == choices.nonces(i)
    ensures var chunks, stored := repo.engine.Chunks(data, 0), PackAll(order, target, choices.draws);
      |nonces| == |chunks| && repo.WellNamed(chunks) && repo.NamesSeparate(chunks) && repo.AllFit(chunks)
        && repo.Logged(log, chunks, choices.nonces)
        && multiset(order) == multiset(repo.Items(chunks, nonces)) && Size(order) < W64 ==>
        repo.ReadStream(log, Serve(stored.packs), stored.index, Manifest(chunks)) == Ok(data)
  {
    var chunks := repo.engine.Chunks(data, 0);
    if |nonces| == |chunks| && repo.WellNamed(chunks) && repo.NamesSeparate(chunks) && repo.AllFit(chunks)
      && repo.Logged(log, chunks, choices.nonces)
      && multiset(order) == multiset(repo.Items(chunks, nonces)) && Size(order) < W64
    {
      assert repo.Written(log, chunks, nonces, order, target, choices.draws) by {
        hide Repo.Usable, ChunkEngine.Chunks, Bins, Size, Repo.Items, ChunkCipher.Recorded;
      }
      hide *;
      repo.ReadBackIsIdentity(log, data, nonces, order, target, choices.draws);
    }
  }

  /** The drivers composed: feeds go through the stream chunker, the chunks through the parallel
      sealer, the blobs through the packer. If no task is lost, reading the result back returns the
      concatenation of the feeds. */
  method StoreStream(repo: Repo, feeds: seq<Bytes>, choices: Choices, target: nat)
    returns (r: Result<Stored, BatchError>)
    requires repo.Usable() && choices.Lawful()
    requires |Flatten(feeds)| + Overhead * |repo.engine.Chunks(Flatten(feeds), 0)| < W64
    ensures var chunks := repo.engine.Chunks(Flatten(feeds), 0);
      r.Ok? <==> choices.schedule(|chunks|).LosesNone(|chunks|)
    ensures var chunks := repo.engine.Chunks(Flatten(feeds), 0);
      r.Ok? && repo.NamesSeparate(chunks) && repo.AllFit(chunks) ==>
        forall log :: repo.Logged(log, chunks, choices.nonces) ==>
          repo.ReadStream(log, Serve(r.value.packs.packs), r.value.packs.index, r.value.manifest) == Ok(Flatten(feeds))
  {
    hide PackAll, ChunkEngine.Chunks, Repo.ReadStream, Repo.Blob, Repo.Items, BatchEngine.SealedChunk, Size, Serve,
      Repo.Logged, Repo.NamesSeparate, Repo.AllFit, Flatten, ChunkAad.Check, ChunkAad.Canonical;
    var all := ChunkFeeds(repo.engine, feeds);
    repo.ChunksAreWellNamed(Flatten(feeds));
    repo.IdentitiesAccepted(all);
    var nonces := seq<Bytes>(|all|, i requires 0 <= i < |all| => choices.nonces(i));
    var batch := BatchEngine(repo.sealer, Some(repo.keyVersion));
    var blobs := batch.EncryptChunksParallel(repo.repoUid, all, nonces, choices.schedule(|all|));
    if blobs.Err? {
      return Err(blobs.error);
    }
    var items := seq<Item>(|all|, i requires 0 <= i < |all| => Item(all[i].hash, blobs.value[i]));
    SealedItems(repo, all, nonces, blobs.value, items);
    var order := choices.shuffle(items);
    BatchFits(repo, Flatten(feeds), all, nonces, order);
    var packs := PackChunks(order, target, choices.draws);
    r := Ok(Stored(packs, Manifest(all)));
    forall log | repo.NamesSeparate(all) && repo.AllFit(all) && repo.Logged(log, all, choices.nonces)
      ensures repo.ReadStream(log, Serve(packs.packs), packs.index, Manifest(all)) == Ok(Flatten(feeds))
    {
      StoredReadsBack(log, repo, Flatten(feeds), choices, nonces, order, target);
    }
  }
}
