/** Sealing and opening many chunks in parallel tasks (gitcellar-crypto/src/encryption.rs,
    `encrypt_chunks_e1_parallel`, `encrypt_chunks_parallel` and `decrypt_chunks_parallel`). */
module ParallelSealing {
  import opened Words
  import opened Wrappers
  import opened Chunking
  import opened Aead
  import opened SealedChunks

  datatype BatchError =
    | NoKeyVersion | InvalidKeyVersion | AadRefused | TaskFailed | SealFailed | CountMismatch | OpenFailed

  /** How the runtime treats the `n` spawned tasks: the order they run in, and which of them are lost. */
  datatype Schedule = Schedule(order: seq<nat>, lost: set<nat>) {
    /** Every task runs; running one again would change nothing, and no other task runs. */
    ghost predicate Runs(n: nat) {
      && (forall k :: 0 <= k < |order| ==> order[k] < n)
      && (forall i :: 0 <= i < n ==> i in order)
    }

    predicate LosesNone(n: nat) {
      forall i :: 0 <= i < n ==> i !in lost
    }
  }

  /** An engine for one repository's key, and the key version it was built with. */
  datatype BatchEngine = BatchEngine(chunkCipher: ChunkCipher, keyVersion: Option<u32>) {

    /** `batch_key_version` */
    function BatchKeyVersion(): Result<u32, BatchError> {
      match keyVersion
      case None => Err(NoKeyVersion)
      case Some(v) => if v >= 1 then Ok(v) else Err(InvalidKeyVersion)
    }

    /** A batch is refused without a key version, and for version 0; otherwise it is sealed under the engine's own. */
    lemma BatchKeyVersionIs()
      ensures keyVersion == None ==> BatchKeyVersion() == Err(NoKeyVersion)
      ensures keyVersion == Some(0) ==> BatchKeyVersion() == Err(InvalidKeyVersion)
      ensures forall v: u32 :: v > 0 && keyVersion == Some(v) ==> BatchKeyVersion() == Ok(v)
    {
    }

    /** Equal content is sealed under one identity, wherever in the stream it stands. */
    lemma DuplicatesShareIdentity(repoUid: string, c: Chunk, d: Chunk, version: u32)
      requires c.size < W64 && d == c.(offset := d.offset)
      ensures ContentChunkAad(repoUid, c, version) == ContentChunkAad(repoUid, d, version)
      ensures ContentChunkAad(repoUid, c, version).Ok? ==>
        ContentChunkAad(repoUid, c, version).value == ChunkAad(repoUid, c.hash, version, 0, c.size)
    {
    }

    /** The identity a chunk is sealed under. */
    function Identity(repoUid: string, chunk: Chunk, version: u32): ChunkAad
      requires chunk.size < W64
    {
      ChunkAad(repoUid, chunk.hash, version, 0, chunk.size)
    }

    /** `content_chunk_aad` */
    function ContentChunkAad(repoUid: string, chunk: Chunk, version: u32): Result<ChunkAad, BatchError>
      requires chunk.size < W64
    {
      match ContentAad(repoUid, chunk.hash, version, chunk.size)
      case Ok(aad) => Ok(aad)
      case Err(_) => Err(AadRefused)
    }

    predicate AllAccepted(repoUid: string, chunks: seq<Chunk>, version: u32)
      requires forall i :: 0 <= i < |chunks| ==> chunks[i].size < W64
    {
      forall i :: 0 <= i < |chunks| ==> Identity(repoUid, chunks[i], version).Check()
    }

    /** The blob of the `i`-th chunk. */
    function SealedChunk(repoUid: string, chunk: Chunk, version: u32, nonce: Bytes): Result<Bytes, VaultError>
      requires chunk.size < W64
    {
      chunkCipher.Encrypt(chunk.data, nonce, Identity(repoUid, chunk, version))
    }

    /** Every blob stands at its chunk's position, whatever order the tasks ran in; the batch fails
        as a whole if there is no key version, an identity is refused or a task is lost. */
    method EncryptChunksParallel(repoUid: string, chunks: seq<Chunk>, nonces: seq<Bytes>, schedule: Schedule)
      returns (r: Result<seq<Bytes>, BatchError>)
      requires |nonces| == |chunks| && schedule.Runs(|chunks|)
      requires forall i :: 0 <= i < |chunks| ==> chunks[i].size < W64
      ensures BatchKeyVersion().Err? ==> r == Err(BatchKeyVersion().error)
      ensures BatchKeyVersion().Ok? && !AllAccepted(repoUid, chunks, BatchKeyVersion().value) ==> r == Err(AadRefused)
      ensures BatchKeyVersion().Ok? && AllAccepted(repoUid, chunks, BatchKeyVersion().value) ==>
        && (r.Ok? <==> schedule.LosesNone(|chunks|))
        && (r.Err? ==> r.error == TaskFailed)
        && (r.Ok? ==> |r.value| == |chunks| && forall i :: 0 <= i < |chunks| ==>
              Ok(r.value[i]) == SealedChunk(repoUid, chunks[i], BatchKeyVersion().value, nonces[i]))
    {
      hide ChunkAad.Check, ChunkAad.Canonical;
      var version := BatchKeyVersion();
      if version.Err? {
        return Err(version.error);
      }
      var aads: seq<ChunkAad> := [];
      for i := 0 to |chunks|
        invariant |aads| == i
        invariant forall j :: 0 <= j < i ==>
          aads[j] == Identity(repoUid, chunks[j], version.value) && aads[j].Check()
      {
        var aad := ContentChunkAad(repoUid, chunks[i], version.value);
        if aad.Err? {
          return Err(aad.error);
        }
        aads := aads + [aad.value];
      }
      var n := |chunks|;
      var slots := new Option<Result<Bytes, VaultError>>[n](_ => None);
      for k := 0 to |schedule.order|
        invariant forall j :: 0 <= j < k ==>
          var i := schedule.order[j];
          slots[i] == Some(SealedChunk(repoUid, chunks[i], version.value, nonces[i]))
      {
        var i := schedule.order[k];
        slots[i] := Some(chunkCipher.Encrypt(chunks[i].data, nonces[i], aads[i]));
      }
      var sealed: seq<Bytes> := [];
      for i := 0 to n
        invariant |sealed| == i
        invariant forall j :: 0 <= j < i ==> j !in schedule.lost
        invariant forall j :: 0 <= j < i ==>
          Ok(sealed[j]) == SealedChunk(repoUid, chunks[j], version.value, nonces[j])
      {
        if i in schedule.lost {
          return Err(TaskFailed);
        }
        assert i in schedule.order;
        match slots[i].value {
          case Err(_) => return Err(SealFailed);
          case Ok(blob) => sealed := sealed + [blob];
        }
      }
      return Ok(sealed);
    }

    /** `aads` pairs positionally with `blobs`; the batch opens exactly when every pair does. */
    method DecryptChunksParallel(log: Log, blobs: seq<Bytes>, aads: seq<ChunkAad>, schedule: Schedule)
      returns (r: Result<seq<Bytes>, BatchError>)
      requires schedule.Runs(|blobs|)
      ensures |blobs| != |aads| ==> r == Err(CountMismatch)
      ensures |blobs| == |aads| ==>
        && (r.Ok? <==>
              && schedule.LosesNone(|blobs|)
              && forall i :: 0 <= i < |blobs| ==> chunkCipher.Decrypt(log, blobs[i], aads[i]).Ok?)
        && (r.Ok? ==> |r.value| == |blobs| && forall i :: 0 <= i < |blobs| ==>
              Ok(r.value[i]) == chunkCipher.Decrypt(log, blobs[i], aads[i]))
    {
      hide ChunkCipher.Decrypt;
      if |blobs| != |aads| {
        return Err(CountMismatch);
      }
      var n := |blobs|;
      var slots := new Option<Result<Bytes, VaultError>>[n](_ => None);
      for k := 0 to |schedule.order|
        invariant forall j :: 0 <= j < k ==>
          var i := schedule.order[j];
          slots[i] == Some(chunkCipher.Decrypt(log, blobs[i], aads[i]))
      {
        var i := schedule.order[k];
        slots[i] := Some(chunkCipher.Decrypt(log, blobs[i], aads[i]));
      }
      var plain: seq<Bytes> := [];
      for i := 0 to n
        invariant |plain| == i
        invariant forall j :: 0 <= j < i ==> j !in schedule.lost
        invariant forall j :: 0 <= j < i ==>
          Ok(plain[j]) == chunkCipher.Decrypt(log, blobs[j], aads[j])
      {
        if i in schedule.lost {
          return Err(TaskFailed);
        }
        assert i in schedule.order;
        match slots[i].value {
          case Err(_) => return Err(OpenFailed);
          case Ok(message) => plain := plain + [message];
        }
      }
      return Ok(plain);
    }
  }
}
