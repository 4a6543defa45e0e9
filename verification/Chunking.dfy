/** Content-defined chunking (vault-core/src/chunking.rs): the gear-based FastCDC
    boundary search, the batch driver and the incremental driver. */
module Chunking {
  import opened Words
  import opened Wrappers
  import Hex

  /** One 64-bit word per byte value; the contents are derived from a key and are arbitrary here. */
  type Gear = g: seq<u64> | |g| == 256 witness seq(256, _ => 0)

  type Digest = d: Bytes | |d| == 32 witness seq(32, _ => 0)

  /** SHA-256 names, or HMAC-SHA-256 names under a per-repository key. The hash functions are arbitrary. */
  datatype Naming =
    | Unkeyed(sha256: Bytes -> Digest)
    | Keyed(hmac: (Bytes, Bytes) -> Digest, idKey: Bytes)
  {
    function DigestOf(data: Bytes): Digest {
      match this
      case Unkeyed(h) => h(data)
      case Keyed(h, k) => h(k, data)
    }

    function Name(data: Bytes): string {
      Hex.Encode(DigestOf(data))
    }

    /** The reader's name check: decode the name to 32 bytes and compare with the digest. */
    predicate VerifyName(name: string, plaintext: Bytes) {
      match DecodeName(name)
      case Some(expected) => expected == DigestOf(plaintext)
      case None => false
    }

    /** The check accepts exactly the names of 64 hex digits that spell the SHA-256 of the plaintext, or its
        HMAC under the repository's key; the writer's name does, and among lowercase names only it. */
    lemma VerifyNameIff(name: string, plaintext: Bytes)
      ensures VerifyName(name, plaintext) <==>
        |name| == 64 &&
        match this
        case Unkeyed(h) => Hex.Spells(name, h(plaintext))
        case Keyed(h, k) => Hex.Spells(name, h(k, plaintext))
      ensures VerifyName(Name(plaintext), plaintext)
      ensures Hex.IsLowerHex(name) ==> (VerifyName(name, plaintext) <==> name == Name(plaintext))
      ensures VerifyName(name, plaintext) ==> DecodeName(name) == DecodeName(Name(plaintext))
    {
      hide Hex.Decode, Hex.Encode;
      Hex.RoundTrip(DigestOf(plaintext));
      Hex.DecodeIffSpells(name, DigestOf(plaintext));
      if Hex.IsLowerHex(name) && VerifyName(name, plaintext) {
        Hex.DecodeThenEncode(name);
      }
    }

    /** Two plaintexts hash alike: the hash itself, without going through names. */
    predicate HashAlike(x: Bytes, y: Bytes) {
      match this
      case Unkeyed(h) => h(x) == h(y)
      case Keyed(h, k) => h(k, x) == h(k, y)
    }

    /** Names collide, and a reader takes one plaintext for another, exactly where the hash collides. */
    lemma NamesCollideIff(x: Bytes, y: Bytes)
      ensures Name(x) == Name(y) <==> HashAlike(x, y)
      ensures VerifyName(Name(y), x) <==> HashAlike(x, y)
    {
      Hex.RoundTrip(DigestOf(y));
      if Name(x) == Name(y) {
        Hex.EncodeInjective(DigestOf(x), DigestOf(y));
      }
    }
  }

  /** The digest a name spells; only names of 64 hex digits spell one. */
  function DecodeName(name: string): (r: Option<Bytes>) {
    if |name| != 64 then None else Hex.Decode(name)
  }

  datatype ChunkConfig = ChunkConfig(min: nat, avg: nat, max: nat)

  datatype Chunk = Chunk(hash: string, data: Bytes, size: nat, offset: nat)

  /** Chunks laid end to end from `offset`, each naming its own data. */
  ghost predicate Tiles(chunks: seq<Chunk>, offset: nat, naming: Naming) {
    chunks != [] ==>
      && chunks[0].offset == offset
      && chunks[0].size == |chunks[0].data| > 0
      && chunks[0].hash == naming.Name(chunks[0].data)
      && Tiles(chunks[1..], offset + chunks[0].size, naming)
  }

  /** `reassemble_chunks`: the chunks' data, in order. */
  function Reassemble(chunks: seq<Chunk>): Bytes {
    if chunks == [] then [] else chunks[0].data + Reassemble(chunks[1..])
  }

  method ReassembleChunks(chunks: seq<Chunk>) returns (data: Bytes)
    ensures data == Reassemble(chunks)
  {
    data := [];
    for i := 0 to |chunks|
      invariant data + Reassemble(chunks[i..]) == Reassemble(chunks)
    {
      assert chunks[i..][0] == chunks[i] && chunks[i..][1..] == chunks[i + 1..];
      data := data + chunks[i].data;
    }
    assert Reassemble(chunks[|chunks|..]) == [];
  }

  /** The same chunks, `delta` bytes further into the stream. */
  predicate Shifted(chunks: seq<Chunk>, delta: int, moved: seq<Chunk>) {
    if chunks == [] || moved == [] then chunks == moved
    else
      && moved[0].offset == chunks[0].offset + delta
      && moved[0] == chunks[0].(offset := moved[0].offset)
      && Shifted(chunks[1..], delta, moved[1..])
  }

  /** What a `StreamChunker` holds between calls. */
  datatype StreamState = StreamState(chunks: seq<Chunk>, buffer: Bytes, offset: nat) {
    function Extend(more: Bytes): StreamState {
      this.(buffer := buffer + more)
    }
  }

  datatype ChunkEngine = ChunkEngine(config: ChunkConfig, gear: Gear, naming: Naming) {

    /** What `ChunkConfig::new` asserts, on 64-bit sizes. */
    predicate WellFormed() {
      config.min <= config.avg <= config.max < W64
    }

    /** floor(log2(avg)), with avg taken as at least 2. */
    function Bits(): (b: nat)
      requires WellFormed()
      ensures 1 <= b <= 63 && Pow2(b) <= Max(config.avg, 2) < Pow2(b + 1)
    {
      var a := Max(config.avg, 2);
      FloorLog2Bound(a);
      FloorLog2(a)
    }

    /** The fingerprint of the bytes at positions `lo <= k < hi`. */
    function Fingerprint(data: Bytes, lo: nat, hi: nat): u64
      requires hi <= |data|
    {
      if hi <= lo then 0
      else (2 * Fingerprint(data, lo, hi - 1) + gear[data[hi - 1]]) % W64
    }

    /** A cut at `i` needs a fingerprint below this: half the size before the average, double after. */
    function Threshold(i: nat): nat
      requires WellFormed()
    {
      if i < config.avg then Pow2(63 - Bits()) else Pow2(65 - Bits())
    }

    predicate CutsAt(data: Bytes, i: nat)
      requires WellFormed() && i < |data|
    {
      Fingerprint(data, config.min, i + 1) < Threshold(i)
    }

    /** The first cut position in `[i, cap)`, or `cap`. */
    function FirstCut(data: Bytes, i: nat, cap: nat): (cut: nat)
      requires WellFormed() && i <= cap <= |data|
      ensures i <= cut <= cap
      ensures forall k :: i <= k < cut ==> !CutsAt(data, k)
      ensures cut < cap ==> CutsAt(data, cut)
      decreases cap - i
    {
      if i == cap || CutsAt(data, i) then i else FirstCut(data, i + 1, cap)
    }

    /** The length of the first chunk of `data`. */
    function Boundary(data: Bytes): (cut: nat)
      requires WellFormed()
      ensures cut <= |data| && cut <= config.max
      ensures Min(config.min, |data|) <= cut
    {
      if |data| <= config.min then |data|
      else FirstCut(data, config.min, Min(config.max, |data|))
    }

    /** One byte of either scan: the wrapped shift-and-add is the next fingerprint, and the masked
        test decides whether the search ends here. */
    lemma ScanStep(data: Bytes, i: nat, cap: nat)
      requires WellFormed() && config.min <= i < cap <= |data|
      ensures var fp := WrappingAdd(Shl(Fingerprint(data, config.min, i), 1), gear[data[i]]);
        && fp == Fingerprint(data, config.min, i + 1)
        && (And(fp, TopBitsMask(if i < config.avg then Bits() + 1 else Bits() - 1)) == 0 <==> CutsAt(data, i))
      ensures FirstCut(data, i, cap) == if CutsAt(data, i) then i else FirstCut(data, i + 1, cap)
    {
      hide *;
      AbsorbIsStep(data, i);
      MaskTestIsCut(data, i);
      FirstCutStep(data, i, cap);
    }

    lemma AbsorbIsStep(data: Bytes, i: nat)
      requires config.min <= i < |data|
      ensures WrappingAdd(Shl(Fingerprint(data, config.min, i), 1), gear[data[i]])
           == Fingerprint(data, config.min, i + 1)
    {
      hide Shl, WrappingAdd;
      ShiftAndAdd(Fingerprint(data, config.min, i), gear[data[i]]);
    }

    lemma MaskTestIsCut(data: Bytes, i: nat)
      requires WellFormed() && config.min <= i < |data|
      ensures And(Fingerprint(data, config.min, i + 1),
                  TopBitsMask(if i < config.avg then Bits() + 1 else Bits() - 1)) == 0
          <==> CutsAt(data, i)
    {
      hide And, TopBitsMask, Fingerprint, Pow2;
      MaskIsThreshold(Fingerprint(data, config.min, i + 1), if i < config.avg then Bits() + 1 else Bits() - 1);
    }

    lemma FirstCutStep(data: Bytes, i: nat, cap: nat)
      requires WellFormed() && i < cap <= |data|
      ensures FirstCut(data, i, cap) == if CutsAt(data, i) then i else FirstCut(data, i + 1, cap)
    {
    }

    /** The fingerprint as the machine computes it: shift, then add, both wrapping. */
    function Rolled(data: Bytes, lo: nat, hi: nat): u64
      requires hi <= |data|
    {
      if hi <= lo then 0 else WrappingAdd(Shl(Rolled(data, lo, hi - 1), 1), gear[data[hi - 1]])
    }

    /** The mask of position `i`: one more than `Bits` ones before the average, one fewer after. */
    function MaskAt(i: nat): u64
      requires WellFormed()
    {
      TopBitsMask(if i < config.avg then Bits() + 1 else Bits() - 1)
    }

    /** The masked fingerprint at `i`, rolled from the minimum on, is zero. */
    predicate MaskedOut(data: Bytes, i: nat)
      requires WellFormed() && i < |data|
    {
      And(Rolled(data, config.min, i + 1), MaskAt(i)) == 0
    }

    lemma {:induction false} RolledIsFingerprint(data: Bytes, lo: nat, hi: nat)
      requires hi <= |data|
      ensures Rolled(data, lo, hi) == Fingerprint(data, lo, hi)
    {
      if lo < hi {
        hide Shl, WrappingAdd;
        var last := hi - 1;
        RolledIsFingerprint(data, lo, last);
        var fp, g := Rolled(data, lo, last), gear[data[last]];
        ShiftAndAdd(fp, g);
        assert Rolled(data, lo, hi) == WrappingAdd(Shl(fp, 1), g);
      }
    }

    lemma MaskedOutIsCut(data: Bytes, i: nat)
      requires WellFormed() && config.min <= i < |data|
      ensures MaskedOut(data, i) <==> CutsAt(data, i)
    {
      hide And, TopBitsMask, Rolled, Fingerprint, CutsAt;
      RolledIsFingerprint(data, config.min, i + 1);
      MaskTestIsCut(data, i);
    }

    /** The first boundary, said with machine words and masks alone. */
    lemma BoundaryIsFirstMaskedOut(data: Bytes)
      requires WellFormed() && |data| > config.min
      ensures var cut, cap := Boundary(data), Min(config.max, |data|);
        && config.min <= cut <= cap
        && (forall k :: config.min <= k < cut ==> !MaskedOut(data, k))
        && (cut < cap ==> MaskedOut(data, cut))
    {
      hide MaskedOut, CutsAt;
      var cut, cap := Boundary(data), Min(config.max, |data|);
      forall k | config.min <= k < cap
        ensures MaskedOut(data, k) <==> CutsAt(data, k)
      {
        MaskedOutIsCut(data, k);
      }
    }

    /** `fastcdc_boundary`: two scans with a stricter and a looser mask. A buffer up to the minimum is one
        chunk; otherwise the cut is the first position from the minimum on, short of the maximum and of the
        end, whose masked fingerprint is zero. */
    method FastCdcBoundary(data: Bytes) returns (cut: nat)
      requires WellFormed() && |data| < W64
      ensures cut == Boundary(data)
      ensures |data| <= config.min ==> cut == |data|
      ensures |data| > config.min ==>
        && config.min <= cut <= Min(config.max, |data|)
        && (forall k :: config.min <= k < cut ==> !MaskedOut(data, k))
        && (cut < Min(config.max, |data|) ==> MaskedOut(data, cut))
    {
      hide MaskedOut;
      if |data| > config.min {
        BoundaryIsFirstMaskedOut(data);
      }
      var len := |data|;
      if len <= config.min {
        return len;
      }
      var cap := Min(config.max, len);
      var normal := Max(config.min, Min(config.avg, cap));
      var bits := Bits();
      var maskS := TopBitsMask(bits + 1);
      var maskL := TopBitsMask(Max(bits - 1, 0));
      var fp: u64 := 0;
      var i := config.min;
      while i < normal
        invariant config.min <= i <= normal
        invariant fp == Fingerprint(data, config.min, i)
        invariant FirstCut(data, config.min, cap) == FirstCut(data, i, cap)
      {
        ScanStep(data, i, cap);
        fp := WrappingAdd(Shl(fp, 1), gear[data[i]]);
        if And(fp, maskS) == 0 {
          return i;
        }
        i := i + 1;
      }
      while i < cap
        invariant normal <= i <= cap
        invariant fp == Fingerprint(data, config.min, i)
        invariant FirstCut(data, config.min, cap) == FirstCut(data, i, cap)
      {
        ScanStep(data, i, cap);
        fp := WrappingAdd(Shl(fp, 1), gear[data[i]]);
        if And(fp, maskL) == 0 {
          return i;
        }
        i := i + 1;
      }
      return cap;
    }

    // ----- Progress: both drivers move by the boundary, so it must not be 0

    /** The configurations under which a non-empty buffer always has a non-empty first chunk. */
    predicate Progresses()
      requires WellFormed()
    {
      config.min > 0 || (config.max > 0 && forall b: Byte :: gear[b] >= Threshold(0))
    }

    lemma Advances(data: Bytes)
      requires WellFormed() && Progresses() && data != []
      ensures Boundary(data) > 0
    {
      if config.min == 0 {
        assert Fingerprint(data, 0, 1) == gear[data[0]];
        assert !CutsAt(data, 0);
      }
    }

    /** `ChunkConfig::new` admits `min == 0`. Exactly the configurations that satisfy `Progresses`
        never return an empty chunk; under any other, some one-byte input does, and then both drivers
        loop forever (`EmptyChunkRepeats`). */
    lemma AdvancesIffProgresses()
      requires WellFormed()
      ensures Progresses() <==> forall data: Bytes :: data != [] ==> Boundary(data) > 0
    {
      if Progresses() {
        forall data: Bytes | data != []
          ensures Boundary(data) > 0
        {
          Advances(data);
        }
      } else if config.max > 0 {
        var b: Byte :| gear[b] < Threshold(0);
        assert Fingerprint([b], 0, 1) == gear[b];
        assert CutsAt([b], 0);
        assert Boundary([b]) == 0;
      } else {
        assert Boundary([0]) == 0;
      }
    }

    // ----- The batch driver

    /** The first `size` bytes of `data` as a chunk. */
    function Head(data: Bytes, size: nat, offset: nat): Chunk
      requires size <= |data|
    {
      Chunk(naming.Name(data[..size]), data[..size], size, offset)
    }

    /** The chunk list of a stream whose first byte sits at `offset`. */
    function Chunks(data: Bytes, offset: nat): seq<Chunk>
      requires WellFormed() && Progresses()
      decreases |data|
    {
      if data == [] then []
      else
        Advances(data);
        var cut := Boundary(data);
        [Head(data, cut, offset)] + Chunks(data[cut..], offset + cut)
    }

    lemma ChunksUnfold(data: Bytes, offset: nat, cut: nat, next: nat)
      requires WellFormed() && Progresses() && data != []
      requires cut == Boundary(data) && next == offset + cut
      ensures 0 < cut <= |data|
      ensures Chunks(data, offset) == [Head(data, cut, offset)] + Chunks(data[cut..], next)
    {
      hide CutsAt, FirstCut;
      Advances(data);
    }

    method ChunkData(data: Bytes) returns (chunks: seq<Chunk>)
      requires WellFormed() && Progresses() && |data| < W64
      ensures chunks == Chunks(data, 0)
    {
      hide Boundary, Chunks;
      chunks := [];
      var offset := 0;
      assert data[0..] == data;
      while offset < |data|
        invariant offset <= |data|
        invariant chunks + Chunks(data[offset..], offset) == Chunks(data, 0)
      {
        var rest := data[offset..];
        var chunkSize := FastCdcBoundary(rest);
        var next := offset + chunkSize;
        ChunksUnfold(rest, offset, chunkSize, next);
        var chunkData := data[offset..Min(offset + chunkSize, |data|)];
        chunks := chunks + [Chunk(naming.Name(chunkData), chunkData, |chunkData|, offset)];
        assert chunkData == rest[..chunkSize];
        assert data[next..] == rest[chunkSize..];
        offset := next;
      }
      assert data[offset..] == [];
      assert Chunks([], offset) == [] by { ChunksOfNothing(offset); }
    }

    lemma ChunksOfNothing(offset: nat)
      requires WellFormed() && Progresses()
      ensures Chunks([], offset) == []
    {
    }

    lemma HeadThenTiles(data: Bytes, cut: nat, offset: nat, next: nat, rest: seq<Chunk>)
      requires 0 < cut <= |data| && next == offset + cut
      requires Reassemble(rest) == data[cut..] && Tiles(rest, next, naming)
      ensures Reassemble([Head(data, cut, offset)] + rest) == data
      ensures Tiles([Head(data, cut, offset)] + rest, offset, naming)
    {
      assert ([Head(data, cut, offset)] + rest)[1..] == rest;
      assert data == data[..cut] + data[cut..];
    }

    /** Chunking loses, adds and moves nothing. */
    lemma {:induction false} ChunksTileTheStream(data: Bytes, offset: nat)
      requires WellFormed() && Progresses()
      ensures Reassemble(Chunks(data, offset)) == data
      ensures Tiles(Chunks(data, offset), offset, naming)
      decreases |data|
    {
      if data != [] {
        hide *;
        var cut := Boundary(data);
        var next := offset + cut;
        ChunksUnfold(data, offset, cut, next);
        ChunksTileTheStream(data[cut..], next);
        HeadThenTiles(data, cut, offset, next, Chunks(data[cut..], next));
      }
    }

    /** Every chunk but the last has `min <= size <= max`; the last may be shorter than `min`. */
    lemma {:induction false} ChunkSizes(data: Bytes, offset: nat, i: nat)
      requires WellFormed() && Progresses() && i < |Chunks(data, offset)|
      ensures 0 < Chunks(data, offset)[i].size <= config.max
      ensures i + 1 < |Chunks(data, offset)| ==> config.min <= Chunks(data, offset)[i].size
      decreases |data|
    {
      hide CutsAt, FirstCut;
      Advances(data);
      var cut := Boundary(data);
      assert Chunks(data, offset) == [Head(data, cut, offset)] + Chunks(data[cut..], offset + cut);
      if i > 0 {
        ChunkSizes(data[cut..], offset + cut, i - 1);
      }
    }

    // ----- Prefix stability

    lemma {:induction false} FingerprintIgnoresTail(data: Bytes, more: Bytes, lo: nat, hi: nat)
      requires hi <= |data|
      ensures Fingerprint(data + more, lo, hi) == Fingerprint(data, lo, hi)
    {
      if hi > lo {
        FingerprintIgnoresTail(data, more, lo, hi - 1);
      }
    }

    lemma {:induction false} FirstCutIsStable(data: Bytes, more: Bytes, i: nat, cap: nat, cap': nat)
      requires WellFormed() && i <= cap <= |data| && cap <= cap' <= |data| + |more|
      requires FirstCut(data, i, cap) < cap || cap == cap'
      ensures FirstCut(data + more, i, cap') == FirstCut(data, i, cap)
      decreases cap - i
    {
      if i < cap {
        FingerprintIgnoresTail(data, more, config.min, i + 1);
        if !CutsAt(data, i) {
          FirstCutIsStable(data, more, i + 1, cap, cap');
        }
      }
    }

    /** The one case in which `emit_chunks` waits for more data. */
    predicate Waits(buffer: Bytes)
      requires WellFormed()
    {
      |buffer| <= config.min || (Boundary(buffer) >= |buffer| && |buffer| < config.max)
    }

    /** A boundary the incremental driver acts on is the boundary of every extension of its buffer,
        although `cap` and `normal` move with the buffer's length. */
    lemma BoundaryIsStable(buffer: Bytes, more: Bytes)
      requires WellFormed() && !Waits(buffer)
      ensures Boundary(buffer + more) == Boundary(buffer)
    {
      var cap, cap' := Min(config.max, |buffer|), Min(config.max, |buffer| + |more|);
      FirstCutIsStable(buffer, more, config.min, cap, cap');
    }

    // ----- The incremental driver

    /** One round of `emit_chunks`: the first chunk leaves the buffer. */
    function EmitOne(st: StreamState): StreamState
      requires WellFormed()
    {
      var cut := Boundary(st.buffer);
      StreamState(st.chunks + [Head(st.buffer, cut, st.offset)], st.buffer[cut..], st.offset + cut)
    }

    /** `emit_chunks`, as a function of the chunker's state. */
    function Drain(st: StreamState): StreamState
      requires WellFormed() && Progresses()
      decreases |st.buffer|
    {
      if Waits(st.buffer) then st
      else
        Advances(st.buffer);
        Drain(EmitOne(st))
    }

    /** `finalize`, as a function of the chunker's state. */
    function Finish(st: StreamState): seq<Chunk> {
      st.chunks +
      if st.buffer == [] then [] else [Head(st.buffer, |st.buffer|, st.offset)]
    }

    function Feed(st: StreamState, data: Bytes): StreamState
      requires WellFormed() && Progresses()
    {
      Drain(st.Extend(data))
    }

    function FeedAll(st: StreamState, feeds: seq<Bytes>): StreamState
      requires WellFormed() && Progresses()
      decreases |feeds|
    {
      if feeds == [] then st else FeedAll(Feed(st, feeds[0]), feeds[1..])
    }

    /** Draining now and again after more data arrives equals draining once at the end. */
    lemma {:induction false} DrainThenFeed(st: StreamState, more: Bytes)
      requires WellFormed() && Progresses()
      ensures Feed(Drain(st), more) == Drain(st.Extend(more))
      decreases |st.buffer|
    {
      if !Waits(st.buffer) {
        Advances(st.buffer);
        EmitOneThenExtend(st, more);
        DrainThenFeed(EmitOne(st), more);
      }
    }

    /** At a buffer whose first boundary is 0 the incremental driver does not wait, emits an empty chunk,
        and is back at the same buffer and offset; the batch driver's offset stays where it is too. */
    lemma EmptyChunkRepeats(st: StreamState)
      requires WellFormed() && st.buffer != [] && Boundary(st.buffer) == 0
      ensures !Waits(st.buffer)
      ensures var next := EmitOne(st);
        && next.buffer == st.buffer && next.offset == st.offset
        && next.chunks == st.chunks + [Chunk(naming.Name([]), [], 0, st.offset)]
      ensures st.offset + Boundary(st.buffer) == st.offset && st.buffer[Boundary(st.buffer)..] == st.buffer
    {
      hide CutsAt, FirstCut;
      assert st.buffer[0..] == st.buffer && st.buffer[..0] == [];
    }

    lemma EmitOneThenExtend(st: StreamState, more: Bytes)
      requires WellFormed() && !Waits(st.buffer)
      ensures !Waits(st.buffer + more)
      ensures EmitOne(st.Extend(more)) == EmitOne(st).Extend(more)
    {
      hide CutsAt, FirstCut;
      BoundaryIsStable(st.buffer, more);
      var cut := Boundary(st.buffer);
      var whole := st.buffer + more;
      assert whole[..cut] == st.buffer[..cut];
      assert whole[cut..] == st.buffer[cut..] + more;
    }

    /** Flushing a drained state yields the batch chunk list of what was in the buffer. */
    lemma {:induction false} FinishIsChunks(st: StreamState)
      requires WellFormed() && Progresses()
      ensures Finish(Drain(st)) == st.chunks + Chunks(st.buffer, st.offset)
      decreases |st.buffer|
    {
      hide Boundary;
      if !Waits(st.buffer) {
        hide Chunks;
        Advances(st.buffer);
        FinishIsChunks(EmitOne(st));
        ChunksStep(st);
      } else if st.buffer != [] {
        LastChunk(st.buffer, st.offset);
      }
    }

    lemma ChunksStep(st: StreamState)
      requires WellFormed() && Progresses() && !Waits(st.buffer)
      ensures var next := EmitOne(st);
        st.chunks + Chunks(st.buffer, st.offset) == next.chunks + Chunks(next.buffer, next.offset)
    {
      hide Boundary;
      var next := EmitOne(st);
      var head := Head(st.buffer, Boundary(st.buffer), st.offset);
      assert Chunks(st.buffer, st.offset) == [head] + Chunks(next.buffer, next.offset);
    }

    /** What the incremental driver holds back is a single chunk of the batch list. */
    lemma LastChunk(buffer: Bytes, offset: nat)
      requires WellFormed() && Progresses() && buffer != [] && Waits(buffer)
      ensures Chunks(buffer, offset) == [Head(buffer, |buffer|, offset)]
    {
      assert buffer[|buffer|..] == [];
    }

    lemma {:induction false} FeedAllIsDrain(st: StreamState, feeds: seq<Bytes>)
      requires WellFormed() && Progresses()
      ensures FeedAll(Drain(st), feeds) == Drain(st.Extend(Flatten(feeds)))
      decreases |feeds|
    {
      hide Drain;
      if feeds == [] {
        assert st.Extend([]) == st;
      } else {
        DrainThenFeed(st, feeds[0]);
        FeedAllIsDrain(st.Extend(feeds[0]), feeds[1..]);
        ExtendTwice(st, feeds[0], Flatten(feeds[1..]));
      }
    }

    lemma ExtendTwice(st: StreamState, a: Bytes, b: Bytes)
      ensures st.Extend(a).Extend(b) == st.Extend(a + b)
    {
      assert st.buffer + a + b == st.buffer + (a + b);
    }

    /** However a stream is cut into feeds, the incremental driver returns the batch chunk list. */
    lemma StreamingEqualsBatch(feeds: seq<Bytes>)
      requires WellFormed() && Progresses()
      ensures Finish(FeedAll(StreamState([], [], 0), feeds)) == Chunks(Flatten(feeds), 0)
    {
      var empty := StreamState([], [], 0);
      assert Drain(empty) == empty;
      FeedAllIsDrain(empty, feeds);
      assert [] + Flatten(feeds) == Flatten(feeds);
      FinishIsChunks(StreamState([], Flatten(feeds), 0));
    }
  }

  /** The incremental chunker. `fed` is everything it was given so far. */
  class StreamChunker {
    const engine: ChunkEngine
    var buffer: Bytes
    var offset: nat
    var chunks: seq<Chunk>
    ghost var fed: Bytes

    ghost predicate Valid()
      reads this
    {
      && engine.WellFormed() && engine.Progresses()
      && |buffer| <= |fed|
      && StreamState(chunks, buffer, offset) == engine.Drain(StreamState([], fed, 0))
    }

    constructor (engine: ChunkEngine)
      requires engine.WellFormed() && engine.Progresses()
      ensures Valid() && this.engine == engine && fed == []
    {
      this.engine := engine;
      buffer, offset, chunks, fed := [], 0, [], [];
    }

    method Feed(data: Bytes)
      requires Valid() && |fed| + |data| < W64
      modifies this
      ensures Valid() && fed == old(fed) + data
    {
      engine.DrainThenFeed(StreamState([], fed, 0), data);
      buffer := buffer + data;
      fed := fed + data;
      ghost var start := StreamState(chunks, buffer, offset);
      assert engine.Drain(start) == engine.Drain(StreamState([], fed, 0));
      EmitChunks();
    }

    method EmitChunks()
      requires engine.WellFormed() && engine.Progresses() && |buffer| < W64
      modifies `buffer, `offset, `chunks
      ensures StreamState(chunks, buffer, offset) == engine.Drain(old(StreamState(chunks, buffer, offset)))
      ensures |buffer| <= old(|buffer|)
    {
      while true
        invariant |buffer| <= old(|buffer|)
        invariant engine.Drain(StreamState(chunks, buffer, offset))
               == engine.Drain(old(StreamState(chunks, buffer, offset)))
        decreases |buffer|
      {
        if |buffer| <= engine.config.min {
          break;
        }
        var boundary := engine.FastCdcBoundary(buffer);
        if boundary >= |buffer| && |buffer| < engine.config.max {
          break;
        }
        engine.Advances(buffer);
        ghost var before := StreamState(chunks, buffer, offset);
        var chunkSize := Min(boundary, |buffer|);
        var chunkData := buffer[..chunkSize];
        buffer := buffer[chunkSize..];
        chunks := chunks + [Chunk(engine.naming.Name(chunkData), chunkData, |chunkData|, offset)];
        offset := offset + |chunkData|;
        assert StreamState(chunks, buffer, offset) == engine.EmitOne(before);
      }
    }

    /** Consumes the chunker: whatever the feeds were, the result is the batch chunk list of the stream. */
    method Finalize() returns (all: seq<Chunk>)
      requires Valid()
      modifies this
      ensures all == engine.Chunks(old(fed), 0)
    {
      engine.FinishIsChunks(StreamState([], fed, 0));
      ghost var before := StreamState(chunks, buffer, offset);
      assert engine.Finish(before) == [] + engine.Chunks(fed, 0) == engine.Chunks(fed, 0);
      if buffer != [] {
        var data := buffer;
        buffer := [];
        assert data[..|data|] == data;
        chunks := chunks + [Chunk(engine.naming.Name(data), data, |data|, offset)];
      }
      all := chunks;
      assert all == engine.Finish(before);
    }
  }

  /** Feeds a whole list of buffers and finalizes: the batch chunk list of their concatenation. */
  method ChunkFeeds(engine: ChunkEngine, feeds: seq<Bytes>) returns (chunks: seq<Chunk>)
    requires engine.WellFormed() && engine.Progresses() && |Flatten(feeds)| < W64
    ensures chunks == engine.Chunks(Flatten(feeds), 0)
  {
    var chunker := new StreamChunker(engine);
    for i := 0 to |feeds|
      invariant chunker.Valid() && chunker.engine == engine
      invariant chunker.fed + Flatten(feeds[i..]) == Flatten(feeds)
    {
      assert feeds[i..][0] == feeds[i] && feeds[i..][1..] == feeds[i + 1..];
      assert |chunker.fed| + |feeds[i]| <= |Flatten(feeds)|;
      chunker.Feed(feeds[i]);
    }
    assert chunker.fed + Flatten(feeds[|feeds|..]) == chunker.fed;
    chunks := chunker.Finalize();
  }
}
