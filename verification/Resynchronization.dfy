/** What an edit near the start of a stream does to later chunks
    (vault-core/src/chunking.rs, `fastcdc_boundary` and `chunk_data`). */
module Resynchronization {
  import opened Words
  import opened Wrappers
  import opened Chunking

  // ----- The fingerprint is a 64-byte window

  /** Absorbing `n` more bytes multiplies what was there by `2^n`, modulo `2^64`. */
  lemma {:induction false} FingerprintSplit(e: ChunkEngine, data: Bytes, lo: nat, mid: nat, n: nat, hi: nat)
    requires lo <= mid && mid + n == hi <= |data|
    ensures e.Fingerprint(data, lo, hi)
         == (e.Fingerprint(data, lo, mid) * Pow2(n) + e.Fingerprint(data, mid, hi)) % W64
    decreases n
  {
    if n == 0 {
      FingerprintOfNone(e, data, lo, mid, hi);
    } else {
      hide *;
      var last := hi - 1;
      var n' := n - 1;
      var r, r' := e.Fingerprint(data, lo, last), e.Fingerprint(data, lo, hi);
      var f, f' := e.Fingerprint(data, mid, last), e.Fingerprint(data, mid, hi);
      FingerprintSplit(e, data, lo, mid, n', last);
      FingerprintStep(e, data, lo, last, hi);
      FingerprintStep(e, data, mid, last, hi);
      Pow2Doubles(n', n);
      DoubleAndAdd(e.Fingerprint(data, lo, mid), Pow2(n'), Pow2(n), e.gear[data[last]], f, f', r, r');
    }
  }

  /** Seen from the front: the first byte's word weighs `2^(n-1)`, and the rest is the fingerprint of the rest. */
  lemma FingerprintFromFront(e: ChunkEngine, data: Bytes, lo: nat, n: nat, hi: nat)
    requires lo + n == hi <= |data| && n > 0
    ensures e.Fingerprint(data, lo, hi) == (e.gear[data[lo]] * Pow2(n - 1) + e.Fingerprint(data, lo + 1, hi)) % W64
  {
    assert e.Fingerprint(data, lo, lo + 1) == e.gear[data[lo]] by {
      FingerprintStep(e, data, lo, lo, lo + 1);
      assert e.Fingerprint(data, lo, lo) == 0;
    }
    FingerprintSplit(e, data, lo, lo + 1, n - 1, hi);
  }

  lemma FingerprintOfNone(e: ChunkEngine, data: Bytes, lo: nat, mid: nat, hi: nat)
    requires lo <= mid == hi <= |data|
    ensures e.Fingerprint(data, lo, hi) == (e.Fingerprint(data, lo, mid) * Pow2(0) + e.Fingerprint(data, mid, hi)) % W64
  {
    assert e.Fingerprint(data, mid, hi) == 0 && Pow2(0) == 1;
  }

  lemma Pow2Doubles(n: nat, next: nat)
    requires next == n + 1
    ensures Pow2(next) == 2 * Pow2(n)
  {
  }

  lemma FingerprintStep(e: ChunkEngine, data: Bytes, lo: nat, i: nat, next: nat)
    requires lo <= i < |data| && next == i + 1
    ensures e.Fingerprint(data, lo, next) == (2 * e.Fingerprint(data, lo, i) + e.gear[data[i]]) % W64
  {
  }

  lemma DoubleAndAdd(x: nat, p: nat, p': nat, g: nat, f: nat, f': nat, r: nat, r': nat)
    requires p' == 2 * p && f' == (2 * f + g) % W64
    requires r == (x * p + f) % W64 && r' == (2 * r + g) % W64
    ensures r' == (x * p' + f') % W64
  {
    var a := x * p;
    assert x * p' == 2 * a;
    DoubleModulo(a + f, g);
    AddModulo(2 * a, 2 * f + g);
  }

  lemma DoubleModulo(a: nat, g: nat)
    ensures (2 * (a % W64) + g) % W64 == (2 * a + g) % W64
  {
  }

  lemma AddModulo(a: nat, b: nat)
    ensures (a + b % W64) % W64 == (a + b) % W64
  {
  }

  /** Terms older than 64 bytes have been shifted out of the word. */
  lemma FingerprintIsWindow(e: ChunkEngine, data: Bytes, lo: nat, hi: nat)
    requires lo + 64 <= hi <= |data|
    ensures e.Fingerprint(data, lo, hi) == e.Fingerprint(data, hi - 64, hi)
  {
    Pow2Is64();
    FingerprintSplit(e, data, lo, hi - 64, 64, hi);
    ModOfMultiple(e.Fingerprint(data, lo, hi - 64), e.Fingerprint(data, hi - 64, hi), W64);
  }

  lemma DropLastByte(d: Bytes, lo: nat, last: nat, hi: nat, n: nat)
    requires lo + n == last && hi == last + 1 <= |d|
    ensures d[lo..hi][..n] == d[lo..last] && d[lo..hi][n] == d[last]
  {
  }

  lemma {:induction false} FingerprintOfEqualSpans(e: ChunkEngine, d1: Bytes, hi1: nat, d2: Bytes, hi2: nat, n: nat)
    requires n <= hi1 <= |d1| && n <= hi2 <= |d2|
    requires d1[hi1 - n..hi1] == d2[hi2 - n..hi2]
    ensures e.Fingerprint(d1, hi1 - n, hi1) == e.Fingerprint(d2, hi2 - n, hi2)
    decreases n
  {
    if n > 0 {
      var lo1, lo2, last1, last2 := hi1 - n, hi2 - n, hi1 - 1, hi2 - 1;
      DropLastByte(d1, lo1, last1, hi1, n - 1);
      DropLastByte(d2, lo2, last2, hi2, n - 1);
      FingerprintOfEqualSpans(e, d1, last1, d2, last2, n - 1);
      hide ChunkEngine.Fingerprint;
      FingerprintStep(e, d1, lo1, last1, hi1);
      FingerprintStep(e, d2, lo2, last2, hi2);
    }
  }

  /** Whether position `i >= min + 63` of a buffer is a cut depends only on the 64 bytes ending
      there and on the side of the average it lies on. */
  lemma CutDependsOnWindow(e: ChunkEngine, d1: Bytes, i1: nat, d2: Bytes, i2: nat)
    requires e.WellFormed()
    requires e.config.min + 63 <= i1 < |d1| && e.config.min + 63 <= i2 < |d2|
    requires d1[i1 - 63..i1 + 1] == d2[i2 - 63..i2 + 1]
    requires i1 < e.config.avg <==> i2 < e.config.avg
    ensures e.CutsAt(d1, i1) <==> e.CutsAt(d2, i2)
  {
    hide ChunkEngine.Fingerprint, ChunkEngine.Bits, Pow2;
    var hi1, hi2 := i1 + 1, i2 + 1;
    FingerprintIsWindow(e, d1, e.config.min, hi1);
    FingerprintIsWindow(e, d2, e.config.min, hi2);
    FingerprintOfEqualSpans(e, d1, hi1, d2, hi2, 64);
  }

  // ----- Two streams that share a suffix and a cut share every later chunk

  /** The chunks from any chunk onwards are the chunk list of the bytes that remain there. */
  lemma {:induction false} SuffixIsChunks(e: ChunkEngine, data: Bytes, offset: nat, n: nat)
    requires e.WellFormed() && e.Progresses() && n < |e.Chunks(data, offset)|
    ensures var at := e.Chunks(data, offset)[n].offset;
      && offset <= at < offset + |data|
      && e.Chunks(data, offset)[n..] == e.Chunks(data[at - offset..], at)
    decreases n
  {
    hide *;
    NonEmpty(e, data, offset);
    var all, cut := e.Chunks(data, offset), e.Boundary(data);
    var next := offset + cut;
    e.ChunksUnfold(data, offset, cut, next);
    HeadOffset(e, data, cut, offset);
    if n == 0 {
      assert data[0..] == data && all[0..] == all;
    } else {
      var rest := data[cut..];
      var tail := e.Chunks(rest, next);
      SuffixIsChunks(e, rest, next, n - 1);
      var at := tail[n - 1].offset;
      assert all[n] == tail[n - 1] && all[n..] == tail[n - 1..];
      assert rest[at - next..] == data[at - offset..];
    }
  }

  /** Every chunk is as long as the first boundary of the bytes from its offset on. */
  lemma ChunkIsABoundary(e: ChunkEngine, data: Bytes, n: nat)
    requires e.WellFormed() && e.Progresses() && n < |e.Chunks(data, 0)|
    ensures var c := e.Chunks(data, 0)[n];
      c.offset < |data| && c.size == e.Boundary(data[c.offset..]) && c.data == data[c.offset..][..c.size]
  {
    hide ChunkEngine.Chunks, ChunkEngine.Boundary;
    SuffixIsChunks(e, data, 0, n);
    var c := e.Chunks(data, 0)[n];
    var rest := data[c.offset - 0..];
    var cut := e.Boundary(rest);
    e.ChunksUnfold(rest, c.offset, cut, c.offset + cut);
    assert e.Chunks(data, 0)[n..][0] == c;
  }

  lemma NonEmpty(e: ChunkEngine, data: Bytes, offset: nat)
    requires e.WellFormed() && e.Progresses() && e.Chunks(data, offset) != []
    ensures data != []
  {
  }

  lemma HeadOffset(e: ChunkEngine, data: Bytes, size: nat, offset: nat)
    requires size <= |data|
    ensures e.Head(data, size, offset).offset == offset
  {
  }

  lemma {:induction false} ChunksShift(e: ChunkEngine, data: Bytes, start: nat, delta: int, start': nat)
    requires e.WellFormed() && e.Progresses() && start' == start + delta
    ensures Shifted(e.Chunks(data, start), delta, e.Chunks(data, start'))
    decreases |data|
  {
    if data == [] {
      e.ChunksOfNothing(start);
      e.ChunksOfNothing(start');
    } else {
      hide *;
      var cut := e.Boundary(data);
      var next, next' := start + cut, start' + cut;
      e.ChunksUnfold(data, start, cut, next);
      e.ChunksUnfold(data, start', cut, next');
      ChunksShift(e, data[cut..], next, delta, next');
      HeadShift(e, data, cut, start, delta, start');
      ShiftedCons(e.Chunks(data, start), e.Head(data, cut, start), e.Chunks(data[cut..], next), delta,
                  e.Chunks(data, start'), e.Head(data, cut, start'), e.Chunks(data[cut..], next'));
    }
  }

  lemma HeadShift(e: ChunkEngine, data: Bytes, size: nat, start: nat, delta: int, start': nat)
    requires size <= |data| && start' == start + delta
    ensures Shifted([e.Head(data, size, start)], delta, [e.Head(data, size, start')])
  {
  }

  lemma ShiftedCons(all: seq<Chunk>, c: Chunk, chunks: seq<Chunk>, delta: int,
                    all': seq<Chunk>, c': Chunk, chunks': seq<Chunk>)
    requires all == [c] + chunks && all' == [c'] + chunks'
    requires Shifted([c], delta, [c']) && Shifted(chunks, delta, chunks')
    ensures Shifted(all, delta, all')
  {
    assert all[1..] == chunks && all'[1..] == chunks';
  }

  lemma ChunksFromSharedPoint(e: ChunkEngine, a: Bytes, s: Bytes, k: nat, n: nat)
    requires e.WellFormed() && e.Progresses() && k <= |s|
    requires n < |e.Chunks(a + s, 0)| && e.Chunks(a + s, 0)[n].offset == |a| + k
    ensures e.Chunks(a + s, 0)[n..] == e.Chunks(s[k..], e.Chunks(a + s, 0)[n].offset)
  {
    hide *;
    SuffixIsChunks(e, a + s, 0, n);
    var at := e.Chunks(a + s, 0)[n].offset;
    assert (a + s)[at - 0..] == s[k..];
  }

  /** The `n`-th chunk starts at position `at`. */
  predicate StartsAt(chunks: seq<Chunk>, n: nat, at: nat) {
    n < |chunks| && chunks[n].offset == at
  }

  /** If the chunkings of `a + s` and `b + s` both start a chunk at the same place in `s`, all later
      chunks have the same data, names and sizes, and offsets that differ by `|b| - |a|`. */
  lemma Resynchronize(e: ChunkEngine, a: Bytes, b: Bytes, s: Bytes, k: nat, n: nat, m: nat, delta: int)
    requires e.WellFormed() && e.Progresses() && k <= |s| && delta == |b| - |a|
    ensures var x, y := e.Chunks(a + s, 0), e.Chunks(b + s, 0);
      StartsAt(x, n, |a| + k) && StartsAt(y, m, |b| + k) ==> Shifted(x[n..], delta, y[m..])
  {
    hide Shifted, ChunkEngine.Chunks, ChunkEngine.WellFormed, ChunkEngine.Progresses;
    var x, y := e.Chunks(a + s, 0), e.Chunks(b + s, 0);
    if StartsAt(x, n, |a| + k) && StartsAt(y, m, |b| + k) {
      ChunksFromSharedPoint(e, a, s, k, n);
      ChunksFromSharedPoint(e, b, s, k, m);
      ChunksShift(e, s[k..], x[n].offset, delta, y[m].offset);
    }
  }

  // ----- Content that makes two streams meet

  /** The fingerprint a cut needs on both sides of the average, and the one that suffices on either. */
  function Loose(e: ChunkEngine): nat
    requires e.WellFormed()
  {
    Pow2(65 - e.Bits())
  }

  function Strict(e: ChunkEngine): nat
    requires e.WellFormed()
  {
    Pow2(63 - e.Bits())
  }

  /** The fingerprint of the bytes from `lo` to `i`, both included. */
  function Ending(e: ChunkEngine, s: Bytes, lo: nat, i: nat): u64
    requires i < |s|
  {
    e.Fingerprint(s, lo, i + 1)
  }

  /** Every window of up to 64 bytes ending at `i` fails the looser test. */
  predicate Quiet(e: ChunkEngine, s: Bytes, i: nat)
    requires e.WellFormed()
  {
    63 <= i < |s| && forall lo :: i - 63 <= lo <= i ==> Ending(e, s, lo, i) >= Loose(e)
  }

  /** The fingerprint of the 64 bytes ending at `i`. */
  function Full(e: ChunkEngine, s: Bytes, i: nat): u64
    requires 63 <= i < |s|
  {
    Ending(e, s, i - 63, i)
  }

  /** The 64 bytes ending at `first` pass the stricter test. For as long after them as a chunk that began
      up to `min + 62` bytes before could still be filling its first window, every window fails the looser
      test, and from there on every full window does, until the one ending at `second` passes the test of
      its distance. No chunk that began so is cut by the maximum before that. */
  predicate Anchor(e: ChunkEngine, s: Bytes, first: nat, second: nat)
    requires e.WellFormed()
  {
    && 63 <= first && first + e.config.min + 63 <= second < |s|
    && second - first + e.config.min + 63 <= e.config.max
    && Full(e, s, first) < Strict(e)
    && (forall i :: first < i < first + e.config.min + 63 ==> Quiet(e, s, i))
    && (forall i :: first < i < second ==> Full(e, s, i) >= Loose(e))
    && Full(e, s, second) < (if second - first >= e.config.avg then Loose(e) else Strict(e))
  }

  lemma StrictIsBelowLoose(e: ChunkEngine, i: nat)
    requires e.WellFormed()
    ensures Strict(e) <= e.Threshold(i) <= Loose(e)
  {
    Pow2Monotone(63 - e.Bits(), 65 - e.Bits());
  }

  /** A fingerprint from anywhere up to `i` is that of a window of at most 64 bytes ending there. */
  lemma FingerprintInSuffix(e: ChunkEngine, a: Bytes, s: Bytes, lo: nat, i: nat, from: nat)
    requires 63 <= i < |s| && lo <= |a| + i && from == Max(lo - |a|, i - 63)
    ensures e.Fingerprint(a + s, lo, |a| + i + 1) == e.Fingerprint(s, from, i + 1)
  {
    hide ChunkEngine.Fingerprint;
    var data, hi, w := a + s, |a| + i + 1, i + 1 - from;
    if hi - lo > 64 {
      FingerprintIsWindow(e, data, lo, hi);
    }
    assert data[hi - w..hi] == s[i + 1 - w..i + 1];
    FingerprintOfEqualSpans(e, data, hi, s, i + 1, w);
  }

  /** The `r`-th byte of a chunk that starts at `start` is byte `i` of the suffix. */
  lemma FingerprintInChunk(e: ChunkEngine, a: Bytes, s: Bytes, start: nat, i: nat, r: nat, from: nat)
    requires 63 <= i < |s| && start + r == |a| + i && e.config.min <= r
    requires from == Max(start + e.config.min - |a|, i - 63)
    ensures Ending(e, (a + s)[start..], e.config.min, r) == Ending(e, s, from, i)
  {
    hide ChunkEngine.Fingerprint;
    var data, rest, lo := a + s, (a + s)[start..], start + e.config.min;
    assert rest[e.config.min..r + 1] == data[lo..|a| + i + 1];
    FingerprintOfEqualSpans(e, rest, r + 1, data, |a| + i + 1, r + 1 - e.config.min);
    FingerprintInSuffix(e, a, s, lo, i, from);
  }

  /** Past its first `min + 63` bytes a chunk is cut by the full window alone. */
  lemma FullWindowDecides(e: ChunkEngine, a: Bytes, s: Bytes, start: nat, i: nat, r: nat)
    requires e.WellFormed() && 63 <= i < |s| && start + r == |a| + i && e.config.min + 63 <= r
    ensures e.CutsAt((a + s)[start..], r) <==> Full(e, s, i) < e.Threshold(r)
  {
    hide ChunkEngine.Fingerprint, ChunkEngine.Bits, Pow2, ChunkEngine.Threshold;
    FingerprintInChunk(e, a, s, start, i, r, i - 63);
  }

  lemma QuietDoesNotCut(e: ChunkEngine, a: Bytes, s: Bytes, start: nat, i: nat, r: nat)
    requires e.WellFormed() && start + r == |a| + i && e.config.min <= r && Quiet(e, s, i)
    ensures !e.CutsAt((a + s)[start..], r)
  {
    hide ChunkEngine.Fingerprint, ChunkEngine.Bits, Pow2, ChunkEngine.Threshold, Strict, Loose;
    StrictIsBelowLoose(e, r);
    FingerprintInChunk(e, a, s, start, i, r, Max(start + e.config.min - |a|, i - 63));
  }

  /** Between the marks a chunk that began by the first one is not cut. */
  lemma BetweenMarksNoCut(e: ChunkEngine, a: Bytes, s: Bytes, start: nat, first: nat, second: nat, i: nat, r: nat)
    requires e.WellFormed() && Anchor(e, s, first, second)
    requires start <= |a| + first && first < i < second && start + r == |a| + i && e.config.min <= r
    ensures !e.CutsAt((a + s)[start..], r)
  {
    hide ChunkEngine.CutsAt, Quiet, Full;
    if i < first + e.config.min + 63 {
      QuietDoesNotCut(e, a, s, start, i, r);
    } else {
      FullWindowDecides(e, a, s, start, i, r);
      StrictIsBelowLoose(e, r);
    }
  }

  /** At the second one it is. */
  lemma SecondMarkCuts(e: ChunkEngine, a: Bytes, s: Bytes, start: nat, first: nat, second: nat, r: nat)
    requires e.WellFormed() && Anchor(e, s, first, second)
    requires start <= |a| + first && start + r == |a| + second
    ensures e.CutsAt((a + s)[start..], r)
  {
    hide ChunkEngine.CutsAt, Quiet, Full;
    FullWindowDecides(e, a, s, start, second, r);
    StrictIsBelowLoose(e, r);
  }

  /** A chunk that starts by the first mark and ends after it ends exactly at the second. */
  lemma ChunkOverFirstMark(e: ChunkEngine, a: Bytes, s: Bytes, start: nat, first: nat, second: nat)
    requires e.WellFormed() && Anchor(e, s, first, second)
    requires start <= |a| + first < start + e.Boundary((a + s)[start..])
    ensures start + e.Boundary((a + s)[start..]) == |a| + second
  {
    var rest, cut := (a + s)[start..], e.Boundary((a + s)[start..]);
    hide Quiet, Full, ChunkEngine.CutsAt;
    if start + e.config.min + 63 <= |a| + first {
      FullWindowDecides(e, a, s, start, first, |a| + first - start);
      StrictIsBelowLoose(e, |a| + first - start);
    } else {
      SecondMarkCuts(e, a, s, start, first, second, |a| + second - start);
      if start + cut < |a| + second {
        BetweenMarksNoCut(e, a, s, start, first, second, start + cut - |a|, cut);
      }
    }
  }

  lemma {:induction false} AnchorCuts(e: ChunkEngine, a: Bytes, s: Bytes, start: nat, first: nat, second: nat)
    returns (n: nat)
    requires e.WellFormed() && e.Progresses() && Anchor(e, s, first, second) && start <= |a| + first
    ensures StartsAt(e.Chunks((a + s)[start..], start), n, |a| + second)
    decreases |a| + first - start
  {
    hide *;
    AnchorLiesInside(e, s, first, second);
    var data := a + s;
    var rest := data[start..];
    assert |rest| > 0;
    var cut := e.Boundary(rest);
    var next := start + cut;
    e.ChunksUnfold(rest, start, cut, next);
    assert rest[cut..] == data[next..];
    if next <= |a| + first {
      var m := AnchorCuts(e, a, s, next, first, second);
      n := m + 1;
      LaterStart(e.Chunks(rest, start), e.Head(rest, cut, start), e.Chunks(data[next..], next), m, |a| + second);
    } else {
      ChunkOverFirstMark(e, a, s, start, first, second);
      n := 1;
      FirstChunk(e, data[next..], next);
      LaterStart(e.Chunks(rest, start), e.Head(rest, cut, start), e.Chunks(data[next..], next), 0, |a| + second);
    }
  }

  lemma AnchorLiesInside(e: ChunkEngine, s: Bytes, first: nat, second: nat)
    requires e.WellFormed() && Anchor(e, s, first, second)
    ensures first < second < |s|
  {
  }

  lemma LaterStart(all: seq<Chunk>, c: Chunk, chunks: seq<Chunk>, m: nat, at: nat)
    requires all == [c] + chunks && StartsAt(chunks, m, at)
    ensures StartsAt(all, m + 1, at)
  {
  }

  lemma FirstChunk(e: ChunkEngine, data: Bytes, offset: nat)
    requires e.WellFormed() && e.Progresses()
    ensures e.Chunks(data, offset) == [] <==> data == []
    ensures data != [] ==> StartsAt(e.Chunks(data, offset), 0, offset)
  {
    hide ChunkEngine.Boundary;
  }

  /** Whatever precedes it, content that holds an anchor makes both streams cut at the anchor's second
      mark; from there on the chunks have the same data, names and sizes. */
  lemma AnchorResynchronizes(e: ChunkEngine, a: Bytes, b: Bytes, s: Bytes, first: nat, second: nat)
    returns (n: nat, m: nat)
    requires e.WellFormed() && e.Progresses() && Anchor(e, s, first, second)
    ensures var x, y := e.Chunks(a + s, 0), e.Chunks(b + s, 0);
      && StartsAt(x, n, |a| + second) && StartsAt(y, m, |b| + second)
      && Shifted(x[n..], |b| - |a|, y[m..])
  {
    hide Shifted, ChunkEngine.Chunks, ChunkEngine.WellFormed, ChunkEngine.Progresses, Full, Quiet;
    n := AnchorCuts(e, a, s, 0, first, second);
    m := AnchorCuts(e, b, s, 0, first, second);
    assert (a + s)[0..] == a + s && (b + s)[0..] == b + s;
    Resynchronize(e, a, b, s, second, n, m, |b| - |a|);
  }

  // ----- Anchors exist for any gear table with enough spread

  /** The words of these bytes lie at least `gap` apart around the circle of 64-bit words. */
  predicate Apart(gear: Gear, bytes: set<Byte>, gap: nat) {
    forall x, y :: x in bytes && y in bytes && gear[x] < gear[y] ==> gap <= gear[y] - gear[x] <= W64 - gap
  }

  predicate Injective(gear: Gear, bytes: set<Byte>) {
    forall x, y :: x in bytes && y in bytes && x != y ==> gear[x] != gear[y]
  }

  predicate Spread(e: ChunkEngine, bytes: set<Byte>)
    requires e.WellFormed()
  {
    Injective(e.gear, bytes) && Apart(e.gear, bytes, Loose(e))
  }

  /** A running fingerprint that byte would take below the bound. */
  predicate Low(gear: Gear, b: Byte, v: u64, gap: nat) {
    (2 * v + gear[b]) % W64 < gap
  }

  lemma NotBothLow(gear: Gear, x: Byte, y: Byte, v: u64, gap: nat)
    requires gap <= gear[y] - gear[x] <= W64 - gap
    ensures !Low(gear, x, v, gap) || !Low(gear, y, v, gap)
  {
    var p, q := (2 * v + gear[x]) % W64, (2 * v + gear[y]) % W64;
    var k := (2 * v + gear[y]) / W64 - (2 * v + gear[x]) / W64;
    assert gear[y] - gear[x] == q - p + k * W64;
  }

  lemma OnlyOneLow(gear: Gear, bytes: set<Byte>, x: Byte, y: Byte, v: u64, gap: nat)
    requires Injective(gear, bytes) && Apart(gear, bytes, gap) && x in bytes && y in bytes && x != y
    ensures !Low(gear, x, v, gap) || !Low(gear, y, v, gap)
  {
    hide Low;
    if gear[x] < gear[y] {
      NotBothLow(gear, x, y, v, gap);
    } else {
      NotBothLow(gear, y, x, v, gap);
    }
  }

  /** Each running fingerprint spoils at most one of the bytes. */
  lemma {:induction false} SafeByte(gear: Gear, values: seq<u64>, bytes: set<Byte>, gap: nat) returns (b: Byte)
    requires Injective(gear, bytes) && Apart(gear, bytes, gap) && |bytes| > |values|
    ensures b in bytes && forall v :: v in values ==> !Low(gear, b, v, gap)
    decreases |values|
  {
    hide Low;
    if values == [] {
      b :| b in bytes;
    } else {
      var v := values[0];
      assert values == [v] + values[1..];
      if bad :| bad in bytes && Low(gear, bad, v, gap) {
        b := SafeByte(gear, values[1..], bytes - {bad}, gap);
        OnlyOneLow(gear, bytes, b, bad, v, gap);
      } else {
        b := SafeByte(gear, values[1..], bytes, gap);
      }
    }
  }

  lemma FingerprintSnoc(e: ChunkEngine, s: Bytes, b: Byte, lo: nat, n: nat, next: nat)
    requires lo <= |s| == n && next == n + 1
    ensures e.Fingerprint(s + [b], lo, next) == (2 * e.Fingerprint(s, lo, n) + e.gear[b]) % W64
  {
    e.FingerprintIgnoresTail(s, [b], lo, n);
  }

  lemma QuietByte(e: ChunkEngine, s: Bytes, bytes: set<Byte>) returns (b: Byte)
    requires e.WellFormed() && Spread(e, bytes) && |bytes| > 64 && |s| >= 63
    ensures Quiet(e, s + [b], |s|)
  {
    hide Loose, Injective, Apart, ChunkEngine.Fingerprint;
    var n := |s|;
    var values := seq<u64>(64, k requires 0 <= k < 64 => e.Fingerprint(s, n - 63 + k, n));
    b := SafeByte(e.gear, values, bytes, Loose(e));
    forall lo | n - 63 <= lo <= n
      ensures Ending(e, s + [b], lo, n) >= Loose(e)
    {
      assert values[lo - (n - 63)] in values;
      FingerprintSnoc(e, s, b, lo, n, n + 1);
    }
  }

  lemma QuietIgnoresTail(e: ChunkEngine, s: Bytes, tail: Bytes, i: nat)
    requires e.WellFormed() && Quiet(e, s, i)
    ensures Quiet(e, s + tail, i)
  {
    hide Loose;
    forall lo | i - 63 <= lo <= i
      ensures Ending(e, s + tail, lo, i) >= Loose(e)
    {
      e.FingerprintIgnoresTail(s, tail, lo, i + 1);
      assert Ending(e, s, lo, i) >= Loose(e);
    }
  }

  /** Any content can be followed by quiet of any length. */
  lemma {:induction false} QuietRun(e: ChunkEngine, s: Bytes, n: nat, bytes: set<Byte>) returns (q: Bytes)
    requires e.WellFormed() && Spread(e, bytes) && |bytes| > 64 && |s| >= 63
    ensures |q| == n && forall i :: |s| <= i < |s| + n ==> Quiet(e, s + q, i)
  {
    hide Quiet, Spread;
    q := [];
    if n > 0 {
      var most := QuietRun(e, s, n - 1, bytes);
      var b := QuietByte(e, s + most, bytes);
      q := most + [b];
      ConcatAssociative(s, most, [b]);
      forall i | |s| <= i < |s| + n - 1
        ensures Quiet(e, s + q, i)
      {
        QuietIgnoresTail(e, s + most, [b], i);
      }
    }
  }

  lemma ParityByte(e: ChunkEngine, x: Byte, y: Byte, t: int) returns (b: Byte, half: int)
    requires e.gear[x] % 2 != e.gear[y] % 2
    ensures t - e.gear[b] == 2 * half
  {
    b := if (t - e.gear[x]) % 2 == 0 then x else y;
    half := (t - e.gear[b]) / 2;
  }

  /** With two words of different parity, the last `n` bits of the fingerprint of `n` bytes can be chosen. */
  lemma {:induction false} WordFor(e: ChunkEngine, x: Byte, y: Byte, n: nat, t: int) returns (w: Bytes, k: int)
    requires n <= 64 && e.gear[x] % 2 != e.gear[y] % 2
    ensures |w| == n && e.Fingerprint(w, 0, n) == t + k * Pow2(n)
  {
    if n == 0 {
      w, k := [], -t;
    } else {
      hide *;
      var m := n - 1;
      var b, half := ParityByte(e, x, y, t);
      var w', k' := WordFor(e, x, y, m, half);
      w := w' + [b];
      FingerprintSnoc(e, w', b, 0, m, n);
      Pow2Doubles(m, n);
      k := DoubleToTarget(e.Fingerprint(w', 0, m), e.gear[b], e.Fingerprint(w, 0, n), t, half, k', Pow2(m), Pow2(n), n);
    }
  }

  lemma DoubleToTarget(f: u64, g: u64, f': u64, t: int, half: int, k': int, p: nat, p': nat, n: nat)
    returns (k: int)
    requires n <= 64 && p' == Pow2(n) == 2 * p && t - g == 2 * half
    requires f == half + k' * p && f' == (2 * f + g) % W64
    ensures f' == t + k * p'
  {
    hide *;
    var q, high := (2 * f + g) / W64, Pow2(64 - n);
    Pow2Is64();
    Pow2Sum(64 - n, n);
    assert f' == 2 * f + g - q * W64;
    k := k' - q * high;
    Regroup(k', q, high, p, p');
  }

  lemma Regroup(k': int, q: int, high: nat, p: nat, p': nat)
    requires p' == 2 * p && high * p' == W64
    ensures 2 * (k' * p) - q * W64 == (k' - q * high) * p'
  {
    assert (k' - q * high) * p' == k' * p' - q * (high * p');
  }

  lemma ZeroWord(e: ChunkEngine, x: Byte, y: Byte) returns (w: Bytes)
    requires e.gear[x] % 2 != e.gear[y] % 2
    ensures |w| == 64 && e.Fingerprint(w, 0, 64) == 0
  {
    hide ChunkEngine.Fingerprint, Pow2;
    var k;
    w, k := WordFor(e, x, y, 64, 0);
    Pow2Is64();
  }

  lemma {:induction false} FirstLow(e: ChunkEngine, s: Bytes, from: nat, last: nat) returns (i: nat)
    requires e.WellFormed() && 63 <= from <= last < |s| && Full(e, s, last) < Loose(e)
    ensures from <= i <= last && Full(e, s, i) < Loose(e)
    ensures forall j :: from <= j < i ==> Full(e, s, j) >= Loose(e)
    decreases last - from
  {
    hide Full, Loose;
    if Full(e, s, from) < Loose(e) {
      i := from;
    } else {
      i := FirstLow(e, s, from + 1, last);
    }
  }

  /** Room for an anchor between the sizes; both profiles the source ships leave it. */
  predicate Roomy(config: ChunkConfig) {
    Max(config.min + 63, config.avg) + config.min + 126 <= config.max
  }

  lemma ZeroWindow(e: ChunkEngine, w: Bytes, s: Bytes, at: nat)
    requires |w| == 64 && e.Fingerprint(w, 0, 64) == 0 && 63 <= at < |s| && s[at - 63..at + 1] == w
    ensures Full(e, s, at) == 0
  {
    hide ChunkEngine.Fingerprint;
    assert w[64 - 64..64] == w;
    FingerprintOfEqualSpans(e, w, 64, s, at + 1, 64);
  }

  /** Quiet before, a zero window at each end: the first low window after the quiet is the second mark. */
  lemma QuietBetweenZeros(e: ChunkEngine, s: Bytes, span: nat) returns (second: nat)
    requires e.WellFormed() && Roomy(e.config) && span == Max(e.config.min + 63, e.config.avg)
    requires 63 + span + 63 < |s| && Full(e, s, 63) == 0 && Full(e, s, 63 + span + 63) == 0
    requires forall i :: 63 < i < 63 + span ==> Quiet(e, s, i)
    ensures Anchor(e, s, 63, second)
  {
    hide Full, Quiet;
    BoundsArePositive(e);
    hide Strict, Loose;
    second := FirstLow(e, s, 63 + span, 63 + span + 63);
    forall i | 63 < i < second
      ensures Full(e, s, i) >= Loose(e)
    {
      if i < 63 + span {
        QuietFull(e, s, i);
      }
    }
  }

  /** Anchors exist for every engine with room, 65 bytes whose words are spread, and two bytes whose words
      differ in parity. */
  lemma AnchorsExist(e: ChunkEngine, bytes: set<Byte>, x: Byte, y: Byte)
    returns (s: Bytes, first: nat, second: nat)
    requires e.WellFormed() && Roomy(e.config)
    requires Spread(e, bytes) && |bytes| > 64 && e.gear[x] % 2 != e.gear[y] % 2
    ensures Anchor(e, s, first, second)
  {
    hide Spread, ChunkEngine.Fingerprint, Quiet, Full, Anchor;
    var w := ZeroWord(e, x, y);
    var span := Max(e.config.min + 63, e.config.avg);
    var q := QuietRun(e, w, span - 1, bytes);
    s := w + q + w;
    first := 63;
    ZeroWindow(e, w, s, 63);
    ZeroWindow(e, w, s, 63 + span + 63);
    forall i | 63 < i < 63 + span
      ensures Quiet(e, s, i)
    {
      QuietIgnoresTail(e, w + q, w, i);
    }
    second := QuietBetweenZeros(e, s, span);
  }

  lemma BoundsArePositive(e: ChunkEngine)
    requires e.WellFormed()
    ensures 0 < Strict(e) && 0 < Loose(e)
  {
  }

  lemma QuietFull(e: ChunkEngine, s: Bytes, i: nat)
    requires e.WellFormed() && Quiet(e, s, i)
    ensures Full(e, s, i) >= Loose(e)
  {
  }

  const DefaultProfile := ChunkConfig(512 * 1024, 1024 * 1024, 2 * 1024 * 1024)
  const KeyedProfile := ChunkConfig(16 * 1024, 64 * 1024, 256 * 1024)

  lemma LooseIs(e: ChunkEngine, k: nat)
    requires e.WellFormed() && 1 <= k <= 63 && e.config.avg == Pow2(k)
    ensures Loose(e) == Pow2(65 - k)
  {
    Pow2Monotone(1, k);
    assert Pow2(1) == 2;
    var b := e.Bits();
    assert Pow2(b) <= Pow2(k) < Pow2(b + 1);
    if b < k {
      Pow2Monotone(b + 1, k);
    } else if k < b {
      Pow2Monotone(k + 1, b);
      assert Pow2(k + 1) == 2 * Pow2(k);
    }
  }

  lemma AveragePowers()
    ensures Pow2(16) == 64 * 1024 && Pow2(20) == 1024 * 1024
  {
    assert Pow2(4) == 16;
    hide Pow2;
    Pow2Sum(4, 4);
    Pow2Sum(8, 8);
    Pow2Sum(16, 4);
  }

  /** Both shipped profiles leave room, and the spread they ask of the words is 2^45 and 2^49, where 256
      words are 2^56 apart on average. */
  lemma ShippedProfilesAreRoomy(gear: Gear, naming: Naming)
    ensures Roomy(DefaultProfile) && Roomy(KeyedProfile)
    ensures var e := ChunkEngine(DefaultProfile, gear, naming); e.WellFormed() && Loose(e) == Pow2(45)
    ensures var e := ChunkEngine(KeyedProfile, gear, naming); e.WellFormed() && Loose(e) == Pow2(49)
  {
    hide Pow2, Loose;
    AveragePowers();
    LooseIs(ChunkEngine(DefaultProfile, gear, naming), 20);
    LooseIs(ChunkEngine(KeyedProfile, gear, naming), 16);
  }

  /** A table with evenly spread words of both parities. */
  function EvenTable(): Gear {
    seq(256, b requires 0 <= b < 256 => b * 0x100_0000_0000_0000 + b % 2)
  }

  function BytesBelow(n: nat): (bytes: set<Byte>)
    requires n <= 256
    ensures |bytes| == n && forall b :: b in bytes ==> b < n
  {
    if n == 0 then {} else BytesBelow(n - 1) + {n - 1}
  }

  lemma EvenTableIsSpread(bytes: set<Byte>, gap: nat)
    requires gap <= 0x80_0000_0000_0000
    ensures Injective(EvenTable(), bytes) && Apart(EvenTable(), bytes, gap)
  {
    forall x: Byte, y: Byte | EvenTable()[x] < EvenTable()[y]
      ensures gap <= EvenTable()[y] - EvenTable()[x] <= W64 - gap
    {
      assert EvenTable()[x] == x * 0x100_0000_0000_0000 + x % 2;
      assert EvenTable()[y] == y * 0x100_0000_0000_0000 + y % 2;
      assert x < y;
    }
  }

  lemma KeyedGap()
    ensures Pow2(49) <= 0x80_0000_0000_0000
  {
    assert Pow2(9) == 512;
    hide Pow2;
    Pow2Monotone(49, 55);
    Pow2Sum(55, 9);
    Pow2Is64();
  }

  /** The hypotheses can be met under the keyed profile, by this table. */
  lemma EvenTableHasAnchors(naming: Naming) returns (s: Bytes, first: nat, second: nat)
    ensures var e := ChunkEngine(KeyedProfile, EvenTable(), naming);
      e.WellFormed() && e.Progresses() && Anchor(e, s, first, second)
  {
    var e := ChunkEngine(KeyedProfile, EvenTable(), naming);
    assert e.gear[0] == 0 && e.gear[1] == 0x100_0000_0000_0001;
    hide Anchor, Pow2, Loose, BytesBelow, EvenTable, Injective, Apart;
    ShippedProfilesAreRoomy(EvenTable(), naming);
    KeyedGap();
    var bytes := BytesBelow(65);
    EvenTableIsSpread(bytes, Loose(e));
    s, first, second := AnchorsExist(e, bytes, 0, 1);
  }

  // ----- Insertion at the start

  function AfterFirst(chunks: seq<Chunk>): seq<Chunk> {
    if chunks == [] then [] else chunks[1..]
  }

  lemma AfterFirstIs(e: ChunkEngine, data: Bytes, cut: nat)
    requires e.WellFormed() && e.Progresses() && cut == e.Boundary(data)
    ensures cut <= |data| && AfterFirst(e.Chunks(data, 0)) == e.Chunks(data[cut..], cut)
  {
    hide ChunkEngine.Boundary, ChunkEngine.Chunks;
    if data == [] {
      e.ChunksOfNothing(0);
      e.ChunksOfNothing(cut);
    } else {
      e.ChunksUnfold(data, 0, cut, cut);
    }
  }

  lemma ShiftedStart(x: seq<Chunk>, delta: int, y: seq<Chunk>, i: nat, j: nat)
    requires Shifted(x, delta, y)
    requires x != [] ==> StartsAt(x, 0, i)
    requires y != [] ==> StartsAt(y, 0, j)
    ensures x == [] <==> y == []
    ensures x != [] ==> j == i + delta
  {
  }

  /** Prepending `a` to a stream changes only its first chunk exactly when the first chunk of the new
      stream ends where the old one did. */
  lemma InsertionChangesOnlyFirstIff(e: ChunkEngine, a: Bytes, s: Bytes)
    requires e.WellFormed() && e.Progresses()
    ensures Shifted(AfterFirst(e.Chunks(s, 0)), |a|, AfterFirst(e.Chunks(a + s, 0)))
       <==> e.Boundary(a + s) == |a| + e.Boundary(s)
  {
    hide Shifted, ChunkEngine.Boundary, ChunkEngine.Chunks, AfterFirst, StartsAt;
    var c, d := e.Boundary(s), e.Boundary(a + s);
    AfterFirstIs(e, s, c);
    AfterFirstIs(e, a + s, d);
    var x, y := e.Chunks(s[c..], c), e.Chunks((a + s)[d..], d);
    if d == |a| + c {
      assert (a + s)[d..] == s[c..];
      ChunksShift(e, s[c..], c, |a|, d);
    } else if Shifted(x, |a|, y) {
      FirstChunk(e, s[c..], c);
      FirstChunk(e, (a + s)[d..], d);
      ShiftedStart(x, |a|, y, c, d);
    }
  }

  /** A configuration that leaves the content no say: every chunk but the last has two bytes. */
  function FixedSize(gear: Gear, naming: Naming): ChunkEngine {
    ChunkEngine(ChunkConfig(2, 2, 2), gear, naming)
  }

  lemma FixedSizeBoundary(gear: Gear, naming: Naming, data: Bytes)
    ensures FixedSize(gear, naming).WellFormed() && FixedSize(gear, naming).Progresses()
    ensures FixedSize(gear, naming).Boundary(data) == Min(2, |data|)
  {
  }

  /** For every gear table and naming there is an accepted configuration under which prepending one byte
      leaves not a single chunk's data in place. */
  lemma InsertionCanChangeEveryChunk(gear: Gear, naming: Naming)
    ensures var e := FixedSize(gear, naming);
      && e.WellFormed() && e.Progresses()
      && var before, after := e.Chunks([1, 2, 3, 4], 0), e.Chunks([0] + [1, 2, 3, 4], 0);
      && |before| == 2 && |after| == 3
      && forall i, j :: 0 <= i < |before| && 0 <= j < |after| ==> before[i].data != after[j].data
  {
    hide *;
    FixedSizeBoundary(gear, naming, []);
    FixedSizeChunks(gear, naming, [1, 2], [3, 4], 0);
    FixedSizeChunks(gear, naming, [3, 4], [], 2);
    FixedSizeChunks(gear, naming, [0, 1], [2, 3, 4], 0);
    FixedSizeChunks(gear, naming, [2, 3], [4], 2);
    LastByteChunk(gear, naming, 4, 4);
    assert [1, 2] + [3, 4] == [1, 2, 3, 4] && [3, 4] + [] == [3, 4];
    assert [0, 1] + [2, 3, 4] == [0] + [1, 2, 3, 4] && [2, 3] + [4] == [2, 3, 4];
  }

  lemma FixedSizeChunks(gear: Gear, naming: Naming, two: Bytes, rest: Bytes, offset: nat)
    requires |two| == 2
    ensures FixedSize(gear, naming).WellFormed() && FixedSize(gear, naming).Progresses()
    ensures FixedSize(gear, naming).Chunks(two + rest, offset)
         == [Chunk(naming.Name(two), two, 2, offset)] + FixedSize(gear, naming).Chunks(rest, offset + 2)
    ensures FixedSize(gear, naming).Chunks([], offset + 2) == []
  {
    var e := FixedSize(gear, naming);
    FixedSizeBoundary(gear, naming, two + rest);
    e.ChunksUnfold(two + rest, offset, 2, offset + 2);
    e.ChunksOfNothing(offset + 2);
    assert (two + rest)[..2] == two && (two + rest)[2..] == rest;
  }

  lemma LastByteChunk(gear: Gear, naming: Naming, x: Byte, offset: nat)
    ensures FixedSize(gear, naming).WellFormed() && FixedSize(gear, naming).Progresses()
    ensures FixedSize(gear, naming).Chunks([x], offset) == [Chunk(naming.Name([x]), [x], 1, offset)]
  {
    var e := FixedSize(gear, naming);
    FixedSizeBoundary(gear, naming, [x]);
    e.ChunksUnfold([x], offset, 1, offset + 1);
    e.ChunksOfNothing(offset + 1);
    assert [x][..1] == [x] && [x][1..] == [];
  }
}
