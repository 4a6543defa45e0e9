/** What `pack_chunks` guarantees: next-fit filling, conservation, and the reader's way back. */
module PackProperties {
  import opened Words
  import opened Wrappers
  import opened Padding
  import opened Packing

  // ----- Conservation

  lemma {:induction false} NextFitKeepsItems(open: Bin, items: seq<Item>, target: nat)
    ensures Flatten(NextFit(open, items, target)) == open + items
    decreases |items|
  {
    if items == [] {
      assert open + items == open && (open != [] ==> [open][1..] == []);
    } else {
      var x, more := items[0], items[1..];
      assert items == [x] + more;
      NextFitStep(open, x, more, target);
      NextFitKeepsItems([x], more, target);
      NextFitKeepsItems(open + [x], more, target);
      ConcatAssociative(open, [x], more);
      assert ([open] + NextFit([x], more, target))[1..] == NextFit([x], more, target);
    }
  }

  /** The bins hold exactly the deduplicated items, in order. */
  lemma BinsKeepItems(order: seq<Item>, targetPackSize: nat)
    ensures Flatten(Bins(order, targetPackSize)) == Dedup(order, {})
  {
    NextFitKeepsItems([], Dedup(order, {}), Max(targetPackSize, 1));
  }

  predicate NamesDistinct(items: seq<Item>) {
    forall i, j :: 0 <= i < j < |items| ==> items[i].name != items[j].name
  }

  ghost function NameSet(items: seq<Item>): set<string> {
    set x | x in items :: x.name
  }

  /** Deduplication keeps items of the input, one for each name. */
  lemma {:induction false} DedupKeepsItems(items: seq<Item>, seen: set<string>)
    ensures forall x :: x in Dedup(items, seen) ==> x in items
    ensures Size(Dedup(items, seen)) <= Size(items)
    decreases items
  {
    if items != [] {
      DedupKeepsItems(items[1..], seen);
      DedupKeepsItems(items[1..], seen + {items[0].name});
    }
  }

  /** What is kept under a name is the first item given under it: item `i` of the input, for some `i`. */
  lemma {:induction false} DedupKeepsFirst(items: seq<Item>, seen: set<string>, k: nat) returns (i: nat)
    requires k < |Dedup(items, seen)|
    ensures i < |items| && items[i] == Dedup(items, seen)[k] && items[i].name !in seen
    ensures forall j :: 0 <= j < i ==> items[j].name != items[i].name
    decreases |items|
  {
    var x, rest := items[0], items[1..];
    if x.name in seen {
      i := DedupKeepsFirst(rest, seen, k);
      i := i + 1;
    } else if k == 0 {
      i := 0;
    } else {
      i := DedupKeepsFirst(rest, seen + {x.name}, k - 1);
      i := i + 1;
    }
    assert i > 0 ==> items[i] == rest[i - 1] && forall j :: 0 < j < i ==> items[j] == rest[j - 1];
  }

  lemma {:induction false} DedupKeepsNames(items: seq<Item>, seen: set<string>)
    ensures NamesDistinct(Dedup(items, seen))
    ensures NameSet(Dedup(items, seen)) == NameSet(items) - seen
    decreases items
  {
    if items != [] {
      var x, rest := items[0], items[1..];
      var seen' := seen + {x.name};
      assert items == [x] + rest;
      DedupKeepsNames(rest, seen);
      DedupKeepsNames(rest, seen');
      NameSetCons(x, rest);
      NameSetCons(x, Dedup(rest, seen'));
      if x.name !in seen {
        DistinctCons(x, Dedup(rest, seen'));
      }
    }
  }

  lemma NameSetCons(x: Item, rest: seq<Item>)
    ensures NameSet([x] + rest) == {x.name} + NameSet(rest)
  {
    assert ([x] + rest)[0] == x;
  }

  lemma DistinctCons(x: Item, rest: seq<Item>)
    requires NamesDistinct(rest) && x.name !in NameSet(rest)
    ensures NamesDistinct([x] + rest)
  {
  }

  lemma {:induction false} LocationsAt(bin: Bin, id: string, offset: nat, j: nat, at: nat)
    requires j < |bin| && at == offset + Size(bin[..j])
    ensures |Locations(bin, id, offset)| == |bin|
    ensures Locations(bin, id, offset)[j]
         == IndexEntry(bin[j].name, PackLocation(id, at, |bin[j].blob| % W32))
    decreases |bin|
  {
    var next := offset + |bin[0].blob|;
    LocationsLength(bin[1..], id, next);
    if j > 0 {
      var j' := j - 1;
      assert bin[..j][1..] == bin[1..][..j'];
      LocationsAt(bin[1..], id, next, j', at);
    }
  }

  lemma {:induction false} LocationsLength(bin: Bin, id: string, offset: nat)
    ensures |Locations(bin, id, offset)| == |bin|
  {
    if bin != [] {
      LocationsLength(bin[1..], id, offset + |bin[0].blob|);
    }
  }

  /** The `k`-th index entry describes the `k`-th deduplicated item, in one bin at one position. */
  lemma {:induction false} EntryCoordinates(bins: seq<Bin>, draws: Draws, base: nat, k: nat) returns (i: nat, j: nat)
    requires k < |Flatten(bins)|
    ensures |Index(bins, draws, base)| == |Flatten(bins)|
    ensures i < |bins| && j < |bins[i]| && bins[i][j] == Flatten(bins)[k]
    ensures i + 1 == |bins| <==> k >= |Flatten(bins[..|bins| - 1])|
    ensures Index(bins, draws, base)[k]
         == IndexEntry(bins[i][j].name,
                       PackLocation(draws.ids(base + i), Size(bins[i][..j]), |bins[i][j].blob| % W32))
    decreases |bins|
  {
    var first, rest := bins[0], bins[1..];
    IndexLength(rest, draws, base + 1);
    LocationsLength(first, draws.ids(base), 0);
    if rest != [] {
      assert bins[..|bins| - 1] == [first] + rest[..|rest| - 1];
    }
    if k < |first| {
      i, j := 0, k;
      LocationsAt(first, draws.ids(base), 0, k, Size(first[..k]));
    } else {
      var base', k' := base + 1, k - |first|;
      var i', j' := EntryCoordinates(rest, draws, base', k');
      i, j := i' + 1, j';
      assert rest[i'] == bins[i];
      assert base' + i' == base + i;
    }
  }

  lemma {:induction false} IndexLength(bins: seq<Bin>, draws: Draws, base: nat)
    ensures |Index(bins, draws, base)| == |Flatten(bins)|
  {
    if bins != [] {
      IndexLength(bins[1..], draws, base + 1);
      LocationsLength(bins[0], draws.ids(base), 0);
    }
  }

  lemma IndexFollowsItems(order: seq<Item>, targetPackSize: nat, draws: Draws)
    ensures var index, kept := PackAll(order, targetPackSize, draws).index, Dedup(order, {});
      |index| == |kept| && forall k :: 0 <= k < |index| ==> index[k].name == kept[k].name
  {
    hide NextFit, Index, Packs, Locations, Dedup, Flatten;
    var bins := Bins(order, targetPackSize);
    BinsKeepItems(order, targetPackSize);
    IndexLength(bins, draws, 0);
    forall k | 0 <= k < |Index(bins, draws, 0)|
      ensures Index(bins, draws, 0)[k].name == Dedup(order, {})[k].name
    {
      var i, j := EntryCoordinates(bins, draws, 0, k);
    }
  }

  /** The index names are exactly the distinct input names, each once. */
  lemma IndexNamesInput(order: seq<Item>, targetPackSize: nat, draws: Draws)
    ensures var index, kept := PackAll(order, targetPackSize, draws).index, Dedup(order, {});
      && |index| == |kept|
      && (forall k :: 0 <= k < |index| ==> index[k].name == kept[k].name)
      && NamesDistinct(kept)
      && NameSet(kept) == NameSet(order)
  {
    hide PackAll, Dedup, NamesDistinct;
    IndexFollowsItems(order, targetPackSize, draws);
    DedupKeepsNames(order, {});
  }

  // ----- The next-fit guarantee

  function NonEmptyBlobs(bin: Bin): nat {
    if bin == [] then 0 else (if bin[0].blob == [] then 0 else 1) + NonEmptyBlobs(bin[1..])
  }

  lemma {:induction false} NonEmptyBlobsSnoc(bin: Bin, x: Item)
    ensures NonEmptyBlobs(bin + [x]) == NonEmptyBlobs(bin) + if x.blob == [] then 0 else 1
  {
    if bin == [] {
      assert bin + [x] == [x] && [x][1..] == [];
    } else {
      NonEmptyBlobsSnoc(bin[1..], x);
      assert (bin + [x])[1..] == bin[1..] + [x];
    }
  }

  lemma {:induction false} EmptyBinHasNoBytes(bin: Bin)
    ensures Size(bin) == 0 <==> NonEmptyBlobs(bin) == 0
  {
    if bin != [] {
      EmptyBinHasNoBytes(bin[1..]);
    }
  }

  ghost predicate Fits(bin: Bin, target: nat) {
    Size(bin) <= target || NonEmptyBlobs(bin) == 1
  }

  /** A bin stays within the target unless it holds a single non-empty blob. */
  lemma {:induction false} NextFitRespectsTarget(open: Bin, items: seq<Item>, target: nat)
    requires Fits(open, target)
    ensures forall bin :: bin in NextFit(open, items, target) ==> Fits(bin, target)
    decreases |items|
  {
    if items != [] {
      var x, more := items[0], items[1..];
      assert items == [x] + more;
      NextFitStep(open, x, more, target);
      if Size(open) > 0 && Size(open) + |x.blob| > target {
        SingletonFits(x, target);
        NextFitRespectsTarget([x], more, target);
      } else {
        ContentSnoc(open, x);
        NonEmptyBlobsSnoc(open, x);
        EmptyBinHasNoBytes(open);
        NextFitRespectsTarget(open + [x], more, target);
      }
    }
  }

  lemma SingletonFits(x: Item, target: nat)
    ensures Fits([x], target) && Size([x]) == |x.blob|
  {
    ContentSnoc([], x);
    assert [] + [x] == [x];
    NonEmptyBlobsSnoc([], x);
  }

  lemma {:induction false} OpenBinComesFirst(open: Bin, items: seq<Item>, target: nat)
    requires open != []
    ensures var bins := NextFit(open, items, target); bins != [] && Size(bins[0]) >= Size(open)
    decreases |items|
  {
    if items != [] {
      NextFitStep(open, items[0], items[1..], target);
      assert items == [items[0]] + items[1..];
      ContentSnoc(open, items[0]);
      OpenBinComesFirst(open + [items[0]], items[1..], target);
    }
  }

  /** Every bin but the last holds bytes, and with its successor more than `target` of them. */
  predicate PairsExceed(bins: seq<Bin>, target: nat) {
    |bins| > 1 ==>
      && Size(bins[0]) > 0
      && Size(bins[0]) + Size(bins[1]) > target
      && PairsExceed(bins[1..], target)
  }

  /** No two neighbouring bins could have been merged. */
  lemma {:induction false} NeighboursExceedTarget(open: Bin, items: seq<Item>, target: nat)
    ensures PairsExceed(NextFit(open, items, target), target)
    decreases |items|
  {
    if items != [] {
      var x, more := items[0], items[1..];
      assert items == [x] + more;
      NextFitStep(open, x, more, target);
      if Size(open) > 0 && Size(open) + |x.blob| > target {
        SingletonFits(x, target);
        OpenBinComesFirst([x], more, target);
        NeighboursExceedTarget([x], more, target);
        assert ([open] + NextFit([x], more, target))[1..] == NextFit([x], more, target);
      } else {
        NeighboursExceedTarget(open + [x], more, target);
      }
    }
  }

  lemma {:induction false} PairsBoundCount(bins: seq<Bin>, target: nat)
    requires bins != [] && PairsExceed(bins, target)
    ensures (|bins| - 1) * target <= 2 * TotalSize(bins) - Size(bins[0])
  {
    if |bins| > 1 {
      PairsBoundCount(bins[1..], target);
      assert (|bins| - 1) * target == (|bins[1..]| - 1) * target + target;
    }
  }

  lemma {:induction false} TotalSizeIsFlatSize(bins: seq<Bin>)
    ensures TotalSize(bins) == Size(Flatten(bins))
  {
    if bins != [] {
      TotalSizeIsFlatSize(bins[1..]);
      ContentAppend(bins[0], Flatten(bins[1..]));
    }
  }

  /** With `t = max(target, 1)` and `T` the deduplicated content: every pack holds at most `t` bytes of
      content unless it holds one blob, neighbours together hold more than `t`, and `(packs - 1) * t <= 2T`. */
  lemma NextFitGuarantee(order: seq<Item>, targetPackSize: nat, draws: Draws)
    ensures var t, bins := Max(targetPackSize, 1), Bins(order, targetPackSize);
      && (forall bin :: bin in bins ==> Fits(bin, t))
      && PairsExceed(bins, t)
      && (|PackAll(order, targetPackSize, draws).packs| - 1) * t <= 2 * Size(Dedup(order, {}))
  {
    hide NextFit, Dedup, Size, PairsExceed;
    var t, bins, kept := Max(targetPackSize, 1), Bins(order, targetPackSize), Dedup(order, {});
    EmptyBinFits(t);
    NextFitRespectsTarget([], kept, t);
    NeighboursExceedTarget([], kept, t);
    BinsKeepItems(order, targetPackSize);
    TotalSizeIsFlatSize(bins);
    var packs := |PackAll(order, targetPackSize, draws).packs|;
    if bins != [] {
      PairsBoundCount(bins, t);
      MulMonotone(packs, |bins|, t);
    }
  }

  lemma EmptyBinFits(target: nat)
    ensures Fits([], target)
  {
  }

  // ----- The pack that is never uploaded

  /** Size of the last non-empty blob; 0 if there is none. */
  function LastNonEmptySize(items: seq<Item>): nat {
    if items == [] then 0
    else
      var last := items[|items| - 1];
      if last.blob != [] then |last.blob| else LastNonEmptySize(items[..|items| - 1])
  }

  /** The batch ends with an empty blob that has no open pack to join: nothing before it held
      bytes, or the last blob that did is larger than the target and filled its pack alone. */
  predicate LosesLastPack(items: seq<Item>, target: nat) {
    && items != []
    && items[|items| - 1].blob == []
    && (LastNonEmptySize(items) == 0 || LastNonEmptySize(items) > target)
  }

  ghost predicate OpenBinSummary(done: seq<Item>, open: Bin, target: nat) {
    && done != [] && open != []
    && (Size(open) == 0 <==> LosesLastPack(done, target))
    && (Size(open) > target ==> LastNonEmptySize(done) > target)
    && (0 < Size(open) <= target ==> 0 < LastNonEmptySize(done) <= target)
  }

  lemma NextFitUnfold(open: Bin, items: seq<Item>, x: Item, more: seq<Item>, target: nat)
    requires items != [] && x == items[0] && more == items[1..]
    ensures |more| < |items|
    ensures Size(open) > 0 && Size(open) + |x.blob| > target ==>
      NextFit(open, items, target) == [open] + NextFit([x], more, target)
    ensures !(Size(open) > 0 && Size(open) + |x.blob| > target) ==>
      NextFit(open, items, target) == NextFit(open + [x], more, target)
  {
  }

  predicate LastEmptyIffLost(bins: seq<Bin>, all: seq<Item>, target: nat) {
    bins != [] && (Size(bins[|bins| - 1]) == 0 <==> LosesLastPack(all, target))
  }

  lemma LastEmptyCons(open: Bin, rest: seq<Bin>, all: seq<Item>, target: nat)
    requires LastEmptyIffLost(rest, all, target)
    ensures LastEmptyIffLost([open] + rest, all, target)
  {
    hide Size, LosesLastPack;
    assert ([open] + rest)[|rest|] == rest[|rest| - 1];
  }

  lemma SummaryStep(done: seq<Item>, open: Bin, x: Item, target: nat)
    requires OpenBinSummary(done, open, target)
    ensures Size(open) > 0 && Size(open) + |x.blob| > target ==> OpenBinSummary(done + [x], [x], target)
    ensures !(Size(open) > 0 && Size(open) + |x.blob| > target) ==> OpenBinSummary(done + [x], open + [x], target)
  {
    LastNonEmptySizeSnoc(done, x);
    ContentSnoc(open, x);
    SingletonFits(x, target);
    hide Size, LastNonEmptySize, Fits;
  }

  lemma {:induction false} LastBinIsEmptyIff(done: seq<Item>, open: Bin, items: seq<Item>, target: nat)
    requires OpenBinSummary(done, open, target)
    ensures LastEmptyIffLost(NextFit(open, items, target), done + items, target)
    decreases |items|
  {
    if items == [] {
      assert done + items == done;
    } else {
      hide *;
      var x, more := items[0], items[1..];
      NextFitUnfold(open, items, x, more, target);
      SummaryStep(done, open, x, target);
      assert done + [x] + more == done + items;
      if Size(open) > 0 && Size(open) + |x.blob| > target {
        LastBinIsEmptyIff(done + [x], [x], more, target);
        LastEmptyCons(open, NextFit([x], more, target), done + items, target);
      } else {
        LastBinIsEmptyIff(done + [x], open + [x], more, target);
      }
    }
  }

  lemma LastNonEmptySizeSnoc(items: seq<Item>, x: Item)
    ensures LastNonEmptySize(items + [x]) == if x.blob != [] then |x.blob| else LastNonEmptySize(items)
  {
    assert (items + [x])[..|items|] == items;
  }

  /** The last pack of a batch is dropped, though the index names it, exactly when the deduplicated
      order ends like that; in particular never when all blobs are non-empty. */
  lemma LastPackIsLostIff(order: seq<Item>, targetPackSize: nat)
    ensures var bins := Bins(order, targetPackSize);
      |Emitted(bins)| < |bins| <==> LosesLastPack(Dedup(order, {}), Max(targetPackSize, 1))
  {
    var kept, target := Dedup(order, {}), Max(targetPackSize, 1);
    if kept != [] {
      var x, more := kept[0], kept[1..];
      assert kept == [x] + more;
      NextFitStep([], x, more, target);
      assert [] + [x] == [x];
      SingletonFits(x, target);
      LastNonEmptySizeSnoc([], x);
      assert [x][..0] == [];
      LastBinIsEmptyIff([x], [x], more, target);
    }
  }

  predicate EndsInBytes(bin: Bin) {
    bin != [] && bin[|bin| - 1].blob != []
  }

  /** If the last bin holds no bytes, the bin before it ends in a blob that does. */
  predicate EmptyLastFollowsBytes(bins: seq<Bin>) {
    |bins| >= 2 && Size(bins[|bins| - 1]) == 0 ==> EndsInBytes(bins[|bins| - 2])
  }

  lemma EmptyLastCons(open: Bin, rest: seq<Bin>)
    requires rest != [] && EmptyLastFollowsBytes(rest)
    requires Size(rest[0]) == 0 ==> EndsInBytes(open)
    ensures EmptyLastFollowsBytes([open] + rest)
  {
    hide Size, EndsInBytes;
    var bins := [open] + rest;
    assert bins[|bins| - 1] == rest[|rest| - 1];
    assert bins[|bins| - 2] == if |rest| == 1 then open else rest[|rest| - 2];
  }

  lemma EndsInSnoc(open: Bin, x: Item)
    ensures EndsInBytes(open + [x]) <==> x.blob != []
    ensures EndsInBytes([x]) <==> x.blob != []
  {
  }

  /** A bin that an empty blob did not join ends in the blob that overfilled it. */
  lemma {:induction false} BeforeEmptyBin(open: Bin, items: seq<Item>, target: nat)
    requires open != [] && (Size(open) > target ==> EndsInBytes(open))
    ensures EmptyLastFollowsBytes(NextFit(open, items, target))
    decreases |items|
  {
    if items != [] {
      hide *;
      var x, more := items[0], items[1..];
      NextFitUnfold(open, items, x, more, target);
      EndsInSnoc(open, x);
      if Size(open) > 0 && Size(open) + |x.blob| > target {
        SingletonFits(x, target);
        OpenBinComesFirst([x], more, target);
        BeforeEmptyBin([x], more, target);
        EmptyLastCons(open, NextFit([x], more, target));
      } else {
        ContentSnoc(open, x);
        BeforeEmptyBin(open + [x], more, target);
      }
    }
  }

  /** When the last pack is lost, its entries are those after the last blob that holds bytes. */
  lemma LostEntriesAre(order: seq<Item>, targetPackSize: nat, k: nat)
    requires k < |Dedup(order, {})|
    requires LosesLastPack(Dedup(order, {}), Max(targetPackSize, 1))
    ensures var bins, kept := Bins(order, targetPackSize), Dedup(order, {});
      && bins != []
      && (k >= |Flatten(bins[..|bins| - 1])| <==> forall j :: k <= j < |kept| ==> kept[j].blob == [])
  {
    hide Dedup, NextFit, LosesLastPack, Flatten;
    var bins, kept := Bins(order, targetPackSize), Dedup(order, {});
    LastPackIsLostIff(order, targetPackSize);
    BinsKeepItems(order, targetPackSize);
    var init, last := bins[..|bins| - 1], bins[|bins| - 1];
    FlattenLast(bins);
    forall j | 0 <= j < |last|
      ensures last[j].blob == []
    {
      LostBinIsEmpty(bins, |bins| - 1, j);
    }
    if k < |Flatten(init)| {
      if init == [] {
        FlattenNone<Item>();
      } else {
        FlattenLast(init);
        BinBeforeLostEndsInBytes(kept, Max(targetPackSize, 1));
        assert kept[|Flatten(init)| - 1] == init[|init| - 1][|init[|init| - 1]| - 1];
      }
    } else {
      forall j | k <= j < |kept|
        ensures kept[j].blob == []
      {
        assert kept[j] == last[j - |Flatten(init)|];
      }
    }
  }

  lemma FlattenLast<T>(parts: seq<seq<T>>)
    requires parts != []
    ensures Flatten(parts) == Flatten(parts[..|parts| - 1]) + parts[|parts| - 1]
  {
    var last := parts[|parts| - 1];
    assert parts == parts[..|parts| - 1] + [last];
    FlattenAppend(parts[..|parts| - 1], [last]);
    assert [last][1..] == [];
  }

  lemma FlattenNone<T>()
    ensures Flatten<T>([]) == []
  {
  }

  lemma BinBeforeLostEndsInBytes(kept: seq<Item>, target: nat)
    ensures EmptyLastFollowsBytes(NextFit([], kept, target))
  {
    if kept != [] {
      hide EmptyLastFollowsBytes;
      var x, more := kept[0], kept[1..];
      NextFitUnfold([], kept, x, more, target);
      assert [] + [x] == [x] && Size([]) == 0;
      SingletonFits(x, target);
      BeforeEmptyBin([x], more, target);
    }
  }

  // ----- Reading back

  datatype SliceError = EndOverflows | OutOfBounds

  /** `slice_chunk` */
  function SliceChunk(pack: Bytes, loc: PackLocation): Result<Bytes, SliceError> {
    var end := loc.offset + loc.length;
    if end >= W64 then Err(EndOverflows)
    else if end > |pack| then Err(OutOfBounds)
    else Ok(pack[loc.offset..end])
  }

  /** A location is honoured in full or refused: never a short read, never one past the end. */
  lemma SliceChunkIs(pack: Bytes, loc: PackLocation)
    ensures SliceChunk(pack, loc).Ok? <==> loc.offset + loc.length <= |pack| && loc.offset + loc.length < W64
    ensures var r := SliceChunk(pack, loc);
      r.Ok? ==> |r.value| == loc.length && forall i :: 0 <= i < loc.length ==> r.value[i] == pack[loc.offset + i]
    ensures loc.offset + loc.length >= W64 ==> SliceChunk(pack, loc) == Err(EndOverflows)
    ensures |pack| < loc.offset + loc.length < W64 ==> SliceChunk(pack, loc) == Err(OutOfBounds)
  {
  }

  function FindPack(packs: seq<BuiltPack>, id: string): Option<BuiltPack> {
    if packs == [] then None
    else if packs[0].packId == id then Some(packs[0])
    else FindPack(packs[1..], id)
  }

  lemma {:induction false} FindPackAt(packs: seq<BuiltPack>, i: nat)
    requires i < |packs|
    requires forall j :: 0 <= j < i ==> packs[j].packId != packs[i].packId
    ensures FindPack(packs, packs[i].packId) == Some(packs[i])
  {
    if i > 0 {
      assert packs[0].packId != packs[i].packId;
      assert forall j :: 0 <= j < i - 1 ==> packs[1..][j] == packs[j + 1];
      FindPackAt(packs[1..], i - 1);
    }
  }

  lemma {:induction false} FindPackNone(packs: seq<BuiltPack>, id: string)
    requires forall j :: 0 <= j < |packs| ==> packs[j].packId != id
    ensures FindPack(packs, id) == None
  {
    if packs != [] {
      assert packs[0].packId != id;
      FindPackNone(packs[1..], id);
    }
  }

  lemma ContentAt(bin: Bin, j: nat)
    requires j < |bin|
    ensures Size(bin[..j]) + |bin[j].blob| <= Size(bin)
    ensures |Content(bin)| == Size(bin)
    ensures Content(bin)[Size(bin[..j])..Size(bin[..j]) + |bin[j].blob|] == bin[j].blob
  {
    var before, x, after := bin[..j], bin[j], bin[j + 1..];
    assert bin == before + [x] + after;
    ContentSnoc(before, x);
    ContentAppend(before + [x], after);
    SizeIsLength(before);
    SizeIsLength(bin);
  }

  /** Cutting a blob's location out of its padded pack yields the blob, if its length survived the
      cast to 32 bits; otherwise it yields something shorter. */
  lemma SliceOfPadded(bin: Bin, j: nat, id: string, noise: nat -> Byte)
    requires j < |bin| && Size(bin) < W64
    ensures var blob := bin[j].blob;
      var loc := PackLocation(id, Size(bin[..j]), |blob| % W32);
      SliceChunk(Padded(Content(bin), DefaultLadder, noise), loc) == Ok(blob) <==> |blob| < W32
  {
    ContentAt(bin, j);
    SizeIsLength(bin);
    var content, blob := Content(bin), bin[j].blob;
    var padded := Padded(content, DefaultLadder, noise);
    var start, length := Size(bin[..j]), |blob| % W32;
    assert length <= |blob|;
    assert padded[start..start + length] == content[start..start + length];
  }

  /** Round trip, for every permutation of the batch and every draw of distinct ids: an index entry names
      an uploaded pack, and slicing it there yields the entry's blob despite the padding. It fails for
      exactly two kinds of entry: those of a lost last pack, which are the ones with no bytes at or after
      them, and blobs of 4 GiB or more. */
  lemma PackRoundTrip(order: seq<Item>, targetPackSize: nat, draws: Draws, k: nat)
    requires Size(order) < W64
    requires draws.DistinctIds(|Bins(order, targetPackSize)|)
    requires k < |Dedup(order, {})|
    ensures k < |PackAll(order, targetPackSize, draws).index|
    ensures var PackSet(packs, index) := PackAll(order, targetPackSize, draws);
      var kept := Dedup(order, {});
      var item, found := kept[k], FindPack(packs, index[k].loc.packId);
      && index[k].name == item.name && index[k].loc.length == |item.blob| % W32
      && (found.None? <==>
            LosesLastPack(kept, Max(targetPackSize, 1)) && forall j :: k <= j < |kept| ==> kept[j].blob == [])
      && (found.Some? ==> (SliceChunk(found.value.bytes, index[k].loc) == Ok(item.blob) <==> |item.blob| < W32))
  {
    hide NextFit, Dedup, Index, Locations, Size, Content, Padded, FindPack, SliceChunk, LosesLastPack, Flatten;
    var bins := Bins(order, targetPackSize);
    BinsKeepItems(order, targetPackSize);
    var i, j := EntryCoordinates(bins, draws, 0, k);
    LastPackIsLostIff(order, targetPackSize);
    FindPackOfBin(bins, draws, i);
    if LosesLastPack(Dedup(order, {}), Max(targetPackSize, 1)) {
      LostEntriesAre(order, targetPackSize, k);
    }
    if i < |Emitted(bins)| {
      BinFitsMemory(order, targetPackSize, i);
      SliceOfPadded(bins[i], j, draws.ids(i), draws.Filler(i));
    }
  }

  /** Every name in the index resolves into an uploaded pack exactly when the batch does not lose its last
      pack; so always, if every blob holds bytes. */
  lemma EveryNameResolvesIff(order: seq<Item>, targetPackSize: nat, draws: Draws)
    requires Size(order) < W64
    requires draws.DistinctIds(|Bins(order, targetPackSize)|)
    ensures var PackSet(packs, index) := PackAll(order, targetPackSize, draws);
      (forall k :: 0 <= k < |index| ==> FindPack(packs, index[k].loc.packId).Some?)
        <==> !LosesLastPack(Dedup(order, {}), Max(targetPackSize, 1))
  {
    hide PackAll, Dedup, Bins, FindPack, SliceChunk, Size;
    var PackSet(packs, index) := PackAll(order, targetPackSize, draws);
    var kept := Dedup(order, {});
    IndexNamesInput(order, targetPackSize, draws);
    forall k | 0 <= k < |index|
      ensures FindPack(packs, index[k].loc.packId).None? <==>
        LosesLastPack(kept, Max(targetPackSize, 1)) && forall j :: k <= j < |kept| ==> kept[j].blob == []
    {
      PackRoundTrip(order, targetPackSize, draws, k);
    }
    if LosesLastPack(kept, Max(targetPackSize, 1)) {
      assert FindPack(packs, index[|kept| - 1].loc.packId).None?;
    }
  }

  const LosingBatch := [Item("a", [7, 7]), Item("b", [])]

  lemma LosingBatchBins()
    ensures Dedup(LosingBatch, {}) == LosingBatch
    ensures Bins(LosingBatch, 1) == [[LosingBatch[0]], [LosingBatch[1]]]
    ensures Emitted(Bins(LosingBatch, 1)) == [[LosingBatch[0]]]
  {
    var a, b := LosingBatch[0], LosingBatch[1];
    var none: set<string> := {};
    assert LosingBatch[1..] == [b] && [b][1..] == [] && [] + [a] == [a];
    assert none + {"a"} == {"a"} && Dedup([b], {"a"}) == [b];
    DedupStep(LosingBatch, none);
    assert Dedup(LosingBatch, none) == [a] + [b];
    assert Size([b]) == 0 && Size([a]) == 2;
    assert NextFit([b], [], 1) == [[b]];
    assert NextFit([a], [b], 1) == [[a], [b]];
  }

  /** A batch that loses a pack: an oversized blob, then an empty one. Two names are indexed, one pack is
      uploaded, and the second name resolves nowhere. */
  lemma TrailingEmptyBlobIsLost(draws: Draws)
    requires draws.DistinctIds(2)
    ensures var PackSet(packs, index) := PackAll([Item("a", [7, 7]), Item("b", [])], 1, draws);
      && |index| == 2 && index[1].name == "b" && |packs| == 1
      && FindPack(packs, index[1].loc.packId).None?
  {
    LosingBatchBins();
    assert LosingBatch == [Item("a", [7, 7]), Item("b", [])] && Size(LosingBatch) < W64;
    hide PadLadder.StepFor, Padded, Bins, Dedup, NextFit, Size, FindPack, LosingBatch;
    IndexNamesInput(LosingBatch, 1, draws);
    PackRoundTrip(LosingBatch, 1, draws, 1);
    LastPackIsLostIff(LosingBatch, 1);
  }

  lemma FindPackOfBin(bins: seq<Bin>, draws: Draws, i: nat)
    requires i < |bins| && draws.DistinctIds(|bins|)
    ensures FindPack(Packs(Emitted(bins), draws), draws.ids(i))
         == if i < |Emitted(bins)| then Some(PackOf(bins[i], draws, i)) else None
  {
    hide FindPack, Padded;
    var packs := Packs(Emitted(bins), draws);
    if i < |packs| {
      FindPackAt(packs, i);
    } else {
      FindPackNone(packs, draws.ids(i));
    }
  }

  lemma LostBinIsEmpty(bins: seq<Bin>, i: nat, j: nat)
    requires i < |bins| && j < |bins[i]| && i >= |Emitted(bins)|
    ensures bins[i][j].blob == []
  {
    ContentAt(bins[i], j);
  }

  lemma BinFitsMemory(order: seq<Item>, targetPackSize: nat, i: nat)
    requires Size(order) < W64 && i < |Bins(order, targetPackSize)|
    ensures Size(Bins(order, targetPackSize)[i]) < W64
  {
    var bins, kept := Bins(order, targetPackSize), Dedup(order, {});
    BinsKeepItems(order, targetPackSize);
    TotalSizeIsFlatSize(bins);
    DedupKeepsItems(order, {});
    BinWithinTotal(bins, i);
  }

  lemma {:induction false} BinWithinTotal(bins: seq<Bin>, i: nat)
    requires i < |bins|
    ensures Size(bins[i]) <= TotalSize(bins)
  {
    if i > 0 {
      BinWithinTotal(bins[1..], i - 1);
    }
  }

  // ----- Batches some shuffle of which loses a pack

  function Filter(items: seq<Item>, keep: Item -> bool): (r: seq<Item>)
    ensures forall x :: x in r <==> x in items && keep(x)
  {
    if items == [] then [] else (if keep(items[0]) then [items[0]] else []) + Filter(items[1..], keep)
  }

  lemma {:induction false} FilterSplits(items: seq<Item>, keep: Item -> bool)
    ensures multiset(Filter(items, keep)) + multiset(Filter(items, x => !keep(x))) == multiset(items)
  {
    if items != [] {
      FilterSplits(items[1..], keep);
      assert items == [items[0]] + items[1..];
    }
  }

  lemma {:induction false} DedupAppend(a: seq<Item>, b: seq<Item>, seen: set<string>)
    ensures Dedup(a + b, seen) == Dedup(a, seen) + Dedup(b, seen + NameSet(a))
    decreases |a|
  {
    if a == [] {
      assert a + b == b && seen + NameSet(a) == seen;
    } else {
      var x, rest := a[0], a[1..];
      assert a == [x] + rest && (a + b)[1..] == rest + b;
      DedupStep(a + b, seen);
      DedupStep(a, seen);
      NameSetCons(x, rest);
      var seen' := seen + {x.name};
      if x.name in seen {
        DedupAppend(rest, b, seen);
        assert seen + NameSet(rest) == seen + NameSet(a);
      } else {
        DedupAppend(rest, b, seen');
        assert seen' + NameSet(rest) == seen + NameSet(a);
        ConcatAssociative([x], Dedup(rest, seen'), Dedup(b, seen + NameSet(a)));
      }
    }
  }

  lemma {:induction false} DedupOfSeen(items: seq<Item>, seen: set<string>)
    requires NameSet(items) <= seen
    ensures Dedup(items, seen) == []
  {
    if items != [] {
      assert items == [items[0]] + items[1..];
      NameSetCons(items[0], items[1..]);
      DedupOfSeen(items[1..], seen);
    }
  }

  predicate HasEmpty(items: seq<Item>, name: string) {
    exists x :: x in items && x.name == name && x.blob == []
  }

  predicate HasLarger(items: seq<Item>, other: string, target: nat) {
    exists x :: x in items && x.name != other && |x.blob| > target
  }

  /** An empty blob to come last, and nothing for it to join: either every name can be packed as an empty
      blob, or a blob of another name can fill the pack before it. */
  predicate CanLose(items: seq<Item>, target: nat) {
    exists e :: e in items && e.blob == []
      && ((forall x :: x in items ==> HasEmpty(items, x.name)) || HasLarger(items, e.name, target))
  }

  ghost predicate LosesUnder(items: seq<Item>, order: seq<Item>, target: nat) {
    multiset(order) == multiset(items) && LosesLastPack(Dedup(order, {}), target)
  }

  lemma SameItems(a: seq<Item>, b: seq<Item>)
    requires multiset(a) == multiset(b)
    ensures forall x :: x in a <==> x in b
  {
    assert forall x :: x in a <==> x in multiset(a);
  }

  lemma {:induction false} LastNonEmptyIs(items: seq<Item>)
    ensures LastNonEmptySize(items) == 0 <==> forall x :: x in items ==> x.blob == []
    ensures LastNonEmptySize(items) > 0 ==> exists x :: x in items && |x.blob| == LastNonEmptySize(items)
    decreases |items|
  {
    if items != [] {
      var init, last := items[..|items| - 1], items[|items| - 1];
      assert items == init + [last];
      LastNonEmptyIs(init);
    }
  }

  /** An order that loses a pack exhibits what the batch needs. */
  lemma LosingOrderShows(items: seq<Item>, order: seq<Item>, target: nat)
    requires LosesUnder(items, order, target)
    ensures CanLose(items, target)
  {
    hide LosesLastPack, LastNonEmptySize, Dedup, HasEmpty, HasLarger;
    var kept := Dedup(order, {});
    SameItems(order, items);
    DedupKeepsItems(order, {});
    DedupKeepsNames(order, {});
    LastNonEmptyIs(kept);
    LosingShape(kept, target);
    var e := kept[|kept| - 1];
    assert e in kept && e in items;
    if LastNonEmptySize(kept) == 0 {
      forall x | x in items
        ensures HasEmpty(items, x.name)
      {
        assert x in order && x.name in NameSet(order);
        assert x.name in NameSet(kept);
        var y :| y in kept && y.name == x.name;
        HasEmptyBy(items, y);
      }
    } else {
      var x :| x in kept && |x.blob| == LastNonEmptySize(kept);
      var i :| 0 <= i < |kept| && kept[i] == x;
      HasLargerBy(items, x, e.name, target);
    }
  }

  lemma HasEmptyBy(items: seq<Item>, y: Item)
    requires y in items && y.blob == []
    ensures HasEmpty(items, y.name)
  {
  }

  lemma HasLargerBy(items: seq<Item>, x: Item, other: string, target: nat)
    requires x in items && x.name != other && |x.blob| > target
    ensures HasLarger(items, other, target)
  {
  }

  lemma LosingShape(kept: seq<Item>, target: nat)
    requires LosesLastPack(kept, target)
    ensures kept != [] && kept[|kept| - 1].blob == []
    ensures LastNonEmptySize(kept) == 0 || LastNonEmptySize(kept) > target
  {
  }

  /** Empty blobs first: then every name is packed as an empty blob. */
  lemma EmptiesFirstLoses(items: seq<Item>, target: nat) returns (order: seq<Item>)
    requires items != [] && forall x :: x in items ==> HasEmpty(items, x.name)
    ensures LosesUnder(items, order, target)
  {
    var isEmpty := (x: Item) => x.blob == [];
    var empties, others := Filter(items, isEmpty), Filter(items, x => !isEmpty(x));
    FilterSplits(items, isEmpty);
    order := empties + others;
    hide LosesLastPack, Dedup, HasEmpty, Filter;
    DedupAppend(empties, others, {});
    var none: set<string> := {};
    forall name | name in NameSet(others)
      ensures name in none + NameSet(empties)
    {
      var x :| x in others && x.name == name;
      assert HasEmpty(items, x.name);
      EmptyOfName(items, empties, name);
    }
    DedupOfSeen(others, none + NameSet(empties));
    assert Dedup(order, none) == Dedup(empties, none) + [];
    var kept := Dedup(empties, {});
    DedupKeepsItems(empties, {});
    DedupKeepsNames(empties, {});
    LastNonEmptyIs(kept);
    assert items[0] in items && HasEmpty(items, items[0].name);
    EmptyOfName(items, empties, items[0].name);
    assert items[0].name in NameSet(kept);
    assert kept != [] && kept[|kept| - 1] in kept;
    AllEmptyLoses(kept, target);
    assert Dedup(order, {}) == kept;
    assert multiset(order) == multiset(items);
  }

  lemma EmptyOfName(items: seq<Item>, empties: seq<Item>, name: string)
    requires HasEmpty(items, name) && forall x :: x in items && x.blob == [] ==> x in empties
    ensures name in NameSet(empties)
  {
  }

  lemma AllEmptyLoses(kept: seq<Item>, target: nat)
    requires kept != [] && kept[|kept| - 1].blob == [] && LastNonEmptySize(kept) == 0
    ensures LosesLastPack(kept, target)
  {
  }

  /** Take an item out of a sequence. */
  lemma TakeOut(items: seq<Item>, x: Item) returns (rest: seq<Item>)
    requires x in items
    ensures multiset(items) == multiset(rest) + multiset{x}
    ensures forall y :: y in rest ==> y in items
    ensures forall y :: y in items && y != x ==> y in rest
  {
    var i :| 0 <= i < |items| && items[i] == x;
    rest := items[..i] + items[i + 1..];
    assert items == items[..i] + [x] + items[i + 1..];
  }

  /** The larger blob, then the empty one, after everything of other names. */
  lemma LargerThenEmptyLoses(items: seq<Item>, e: Item, x: Item, target: nat) returns (order: seq<Item>)
    requires e in items && e.blob == [] && x in items && x.name != e.name && |x.blob| > target
    ensures LosesUnder(items, order, target)
  {
    var far := (y: Item) => y.name != e.name && y.name != x.name;
    var others, near := Filter(items, far), Filter(items, y => !far(y));
    FilterSplits(items, far);
    var near' := TakeOut(near, x);
    var rest := TakeOut(near', e);
    order := others + [x, e] + rest;
    hide Filter, Dedup, LosesLastPack;
    PairShuffle(items, others, near, near', rest, x, e);
    forall y | y in rest
      ensures y.name == e.name || y.name == x.name
    {
      assert y in near' && y in near;
    }
    KeptEndsInPair(others, x, e, rest);
    PairLoses(Dedup(others, {}), x, e, target);
  }

  lemma PairShuffle(items: seq<Item>, others: seq<Item>, near: seq<Item>, near': seq<Item>, rest: seq<Item>,
                    x: Item, e: Item)
    requires multiset(others) + multiset(near) == multiset(items)
    requires multiset(near) == multiset(near') + multiset{x} && multiset(near') == multiset(rest) + multiset{e}
    ensures multiset(others + [x, e] + rest) == multiset(items)
  {
    assert multiset([x, e]) == multiset{x} + multiset{e};
  }

  lemma KeptEndsInPair(others: seq<Item>, x: Item, e: Item, rest: seq<Item>)
    requires x.name != e.name
    requires forall y :: y in others ==> y.name != e.name && y.name != x.name
    requires forall y :: y in rest ==> y.name == e.name || y.name == x.name
    ensures Dedup(others + [x, e] + rest, {}) == Dedup(others, {}) + [x, e]
  {
    var none: set<string> := {};
    var before := NameSet(others);
    assert x.name !in before && e.name !in before;
    DedupAppend(others + [x, e], rest, none);
    DedupAppend(others, [x, e], none);
    assert none + before == before;
    var after := none + NameSet(others + [x, e]);
    assert x in others + [x, e] && e in others + [x, e];
    assert NameSet(rest) <= after;
    DedupOfSeen(rest, after);
    DedupStep([x, e], before);
    assert [x, e][1..] == [e];
    DedupStep([e], before + {x.name});
    assert [e][1..] == [];
    assert Dedup([x, e], before) == [x] + ([e] + []);
  }

  lemma PairLoses(kept: seq<Item>, x: Item, e: Item, target: nat)
    requires e.blob == [] && |x.blob| > target
    ensures LosesLastPack(kept + [x, e], target)
  {
    assert kept + [x, e] == kept + [x] + [e];
    LastNonEmptySizeSnoc(kept + [x], e);
    LastNonEmptySizeSnoc(kept, x);
  }

  /** For a batch rather than an order: some shuffle of it loses the last pack exactly when the batch can
      lose one; so never, if every blob holds bytes. */
  lemma SomeShuffleLosesIff(items: seq<Item>, target: nat)
    ensures (exists order :: LosesUnder(items, order, target)) <==> CanLose(items, target)
  {
    hide LosesUnder, HasEmpty;
    if order :| LosesUnder(items, order, target) {
      LosingOrderShows(items, order, target);
    }
    if CanLose(items, target) {
      var e :| e in items && e.blob == []
        && ((forall x :: x in items ==> HasEmpty(items, x.name)) || HasLarger(items, e.name, target));
      if forall x :: x in items ==> HasEmpty(items, x.name) {
        var order := EmptiesFirstLoses(items, target);
      } else {
        var x :| x in items && x.name != e.name && |x.blob| > target;
        var order := LargerThenEmptyLoses(items, e, x, target);
      }
    }
  }

  // ----- A pack's entries tile it

  function EntriesIn(index: seq<IndexEntry>, id: string): seq<IndexEntry> {
    if index == [] then []
    else (if index[0].loc.packId == id then [index[0]] else []) + EntriesIn(index[1..], id)
  }

  /** Each entry starts where the one before it ends, the first at `start` and the last ending at `end`. */
  predicate Contiguous(entries: seq<IndexEntry>, start: nat, end: nat) {
    if entries == [] then start == end
    else
      entries[0].loc.offset == start && Contiguous(entries[1..], start + entries[0].loc.length, end)
  }

  lemma {:induction false} EntriesInAppend(a: seq<IndexEntry>, b: seq<IndexEntry>, id: string)
    ensures EntriesIn(a + b, id) == EntriesIn(a, id) + EntriesIn(b, id)
  {
    if a == [] {
      assert a + b == b;
    } else {
      EntriesInAppend(a[1..], b, id);
      assert (a + b)[1..] == a[1..] + b;
      ConcatAssociative(if a[0].loc.packId == id then [a[0]] else [], EntriesIn(a[1..], id), EntriesIn(b, id));
    }
  }

  lemma {:induction false} EntriesInLocations(bin: Bin, id: string, offset: nat, other: string)
    ensures EntriesIn(Locations(bin, id, offset), other) == if other == id then Locations(bin, id, offset) else []
  {
    if bin != [] {
      var next := offset + |bin[0].blob|;
      EntriesInLocations(bin[1..], id, next, other);
      var all := Locations(bin, id, offset);
      assert all[1..] == Locations(bin[1..], id, next);
      assert all == [all[0]] + all[1..];
    }
  }

  lemma {:induction false} LocationsContiguous(bin: Bin, id: string, start: nat, end: nat)
    requires end == start + Size(bin)
    requires forall x :: x in bin ==> |x.blob| < W32
    ensures Contiguous(Locations(bin, id, start), start, end)
  {
    if bin != [] {
      assert bin[0] in bin;
      var next := start + |bin[0].blob|;
      LocationsContiguous(bin[1..], id, next, end);
      assert Locations(bin, id, start)[1..] == Locations(bin[1..], id, next);
    }
  }

  lemma EntriesInStep(bins: seq<Bin>, draws: Draws, base: nat, next: nat, i: nat, n: nat)
    requires bins != [] && next == base + 1 && draws.DistinctIds(n) && base < n && i < n
    ensures EntriesIn(Index(bins, draws, base), draws.ids(i))
         == (if i == base then Locations(bins[0], draws.ids(i), 0) else [])
            + EntriesIn(Index(bins[1..], draws, next), draws.ids(i))
  {
    hide EntriesIn, Locations;
    EntriesInAppend(Locations(bins[0], draws.ids(base), 0), Index(bins[1..], draws, next), draws.ids(i));
    EntriesInLocations(bins[0], draws.ids(base), 0, draws.ids(i));
  }

  lemma {:induction false} NoEntriesElsewhere(bins: seq<Bin>, draws: Draws, base: nat, i: nat, n: nat)
    requires base + |bins| <= n && draws.DistinctIds(n) && i < n
    requires i < base || i >= base + |bins|
    ensures EntriesIn(Index(bins, draws, base), draws.ids(i)) == []
    decreases |bins|
  {
    if bins != [] {
      hide EntriesIn, Locations, Draws.DistinctIds;
      var next := base + 1;
      EntriesInStep(bins, draws, base, next, i, n);
      NoEntriesElsewhere(bins[1..], draws, next, i, n);
    }
  }

  lemma {:induction false} EntriesOfBin(bins: seq<Bin>, draws: Draws, base: nat, j: nat, i: nat, n: nat)
    requires base + |bins| <= n && draws.DistinctIds(n) && j < |bins| && i == base + j
    ensures EntriesIn(Index(bins, draws, base), draws.ids(i)) == Locations(bins[j], draws.ids(i), 0)
    decreases |bins|
  {
    hide EntriesIn, Locations, Index, Draws.DistinctIds;
    var next := base + 1;
    EntriesInStep(bins, draws, base, next, i, n);
    if j == 0 {
      NoEntriesElsewhere(bins[1..], draws, next, i, n);
    } else {
      var j' := j - 1;
      EntriesOfBin(bins[1..], draws, next, j', i, n);
      assert bins[1..][j'] == bins[j];
    }
  }

  /** The entries of each uploaded pack run contiguously from 0 over its content, in index order; what
      follows is filler up to the ladder step. */
  lemma EntriesTilePack(order: seq<Item>, targetPackSize: nat, draws: Draws, i: nat)
    requires draws.DistinctIds(|Bins(order, targetPackSize)|)
    requires forall x :: x in order ==> |x.blob| < W32
    requires i < |PackAll(order, targetPackSize, draws).packs|
    ensures var PackSet(packs, index) := PackAll(order, targetPackSize, draws);
      var content := Content(Bins(order, targetPackSize)[i]);
      && Contiguous(EntriesIn(index, packs[i].packId), 0, |content|)
      && content <= packs[i].bytes
      && |packs[i].bytes| == DefaultLadder.StepFor(|content|)
  {
    var bins, kept := Bins(order, targetPackSize), Dedup(order, {});
    EntriesOfBin(bins, draws, 0, i, i, |bins|);
    SizeIsLength(bins[i]);
    forall x: Item | x in bins[i]
      ensures |x.blob| < W32
    {
      BinsKeepItems(order, targetPackSize);
      BinItemIsFlat(bins, i, x);
      DedupKeepsItems(order, {});
    }
    LocationsContiguous(bins[i], draws.ids(i), 0, Size(bins[i]));
  }

  lemma {:induction false} BinItemIsFlat(bins: seq<Bin>, i: nat, x: Item)
    requires i < |bins| && x in bins[i]
    ensures x in Flatten(bins)
  {
    if i > 0 {
      BinItemIsFlat(bins[1..], i - 1, x);
    }
  }
}
