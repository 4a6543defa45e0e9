/** Packing sealed chunk blobs into padded storage objects (vault-core/src/pack.rs,
    `pack_chunks` and `slice_chunk`). */
module Packing {
  import opened Words
  import opened Wrappers
  import opened Padding

  /** A chunk name and its sealed blob. */
  datatype Item = Item(name: string, blob: Bytes)

  datatype PackLocation = PackLocation(packId: string, offset: nat, length: u32)

  datatype IndexEntry = IndexEntry(name: string, loc: PackLocation)

  datatype BuiltPack = BuiltPack(packId: string, bytes: Bytes)

  datatype PackSet = PackSet(packs: seq<BuiltPack>, index: seq<IndexEntry>)

  /** The random choices of one call: the id of the `i`-th pack opened and the filler of the `i`-th pack.
      The shuffle is the order in which the items are given. */
  datatype Draws = Draws(ids: nat -> string, noise: (nat, nat) -> Byte) {
    function Filler(i: nat): nat -> Byte {
      (k: nat) => noise(i, k)
    }

    /** The first `n` ids drawn are pairwise distinct. */
    ghost predicate DistinctIds(n: nat) {
      forall i: nat, j: nat :: i < j < n ==> ids(i) != ids(j)
    }
  }

  type Bin = seq<Item>

  function Content(items: Bin): Bytes {
    if items == [] then [] else items[0].blob + Content(items[1..])
  }

  function Size(items: Bin): nat {
    if items == [] then 0 else |items[0].blob| + Size(items[1..])
  }

  function TotalSize(bins: seq<Bin>): nat {
    if bins == [] then 0 else Size(bins[0]) + TotalSize(bins[1..])
  }

  /** Each name's first item, in order, without the names already seen. */
  function Dedup(items: seq<Item>, seen: set<string>): seq<Item> {
    if items == [] then []
    else if items[0].name in seen then Dedup(items[1..], seen)
    else [items[0]] + Dedup(items[1..], seen + {items[0].name})
  }

  /** Next-fit: the open bin is closed when it holds bytes and the next blob would overflow it. */
  function NextFit(open: Bin, items: seq<Item>, target: nat): seq<Bin>
    decreases |items|
  {
    if items == [] then
      if open == [] then [] else [open]
    else if Size(open) > 0 && Size(open) + |items[0].blob| > target then
      [open] + NextFit([items[0]], items[1..], target)
    else
      NextFit(open + [items[0]], items[1..], target)
  }

  function Locations(bin: Bin, id: string, offset: nat): seq<IndexEntry> {
    if bin == [] then []
    else
      var blob := bin[0].blob;
      [IndexEntry(bin[0].name, PackLocation(id, offset, |blob| % W32))] + Locations(bin[1..], id, offset + |blob|)
  }

  function Index(bins: seq<Bin>, draws: Draws, i: nat): seq<IndexEntry> {
    if bins == [] then [] else Locations(bins[0], draws.ids(i), 0) + Index(bins[1..], draws, i + 1)
  }

  function PackOf(bin: Bin, draws: Draws, i: nat): BuiltPack {
    BuiltPack(draws.ids(i), Padded(Content(bin), DefaultLadder, draws.Filler(i)))
  }

  function Packs(bins: seq<Bin>, draws: Draws): (packs: seq<BuiltPack>)
    ensures |packs| == |bins|
  {
    seq(|bins|, i requires 0 <= i < |bins| => PackOf(bins[i], draws, i))
  }

  /** The last bin is uploaded only if it holds bytes. */
  function Emitted(bins: seq<Bin>): (emitted: seq<Bin>)
    ensures emitted <= bins
  {
    if bins != [] && Size(bins[|bins| - 1]) == 0 then bins[..|bins| - 1] else bins
  }

  function Bins(order: seq<Item>, targetPackSize: nat): seq<Bin> {
    NextFit([], Dedup(order, {}), Max(targetPackSize, 1))
  }

  function PackAll(order: seq<Item>, targetPackSize: nat, draws: Draws): PackSet {
    var bins := Bins(order, targetPackSize);
    PackSet(Packs(Emitted(bins), draws), Index(bins, draws, 0))
  }

  // ----- Appending to the specification's lists

  lemma {:induction false} SizeIsLength(items: Bin)
    ensures |Content(items)| == Size(items)
  {
    if items != [] {
      SizeIsLength(items[1..]);
    }
  }

  lemma {:induction false} ContentAppend(a: Bin, b: Bin)
    ensures Content(a + b) == Content(a) + Content(b)
    ensures Size(a + b) == Size(a) + Size(b)
  {
    if a == [] {
      assert a + b == b;
    } else {
      ContentAppend(a[1..], b);
      assert (a + b)[1..] == a[1..] + b;
      ConcatAssociative(a[0].blob, Content(a[1..]), Content(b));
    }
  }

  lemma ContentSnoc(a: Bin, x: Item)
    ensures Content(a + [x]) == Content(a) + x.blob
    ensures Size(a + [x]) == Size(a) + |x.blob|
  {
    ContentAppend(a, [x]);
    assert [x][1..] == [];
  }

  lemma {:induction false} LocationsSnoc(bin: Bin, x: Item, id: string, offset: nat, end: nat)
    requires end == offset + Size(bin)
    ensures Locations(bin + [x], id, offset)
         == Locations(bin, id, offset) + [IndexEntry(x.name, PackLocation(id, end, |x.blob| % W32))]
  {
    if bin == [] {
      assert bin + [x] == [x] && [x][1..] == [];
    } else {
      var next := offset + |bin[0].blob|;
      LocationsSnoc(bin[1..], x, id, next, end);
      assert (bin + [x])[1..] == bin[1..] + [x];
    }
  }

  lemma {:induction false} IndexSnoc(bins: seq<Bin>, bin: Bin, draws: Draws, i: nat, n: nat)
    requires n == i + |bins|
    ensures Index(bins + [bin], draws, i) == Index(bins, draws, i) + Locations(bin, draws.ids(n), 0)
  {
    if bins == [] {
      assert bins + [bin] == [bin] && [bin][1..] == [];
    } else {
      var next := i + 1;
      IndexSnoc(bins[1..], bin, draws, next, n);
      assert (bins + [bin])[1..] == bins[1..] + [bin];
      ConcatAssociative(Locations(bins[0], draws.ids(i), 0), Index(bins[1..], draws, next),
                        Locations(bin, draws.ids(n), 0));
    }
  }

  // ----- The packer

  lemma DedupStep(items: seq<Item>, seen: set<string>)
    requires items != []
    ensures Dedup(items, seen)
         == if items[0].name in seen then Dedup(items[1..], seen)
            else [items[0]] + Dedup(items[1..], seen + {items[0].name})
  {
  }

  lemma NextFitStep(open: Bin, x: Item, more: seq<Item>, target: nat)
    ensures NextFit(open, [x] + more, target)
         == if Size(open) > 0 && Size(open) + |x.blob| > target then [open] + NextFit([x], more, target)
            else NextFit(open + [x], more, target)
  {
    assert ([x] + more)[1..] == more;
  }

  /** `pack_chunks`, on the order the shuffle produced. */
  method PackChunks(order: seq<Item>, targetPackSize: nat, draws: Draws) returns (packed: PackSet)
    requires Size(order) < W64
    ensures packed == PackAll(order, targetPackSize, draws)
  {
    hide Dedup, NextFit, Packs, Index, Locations, PadLadder.StepFor, Padded;
    var target := Max(targetPackSize, 1);
    var packs: seq<BuiltPack> := [];
    var index: seq<IndexEntry> := [];
    var seen: set<string> := {};
    var curId: Option<string> := None;
    var curBytes: Bytes := [];
    var drawn := 0;
    var chunks := order;
    ghost var sealed: seq<Bin> := [];
    ghost var open: Bin := [];
    EmptyLists(draws);
    while chunks != []
      invariant sealed + NextFit(open, Dedup(chunks, seen), target) == Bins(order, targetPackSize)
      invariant open == [] ==> sealed == []
      invariant packs == Packs(sealed, draws)
      invariant drawn == |sealed| + (if curId.Some? then 1 else 0)
      invariant curId == if open == [] then None else Some(draws.ids(|sealed|))
      invariant curBytes == Content(open) && |curBytes| + Size(chunks) <= Size(order)
      invariant index == Index(sealed, draws, 0) + Locations(open, draws.ids(|sealed|), 0)
      decreases |chunks|
    {
      ghost var item := chunks[0];
      DedupStep(chunks, seen);
      var name, blob := chunks[0].name, chunks[0].blob;
      chunks := chunks[1..];
      if name in seen {
        continue;
      }
      seen := seen + {name};
      SizeIsLength(open);
      NextFitStep(open, item, Dedup(chunks, seen), target);
      if curBytes != [] && |curBytes| + |blob| > target {
        var bytes := PadPack(curBytes, DefaultLadder, draws.Filler(|packs|));
        curBytes := [];
        packs := packs + [BuiltPack(curId.value, bytes)];
        curId := None;
        SealOpenBin(sealed, open, draws);
        ConcatAssociative(sealed, [open], NextFit([item], Dedup(chunks, seen), target));
        sealed, open := sealed + [open], [];
        assert open + [item] == [item];
      }
      if curId.None? {
        curId := Some(draws.ids(drawn));
        drawn := drawn + 1;
      }
      var offset, length := |curBytes|, |blob| % W32;
      PlaceInOpenBin(open, item, draws.ids(|sealed|), offset);
      curBytes := curBytes + blob;
      index := index + [IndexEntry(name, PackLocation(curId.value, offset, length))];
      open := open + [item];
    }
    NextFitEnds(open, seen, target);
    FlushOpenBin(sealed, open, draws);
    if curId.Some? {
      if curBytes != [] {
        var bytes := PadPack(curBytes, DefaultLadder, draws.Filler(|packs|));
        packs := packs + [BuiltPack(curId.value, bytes)];
      }
    }
    packed := PackSet(packs, index);
  }

  lemma EmptyLists(draws: Draws)
    ensures Packs([], draws) == [] && Index([], draws, 0) == [] && Locations([], draws.ids(0), 0) == []
  {
  }

  lemma PacksSnoc(sealed: seq<Bin>, open: Bin, draws: Draws, n: nat)
    requires n == |sealed|
    ensures Packs(sealed + [open], draws) == Packs(sealed, draws) + [PackOf(open, draws, n)]
  {
    hide PackOf;
    var all := sealed + [open];
    forall i | 0 <= i < n
      ensures Packs(all, draws)[i] == Packs(sealed, draws)[i]
    {
      assert all[i] == sealed[i];
    }
    assert all[n] == open;
  }

  lemma SealOpenBin(sealed: seq<Bin>, open: Bin, draws: Draws)
    ensures Packs(sealed + [open], draws) == Packs(sealed, draws) + [PackOf(open, draws, |sealed|)]
    ensures Index(sealed + [open], draws, 0)
         == Index(sealed, draws, 0) + Locations(open, draws.ids(|sealed|), 0)
    ensures Locations([], draws.ids(|sealed| + 1), 0) == []
  {
    assert Locations([], draws.ids(|sealed| + 1), 0) == [];
    hide *;
    PacksSnoc(sealed, open, draws, |sealed|);
    IndexSnoc(sealed, open, draws, 0, |sealed|);
  }

  lemma PlaceInOpenBin(open: Bin, x: Item, id: string, offset: nat)
    requires offset == |Content(open)|
    ensures Content(open + [x]) == Content(open) + x.blob
    ensures Locations(open + [x], id, 0)
         == Locations(open, id, 0) + [IndexEntry(x.name, PackLocation(id, offset, |x.blob| % W32))]
  {
    SizeIsLength(open);
    ContentSnoc(open, x);
    LocationsSnoc(open, x, id, 0, offset);
  }

  lemma NextFitEnds(open: Bin, seen: set<string>, target: nat)
    ensures NextFit(open, Dedup([], seen), target) == if open == [] then [] else [open]
  {
  }

  /** At the end the open bin joins the sealed ones; it is uploaded only if it holds bytes. */
  lemma FlushOpenBin(sealed: seq<Bin>, open: Bin, draws: Draws)
    requires open == [] ==> sealed == []
    ensures open != [] ==> Emitted(sealed + [open]) == if Content(open) == [] then sealed else sealed + [open]
    ensures Packs(sealed + [open], draws) == Packs(sealed, draws) + [PackOf(open, draws, |sealed|)]
    ensures Index(sealed + [open], draws, 0)
         == Index(sealed, draws, 0) + Locations(open, draws.ids(|sealed|), 0)
    ensures Emitted([]) == [] && Index([], draws, 0) == [] && Locations([], draws.ids(0), 0) == []
  {
    SizeIsLength(open);
    SealOpenBin(sealed, open, draws);
  }
}
