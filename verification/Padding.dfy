/** The geometric ladder of stored pack sizes (vault-core/src/pack.rs, `PadLadder` and `pad_pack`). */
module Padding {
  import opened Words

  type u128 = x: nat | x < W64 * W64

  const MaxUsize: u64 := W64 - 1

  datatype PadLadder = PadLadder(floor: u64, growthNum: u64, growthDen: u64) {

    function First(): (s: u64)
      ensures s > 0
    {
      Max(floor, 1)
    }

    /** The step after `step`: scaled, capped at `usize::MAX`, and at least one byte further. */
    function Next(step: nat): (next: nat)
      ensures step < next
    {
      var scaled := Min(step * growthNum / Max(growthDen, 1), MaxUsize);
      if scaled > step then scaled else step + 1
    }

    /** The `k`-th step of the ladder. */
    function Rung(k: nat): nat {
      if k == 0 then First() else Next(Rung(k - 1))
    }

    ghost predicate IsRung(s: nat) {
      exists k: nat :: Rung(k) == s
    }

    lemma {:induction false} RungsIncrease(j: nat, k: nat)
      requires j <= k
      ensures Rung(j) + (k - j) <= Rung(k)
      decreases k - j
    {
      if j < k {
        RungsIncrease(j, k - 1);
      }
    }

    function ClimbFrom(step: nat, len: nat): (s: nat)
      ensures s >= len && s >= step
      decreases len - step
    {
      if step >= len then step else ClimbFrom(Next(step), len)
    }

    function StepFor(len: nat): (s: nat)
      ensures s >= len && s > 0
    {
      ClimbFrom(First(), len)
    }

    /** `step_for`: the loop ends, and no intermediate value leaves its machine type. */
    method ComputeStepFor(len: u64) returns (step: u64)
      ensures step == StepFor(len)
    {
      hide ClimbFrom;
      step := First();
      while step < len
        invariant ClimbFrom(step, len) == StepFor(len)
        decreases len - step
      {
        ProductFits(step, growthNum);
        ClimbStep(step, len);
        var product: u128 := step * growthNum;
        var next: u64 := Min(product / Max(growthDen, 1), MaxUsize);
        step := if next > step then next else step + 1;
      }
      ClimbStops(step, len);
    }

    lemma ClimbStep(step: nat, len: nat)
      requires step < len
      ensures ClimbFrom(step, len) == ClimbFrom(Next(step), len)
    {
    }

    lemma ClimbStops(step: nat, len: nat)
      requires step >= len
      ensures ClimbFrom(step, len) == step
    {
    }

    lemma {:induction false} ClimbReachesLeastRung(k: nat, len: nat)
      ensures IsRung(ClimbFrom(Rung(k), len))
      ensures forall j: nat :: j >= k && Rung(j) >= len ==> ClimbFrom(Rung(k), len) <= Rung(j)
      decreases len - Rung(k)
    {
      if Rung(k) >= len {
        forall j: nat | j >= k
          ensures Rung(k) <= Rung(j)
        {
          RungsIncrease(k, j);
        }
      } else {
        ClimbReachesLeastRung(k + 1, len);
      }
    }

    /** `StepFor(len)` is the smallest ladder step at or above `len`. */
    lemma StepForIsLeastRung(len: nat)
      ensures IsRung(StepFor(len)) && StepFor(len) >= len
      ensures forall s: nat :: IsRung(s) && s >= len ==> StepFor(len) <= s
    {
      ClimbReachesLeastRung(0, len);
    }

    /** `s'` is as far above `s` as the ratio reaches, rounded down, but at least one byte on, and past the last
        machine word only one byte on. */
    predicate Spaced(s: nat, s': nat) {
      var den := if growthDen == 0 then 1 else growthDen;
      && s < s'
      && (s' == s + 1 || (s' * den <= s * growthNum && s' <= 0xFFFF_FFFF_FFFF_FFFF))
      && ((s' + 1) * den > s * growthNum || s' >= 0xFFFF_FFFF_FFFF_FFFF)
    }

    lemma NextIsSpaced(step: nat)
      ensures Spaced(step, Next(step))
    {
      FlooredSpacing(step * growthNum, Max(growthDen, 1), step, Next(step), step * growthNum / Max(growthDen, 1));
    }

    /** The rungs start at the floor, or at 1 if that is 0, and are spaced by the ladder's ratio. */
    lemma RungSpacing(k: nat)
      ensures Rung(0) == if floor == 0 then 1 else floor
      ensures Spaced(Rung(k), Rung(k + 1))
    {
      RungStep(k, k + 1);
      NextIsSpaced(Rung(k));
    }

    lemma RungStep(k: nat, next: nat)
      requires next == k + 1
      ensures Rung(next) == Next(Rung(k)) && Rung(k) < Rung(next)
    {
    }

    /** A length between two neighbouring rungs is stored at the upper one. */
    lemma BetweenRungs(k: nat, next: nat, len: nat)
      requires next == k + 1
      ensures Rung(k) < len <= Rung(next) ==> StepFor(len) == Rung(next)
    {
      hide Rung, StepFor;
      if Rung(k) < len <= Rung(next) {
        StepForIsLeastRung(len);
        var j: nat :| Rung(j) == StepFor(len);
        if j <= k {
          RungsIncrease(j, k);
        } else {
          RungsIncrease(next, j);
        }
        assert IsRung(Rung(next));
      }
    }

    lemma StepForMonotone(a: nat, b: nat)
      requires a <= b
      ensures StepFor(a) <= StepFor(b)
    {
      StepForIsLeastRung(a);
      StepForIsLeastRung(b);
    }

    lemma StepForIdempotent(len: nat)
      ensures StepFor(StepFor(len)) == StepFor(len)
    {
      StepForIsLeastRung(len);
      StepForIsLeastRung(StepFor(len));
    }

    /** Two contents are stored at the same size exactly when no ladder step separates them. */
    lemma SameStepIffNotSeparated(a: nat, b: nat)
      requires a <= b
      ensures StepFor(a) == StepFor(b) <==> !exists s: nat :: IsRung(s) && a <= s < b
    {
      StepForIsLeastRung(a);
      StepForIsLeastRung(b);
      StepForMonotone(a, b);
    }

    lemma {:induction false} ClimbOverhead(step: nat, len: nat)
      requires 1 <= growthDen < growthNum && step < len
      ensures ClimbFrom(step, len) * growthDen < len * growthNum
      decreases len - step
    {
      var next := Next(step);
      if next < len {
        ClimbOverhead(next, len);
      } else {
        assert ClimbFrom(step, len) == next by {
          assert ClimbFrom(next, len) == next;
        }
        NextOverhead(step, len);
      }
    }

    lemma NextOverhead(step: nat, len: nat)
      requires 1 <= growthDen < growthNum && step < len
      ensures Next(step) * growthDen < len * growthNum
    {
      var scaled := step * growthNum / growthDen;
      FloorTimesDivisor(step * growthNum, growthDen);
      if Next(step) > step + 1 {
        MulMonotone(Next(step), scaled, growthDen);
        MulStrict(step, len, growthNum);
      } else {
        MulMonotone(Next(step), len, growthDen);
        MulStrict(growthDen, growthNum, len);
      }
    }

    /** Above the first step, a growing ladder rounds up by less than its ratio. */
    lemma OverheadBelowRatio(len: nat)
      requires 1 <= growthDen < growthNum && len > First()
      ensures StepFor(len) * growthDen < len * growthNum
    {
      ClimbOverhead(First(), len);
    }
  }

  lemma ProductFits(a: u64, b: u64)
    ensures a * b < W64 * W64
  {
    MulMonotone(a, MaxUsize, b);
    MulMonotone(b, MaxUsize, MaxUsize);
  }

  lemma FloorTimesDivisor(n: nat, d: nat)
    requires d > 0
    ensures n / d * d <= n
  {
  }

  lemma NextMultipleExceeds(n: nat, d: nat)
    requires d > 0
    ensures (n / d + 1) * d > n
  {
  }

  lemma FlooredSpacing(product: nat, den: nat, step: nat, next: nat, floored: nat)
    requires den > 0 && floored == product / den && next == Max(Min(floored, MaxUsize), step + 1)
    ensures next == step + 1 || (next * den <= product && next <= MaxUsize)
    ensures (next + 1) * den > product || next >= MaxUsize
  {
    FloorTimesDivisor(product, den);
    NextMultipleExceeds(product, den);
    if next <= floored {
      MulMonotone(next, floored, den);
    }
    if floored <= next {
      MulMonotone(floored + 1, next + 1, den);
    }
  }

  lemma MulMonotone(a: nat, b: nat, c: nat)
    requires a <= b
    ensures a * c <= b * c
  {
  }

  lemma MulStrict(a: nat, b: nat, c: nat)
    requires a < b && c > 0
    ensures a * c < b * c
  {
  }

  /** `PadLadder::DEFAULT`: the first step is 256 KiB and each further one a quarter larger. */
  const DefaultLadder := PadLadder(256 * 1024, 5, 4)

  /** Production packs above 256 KiB grow by less than a quarter; smaller ones all store alike. */
  lemma DefaultLadderCost(len: nat)
    ensures len > 256 * 1024 ==> DefaultLadder.StepFor(len) * 4 < len * 5
    ensures len <= 256 * 1024 ==> DefaultLadder.StepFor(len) == 256 * 1024
  {
    if len > 256 * 1024 {
      DefaultLadder.OverheadBelowRatio(len);
    }
  }

  /** The production rungs up to the first one above the 4 MiB target. */
  const DefaultRungs := [262144, 327680, 409600, 512000, 640000, 800000, 1000000, 1250000, 1562500, 1953125,
                         2441406, 3051757, 3814696, 4768370]

  lemma DefaultNext(step: nat)
    requires 4 <= step < 10_000_000
    ensures DefaultLadder.Next(step) == step * 5 / 4
  {
  }

  lemma QuarterLarger(k: nat)
    requires 0 < k < |DefaultRungs|
    ensures DefaultRungs[k] == DefaultRungs[k - 1] * 5 / 4 && 4 <= DefaultRungs[k - 1] < 10_000_000
  {
  }

  lemma {:induction false} DefaultRungsAre(k: nat)
    requires k < |DefaultRungs|
    ensures DefaultLadder.Rung(k) == DefaultRungs[k]
  {
    if k > 0 {
      DefaultRungsAre(k - 1);
      QuarterLarger(k);
      DefaultNext(DefaultRungs[k - 1]);
      DefaultLadder.RungStep(k - 1, k);
    }
  }

  /** What a production pack of each size is stored at: everything between two rungs alike, so anything
      from one byte over 256 KiB up to 320 KiB at 320 KiB, and a full 4 MiB pack at 4,768,370 bytes. */
  lemma DefaultLadderStores(k: nat, len: nat)
    requires 0 < k < |DefaultRungs| && DefaultRungs[k - 1] < len <= DefaultRungs[k]
    ensures DefaultLadder.StepFor(len) == DefaultRungs[k]
  {
    DefaultRungsAre(k - 1);
    DefaultRungsAre(k);
    DefaultLadder.BetweenRungs(k - 1, k, len);
  }

  /** `fill_bytes`: the next `n` bytes drawn. */
  function Filler(n: nat, noise: nat -> Byte): (bytes: Bytes)
    ensures |bytes| == n
  {
    seq(n, i requires 0 <= i < n => noise(i))
  }

  /** What `pad_pack` leaves in the buffer: the content, then filler up to the ladder step. */
  function Padded(content: Bytes, ladder: PadLadder, noise: nat -> Byte): (padded: Bytes)
    ensures |padded| == ladder.StepFor(|content|)
    ensures content <= padded
  {
    content + Filler(ladder.StepFor(|content|) - |content|, noise)
  }

  /** What follows the content is the drawn noise, byte for byte. */
  lemma FillerIsNoise(content: Bytes, ladder: PadLadder, noise: nat -> Byte, i: nat)
    requires |content| + i < ladder.StepFor(|content|)
    ensures Padded(content, ladder, noise)[|content| + i] == noise(i)
  {
    hide PadLadder.StepFor;
    assert Filler(ladder.StepFor(|content|) - |content|, noise)[i] == noise(i);
  }

  method PadPack(content: Bytes, ladder: PadLadder, noise: nat -> Byte) returns (bytes: Bytes)
    requires |content| < W64
    ensures bytes == Padded(content, ladder, noise)
  {
    bytes := content;
    var step := ladder.ComputeStepFor(|content|);
    if step > |content| {
      bytes := bytes + Filler(step - |content|, noise);
    }
  }
}
