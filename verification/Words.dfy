/** Machine words and bytes: the fixed-width arithmetic the Rust code relies on,
    written out over the natural numbers. */
module Words {

  type Byte = x: nat | x < 256

  type Bytes = seq<Byte>

  const W64: nat := 0x1_0000_0000_0000_0000
  const W32: nat := 0x1_0000_0000

  type u64 = x: nat | x < W64

  type u32 = x: nat | x < W32

  type i32 = x: int | -0x8000_0000 <= x < 0x8000_0000

  type i64 = x: int | -0x8000_0000_0000_0000 <= x < 0x8000_0000_0000_0000

  function Min(a: int, b: int): int {
    if a <= b then a else b
  }

  function Max(a: int, b: int): int {
    if a >= b then a else b
  }

  function Pow2(n: nat): (p: nat)
    ensures p > 0
  {
    if n == 0 then 1 else 2 * Pow2(n - 1)
  }

  lemma Pow2Is64()
    ensures Pow2(64) == W64
  {
    assert Pow2(4) == 16;
    Pow2Sum(4, 4);
    Pow2Sum(8, 8);
    Pow2Sum(16, 16);
    Pow2Sum(32, 32);
  }

  lemma {:induction false} Pow2Sum(a: nat, b: nat)
    ensures Pow2(a + b) == Pow2(a) * Pow2(b)
  {
    if b > 0 {
      Pow2Sum(a, b - 1);
    }
  }

  lemma {:induction false} Pow2Monotone(a: nat, b: nat)
    requires a <= b
    ensures Pow2(a) <= Pow2(b)
  {
    if a < b {
      Pow2Monotone(a, b - 1);
    }
  }

  /** Position of the highest set bit: `63 - leading_zeros` for a 64-bit word. */
  function FloorLog2(n: nat): (b: nat)
    requires n > 0
    ensures Pow2(b) <= n < Pow2(b + 1)
  {
    if n == 1 then 0 else 1 + FloorLog2(n / 2)
  }

  lemma FloorLog2Bound(n: nat)
    requires 0 < n < W64
    ensures FloorLog2(n) < 64
  {
    Pow2Is64();
    if FloorLog2(n) >= 64 {
      Pow2Monotone(64, FloorLog2(n));
    }
  }

  /** Bitwise AND, one bit at a time. */
  function And(a: nat, b: nat): nat {
    if a == 0 || b == 0 then 0
    else (if a % 2 == 1 && b % 2 == 1 then 1 else 0) + 2 * And(a / 2, b / 2)
  }

  /** `And` sets a bit exactly where both words do. */
  lemma {:induction false} AndIsBitwise(a: nat, b: nat, i: nat)
    ensures And(a, b) / Pow2(i) % 2 == if a / Pow2(i) % 2 == 1 && b / Pow2(i) % 2 == 1 then 1 else 0
    decreases i
  {
    if i == 0 {
      assert Pow2(0) == 1;
    } else if a != 0 && b != 0 {
      AndStep(a, b);
      hide And, Pow2;
      AndIsBitwise(a / 2, b / 2, i - 1);
      HalveThenShift(a, i);
      HalveThenShift(b, i);
      HalveThenShift(And(a, b), i);
    } else {
      ZeroHasNoBits(i);
    }
  }

  lemma AndStep(a: nat, b: nat)
    ensures And(a, b) / 2 == And(a / 2, b / 2)
  {
  }

  lemma ZeroHasNoBits(i: nat)
    ensures 0 / Pow2(i) == 0
  {
  }

  lemma HalveThenShift(a: nat, i: nat)
    requires i > 0
    ensures a / Pow2(i) == a / 2 / Pow2(i - 1)
  {
    var p := Pow2(i - 1);
    var q, r := a / 2 / p, a / 2 % p;
    assert a / 2 == p * q + r;
    assert a == 2 * (a / 2) + a % 2;
    assert a == q * (2 * p) + (2 * r + a % 2);
    DivModUnique(a, q, 2 * r + a % 2, 2 * p);
  }

  /** `<<` on a 64-bit word: bits shifted past the top are lost. */
  function Shl(x: u64, k: nat): u64 {
    (x * Pow2(k)) % W64
  }

  function WrappingAdd(x: u64, y: u64): u64 {
    (x + y) % W64
  }

  lemma ShiftAndAdd(x: u64, y: u64)
    ensures WrappingAdd(Shl(x, 1), y) == (2 * x + y) % W64
  {
    assert Pow2(1) == 2;
  }

  /** `top_bits_mask`: `n` ones above `64 - n` zeros; from 64 on all ones. */
  function TopBitsMask(n: nat): u64 {
    if n == 0 then 0
    else if n >= 64 then W64 - 1
    else Shl(W64 - 1, 64 - n)
  }

  lemma TopBitsMaskValue(n: nat)
    requires n <= 64
    ensures Pow2(64 - n) <= W64
    ensures TopBitsMask(n) == W64 - Pow2(64 - n)
  {
    Pow2Is64();
    Pow2Monotone(64 - n, 64);
    if 0 < n < 64 {
      var p := Pow2(64 - n);
      Pow2Sum(n, 64 - n);
      assert p < W64 by { Pow2Monotone(64 - n, 63); }
      assert (W64 - 1) * p == (p - 1) * W64 + (W64 - p);
      ModOfMultiple(p - 1, W64 - p, W64);
    }
  }

  lemma ModOfMultiple(q: nat, r: nat, m: nat)
    requires r < m
    ensures (q * m + r) % m == r
    ensures (q * m + r) / m == q
  {
    if q > 0 {
      ModOfMultiple(q - 1, r, m);
      assert q * m + r == (q - 1) * m + r + m;
      ModPlusModulus((q - 1) * m + r, m);
    }
  }

  lemma ModPlusModulus(x: nat, m: nat)
    requires m > 0
    ensures (x + m) % m == x % m
    ensures (x + m) / m == x / m + 1
  {
    var q, r := x / m, x % m;
    assert x + m == (q + 1) * m + r;
    DivModUnique(x + m, q + 1, r, m);
  }

  lemma MultipleGrows(d: int, m: nat)
    requires d >= 1
    ensures d * m >= m
  {
  }

  lemma DivModUnique(x: nat, q: nat, r: nat, m: nat)
    requires r < m && x == q * m + r
    ensures x / m == q && x % m == r
  {
    var d := x / m - q;
    assert x == m * (x / m) + x % m;
    assert d * m == r - x % m;
    if d >= 1 {
      MultipleGrows(d, m);
    } else if d <= -1 {
      MultipleGrows(-d, m);
    }
  }

  /** The mask with `w - k` high ones above `k` low zeros meets a `w`-bit word in
      nothing exactly when the word is below `2^k`. */
  lemma {:induction false} HighMaskMeets(fp: nat, w: nat, k: nat)
    requires k <= w && fp < Pow2(w)
    ensures Pow2(k) <= Pow2(w)
    ensures And(fp, Pow2(w) - Pow2(k)) == 0 <==> fp < Pow2(k)
    decreases w
  {
    Pow2Monotone(k, w);
    var mask := Pow2(w) - Pow2(k);
    if k == w {
    } else if k > 0 {
      assert mask == 2 * (Pow2(w - 1) - Pow2(k - 1));
      HighMaskMeets(fp / 2, w - 1, k - 1);
    } else if fp > 0 {
      assert mask % 2 == 1 && mask / 2 == Pow2(w - 1) - 1;
      HighMaskMeets(fp / 2, w - 1, 0);
    }
  }

  /** The chunker's cut test as a comparison: a word has none of its top `n` bits set exactly when it is
      below `2^(64-n)`; from 64 bits on the mask is all ones and only the zero word passes. */
  lemma MaskIsThreshold(fp: u64, n: nat)
    ensures And(fp, TopBitsMask(n)) == 0 <==> if n <= 64 then fp < Pow2(64 - n) else fp == 0
  {
    if n <= 64 {
      Pow2Is64();
      TopBitsMaskValue(n);
      HighMaskMeets(fp, 64, 64 - n);
    } else {
      MaskIsThreshold(fp, 64);
      assert TopBitsMask(n) == TopBitsMask(64) && Pow2(0) == 1;
    }
  }

  /** Little-endian encoding in exactly `width` bytes. */
  function LittleEndian(n: nat, width: nat): (bs: Bytes)
    ensures |bs| == width
  {
    if width == 0 then [] else [n % 256] + LittleEndian(n / 256, width - 1)
  }

  function Pow256(n: nat): (p: nat)
    ensures p > 0
  {
    if n == 0 then 1 else 256 * Pow256(n - 1)
  }

  /** The least significant byte comes first. */
  lemma {:induction false} LittleEndianIs(n: nat, width: nat, i: nat)
    requires i < width
    ensures LittleEndian(n, width)[i] == n / Pow256(i) % 256
  {
    if i == 0 {
      assert Pow256(0) == 1;
    } else {
      var p := Pow256(i - 1);
      LittleEndianIs(n / 256, width - 1, i - 1);
      DivideTwice(n, p);
      assert LittleEndian(n, width)[i] == LittleEndian(n / 256, width - 1)[i - 1];
    }
  }

  lemma DivideTwice(n: nat, p: nat)
    requires p > 0
    ensures n / (256 * p) == n / 256 / p
  {
    var q, r := n / 256 / p, n / 256 % p;
    assert n / 256 == p * q + r;
    assert n == 256 * (n / 256) + n % 256;
    assert n == q * (256 * p) + (256 * r + n % 256);
    DivModUnique(n, q, 256 * r + n % 256, 256 * p);
  }

  lemma {:induction false} LittleEndianInjective(m: nat, n: nat, width: nat)
    requires m < Pow256(width) && n < Pow256(width)
    requires LittleEndian(m, width) == LittleEndian(n, width)
    ensures m == n
  {
    if width > 0 {
      var a, b := LittleEndian(m, width), LittleEndian(n, width);
      assert a[0] == m % 256 && b[0] == n % 256;
      assert a[1..] == LittleEndian(m / 256, width - 1) && b[1..] == LittleEndian(n / 256, width - 1);
      LittleEndianInjective(m / 256, n / 256, width - 1);
    }
  }
}
