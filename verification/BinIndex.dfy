/** The size classes of the allocator: `bin_tab`, `bin_index` and
    `bin_index_up` of musl/oldmalloc.c. Sizes are byte counts, multiples of 32. */
module BinIndex {
  import opened Sizes

  const MMAP_THRESHOLD: nat := 0x1c00 * SIZE_ALIGN

  // bin_tab, one constant per row of the initialiser
  const ROW_0: seq<nat> := [32, 33, 34, 35, 36, 36, 37, 37, 38, 38, 39, 39]
  const ROW_1: seq<nat> := [40, 40, 40, 40, 41, 41, 41, 41, 42, 42, 42, 42, 43, 43, 43, 43]
  const ROW_2: seq<nat> := [44, 44, 44, 44, 44, 44, 44, 44, 45, 45, 45, 45, 45, 45, 45, 45]
  const ROW_3: seq<nat> := [46, 46, 46, 46, 46, 46, 46, 46, 47, 47, 47, 47, 47, 47, 47, 47]
  const BIN_TAB: seq<nat> := ROW_0 + ROW_1 + ROW_2 + ROW_3

  predicate IsSize(x: int) {
    x > 0 && x % SIZE_ALIGN == 0
  }

  function Index(size: nat): nat
    requires IsSize(size)
  {
    var x := size / SIZE_ALIGN - 1;
    if x <= 32 then x
    else if x < 512 then BIN_TAB[x / 8 - 4]
    else if x > 0x1c00 then 63
    else BIN_TAB[x / 128 - 4] + 16
  }

  function IndexUp(size: nat): nat
    requires IsSize(size) && size <= MMAP_THRESHOLD
  {
    var x := size / SIZE_ALIGN - 1;
    if x <= 32 then x
    else
      var y := x - 1;
      if y < 512 then BIN_TAB[y / 8 - 4] + 1
      else BIN_TAB[y / 128 - 4] + 17
  }

  /** The smallest number of 32-byte units in bin k, written as the arithmetic
      progression behind the table: four bins per power of two. */
  function Low(k: nat): nat
    requires k <= 63
  {
    if k <= 32 then k + 1
    else if k < 36 then 33 + 8 * (k - 32)
    else if k < 40 then 65 + 16 * (k - 36)
    else if k < 44 then 129 + 32 * (k - 40)
    else if k < 48 then 257 + 64 * (k - 44)
    else if k < 52 then 513 + 128 * (k - 48)
    else if k < 56 then 1025 + 256 * (k - 52)
    else if k < 60 then 2049 + 512 * (k - 56)
    else 4097 + 1024 * (k - 60)
  }

  ghost predicate EntryOk(q: nat)
    requires q < 60
  {
    && 32 <= BIN_TAB[q] <= 47 && (q < 52 ==> BIN_TAB[q] <= 46) && (q == 0 ==> BIN_TAB[q] == 32)
    && (q > 0 ==> Low(BIN_TAB[q]) <= 8 * (q + 4) + 1)
    && (BIN_TAB[q] < 47 ==> 8 * (q + 5) + 1 <= Low(BIN_TAB[q] + 1))
  }

  lemma Row0(q: nat)
    requires q < 12
    ensures EntryOk(q)
  {
    assert BIN_TAB[q] == ROW_0[q];
    assert ROW_0[q] == if q < 4 then 32 + q else 34 + q / 2;
  }

  lemma Row1(q: nat)
    requires 12 <= q < 28
    ensures EntryOk(q)
  {
    assert BIN_TAB[q] == ROW_1[q - 12];
    assert ROW_1[q - 12] == 40 + (q - 12) / 4;
  }

  lemma Row2(q: nat)
    requires 28 <= q < 44
    ensures EntryOk(q)
  {
    assert BIN_TAB[q] == ROW_2[q - 28];
    assert ROW_2[q - 28] == 44 + (q - 28) / 8;
  }

  lemma Row3(q: nat)
    requires 44 <= q < 60
    ensures EntryOk(q)
  {
    assert BIN_TAB[q] == ROW_3[q - 44];
    assert ROW_3[q - 44] == 46 + (q - 44) / 8;
  }

  /** Entry q of the table, relative to the bin bounds. */
  lemma TabBounds(q: nat)
    requires q < 60
    ensures 32 <= BIN_TAB[q] <= 47
    ensures q < 52 ==> BIN_TAB[q] <= 46
    ensures q > 0 ==> Low(BIN_TAB[q]) <= 8 * (q + 4) + 1
    ensures q == 0 ==> BIN_TAB[q] == 32
    ensures BIN_TAB[q] < 47 ==> 8 * (q + 5) + 1 <= Low(BIN_TAB[q] + 1)
  {
    assert EntryOk(q) by {
      hide EntryOk;
      if q < 12 { Row0(q); } else if q < 28 { Row1(q); } else if q < 44 { Row2(q); } else { Row3(q); }
    }
    hide Low;
  }

  /** The two halves of the table agree: scaling by 16 adds 16 bins. */
  lemma LowScales(k: nat)
    requires 33 <= k <= 47
    ensures Low(k + 16) - 1 == 16 * (Low(k) - 1)
  {
  }

  ghost predicate InBin(units: nat, k: nat) {
    k <= 63 && Low(k) <= units && (k < 63 ==> units < Low(k + 1))
  }

  lemma FineRange(x: nat)
    requires 32 < x < 512
    ensures InBin(x + 1, BIN_TAB[x / 8 - 4])
  {
    TabBounds(x / 8 - 4);
  }

  lemma CoarseRange(x: nat)
    requires 512 <= x <= 0x1c00
    ensures InBin(x + 1, BIN_TAB[x / 128 - 4] + 16)
  {
    var q := x / 128 - 4;
    TabBounds(q);
    if BIN_TAB[q] >= 33 { LowScales(BIN_TAB[q]); }
    if BIN_TAB[q] < 47 { LowScales(BIN_TAB[q] + 1); }
  }

  lemma LowExtremes()
    ensures forall k: nat :: k <= 32 ==> Low(k) == k + 1
    ensures Low(33) == 41 && Low(63) == 7169
  {
  }

  /** `bin_index` is exactly the partition of the sizes by the bin bounds. */
  lemma IndexIs(size: nat)
    requires IsSize(size)
    ensures InBin(size / SIZE_ALIGN, Index(size))
  {
    hide Low;
    LowExtremes();
    var x := size / SIZE_ALIGN - 1;
    if 32 < x < 512 {
      FineRange(x);
    } else if 512 <= x <= 0x1c00 {
      CoarseRange(x);
    }
  }

  lemma LowMonotone(j: nat, k: nat)
    requires j < k <= 63
    ensures Low(j) < Low(k)
  {
  }

  lemma IndexMonotone(s: nat, t: nat)
    requires IsSize(s) && IsSize(t) && s <= t
    ensures Index(s) <= Index(t) <= 63
  {
    IndexIs(s);
    IndexIs(t);
    if Index(t) < Index(s) && Index(t) + 1 < Index(s) {
      LowMonotone(Index(t) + 1, Index(s));
    }
  }

  /** `bin_index_up` is the first bin all of whose members are large enough. */
  lemma IndexUpIs(n: nat)
    requires IsSize(n) && n <= MMAP_THRESHOLD
    ensures IndexUp(n) <= 63
    ensures n / SIZE_ALIGN <= Low(IndexUp(n))
    ensures IndexUp(n) > 0 ==> Low(IndexUp(n) - 1) < n / SIZE_ALIGN
  {
    var x := n / SIZE_ALIGN - 1;
    if x > 32 {
      var y := x - 1;
      if y < 512 {
        TabBounds(y / 8 - 4);
      } else {
        var q := y / 128 - 4;
        TabBounds(q);
        if BIN_TAB[q] >= 33 { LowScales(BIN_TAB[q]); }
        LowScales(BIN_TAB[q] + 1);
      }
    }
  }

  /** Any chunk found in a bin at or above `bin_index_up(n)` fits n. */
  lemma GoodFit(s: nat, n: nat)
    requires IsSize(s) && IsSize(n) && n <= MMAP_THRESHOLD
    requires Index(s) >= IndexUp(n)
    ensures s >= n
  {
    IndexIs(s);
    IndexUpIs(n);
    if IndexUp(n) < Index(s) {
      LowMonotone(IndexUp(n), Index(s));
    }
  }

  /** No smaller index has that guarantee. */
  lemma IndexUpLeast(n: nat, k: nat)
    requires IsSize(n) && n <= MMAP_THRESHOLD && k < IndexUp(n)
    ensures exists s: nat :: IsSize(s) && Index(s) >= k && s < n
  {
    IndexUpIs(n);
    var j := IndexUp(n) - 1;
    var s := Low(j) * SIZE_ALIGN;
    IndexIs(s);
    if Index(s) < j {
      if Index(s) + 1 < j { LowMonotone(Index(s) + 1, j); }
      assert false;
    }
    assert IsSize(s) && Index(s) >= k && s < n;
  }

  /** How much larger than n a chunk below that bin can be: less than 5n/4,
      and less than n up to 33 units. */
  lemma SmallBinsAreSmall(s: nat, n: nat)
    requires IsSize(s) && IsSize(n) && n <= MMAP_THRESHOLD
    requires Index(s) < IndexUp(n)
    ensures 4 * s < 5 * n
    ensures n <= 33 * SIZE_ALIGN ==> s < n
  {
    IndexIs(s);
    IndexUpIs(n);
    var k := IndexUp(n);
    if Index(s) + 1 < k {
      LowMonotone(Index(s) + 1, k);
    }
    assert s / SIZE_ALIGN < Low(k);
    BinWidth(k);
  }

  lemma LastBin(s: nat)
    requires IsSize(s) && Index(s) == 63
    ensures s > 0x1c00 * SIZE_ALIGN
  {
    IndexIs(s);
    assert s == s / SIZE_ALIGN * SIZE_ALIGN;
  }

  /** A chunk of no higher bin than another's is at most about a quarter larger, and
      no larger at all up to 33 units. */
  lemma LowerBinIsSmaller(s: nat, t: nat)
    requires IsSize(s) && IsSize(t) && Index(s) <= Index(t) && Index(s) < 63
    ensures 4 * s < 5 * (t + SIZE_ALIGN)
    ensures s <= 33 * SIZE_ALIGN ==> s <= t
  {
    IndexIs(s);
    IndexIs(t);
    var k := Index(s);
    if k < Index(t) { LowMonotone(k, Index(t)); }
    BinWidth(k + 1);
    assert s == s / SIZE_ALIGN * SIZE_ALIGN && t == t / SIZE_ALIGN * SIZE_ALIGN;
    assert Low(k) <= t / SIZE_ALIGN && s / SIZE_ALIGN <= Low(k + 1) - 1;
  }

  /** Each bin is less than a quarter as wide as its lower bound. */
  lemma BinWidth(k: nat)
    requires 1 <= k <= 63
    ensures 4 * (Low(k) - 1) < 5 * (Low(k - 1) + 1)
    ensures k <= 32 ==> Low(k) == Low(k - 1) + 1
  {
  }
}
