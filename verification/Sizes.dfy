/** Byte sizes that several models share, and how remainders by the chunk unit add up. */
module Sizes {
  import opened Bits

  /** The pages of x86-64. */
  const PAGE_SIZE: nat := 4096

  /** A chunk's header, and the unit of chunk sizes. */
  const OVERHEAD: nat := 16
  const SIZE_ALIGN: nat := 32

  lemma AddUnits(x: int, y: int, r: int, s: int)
    requires x % SIZE_ALIGN == r && y % SIZE_ALIGN == s && 0 <= r + s < SIZE_ALIGN
    ensures (x + y) % SIZE_ALIGN == r + s
  {
    var a, b := x / SIZE_ALIGN, y / SIZE_ALIGN;
    assert x == a * SIZE_ALIGN + r && y == b * SIZE_ALIGN + s;
    DivUnique(x + y, SIZE_ALIGN, a + b, r + s);
  }

  lemma SubUnits(x: int, y: int, r: int, s: int)
    requires x % SIZE_ALIGN == r && y % SIZE_ALIGN == s && 0 <= r - s < SIZE_ALIGN
    ensures (x - y) % SIZE_ALIGN == r - s
  {
    var a, b := x / SIZE_ALIGN, y / SIZE_ALIGN;
    assert x == a * SIZE_ALIGN + r && y == b * SIZE_ALIGN + s;
    DivUnique(x - y, SIZE_ALIGN, a - b, r - s);
  }

  lemma PositiveUnits(x: int)
    requires x > 0 && x % SIZE_ALIGN == 0
    ensures x >= SIZE_ALIGN
  {
    assert x == x / SIZE_ALIGN * SIZE_ALIGN;
  }

  /** Whole and half units are even. */
  lemma EvenUnits(x: int)
    requires x % SIZE_ALIGN == 0 || x % SIZE_ALIGN == 16
    ensures x % 2 == 0
  {
    var a, r := x / SIZE_ALIGN, x % SIZE_ALIGN;
    assert x == a * SIZE_ALIGN + r;
    DivUnique(x, 2, 16 * a + r / 2, 0);
  }

  /** Whole pages are whole units. */
  lemma PageUnits(x: int)
    requires x % PAGE_SIZE == 0
    ensures x % SIZE_ALIGN == 0 && (x > 0 ==> x >= PAGE_SIZE)
  {
    var a := x / PAGE_SIZE;
    assert x == a * PAGE_SIZE;
    DivUnique(x, SIZE_ALIGN, 128 * a, 0);
  }
}
