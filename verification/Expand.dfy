/** `__expand_heap` and `expand_heap`: page arithmetic, the kernel's answers and
    the two ways in which the heap grows. */
module Expand {
  import opened Sizes
  import opened Bits
  import opened Heap
  import opened Layout
  import opened Steps
  import opened Invariant
  import opened Growth
  import opened Accounting

  /** The kernel's answers during one call: sbrk(0), whether sbrk(n) succeeds,
      the address of an mmap (0 for MAP_FAILED), and the pages handed over. */
  datatype Os = Os(sbrk0: nat, brkOk: bool, brkPages: Memory, area: nat, areaPages: Memory)

  function BrkBase(storedBrk: nat, os: Os): nat {
    if storedBrk == 0 then AlignUp(os.sbrk0, PAGE_SIZE) else storedBrk
  }

  /** The exponential lower bound on growth by mmap. */
  function MmapLen(n: nat, step: nat): nat {
    var min := Wrap(PAGE_SIZE * Pow2(step / 2));
    if n < min then min else n
  }

  predicate BrkFits(storedBrk: nat, os: Os, n: nat) {
    n < WORD - 1 - BrkBase(storedBrk, os)
  }

  /** Where the region lies that __expand_heap gets for n bytes, and its length. */
  function RegionStart(storedBrk: nat, os: Os, n: nat): nat {
    if os.brkOk && BrkFits(storedBrk, os, n) then BrkBase(storedBrk, os) else os.area
  }

  function RegionLen(storedBrk: nat, os: Os, n: nat, step: nat): nat {
    if os.brkOk && BrkFits(storedBrk, os, n) then n else MmapLen(n, step)
  }

  /** A successful answer is a page-aligned region of fresh pages. */
  ghost predicate HonestBrk(m: Memory, storedBrk: nat, os: Os, n: nat) {
    && os.sbrk0 <= WORD - PAGE_SIZE
    && (os.brkOk && BrkFits(storedBrk, os, n) ==>
          BrkBase(storedBrk, os) > 0 && Pages(m, os.brkPages, BrkBase(storedBrk, os), n))
  }

  ghost predicate HonestMmap(m: Memory, os: Os, len: nat) {
    os.area != 0 ==>
      os.area % PAGE_SIZE == 0 && os.area + len < WORD && Pages(m, os.areaPages, os.area, len)
  }

  lemma {:induction false} HonestAnswer(m: Memory, os: Os, len: nat)
    requires HonestMmap(m, os, len) && os.area != 0
    ensures os.area % PAGE_SIZE == 0 && os.area + len < WORD && Pages(m, os.areaPages, os.area, len)
  {
  }

  lemma AlignUpPage(x: nat)
    requires x <= WORD - PAGE_SIZE
    ensures var r := AlignUp(x, PAGE_SIZE); r % PAGE_SIZE == 0 && x <= r < x + PAGE_SIZE
  {
    HalfWordIsPow2();
    AlignUpIs(x, 12);
  }

  lemma MmapLenIs(n: nat, step: nat)
    requires n % PAGE_SIZE == 0
    ensures MmapLen(n, step) % PAGE_SIZE == 0 && MmapLen(n, step) >= n
  {
    WrapPages(Pow2(step / 2));
  }

  /** The minimum starts at one page and doubles every second step, until the
      shift leaves nothing of it. */
  lemma MmapLenGrows(n: nat, step: nat)
    ensures MmapLen(n, step) == if n < MmapLen(0, step) then MmapLen(0, step) else n
    ensures MmapLen(0, 0) == MmapLen(0, 1) == PAGE_SIZE
    ensures MmapLen(0, step + 2) == if step < 102 then 2 * MmapLen(0, step) else 0
  {
    var k := step / 2;
    ShiftedPage(0);
    ShiftedPage(k);
    ShiftedPage(k + 1);
    assert Pow2(0) == 1;
    assert (step + 2) / 2 == k + 1;
  }

  /** `PAGE_SIZE << k` loses its one bit from k = 52 on. */
  lemma ShiftedPage(k: nat)
    ensures Wrap(PAGE_SIZE * Pow2(k)) == if k < 52 then PAGE_SIZE * Pow2(k) else 0
  {
    WordIsPow2();
    HalfWordIsPow2();
    Pow2Add(12, k);
    assert Pow2(1) == 2;
    hide Pow2, Wrap;
    if k < 52 {
      Pow2Monotone(12 + k, 63);
      Pow2Add(1, 63);
      WrapSmall(Pow2(12 + k));
    } else {
      Pow2Add(64, k - 52);
      WrapMultiple(Pow2(k - 52));
    }
  }

  lemma WrapMultiple(q: nat)
    ensures Wrap(WORD * q) == 0
  {
    DivUnique(WORD * q, WORD, q, 0);
  }

  lemma WrapPages(x: nat)
    ensures Wrap(PAGE_SIZE * x) % PAGE_SIZE == 0
  {
    var y := PAGE_SIZE * x;
    var q := y / WORD;
    assert y == q * WORD + y % WORD;
    assert y % WORD == PAGE_SIZE * (x - q * (WORD / PAGE_SIZE));
    DivUnique(y % WORD, PAGE_SIZE, x - q * (WORD / PAGE_SIZE), 0);
  }

  // ---- the two kinds of growth ----

  ghost predicate Sentinel0(h: Chunks, e: int) {
    e in h && h[e].size == 0
  }

  lemma {:induction false} InPlaceRange(arena: set<int>, h: Chunks, e: int, len: nat)
    requires Covered(arena, h) && Sentinel0(h, e)
    ensures Range(e, e + len + 16) <= arena + Range(e + 16, e + 16 + len)
  {
    var old', new' := Range(e, e + len + 16), arena + Range(e + 16, e + 16 + len);
    forall a | a in old' ensures a in new' {
      if a < e + 16 {
        assert e <= a < e + Span(h[e]);
      } else {
        assert Between(e + 16, a, e + 16 + len);
      }
    }
  }

  /** p == end: the old sentinel becomes the header. */
  lemma {:induction false} GrowInPlace(m: Memory, mal: int, v: View, pages: Memory, p: int, len: nat)
    requires Inv(m, mal, v, 0) && Sentinel0(v.h, p - 16) && Pages(m, pages, p, len)
    requires len >= 32 && len % SIZE_ALIGN == 0
    ensures p - 16 + len !in v.h
    ensures var m' := ExtendStores(m + pages, p - 16, len);
            && Inv(m', mal, v.(h := Extend(v.h, p - 16, len), arena := v.arena + Range(p, p + len)), 0)
            && Kept(m, m', Live(v))
  {
    hide Shaped, Chained, Apart, Headers, Binned, BinsLinked, Covered, Regions, Mmaps, Untouched, Range, Kept, LiveHeap;
    hide Extend, ExtendStores, Fresh;
    var e := p - 16;
    var v1 := v.(arena := v.arena + Range(p, p + len));
    FreshIsClear(m, mal, v, p, len);
    ClearAbove(v.h, e, len);
    GrowStep(m, mal, v, pages, p, len, Range(p, p + len));
    InPlaceRange(v.arena, v.h, e, len);
    ExtendStep(m + pages, mal, v1, e, len);
    UntouchedSame(m, m + pages, ExtendStores(m + pages, e, len), v.h, v.mm);
    UntouchedIsKept(m, ExtendStores(m + pages, e, len), v.h, v.mm);
  }

  /** p != end: a new segment, 32 bytes short of the region. */
  lemma {:induction false} GrowElsewhere(m: Memory, mal: int, v: View, pages: Memory, p: int, len: nat)
    requires Inv(m, mal, v, 0) && Pages(m, pages, p, len)
    requires p > 0 && p % SIZE_ALIGN == 0 && len >= 64 && len % SIZE_ALIGN == 0
    ensures p + 16 !in v.h && p + len - 16 !in v.h
    ensures var m' := ExtendStores((m + pages)[p + 16 := Word(0, true)], p + 16, len - 32);
            && Inv(m', mal, v.(h := NewSegment(v.h, p + 16, len - 32), arena := v.arena + Range(p + 16, p + len)), 0)
            && Kept(m, m', Live(v))
  {
    hide Shaped, Chained, Apart, Headers, Binned, BinsLinked, Covered, Regions, Mmaps, Untouched, Kept, LiveHeap;
    hide NewSegment, ExtendStores, Fresh;
    var c, n := p + 16, len - 32;
    var v1 := v.(arena := v.arena + Range(c, p + len));
    FreshIsClear(m, mal, v, p, len);
    ClearAround(v.h, c, n);
    GrowStep(m, mal, v, pages, p, len, Range(c, p + len));
    AddUnits(p, 16, 0, 16);
    NewSegmentStep(m + pages, mal, v1, c, n);
    UntouchedSame(m, m + pages, ExtendStores((m + pages)[c := Word(0, true)], c, n), v.h, v.mm);
    UntouchedIsKept(m, ExtendStores((m + pages)[c := Word(0, true)], c, n), v.h, v.mm);
  }
}
